/** The text of an IPv6 address: what `IPv6Address::insert` prints, and what a text stands
    for by section 2.2 of RFC 4291. */
module Ipv6 {
  import opened Base

  /** Eight 16-bit groups in the order they are written. */
  type Address = g: seq<nat> | |g| == 8 && forall i :: 0 <= i < 8 ==> g[i] < 0x1_0000
    witness [0, 0, 0, 0, 0, 0, 0, 0]

  // --- numbers ---

  function Digit(d: nat): (c: char)
    requires d < 16
    ensures c != ':'
  {
    "0123456789abcdef"[d]
  }

  function DigitValue(c: char): Option<nat> {
    if '0' <= c <= '9' then Some((c - '0') as nat)
    else if 'a' <= c <= 'f' then Some((c - 'a') as nat + 10)
    else None
  }

  /** `std::hex`: no leading zeros. */
  function Hex(n: nat): (s: string)
    ensures s != "" && forall i :: 0 <= i < |s| ==> s[i] != ':'
  {
    if n < 16 then [Digit(n)] else Hex(n / 16) + [Digit(n % 16)]
  }

  lemma {:induction false} HexDigits(n: nat)
    ensures forall i :: 0 <= i < |Hex(n)| ==> '0' <= Hex(n)[i] <= '9' || 'a' <= Hex(n)[i] <= 'f'
    ensures n > 0 ==> Hex(n)[0] != '0'
  {
    var digits := "0123456789abcdef";
    assert forall d: nat :: d < 16 ==> digits[d] == if d < 10 then '0' + d as char else 'a' + (d - 10) as char;
    if n >= 16 { HexDigits(n / 16); }
  }

  /** A group of an address takes at most four digits, and starts with '0' only if it is 0. */
  lemma GroupText(n: nat)
    requires n < 0x1_0000
    ensures 1 <= |Hex(n)| <= 4 && (Hex(n)[0] == '0' <==> n == 0) && (n == 0 ==> Hex(n) == "0")
    ensures forall i :: 0 <= i < |Hex(n)| ==> '0' <= Hex(n)[i] <= '9' || 'a' <= Hex(n)[i] <= 'f'
  {
    HexDigits(n);
    if n >= 16 { assert |Hex(n)| == |Hex(n / 16)| + 1; }
    if n >= 256 { assert |Hex(n / 16)| == |Hex(n / 256)| + 1; }
    if n >= 4096 { assert |Hex(n / 256)| == |Hex(n / 4096)| + 1; }
  }

  function ParseHex(s: string): Option<nat>
    requires s != ""
  {
    var last := DigitValue(s[|s| - 1]);
    if |s| == 1 || last.None? then last
    else
      match ParseHex(s[..|s| - 1])
      case None => None
      case Some(n) => Some(16 * n + last.value)
  }

  lemma DigitBack(d: nat)
    requires d < 16
    ensures DigitValue(Digit(d)) == Some(d)
  {
    var digits := "0123456789abcdef";
    assert digits[d] == if d < 10 then '0' + d as char else 'a' + (d - 10) as char;
  }

  lemma ParseSnoc(x: string, n: nat, d: nat)
    requires x != "" && d < 16 && ParseHex(x) == Some(n)
    ensures ParseHex(x + [Digit(d)]) == Some(16 * n + d)
  {
    DigitBack(d);
    assert (x + [Digit(d)])[..|x|] == x;
  }

  /** No text that stands for the number is shorter. */
  lemma {:induction false} HexShortest(s: string, n: nat)
    requires s != "" && ParseHex(s) == Some(n)
    ensures |Hex(n)| <= |s|
  {
    if |s| > 1 && n >= 16 {
      var front := s[..|s| - 1];
      var last := DigitValue(s[|s| - 1]).value;
      assert ParseHex(front).Some? && n == 16 * ParseHex(front).value + last && last < 16;
      HexShortest(front, ParseHex(front).value);
    }
  }

  lemma {:induction false} HexBack(n: nat)
    ensures ParseHex(Hex(n)) == Some(n)
  {
    if n < 16 {
      DigitBack(n);
    } else {
      HexBack(n / 16);
      ParseSnoc(Hex(n / 16), n / 16, n % 16);
    }
  }

  // --- groups ---

  /** Groups separated by colons. */
  function Join(gs: seq<nat>): string {
    if gs == [] then ""
    else if |gs| == 1 then Hex(gs[0])
    else Hex(gs[0]) + ":" + Join(gs[1..])
  }

  /** The position of the first colon, the length if there is none. */
  function FirstColon(s: string): (k: nat)
    ensures k <= |s| && (forall i :: 0 <= i < k ==> s[i] != ':') && (k < |s| ==> s[k] == ':')
  {
    if s == "" || s[0] == ':' then 0 else 1 + FirstColon(s[1..])
  }

  /** The groups that a text without "::" stands for. */
  function Groups(s: string): Option<seq<nat>>
    decreases |s|
  {
    if s == "" then Some([])
    else
      var k := FirstColon(s);
      if k == 0 then None
      else if k == |s| then
        var g := ParseHex(s);
        if g.Some? then Some([g.value]) else None
      else
        var g, more := ParseHex(s[..k]), Groups(s[k + 1..]);
        if g.Some? && more.Some? && more.value != [] then Some([g.value] + more.value) else None
  }

  lemma {:induction false} FirstColonIs(x: string, y: string)
    requires forall i :: 0 <= i < |x| ==> x[i] != ':'
    ensures FirstColon(x + ":" + y) == |x|
  {
    if x != "" {
      assert (x + ":" + y)[1..] == x[1..] + ":" + y;
      FirstColonIs(x[1..], y);
    } else {
      assert x + ":" + y == ":" + y;
    }
  }

  lemma OneGroup(g: nat, x: string)
    requires x == Hex(g)
    ensures Groups(x) == Some([g])
  {
    HexBack(g);
    assert FirstColon(x) < |x| ==> ':' in x;
  }

  lemma GroupsStep(x: string, more: string, s: string)
    requires x != "" && (forall i :: 0 <= i < |x| ==> x[i] != ':') && s == x + ":" + more
    ensures FirstColon(s) == |x| < |s| && s[..|x|] == x && s[|x| + 1..] == more
  {
    FirstColonIs(x, more);
  }

  lemma FirstGroup(g: nat, gs: seq<nat>, x: string, more: string, s: string)
    requires x == Hex(g) && Groups(more) == Some(gs) && gs != [] && s == x + ":" + more
    ensures Groups(s) == Some([g] + gs)
  {
    HexBack(g);
    GroupsStep(x, more, s);
  }

  lemma GroupsMore(gs: seq<nat>, more: string)
    requires |gs| > 1 && more == Join(gs[1..]) && Groups(more) == Some(gs[1..])
    ensures Groups(Join(gs)) == Some(gs)
  {
    FirstGroup(gs[0], gs[1..], Hex(gs[0]), more, Join(gs));
    assert gs == [gs[0]] + gs[1..];
  }

  lemma GroupsOne(gs: seq<nat>)
    requires |gs| == 1
    ensures Groups(Join(gs)) == Some(gs)
  {
    OneGroup(gs[0], Hex(gs[0]));
    assert gs == [gs[0]];
  }

  lemma {:induction false} GroupsBack(gs: seq<nat>)
    ensures Groups(Join(gs)) == Some(gs)
    decreases |gs|
  {
    if |gs| == 1 {
      GroupsOne(gs);
    } else if |gs| > 1 {
      GroupsBack(gs[1..]);
      GroupsMore(gs, Join(gs[1..]));
    }
  }

  lemma Plain3(x: string, y: string, z: string)
    ensures x + (y + ":" + z) == x + y + ":" + z
  {}

  lemma {:induction false} JoinSnoc(gs: seq<nat>, g: nat)
    ensures Join(gs + [g]) == if gs == [] then Hex(g) else Join(gs) + ":" + Hex(g)
    decreases |gs|
  {
    if |gs| > 0 {
      assert (gs + [g])[1..] == gs[1..] + [g];
      JoinSnoc(gs[1..], g);
      if |gs| > 1 { Plain3(Hex(gs[0]) + ":", Join(gs[1..]), Hex(g)); }
    }
  }

  // --- what a text stands for ---

  function Zeros(n: nat): (r: seq<nat>)
    ensures |r| == n && forall i :: 0 <= i < n ==> r[i] == 0
  {
    seq(n, i => 0)
  }

  /** Section 2.2 of RFC 4291: eight groups, or "::" for one or more groups of zeros. */
  function Expand(s: string): Option<seq<nat>> {
    var k := FirstGap(s);
    if k == |s| then
      var all := Groups(s);
      if all.Some? && |all.value| == 8 then all else None
    else Fill(Groups(s[..k]), Groups(s[k + 2..]))
  }

  /** Zeros between the groups on the left and those on the right. */
  function Fill(left: Option<seq<nat>>, right: Option<seq<nat>>): Option<seq<nat>> {
    if left.Some? && right.Some? && |left.value| + |right.value| <= 7
    then Some(left.value + Zeros(8 - |left.value| - |right.value|) + right.value)
    else None
  }

  // --- what is printed ---

  /** The first zero group, 8 if there is none. */
  function FirstZero(g: seq<nat>): (a: nat)
    ensures a <= |g| && (forall i :: 0 <= i < a ==> g[i] != 0) && (a < |g| ==> g[a] == 0)
  {
    if g == [] || g[0] == 0 then 0 else 1 + FirstZero(g[1..])
  }

  /** The end of the run of zeros that starts at `a`. */
  function RunEnd(g: seq<nat>, a: nat): (b: nat)
    requires a <= |g|
    ensures a <= b <= |g| && (forall i :: a <= i < b ==> g[i] == 0) && (b < |g| ==> g[b] != 0)
    ensures a < |g| && g[a] == 0 ==> a < b
    decreases |g| - a
  {
    if a == |g| || g[a] != 0 then a else RunEnd(g, a + 1)
  }

  /** The address with the first run of zeros left out. */
  function Text(g: Address): string {
    var a := FirstZero(g);
    if a == 8 then Join(g) else Join(g[..a]) + "::" + Join(g[RunEnd(g, a)..])
  }

  /** What has been printed when group `i` is next. */
  function Sofar(g: Address, i: nat): string
    requires i <= 8
  {
    var a := FirstZero(g);
    var b := RunEnd(g, a);
    if i <= a then Join(g[..i]) else if i <= b then Join(g[..a]) else Join(g[..a]) + "::" + Join(g[b..i])
  }

  /** Groups before the first zero, or behind the run. */
  lemma JoinNext(g: Address, b: nat, i: nat)
    requires b <= i < 8
    ensures Join(g[b..i + 1]) == if i == b then Hex(g[i]) else Join(g[b..i]) + ":" + Hex(g[i])
  {
    JoinSnoc(g[b..i], g[i]);
    assert g[b..i + 1] == g[b..i] + [g[i]];
  }

  /** What one round of the loop adds. */
  function Added(g: Address, i: nat): string
    requires i < 8
  {
    var a := FirstZero(g);
    var b := RunEnd(g, a);
    if a <= i < b then ""
    else if i == 0 then Hex(g[i])
    else if i == b && a < b then "::" + Hex(g[i])
    else ":" + Hex(g[i])
  }

  lemma Plain(x: string, y: string, z: string)
    ensures x + y + z == x + (y + z)
  {}

  lemma SofarBehind(g: Address, i: nat)
    requires i < 8 && FirstZero(g) < RunEnd(g, FirstZero(g)) <= i
    ensures Sofar(g, i + 1) == Sofar(g, i) + Added(g, i)
  {
    var a := FirstZero(g);
    var b := RunEnd(g, a);
    var x, h := Join(g[..a]), Hex(g[i]);
    JoinNext(g, b, i);
    if i == b {
      Plain(x, "::", h);
    } else {
      var y := Join(g[b..i]);
      Plain(y, ":", h);
      Plain(x + "::", y, ":" + h);
    }
  }

  lemma SofarBefore(g: Address, i: nat)
    requires i < FirstZero(g)
    ensures Sofar(g, i + 1) == Sofar(g, i) + Added(g, i)
  {
    JoinNext(g, 0, i);
    assert g[..i + 1] == g[0..i + 1] && g[..i] == g[0..i];
    Plain(Join(g[..i]), ":", Hex(g[i]));
    if i == 0 { assert Join(g[..0]) + Hex(g[0]) == Hex(g[0]); }
  }

  lemma SofarNext(g: Address, i: nat)
    requires i < 8
    ensures Sofar(g, i + 1) == Sofar(g, i) + Added(g, i)
  {
    var a := FirstZero(g);
    if i < a {
      SofarBefore(g, i);
    } else if i >= RunEnd(g, a) {
      SofarBehind(g, i);
    }
  }

  /** The colons in front of a group. */
  function Colons(g: Address, i: nat): string
    requires i < 8
  {
    if i == 0 then "" else if i == RunEnd(g, FirstZero(g)) && FirstZero(g) < i then "::" else ":"
  }

  lemma AddedParts(g: Address, i: nat)
    requires i < 8 && !(FirstZero(g) <= i < RunEnd(g, FirstZero(g)))
    ensures Added(g, i) == Colons(g, i) + Hex(g[i])
  {}

  lemma SofarAll(g: Address)
    ensures var a := FirstZero(g); var b := RunEnd(g, a);
      && Text(g) == Sofar(g, 8) + (if a < b == 8 then "::" else "")
      && (g[7] == 0 && !(a < b < 8) <==> a < b == 8)
  {
    assert g[..8] == g && g[8..] == [];
    var a := FirstZero(g);
    var b := RunEnd(g, a);
    if b < 8 { assert g[b..] == g[b..8]; }
  }

  /** The run of zeros lies behind group `i`. */
  ghost predicate Passed(g: Address, i: nat) {
    FirstZero(g) < RunEnd(g, FirstZero(g)) < i
  }

  /** The colons that one round of the loop prints in front of the group. */
  method Separator(addr: Address, i: nat, usedZeros: bool) returns (more: string, used: bool)
    requires i < 8 && (usedZeros <==> Passed(addr, i)) && (addr[i] != 0 || usedZeros)
    ensures more + Hex(addr[i]) == Added(addr, i) && (used <==> Passed(addr, i + 1))
  {
    more, used := "", usedZeros;
    if i > 0 && addr[i - 1] == 0 && !usedZeros {
      more := more + ":";
      used := true;
    }
    if i > 0 {
      more := more + ":";
    }
    assert more == Colons(addr, i);
    AddedParts(addr, i);
  }

  function Printed(g: Address, i: nat): string
    requires i <= 8
  {
    "[" + Sofar(g, i)
  }

  lemma Skipped(g: Address, i: nat)
    requires i < 8 && g[i] == 0 && !Passed(g, i)
    ensures Printed(g, i + 1) == Printed(g, i) && !Passed(g, i + 1)
  {}

  lemma NotSkipped(g: Address, i: nat, more: string)
    requires i < 8 && (g[i] != 0 || Passed(g, i)) && more + Hex(g[i]) == Added(g, i)
    ensures Printed(g, i + 1) == Printed(g, i) + more + Hex(g[i])
  {
    SofarNext(g, i);
    Plain("[" + Sofar(g, i), more, Hex(g[i]));
    Plain("[", Sofar(g, i), Added(g, i));
  }

  lemma Finish(g: Address)
    ensures "[" + Text(g) == if !Passed(g, 8) && g[7] == 0 then Printed(g, 8) + "::" else Printed(g, 8)
  {
    SofarAll(g);
    Plain("[", Sofar(g, 8), "::");
  }

  /** `IPv6Address::insert`. */
  method Insert(addr: Address, port: nat) returns (os: string)
    ensures os == "[" + Text(addr) + "]:" + Decimal(port)
  {
    os := InsertGroups(addr);
    os := os + "]:" + Decimal(port);
  }

  /** The part of it in front of the closing bracket. */
  method InsertGroups(addr: Address) returns (os: string)
    ensures os == "[" + Text(addr)
  {
    os := "[";
    var usedZeros := false;
    for i := 0 to 8
      invariant os == Printed(addr, i)
      invariant usedZeros <==> Passed(addr, i)
    {
      if addr[i] == 0 && !usedZeros {
        Skipped(addr, i);
        continue;
      }
      var more;
      more, usedZeros := Separator(addr, i, usedZeros);
      NotSkipped(addr, i, more);
      os := os + more + Hex(addr[i]);
    }
    Finish(addr);
    if !usedZeros && addr[7] == 0 {
      os := os + "::";
    }
  }

  // --- printing is lossless ---

  /** No "::" inside, no colon at either end. */
  predicate Clean(s: string) {
    (forall i :: 0 <= i < |s| ==> !Gap(s, i)) && (s != "" ==> s[0] != ':' && s[|s| - 1] != ':')
  }

  lemma CleanMore(x: string, y: string)
    requires x != "" && (forall i :: 0 <= i < |x| ==> x[i] != ':') && y != "" && Clean(y)
    ensures Clean(x + ":" + y)
  {
    var s := x + ":" + y;
    forall i | 0 <= i < |s| ensures !Gap(s, i) {
      if i > |x| && i + 1 < |s| { assert !Gap(y, i - |x| - 1); }
    }
  }

  lemma {:induction false} JoinClean(gs: seq<nat>)
    ensures Clean(Join(gs)) && (Join(gs) == "" <==> gs == [])
    decreases |gs|
  {
    if |gs| > 1 {
      JoinClean(gs[1..]);
      CleanMore(Hex(gs[0]), Join(gs[1..]));
    }
  }

  /** Between two clean texts there is one "::", and it is where it was put. */
  lemma GapBetween(x: string, y: string)
    requires Clean(x) && Clean(y)
    ensures forall i :: 0 <= i < |x + "::" + y| ==> (Gap(x + "::" + y, i) <==> i == |x|)
  {
    var s := x + "::" + y;
    forall i | 0 <= i < |s| ensures Gap(s, i) <==> i == |x| {
      if i + 1 < |x| {
        assert !Gap(x, i) && s[i] == x[i] && s[i + 1] == x[i + 1];
      } else if i > |x| + 1 && i + 1 < |s| {
        assert !Gap(y, i - |x| - 2);
      }
    }
  }

  /** The text has "::" exactly when the address has a zero group, and never twice. */
  lemma OneGap(g: Address)
    ensures forall i, j :: 0 <= i < |Text(g)| && 0 <= j < |Text(g)| && Gap(Text(g), i) && Gap(Text(g), j) ==> i == j
    ensures (exists i :: 0 <= i < |Text(g)| && Gap(Text(g), i)) <==> 0 in g
  {
    var a := FirstZero(g);
    JoinClean(g);
    if a < 8 {
      JoinClean(g[..a]);
      JoinClean(g[RunEnd(g, a)..]);
      GapBetween(Join(g[..a]), Join(g[RunEnd(g, a)..]));
      assert Gap(Text(g), |Join(g[..a])|);
    }
  }

  lemma Refill(g: Address, a: nat, b: nat)
    requires a <= b <= 8 && forall i :: a <= i < b ==> g[i] == 0
    ensures g[..a] + Zeros(8 - |g[..a]| - |g[b..]|) + g[b..] == g
  {}

  lemma SplitAtGap(x: string, y: string)
    requires Clean(x) && Clean(y)
    ensures var s := x + "::" + y; FirstGap(s) == |x| && |x| < |s| && s[..|x|] == x && s[|x| + 2..] == y
  {
    GapBetween(x, y);
    assert Gap(x + "::" + y, |x|);
  }

  lemma ExpandAt(s: string, k: nat, x: string, y: string)
    requires k == FirstGap(s) < |s| && x == s[..k] && y == s[k + 2..]
    ensures Expand(s) == Fill(Groups(x), Groups(y))
  {}

  /** The text on either side of the only "::" is read on its own. */
  lemma ExpandPair(left: seq<nat>, right: seq<nat>, x: string, y: string, s: string)
    requires x == Join(left) && y == Join(right) && s == x + "::" + y
    ensures Expand(s) == Fill(Groups(x), Groups(y))
  {
    JoinClean(left);
    JoinClean(right);
    SplitAtGap(x, y);
    ExpandAt(s, |x|, x, y);
  }

  lemma Filled(g: Address, a: nat, b: nat, x: Option<seq<nat>>, y: Option<seq<nat>>)
    requires a < b <= 8 && (forall i :: a <= i < b ==> g[i] == 0) && x == Some(g[..a]) && y == Some(g[b..])
    ensures Fill(x, y) == Some(g)
  {
    Refill(g, a, b);
  }

  lemma WholeExpands(g: Address, s: string)
    requires s == Join(g)
    ensures Expand(s) == Groups(s)
  {
    JoinClean(g);
    GroupsBack(g);
    assert FirstGap(s) == |s| || Gap(s, FirstGap(s));
  }

  /** Every address comes back from its text. */
  lemma PrintExpands(g: Address)
    ensures Expand(Text(g)) == Some(g)
  {
    var a := FirstZero(g);
    if a == 8 {
      WholeExpands(g, Text(g));
      GroupsBack(g);
    } else {
      var b := RunEnd(g, a);
      ExpandPair(g[..a], g[b..], Join(g[..a]), Join(g[b..]), Text(g));
      GroupsBack(g[..a]);
      GroupsBack(g[b..]);
      Filled(g, a, b, Groups(Join(g[..a])), Groups(Join(g[b..])));
    }
  }

  /** Two addresses never have the same text. */
  lemma PrintInjective(g: Address, h: Address)
    requires Text(g) == Text(h)
    ensures g == h
  {
    PrintExpands(g);
    PrintExpands(h);
  }
}
