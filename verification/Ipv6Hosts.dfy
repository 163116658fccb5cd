/** Which printed IPv6 addresses the URI grammar takes as hosts. */
module Ipv6Hosts {
  import opened Base
  import opened Ipv6
  import opened Uris

  lemma HexIsH16(n: nat)
    requires n < 0x1_0000
    ensures H16(Hex(n)) && ':' !in Hex(n)
  {
    GroupText(n);
  }

  lemma CountStep(x: string, more: string, s: string, quad: bool)
    requires H16(x) && ':' !in x && more != "" && s == x + [':'] + more
    ensures GroupCount(s, quad) ==
      match GroupCount(more, quad)
      case None => None
      case Some(n) => Some(n + 1)
  {
    CutAt(x, ':', more, s);
  }

  lemma CountMore(g: nat, more: string, n: nat, quad: bool)
    requires g < 0x1_0000 && more != "" && GroupCount(more, quad) == Some(n)
    ensures GroupCount(Hex(g) + ":" + more, quad) == Some(n + 1)
  {
    HexIsH16(g);
    CountStep(Hex(g), more, Hex(g) + ":" + more, quad);
  }

  /** Printed groups are as many groups of the grammar. */
  lemma {:induction false} JoinCount(gs: seq<nat>, quad: bool)
    requires forall i :: 0 <= i < |gs| ==> gs[i] < 0x1_0000
    ensures GroupCount(Join(gs), quad) == Some(|gs|)
    decreases |gs|
  {
    if |gs| == 1 {
      HexIsH16(gs[0]);
    } else if |gs| > 1 {
      HexIsH16(gs[0]);
      JoinCount(gs[1..], quad);
      JoinClean(gs[1..]);
      CountMore(gs[0], Join(gs[1..]), |gs| - 1, quad);
    }
  }

  /** Eight groups without "::". */
  lemma WholeTaken(g: Address, s: string)
    requires s == Join(g)
    ensures IPv6(s)
  {
    JoinClean(g);
    JoinCount(g, true);
    assert FirstGap(s) == |s| || Gap(s, FirstGap(s));
  }

  /** Groups on both sides of the "::". */
  lemma SplitTaken(left: seq<nat>, right: seq<nat>, x: string, y: string, s: string)
    requires forall i :: 0 <= i < |left| ==> left[i] < 0x1_0000
    requires forall i :: 0 <= i < |right| ==> right[i] < 0x1_0000
    requires x == Join(left) && y == Join(right) && s == x + "::" + y
    ensures IPv6(s) <==> if left == [] then |right| <= 7 else |left| + |right| == 7
  {
    JoinClean(left);
    JoinClean(right);
    JoinCount(left, false);
    JoinCount(right, true);
    SplitAtGap(x, y);
  }

  lemma FirstLetter(g: Address)
    ensures Text(g) != "" && Text(g)[0] != 'v'
  {
    var a := FirstZero(g);
    if a > 0 {
      GroupText(g[0]);
      assert Text(g)[0] == Hex(g[0])[0];
    } else {
      assert Text(g)[0] == ':';
    }
  }

  /** In brackets, the text of an address is a host exactly when it is an address of the grammar. */
  lemma InBracketsExactly(g: Address, s: string, h: string)
    requires s == Text(g) && h == "[" + s + "]"
    ensures Host(h) <==> IPv6(s)
  {
    FirstLetter(g);
    assert h[1..|h| - 1] == s;
    assert Literal(h) <==> IPv6(s);
    if Host(h) { HostKinds(h); }
  }

  /** `a` is the first zero group. The grammar lets groups stand before "::" only when they
      are seven with those behind it, so the library's own text of an address is refused as
      a host exactly when the zeros left out are more than one and do not come first. */
  lemma PrintedHost(g: Address, a: nat)
    requires a <= 8 && (forall i :: 0 <= i < a ==> g[i] != 0) && (a < 8 ==> g[a] == 0)
    ensures Host("[" + Text(g) + "]") <==> a == 0 || a >= 7 || g[a + 1] != 0
  {
    assert FirstZero(g) == a;
    InBracketsExactly(g, Text(g), "[" + Text(g) + "]");
    if a == 8 {
      WholeTaken(g, Text(g));
    } else {
      var b := RunEnd(g, a);
      SplitTaken(g[..a], g[b..], Join(g[..a]), Join(g[b..]), Text(g));
    }
  }

  // --- what an accepted text stands for ---

  /** Colons and hexadecimal digits, the letters small: no IPv4 address at the end. */
  predicate Plainly(s: string) {
    forall i :: 0 <= i < |s| ==> s[i] == ':' || '0' <= s[i] <= '9' || 'a' <= s[i] <= 'f'
  }

  lemma {:induction false} HexValue(s: string)
    requires s != "" && ':' !in s && Plainly(s)
    ensures ParseHex(s).Some?
    ensures |s| == 1 ==> ParseHex(s).value < 0x10
    ensures |s| == 2 ==> ParseHex(s).value < 0x100
    ensures |s| == 3 ==> ParseHex(s).value < 0x1000
    ensures |s| == 4 ==> ParseHex(s).value < 0x1_0000
    decreases |s|
  {
    if |s| > 1 {
      var front := s[..|s| - 1];
      assert forall i :: 0 <= i < |front| ==> front[i] == s[i];
      HexValue(front);
    }
  }

  lemma FirstColonFound(s: string)
    ensures FirstColon(s) == Find(s, ':') && (FirstColon(s) < |s| <==> ':' in s)
  {
    assert FirstColon(s) == Find(s, ':');
    if ':' in s { var i :| 0 <= i < |s| && s[i] == ':'; }
  }

  lemma GroupsAt(s: string, k: nat, v: nat, gs: seq<nat>)
    requires 0 < k < |s| && k == FirstColon(s) && gs != []
    requires ParseHex(s[..k]) == Some(v) && Groups(s[k + 1..]) == Some(gs)
    ensures Groups(s) == Some([v] + gs)
  {}

  /** A group of the grammar and the text of the others. */
  lemma OneMore(s: string, x: string, y: string)
    requires ':' in s && x == Before(s, ':') && y == Behind(s, ':') && y != "" && H16(x) && Plainly(x)
    requires Groups(y).Some?
    ensures ParseHex(x).Some? && ParseHex(x).value < 0x1_0000
    ensures Groups(s) == Some([ParseHex(x).value] + Groups(y).value)
  {
    FirstColonFound(s);
    HexValue(x);
    GroupsAt(s, |x|, ParseHex(x).value, Groups(y).value);
  }

  lemma OnlyGroup(s: string)
    requires H16(s) && ':' !in s && Plainly(s)
    ensures ParseHex(s).Some? && ParseHex(s).value < 0x1_0000 && Groups(s) == Some([ParseHex(s).value])
  {
    HexValue(s);
    FirstColonFound(s);
  }

  /** The groups that the grammar counts are groups with a value. */
  lemma {:induction false} GroupsCounted(s: string, quad: bool)
    requires GroupCount(s, quad).Some? && Plainly(s)
    ensures Groups(s).Some? && |Groups(s).value| == GroupCount(s, quad).value
    ensures forall i :: 0 <= i < |Groups(s).value| ==> Groups(s).value[i] < 0x1_0000
    decreases |s|
  {
    if s != "" {
      var x, y := Before(s, ':'), Behind(s, ':');
      if ':' in s {
        GroupsCounted(y, quad);
        OneMore(s, x, y);
      } else {
        OnlyGroup(s);
      }
    }
  }

  /** An address of the grammar stands for one by section 2.2 of RFC 4291. */
  lemma HostMeans(s: string)
    requires IPv6(s) && Plainly(s)
    ensures Expand(s).Some? && |Expand(s).value| == 8
    ensures forall i :: 0 <= i < 8 ==> Expand(s).value[i] < 0x1_0000
  {
    var k := FirstGap(s);
    if k == |s| {
      GroupsCounted(s, true);
    } else {
      assert Gap(s, k);
      GroupsCounted(s[..k], false);
      GroupsCounted(s[k + 2..], true);
    }
  }
}
