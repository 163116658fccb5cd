/** `Uri`: parsing by the grammar of RFC 3986, section 3, with the actions of the state
    machine, and printing. */
module Uris {
  import opened Base

  datatype Uri = Uri(scheme: string, userinfo: string, host: string, port: int, path: string, query: string,
    fragment: string)

  // --- characters ---

  predicate Alpha(c: char) {
    'a' <= c <= 'z' || 'A' <= c <= 'Z'
  }

  predicate HexDigit(c: char) {
    IsDigit(c) || 'a' <= c <= 'f' || 'A' <= c <= 'F'
  }

  predicate SubDelim(c: char) {
    c in "!$&'()*+,;="
  }

  predicate Unreserved(c: char) {
    Alpha(c) || IsDigit(c) || c in "-._~"
  }

  /** A character that stands for itself everywhere is one of printable ASCII, and neither a
      delimiter nor one of those that RFC 3986 leaves out; none is of both kinds. */
  lemma CharKinds(c: char)
    ensures Unreserved(c) || SubDelim(c) <==> '!' <= c <= '~' && c !in ":/?#[]@" && c !in "\"%<>\\^`{|}"
    ensures !(Unreserved(c) && SubDelim(c))
  {}

  lemma HexChars(c: char)
    ensures HexDigit(c) <==> c in "0123456789abcdefABCDEF"
  {}

  /** The parts of a URI that are made of characters and percent escapes. */
  datatype Part = USERINFO | REG_NAME | PATH | QUERY

  /** What may stand unescaped in a part; paths and what follows may hold any character
      that is not ASCII. */
  predicate Allowed(part: Part, c: char) {
    || Unreserved(c) || SubDelim(c)
    || match part
       case USERINFO => c == ':'
       case REG_NAME => false
       case PATH => c in ":@/" || c > '\U{7F}'
       case QUERY => c in ":@/?" || c > '\U{7F}'
  }

  /** Characters of the part and escapes such as "%2F". */
  predicate Spelled(part: Part, s: string) {
    s == ""
    || (Allowed(part, s[0]) && Spelled(part, s[1..]))
    || (s[0] == '%' && |s| >= 3 && HexDigit(s[1]) && HexDigit(s[2]) && Spelled(part, s[3..]))
  }

  lemma {:induction false} SpelledChars(part: Part, s: string, c: char)
    requires Spelled(part, s) && c in s
    ensures c == '%' || HexDigit(c) || Allowed(part, c)
  {
    if Allowed(part, s[0]) && Spelled(part, s[1..]) {
      if c != s[0] {
        assert s == [s[0]] + s[1..];
        SpelledChars(part, s[1..], c);
      }
    } else {
      if c !in s[..3] {
        assert s == s[..3] + s[3..];
        SpelledChars(part, s[3..], c);
      }
    }
  }

  /** The character at `i` may stand in the part, or starts an escape. */
  predicate Proper(part: Part, s: string, i: nat)
    requires i < |s|
  {
    Allowed(part, s[i]) || (s[i] == '%' && i + 2 < |s| && HexDigit(s[i + 1]) && HexDigit(s[i + 2]))
  }

  lemma {:induction false} SpelledProper(part: Part, s: string)
    requires Spelled(part, s)
    ensures forall i :: 0 <= i < |s| ==> Proper(part, s, i)
    decreases |s|
  {
    if s != "" {
      var n := if Allowed(part, s[0]) && Spelled(part, s[1..]) then 1 else 3;
      SpelledProper(part, s[n..]);
      forall i | n <= i < |s| ensures Proper(part, s, i) {
        assert Proper(part, s[n..], i - n);
      }
    }
  }

  lemma {:induction false} ProperSpelled(part: Part, s: string)
    requires forall i :: 0 <= i < |s| ==> Proper(part, s, i)
    ensures Spelled(part, s)
    decreases |s|
  {
    if s != "" {
      assert Proper(part, s, 0);
      var n := if Allowed(part, s[0]) then 1 else 3;
      forall i | 0 <= i < |s| - n ensures Proper(part, s[n..], i) {
        assert Proper(part, s, n + i);
      }
      ProperSpelled(part, s[n..]);
    }
  }

  /** The grammar position by position. */
  lemma SpelledExactly(part: Part, s: string)
    ensures Spelled(part, s) <==> forall i :: 0 <= i < |s| ==> Proper(part, s, i)
  {
    if Spelled(part, s) { SpelledProper(part, s); }
    if forall i :: 0 <= i < |s| ==> Proper(part, s, i) { ProperSpelled(part, s); }
  }

  predicate Scheme(s: string) {
    s != "" && Alpha(s[0]) && forall i :: 0 <= i < |s| ==> Alpha(s[i]) || IsDigit(s[i]) || s[i] in "+-."
  }

  predicate Digits(s: string) {
    forall i :: 0 <= i < |s| ==> IsDigit(s[i])
  }

  // --- cutting ---

  /** The first place of a character, the length if there is none. */
  function Find(s: string, c: char): (k: nat)
    ensures k <= |s| && (forall i :: 0 <= i < k ==> s[i] != c) && (k < |s| ==> s[k] == c)
  {
    if s == "" || s[0] == c then 0 else 1 + Find(s[1..], c)
  }

  lemma FindAt(x: string, c: char, y: string)
    requires c !in x
    ensures Find(x + [c] + y, c) == |x|
  {
    var s := x + [c] + y;
    assert s[|x|] == c;
    assert forall i :: 0 <= i < |x| ==> s[i] == x[i];
  }

  lemma FindNone(s: string, c: char)
    requires c !in s
    ensures Find(s, c) == |s|
  {
    assert Find(s, c) < |s| ==> c in s;
  }

  /** The text before the first `c` and the text behind it, empty if there is no `c`. */
  function Before(s: string, c: char): string {
    s[..Find(s, c)]
  }

  function Behind(s: string, c: char): string {
    if Find(s, c) < |s| then s[Find(s, c) + 1..] else ""
  }

  lemma CutAt(x: string, c: char, y: string, s: string)
    requires c !in x && s == x + [c] + y
    ensures Before(s, c) == x && Behind(s, c) == y && c in s
  {
    FindAt(x, c, y);
    assert s[|x|] == c;
  }

  lemma CutNone(s: string, c: char)
    requires c !in s
    ensures Before(s, c) == s && Behind(s, c) == ""
  {
    FindNone(s, c);
  }

  // --- hosts ---

  /** A decimal octet as the grammar has it: where RFC 3986 has the digit '2' of the
      numbers from 200 to 249, it has the byte 2. */
  predicate DecOctet(s: string) {
    || (|s| == 1 && IsDigit(s[0]))
    || (|s| == 2 && '1' <= s[0] <= '9' && IsDigit(s[1]))
    || (|s| == 3 && s[0] == '1' && IsDigit(s[1]) && IsDigit(s[2]))
    || (|s| == 3 && s[0] == '\U{2}' && '0' <= s[1] <= '4' && IsDigit(s[2]))
    || (|s| == 3 && s[0] == '2' && s[1] == '5' && '0' <= s[2] <= '5')
  }

  /** A number below 256 as the grammar wants it. */
  function OctetText(n: nat): string {
    if 200 <= n < 250 then ['\U{2}'] + Decimal(n)[1..] else Decimal(n)
  }

  lemma TwoDigits(n: nat)
    requires 10 <= n < 100
    ensures Decimal(n) == [DigitChar(n / 10), DigitChar(n % 10)]
  {
    assert Decimal(n / 10) == [DigitChar(n / 10)];
  }

  lemma ThreeDigits(n: nat)
    requires 100 <= n < 1000
    ensures Decimal(n) == [DigitChar(n / 100), DigitChar(n / 10 % 10), DigitChar(n % 10)]
  {
    TwoDigits(n / 10);
    assert Decimal(n) == Decimal(n / 10) + [DigitChar(n % 10)];
  }

  lemma {:induction false} MoreDigits(n: nat)
    requires n >= 1000
    ensures |Decimal(n)| > 3
  {
    if n < 10000 { ThreeDigits(n / 10); } else { MoreDigits(n / 10); }
  }

  lemma OctetSpelled(n: nat)
    requires n < 256
    ensures DecOctet(OctetText(n))
  {
    if n >= 100 { ThreeDigits(n); } else if n >= 10 { TwoDigits(n); }
  }

  lemma DigitIs(c: char) returns (d: nat)
    requires IsDigit(c)
    ensures d < 10 && c == DigitChar(d)
  {
    d := (c - '0') as nat;
  }

  lemma DigitMore(n: nat, d: nat)
    requires n > 0 && d < 10
    ensures Decimal(10 * n + d) == Decimal(n) + [DigitChar(d)]
  {
    assert (10 * n + d) / 10 == n && (10 * n + d) % 10 == d;
  }

  lemma Hundreds(c: nat, d: nat, e: nat) returns (n: nat)
    requires 1 <= c < 10 && d < 10 && e < 10
    ensures n == 100 * c + 10 * d + e && Decimal(n) == [DigitChar(c), DigitChar(d), DigitChar(e)]
  {
    DigitMore(c, d);
    DigitMore(10 * c + d, e);
    n := 10 * (10 * c + d) + e;
  }

  lemma ThreeBack(s: string, d: nat, e: nat) returns (n: nat)
    requires DecOctet(s) && |s| == 3 && d < 10 && e < 10 && s[1] == DigitChar(d) && s[2] == DigitChar(e)
    ensures n < 256 && s == OctetText(n)
  {
    assert s == [s[0], DigitChar(d), DigitChar(e)];
    if s[0] == '1' {
      n := Hundreds(1, d, e);
    } else {
      n := Hundreds(2, d, e);
      assert Decimal(n)[1..] == [DigitChar(d), DigitChar(e)];
    }
  }

  lemma OctetNumber(s: string) returns (n: nat)
    requires DecOctet(s)
    ensures n < 256 && s == OctetText(n)
  {
    var d := DigitIs(s[|s| - 1]);
    if |s| == 1 {
      n := d;
    } else {
      var e := DigitIs(s[|s| - 2]);
      if |s| == 2 {
        n := 10 * e + d;
        TwoDigits(n);
      } else {
        n := ThreeBack(s, e, d);
      }
    }
  }

  /** A number in decimal is an octet unless it is from 200 to 249, or too large. */
  lemma OctetExactly(n: nat)
    ensures DecOctet(Decimal(n)) <==> n < 200 || 250 <= n < 256
  {
    if n >= 1000 {
      MoreDigits(n);
    } else if n >= 100 {
      ThreeDigits(n);
    } else if n >= 10 {
      TwoDigits(n);
    }
  }

  /** `n` octets separated by dots. */
  predicate Octets(s: string, n: nat) {
    if n == 0 then false
    else if n == 1 then DecOctet(s)
    else '.' in s && DecOctet(Before(s, '.')) && Octets(Behind(s, '.'), n - 1)
  }

  predicate H16(s: string) {
    1 <= |s| <= 4 && forall i :: 0 <= i < |s| ==> HexDigit(s[i])
  }

  /** How many 16-bit groups the text has, an IPv4 address at its end counting for two. */
  function GroupCount(s: string, quad: bool): Option<nat>
    decreases |s|
  {
    if s == "" then Some(0)
    else if ':' !in s then if H16(s) then Some(1) else if quad && Octets(s, 4) then Some(2) else None
    else if !H16(Before(s, ':')) || Behind(s, ':') == "" then None
    else
      match GroupCount(Behind(s, ':'), quad)
      case None => None
      case Some(n) => Some(n + 1)
  }

  /** `IPv6address`: eight groups; or "::" and at most seven groups, and when some stand
      before it there are exactly seven. */
  predicate IPv6(s: string) {
    var k := FirstGap(s);
    if k == |s| then GroupCount(s, true) == Some(8)
    else
      var left, right := GroupCount(s[..k], false), GroupCount(s[k + 2..], true);
      left.Some? && right.Some? && if left.value == 0 then right.value <= 7 else left.value + right.value == 7
  }

  /** `IPvFuture`. */
  predicate IPvFuture(s: string) {
    && s != "" && s[0] == 'v' && '.' in s
    && var version, rest := Before(s[1..], '.'), Behind(s[1..], '.');
       && version != "" && (forall i :: 0 <= i < |version| ==> HexDigit(version[i]))
       && rest != "" && forall i :: 0 <= i < |rest| ==> Unreserved(rest[i]) || SubDelim(rest[i]) || rest[i] == ':'
  }

  /** `host`. */
  predicate Host(s: string) {
    || Spelled(REG_NAME, s)
    || Octets(s, 4)
    || Literal(s)
  }

  /** `IP_literal`. */
  predicate Literal(h: string) {
    |h| >= 2 && h[0] == '[' && h[|h| - 1] == ']' && (IPv6(h[1..|h| - 1]) || IPvFuture(h[1..|h| - 1]))
  }

  // --- parsing ---

  function DigitOf(c: char): nat
    requires IsDigit(c)
  {
    (c - '0') as nat
  }

  /** `atoi` of digits. */
  function Atoi(s: string): nat
    requires Digits(s)
  {
    if s == "" then 0 else 10 * Atoi(s[..|s| - 1]) + DigitOf(s[|s| - 1])
  }

  /** What `save_userinfo` saves. A digit right behind the first ':' could be the start of
      a port, so the port's action moves the mark there. */
  function Marked(userinfo: string): string {
    var k := Find(userinfo, ':');
    if k + 1 < |userinfo| && IsDigit(userinfo[k + 1]) then userinfo[k + 1..] else userinfo
  }

  datatype Authority = Authority(userinfo: string, host: string, port: nat)

  /** `host (":" port)?`; an empty port leaves the port at 0. */
  function HostPort(s: string): Option<(string, nat)> {
    if s != "" && s[0] == '[' then
      var host, rest := Before(s, ']') + "]", Behind(s, ']');
      if ']' !in s || !Host(host) then None
      else if rest == "" then Some((host, 0))
      else if rest[0] == ':' && Digits(rest[1..]) then Some((host, Atoi(rest[1..])))
      else None
    else
      var host, port := Before(s, ':'), Behind(s, ':');
      if Host(host) && Digits(port) then Some((host, Atoi(port))) else None
  }

  /** `authority`. */
  function ParseAuthority(s: string): Option<Authority> {
    var userinfo := if '@' in s then Before(s, '@') else "";
    var rest := HostPort(if '@' in s then Behind(s, '@') else s);
    if !Spelled(USERINFO, userinfo) || rest.None? then None
    else Some(Authority(Marked(userinfo), rest.value.0, rest.value.1))
  }

  /** What comes before the query: with a scheme, a path is only saved behind an authority;
      without one, never. */
  function ParseHier(scheme: string, s: string): Option<Uri> {
    if |s| >= 2 && s[0] == '/' && s[1] == '/' then
      var k := Find(s[2..], '/');
      var authority, path := ParseAuthority(s[2..][..k]), s[2..][k..];
      if authority.None? || !Spelled(PATH, path) then None
      else
        var a := authority.value;
        Some(Uri(scheme, a.userinfo, a.host, a.port, if scheme == "" then "" else path, "", ""))
    else if Spelled(PATH, s) then Some(Uri(scheme, "", "", 0, "", "", ""))
    else None
  }

  /** The text in front of the first ':', if no '/' comes before it. */
  predicate HasScheme(s: string) {
    Find(s, ':') < Find(s, '/')
  }

  /** `Uri::Create`. */
  function Create(s: string): Option<Uri> {
    var fragment, head := Behind(s, '#'), Before(s, '#');
    var query, hier := Behind(head, '?'), Before(head, '?');
    var u :=
      if !HasScheme(hier) then ParseHier("", hier)
      else if Scheme(Before(hier, ':')) then ParseHier(Before(hier, ':'), Behind(hier, ':'))
      else None;
    if u.None? || !Spelled(QUERY, query) || !Spelled(QUERY, fragment) then None
    else Some(u.value.(query := query, fragment := fragment))
  }

  // --- printing ---

  /** `isDefaultPort`. */
  predicate IsDefaultPort(u: Uri) {
    if u.port == 0 then true
    else if u.scheme == "http" || u.scheme == "ws" then u.port == 80
    else if u.scheme == "https" || u.scheme == "wss" then u.port == 443
    else false
  }

  /** `getPath`. */
  function GetPath(u: Uri): string {
    if u.path == "" then "/" else u.path
  }

  /** `getPort`. */
  function GetPort(u: Uri): (port: int)
    ensures u.port != 0 ==> port == u.port
    ensures u.port == 0 && u.scheme in {"http", "ws"} ==> port == 80
    ensures u.port == 0 && u.scheme in {"https", "wss"} ==> port == 443
    ensures u.port == 0 && u.scheme !in {"http", "ws", "https", "wss"} ==> port == 0
  {
    if u.port != 0 then u.port
    else if u.scheme == "http" || u.scheme == "ws" then 80
    else if u.scheme == "https" || u.scheme == "wss" then 443
    else u.port
  }

  /** `std::to_string`. */
  function ToString(i: int): (s: string)
    ensures s != "" && (s[0] == '-' <==> i < 0) && (i < 0 ==> s[1..] == Decimal(-i))
  {
    if i < 0 then "-" + Decimal(-i) else Decimal(i)
  }

  function PortText(u: Uri): string {
    if IsDefaultPort(u) then "" else ":" + ToString(u.port)
  }

  function AuthorityText(u: Uri): string {
    u.userinfo + (if u.userinfo == "" then "" else "@") + u.host + PortText(u)
  }

  /** `dump`. */
  function Dump(u: Uri): string {
    u.scheme + "://" + AuthorityText(u) + GetPath(u)
    + (if u.query == "" then "" else "?" + u.query) + (if u.fragment == "" then "" else "#" + u.fragment)
  }

  // --- the round trip ---

  /** The components are those of RFC 3986, section 3, with a scheme and without a path
      that does not start with '/'. */
  predicate WellFormed(u: Uri) {
    && Scheme(u.scheme) && Spelled(USERINFO, u.userinfo) && Host(u.host) && u.port >= 0
    && (u.path == "" || u.path[0] == '/') && Spelled(PATH, u.path) && Spelled(QUERY, u.query)
      && Spelled(QUERY, u.fragment)
  }

  predicate Agree(u: Uri, v: Uri) {
    && u.scheme == v.scheme && u.userinfo == v.userinfo && u.host == v.host && GetPort(u) == GetPort(v)
    && (if u.path == "" then "/" else u.path) == (if v.path == "" then "/" else v.path)
    && u.query == v.query && u.fragment == v.fragment
  }

  /** The first ':' of the user information is followed by a digit. */
  predicate LooksLikePort(userinfo: string) {
    var k := Find(userinfo, ':');
    k + 1 < |userinfo| && IsDigit(userinfo[k + 1])
  }

  lemma {:induction false} AtoiDecimal(n: nat)
    ensures Atoi(Decimal(n)) == n
  {
    if n >= 10 {
      AtoiDecimal(n / 10);
      assert Decimal(n)[..|Decimal(n)| - 1] == Decimal(n / 10);
    }
  }

  // --- what cannot occur in a component ---

  lemma OctetChars(s: string, c: char)
    requires DecOctet(s) && c in s
    ensures IsDigit(c) || c == '\U{2}'
  {}

  lemma {:induction false} OctetsChars(s: string, n: nat, c: char)
    requires Octets(s, n) && c in s
    ensures IsDigit(c) || c == '.' || c == '\U{2}'
  {
    if n == 1 {
      OctetChars(s, c);
    } else {
      var x, y := Before(s, '.'), Behind(s, '.');
      if c in x {
        OctetChars(x, c);
      } else if c in y {
        OctetsChars(y, n - 1, c);
      } else {
        AtCut(s, '.', c);
      }
    }
  }

  lemma AtCut(s: string, mark: char, c: char)
    requires c in s && c !in Before(s, mark) && c !in Behind(s, mark)
    ensures c == mark
  {
    var k := Find(s, mark);
    assert s == s[..k] + if k < |s| then [s[k]] + s[k + 1..] else [];
  }

  predicate InAddress(c: char) {
    HexDigit(c) || c == '.' || c == ':' || c == '\U{2}'
  }

  lemma {:induction false} GroupChars(s: string, quad: bool, c: char)
    requires GroupCount(s, quad).Some? && c in s
    ensures InAddress(c)
    decreases |s|
  {
    if ':' !in s {
      if !H16(s) { OctetsChars(s, 4, c); }
    } else {
      var k := Find(s, ':');
      assert s == s[..k] + [s[k]] + s[k + 1..];
      if c in s[k + 1..] { GroupChars(s[k + 1..], quad, c); }
    }
  }

  lemma IPv6Chars(s: string, c: char)
    requires IPv6(s) && c in s
    ensures InAddress(c)
  {
    var k := FirstGap(s);
    if k == |s| {
      GroupChars(s, true, c);
    } else {
      assert Gap(s, k);
      if c in s[..k] {
        GroupChars(s[..k], false, c);
      } else if c in s[k + 2..] {
        GroupChars(s[k + 2..], true, c);
      } else {
        AtGap(s, k, c);
      }
    }
  }

  lemma AtGap(s: string, k: nat, c: char)
    requires k + 1 < |s| && c in s && c !in s[..k] && c !in s[k + 2..]
    ensures c == s[k] || c == s[k + 1]
  {
    assert s == s[..k] + [s[k], s[k + 1]] + s[k + 2..];
  }

  lemma FutureChars(s: string, c: char)
    requires IPvFuture(s) && c in s
    ensures Unreserved(c) || SubDelim(c) || c == ':'
  {
    var k := Find(s[1..], '.');
    assert s == [s[0]] + s[1..][..k] + [s[1..][k]] + s[1..][k + 1..];
  }

  /** Not a character that ends an authority, nor one of the brackets. */
  predicate Inside(c: char) {
    c != '/' && c != '?' && c != '#' && c != '@' && c != '[' && c != ']'
  }

  lemma InnerChars(s: string, c: char)
    requires (IPv6(s) || IPvFuture(s)) && c in s
    ensures Inside(c)
  {
    if IPv6(s) { IPv6Chars(s, c); } else { FutureChars(s, c); }
  }

  lemma NameChars(h: string, c: char)
    requires Host(h) && !Literal(h) && c in h
    ensures Inside(c) && c != ':'
  {
    if Spelled(REG_NAME, h) { SpelledChars(REG_NAME, h, c); } else { OctetsChars(h, 4, c); }
  }

  /** A host is a name without a colon and without brackets, or an inner text in brackets. */
  lemma HostKinds(h: string)
    requires Host(h)
    ensures Literal(h) <==> h != "" && h[0] == '['
  {
    if h != "" && !Literal(h) { NameChars(h, h[0]); }
  }

  lemma LiteralChars(h: string, inner: string, c: char)
    requires Literal(h) && inner == h[1..|h| - 1] && c in h
    ensures c == '[' || c == ']' || Inside(c)
  {
    assert h == ['['] + inner + [']'];
    if c in inner { InnerChars(inner, c); }
  }

  lemma HostChars(h: string, c: char)
    requires Host(h) && c in h
    ensures c != '/' && c != '?' && c != '#' && c != '@'
  {
    if Literal(h) {
      LiteralChars(h, h[1..|h| - 1], c);
    } else {
      NameChars(h, c);
    }
  }

  lemma InnerClosed(s: string)
    requires IPv6(s) || IPvFuture(s)
    ensures ']' !in s
  {
    if ']' in s { InnerChars(s, ']'); }
  }

  lemma InBrackets(h: string, inner: string)
    requires |h| >= 2 && h[0] == '[' && h[|h| - 1] == ']' && inner == h[1..|h| - 1] && ']' !in inner
    ensures h == h[..|h| - 1] + "]" && ']' !in h[..|h| - 1]
  {
    assert h[..|h| - 1] == ['['] + inner;
  }

  /** A host in brackets has no other bracket. */
  lemma Bracketed(h: string, body: string)
    requires Literal(h) && body == h[..|h| - 1]
    ensures h == body + "]" && ']' !in body && body != "" && body[0] == '['
  {
    var inner := h[1..|h| - 1];
    InnerClosed(inner);
    InBrackets(h, inner);
  }

  // --- the pieces of a dump ---

  /** The port that `dump` writes. */
  function Shown(u: Uri): int {
    if IsDefaultPort(u) then 0 else u.port
  }

  lemma PortBack(u: Uri, tail: string)
    requires u.port >= 0 && tail == PortText(u)
    ensures tail == "" ==> Shown(u) == 0
    ensures tail != "" ==> tail[0] == ':' && Digits(tail[1..]) && Atoi(tail[1..]) == Shown(u)
  {
    if tail != "" {
      assert tail[1..] == Decimal(u.port);
      AtoiDecimal(u.port);
    }
  }

  lemma LiteralPort(u: Uri, tail: string, s: string)
    requires Literal(u.host) && Host(u.host) && u.port >= 0 && tail == PortText(u) && s == u.host + tail
    ensures HostPort(s) == Some((u.host, Shown(u)))
  {
    var body := u.host[..|u.host| - 1];
    Bracketed(u.host, body);
    assert s == body + [']'] + tail;
    CutAt(body, ']', tail, s);
    PortBack(u, tail);
  }

  lemma NamePort(u: Uri, tail: string, s: string)
    requires !Literal(u.host) && Host(u.host) && u.port >= 0 && tail == PortText(u) && s == u.host + tail
    ensures HostPort(s) == Some((u.host, Shown(u)))
  {
    if ':' in u.host { NameChars(u.host, ':'); }
    HostKinds(u.host);
    PortBack(u, tail);
    if tail == "" {
      assert s == u.host;
      CutNone(s, ':');
    } else {
      assert s == u.host + [':'] + tail[1..];
      CutAt(u.host, ':', tail[1..], s);
    }
  }

  lemma HostPortBack(u: Uri, s: string)
    requires Host(u.host) && u.port >= 0 && s == u.host + PortText(u)
    ensures HostPort(s) == Some((u.host, Shown(u)))
  {
    if Literal(u.host) { LiteralPort(u, PortText(u), s); } else { NamePort(u, PortText(u), s); }
  }

  lemma PortChars(u: Uri, c: char)
    requires u.port >= 0 && c in PortText(u)
    ensures IsDigit(c) || c == ':'
  {}

  lemma HostPortChars(u: Uri, s: string, c: char)
    requires Host(u.host) && u.port >= 0 && s == u.host + PortText(u) && c in s
    ensures c != '/' && c != '?' && c != '#' && c != '@'
  {
    if c in u.host { HostChars(u.host, c); } else { PortChars(u, c); }
  }

  lemma UserinfoChars(s: string, c: char)
    requires Spelled(USERINFO, s) && c in s
    ensures c != '/' && c != '?' && c != '#' && c != '@'
  {
    SpelledChars(USERINFO, s, c);
  }

  lemma AuthoritySplit(u: Uri, rest: string)
    requires rest == u.host + PortText(u)
    ensures AuthorityText(u) == if u.userinfo == "" then rest else u.userinfo + ['@'] + rest
  {}

  lemma AuthorityBack(u: Uri)
    requires WellFormed(u)
    ensures ParseAuthority(AuthorityText(u)) == Some(Authority(Marked(u.userinfo), u.host, Shown(u)))
  {
    var rest := u.host + PortText(u);
    AuthoritySplit(u, rest);
    HostPortBack(u, rest);
    if u.userinfo == "" {
      if '@' in rest { HostPortChars(u, rest, '@'); }
    } else {
      if '@' in u.userinfo { UserinfoChars(u.userinfo, '@'); }
      CutAt(u.userinfo, '@', rest, AuthorityText(u));
    }
  }

  lemma AuthorityChars(u: Uri, c: char)
    requires WellFormed(u) && c in AuthorityText(u)
    ensures c != '/' && c != '?' && c != '#'
  {
    var rest := u.host + PortText(u);
    AuthoritySplit(u, rest);
    if c in u.userinfo {
      UserinfoChars(u.userinfo, c);
    } else if c in rest {
      HostPortChars(u, rest, c);
    }
  }

  lemma PathText(u: Uri)
    requires WellFormed(u)
    ensures GetPath(u) != "" && GetPath(u)[0] == '/' && Spelled(PATH, GetPath(u))
  {}

  lemma FindStart(x: string, c: char, y: string)
    requires c !in x && y != "" && y[0] == c
    ensures Find(x + y, c) == |x| && (x + y)[..|x|] == x && (x + y)[|x|..] == y
  {
    assert x + y == x + [c] + y[1..];
    FindAt(x, c, y[1..]);
  }

  lemma HierSplit(u: Uri, x: string, y: string)
    requires WellFormed(u) && x == AuthorityText(u) && y == GetPath(u)
    ensures Find(x + y, '/') == |x| && (x + y)[..|x|] == x && (x + y)[|x|..] == y
  {
    if '/' in x { AuthorityChars(u, '/'); }
    PathText(u);
    FindStart(x, '/', y);
  }

  lemma HierBack(u: Uri, s: string)
    requires WellFormed(u) && s == "//" + (AuthorityText(u) + GetPath(u))
    ensures ParseHier(u.scheme, s) == Some(Uri(u.scheme, Marked(u.userinfo), u.host, Shown(u), GetPath(u), "", ""))
  {
    HierSplit(u, AuthorityText(u), GetPath(u));
    PathText(u);
    assert s[2..] == AuthorityText(u) + GetPath(u);
    AuthorityBack(u);
  }

  lemma SchemeChars(s: string, c: char)
    requires Scheme(s) && c in s
    ensures c != ':' && c != '/' && c != '?' && c != '#'
  {
    var i :| 0 <= i < |s| && s[i] == c;
  }

  lemma SchemeFirst(scheme: string, rest: string, s: string)
    requires Scheme(scheme) && s == scheme + [':'] + rest
    ensures HasScheme(s) && Before(s, ':') == scheme && Behind(s, ':') == rest
  {
    if ':' in scheme { SchemeChars(scheme, ':'); }
    if '/' in scheme { SchemeChars(scheme, '/'); }
    FindAt(scheme, ':', rest);
    CutAt(scheme, ':', rest, s);
    assert forall i :: 0 <= i <= |scheme| ==> s[i] == (if i < |scheme| then scheme[i] else ':') != '/';
  }

  lemma QueryChars(part: Part, s: string, c: char)
    requires Spelled(part, s) && (part == PATH || part == QUERY) && c in s
    ensures c != '#' && (part == PATH ==> c != '?')
  {
    SpelledChars(part, s, c);
  }

  function HierText(u: Uri): string {
    u.scheme + [':'] + ("//" + (AuthorityText(u) + GetPath(u)))
  }

  function Tail(mark: char, s: string): string {
    if s == "" then "" else [mark] + s
  }

  lemma DumpText(u: Uri)
    ensures Dump(u) == HierText(u) + Tail('?', u.query) + Tail('#', u.fragment)
  {}

  lemma HierChars(u: Uri, c: char)
    requires WellFormed(u) && c in HierText(u)
    ensures c != '?' && c != '#'
  {
    PathText(u);
    if c in u.scheme {
      SchemeChars(u.scheme, c);
    } else if c in AuthorityText(u) {
      AuthorityChars(u, c);
    } else if c in GetPath(u) {
      QueryChars(PATH, GetPath(u), c);
    }
  }

  lemma CutTail(x: string, mark: char, y: string, s: string)
    requires mark !in x && s == x + Tail(mark, y)
    ensures Before(s, mark) == x && Behind(s, mark) == y
  {
    if y == "" {
      assert s == x;
      CutNone(s, mark);
    } else {
      assert s == x + [mark] + y;
      CutAt(x, mark, y, s);
    }
  }

  /** Everything as it was, except that the user information loses what comes before the
      mark, a port that is the default is gone and an empty path is "/". */
  function Reparsed(u: Uri): Uri {
    Uri(u.scheme, Marked(u.userinfo), u.host, Shown(u), GetPath(u), u.query, u.fragment)
  }

  /** What a dump parses to. */
  lemma CreateDump(u: Uri)
    requires WellFormed(u)
    ensures Create(Dump(u)) == Some(Reparsed(u))
  {
    var hier := HierText(u);
    var head := hier + Tail('?', u.query);
    DumpText(u);
    if '?' in hier { HierChars(u, '?'); }
    if '#' in hier { HierChars(u, '#'); }
    if '#' in u.query { QueryChars(QUERY, u.query, '#'); }
    CutTail(head, '#', u.fragment, Dump(u));
    CutTail(hier, '?', u.query, head);
    var rest := "//" + (AuthorityText(u) + GetPath(u));
    SchemeFirst(u.scheme, rest, hier);
    HierBack(u, rest);
  }

  lemma ReparsedParts(u: Uri, v: Uri)
    requires v == Reparsed(u)
    ensures v.scheme == u.scheme && v.host == u.host && v.query == u.query && v.fragment == u.fragment
    ensures v.path == if u.path == "" then "/" else u.path
    ensures v.port ==
      if (u.scheme in {"http", "ws"} && u.port == 80) || (u.scheme in {"https", "wss"} && u.port == 443) then 0
      else u.port
    ensures ':' !in u.userinfo ==> v.userinfo == u.userinfo
    ensures forall k :: 0 <= k < |u.userinfo| && u.userinfo[k] == ':' && ':' !in u.userinfo[..k] ==>
      v.userinfo ==
        if k + 1 < |u.userinfo| && '0' <= u.userinfo[k + 1] <= '9' then u.userinfo[k + 1..] else u.userinfo
  {
    MarkedParts(u.userinfo);
  }

  /** What a dump parses to, component by component. */
  lemma DumpedParts(u: Uri) returns (v: Uri)
    requires WellFormed(u)
    ensures Create(Dump(u)) == Some(v)
    ensures v.scheme == u.scheme && v.host == u.host && v.query == u.query && v.fragment == u.fragment
    ensures v.path == if u.path == "" then "/" else u.path
    ensures v.port ==
      if (u.scheme in {"http", "ws"} && u.port == 80) || (u.scheme in {"https", "wss"} && u.port == 443) then 0
      else u.port
    ensures ':' !in u.userinfo ==> v.userinfo == u.userinfo
    ensures forall k :: 0 <= k < |u.userinfo| && u.userinfo[k] == ':' && ':' !in u.userinfo[..k] ==>
      v.userinfo ==
        if k + 1 < |u.userinfo| && '0' <= u.userinfo[k + 1] <= '9' then u.userinfo[k + 1..] else u.userinfo
  {
    v := Reparsed(u);
    CreateDump(u);
    ReparsedParts(u, v);
  }

  lemma MarkedParts(s: string)
    ensures ':' !in s ==> Marked(s) == s
    ensures forall k :: 0 <= k < |s| && s[k] == ':' && ':' !in s[..k] ==>
      Marked(s) == if k + 1 < |s| && '0' <= s[k + 1] <= '9' then s[k + 1..] else s
  {
    forall k | 0 <= k < |s| && s[k] == ':' && ':' !in s[..k] ensures k == Find(s, ':') {
      assert forall i :: 0 <= i < k ==> s[i] == s[..k][i];
    }
  }

  /** The port that `dump` leaves out is the one that `getPort` puts in. */
  lemma DefaultPort(u: Uri)
    ensures IsDefaultPort(u) <==> u.port == 0 || u.port == GetPort(u.(port := 0))
  {}

  lemma MarkedSame(userinfo: string)
    ensures Marked(userinfo) == userinfo <==> !LooksLikePort(userinfo)
    ensures LooksLikePort(userinfo) ==> 0 < |Marked(userinfo)| < |userinfo|
  {}

  lemma AgreeReparsed(u: Uri)
    ensures Agree(u, Reparsed(u)) <==> !LooksLikePort(u.userinfo)
  {
    MarkedSame(u.userinfo);
  }

  /** A well-formed URI that is printed and parsed agrees with itself exactly when the first
      ':' of its user information is not followed by a digit. */
  lemma PrintParse(u: Uri)
    requires WellFormed(u)
    ensures Create(Dump(u)).Some?
    ensures Agree(u, Create(Dump(u)).value) <==> !LooksLikePort(u.userinfo)
  {
    var v := Reparsed(u);
    CreateDump(u);
    assert Create(Dump(u)) == Some(v);
    AgreeReparsed(u);
  }

  lemma DumpLength(u: Uri)
    ensures |Dump(u)| == |u.scheme| + 3 + |u.userinfo| + (if u.userinfo == "" then 0 else 1) + |u.host| + |PortText(u)|
         + |GetPath(u)| + |Tail('?', u.query)| + |Tail('#', u.fragment)|
  {
    DumpText(u);
  }

  lemma DumpReparsed(u: Uri)
    ensures Dump(Reparsed(u)) == Dump(u) <==> !LooksLikePort(u.userinfo)
  {
    MarkedSame(u.userinfo);
    var v := Reparsed(u);
    assert PortText(v) == PortText(u);
    DumpLength(u);
    DumpLength(v);
  }

  /** Printing, parsing and printing again gives the same text under the same condition. */
  lemma DumpStable(u: Uri)
    requires WellFormed(u)
    ensures Create(Dump(u)).Some? && (Dump(Create(Dump(u)).value) == Dump(u) <==> !LooksLikePort(u.userinfo))
  {
    CreateDump(u);
    DumpReparsed(u);
  }

  // --- what is parsed is well formed ---

  /** What is behind a ':' is spelled as the whole is. */
  lemma {:induction false} SpelledBehind(s: string, k: nat)
    requires Spelled(USERINFO, s) && k < |s| && s[k] == ':'
    ensures Spelled(USERINFO, s[k + 1..])
    decreases |s|
  {
    if k > 0 {
      if Allowed(USERINFO, s[0]) && Spelled(USERINFO, s[1..]) {
        SpelledBehind(s[1..], k - 1);
        assert s[1..][k..] == s[k + 1..];
      } else {
        SpelledBehind(s[3..], k - 3);
        assert s[3..][k - 2..] == s[k + 1..];
      }
    }
  }

  lemma HostPortHost(s: string)
    requires HostPort(s).Some?
    ensures Host(HostPort(s).value.0)
  {}

  lemma AuthorityFormed(s: string)
    requires ParseAuthority(s).Some?
    ensures Spelled(USERINFO, ParseAuthority(s).value.userinfo) && Host(ParseAuthority(s).value.host)
  {
    var userinfo := if '@' in s then Before(s, '@') else "";
    HostPortHost(if '@' in s then Behind(s, '@') else s);
    if LooksLikePort(userinfo) { SpelledBehind(userinfo, Find(userinfo, ':')); }
  }

  lemma HierFormed(scheme: string, s: string)
    requires Scheme(scheme) && ParseHier(scheme, s).Some?
    ensures WellFormed(ParseHier(scheme, s).value) && ParseHier(scheme, s).value.scheme == scheme
  {
    if |s| >= 2 && s[0] == '/' && s[1] == '/' {
      AuthorityFormed(s[2..][..Find(s[2..], '/')]);
    }
  }

  /** Whatever text with a scheme is accepted, the result is well formed. */
  lemma ParsedWellFormed(s: string)
    requires Create(s).Some? && Create(s).value.scheme != ""
    ensures WellFormed(Create(s).value)
  {
    var hier := Before(Before(s, '#'), '?');
    if HasScheme(hier) {
      HierFormed(Before(hier, ':'), Behind(hier, ':'));
    } else {
      NoScheme(hier);
    }
  }

  lemma NoScheme(s: string)
    requires ParseHier("", s).Some?
    ensures ParseHier("", s).value.scheme == ""
  {}

  /** Dump after Create is idempotent, for every text with a scheme, exactly when the user
      information that was saved does not look like a port. */
  lemma ParsePrintParse(s: string)
    requires Create(s).Some? && Create(s).value.scheme != ""
    ensures var text := Dump(Create(s).value);
      Create(text).Some? && (Dump(Create(text).value) == text <==> !LooksLikePort(Create(s).value.userinfo))
  {
    ParsedWellFormed(s);
    DumpStable(Create(s).value);
  }

  lemma StartsWithColon(s: string, mark: char)
    requires |s| >= 3 && s[0] == ':' && s[1] == '/' && s[2] == '/' && mark != ':' && mark != '/'
    ensures |Before(s, mark)| >= 3 && Before(s, mark)[..3] == s[..3]
  {
    assert Find(s, mark) < |s| ==> s[Find(s, mark)] == mark;
  }

  /** The dump of a reference without a scheme is not a URI reference at all. */
  lemma RelativeDump(u: Uri)
    requires u.scheme == ""
    ensures Create(Dump(u)).None?
  {
    var s := Dump(u);
    assert s[0] == ':' && s[1] == '/' && s[2] == '/';
    StartsWithColon(s, '#');
    var head := Before(s, '#');
    assert head[0] == head[..3][0] && head[1] == head[..3][1] && head[2] == head[..3][2];
    StartsWithColon(head, '?');
    var hier := Before(head, '?');
    assert hier[0] == hier[..3][0] && hier[1] == hier[..3][1];
  }
}
