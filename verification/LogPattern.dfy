/** `LogFormatter::init`: a pattern such as "%d{%Y-%m}%T%m" cut into literal and format
    items. */
module LogPattern {
  /** One entry of `vec`: literal text, or a format's name and the text in its braces. */
  datatype Item = Item(str: string, fmt: string, format: bool)

  const PATTERN_ERROR := "<<pattern_error>>"

  /** `isalnum` in the "C" locale. */
  predicate AlphaNumeric(c: char) {
    'a' <= c <= 'z' || 'A' <= c <= 'Z' || '0' <= c <= '9'
  }

  /** A character that can belong to a format's name. */
  predicate NameChar(c: char) {
    AlphaNumeric(c) || c == '}'
  }

  /** The first position from `n` on that is not part of a name. */
  function NameEnd(p: string, n: nat): (k: nat)
    requires n <= |p|
    ensures n <= k <= |p| && (forall i :: n <= i < k ==> NameChar(p[i])) && (k < |p| ==> !NameChar(p[k]))
    decreases |p| - n
  {
    if n == |p| || !NameChar(p[n]) then n else NameEnd(p, n + 1)
  }

  /** The first '}' from `n` on, the length if there is none. */
  function Close(p: string, n: nat): (k: nat)
    requires n <= |p|
    ensures n <= k <= |p| && (forall i :: n <= i < k ==> p[i] != '}') && (k < |p| ==> p[k] == '}')
    decreases |p| - n
  {
    if n == |p| || p[n] == '}' then n else Close(p, n + 1)
  }

  /** What follows a '%': a name, perhaps with braces, that ends in front of `end`; or
      braces that are never closed. */
  datatype Scan = Format(name: string, arg: string, end: nat) | Unclosed

  function ScanFormat(p: string, i: nat): (r: Scan)
    requires i < |p|
    ensures r.Format? ==> i < r.end <= |p|
  {
    var k := NameEnd(p, i + 1);
    if k == |p| || p[k] != '{' then Format(p[i + 1..k], "", k)
    else
      var c := Close(p, k + 1);
      if c == |p| then Unclosed else Format(p[i + 1..k], p[k + 1..c], c + 1)
  }

  /** The characters from `from` to `k` are the longest run of letters, digits and '}'. */
  ghost predicate LongestRun(p: string, from: nat, k: nat) {
    && from <= k <= |p|
    && (forall j :: from <= j < k ==>
          'a' <= p[j] <= 'z' || 'A' <= p[j] <= 'Z' || '0' <= p[j] <= '9' || p[j] == '}')
    && (k < |p| ==> !('a' <= p[k] <= 'z' || 'A' <= p[k] <= 'Z' || '0' <= p[k] <= '9' || p[k] == '}'))
  }

  lemma NameIs(p: string, n: nat, k: nat)
    requires LongestRun(p, n, k)
    ensures NameEnd(p, n) == k
  {
    var e := NameEnd(p, n);
    assert e < k ==> NameChar(p[e]);
    assert k < e ==> NameChar(p[k]);
  }

  /** Behind a '%' stands a name, the longest run of letters, digits and '}'. Without a '{'
      right behind it, that is the whole format; with one that is never closed, there is none. */
  lemma NameExactly(p: string, i: nat, k: nat)
    requires i < |p| && LongestRun(p, i + 1, k)
    ensures k == |p| || p[k] != '{' ==> ScanFormat(p, i) == Format(p[i + 1..k], "", k)
    ensures k < |p| && p[k] == '{' && '}' !in p[k + 1..] ==> ScanFormat(p, i) == Unclosed
  {
    NameIs(p, i + 1, k);
    if k < |p| && p[k] == '{' && '}' !in p[k + 1..] {
      var rest := p[k + 1..];
      assert forall j :: k < j < |p| ==> p[j] == rest[j - k - 1];
    }
  }

  /** With a '{' behind the name, the argument ends in front of the first '}' behind that. */
  lemma ArgExactly(p: string, i: nat, k: nat, c: nat)
    requires i < |p| && LongestRun(p, i + 1, k) && k < c < |p| && p[k] == '{' && p[c] == '}' && '}' !in p[k + 1..c]
    ensures ScanFormat(p, i) == Format(p[i + 1..k], p[k + 1..c], c + 1)
  {
    NameIs(p, i + 1, k);
    var arg := p[k + 1..c];
    assert forall j :: k < j < c ==> p[j] == arg[j - k - 1];
    assert Close(p, k + 1) == c;
  }

  /** An item and the part of the pattern it was made from. */
  datatype Piece = Piece(item: Item, from: nat, to: nat)

  function Literal(text: string, from: nat, to: nat): seq<Piece> {
    if text == "" then [] else [Piece(Item(text, "", false), from, to)]
  }

  /** The pieces from position `i` on; `nstr`, which began at `from`, has not been pushed yet. */
  function Pieces(p: string, i: nat, nstr: string, from: nat): seq<Piece>
    requires i <= |p|
    decreases |p| - i
  {
    if i == |p| then Literal(nstr, from, i)
    else if p[i] != '%' then Pieces(p, i + 1, nstr + [p[i]], from)
    else if i + 1 < |p| && p[i + 1] == '%' then Pieces(p, i + 1, nstr + "%", from)
    else
      match ScanFormat(p, i)
      case Format(name, arg, end) => Literal(nstr, from, i) + [Piece(Item(name, arg, true), i, end)] + Pieces(p, end,
        "", end)
      case Unclosed => [Piece(Item(PATTERN_ERROR, "", false), i, i + 1)] + Pieces(p, i + 1, nstr, from)
  }

  /** Some '%' that starts a format has braces that are never closed. */
  predicate Broken(p: string, i: nat)
    requires i <= |p|
    decreases |p| - i
  {
    if i == |p| then false
    else if p[i] != '%' || (i + 1 < |p| && p[i + 1] == '%') then Broken(p, i + 1)
    else
      match ScanFormat(p, i)
      case Format(_, _, end) => Broken(p, end)
      case Unclosed => true
  }

  function Items(pieces: seq<Piece>): seq<Item> {
    seq(|pieces|, k requires 0 <= k < |pieces| => pieces[k].item)
  }

  // --- the method ---

  /** The inner loop: the scan from the '%' at position `i`; `status` is 1 when braces are
      still open at the end. */
  method ScanLoop(p: string, i: nat) returns (str: string, fmt: string, status: nat, n: nat)
    requires i < |p|
    ensures match ScanFormat(p, i)
      case Format(name, arg, end) => status == 0 && str == name && fmt == arg && n == end
      case Unclosed => status == 1 && fmt == ""
  {
    n := i + 1;
    status := 0;
    str, fmt := "", "";
    var fmtBegin := 0;
    ghost var k := NameEnd(p, i + 1);
    while n < |p|
      invariant i + 1 <= n <= |p| && status <= 1
      invariant fmt == "" && (status == 0 ==> n <= k)
      invariant status == 0 && n < |p| ==> str == ""
      invariant status == 0 && n == |p| ==> k == |p| && str == p[i + 1..]
      invariant status == 1 ==> k < |p| && p[k] == '{' && fmtBegin == k && k < n && Close(p, k + 1) >= n
      invariant status == 1 && n < |p| ==> str == p[i + 1..k]
    {
      if status == 0 && !AlphaNumeric(p[n]) && p[n] != '{' && p[n] != '}' {
        str := p[i + 1..n];
        assert n == k;
        return;
      }
      if status == 0 {
        if p[n] == '{' {
          assert n == k;
          str := p[i + 1..n];
          status := 1;
          fmtBegin := n;
          n := n + 1;
          continue;
        }
      } else {
        if p[n] == '}' {
          fmt := p[fmtBegin + 1..n];
          status := 0;
          n := n + 1;
          assert Close(p, k + 1) == n - 1;
          return;
        }
      }
      n := n + 1;
      if n == |p| {
        if str == "" {
          str := p[i + 1..];
        }
      }
    }
  }

  lemma ItemsAppend(x: seq<Piece>, y: seq<Piece>)
    ensures Items(x + y) == Items(x) + Items(y)
  {}

  /** The literal text so far, if there is any, and a format item. */
  method Push(vec: seq<Item>, nstr: string, item: Item) returns (r: seq<Item>)
    ensures r == (if nstr == "" then vec else vec + [Item(nstr, "", false)]) + [item]
  {
    r := vec;
    if nstr != "" {
      r := r + [Item(nstr, "", false)];
    }
    r := r + [item];
  }

  /** `init`: the entries of `vec` and `m_error`. */
  method Init(pattern: string) returns (vec: seq<Item>, error: bool)
    ensures vec == Items(Pieces(pattern, 0, "", 0)) && error == Broken(pattern, 0)
  {
    vec, error := [], false;
    var nstr := "";
    var i := 0;
    ghost var from := 0;
    ghost var whole := Items(Pieces(pattern, 0, "", 0));
    while i < |pattern|
      invariant 0 <= i <= |pattern| && 0 <= from
      invariant whole == vec + Items(Pieces(pattern, i, nstr, from))
      invariant Broken(pattern, 0) == (error || Broken(pattern, i))
    {
      if pattern[i] != '%' {
        nstr := nstr + [pattern[i]];
        i := i + 1;
        continue;
      }
      if i + 1 < |pattern| {
        if pattern[i + 1] == '%' {
          nstr := nstr + "%";
          i := i + 1;
          continue;
        }
      }
      var str, fmt, status, n := ScanLoop(pattern, i);
      if status == 0 {
        PushedFormat(pattern, i, nstr, from);
        ghost var rest := Items(Pieces(pattern, n, "", n));
        Chain(vec, nstr, Item(str, fmt, true), rest);
        vec := Push(vec, nstr, Item(str, fmt, true));
        nstr, i, from := "", n, n;
      } else {
        PushedError(pattern, i, nstr, from);
        Chain(vec, "", Item(PATTERN_ERROR, fmt, false), Items(Pieces(pattern, i + 1, nstr, from)));
        error := true;
        vec := vec + [Item(PATTERN_ERROR, fmt, false)];
        i := i + 1;
      }
    }
    if nstr != "" {
      vec := vec + [Item(nstr, "", false)];
    }
  }

  lemma Chain(vec: seq<Item>, nstr: string, x: Item, rest: seq<Item>)
    ensures nstr == "" ==> vec + ([x] + rest) == vec + [x] + rest
    ensures vec + ((if nstr == "" then [] else [Item(nstr, "", false)]) + [x] + rest)
         == (if nstr == "" then vec else vec + [Item(nstr, "", false)]) + [x] + rest
  {}

  predicate StartsFormat(p: string, i: nat) {
    i < |p| && p[i] == '%' && !(i + 1 < |p| && p[i + 1] == '%')
  }

  lemma PushedFormat(p: string, i: nat, nstr: string, from: nat)
    requires StartsFormat(p, i) && ScanFormat(p, i).Format?
    ensures var f := ScanFormat(p, i);
      Items(Pieces(p, i, nstr, from))
      == (if nstr == "" then [] else [Item(nstr, "", false)])
         + [Item(f.name, f.arg, true)] + Items(Pieces(p, f.end, "", f.end))
  {
    var f := ScanFormat(p, i);
    var x, y, z := Literal(nstr, from, i), [Piece(Item(f.name, f.arg, true), i, f.end)], Pieces(p, f.end, "", f.end);
    ItemsAppend(x + y, z);
    ItemsAppend(x, y);
  }

  lemma PushedError(p: string, i: nat, nstr: string, from: nat)
    requires StartsFormat(p, i) && ScanFormat(p, i).Unclosed?
    ensures Items(Pieces(p, i, nstr, from)) == [Item(PATTERN_ERROR, "", false)] + Items(Pieces(p, i + 1, nstr, from))
  {
    ItemsAppend([Piece(Item(PATTERN_ERROR, "", false), i, i + 1)], Pieces(p, i + 1, nstr, from));
  }

  lemma {:induction false} PlainRun(p: string, i: nat, j: nat, nstr: string, from: nat)
    requires i <= j <= |p| && '%' !in p[i..j]
    ensures Pieces(p, i, nstr, from) == Pieces(p, j, nstr + p[i..j], from)
    decreases j - i
  {
    if i == j {
      assert nstr + p[i..j] == nstr;
    } else {
      assert p[i] == p[i..j][0] && p[i + 1..j] == p[i..j][1..];
      PlainRun(p, i + 1, j, nstr + [p[i]], from);
      assert nstr + [p[i]] + p[i + 1..j] == nstr + p[i..j];
    }
  }

  lemma PlainStart(p: string, i: nat)
    requires i <= |p| && '%' !in p[..i]
    ensures Pieces(p, 0, "", 0) == Pieces(p, i, p[..i], 0)
  {
    assert p[0..i] == p[..i];
    PlainRun(p, 0, i, "", 0);
    assert "" + p[0..i] == p[..i];
  }

  lemma PlainEnd(p: string, i: nat, front: string, text: string)
    requires i <= |p| && '%' !in p[i..] && text == front + p[i..] && text != ""
    ensures Items(Pieces(p, i, front, 0)) == [Item(text, "", false)]
  {
    assert p[i..|p|] == p[i..];
    PlainRun(p, i, |p|, front, 0);
    assert Pieces(p, i, front, 0) == Literal(text, 0, |p|);
  }

  lemma ErrorThen(p: string, i: nat, front: string, text: string)
    requires StartsFormat(p, i) && ScanFormat(p, i).Unclosed? && '%' !in p[i + 1..]
    requires text == front + p[i + 1..] && text != ""
    ensures Items(Pieces(p, i, front, 0)) == [Item(PATTERN_ERROR, "", false)] + [Item(text, "", false)]
  {
    PushedError(p, i, front, 0);
    PlainEnd(p, i + 1, front, text);
  }

  /** An error does not end the literal text in front of it: the error comes out first, and
      the text, joined with all that follows the '%', behind it. */
  lemma ErrorFirst(p: string, i: nat, k: nat)
    requires i < |p| && p[i] == '%' && '%' !in p[..i] && '%' !in p[i + 1..]
    requires LongestRun(p, i + 1, k) && k < |p| && p[k] == '{' && '}' !in p[k + 1..]
    ensures Items(Pieces(p, 0, "", 0)) ==
      [Item("<<pattern_error>>", "", false), Item(p[..i] + p[i + 1..], "", false)]
  {
    NameExactly(p, i, k);
    assert p[i + 1..][0] == p[i + 1];
    var front, text := p[..i], p[..i] + p[i + 1..];
    assert |text| == |p| - 1;
    PlainStart(p, i);
    ErrorThen(p, i, front, text);
  }

  // --- lossless ---

  /** The piece of the pattern that an item stands for: the text itself, or '%', the name
      and, unless there were none, the braces and what is in them. */
  predicate Spells(item: Item, text: string) {
    if !item.format then text == item.str && item.fmt == ""
    else text == "%" + item.str + "{" + item.fmt + "}" || (text == "%" + item.str && item.fmt == "")
  }

  /** The pieces follow each other from `at` to the end of the pattern without a gap or an
      overlap, and each item spells its piece. */
  predicate Tiles(pieces: seq<Piece>, p: string, at: nat) {
    if pieces == [] then at == |p|
    else
      var x := pieces[0];
      && x.from == at && at <= x.to <= |p| && Spells(x.item, p[at..x.to])
      && Tiles(pieces[1..], p, x.to)
  }

  lemma InBraces(p: string, i: nat, k: nat, c: nat)
    requires i <= k < c < |p| && p[k] == '{' && p[c] == '}'
    ensures p[i..c + 1] == p[i..k] + "{" + p[k + 1..c] + "}"
  {}

  lemma FormatSpells(p: string, i: nat)
    requires StartsFormat(p, i) && ScanFormat(p, i).Format?
    ensures var f := ScanFormat(p, i); Spells(Item(f.name, f.arg, true), p[i..f.end])
  {
    var k := NameEnd(p, i + 1);
    assert p[i..k] == "%" + p[i + 1..k];
    if k < |p| && p[k] == '{' { InBraces(p, i, k, Close(p, k + 1)); }
  }

  lemma LiteralTiles(p: string, text: string, from: nat, i: nat, rest: seq<Piece>)
    requires from <= i <= |p| && text == p[from..i] && Tiles(rest, p, i)
    ensures Tiles(Literal(text, from, i) + rest, p, from)
  {
    if text == "" {
      assert Literal(text, from, i) + rest == rest;
    } else {
      assert (Literal(text, from, i) + rest)[1..] == rest;
    }
  }

  lemma Prepended(x: Piece, rest: seq<Piece>, p: string)
    requires x.from <= x.to <= |p| && Spells(x.item, p[x.from..x.to]) && Tiles(rest, p, x.to)
    ensures Tiles([x] + rest, p, x.from)
  {
    assert ([x] + rest)[1..] == rest;
  }

  lemma {:induction false} WholeTiles(p: string, i: nat, nstr: string, from: nat)
    requires from <= i <= |p| && nstr == p[from..i] && !Broken(p, i)
    ensures Tiles(Pieces(p, i, nstr, from), p, from)
    decreases |p| - i
  {
    if i == |p| {
      LiteralTiles(p, nstr, from, i, []);
      assert Literal(nstr, from, i) + [] == Literal(nstr, from, i);
    } else if StartsFormat(p, i) {
      var f := ScanFormat(p, i);
      var x := Piece(Item(f.name, f.arg, true), i, f.end);
      var rest := Pieces(p, f.end, "", f.end);
      WholeTiles(p, f.end, "", f.end);
      FormatSpells(p, i);
      Prepended(x, rest, p);
      LiteralTiles(p, nstr, from, i, [x] + rest);
      assert Literal(nstr, from, i) + ([x] + rest) == Literal(nstr, from, i) + [x] + rest;
    } else {
      assert p[from..i + 1] == nstr + [p[i]];
      WholeTiles(p, i + 1, nstr + [p[i]], from);
    }
  }

  /** Leading pieces that tile leave the rest to tile. */
  lemma {:induction false} TilesRest(x: seq<Piece>, y: seq<Piece>, p: string, at: nat) returns (mid: nat)
    requires Tiles(x + y, p, at)
    ensures Tiles(y, p, mid)
    decreases |x|
  {
    if x == [] {
      assert x + y == y;
      mid := at;
    } else {
      assert (x + y)[1..] == x[1..] + y;
      mid := TilesRest(x[1..], y, p, x[0].to);
    }
  }

  lemma {:induction false} BrokenGaps(p: string, i: nat, nstr: string, from: nat, at: nat)
    requires i <= |p| && Broken(p, i)
    ensures !Tiles(Pieces(p, i, nstr, from), p, at)
    decreases |p| - i
  {
    if Tiles(Pieces(p, i, nstr, from), p, at) {
      if StartsFormat(p, i) {
        if ScanFormat(p, i).Format? {
          var f := ScanFormat(p, i);
          var rest := Pieces(p, f.end, "", f.end);
          var mid := TilesRest(Literal(nstr, from, i) + [Piece(Item(f.name, f.arg, true), i, f.end)], rest, p, at);
          BrokenGaps(p, f.end, "", f.end, mid);
        }
      } else {
        BrokenGaps(p, i + 1, nstr + [p[i]], from, at);
      }
    }
  }

  /** The items cover the pattern, in order and without a gap or an overlap, exactly when
      no braces are left open. */
  lemma TokensTile(p: string)
    ensures Tiles(Pieces(p, 0, "", 0), p, 0) <==> !Broken(p, 0)
  {
    if Broken(p, 0) {
      BrokenGaps(p, 0, "", 0, 0);
    } else {
      WholeTiles(p, 0, "", 0);
    }
  }

  /** Braces are left open only where some '{' has no '}' behind it. */
  lemma {:induction false} BrokenMeansOpen(p: string, i: nat) returns (k: nat)
    requires i <= |p| && Broken(p, i)
    ensures i <= k < |p| && p[k] == '{' && forall j :: k < j < |p| ==> p[j] != '}'
    decreases |p| - i
  {
    if !StartsFormat(p, i) {
      k := BrokenMeansOpen(p, i + 1);
    } else if ScanFormat(p, i).Format? {
      k := BrokenMeansOpen(p, ScanFormat(p, i).end);
    } else {
      k := NameEnd(p, i + 1);
    }
  }
}
