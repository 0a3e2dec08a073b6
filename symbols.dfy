/**
 * The symbol list of the stock-comparison tab:
 * `[s.strip() for s in stock_symbols.split(",")]`.
 */
module Symbols {

  /** Python's `str.isspace`: the characters `str.strip()` removes. */
  predicate IsSpace(c: char) {
    var n := c as int;
    || 0x09 <= n <= 0x0D
    || 0x1C <= n <= 0x20
    || n == 0x85 || n == 0xA0 || n == 0x1680
    || 0x2000 <= n <= 0x200A
    || n == 0x2028 || n == 0x2029 || n == 0x202F || n == 0x205F || n == 0x3000
  }

  predicate AllSpace(s: string) {
    forall i :: 0 <= i < |s| ==> IsSpace(s[i])
  }

  /** No whitespace at either end: what `strip()` guarantees of its result. */
  predicate Trimmed(s: string) {
    s == [] || (!IsSpace(s[0]) && !IsSpace(s[|s| - 1]))
  }

  function Count(s: string, c: char): nat {
    if s == [] then 0 else (if s[0] == c then 1 else 0) + Count(s[1..], c)
  }

  /** `sep.join(pieces)`. */
  function Join(pieces: seq<string>, sep: char): string
    requires |pieces| > 0
  {
    if |pieces| == 1 then pieces[0] else pieces[0] + [sep] + Join(pieces[1..], sep)
  }

  /** `s.split(sep)` for a one-character separator. */
  function Split(s: string, sep: char): (pieces: seq<string>)
    ensures |pieces| == Count(s, sep) + 1
    ensures forall i :: 0 <= i < |pieces| ==> sep !in pieces[i]
    ensures Join(pieces, sep) == s
  {
    if s == [] then [[]]
    else
      var rest := Split(s[1..], sep);
      if s[0] == sep then
        [[]] + rest
      else
        var pieces := [[s[0]] + rest[0]] + rest[1..];
        assert pieces[1..] == rest[1..];
        pieces
  }

  /** Leading whitespace removed. */
  function StripLeading(s: string): (r: string)
    ensures |r| <= |s| && r == s[|s| - |r|..]
    ensures AllSpace(s[..|s| - |r|])
    ensures r == [] || !IsSpace(r[0])
  {
    if s != [] && IsSpace(s[0]) then
      var r := StripLeading(s[1..]);
      assert s[..|s| - |r|] == [s[0]] + s[1..][..|s| - 1 - |r|];
      r
    else s
  }

  /** Trailing whitespace removed. */
  function StripTrailing(s: string): (r: string)
    ensures |r| <= |s| && r == s[..|r|]
    ensures AllSpace(s[|r|..])
    ensures r == [] || !IsSpace(r[|r| - 1])
  {
    if s != [] && IsSpace(s[|s| - 1]) then
      var r := StripTrailing(s[..|s| - 1]);
      assert s[|r|..] == s[..|s| - 1][|r|..] + [s[|s| - 1]];
      r
    else s
  }

  /** `s.strip()`: the middle of `s` between its leading and trailing whitespace. */
  function Strip(s: string): (r: string)
    ensures Trimmed(r)
    ensures exists a :: 0 <= a <= |s| - |r| && r == s[a..a + |r|] && AllSpace(s[..a]) && AllSpace(s[a + |r|..])
  {
    var left := StripLeading(s);
    var r := StripTrailing(left);
    var a := |s| - |left|;
    SuffixSlices(s, a, |r|);
    assert r == s[a..a + |r|];
    assert s[a + |r|..] == left[|r|..];
    assert r != [] ==> r[0] == left[0];
    r
  }

  /** Slicing a suffix of `s` is slicing `s` itself further along. */
  lemma SuffixSlices(s: string, a: nat, n: nat)
    requires a + n <= |s|
    ensures s[a..][..n] == s[a..a + n]
    ensures s[a..][n..] == s[a + n..]
  {
  }

  /** The symbol list; the tab only parses a non-empty input, but every string parses. */
  function ParseSymbols(input: string): (symbols: seq<string>)
    ensures |symbols| == Count(input, ',') + 1
    ensures forall i :: 0 <= i < |symbols| ==> ',' !in symbols[i] && Trimmed(symbols[i])
    ensures forall i :: 0 <= i < |symbols| ==> symbols[i] == Strip(Split(input, ',')[i])
  {
    var pieces := Split(input, ',');
    var symbols := seq(|pieces|, i requires 0 <= i < |pieces| => Strip(pieces[i]));
    forall i | 0 <= i < |symbols| ensures ',' !in symbols[i] {
      StripKeepsOut(pieces[i], ',');
    }
    symbols
  }

  /** `strip()` removes characters and never brings one in. */
  lemma StripKeepsOut(s: string, c: char)
    requires c !in s
    ensures c !in Strip(s)
  {
    var left := StripLeading(s);
    DropKeepsOut(s, |s| - |left|, c);
    TakeKeepsOut(left, |StripTrailing(left)|, c);
  }

  lemma DropKeepsOut(s: string, i: nat, c: char)
    requires i <= |s| && c !in s
    ensures c !in s[i..]
  {
    forall k | 0 <= k < |s| - i ensures s[i..][k] != c {
      assert s[i..][k] == s[i + k];
    }
  }

  lemma TakeKeepsOut(s: string, j: nat, c: char)
    requires j <= |s| && c !in s
    ensures c !in s[..j]
  {
    forall k | 0 <= k < j ensures s[..j][k] != c {
      assert s[..j][k] == s[k];
    }
  }

  /** A piece without the separator is not split. */
  lemma {:induction false} SplitPiece(p: string, sep: char)
    requires sep !in p
    ensures Split(p, sep) == [p]
  {
    if p != [] {
      SplitPiece(p[1..], sep);
      assert [p[0]] + p[1..] == p;
    }
  }

  /** A piece followed by the separator becomes one entry, and splitting goes on after it. */
  lemma {:induction false} SplitPieceThenSep(p: string, sep: char, t: string)
    requires sep !in p
    ensures Split(p + [sep] + t, sep) == [p] + Split(t, sep)
  {
    if p == [] {
      assert p + [sep] + t == [sep] + t;
      assert ([sep] + t)[1..] == t;
    } else {
      var s := p + [sep] + t;
      assert s[1..] == p[1..] + [sep] + t;
      SplitPieceThenSep(p[1..], sep, t);
      assert [p[0]] + p[1..] == p;
    }
  }

  /** Splitting undoes joining pieces free of the separator. */
  lemma {:induction false} SplitJoin(pieces: seq<string>, sep: char)
    requires |pieces| > 0
    requires forall i :: 0 <= i < |pieces| ==> sep !in pieces[i]
    ensures Split(Join(pieces, sep), sep) == pieces
  {
    if |pieces| == 1 {
      SplitPiece(pieces[0], sep);
    } else {
      SplitJoin(pieces[1..], sep);
      SplitPieceThenSep(pieces[0], sep, Join(pieces[1..], sep));
    }
  }

  lemma {:induction false} StripLeadingSpaces(lead: string, x: string)
    requires AllSpace(lead)
    requires x == [] || !IsSpace(x[0])
    ensures StripLeading(lead + x) == x
  {
    if lead != [] {
      assert (lead + x)[1..] == lead[1..] + x;
      StripLeadingSpaces(lead[1..], x);
    }
  }

  lemma {:induction false} StripTrailingSpaces(x: string, trail: string)
    requires AllSpace(trail)
    requires x == [] || !IsSpace(x[|x| - 1])
    ensures StripTrailing(x + trail) == x
  {
    if trail != [] {
      assert (x + trail)[..|x + trail| - 1] == x + trail[..|trail| - 1];
      StripTrailingSpaces(x, trail[..|trail| - 1]);
    }
  }

  /** `strip()` gives back exactly the text between surrounding whitespace. */
  lemma StripSurrounded(lead: string, x: string, trail: string)
    requires AllSpace(lead) && AllSpace(trail) && Trimmed(x)
    ensures Strip(lead + x + trail) == x
  {
    if x == [] {
      assert lead + x + trail == lead + trail;
      StripLeadingSpaces(lead + trail, []);
      assert lead + trail + [] == lead + trail;
    } else {
      assert lead + x + trail == lead + (x + trail);
      StripLeadingSpaces(lead, x + trail);
      StripTrailingSpaces(x, trail);
    }
  }

  /** The entries the user typed, written as "AAPL, MSFT", ... */
  function Typed(symbols: seq<string>): seq<string> {
    seq(|symbols|, i requires 0 <= i < |symbols| => if i == 0 then symbols[0] else " " + symbols[i])
  }

  lemma StripTyped(symbols: seq<string>, i: nat)
    requires i < |symbols| && Trimmed(symbols[i])
    ensures |Typed(symbols)| == |symbols|
    ensures Strip(Typed(symbols)[i]) == symbols[i]
  {
    var x := symbols[i];
    if i == 0 {
      StripSurrounded([], x, []);
      assert [] + x + [] == x;
    } else {
      assert AllSpace(" ");
      StripSurrounded(" ", x, []);
      assert " " + x + [] == Typed(symbols)[i];
    }
  }

  /** Typing trimmed, comma-free symbols separated by ", " parses back to those symbols. */
  lemma ParseTyped(symbols: seq<string>)
    requires |symbols| > 0
    requires forall i :: 0 <= i < |symbols| ==> ',' !in symbols[i] && Trimmed(symbols[i])
    ensures ParseSymbols(Join(Typed(symbols), ',')) == symbols
  {
    var typed := Typed(symbols);
    assert forall i :: 0 <= i < |typed| ==> ',' !in typed[i] by {
      forall i | 0 <= i < |typed| ensures ',' !in typed[i] {
        if i > 0 {
          assert typed[i] == " " + symbols[i];
        }
      }
    }
    SplitJoin(typed, ',');
    var parsed := ParseSymbols(Join(typed, ','));
    assert |parsed| == |symbols|;
    forall i | 0 <= i < |symbols| ensures parsed[i] == symbols[i] {
      StripTyped(symbols, i);
    }
  }
}
