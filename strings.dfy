/** The functions of Go's `strings` package that the request pipeline relies on:
    `Contains`, `Trim` with a one-character cutset, `Join`, and `Split`/`Cut` on a
    one-character separator (`Split` for the query parsing and as the inverse
    of `Join`). */
module Strings {

  /** `sub` occurs in `s` starting at index `i`. */
  predicate OccursAt(s: string, sub: string, i: int)
  {
    0 <= i && i + |sub| <= |s| && s[i..i + |sub|] == sub
  }

  /** Search for `sub` at every index from `from` on, the way `strings.Index` scans. */
  function ContainsFrom(s: string, sub: string, from: nat): (b: bool)
    ensures b <==> exists i :: from <= i && OccursAt(s, sub, i)
    decreases |s| - from
  {
    if from + |sub| > |s| then false
    else if s[from..from + |sub|] == sub then assert OccursAt(s, sub, from); true
    else ContainsFrom(s, sub, from + 1)
  }

  /** `strings.Contains(s, sub)`: `sub` occurs somewhere in `s`. */
  function Contains(s: string, sub: string): (b: bool)
    ensures b <==> exists i :: OccursAt(s, sub, i)
  {
    ContainsFrom(s, sub, 0)
  }

  /** Every character of `s` is `c`. */
  predicate All(s: string, c: char)
  {
    forall k :: 0 <= k < |s| ==> s[k] == c
  }

  /** `strings.TrimLeft(s, [c])`: drop every leading `c`. */
  function TrimLeft(s: string, c: char): (r: string)
    ensures |r| <= |s| && r == s[|s| - |r|..]
    ensures All(s[..|s| - |r|], c)
    ensures r != [] ==> r[0] != c
  {
    if s != [] && s[0] == c then
      var t := s[1..];
      var r := TrimLeft(t, c);
      assert t[|t| - |r|..] == s[|s| - |r|..];
      assert s[..|s| - |r|] == [s[0]] + t[..|t| - |r|];
      r
    else s
  }

  /** `strings.TrimRight(s, [c])`: drop every trailing `c`. */
  function TrimRight(s: string, c: char): (r: string)
    ensures |r| <= |s| && r == s[..|r|]
    ensures All(s[|r|..], c)
    ensures r != [] ==> r[|r| - 1] != c
  {
    if s != [] && s[|s| - 1] == c then
      var t := s[..|s| - 1];
      var r := TrimRight(t, c);
      assert t[..|r|] == s[..|r|];
      assert s[|r|..] == t[|r|..] + [s[|s| - 1]];
      r
    else s
  }

  /** `strings.Trim(s, [c])`: drop every leading and every trailing `c`. */
  function Trim(s: string, c: char): string
  {
    TrimRight(TrimLeft(s, c), c)
  }

  /** What `Trim` removes and keeps: `Trim(s, c)` is the infix `s[i..j]` left once
      all of `s[..i]` and all of `s[j..]` are `c`, and it neither starts nor ends in `c`. */
  lemma TrimIsInfix(s: string, c: char)
    ensures var r := Trim(s, c);
      exists i, j :: 0 <= i <= j <= |s| && r == s[i..j] && All(s[..i], c) && All(s[j..], c)
    ensures var r := Trim(s, c); r != [] ==> r[0] != c && r[|r| - 1] != c
  {
    var l := TrimLeft(s, c);
    var r := TrimRight(l, c);
    InfixOfSuffix(s, l, r, c);
    if r != [] {
      assert r[0] == l[0];
    }
  }

  /** A prefix `r` of a suffix `l` of `s` is an infix of `s`, with what lies outside it. */
  lemma InfixOfSuffix(s: string, l: string, r: string, c: char)
    requires |l| <= |s| && l == s[|s| - |l|..] && All(s[..|s| - |l|], c)
    requires |r| <= |l| && r == l[..|r|] && All(l[|r|..], c)
    ensures exists i, j :: 0 <= i <= j <= |s| && r == s[i..j] && All(s[..i], c) && All(s[j..], c)
  {
    var i := |s| - |l|;
    var j := i + |r|;
    assert r == s[i..j];
    assert l[|r|..] == s[j..];
  }

  /** Trimming twice trims nothing more. */
  lemma TrimIdempotent(s: string, c: char)
    ensures Trim(Trim(s, c), c) == Trim(s, c)
  {
    var r := Trim(s, c);
    TrimIsInfix(s, c);
  }

  /** `strings.Join(xs, sep)`. */
  function Join(xs: seq<string>, sep: string): string
  {
    if |xs| == 0 then ""
    else if |xs| == 1 then xs[0]
    else xs[0] + sep + Join(xs[1..], sep)
  }

  /** `strings.Split(s, [c])`: the pieces between occurrences of `c`, always at least one. */
  function Split(s: string, c: char): (r: seq<string>)
    ensures |r| >= 1
  {
    if s == [] then [""]
    else if s[0] == c then [""] + Split(s[1..], c)
    else
      var rest := Split(s[1..], c);
      [[s[0]] + rest[0]] + rest[1..]
  }

  /** `strings.Cut(s, [c])`'s first result: the part of `s` before the first `c`. */
  function Before(s: string, c: char): (r: string)
    ensures |r| <= |s| && r == s[..|r|] && c !in r
    ensures |r| < |s| ==> s[|r|] == c
  {
    if s == [] || s[0] == c then "" else [s[0]] + Before(s[1..], c)
  }

  lemma {:induction false} SplitNoSep(x: string, c: char)
    requires c !in x
    ensures Split(x, c) == [x]
  {
    if x != [] {
      assert x[0] != c && c !in x[1..] by { assert x == [x[0]] + x[1..]; }
      SplitNoSep(x[1..], c);
      assert [x[0]] + x[1..] == x;
    }
  }

  lemma {:induction false} SplitPiece(x: string, c: char, rest: string)
    requires c !in x
    ensures Split(x + [c] + rest, c) == [x] + Split(rest, c)
  {
    if x == [] {
      assert (x + [c] + rest)[1..] == rest;
    } else {
      assert x[0] != c && c !in x[1..] by { assert x == [x[0]] + x[1..]; }
      assert (x + [c] + rest)[0] == x[0];
      assert (x + [c] + rest)[1..] == x[1..] + [c] + rest;
      SplitPiece(x[1..], c, rest);
      assert [x[0]] + x[1..] == x;
    }
  }

  /** Splitting a `Join` on a separator that no piece contains gives the pieces back. */
  lemma {:induction false} SplitJoin(xs: seq<string>, c: char)
    requires |xs| >= 1
    requires forall k :: 0 <= k < |xs| ==> c !in xs[k]
    ensures Split(Join(xs, [c]), c) == xs
  {
    if |xs| == 1 {
      SplitNoSep(xs[0], c);
    } else {
      SplitJoin(xs[1..], c);
      SplitPiece(xs[0], c, Join(xs[1..], [c]));
      assert [xs[0]] + xs[1..] == xs;
    }
  }
}
