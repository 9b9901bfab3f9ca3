/**
 * The few JavaScript built-ins that the dashboard components rely on, as
 * functions on Dafny strings: `undefined`-or-a-value, the regular-expression
 * class `\s` and `String.prototype.trim`, `startsWith`, `indexOf` and
 * `split` with a non-empty separator.
 */
module Js {

  /** A value that may be `undefined` (or `null`). */
  datatype Option<+T> = None | Some(value: T) {
    function GetOr(default: T): T {
      match this
      case Some(v) => v
      case None => default
    }
  }

  /** The LineTerminator characters of ECMAScript: what `.` in a regular expression does not match. */
  predicate IsLineTerminator(c: char) {
    c == '\n' || c == '\r' || c == '\U{2028}' || c == '\U{2029}'
  }

  /** The class `\s` (ECMAScript WhiteSpace and LineTerminator), also what `trim` removes. */
  predicate IsSpace(c: char) {
    || c == '\t' || c == '\U{000B}' || c == '\U{000C}' || c == ' ' || c == '\U{00A0}' || c == '\U{FEFF}'
    || c == '\U{1680}' || ('\U{2000}' <= c <= '\U{200A}') || c == '\U{202F}' || c == '\U{205F}' || c == '\U{3000}'
    || IsLineTerminator(c)
  }

  predicate StartsWith(s: string, prefix: string) {
    |prefix| <= |s| && s[..|prefix|] == prefix
  }

  /** `p` occurs in `s` at index `i`. */
  predicate Occurs(s: string, p: string, i: int) {
    0 <= i && i + |p| <= |s| && s[i..i + |p|] == p
  }

  ghost predicate Contains(s: string, p: string) {
    exists i :: Occurs(s, p, i)
  }

  /** `s.indexOf(p, from)`: the first occurrence at or after `from`, `None` for -1. */
  function IndexFrom(s: string, p: string, from: nat): (r: Option<nat>)
    ensures r.Some? ==> from <= r.value && Occurs(s, p, r.value)
    decreases |s| - from
  {
    if from + |p| > |s| then None
    else if s[from..from + |p|] == p then Some(from)
    else IndexFrom(s, p, from + 1)
  }

  /** Nothing between `from` and the index found (or the end) is an occurrence. */
  lemma {:induction false} IndexFromFirst(s: string, p: string, from: nat, j: int)
    requires from <= j && (IndexFrom(s, p, from).None? || j < IndexFrom(s, p, from).value)
    ensures !Occurs(s, p, j)
    decreases |s| - from
  {
    if from + |p| <= |s| && s[from..from + |p|] != p && from < j {
      IndexFromFirst(s, p, from + 1, j);
    }
  }

  /** An occurrence in a slice is an occurrence in the whole string, shifted by the slice's start. */
  lemma OccursSlice(s: string, p: string, a: nat, b: nat, j: nat)
    requires a <= b <= |s| && j + |p| <= b - a
    ensures Occurs(s[a..b], p, j) <==> Occurs(s, p, a + j)
  {
    var u, v := s[a..b][j..j + |p|], s[a + j..a + j + |p|];
    forall k | 0 <= k < |p| ensures u[k] == v[k] {
    }
    assert u == v;
  }

  /** `s.indexOf(p)`: the first occurrence of `p` in `s`. */
  function IndexOf(s: string, p: string): (r: Option<nat>)
    ensures r.Some? ==> Occurs(s, p, r.value)
  {
    IndexFrom(s, p, 0)
  }

  /** `IndexOf` finds the first occurrence, and finds one whenever there is one. */
  lemma IndexOfFirst(s: string, p: string)
    ensures forall j :: 0 <= j && (IndexOf(s, p).None? || j < IndexOf(s, p).value) ==> !Occurs(s, p, j)
    ensures IndexOf(s, p).None? <==> !Contains(s, p)
  {
    forall j | 0 <= j && (IndexOf(s, p).None? || j < IndexOf(s, p).value) ensures !Occurs(s, p, j) {
      IndexFromFirst(s, p, 0, j);
    }
  }

  /** Prepending `sep` to each part but the first and concatenating: the inverse of `Split`. */
  function Join(parts: seq<string>, sep: string): string {
    if parts == [] then ""
    else if |parts| == 1 then parts[0]
    else parts[0] + sep + Join(parts[1..], sep)
  }

  /**
   * `s.split(sep)` for a non-empty string separator: the parts between the
   * occurrences of `sep` found scanning left to right.
   */
  function Split(s: string, sep: string): (parts: seq<string>)
    requires |sep| > 0
    ensures |parts| >= 1
    decreases |s|
  {
    match IndexOf(s, sep)
    case None => [s]
    case Some(i) => [s[..i]] + Split(s[i + |sep|..], sep)
  }

  /** One step of `Split`, for proofs that must not unfold it themselves. */
  lemma SplitStep(s: string, sep: string, i: nat)
    requires |sep| > 0 && IndexOf(s, sep) == Some(i)
    ensures i + |sep| <= |s|
    ensures Split(s, sep) == [s[..i]] + Split(s[i + |sep|..], sep)
  {
  }

  /**
   * Each complete part is followed by the leftmost occurrence of the
   * separator after it: occurrences are taken left to right and never overlap.
   */
  lemma {:induction false} SplitLeftmost(s: string, sep: string)
    requires |sep| > 0
    ensures var parts := Split(s, sep);
      forall k :: 0 <= k < |parts| - 1 ==> IndexOf(parts[k] + sep, sep) == Some(|parts[k]|)
    decreases |s|
  {
    match IndexOf(s, sep)
    case None =>
    case Some(i) =>
      var rest := s[i + |sep|..];
      var parts, tail := Split(s, sep), Split(rest, sep);
      SplitLeftmost(rest, sep);
      SplitStep(s, sep, i);
      FirstPartLeftmost(s, sep, i);
      LeftmostCons(s[..i], tail, parts, sep);
  }

  /** Putting a part that is followed by its leftmost separator in front of parts that all are. */
  lemma LeftmostCons(head: string, tail: seq<string>, parts: seq<string>, sep: string)
    requires parts == [head] + tail && IndexOf(head + sep, sep) == Some(|head|)
    requires forall k :: 0 <= k < |tail| - 1 ==> IndexOf(tail[k] + sep, sep) == Some(|tail[k]|)
    ensures forall k :: 0 <= k < |parts| - 1 ==> IndexOf(parts[k] + sep, sep) == Some(|parts[k]|)
  {
    forall k | 1 <= k < |parts| - 1 ensures IndexOf(parts[k] + sep, sep) == Some(|parts[k]|) {
      assert parts[k] == tail[k - 1];
    }
  }

  /** The part before the first separator, followed by the separator, has its first occurrence there. */
  lemma FirstPartLeftmost(s: string, sep: string, i: nat)
    requires IndexOf(s, sep) == Some(i)
    ensures IndexOf(s[..i] + sep, sep) == Some(i)
  {
    var t := s[..i] + sep;
    assert t == s[..i + |sep|];
    assert Occurs(t, sep, i);
    forall j | 0 <= j < i ensures !Occurs(t, sep, j) {
      IndexFromFirst(s, sep, 0, j);
      OccursSlice(s, sep, 0, i + |sep|, j);
    }
    IndexOfFirst(t, sep);
  }

  lemma JoinCons(part: string, parts: seq<string>, sep: string)
    requires |parts| >= 1
    ensures Join([part] + parts, sep) == part + sep + Join(parts, sep)
  {
    assert ([part] + parts)[1..] == parts;
  }

  /** Joining the parts with the separator gives back the string. */
  lemma {:induction false} SplitJoin(s: string, sep: string)
    requires |sep| > 0
    ensures Join(Split(s, sep), sep) == s
    decreases |s|
  {
    match IndexOf(s, sep)
    case None =>
    case Some(i) =>
      var rest := s[i + |sep|..];
      assert s[i..i + |sep|] == sep;
      assert s == s[..i] + s[i..i + |sep|] + rest;
      SplitJoin(rest, sep);
      JoinCons(s[..i], Split(rest, sep), sep);
  }

  /** No part of a split contains the separator. */
  lemma {:induction false} SplitPartsFree(s: string, sep: string)
    requires |sep| > 0
    ensures forall i :: 0 <= i < |Split(s, sep)| ==> !Contains(Split(s, sep)[i], sep)
    decreases |s|
  {
    match IndexOf(s, sep)
    case None =>
      IndexOfFirst(s, sep);
    case Some(i) =>
      var rest := s[i + |sep|..];
      var part := s[..i];
      SplitPartsFree(rest, sep);
      assert !Contains(part, sep) by {
        forall j | 0 <= j && j + |sep| <= |part| ensures !Occurs(part, sep, j) {
          IndexFromFirst(s, sep, 0, j);
          OccursSlice(s, sep, 0, i, j);
        }
      }
      SplitStep(s, sep, i);
  }

  /** A first occurrence inside `a` stays the first occurrence whatever follows `a`. */
  lemma IndexOfAppend(a: string, t: string, p: string)
    requires IndexOf(a, p).Some?
    ensures IndexOf(a + t, p) == IndexOf(a, p)
  {
    var i := IndexOf(a, p).value;
    assert (a + t)[i..i + |p|] == a[i..i + |p|];
    assert Occurs(a + t, p, i);
    forall j | 0 <= j < i ensures !Occurs(a + t, p, j) {
      IndexFromFirst(a, p, 0, j);
      if j + |p| <= |a + t| {
        assert (a + t)[j..j + |p|] == a[j..j + |p|];
      }
    }
    IndexOfFirst(a + t, p);
  }

  /** Splitting `a + t` when `a` already holds a separator: the first part is `a`'s. */
  lemma SplitAppendStep(a: string, t: string, sep: string, i: nat)
    requires |sep| > 0 && IndexOf(a, sep) == Some(i)
    ensures i + |sep| <= |a|
    ensures Split(a + t, sep) == [a[..i]] + Split(a[i + |sep|..] + t, sep)
  {
    IndexOfAppend(a, t, sep);
    SplitStep(a + t, sep, i);
    assert (a + t)[i + |sep|..] == a[i + |sep|..] + t;
    assert (a + t)[..i] == a[..i];
  }

  /** The complete parts and the open part of a split, one step at a time. */
  lemma SplitInitLast(a: string, sep: string, i: nat)
    requires |sep| > 0 && IndexOf(a, sep) == Some(i)
    ensures i + |sep| <= |a|
    ensures var pa, pr := Split(a, sep), Split(a[i + |sep|..], sep);
      pa[..|pa| - 1] == [a[..i]] + pr[..|pr| - 1] && pa[|pa| - 1] == pr[|pr| - 1]
  {
    SplitStep(a, sep, i);
  }

  /** Regrouping a list that starts with `x`. */
  lemma ConsAssoc<T>(x: T, whole: seq<T>, rest: seq<T>, init: seq<T>, restInit: seq<T>, tail: seq<T>)
    requires whole == [x] + rest && rest == restInit + tail && init == [x] + restInit
    ensures whole == init + tail
  {
    assert [x] + (restInit + tail) == ([x] + restInit) + tail;
  }

  /**
   * Splitting `a + t` gives the complete parts of `a`, then the split of
   * `a`'s last (still open) part followed by `t`: splitting text that
   * arrives in pieces, keeping the open part, gives the split of the whole.
   */
  lemma {:induction false} SplitAppend(a: string, t: string, sep: string)
    requires |sep| > 0
    ensures Split(a + t, sep) == Split(a, sep)[..|Split(a, sep)| - 1] + Split(Split(a, sep)[|Split(a, sep)| - 1] + t, sep)
    decreases |a|
  {
    match IndexOf(a, sep)
    case None =>
    case Some(i) =>
      var rest := a[i + |sep|..];
      var pr, pa := Split(rest, sep), Split(a, sep);
      SplitAppendStep(a, t, sep, i);
      SplitInitLast(a, sep, i);
      SplitAppend(rest, t, sep);
      ConsAssoc(a[..i], Split(a + t, sep), Split(rest + t, sep), pa[..|pa| - 1], pr[..|pr| - 1],
                Split(pr[|pr| - 1] + t, sep));
  }

  /** All but the last of `xs`, then `ys`: the last element and the rest of that list. */
  lemma InitLastAppend<T>(xs: seq<T>, ys: seq<T>, whole: seq<T>)
    requires |xs| >= 1 && |ys| >= 1 && whole == xs[..|xs| - 1] + ys
    ensures whole[..|whole| - 1] == xs[..|xs| - 1] + ys[..|ys| - 1]
    ensures whole[|whole| - 1] == ys[|ys| - 1]
  {
  }

  /** Removes the leading characters that satisfy `p`. */
  function DropWhile(s: string, p: char -> bool): (r: string)
    ensures |r| <= |s| && r == s[|s| - |r|..]
    ensures forall i :: 0 <= i < |s| - |r| ==> p(s[i])
    ensures r == [] || !p(r[0])
    ensures s != [] && p(s[0]) ==> |r| < |s|
  {
    if s != [] && p(s[0]) then DropWhile(s[1..], p) else s
  }

  /** `DropWhile` removes at least a prefix whose characters all satisfy `p`. */
  lemma {:induction false} DropWhileSkips(s: string, p: char -> bool, m: nat)
    requires m <= |s| && forall i :: 0 <= i < m ==> p(s[i])
    ensures |DropWhile(s, p)| <= |s| - m
    decreases m
  {
    if m > 0 {
      DropWhileSkips(s[1..], p, m - 1);
    }
  }

  /** `DropWhile` stops at a character that fails `p`, so what follows it is untouched. */
  lemma {:induction false} DropWhileAppend(a: string, t: string, p: char -> bool)
    requires t != [] && !p(t[0])
    ensures DropWhile(a + t, p) == DropWhile(a, p) + t
    decreases |a|
  {
    if a == [] {
      assert a + t == t;
    } else {
      assert (a + t)[0] == a[0];
      if p(a[0]) {
        assert (a + t)[1..] == a[1..] + t;
        DropWhileAppend(a[1..], t, p);
      }
    }
  }

  function TrimStart(s: string): string {
    DropWhile(s, IsSpace)
  }

  /** The first index at or after `i` whose character fails `p`, or `|s|`. */
  function SkipFrom(s: string, p: char -> bool, i: nat): (k: nat)
    requires i <= |s|
    ensures i <= k <= |s| && (forall j :: i <= j < k ==> p(s[j])) && (k < |s| ==> !p(s[k]))
    decreases |s| - i
  {
    if i < |s| && p(s[i]) then SkipFrom(s, p, i + 1) else i
  }

  /** Going back from `e` but not below `lo`: the end of the last character that fails `p`, or `lo`. */
  function SkipBack(s: string, p: char -> bool, lo: nat, e: nat): (k: nat)
    requires lo <= e <= |s|
    ensures lo <= k <= e && (forall j :: k <= j < e ==> p(s[j])) && (lo < k ==> !p(s[k - 1]))
    decreases e
  {
    if lo < e && p(s[e - 1]) then SkipBack(s, p, lo, e - 1) else e
  }

  /**
   * Removes the characters that satisfy `p` at both ends: the result is a
   * slice of `s` with only such characters outside it, and it starts and
   * ends with a character that fails `p`.
   */
  function Strip(s: string, p: char -> bool): (r: string)
    ensures exists a, b :: 0 <= a <= b <= |s| && r == s[a..b] &&
                          (forall i :: 0 <= i < a ==> p(s[i])) && (forall i :: b <= i < |s| ==> p(s[i]))
    ensures r == [] || (!p(r[0]) && !p(r[|r| - 1]))
  {
    StripWitness(s, p, s[SkipFrom(s, p, 0)..SkipBack(s, p, SkipFrom(s, p, 0), |s|)],
                 SkipFrom(s, p, 0), SkipBack(s, p, SkipFrom(s, p, 0), |s|));
    s[SkipFrom(s, p, 0)..SkipBack(s, p, SkipFrom(s, p, 0), |s|)]
  }

  /** A slice with only characters satisfying `p` outside it is a witness for the contracts of the trimming functions. */
  lemma StripWitness(s: string, p: char -> bool, r: string, a: nat, b: nat)
    requires a <= b <= |s| && r == s[a..b]
    requires (forall i :: 0 <= i < a ==> p(s[i])) && (forall i :: b <= i < |s| ==> p(s[i]))
    ensures exists a, b :: 0 <= a <= b <= |s| && r == s[a..b] &&
                          (forall i :: 0 <= i < a ==> p(s[i])) && (forall i :: b <= i < |s| ==> p(s[i]))
  {
  }

  /** `s.trim()`: the input with its leading and trailing white space, and nothing else, removed. */
  function Trim(s: string): (r: string)
    ensures exists a, b :: 0 <= a <= b <= |s| && r == s[a..b] &&
                          (forall i :: 0 <= i < a ==> IsSpace(s[i])) && (forall i :: b <= i < |s| ==> IsSpace(s[i]))
    ensures r == [] || (!IsSpace(r[0]) && !IsSpace(r[|r| - 1]))
    ensures r == [] <==> forall i :: 0 <= i < |s| ==> IsSpace(s[i])
  {
    Strip(s, IsSpace)
  }

  /** `xs.flatMap(f)`: the lists `f` gives for the elements, concatenated in order. */
  function FlatMap<A, B>(xs: seq<A>, f: A -> seq<B>): seq<B> {
    if xs == [] then [] else FlatMap(xs[..|xs| - 1], f) + f(xs[|xs| - 1])
  }

  lemma {:induction false} FlatMapAppend<A, B>(xs: seq<A>, ys: seq<A>, f: A -> seq<B>)
    ensures FlatMap(xs + ys, f) == FlatMap(xs, f) + FlatMap(ys, f)
    decreases |ys|
  {
    if ys == [] {
      assert xs + ys == xs;
    } else {
      var init := ys[..|ys| - 1];
      FlatMapAppend(xs, init, f);
      assert (xs + ys)[..|xs + ys| - 1] == xs + init;
      assert (xs + ys)[|xs + ys| - 1] == ys[|ys| - 1];
    }
  }

  /** Whatever holds of every element of every `f(x)` holds of every element of the flat map. */
  lemma {:induction false} FlatMapAll<A, B>(xs: seq<A>, f: A -> seq<B>, p: B -> bool)
    requires forall i, y :: 0 <= i < |xs| && y in f(xs[i]) ==> p(y)
    ensures forall y :: y in FlatMap(xs, f) ==> p(y)
    decreases |xs|
  {
    if xs != [] {
      var init := xs[..|xs| - 1];
      forall i, y | 0 <= i < |init| && y in f(init[i]) ensures p(y) {
        assert init[i] == xs[i];
      }
      FlatMapAll(init, f, p);
    }
  }

  /** The indices of the elements of `xs` that satisfy `p`. */
  ghost function Indices<T>(xs: seq<T>, p: T -> bool): set<int> {
    set i | 0 <= i < |xs| && p(xs[i])
  }

  lemma IndicesSnoc<T>(xs: seq<T>, p: T -> bool)
    requires xs != []
    ensures var n := |xs| - 1;
      Indices(xs, p) == Indices(xs[..n], p) + (if p(xs[n]) then {n} else {})
  {
    var n := |xs| - 1;
    var init := xs[..n];
    forall i | 0 <= i < n ensures xs[i] == init[i] {
    }
  }

  /** When `f` gives one element exactly for the elements satisfying `p` and none otherwise, the flat map has one per such element. */
  lemma {:induction false} FlatMapCount<A, B>(xs: seq<A>, f: A -> seq<B>, p: A -> bool)
    requires forall x :: |f(x)| == if p(x) then 1 else 0
    ensures |FlatMap(xs, f)| == |Indices(xs, p)|
    decreases |xs|
  {
    if xs != [] {
      var n := |xs| - 1;
      FlatMapCount(xs[..n], f, p);
      IndicesSnoc(xs, p);
      assert n !in Indices(xs[..n], p);
    }
  }
}
