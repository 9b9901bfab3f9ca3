/**
 * The wiki page's table of contents: `generateAnchorId`, which turns a
 * heading title into a URL fragment, and `extractHeadings`, which scans
 * the markdown (or the part between `<MARKDOWN>` tags) line by line for
 * headings of level 2 to 4 with the regular expression `^(#{2,4})\s+(.+)$`.
 */
module Toc {
  import opened Js

  /** A heading of the table: its level (the number of `#`), its title and its anchor id. */
  datatype Heading = Heading(level: nat, title: string, id: string)

  /** What the heading expression captures: the hash run's length and the text group. */
  datatype Match = Match(level: nat, text: string)

  const OpenTag := "<MARKDOWN>"
  const CloseTag := "</MARKDOWN>"
  const Fallback := "section"

  // ---------------------------------------------------------------------
  // generateAnchorId
  // ---------------------------------------------------------------------

  /**
   * `toLowerCase` of one character. ASCII letters are mapped here; the
   * Unicode mapping of the other characters (which may give several
   * characters, or an ASCII letter, as for the Kelvin sign) is `caseMap`.
   */
  function LowerChar(c: char, caseMap: char -> string): string {
    if 'A' <= c <= 'Z' then [(c as int + 32) as char]
    else if c as int < 128 then [c]
    else caseMap(c)
  }

  function ToLower(s: string, caseMap: char -> string): string {
    if s == [] then [] else LowerChar(s[0], caseMap) + ToLower(s[1..], caseMap)
  }

  /** The characters that survive `replace(/[^a-z0-9\s-]/g, "")`. */
  predicate Allowed(c: char) {
    ('a' <= c <= 'z') || ('0' <= c <= '9') || IsSpace(c) || c == '-'
  }

  predicate IsDash(c: char) {
    c == '-'
  }

  predicate IsSlugChar(c: char) {
    ('a' <= c <= 'z') || ('0' <= c <= '9') || c == '-'
  }

  /**
   * A well-formed anchor id: not empty, only `[a-z0-9-]`, no `-` at either
   * end and never two `-` in a row.
   */
  predicate IsSlug(s: string) {
    s != [] && SlugChars(s) && s[0] != '-' && s[|s| - 1] != '-' && SingleDashed(s)
  }

  predicate SlugChars(s: string) {
    forall i :: 0 <= i < |s| ==> IsSlugChar(s[i])
  }

  /** No two `-` in a row: the string holds no `--`. */
  predicate SingleDashed(s: string) {
    forall i :: 0 <= i < |s| - 1 ==> !(s[i] == '-' && s[i + 1] == '-')
  }

  /** `replace(/[^a-z0-9\s-]/g, "")`. */
  function KeepAllowed(s: string): (r: string)
    ensures forall i :: 0 <= i < |r| ==> Allowed(r[i])
    ensures (forall i :: 0 <= i < |s| ==> Allowed(s[i])) ==> r == s
    ensures |s| == 1 ==> (r == s <==> Allowed(s[0])) && (r == [] <==> !Allowed(s[0]))
  {
    if s == [] then []
    else (if Allowed(s[0]) then [s[0]] else []) + KeepAllowed(s[1..])
  }

  /**
   * Filtering distributes over concatenation: with the one-character case
   * above, the allowed characters of any input survive, in order, and only they.
   */
  lemma {:induction false} KeepAllowedAppend(a: string, b: string)
    ensures KeepAllowed(a + b) == KeepAllowed(a) + KeepAllowed(b)
    decreases |a|
  {
    if a == [] {
      assert a + b == b;
    } else {
      assert (a + b)[0] == a[0];
      assert (a + b)[1..] == a[1..] + b;
      KeepAllowedAppend(a[1..], b);
    }
  }

  /**
   * `replace(/P+/g, ch)` for a character class `p`: every maximal run of
   * characters satisfying `p` becomes the single character `ch`.
   */
  function CollapseRuns(s: string, p: char -> bool, ch: char): (r: string)
    ensures forall i :: 0 <= i < |r| - 1 ==> !p(r[i]) || !p(r[i + 1])
    ensures r == [] <==> s == []
    ensures r != [] ==> r[0] == (if p(s[0]) then ch else s[0])
    decreases |s|
  {
    if s == [] then []
    else if p(s[0]) then
      [ch] + CollapseRuns(DropWhile(s, p), p, ch)
    else
      [s[0]] + CollapseRuns(s[1..], p, ch)
  }

  /** Text that starts outside the class is collapsed apart from whatever precedes it. */
  lemma {:induction false} CollapseRunsAppend(a: string, t: string, p: char -> bool, ch: char)
    requires t != [] && !p(t[0])
    ensures CollapseRuns(a + t, p, ch) == CollapseRuns(a, p, ch) + CollapseRuns(t, p, ch)
    decreases |a|
  {
    if a == [] {
      assert a + t == t;
    } else if p(a[0]) {
      var rest := DropWhile(a, p);
      CollapseRunsAppend(rest, t, p, ch);
      CollapseRunsHead(a, t, rest, p, ch);
    } else {
      CollapseRunsAppend(a[1..], t, p, ch);
      CollapseRunsKept(a, t, p, ch);
    }
  }

  /** The step of `CollapseRunsAppend` where `a` starts with a run. */
  lemma CollapseRunsHead(a: string, t: string, rest: string, p: char -> bool, ch: char)
    requires a != [] && p(a[0]) && t != [] && !p(t[0]) && rest == DropWhile(a, p)
    requires CollapseRuns(rest + t, p, ch) == CollapseRuns(rest, p, ch) + CollapseRuns(t, p, ch)
    ensures CollapseRuns(a + t, p, ch) == CollapseRuns(a, p, ch) + CollapseRuns(t, p, ch)
  {
    assert (a + t)[0] == a[0];
    DropWhileAppend(a, t, p);
    CollapseRunsRunStep(a + t, p, ch);
    CollapseRunsRunStep(a, p, ch);
    ConcatAssoc([ch], CollapseRuns(rest, p, ch), CollapseRuns(t, p, ch));
  }

  /** The step of `CollapseRunsAppend` where `a` starts with a kept character. */
  lemma CollapseRunsKept(a: string, t: string, p: char -> bool, ch: char)
    requires a != [] && !p(a[0])
    requires CollapseRuns(a[1..] + t, p, ch) == CollapseRuns(a[1..], p, ch) + CollapseRuns(t, p, ch)
    ensures CollapseRuns(a + t, p, ch) == CollapseRuns(a, p, ch) + CollapseRuns(t, p, ch)
  {
    assert (a + t)[0] == a[0];
    assert (a + t)[1..] == a[1..] + t;
    CollapseRunsKeptStep(a + t, p, ch);
    CollapseRunsKeptStep(a, p, ch);
    ConcatAssoc([a[0]], CollapseRuns(a[1..], p, ch), CollapseRuns(t, p, ch));
  }

  lemma CollapseRunsRunStep(s: string, p: char -> bool, ch: char)
    requires s != [] && p(s[0])
    ensures CollapseRuns(s, p, ch) == [ch] + CollapseRuns(DropWhile(s, p), p, ch)
  {
  }

  lemma CollapseRunsKeptStep(s: string, p: char -> bool, ch: char)
    requires s != [] && !p(s[0])
    ensures CollapseRuns(s, p, ch) == [s[0]] + CollapseRuns(s[1..], p, ch)
  {
  }

  lemma ConcatAssoc(h: string, x: string, y: string)
    ensures h + (x + y) == (h + x) + y
  {
  }

  /**
   * A character outside the class separates the runs: it is kept, and the
   * text on either side of it is collapsed on its own.
   */
  lemma CollapseRunsBreak(a: string, c: char, b: string, p: char -> bool, ch: char)
    requires !p(c)
    ensures CollapseRuns(a + [c] + b, p, ch) == CollapseRuns(a, p, ch) + [c] + CollapseRuns(b, p, ch)
  {
    var t := [c] + b;
    assert a + [c] + b == a + t;
    CollapseRunsAppend(a, t, p, ch);
    assert t[1..] == b;
  }

  /** A whole run, however long, becomes the one character `ch`. */
  lemma CollapseRunsRun(s: string, p: char -> bool, ch: char)
    requires s != [] && forall i :: 0 <= i < |s| ==> p(s[i])
    ensures CollapseRuns(s, p, ch) == [ch]
  {
    DropWhileSkips(s, p, |s|);
  }

  /** Input without runs to collapse (its `p` characters are single `ch`s) is left as it is. */
  lemma {:induction false} CollapseRunsNoop(s: string, p: char -> bool, ch: char)
    requires forall i :: 0 <= i < |s| && p(s[i]) ==> s[i] == ch
    requires forall i :: 0 <= i < |s| - 1 ==> !p(s[i]) || !p(s[i + 1])
    ensures CollapseRuns(s, p, ch) == s
    decreases |s|
  {
    if s != [] {
      if p(s[0]) {
        var rest := DropWhile(s, p);
        assert rest == s[1..] by {
          if |s| > 1 { assert !p(s[1]); }
        }
      }
      CollapseRunsNoop(s[1..], p, ch);
    }
  }

  /** `replace(/^-+|-+$/g, "")`. */
  function StripDashes(s: string): (r: string)
    ensures exists a, b :: 0 <= a <= b <= |s| && r == s[a..b] &&
                          forall i :: (0 <= i < a || b <= i < |s|) ==> s[i] == '-'
    ensures r == [] || (r[0] != '-' && r[|r| - 1] != '-')
  {
    Strip(s, IsDash)
  }

  /** The pipeline before the fallback. */
  function Normalize(title: string, caseMap: char -> string): string {
    StripDashes(CollapseRuns(CollapseRuns(KeepAllowed(ToLower(title, caseMap)), IsSpace, '-'), IsDash, '-'))
  }

  /** `generateAnchorId(title)`: the normalized title, or `"section"` when nothing is left. */
  function AnchorId(title: string, caseMap: char -> string): string {
    var s := Normalize(title, caseMap);
    if s == [] then Fallback else s
  }

  /** Collapsing keeps a class `q` that holds of `ch` and of every character outside the runs. */
  lemma {:induction false} CollapseRunsClass(s: string, p: char -> bool, ch: char, q: char -> bool)
    requires q(ch) && forall i :: 0 <= i < |s| ==> p(s[i]) || q(s[i])
    ensures forall i :: 0 <= i < |CollapseRuns(s, p, ch)| ==> q(CollapseRuns(s, p, ch)[i])
    decreases |s|
  {
    if s != [] {
      var rest := if p(s[0]) then DropWhile(s, p) else s[1..];
      SuffixClass(s, rest, p, q);
      CollapseRunsClass(rest, p, ch, q);
      if p(s[0]) {
        CollapseRunsRunStep(s, p, ch);
        ConsClass(ch, CollapseRuns(rest, p, ch), CollapseRuns(s, p, ch), q);
      } else {
        CollapseRunsKeptStep(s, p, ch);
        ConsClass(s[0], CollapseRuns(rest, p, ch), CollapseRuns(s, p, ch), q);
      }
    }
  }

  lemma SuffixClass(s: string, rest: string, p: char -> bool, q: char -> bool)
    requires |rest| <= |s| && rest == s[|s| - |rest|..]
    requires forall i :: 0 <= i < |s| ==> p(s[i]) || q(s[i])
    ensures forall i :: 0 <= i < |rest| ==> p(rest[i]) || q(rest[i])
  {
    forall i | 0 <= i < |rest| ensures p(rest[i]) || q(rest[i]) {
      assert rest[i] == s[|s| - |rest| + i];
    }
  }

  lemma ConsClass(x: char, r: string, whole: string, q: char -> bool)
    requires whole == [x] + r && q(x) && forall i :: 0 <= i < |r| ==> q(r[i])
    ensures forall i :: 0 <= i < |whole| ==> q(whole[i])
  {
    forall i | 0 <= i < |whole| ensures q(whole[i]) {
      if i > 0 {
        assert whole[i] == r[i - 1];
      }
    }
  }

  /** A suffix of a slug-character string without `--` is one too. */
  lemma SuffixKeeps(s: string, t: string)
    requires |t| <= |s| && t == s[|s| - |t|..] && SlugChars(s) && SingleDashed(s)
    ensures SlugChars(t) && SingleDashed(t)
  {
    forall i | 0 <= i < |t| ensures t[i] == s[|s| - |t| + i] {
    }
  }

  /** A prefix of a slug-character string without `--` is one too. */
  lemma PrefixKeeps(s: string, t: string)
    requires |t| <= |s| && t == s[..|t|] && SlugChars(s) && SingleDashed(s)
    ensures SlugChars(t) && SingleDashed(t)
  {
    forall i | 0 <= i < |t| ensures t[i] == s[i] {
    }
  }

  /** After `\s+` became `-` and `-+` became `-`: slug characters, no `--`. */
  lemma CollapsedChars(kept: string)
    requires forall i :: 0 <= i < |kept| ==> Allowed(kept[i])
    ensures var single := CollapseRuns(CollapseRuns(kept, IsSpace, '-'), IsDash, '-');
      SlugChars(single) && SingleDashed(single)
  {
    var dashed := CollapseRuns(kept, IsSpace, '-');
    CollapseRunsClass(kept, IsSpace, '-', IsSlugChar);
    var single := CollapseRuns(dashed, IsDash, '-');
    CollapseRunsClass(dashed, IsDash, '-', IsSlugChar);
    forall i | 0 <= i < |single| - 1 ensures !(single[i] == '-' && single[i + 1] == '-') {
      assert !IsDash(single[i]) || !IsDash(single[i + 1]);
    }
  }

  /** Stripping the dashes at the ends of such a string leaves a slug, or nothing. */
  lemma StripGivesSlug(single: string)
    requires SlugChars(single) && SingleDashed(single)
    ensures StripDashes(single) == [] || IsSlug(StripDashes(single))
  {
    var a := SkipFrom(single, IsDash, 0);
    var b := SkipBack(single, IsDash, a, |single|);
    var front := single[a..];
    SuffixKeeps(single, front);
    assert single[a..b] == front[..b - a];
    PrefixKeeps(front, front[..b - a]);
  }

  lemma FallbackIsSlug()
    ensures IsSlug(Fallback)
  {
    forall i | 0 <= i < |Fallback| ensures IsSlugChar(Fallback[i]) {
      assert i in {0, 1, 2, 3, 4, 5, 6};
    }
    forall i | 0 <= i < |Fallback| - 1 ensures Fallback[i] != '-' {
      assert i in {0, 1, 2, 3, 4, 5};
    }
  }

  /**
   * Every anchor id is a slug: only `[a-z0-9-]`, never empty (it falls
   * back to `"section"`), no leading or trailing `-` and no `--`.
   */
  lemma AnchorIdIsSlug(title: string, caseMap: char -> string)
    ensures IsSlug(AnchorId(title, caseMap))
  {
    FallbackIsSlug();
    var kept := KeepAllowed(ToLower(title, caseMap));
    CollapsedChars(kept);
    StripGivesSlug(CollapseRuns(CollapseRuns(kept, IsSpace, '-'), IsDash, '-'));
  }

  lemma {:induction false} ToLowerSlug(s: string, caseMap: char -> string)
    requires forall i :: 0 <= i < |s| ==> IsSlugChar(s[i])
    ensures ToLower(s, caseMap) == s
    decreases |s|
  {
    if s != [] {
      ToLowerSlug(s[1..], caseMap);
    }
  }

  lemma SlugKeepsAllowed(s: string)
    requires SlugChars(s)
    ensures KeepAllowed(s) == s
  {
    assert forall i :: 0 <= i < |s| ==> Allowed(s[i]) by {
      forall i | 0 <= i < |s| ensures Allowed(s[i]) {
        assert IsSlugChar(s[i]);
      }
    }
  }

  lemma SlugNoSpaces(s: string)
    requires SlugChars(s)
    ensures CollapseRuns(s, IsSpace, '-') == s
  {
    forall i | 0 <= i < |s| ensures !IsSpace(s[i]) {
      assert IsSlugChar(s[i]);
    }
    CollapseRunsNoop(s, IsSpace, '-');
  }

  lemma SlugNoDashRuns(s: string)
    requires SingleDashed(s)
    ensures CollapseRuns(s, IsDash, '-') == s
  {
    forall i | 0 <= i < |s| - 1 ensures !IsDash(s[i]) || !IsDash(s[i + 1]) {
      assert !(s[i] == '-' && s[i + 1] == '-');
    }
    CollapseRunsNoop(s, IsDash, '-');
  }

  lemma SlugNoEndDashes(s: string)
    requires s != [] && s[0] != '-' && s[|s| - 1] != '-'
    ensures StripDashes(s) == s
  {
    assert SkipFrom(s, IsDash, 0) == 0 && SkipBack(s, IsDash, 0, |s|) == |s|;
  }

  /** A slug is its own anchor id. */
  lemma SlugIsFixedPoint(s: string, caseMap: char -> string)
    requires IsSlug(s)
    ensures AnchorId(s, caseMap) == s
  {
    ToLowerSlug(s, caseMap);
    SlugKeepsAllowed(s);
    SlugNoSpaces(s);
    SlugNoDashRuns(s);
    SlugNoEndDashes(s);
    assert Normalize(s, caseMap) == s;
  }

  /** `generateAnchorId` is idempotent. */
  lemma AnchorIdIdempotent(title: string, caseMap: char -> string)
    ensures AnchorId(AnchorId(title, caseMap), caseMap) == AnchorId(title, caseMap)
  {
    AnchorIdIsSlug(title, caseMap);
    SlugIsFixedPoint(AnchorId(title, caseMap), caseMap);
  }

  // ---------------------------------------------------------------------
  // The heading expression ^(#{2,4})\s+(.+)$
  // ---------------------------------------------------------------------

  /** The number of `#` a line starts with. */
  function HashRun(s: string): (n: nat)
    ensures n <= |s| && (forall i :: 0 <= i < n ==> s[i] == '#')
    ensures n == |s| || s[n] != '#'
  {
    if s != [] && s[0] == '#' then 1 + HashRun(s[1..]) else 0
  }

  /** A run of `k` hashes followed by something else is the hash run. */
  lemma {:induction false} HashRunIs(s: string, k: nat)
    requires k < |s| && s[k] != '#' && forall i :: 0 <= i < k ==> s[i] == '#'
    ensures HashRun(s) == k
    decreases k
  {
    if k > 0 {
      HashRunIs(s[1..], k - 1);
    }
  }

  /**
   * The expression matches `line` with `k` hashes in the first group and
   * `m` characters taken by `\s+`: the rest of the line, one or more
   * characters, is matched by `.+`, which takes anything but a line
   * terminator, up to the end of the input (`$` without the `m` flag).
   */
  ghost predicate RegexMatch(line: string, k: nat, m: nat) {
    && 2 <= k <= 4 && 1 <= m && k + m < |line|
    && (forall i :: 0 <= i < k ==> line[i] == '#')
    && (forall i :: k <= i < k + m ==> IsSpace(line[i]))
    && (forall i :: k + m <= i < |line| ==> !IsLineTerminator(line[i]))
  }

  /** The match the engine reports: the greedy `\s+` takes as much as still lets the line match. */
  ghost predicate GreedyMatch(line: string, k: nat, m: nat) {
    RegexMatch(line, k, m) && forall m': nat :: RegexMatch(line, k, m') ==> m' <= m
  }

  predicate NoLineTerminator(s: string) {
    forall i :: 0 <= i < |s| ==> !IsLineTerminator(s[i])
  }

  /** After the hashes: `\s+` takes the first `m` characters and `.+$` the rest. */
  ghost predicate RestMatch(rest: string, m: nat) {
    && 1 <= m < |rest|
    && (forall i :: 0 <= i < m ==> IsSpace(rest[i]))
    && (forall i :: m <= i < |rest| ==> !IsLineTerminator(rest[i]))
  }

  /**
   * How many characters `\s+(.+)$` gives to `\s+` after the hashes, if it
   * matches. The greedy `\s+` takes all the whitespace when text follows
   * it; when only whitespace follows, it gives the last character back to `.+`.
   */
  function SpaceRun(rest: string): Option<nat> {
    var t := TrimStart(rest);
    var w := |rest| - |t|;
    if w == 0 then None
    else if t != [] then (if NoLineTerminator(t) then Some(w) else None)
    else if w >= 2 && !IsLineTerminator(rest[w - 1]) then Some(w - 1)
    else None
  }

  /** `SpaceRun` reports a match, and the greedy one. */
  lemma SpaceRunSound(rest: string)
    requires SpaceRun(rest).Some?
    ensures RestMatch(rest, SpaceRun(rest).value)
    ensures forall m': nat :: RestMatch(rest, m') ==> m' <= SpaceRun(rest).value
  {
    var t := TrimStart(rest);
    var w := |rest| - |t|;
    if t != [] {
      TextAfterSpaces(rest, w);
    } else {
      OnlySpaces(rest);
    }
  }

  /** Whitespace, then text without a line terminator: `\s+` takes all the whitespace. */
  lemma TextAfterSpaces(rest: string, w: nat)
    requires 0 < w < |rest| && !IsSpace(rest[w]) && NoLineTerminator(rest[w..])
    requires forall i :: 0 <= i < w ==> IsSpace(rest[i])
    ensures RestMatch(rest, w)
    ensures forall m': nat :: RestMatch(rest, m') ==> m' <= w
  {
    forall i | w <= i < |rest| ensures !IsLineTerminator(rest[i]) {
      assert rest[i] == rest[w..][i - w];
    }
  }

  /** Nothing but whitespace: `\s+` gives the last character back to `.+`. */
  lemma OnlySpaces(rest: string)
    requires 2 <= |rest| && !IsLineTerminator(rest[|rest| - 1])
    requires forall i :: 0 <= i < |rest| ==> IsSpace(rest[i])
    ensures RestMatch(rest, |rest| - 1)
    ensures forall m': nat :: RestMatch(rest, m') ==> m' <= |rest| - 1
  {
  }

  /** Whenever `\s+(.+)$` matches after the hashes, `SpaceRun` reports a match. */
  lemma SpaceRunComplete(rest: string, m: nat)
    requires RestMatch(rest, m)
    ensures SpaceRun(rest).Some?
  {
    var t := TrimStart(rest);
    DropWhileSkips(rest, IsSpace, m);
    var w := |rest| - |t|;
    assert m <= w;
    if t != [] {
      NoTerminatorAfter(rest, m, w);
    } else {
      assert w == |rest|;
      assert !IsLineTerminator(rest[w - 1]);
    }
  }

  lemma NoTerminatorAfter(rest: string, m: nat, w: nat)
    requires m <= w <= |rest| && RestMatch(rest, m)
    ensures NoLineTerminator(rest[w..])
  {
    forall i | 0 <= i < |rest| - w ensures !IsLineTerminator(rest[w..][i]) {
      assert rest[w..][i] == rest[w + i];
    }
  }

  /**
   * `line.match(/^(#{2,4})\s+(.+)$/)`: the hash run must have 2 to 4
   * characters (`#{2,4}` cannot stop inside a longer run, as `\s` does not
   * take `#`), then `SpaceRun` decides the rest; the text is the second group.
   */
  function MatchHeading(line: string): (r: Option<Match>)
    ensures r.Some? ==> 2 <= r.value.level <= 4
  {
    var k := HashRun(line);
    if k < 2 || k > 4 then None
    else match SpaceRun(line[k..])
      case None => None
      case Some(m) => Some(Match(k, line[k + m..]))
  }

  lemma RegexMatchRest(line: string, k: nat, m: nat)
    requires k <= |line| && forall i :: 0 <= i < k ==> line[i] == '#'
    ensures RegexMatch(line, k, m) <==> 2 <= k <= 4 && RestMatch(line[k..], m)
  {
    var rest := line[k..];
    if 2 <= k <= 4 && RestMatch(rest, m) {
      forall i | k <= i < k + m ensures IsSpace(line[i]) {
        assert line[i] == rest[i - k];
      }
      forall i | k + m <= i < |line| ensures !IsLineTerminator(line[i]) {
        assert line[i] == rest[i - k];
      }
    }
    if RegexMatch(line, k, m) {
      forall i | 0 <= i < m ensures IsSpace(rest[i]) {
        assert rest[i] == line[k + i];
      }
      forall i | m <= i < |rest| ensures !IsLineTerminator(rest[i]) {
        assert rest[i] == line[k + i];
      }
    }
  }

  /**
   * What `MatchHeading` reports is a match of the expression, and the
   * greedy one; `m` is the number of characters `\s+` takes.
   */
  lemma MatchHeadingSound(line: string, mt: Match) returns (m: nat)
    requires MatchHeading(line) == Some(mt)
    ensures GreedyMatch(line, mt.level, m) && mt.level + m <= |line| && mt.text == line[mt.level + m..]
  {
    var k := HashRun(line);
    m := SpaceRun(line[k..]).value;
    SpaceRunSound(line[k..]);
    RegexMatchRest(line, k, m);
    forall m': nat | RegexMatch(line, k, m') ensures m' <= m {
      RegexMatchRest(line, k, m');
    }
  }

  /** Whenever the expression matches, `MatchHeading` reports a match, with the same level. */
  lemma MatchHeadingComplete(line: string, k: nat, m: nat)
    requires RegexMatch(line, k, m)
    ensures MatchHeading(line).Some? && MatchHeading(line).value.level == k
  {
    HashRunIs(line, k);
    RegexMatchRest(line, k, m);
    SpaceRunComplete(line[k..], m);
  }

  /**
   * A line that yields a heading does not end in a line terminator: a line
   * ending in `\r` (as every line of a CRLF file does) yields nothing.
   */
  lemma HeadingLineEnd(line: string)
    requires MatchHeading(line).Some?
    ensures line != [] && !IsLineTerminator(line[|line| - 1])
  {
    var m := MatchHeadingSound(line, MatchHeading(line).value);
  }

  // ---------------------------------------------------------------------
  // extractHeadings
  // ---------------------------------------------------------------------

  /** The heading a match yields: the title is the trimmed text, the id its anchor id. */
  function HeadingFrom(mt: Match, caseMap: char -> string): Heading {
    var title := Trim(mt.text);
    Heading(mt.level, title, AnchorId(title, caseMap))
  }

  /** The heading of one line, as a list of zero or one. */
  function LineHeadings(line: string, caseMap: char -> string): (hs: seq<Heading>)
    ensures |hs| == if MatchHeading(line).Some? then 1 else 0
  {
    match MatchHeading(line)
    case Some(mt) => [HeadingFrom(mt, caseMap)]
    case None => []
  }

  /** The headings of the lines, in line order: the loop pushes one for each line that matches. */
  function HeadingsIn(lines: seq<string>, caseMap: char -> string): seq<Heading> {
    FlatMap(lines, line => LineHeadings(line, caseMap))
  }

  /** Scanning two blocks of lines gives the headings of the first, then those of the second. */
  lemma HeadingsInAppend(a: seq<string>, b: seq<string>, caseMap: char -> string)
    ensures HeadingsIn(a + b, caseMap) == HeadingsIn(a, caseMap) + HeadingsIn(b, caseMap)
  {
    FlatMapAppend(a, b, line => LineHeadings(line, caseMap));
  }

  /** A heading whose title is the trimmed text of its line, with the anchor id of that title. */
  ghost predicate WellFormed(h: Heading, caseMap: char -> string) {
    && 2 <= h.level <= 4
    && h.id == AnchorId(h.title, caseMap) && IsSlug(h.id)
    && (h.title == [] || (!IsSpace(h.title[0]) && !IsSpace(h.title[|h.title| - 1])))
  }

  predicate IsHeadingLine(line: string) {
    MatchHeading(line).Some?
  }

  /** One more line scanned: its heading, if any, is pushed after the others. */
  lemma HeadingsInSnoc(lines: seq<string>, i: nat, caseMap: char -> string)
    requires i < |lines|
    ensures HeadingsIn(lines[..i + 1], caseMap) == HeadingsIn(lines[..i], caseMap) + LineHeadings(lines[i], caseMap)
  {
    assert lines[..i + 1][..i] == lines[..i];
  }

  /** One heading per matching line and none for the others. */
  lemma HeadingsInCount(lines: seq<string>, caseMap: char -> string)
    ensures |HeadingsIn(lines, caseMap)| == |Indices(lines, IsHeadingLine)|
  {
    FlatMapCount(lines, line => LineHeadings(line, caseMap), IsHeadingLine);
  }

  /** The heading of a match has a level of 2 to 4, a trimmed title and that title's anchor id, a slug. */
  lemma HeadingFromWellFormed(mt: Match, caseMap: char -> string)
    requires 2 <= mt.level <= 4
    ensures WellFormed(HeadingFrom(mt, caseMap), caseMap)
    ensures HeadingFrom(mt, caseMap).level == mt.level && HeadingFrom(mt, caseMap).title == Trim(mt.text)
  {
    var title := Trim(mt.text);
    AnchorIdIsSlug(title, caseMap);
  }

  /** The heading of a line is well formed. */
  lemma LineHeadingWellFormed(line: string, caseMap: char -> string, h: Heading)
    requires h in LineHeadings(line, caseMap)
    ensures WellFormed(h, caseMap)
  {
    var mt := MatchHeading(line).value;
    assert h == HeadingFrom(mt, caseMap);
    HeadingFromWellFormed(mt, caseMap);
  }

  /** Every heading has a level of 2 to 4, a trimmed title and that title's anchor id, which is a slug. */
  lemma HeadingsWellFormed(lines: seq<string>, caseMap: char -> string)
    ensures forall h :: h in HeadingsIn(lines, caseMap) ==> WellFormed(h, caseMap)
  {
    forall i, h | 0 <= i < |lines| && h in LineHeadings(lines[i], caseMap) ensures WellFormed(h, caseMap) {
      LineHeadingWellFormed(lines[i], caseMap, h);
    }
    FlatMapAll(lines, line => LineHeadings(line, caseMap), h => WellFormed(h, caseMap));
  }

  /** Both tags occur and the first `</MARKDOWN>` comes after the first `<MARKDOWN>`. */
  predicate Tagged(markdown: string) {
    IndexOf(markdown, OpenTag).Some? && IndexOf(markdown, CloseTag).Some?
    && IndexOf(markdown, CloseTag).value > IndexOf(markdown, OpenTag).value
  }

  /** The two tags cannot overlap: no character of `<MARKDOWN>` after the first is `<`. */
  lemma TagsApart(markdown: string)
    requires Tagged(markdown)
    ensures IndexOf(markdown, OpenTag).value + |OpenTag| <= IndexOf(markdown, CloseTag).value
  {
    var s, e := IndexOf(markdown, OpenTag).value, IndexOf(markdown, CloseTag).value;
    forall i | s < i < s + |OpenTag| ensures markdown[i] != '<' {
      assert markdown[i] == markdown[s..s + |OpenTag|][i - s];
    }
    assert markdown[e] == markdown[e..e + |CloseTag|][0];
  }

  /** The text scanned: between the tags when `Tagged`, otherwise all of it. */
  function Region(markdown: string): string {
    if Tagged(markdown) then
      TagsApart(markdown);
      markdown[IndexOf(markdown, OpenTag).value + |OpenTag|..IndexOf(markdown, CloseTag).value]
    else markdown
  }

  /**
   * Between the tags, the markdown is what comes before the first
   * `<MARKDOWN>`, the tag, the region, then what follows from the first
   * `</MARKDOWN>` on.
   */
  lemma RegionBetweenTags(markdown: string)
    requires Tagged(markdown)
    ensures var s, e := IndexOf(markdown, OpenTag).value, IndexOf(markdown, CloseTag).value;
      s + |OpenTag| <= e && markdown == markdown[..s] + OpenTag + Region(markdown) + markdown[e..]
  {
    var s, e := IndexOf(markdown, OpenTag).value, IndexOf(markdown, CloseTag).value;
    TagsApart(markdown);
    var r := markdown[s + |OpenTag|..e];
    assert Region(markdown) == r;
    assert markdown[s..s + |OpenTag|] == OpenTag;
    assert markdown == markdown[..s] + markdown[s..s + |OpenTag|] + r + markdown[e..];
  }

  /** The region stops at the first `</MARKDOWN>`: it holds none. */
  lemma RegionHasNoCloseTag(markdown: string)
    requires Tagged(markdown)
    ensures !Contains(Region(markdown), CloseTag)
  {
    var s, e := IndexOf(markdown, OpenTag).value, IndexOf(markdown, CloseTag).value;
    TagsApart(markdown);
    var a := s + |OpenTag|;
    var r := markdown[a..e];
    assert Region(markdown) == r;
    forall j: nat | j + |CloseTag| <= |r| ensures !Occurs(r, CloseTag, j) {
      IndexFromFirst(markdown, CloseTag, 0, a + j);
      OccursSlice(markdown, CloseTag, a, e, j);
    }
  }

  /** Without both tags in order, the whole markdown is scanned. */
  lemma RegionUntagged(markdown: string)
    requires !Tagged(markdown)
    ensures Region(markdown) == markdown
  {
  }

  /** `extractHeadings(markdown)` as a value. */
  function TableOf(markdown: string, caseMap: char -> string): seq<Heading> {
    if markdown == "" then [] else HeadingsIn(Split(Region(markdown), "\n"), caseMap)
  }

  /** `extractHeadings`: the loop over the lines of the region, pushing one heading per match. */
  method ExtractHeadings(markdown: string, caseMap: char -> string) returns (headings: seq<Heading>)
    ensures headings == TableOf(markdown, caseMap)
    ensures markdown == "" ==> headings == []
  {
    if markdown == "" {
      return [];
    }
    var content := markdown;
    var mdStart := IndexOf(markdown, OpenTag);
    var mdEnd := IndexOf(markdown, CloseTag);
    if mdStart.Some? && mdEnd.Some? && mdEnd.value > mdStart.value {
      content := Region(markdown);
    }
    headings := [];
    var lines := Split(content, "\n");
    for i := 0 to |lines|
      invariant headings == HeadingsIn(lines[..i], caseMap)
    {
      HeadingsInSnoc(lines, i, caseMap);
      var m := MatchHeading(lines[i]);
      if m.Some? {
        var title := Trim(m.value.text);
        var id := AnchorId(title, caseMap);
        headings := headings + [Heading(m.value.level, title, id)];
      }
    }
    assert lines[..|lines|] == lines;
  }
}
