/** `re.sub` for the eight patterns the text preprocessor substitutes.

    `re.sub` scans the text from left to right; where the pattern matches at the current
    index it emits the replacement and resumes after the match, elsewhere it copies one
    character. `\b` looks at the characters on both sides in the WHOLE text. None of the
    patterns matches the empty string, so Python's rules for empty matches never apply.

    For the three rules whose match is one whole `\w` run (the relative-date words and
    the two `h` time forms), `WordMap` is an independent reference: cut the text at its
    non-word characters and rewrite each run on its own. `SubIsWordMap` proves that the
    scan computes it; the scan lemmas are stated for any table of matches that behaves
    like such a rule, so that the regex details stay in the lemmas about `MatchAt`. */
module Rewrite {
  import opened Wrappers
  import opened PyStr

  datatype Rule =
    | SpaceRun                              // `\s+`                          -> " "
    | WholeWord(word: string, repl: string) // `\b<word>\b`, re.IGNORECASE    -> repl
    | HourMinute                            // `\b(\d{1,2})h(\d{2})\b`, I     -> `\1:\2`
    | HourOnly                              // `\b(\d{1,2})h\b`, I            -> `\1:00`
    | AtTime                                // `\bàs\s+(\d{1,2}:\d{2})\b`, I  -> `\1`
    | AtHour                                // `\bàs\s+(\d{1,2})h\b`, I       -> `\1:00`
    | CommaOrSemicolon                      // `[,;]\s*`                      -> ", "
    | Period                                // `\.\s*`                        -> ". "

  /** A match: how many characters it covers and the text that replaces them. */
  datatype Hit = Hit(len: nat, out: string)

  predicate IsWordAt(t: string, i: int) {
    0 <= i < |t| && IsWordChar(t[i])
  }

  /** `\b` at index `i`: a word character on exactly one side. */
  predicate Boundary(t: string, i: int) {
    IsWordAt(t, i - 1) != IsWordAt(t, i)
  }

  predicate IsH(c: char) {
    c == 'h' || c == 'H'
  }

  /** `à` under re.IGNORECASE. */
  predicate IsAGrave(c: char) {
    c == '\U{E0}' || c == '\U{C0}'
  }

  predicate IsS(c: char) {
    c == 's' || c == 'S'
  }

  /** What greedy `\d{1,2}` takes at `i` (0 when there is no digit there). Giving a
      digit back never helps the patterns here: each wants a non-digit next. */
  function LeadDigits(t: string, i: nat): (k: nat)
    requires i <= |t|
    ensures k <= 2 && i + k <= |t|
    ensures forall j | i <= j < i + k :: IsDigit(t[j])
    ensures k == 0 <==> !(i < |t| && IsDigit(t[i]))
    ensures k == 1 ==> !(i + 1 < |t| && IsDigit(t[i + 1]))
  {
    if i < |t| && IsDigit(t[i]) then
      (if i + 1 < |t| && IsDigit(t[i + 1]) then 2 else 1)
    else 0
  }

  /** The match of `rule` that starts at index `i`, if any. */
  function MatchAt(rule: Rule, t: string, i: nat): (r: Option<Hit>)
    requires i < |t|
    ensures r.Some? ==> 0 < r.value.len <= |t| - i
  {
    match rule
    case SpaceRun =>
      if IsSpace(t[i]) then Some(Hit(SpacesFrom(t, i), " ")) else None
    case WholeWord(w, repl) =>
      if 0 < |w| && i + |w| <= |t| && Boundary(t, i) && FoldEq(t[i..i + |w|], w) && Boundary(t, i + |w|)
      then Some(Hit(|w|, repl))
      else None
    case HourMinute =>
      var k := LeadDigits(t, i);
      if 0 < k && Boundary(t, i) && i + k + 3 <= |t| && IsH(t[i + k])
         && IsDigit(t[i + k + 1]) && IsDigit(t[i + k + 2]) && Boundary(t, i + k + 3)
      then Some(Hit(k + 3, t[i..i + k] + ":" + t[i + k + 1..i + k + 3]))
      else None
    case HourOnly =>
      var k := LeadDigits(t, i);
      if 0 < k && Boundary(t, i) && i + k + 1 <= |t| && IsH(t[i + k]) && Boundary(t, i + k + 1)
      then Some(Hit(k + 1, t[i..i + k] + ":00"))
      else None
    case AtTime =>
      if Boundary(t, i) && i + 2 <= |t| && IsAGrave(t[i]) && IsS(t[i + 1]) then
        var p := i + 2 + SpacesFrom(t, i + 2);
        var k := LeadDigits(t, p);
        if p > i + 2 && 0 < k && p + k + 3 <= |t| && t[p + k] == ':'
           && IsDigit(t[p + k + 1]) && IsDigit(t[p + k + 2]) && Boundary(t, p + k + 3)
        then Some(Hit(p + k + 3 - i, t[p..p + k + 3]))
        else None
      else None
    case AtHour =>
      if Boundary(t, i) && i + 2 <= |t| && IsAGrave(t[i]) && IsS(t[i + 1]) then
        var p := i + 2 + SpacesFrom(t, i + 2);
        var k := LeadDigits(t, p);
        if p > i + 2 && 0 < k && p + k + 1 <= |t| && IsH(t[p + k]) && Boundary(t, p + k + 1)
        then Some(Hit(p + k + 1 - i, t[p..p + k] + ":00"))
        else None
      else None
    case CommaOrSemicolon =>
      if t[i] == ',' || t[i] == ';' then Some(Hit(1 + SpacesFrom(t, i + 1), ", ")) else None
    case Period =>
      if t[i] == '.' then Some(Hit(1 + SpacesFrom(t, i + 1), ". ")) else None
  }

  // ---------------------------------------------------------------------------
  // The scan, over a table that gives the match found at each index.
  // ---------------------------------------------------------------------------

  /** A table of matches for `t`: one entry per index, every match covering at least
      one character and staying inside `t`. */
  predicate Fits(hits: seq<Option<Hit>>, t: string) {
    |hits| == |t| && forall p | 0 <= p < |t| && hits[p].Some? :: 0 < hits[p].value.len <= |t| - p
  }

  /** The scan of `re.sub` from index `i` on: where a match starts, emit its replacement
      and resume after it; elsewhere copy one character. */
  function Scan(hits: seq<Option<Hit>>, t: string, i: nat): string
    requires Fits(hits, t) && i <= |t|
    decreases |t| - i
  {
    if i == |t| then []
    else
      match hits[i]
      case Some(h) => h.out + Scan(hits, t, i + h.len)
      case None => [t[i]] + Scan(hits, t, i + 1)
  }

  /** The matches of `rule` at every index of `t`. */
  function Hits(rule: Rule, t: string): (hits: seq<Option<Hit>>)
    ensures Fits(hits, t)
    ensures forall p | 0 <= p < |t| :: hits[p] == MatchAt(rule, t, p)
  {
    seq(|t|, p requires 0 <= p < |t| => MatchAt(rule, t, p))
  }

  /** `re.sub(pattern, replacement, t)`: a pattern that matches nowhere leaves the text
      unchanged. */
  function Sub(rule: Rule, t: string): (r: string)
    ensures NoMatch(rule, t) ==> r == t
  {
    ScanOfNoMatch(rule, t);
    Scan(Hits(rule, t), t, 0)
  }

  /** The pattern matches nowhere in `t`. */
  predicate NoMatch(rule: Rule, t: string) {
    forall p | 0 <= p < |t| :: MatchAt(rule, t, p).None?
  }

  predicate NoHit(hits: seq<Option<Hit>>, i: nat, j: nat)
    requires i <= j <= |hits|
  {
    forall p | i <= p < j :: hits[p].None?
  }

  lemma {:induction false} NoHitSplit(hits: seq<Option<Hit>>, i: nat, a: nat, b: nat)
    requires i <= a <= b <= |hits|
    ensures NoHit(hits, i, b) <==> NoHit(hits, i, a) && NoHit(hits, a, b)
  {
  }

  /** Where nothing matches, the scan copies the text. */
  lemma {:induction false} ScanCopies(hits: seq<Option<Hit>>, t: string, i: nat, j: nat)
    requires Fits(hits, t) && i <= j <= |t| && NoHit(hits, i, j)
    ensures Scan(hits, t, i) == t[i..j] + Scan(hits, t, j)
    decreases j - i
  {
    if i < j {
      ScanCopies(hits, t, i + 1, j);
      assert hits[i].None?;
      assert Scan(hits, t, i) == [t[i]] + Scan(hits, t, i + 1);
      assert t[i..j] == [t[i]] + t[i + 1..j];
    }
  }

  /** Where no match starts, the scan copies the text. */
  lemma {:induction false} ScanOfNoMatch(rule: Rule, t: string)
    ensures NoMatch(rule, t) ==> Scan(Hits(rule, t), t, 0) == t
  {
    if NoMatch(rule, t) {
      var hits := Hits(rule, t);
      assert NoHit(hits, 0, |t|);
      ScanCopies(hits, t, 0, |t|);
      assert t[0..|t|] == t;
    }
  }

  /** The two `às` patterns need an `à`: text without one is left alone. */
  lemma {:induction false} SubWithoutAGrave(rule: Rule, t: string)
    requires rule.AtTime? || rule.AtHour?
    requires forall k | 0 <= k < |t| :: !IsAGrave(t[k])
    ensures Sub(rule, t) == t
  {
  }

  /** `x` reads `D{1,2}:DD`. */
  predicate IsClock(x: string) {
    && (|x| == 4 || |x| == 5)
    && IsDigit(x[0]) && (|x| == 5 ==> IsDigit(x[1]))
    && x[|x| - 3] == ':' && IsDigit(x[|x| - 2]) && IsDigit(x[|x| - 1])
  }

  /** `\bàs\s+(\d{1,2}:\d{2})\b` at `i`, where `às` starts a word, whitespace runs up to
      `p` and a time that ends a word runs from `p` to `e`: the match is the time. */
  lemma {:induction false} AtTimeHit(t: string, i: nat, p: nat, e: nat)
    requires i + 2 < p <= e <= |t| && IsAGrave(t[i]) && IsS(t[i + 1]) && !IsWordAt(t, i - 1)
    requires forall k | i + 2 <= k < p :: IsSpace(t[k])
    requires IsClock(t[p..e]) && !IsWordAt(t, e)
    ensures MatchAt(AtTime, t, i) == Some(Hit(e - i, t[p..e]))
  {
    var time := t[p..e];
    assert t[p] == time[0] && t[e - 1] == time[|time| - 1];
    assert SpacesFrom(t, i + 2) == p - i - 2;
    assert LeadDigits(t, p) == e - p - 3 by {
      assert t[p + 1] == time[1];
    }
    assert t[e - 3] == time[|time| - 3] && t[e - 2] == time[|time| - 2];
  }

  /** The scan around that match: no `à` elsewhere, so the rest is copied. */
  lemma {:induction false} AtTimeScan(t: string, i: nat, p: nat, e: nat)
    requires i + 2 < p <= e <= |t| && IsAGrave(t[i]) && IsS(t[i + 1]) && !IsWordAt(t, i - 1)
    requires forall k | i + 2 <= k < p :: IsSpace(t[k])
    requires IsClock(t[p..e]) && !IsWordAt(t, e)
    requires forall q | 0 <= q < |t| && (q < i || e <= q) :: !IsAGrave(t[q])
    ensures Scan(Hits(AtTime, t), t, 0) == t[..i] + t[p..e] + t[e..]
  {
    var hits := Hits(AtTime, t);
    var before := Scan(hits, t, 0);
    var from := Scan(hits, t, i);
    var after := Scan(hits, t, e);
    assert before == t[..i] + from by {
      assert NoHit(hits, 0, i);
      ScanCopies(hits, t, 0, i);
      assert t[0..i] == t[..i];
    }
    assert from == t[p..e] + after by {
      AtTimeHit(t, i, p, e);
    }
    assert after == t[e..] by {
      assert NoHit(hits, e, |t|);
      ScanCopies(hits, t, e, |t|);
      assert t[e..|t|] == t[e..];
    }
    Regroup3(t[..i], t[p..e], t[e..]);
  }

  /** Where `às` starts a word and is followed by whitespace and a time `H:MM` or
      `HH:MM` that ends a word, `\bàs\s+(\d{1,2}:\d{2})\b` -> `\1` drops `às` and the
      whitespace and keeps the time. */
  lemma {:induction false} AtTimeDrops(pre: string, at: string, gap: string, time: string, post: string)
    requires |at| == 2 && IsAGrave(at[0]) && IsS(at[1])
    requires gap != [] && AllSpace(gap) && IsClock(time)
    requires pre == [] || !IsWordChar(pre[|pre| - 1])
    requires post == [] || !IsWordChar(post[0])
    requires forall k | 0 <= k < |pre| :: !IsAGrave(pre[k])
    requires forall k | 0 <= k < |post| :: !IsAGrave(post[k])
    ensures Sub(AtTime, pre + at + gap + time + post) == pre + time + post
  {
    var t := pre + (at + gap + time) + post;
    var i := |pre|;
    var p := i + 2 + |gap|;
    var e := p + |time|;
    AtTimeInside(pre, at, gap, time, post);
    AtTimeOutside(pre, at + gap + time, post);
    AtTimeScan(t, i, p, e);
    assert Sub(AtTime, t) == Scan(Hits(AtTime, t), t, 0);
    assert t[..i] == pre && t[e..] == post;
    Regroup(pre, at, gap, time, post);
  }

  lemma {:induction false} AtTimeInside(pre: string, at: string, gap: string, time: string, post: string)
    requires |at| == 2
    ensures var t := pre + (at + gap + time) + post; var i := |pre|; var p := i + 2 + |gap|;
      && p + |time| <= |t| && t[i] == at[0] && t[i + 1] == at[1] && t[p..p + |time|] == time
      && forall k | i + 2 <= k < p :: t[k] == gap[k - i - 2]
  {
    var mid := at + gap + time;
    var t := pre + mid + post;
    var i := |pre|;
    var e := i + |mid|;
    assert t[i..e] == mid;
    AtTimeMiddle(at, gap, time);
    forall k | i + 2 <= k < i + 2 + |gap| ensures t[k] == gap[k - i - 2] {
      assert t[k] == t[i..e][k - i];
    }
    assert t[i + 2 + |gap|..e] == t[i..e][2 + |gap|..];
  }

  lemma {:induction false} AtTimeOutside(pre: string, mid: string, post: string)
    requires pre == [] || !IsWordChar(pre[|pre| - 1])
    requires post == [] || !IsWordChar(post[0])
    requires forall k | 0 <= k < |pre| :: !IsAGrave(pre[k])
    requires forall k | 0 <= k < |post| :: !IsAGrave(post[k])
    ensures var t := pre + mid + post; var i := |pre|; var e := i + |mid|;
      && !IsWordAt(t, i - 1) && !IsWordAt(t, e)
      && forall q | 0 <= q < |t| && (q < i || e <= q) :: !IsAGrave(t[q])
  {
    var t := pre + mid + post;
    var i := |pre|;
    var e := i + |mid|;
    assert i > 0 ==> t[i - 1] == pre[|pre| - 1];
    assert e < |t| ==> t[e] == post[0];
    forall q | 0 <= q < |t| && (q < i || e <= q) ensures !IsAGrave(t[q]) {
      if q < i {
        assert t[q] == pre[q];
      } else {
        assert t[q] == post[q - e];
      }
    }
  }

  lemma {:induction false} Regroup(a: string, b: string, c: string, d: string, e: string)
    ensures a + b + c + d + e == a + (b + c + d) + e
  {
  }

  lemma {:induction false} AtTimeMiddle(at: string, gap: string, time: string)
    requires |at| == 2
    ensures var mid := at + gap + time;
      && mid[0] == at[0] && mid[1] == at[1] && mid[2 + |gap|..] == time
      && forall k | 2 <= k < 2 + |gap| :: mid[k] == gap[k - 2]
  {
  }

  // ---------------------------------------------------------------------------
  // Runs of word characters and the reference that rewrites them one by one.
  // ---------------------------------------------------------------------------

  predicate AllWord(x: string) {
    forall k | 0 <= k < |x| :: IsWordChar(x[k])
  }

  predicate AllDigits(x: string) {
    forall k | 0 <= k < |x| :: IsDigit(x[k])
  }

  /** Text made of digits and non-word characters. */
  predicate DigitsAndSeparators(s: string) {
    forall k | 0 <= k < |s| :: IsDigit(s[k]) || !IsWordChar(s[k])
  }

  /** The end of the run of word characters that starts at `i`. */
  function WordEnd(s: string, i: nat): (j: nat)
    requires i <= |s|
    ensures i <= j <= |s|
    ensures forall k | i <= k < j :: IsWordChar(s[k])
    ensures j < |s| ==> !IsWordChar(s[j])
    decreases |s| - i
  {
    if i < |s| && IsWordChar(s[i]) then WordEnd(s, i + 1) else i
  }

  lemma {:induction false} WordEndUnique(s: string, i: nat, j: nat)
    requires i <= j <= |s|
    requires forall k | i <= k < j :: IsWordChar(s[k])
    requires j < |s| ==> !IsWordChar(s[j])
    ensures WordEnd(s, i) == j
  {
  }

  /** A run of word characters starts at `p`. */
  predicate StartsRun(t: string, p: nat) {
    p < |t| && IsWordChar(t[p]) && !IsWordAt(t, p - 1)
  }

  /** Reference: rewrite each maximal run of word characters of `s` with `f`, keeping
      the characters between runs. */
  function WordMap(f: string -> string, s: string): string
    decreases |s|
  {
    var j := WordEnd(s, 0);
    if j == |s| then f(s)
    else f(s[..j]) + [s[j]] + WordMap(f, s[j + 1..])
  }

  /** No run of `s` is one that `g` accepts. */
  predicate NoRun(g: string -> bool, s: string)
    decreases |s|
  {
    var j := WordEnd(s, 0);
    !g(s[..j]) && (j < |s| ==> NoRun(g, s[j + 1..]))
  }

  /** The run that starts at `i` in `t` is the first run of the suffix `t[i..]`. */
  lemma {:induction false} WordEndOfSuffix(t: string, i: nat)
    requires i <= |t|
    ensures var j := WordEnd(t, i); var s := t[i..];
      && WordEnd(s, 0) == j - i && s[..j - i] == t[i..j]
      && (j < |t| ==> s[j - i] == t[j] && s[j - i + 1..] == t[j + 1..])
      && (j == |t| ==> s == t[i..j])
  {
    var j := WordEnd(t, i);
    var s := t[i..];
    forall k | 0 <= k < j - i ensures IsWordChar(s[k]) {
      assert s[k] == t[i + k];
    }
    WordEndUnique(s, 0, j - i);
  }

  lemma {:induction false} WordMapOfSuffix(f: string -> string, t: string, i: nat)
    requires i <= |t|
    ensures var j := WordEnd(t, i);
      && (j < |t| ==> WordMap(f, t[i..]) == f(t[i..j]) + [t[j]] + WordMap(f, t[j + 1..]))
      && (j == |t| ==> WordMap(f, t[i..]) == f(t[i..j]))
  {
    WordEndOfSuffix(t, i);
  }

  lemma {:induction false} NoRunOfSuffix(g: string -> bool, t: string, i: nat)
    requires i <= |t|
    ensures var j := WordEnd(t, i);
      && (j < |t| ==> (NoRun(g, t[i..]) <==> !g(t[i..j]) && NoRun(g, t[j + 1..])))
      && (j == |t| ==> (NoRun(g, t[i..]) <==> !g(t[i..j])))
  {
    WordEndOfSuffix(t, i);
  }

  lemma {:induction false} WordEndOfWord(x: string)
    requires AllWord(x)
    ensures WordEnd(x, 0) == |x|
  {
    WordEndUnique(x, 0, |x|);
  }

  /** A single run is rewritten as a whole. */
  lemma {:induction false} WordMapOfWord(f: string -> string, x: string)
    requires AllWord(x)
    ensures WordMap(f, x) == f(x)
  {
    WordEndOfWord(x);
    assert x[..|x|] == x;
  }

  lemma {:induction false} NoRunOfWord(g: string -> bool, x: string)
    requires AllWord(x)
    ensures NoRun(g, x) <==> !g(x)
  {
    WordEndOfWord(x);
    assert x[..|x|] == x;
  }

  /** Cutting at a non-word character `c` splits the first run off unchanged. */
  lemma {:induction false} WordEndCut(a: string, c: char, b: string)
    requires !IsWordChar(c)
    ensures var s := a + [c] + b; var j := WordEnd(a, 0);
      && WordEnd(s, 0) == j && s[..j] == a[..j] && s[j] == (if j < |a| then a[j] else c)
      && (j < |a| ==> s[j + 1..] == a[j + 1..] + [c] + b)
      && (j == |a| ==> s[j + 1..] == b)
  {
    var ac := a + [c];
    var s := ac + b;
    var j := WordEnd(a, 0);
    assert forall k | 0 <= k < |a| :: s[k] == a[k];
    assert s[|a|] == c;
    WordEndUnique(s, 0, j);
    assert s[..j] == a[..j];
    if j < |a| {
      assert s[j + 1..] == a[j + 1..] + [c] + b;
    } else {
      assert s[j + 1..] == b;
    }
  }

  lemma DropPastMark(a: string, m: char, b: string, k: nat)
    requires k <= |b|
    ensures |a| + 1 + k <= |a + [m] + b| && (a + [m] + b)[|a| + 1 + k..] == b[k..]
  {
    assert (a + [m] + b)[|a| + 1..] == b;
  }

  lemma AroundMarkRun(a: string, m: char, w: string, v: string)
    ensures (a + [m] + w + v)[..|a|] == a && (a + [m] + w + v)[|a| + 1 + |w|..] == v
  {
    assert (a + [m] + w + v)[..|a|] == a;
  }

  lemma TakeBeforeMark(a: string, m: char, b: string)
    ensures (a + [m] + b)[..|a|] == a
  {
  }

  lemma Regroup3(a: string, b: string, c: string)
    ensures a + (b + c) == a + b + c
  {
  }

  lemma {:induction false} ConcatAssoc(x: string, y: string, z: string, w: string, v: string)
    ensures x + y + (z + w + v) == x + y + z + w + v
  {
  }

  /** The reference works piece by piece: text cut at a non-word character maps to the
      maps of its two sides. */
  lemma {:induction false} WordMapCut(f: string -> string, a: string, c: char, b: string)
    requires !IsWordChar(c)
    ensures WordMap(f, a + [c] + b) == WordMap(f, a) + [c] + WordMap(f, b)
    decreases |a|
  {
    var s := a + [c] + b;
    var j := WordEnd(a, 0);
    WordEndCut(a, c, b);
    var x := f(a[..j]);
    var mb := WordMap(f, b);
    if j < |a| {
      var rest := a[j + 1..];
      var m := WordMap(f, rest);
      WordMapCut(f, rest, c, b);
      calc {
        WordMap(f, s);
        x + [a[j]] + WordMap(f, rest + [c] + b);
        x + [a[j]] + (m + [c] + mb);
        { ConcatAssoc(x, [a[j]], m, [c], mb); }
        x + [a[j]] + m + [c] + mb;
        WordMap(f, a) + [c] + mb;
      }
    } else {
      assert a[..j] == a;
      assert WordMap(f, s) == x + [c] + mb;
    }
  }

  lemma {:induction false} NoRunCut(g: string -> bool, a: string, c: char, b: string)
    requires !IsWordChar(c)
    ensures NoRun(g, a + [c] + b) <==> NoRun(g, a) && NoRun(g, b)
    decreases |a|
  {
    var s := a + [c] + b;
    var j := WordEnd(a, 0);
    WordEndCut(a, c, b);
    if j < |a| {
      NoRunCut(g, a[j + 1..], c, b);
      assert NoRun(g, s) <==> !g(a[..j]) && NoRun(g, a[j + 1..] + [c] + b);
      assert NoRun(g, a) <==> !g(a[..j]) && NoRun(g, a[j + 1..]);
    } else {
      assert a[..j] == a;
      assert NoRun(g, s) <==> !g(a) && NoRun(g, b);
      assert NoRun(g, a) <==> !g(a);
    }
  }

  /** `f` changes only the runs `g` accepts. */
  ghost predicate ChangesOnly(f: string -> string, g: string -> bool) {
    forall x | AllWord(x) && !g(x) :: f(x) == x
  }

  /** `f` writes digits and separators for every run `g` accepts. */
  ghost predicate WritesDigits(f: string -> string, g: string -> bool) {
    forall x | AllWord(x) && g(x) :: DigitsAndSeparators(f(x))
  }

  /** `g` accepts no run of digits. */
  ghost predicate SparesDigits(g: string -> bool) {
    forall x | AllDigits(x) :: !g(x)
  }

  /** Text in which `g` accepts no run is its own image under an `f` that changes
      only the runs `g` accepts. */
  lemma {:induction false} WordMapOfNoRun(f: string -> string, g: string -> bool, s: string)
    requires ChangesOnly(f, g) && NoRun(g, s)
    ensures WordMap(f, s) == s
    decreases |s|
  {
    var j := WordEnd(s, 0);
    assert AllWord(s[..j]);
    if j < |s| {
      WordMapOfNoRun(f, g, s[j + 1..]);
      assert s == s[..j] + [s[j]] + s[j + 1..];
    } else {
      assert s[..j] == s;
    }
  }

  /** Digits and separators hold no run that a digit-sparing `g` accepts. */
  lemma {:induction false} NoRunInDigits(g: string -> bool, s: string)
    requires SparesDigits(g) && DigitsAndSeparators(s)
    ensures NoRun(g, s)
    decreases |s|
  {
    var j := WordEnd(s, 0);
    var x := s[..j];
    assert AllDigits(x) by {
      forall k | 0 <= k < |x| ensures IsDigit(x[k]) {
        assert x[k] == s[k];
      }
    }
    if j < |s| {
      var u := s[j + 1..];
      assert DigitsAndSeparators(u) by {
        forall k | 0 <= k < |u| ensures IsDigit(u[k]) || !IsWordChar(u[k]) {
          assert u[k] == s[j + 1 + k];
        }
      }
      NoRunInDigits(g, s[j + 1..]);
    }
  }

  /** The image of one run keeps `h` away from it: either the run is unchanged and `h`
      did not accept it, or it became digits and separators. */
  lemma {:induction false} RunImageHasNoRun(f: string -> string, g: string -> bool, h: string -> bool, x: string)
    requires ChangesOnly(f, g) && WritesDigits(f, g) && SparesDigits(h)
    requires AllWord(x) && (g(x) || !h(x))
    ensures NoRun(h, f(x))
  {
    if g(x) {
      NoRunInDigits(h, f(x));
    } else {
      NoRunOfWord(h, x);
    }
  }

  /** If `h` accepts no run of `s`, it accepts no run of the image of `s` either, when
      `f` writes digits and separators and `h` spares digit runs. */
  lemma {:induction false} WordMapKeepsNoRun(f: string -> string, g: string -> bool, h: string -> bool, s: string)
    requires ChangesOnly(f, g) && WritesDigits(f, g) && SparesDigits(h) && NoRun(h, s)
    ensures NoRun(h, WordMap(f, s))
    decreases |s|
  {
    var j := WordEnd(s, 0);
    var x := s[..j];
    assert AllWord(x);
    RunImageHasNoRun(f, g, h, x);
    if j < |s| {
      WordMapKeepsNoRun(f, g, h, s[j + 1..]);
      NoRunCut(h, f(x), s[j], WordMap(f, s[j + 1..]));
    } else {
      assert x == s;
    }
  }

  /** After a rewriting that writes digits and separators, none of the runs it
      rewrites is left, when those runs are never digits. */
  lemma {:induction false} WordMapLeavesNoRun(f: string -> string, g: string -> bool, s: string)
    requires ChangesOnly(f, g) && WritesDigits(f, g) && SparesDigits(g)
    ensures NoRun(g, WordMap(f, s))
    decreases |s|
  {
    var j := WordEnd(s, 0);
    var x := s[..j];
    assert AllWord(x);
    RunImageHasNoRun(f, g, g, x);
    if j < |s| {
      WordMapLeavesNoRun(f, g, s[j + 1..]);
      NoRunCut(g, f(x), s[j], WordMap(f, s[j + 1..]));
    } else {
      assert x == s;
    }
  }

  /** Rewriting every run with a function that agrees with `g` on runs gives what `g` gives. */
  lemma {:induction false} WordMapCongruent(f: string -> string, g: string -> string, s: string)
    requires forall x | AllWord(x) :: f(x) == g(x)
    ensures WordMap(f, s) == WordMap(g, s)
    decreases |s|
  {
    var j := WordEnd(s, 0);
    assert AllWord(s[..j]);
    if j < |s| {
      WordMapCongruent(f, g, s[j + 1..]);
    }
  }

  /** A function that keeps every run keeps the text. */
  lemma {:induction false} WordMapIdentity(f: string -> string, s: string)
    requires forall x | AllWord(x) :: f(x) == x
    ensures WordMap(f, s) == s
    decreases |s|
  {
    var j := WordEnd(s, 0);
    assert AllWord(s[..j]);
    if j < |s| {
      WordMapIdentity(f, s[j + 1..]);
      assert s == s[..j] + [s[j]] + s[j + 1..];
    } else {
      assert s[..j] == s;
    }
  }

  /** On runs, `h` is `f1` where `g1` accepts and `f2` elsewhere. */
  ghost predicate Combines(h: string -> string, f1: string -> string, g1: string -> bool, f2: string -> string) {
    forall x | AllWord(x) :: h(x) == if g1(x) then f1(x) else f2(x)
  }

  lemma {:induction false} RunImageCompose(f1: string -> string, g1: string -> bool, f2: string -> string,
                                           g2: string -> bool, h: string -> string, x: string)
    requires ChangesOnly(f1, g1) && WritesDigits(f1, g1) && ChangesOnly(f2, g2) && SparesDigits(g2)
    requires Combines(h, f1, g1, f2) && AllWord(x)
    ensures WordMap(f2, f1(x)) == h(x)
  {
    if g1(x) {
      NoRunInDigits(g2, f1(x));
      WordMapOfNoRun(f2, g2, f1(x));
    } else {
      WordMapOfWord(f2, x);
    }
  }

  /** Rewriting with `f1` and then with `f2` is one rewriting that gives each run to `f1`
      when `g1` accepts it and to `f2` otherwise: what `f1` writes holds no run `f2`
      changes. */
  lemma {:induction false} WordMapCompose(f1: string -> string, g1: string -> bool, f2: string -> string,
                                          g2: string -> bool, h: string -> string, s: string)
    requires ChangesOnly(f1, g1) && WritesDigits(f1, g1) && ChangesOnly(f2, g2) && SparesDigits(g2)
    requires Combines(h, f1, g1, f2)
    ensures WordMap(f2, WordMap(f1, s)) == WordMap(h, s)
    decreases |s|
  {
    var j := WordEnd(s, 0);
    var x := s[..j];
    assert AllWord(x);
    RunImageCompose(f1, g1, f2, g2, h, x);
    if j < |s| {
      WordMapCompose(f1, g1, f2, g2, h, s[j + 1..]);
      WordMapCut(f2, f1(x), s[j], WordMap(f1, s[j + 1..]));
    } else {
      assert x == s;
    }
  }

  // ---------------------------------------------------------------------------
  // A table that behaves like a whole-run rule, and its scan.
  // ---------------------------------------------------------------------------

  /** At the run that starts at `p`: a match exactly when `g` accepts the run, covering
      the run and emitting `f` of it; and `f` keeps every run without a match. */
  predicate RunEntry(hits: seq<Option<Hit>>, t: string, f: string -> string, g: string -> bool, p: nat)
    requires Fits(hits, t) && p < |t|
  {
    var run := t[p..WordEnd(t, p)];
    && (hits[p].Some? <==> g(run))
    && (hits[p].Some? ==> hits[p].value == Hit(|run|, f(run)))
    && (hits[p].None? ==> f(run) == run)
  }

  /** `hits` is the table of a rule that rewrites whole runs: `f` of a run when `g`
      accepts it, matching nowhere but at the start of a run. */
  predicate RunTable(hits: seq<Option<Hit>>, t: string, f: string -> string, g: string -> bool) {
    && Fits(hits, t) && f([]) == [] && !g([])
    && (forall p | 0 <= p < |t| && hits[p].Some? :: StartsRun(t, p))
    && (forall p {:trigger RunEntry(hits, t, f, g, p)} | 0 <= p < |t| && StartsRun(t, p) :: RunEntry(hits, t, f, g, p))
  }

  lemma {:induction false} NoHitInsideRun(hits: seq<Option<Hit>>, t: string, f: string -> string, g: string -> bool, i: nat)
    requires RunTable(hits, t, f, g) && i <= |t| && i < WordEnd(t, i)
    ensures NoHit(hits, i + 1, WordEnd(t, i))
  {
    var j := WordEnd(t, i);
    forall p | i < p < j ensures hits[p].None? {
      assert IsWordAt(t, p - 1) && !StartsRun(t, p);
    }
  }

  lemma {:induction false} NoHitAtNonWord(hits: seq<Option<Hit>>, t: string, f: string -> string, g: string -> bool, j: nat)
    requires RunTable(hits, t, f, g) && j < |t| && !IsWordChar(t[j])
    ensures hits[j].None?
  {
    assert !StartsRun(t, j);
  }

  /** Where the run at `i` matches, the scan emits the match and resumes after the run. */
  lemma {:induction false} ScanRunHit(hits: seq<Option<Hit>>, t: string, f: string -> string, g: string -> bool, i: nat)
    requires RunTable(hits, t, f, g) && StartsRun(t, i) && hits[i].Some?
    ensures var j := WordEnd(t, i); Scan(hits, t, i) == f(t[i..j]) + Scan(hits, t, j)
  {
    assert RunEntry(hits, t, f, g, i);
  }

  /** Where the run at `i` does not match, the scan copies it, which is what `f` does. */
  lemma {:induction false} ScanRunMiss(hits: seq<Option<Hit>>, t: string, f: string -> string, g: string -> bool, i: nat)
    requires RunTable(hits, t, f, g) && StartsRun(t, i) && hits[i].None?
    ensures var j := WordEnd(t, i); Scan(hits, t, i) == f(t[i..j]) + Scan(hits, t, j)
  {
    var j := WordEnd(t, i);
    assert RunEntry(hits, t, f, g, i);
    NoHitInsideRun(hits, t, f, g, i);
    ScanCopies(hits, t, i + 1, j);
    assert Scan(hits, t, i) == [t[i]] + Scan(hits, t, i + 1);
    assert t[i..j] == [t[i]] + t[i + 1..j];
  }

  /** The scan over one run emits `f` of the run. */
  lemma {:induction false} ScanRun(hits: seq<Option<Hit>>, t: string, f: string -> string, g: string -> bool, i: nat)
    requires RunTable(hits, t, f, g) && i <= |t| && !IsWordAt(t, i - 1)
    ensures var j := WordEnd(t, i); Scan(hits, t, i) == f(t[i..j]) + Scan(hits, t, j)
  {
    var j := WordEnd(t, i);
    if i == j {
      assert t[i..j] == [];
    } else if hits[i].Some? {
      ScanRunHit(hits, t, f, g, i);
    } else {
      ScanRunMiss(hits, t, f, g, i);
    }
  }

  /** At a non-word character the scan copies it. */
  lemma {:induction false} ScanAtGap(hits: seq<Option<Hit>>, t: string, f: string -> string, g: string -> bool, j: nat)
    requires RunTable(hits, t, f, g) && j < |t| && !IsWordChar(t[j])
    ensures Scan(hits, t, j) == [t[j]] + Scan(hits, t, j + 1)
  {
    NoHitAtNonWord(hits, t, f, g, j);
  }

  /** The step of the reference over one run and the separator after it, stated on
      the pieces the scan produces. */
  lemma {:induction false} GapStep(f: string -> string, t: string, i: nat, whole: string, mid: string, rest: string)
    requires i <= |t| && WordEnd(t, i) < |t|
    requires whole == f(t[i..WordEnd(t, i)]) + mid
    requires mid == [t[WordEnd(t, i)]] + rest
    requires rest == WordMap(f, t[WordEnd(t, i) + 1..])
    ensures whole == WordMap(f, t[i..])
  {
    var j := WordEnd(t, i);
    WordMapOfSuffix(f, t, i);
    var x := f(t[i..j]);
    assert x + ([t[j]] + rest) == x + [t[j]] + rest;
  }

  /** The last run: scan and reference both end with `f` of it. */
  lemma {:induction false} ScanLastRun(hits: seq<Option<Hit>>, t: string, f: string -> string, g: string -> bool, i: nat)
    requires RunTable(hits, t, f, g) && i <= |t| && !IsWordAt(t, i - 1) && WordEnd(t, i) == |t|
    ensures Scan(hits, t, i) == WordMap(f, t[i..])
  {
    ScanRun(hits, t, f, g, i);
    WordMapOfSuffix(f, t, i);
    assert Scan(hits, t, |t|) == [];
  }

  /** The scan of a whole-run table computes the reference. */
  lemma {:induction false} ScanIsWordMap(hits: seq<Option<Hit>>, t: string, f: string -> string, g: string -> bool, i: nat)
    requires RunTable(hits, t, f, g) && i <= |t| && !IsWordAt(t, i - 1)
    ensures Scan(hits, t, i) == WordMap(f, t[i..])
    decreases |t| - i
  {
    var j := WordEnd(t, i);
    if j < |t| {
      assert !IsWordAt(t, j);
      ScanIsWordMap(hits, t, f, g, j + 1);
      ScanRun(hits, t, f, g, i);
      ScanAtGap(hits, t, f, g, j);
      var whole, mid, rest := Scan(hits, t, i), Scan(hits, t, j), Scan(hits, t, j + 1);
      assert whole == f(t[i..j]) + mid;
      assert mid == [t[j]] + rest;
      assert rest == WordMap(f, t[j + 1..]);
      GapStep(f, t, i, whole, mid, rest);
    } else {
      ScanLastRun(hits, t, f, g, i);
    }
  }

  /** Over one run, the table has no match exactly when `g` rejects the run. */
  lemma {:induction false} NoHitInRunIff(hits: seq<Option<Hit>>, t: string, f: string -> string, g: string -> bool, i: nat)
    requires RunTable(hits, t, f, g) && i <= |t| && !IsWordAt(t, i - 1)
    ensures var j := WordEnd(t, i); NoHit(hits, i, j) <==> !g(t[i..j])
  {
    var j := WordEnd(t, i);
    if i == j {
      assert t[i..j] == [];
    } else {
      assert StartsRun(t, i) && RunEntry(hits, t, f, g, i);
      NoHitInsideRun(hits, t, f, g, i);
      NoHitSplit(hits, i, i + 1, j);
      assert NoHit(hits, i, i + 1) <==> hits[i].None?;
    }
  }

  /** The table has no match from `i` on exactly when `g` accepts no run there. */
  lemma {:induction false} NoHitIffNoRun(hits: seq<Option<Hit>>, t: string, f: string -> string, g: string -> bool, i: nat)
    requires RunTable(hits, t, f, g) && i <= |t| && !IsWordAt(t, i - 1)
    ensures NoHit(hits, i, |t|) <==> NoRun(g, t[i..])
    decreases |t| - i
  {
    var j := WordEnd(t, i);
    NoRunOfSuffix(g, t, i);
    NoHitInRunIff(hits, t, f, g, i);
    NoHitSplit(hits, i, j, |t|);
    if j < |t| {
      NoHitAtNonWord(hits, t, f, g, j);
      NoHitSplit(hits, j, j + 1, |t|);
      assert NoHit(hits, j, j + 1);
      NoHitIffNoRun(hits, t, f, g, j + 1);
    }
  }

  // ---------------------------------------------------------------------------
  // The three whole-run rules.
  // ---------------------------------------------------------------------------

  /** The rules whose every match is exactly one maximal run of word characters. */
  predicate IsWordRule(rule: Rule) {
    || (rule.WholeWord? && 0 < |rule.word| && AllWord(rule.word))
    || rule.HourMinute?
    || rule.HourOnly?
  }

  /** `x` reads `D{1,2}hDD`. */
  predicate IsHourMinuteWord(x: string) {
    && (|x| == 4 || |x| == 5)
    && IsDigit(x[0]) && (|x| == 5 ==> IsDigit(x[1]))
    && IsH(x[|x| - 3]) && IsDigit(x[|x| - 2]) && IsDigit(x[|x| - 1])
  }

  /** `x` reads `D{1,2}h`. */
  predicate IsHourOnlyWord(x: string) {
    (|x| == 2 || |x| == 3) && IsDigit(x[0]) && (|x| == 3 ==> IsDigit(x[1])) && IsH(x[|x| - 1])
  }

  /** Whether a whole-run rule rewrites the whole run `x`. */
  predicate RunMatches(rule: Rule, x: string) {
    match rule
    case WholeWord(w, _) => FoldEq(x, w)
    case HourMinute => IsHourMinuteWord(x)
    case HourOnly => IsHourOnlyWord(x)
    case _ => false
  }

  /** What a whole-run rule makes of the run `x`. */
  function RewriteWord(rule: Rule, x: string): string {
    if !RunMatches(rule, x) then x
    else
      match rule
      case WholeWord(_, repl) => repl
      case HourMinute => x[..|x| - 3] + ":" + x[|x| - 2..]
      case HourOnly => x[..|x| - 1] + ":00"
      case _ => x
  }

  function RewriteFn(rule: Rule): string -> string {
    x => RewriteWord(rule, x)
  }

  function MatchesFn(rule: Rule): string -> bool {
    x => RunMatches(rule, x)
  }

  lemma {:induction false} FoldEqWordChars(x: string, w: string)
    requires FoldEq(x, w) && AllWord(w)
    ensures AllWord(x)
  {
    forall k | 0 <= k < |x| ensures IsWordChar(x[k]) {
      FoldKeepsWordChar(x[k]);
      FoldKeepsWordChar(w[k]);
    }
  }

  /** A word rule only matches where a run of word characters starts. */
  lemma {:induction false} WordRuleNeedsRunStart(rule: Rule, t: string, i: nat)
    requires IsWordRule(rule) && i < |t| && MatchAt(rule, t, i).Some?
    ensures StartsRun(t, i)
  {
    if rule.WholeWord? {
      FoldKeepsWordChar(t[i]);
      FoldKeepsWordChar(rule.word[0]);
      assert t[i..i + |rule.word|][0] == t[i];
    }
  }

  lemma {:induction false} WholeWordHitIsRun(w: string, repl: string, t: string, i: nat)
    requires 0 < |w| && AllWord(w) && i < |t| && MatchAt(WholeWord(w, repl), t, i).Some?
    ensures var j := WordEnd(t, i);
      FoldEq(t[i..j], w) && MatchAt(WholeWord(w, repl), t, i).value == Hit(j - i, repl)
  {
    var x := t[i..i + |w|];
    assert FoldEq(x, w) && Boundary(t, i + |w|);
    FoldEqWordChars(x, w);
    forall k | i <= k < i + |w| ensures IsWordChar(t[k]) {
      assert t[k] == x[k - i];
    }
    assert IsWordAt(t, i + |w| - 1);
    WordEndUnique(t, i, i + |w|);
  }

  lemma {:induction false} WholeWordRunIsHit(w: string, repl: string, t: string, i: nat)
    requires 0 < |w| && AllWord(w) && i < |t| && !IsWordAt(t, i - 1)
    requires FoldEq(t[i..WordEnd(t, i)], w)
    ensures MatchAt(WholeWord(w, repl), t, i).Some?
  {
    var j := WordEnd(t, i);
    var x := t[i..j];
    FoldEqWordChars(x, w);
    assert t[i..i + |w|] == x;
    assert x[0] == t[i] && IsWordAt(t, i);
    assert x[|w| - 1] == t[j - 1] && IsWordAt(t, j - 1);
    assert Boundary(t, i) && Boundary(t, j);
  }

  lemma {:induction false} WholeWordAtRunStart(w: string, repl: string, t: string, i: nat)
    requires 0 < |w| && AllWord(w) && i < |t| && !IsWordAt(t, i - 1)
    ensures var j := WordEnd(t, i); var m := MatchAt(WholeWord(w, repl), t, i);
      && (m.Some? <==> FoldEq(t[i..j], w))
      && (m.Some? ==> m.value == Hit(j - i, repl))
  {
    if MatchAt(WholeWord(w, repl), t, i).Some? {
      WholeWordHitIsRun(w, repl, t, i);
    }
    if FoldEq(t[i..WordEnd(t, i)], w) {
      WholeWordRunIsHit(w, repl, t, i);
    }
  }

  lemma {:induction false} HourMinuteHitIsRun(t: string, i: nat)
    requires i < |t| && MatchAt(HourMinute, t, i).Some?
    ensures var j := WordEnd(t, i);
      && IsHourMinuteWord(t[i..j])
      && MatchAt(HourMinute, t, i).value == Hit(j - i, RewriteWord(HourMinute, t[i..j]))
  {
    var j := WordEnd(t, i);
    var k := LeadDigits(t, i);
    assert IsWordChar(t[i + k + 2]) && !IsWordAt(t, i + k + 3);
    forall q | i <= q < i + k + 3 ensures IsWordChar(t[q]) {
    }
    WordEndUnique(t, i, i + k + 3);
    var x := t[i..j];
    assert forall q | 0 <= q < |x| :: x[q] == t[i + q];
    assert x[..|x| - 3] == t[i..i + k];
    assert x[|x| - 2..] == t[i + k + 1..i + k + 3];
    assert IsHourMinuteWord(x);
  }

  lemma {:induction false} HourMinuteRunIsHit(t: string, i: nat)
    requires i < |t| && !IsWordAt(t, i - 1) && IsHourMinuteWord(t[i..WordEnd(t, i)])
    ensures MatchAt(HourMinute, t, i).Some?
  {
    var j := WordEnd(t, i);
    var k := LeadDigits(t, i);
    var x := t[i..j];
    assert forall q | 0 <= q < |x| :: x[q] == t[i + q];
    assert k == |x| - 3;
    assert IsWordAt(t, j - 1);
    assert Boundary(t, i) && Boundary(t, i + k + 3);
  }

  lemma {:induction false} HourMinuteAtRunStart(t: string, i: nat)
    requires i < |t| && !IsWordAt(t, i - 1)
    ensures var j := WordEnd(t, i); var m := MatchAt(HourMinute, t, i);
      && (m.Some? <==> IsHourMinuteWord(t[i..j]))
      && (m.Some? ==> m.value == Hit(j - i, RewriteWord(HourMinute, t[i..j])))
  {
    if MatchAt(HourMinute, t, i).Some? {
      HourMinuteHitIsRun(t, i);
    }
    if IsHourMinuteWord(t[i..WordEnd(t, i)]) {
      HourMinuteRunIsHit(t, i);
    }
  }

  lemma {:induction false} HourOnlyHitIsRun(t: string, i: nat)
    requires i < |t| && MatchAt(HourOnly, t, i).Some?
    ensures var j := WordEnd(t, i);
      && IsHourOnlyWord(t[i..j])
      && MatchAt(HourOnly, t, i).value == Hit(j - i, RewriteWord(HourOnly, t[i..j]))
  {
    var j := WordEnd(t, i);
    var k := LeadDigits(t, i);
    assert IsWordChar(t[i + k]) && !IsWordAt(t, i + k + 1);
    forall q | i <= q < i + k + 1 ensures IsWordChar(t[q]) {
    }
    WordEndUnique(t, i, i + k + 1);
    var x := t[i..j];
    assert forall q | 0 <= q < |x| :: x[q] == t[i + q];
    assert x[..|x| - 1] == t[i..i + k];
    assert IsHourOnlyWord(x);
  }

  lemma {:induction false} HourOnlyRunIsHit(t: string, i: nat)
    requires i < |t| && !IsWordAt(t, i - 1) && IsHourOnlyWord(t[i..WordEnd(t, i)])
    ensures MatchAt(HourOnly, t, i).Some?
  {
    var j := WordEnd(t, i);
    var k := LeadDigits(t, i);
    var x := t[i..j];
    assert forall q | 0 <= q < |x| :: x[q] == t[i + q];
    assert k == |x| - 1;
    assert IsWordAt(t, j - 1);
    assert Boundary(t, i) && Boundary(t, i + k + 1);
  }

  lemma {:induction false} HourOnlyAtRunStart(t: string, i: nat)
    requires i < |t| && !IsWordAt(t, i - 1)
    ensures var j := WordEnd(t, i); var m := MatchAt(HourOnly, t, i);
      && (m.Some? <==> IsHourOnlyWord(t[i..j]))
      && (m.Some? ==> m.value == Hit(j - i, RewriteWord(HourOnly, t[i..j])))
  {
    if MatchAt(HourOnly, t, i).Some? {
      HourOnlyHitIsRun(t, i);
    }
    if IsHourOnlyWord(t[i..WordEnd(t, i)]) {
      HourOnlyRunIsHit(t, i);
    }
  }

  /** At the start of a run, a word rule matches exactly when the reference rewrites
      the run, and then it covers the run and emits the reference's rewriting. */
  lemma {:induction false} MatchAtRunStart(rule: Rule, t: string, i: nat)
    requires IsWordRule(rule) && i < |t| && !IsWordAt(t, i - 1)
    ensures var j := WordEnd(t, i); var m := MatchAt(rule, t, i);
      && (m.Some? <==> RunMatches(rule, t[i..j]))
      && (m.Some? ==> m.value == Hit(j - i, RewriteWord(rule, t[i..j])))
  {
    match rule
    case WholeWord(w, repl) => WholeWordAtRunStart(w, repl, t, i);
    case HourMinute => HourMinuteAtRunStart(t, i);
    case HourOnly => HourOnlyAtRunStart(t, i);
  }

  /** The table of a whole-run rule is a run table for its rewriting. */
  lemma {:induction false} WordRuleTable(rule: Rule, t: string)
    requires IsWordRule(rule)
    ensures RunTable(Hits(rule, t), t, RewriteFn(rule), MatchesFn(rule))
  {
    var hits := Hits(rule, t);
    var f := RewriteFn(rule);
    var g := MatchesFn(rule);
    forall p | 0 <= p < |t| && hits[p].Some? ensures StartsRun(t, p) {
      WordRuleNeedsRunStart(rule, t, p);
    }
    forall p | 0 <= p < |t| && StartsRun(t, p) ensures RunEntry(hits, t, f, g, p) {
      MatchAtRunStart(rule, t, p);
    }
    assert !RunMatches(rule, []);
  }

  /** The scan of a whole-run rule computes the run-by-run reference. */
  lemma {:induction false} SubIsWordMap(rule: Rule, t: string)
    requires IsWordRule(rule)
    ensures Sub(rule, t) == WordMap(RewriteFn(rule), t)
  {
    WordRuleTable(rule, t);
    ScanIsWordMap(Hits(rule, t), t, RewriteFn(rule), MatchesFn(rule), 0);
    assert t[0..] == t;
  }

  /** A whole-run rule matches nowhere exactly when it accepts no run. */
  lemma {:induction false} NoMatchIffNoRun(rule: Rule, t: string)
    requires IsWordRule(rule)
    ensures NoMatch(rule, t) <==> NoRun(MatchesFn(rule), t)
  {
    var hits := Hits(rule, t);
    WordRuleTable(rule, t);
    NoHitIffNoRun(hits, t, RewriteFn(rule), MatchesFn(rule), 0);
    assert t[0..] == t;
    assert NoHit(hits, 0, |t|) <==> NoMatch(rule, t);
  }

  /** A whole word that is not all digits never matches a run of digits. */
  predicate SparesDigitRuns(rule: Rule) {
    rule.WholeWord? ==> !AllDigits(rule.word)
  }

  /** A whole word rewritten to digits and separators. */
  predicate OutputsDigits(rule: Rule) {
    rule.WholeWord? ==> DigitsAndSeparators(rule.repl)
  }

  lemma {:induction false} RuleChangesOnly(rule: Rule)
    ensures ChangesOnly(RewriteFn(rule), MatchesFn(rule))
  {
  }

  lemma {:induction false} HourMinuteWritesDigits(x: string)
    requires IsHourMinuteWord(x)
    ensures DigitsAndSeparators(RewriteWord(HourMinute, x))
  {
    var y := RewriteWord(HourMinute, x);
    assert forall k | 0 <= k < |y| :: y[k] == ':' || IsDigit(y[k]);
  }

  lemma {:induction false} HourOnlyWritesDigits(x: string)
    requires IsHourOnlyWord(x)
    ensures DigitsAndSeparators(RewriteWord(HourOnly, x))
  {
    var y := RewriteWord(HourOnly, x);
    assert forall k | 0 <= k < |y| :: y[k] == ':' || IsDigit(y[k]);
  }

  lemma {:induction false} RuleWritesDigits(rule: Rule)
    requires IsWordRule(rule) && OutputsDigits(rule)
    ensures WritesDigits(RewriteFn(rule), MatchesFn(rule))
  {
    forall x | AllWord(x) && RunMatches(rule, x) ensures DigitsAndSeparators(RewriteWord(rule, x)) {
      if rule.HourMinute? {
        HourMinuteWritesDigits(x);
      } else if rule.HourOnly? {
        HourOnlyWritesDigits(x);
      }
    }
  }

  lemma {:induction false} RuleSparesDigits(rule: Rule)
    requires IsWordRule(rule) && SparesDigitRuns(rule)
    ensures SparesDigits(MatchesFn(rule))
  {
    forall x | AllDigits(x) ensures !RunMatches(rule, x) {
      match rule
      case WholeWord(w, _) =>
        if |x| == |w| {
          var k :| 0 <= k < |w| && !IsDigit(w[k]);
          assert IsDigit(Fold(x[k])) && !IsDigit(Fold(w[k]));
        }
      case HourMinute =>
        if |x| == 4 || |x| == 5 {
          assert IsDigit(x[|x| - 3]);
        }
      case HourOnly =>
        if |x| == 2 || |x| == 3 {
          assert IsDigit(x[|x| - 1]);
        }
    }
  }

  /** A rule that writes digits and separators matches nowhere in its own output. */
  lemma {:induction false} NoMatchAfterSub(rule: Rule, t: string)
    requires IsWordRule(rule) && OutputsDigits(rule) && SparesDigitRuns(rule)
    ensures NoMatch(rule, Sub(rule, t))
  {
    SubIsWordMap(rule, t);
    RuleWritesDigits(rule);
    RuleSparesDigits(rule);
    WordMapLeavesNoRun(RewriteFn(rule), MatchesFn(rule), t);
    NoMatchIffNoRun(rule, Sub(rule, t));
  }

  /** Applying such a rule twice is applying it once. */
  lemma {:induction false} SubIdempotent(rule: Rule, t: string)
    requires IsWordRule(rule) && OutputsDigits(rule) && SparesDigitRuns(rule)
    ensures Sub(rule, Sub(rule, t)) == Sub(rule, t)
  {
    NoMatchAfterSub(rule, t);
  }

  /** A rule that writes digits and separators creates no match for a rule that
      spares digit runs. */
  lemma {:induction false} SubKeepsNoMatch(rule: Rule, other: Rule, t: string)
    requires IsWordRule(rule) && OutputsDigits(rule)
    requires IsWordRule(other) && SparesDigitRuns(other) && NoMatch(other, t)
    ensures NoMatch(other, Sub(rule, t))
  {
    SubIsWordMap(rule, t);
    RuleWritesDigits(rule);
    RuleSparesDigits(other);
    NoMatchIffNoRun(other, t);
    WordMapKeepsNoRun(RewriteFn(rule), MatchesFn(rule), MatchesFn(other), t);
    NoMatchIffNoRun(other, Sub(rule, t));
  }
}
