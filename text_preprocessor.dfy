/** The text normaliser that runs before the prompt is built
    (src/infrastructure/processors/text_preprocessor.py). `preprocess` collapses
    whitespace, replaces the Portuguese relative-date words `hoje`, `ontem` and
    `anteontem` (today, yesterday, the day before yesterday) with `YYYY-MM-DD` dates,
    rewrites the time forms `14h30` and `14h` and drops `às` ("at") before a time,
    respaces `,` `;` and `.`, and strips the result.

    The dates are fixed when the object is built, from `datetime.now()`; here that
    moment's date is the constructor's parameter `today`. */
module TextPreprocessing {
  import opened Wrappers
  import opened PyStr
  import opened Calendar
  import opened Rewrite
  import opened ScanFacts

  // ---------------------------------------------------------------------------
  // `_normalize_whitespace`: `re.sub(r"\s+", " ", text.strip())`.
  // ---------------------------------------------------------------------------

  function NormalizeWhitespace(text: string): (r: string)
    ensures r == JoinSpaced(Words(text))
  {
    SpaceRunJoinsWords(text);
    Sub(SpaceRun, Strip(text))
  }

  /** A character that is not whitespace. */
  predicate IsText(c: char) {
    !IsSpace(c)
  }

  /** No whitespace at either end. */
  predicate Trimmed(s: string) {
    s == [] || (!IsSpace(s[0]) && !IsSpace(s[|s| - 1]))
  }

  lemma {:induction false} SpaceScanStep(t: string, i: nat)
    requires i < |t|
    ensures var hits := Hits(SpaceRun, t); var n := SpacesFrom(t, i);
      && (IsSpace(t[i]) ==>
            0 < n && Scan(hits, t, i) == [' '] + Scan(hits, t, i + n) && (i + n < |t| ==> !IsSpace(t[i + n])))
      && (!IsSpace(t[i]) ==> Scan(hits, t, i) == [t[i]] + Scan(hits, t, i + 1))
  {
    var hits := Hits(SpaceRun, t);
    assert hits[i] == MatchAt(SpaceRun, t, i);
  }

  lemma {:induction false} SpaceScanHead(t: string, i: nat)
    requires i < |t|
    ensures var r := Scan(Hits(SpaceRun, t), t, i); r != [] && (IsSpace(r[0]) <==> IsSpace(t[i]))
  {
    SpaceScanStep(t, i);
  }

  lemma {:induction false} SingleSpacedCons(c: char, r: string)
    requires SingleSpaced(r)
    requires IsSpace(c) ==> c == ' ' && (r == [] || !IsSpace(r[0]))
    ensures SingleSpaced([c] + r)
  {
    var s := [c] + r;
    forall k | 0 <= k < |s| && IsSpace(s[k]) ensures s[k] == ' ' && (k + 1 < |s| ==> !IsSpace(s[k + 1])) {
      if k > 0 {
        assert s[k] == r[k - 1];
      }
    }
  }

  lemma {:induction false} SpaceScanSingleHit(t: string, i: nat)
    requires i < |t| && IsSpace(t[i])
    requires SingleSpaced(Scan(Hits(SpaceRun, t), t, i + SpacesFrom(t, i)))
    ensures SingleSpaced(Scan(Hits(SpaceRun, t), t, i))
  {
    var n := SpacesFrom(t, i);
    SpaceScanStep(t, i);
    if i + n < |t| {
      SpaceScanHead(t, i + n);
    }
    SingleSpacedCons(' ', Scan(Hits(SpaceRun, t), t, i + n));
  }

  lemma {:induction false} SpaceScanSingleCopy(t: string, i: nat)
    requires i < |t| && !IsSpace(t[i])
    requires SingleSpaced(Scan(Hits(SpaceRun, t), t, i + 1))
    ensures SingleSpaced(Scan(Hits(SpaceRun, t), t, i))
  {
    SpaceScanStep(t, i);
    SingleSpacedCons(t[i], Scan(Hits(SpaceRun, t), t, i + 1));
  }

  /** The scan of `\s+` leaves single spaces only. */
  lemma {:induction false} SpaceScanSingle(t: string, i: nat)
    requires i <= |t|
    ensures SingleSpaced(Scan(Hits(SpaceRun, t), t, i))
    decreases |t| - i
  {
    if i < |t| {
      if IsSpace(t[i]) {
        SpaceScanStep(t, i);
        SpaceScanSingle(t, i + SpacesFrom(t, i));
        SpaceScanSingleHit(t, i);
      } else {
        SpaceScanSingle(t, i + 1);
        SpaceScanSingleCopy(t, i);
      }
    }
  }

  /** Text that ends in a non-space character scans to text that does too. */
  lemma {:induction false} SpaceScanLast(t: string, i: nat)
    requires i < |t| && !IsSpace(t[|t| - 1])
    ensures var r := Scan(Hits(SpaceRun, t), t, i); r != [] && !IsSpace(r[|r| - 1])
  {
    var hits := Hits(SpaceRun, t);
    forall p | i <= p < |t| && hits[p].Some? ensures p + hits[p].value.len < |t| {
      assert hits[p] == MatchAt(SpaceRun, t, p);
    }
    ScanKeepsLast(hits, t, i);
  }

  /** Single-spaced text scans to itself. */
  lemma {:induction false} SpaceScanOfSingle(t: string, i: nat)
    requires SingleSpaced(t) && i <= |t|
    ensures Scan(Hits(SpaceRun, t), t, i) == t[i..]
    decreases |t| - i
  {
    if i < |t| {
      SpaceScanStep(t, i);
      if IsSpace(t[i]) {
        var n := SpacesFrom(t, i);
        assert i + 1 < |t| ==> !IsSpace(t[i + 1]);
        assert n == 1;
      }
      SpaceScanOfSingle(t, i + 1);
      assert t[i..] == [t[i]] + t[i + 1..];
    } else {
      assert t[i..] == [];
    }
  }

  /** After `_normalize_whitespace` every whitespace run is one space and neither end
      has whitespace. */
  lemma {:induction false} WhitespaceCollapsed(text: string)
    ensures var r := NormalizeWhitespace(text); SingleSpaced(r) && Trimmed(r)
  {
    var s := Strip(text);
    SpaceScanSingle(s, 0);
    if s != [] {
      SpaceScanHead(s, 0);
      SpaceScanLast(s, 0);
    }
  }

  lemma {:induction false} StripKeepsText(text: string)
    ensures Filter(IsText, Strip(text)) == Filter(IsText, text)
  {
    var s := Strip(text);
    var a := LeadingSpaces(text);
    FilterTrimmedEnds(IsText, text, a, a + |s|);
  }

  /** `_normalize_whitespace` keeps every non-whitespace character, in order. */
  lemma {:induction false} WhitespaceKeepsText(text: string)
    ensures Filter(IsText, NormalizeWhitespace(text)) == Filter(IsText, text)
  {
    var s := Strip(text);
    var hits := Hits(SpaceRun, s);
    forall p | 0 <= p < |s| && hits[p].Some?
      ensures Dropped(IsText, s[p..p + hits[p].value.len]) && Dropped(IsText, hits[p].value.out)
    {
      assert hits[p] == MatchAt(SpaceRun, s, p);
      var seg := s[p..p + SpacesFrom(s, p)];
      forall k | 0 <= k < |seg| ensures !IsText(seg[k]) {
        assert seg[k] == s[p + k];
      }
    }
    ScanFilter(hits, s, IsText, 0);
    assert s[0..] == s;
    StripKeepsText(text);
  }

  /** The result is empty exactly when the text is all whitespace. */
  lemma {:induction false} WhitespaceEmptyIff(text: string)
    ensures NormalizeWhitespace(text) == [] <==> AllSpace(text)
  {
    var s := Strip(text);
    if s != [] {
      SpaceScanHead(s, 0);
    }
    StripEmptyIffAllSpace(text);
  }

  lemma {:induction false} WhitespaceIdempotent(text: string)
    ensures NormalizeWhitespace(NormalizeWhitespace(text)) == NormalizeWhitespace(text)
  {
    WhitespaceCollapsed(text);
    WhitespaceOfSpaced(NormalizeWhitespace(text));
  }

  /** Text that is already single-spaced and trimmed is left as it is. */
  lemma {:induction false} WhitespaceOfSpaced(t: string)
    requires SingleSpaced(t) && Trimmed(t)
    ensures NormalizeWhitespace(t) == t
  {
    StripTrimmed(t);
    SpaceScanOfSingle(t, 0);
    assert t[0..] == t;
  }

  // ---------------------------------------------------------------------------
  // A reference for `_normalize_whitespace`: `" ".join(text.split())`.
  // ---------------------------------------------------------------------------

  /** The number of non-whitespace characters at the start of `s`. */
  function TextRun(s: string): (n: nat)
    ensures n <= |s|
    ensures forall k | 0 <= k < n :: !IsSpace(s[k])
    ensures n < |s| ==> IsSpace(s[n])
  {
    if s == [] || IsSpace(s[0]) then 0
    else
      var n := 1 + TextRun(s[1..]);
      assert forall k | 1 <= k < n :: s[k] == s[1..][k - 1];
      n
  }

  /** `str.split()`: the maximal runs of non-whitespace characters of `s`, in order. */
  function Words(s: string): seq<string>
    decreases |s|
  {
    if s == [] then []
    else if IsSpace(s[0]) then Words(s[1..])
    else
      var n := TextRun(s);
      [s[..n]] + Words(s[n..])
  }

  /** `" ".join(words)`. */
  function JoinSpaced(words: seq<string>): string
    decreases |words|
  {
    if words == [] then []
    else if |words| == 1 then words[0]
    else words[0] + " " + JoinSpaced(words[1..])
  }

  lemma {:induction false} TextRunUnique(s: string, n: nat)
    requires n <= |s|
    requires forall k | 0 <= k < n :: !IsSpace(s[k])
    requires n < |s| ==> IsSpace(s[n])
    ensures TextRun(s) == n
  {
  }

  /** Leading whitespace does not change the words. */
  lemma {:induction false} WordsSkipSpaces(s: string, m: nat)
    requires m <= |s| && forall k | 0 <= k < m :: IsSpace(s[k])
    ensures Words(s) == Words(s[m..])
    decreases m
  {
    if m == 0 {
      assert s[0..] == s;
    } else {
      assert IsSpace(s[0]);
      assert forall k | 0 <= k < m - 1 :: s[1..][k] == s[k + 1];
      WordsSkipSpaces(s[1..], m - 1);
      assert s[1..][m - 1..] == s[m..];
    }
  }

  /** Trailing whitespace does not change the words. */
  lemma {:induction false} WordsDropTrailing(x: string, y: string)
    requires AllSpace(y)
    ensures Words(x + y) == Words(x)
    decreases |x|
  {
    var s := x + y;
    if x == [] {
      assert s == y;
      WordsSkipSpaces(y, |y|);
      assert y[|y|..] == [];
    } else if IsSpace(x[0]) {
      assert s[0] == x[0] && s[1..] == x[1..] + y;
      WordsDropTrailing(x[1..], y);
    } else {
      var n := TextRun(x);
      assert s[0] == x[0];
      assert forall k | 0 <= k < n :: s[k] == x[k];
      assert n < |s| ==> IsSpace(s[n]) by {
        if n < |x| {
          assert s[n] == x[n];
        } else if n < |s| {
          assert s[n] == y[0];
        }
      }
      TextRunUnique(s, n);
      assert s[..n] == x[..n];
      assert s[n..] == x[n..] + y;
      WordsDropTrailing(x[n..], y);
    }
  }

  lemma {:induction false} JoinSpacedCons(w: string, ws: seq<string>)
    requires ws != []
    ensures JoinSpaced([w] + ws) == w + " " + JoinSpaced(ws)
  {
    assert ([w] + ws)[1..] == ws;
  }

  /** Where the run of non-whitespace characters starting at `i` ends. */
  function RunFrom(s: string, i: nat): (j: nat)
    requires i <= |s|
    ensures i <= j <= |s|
    ensures forall k | i <= k < j :: !IsSpace(s[k])
    ensures j < |s| ==> IsSpace(s[j])
    decreases |s| - i
  {
    if i < |s| && !IsSpace(s[i]) then RunFrom(s, i + 1) else i
  }

  /** `s[i..].split()`, read off `s` from index `i`. */
  function WordsFrom(s: string, i: nat): seq<string>
    requires i <= |s|
    decreases |s| - i
  {
    if i == |s| then []
    else if IsSpace(s[i]) then WordsFrom(s, i + 1)
    else
      var j := RunFrom(s, i);
      [s[i..j]] + WordsFrom(s, j)
  }

  lemma {:induction false} WordsFromSuffix(s: string, i: nat)
    requires i <= |s|
    ensures WordsFrom(s, i) == Words(s[i..])
    decreases |s| - i
  {
    var u := s[i..];
    if i < |s| {
      assert u[0] == s[i];
      if IsSpace(s[i]) {
        assert u[1..] == s[i + 1..];
        WordsFromSuffix(s, i + 1);
      } else {
        var j := RunFrom(s, i);
        WordsOfRunAt(s, i, j);
        WordsFromSuffix(s, j);
      }
    }
  }

  /** The words of `s[i..]` when a word of `s` runs from `i` to `j`. */
  lemma WordsOfRunAt(s: string, i: nat, j: nat)
    requires i < j <= |s|
    requires forall k | i <= k < j :: !IsSpace(s[k])
    requires j < |s| ==> IsSpace(s[j])
    ensures Words(s[i..]) == [s[i..j]] + Words(s[j..])
  {
    var u := s[i..];
    assert u[0] == s[i];
    assert forall k | 0 <= k < j - i :: u[k] == s[i + k];
    assert j - i < |u| ==> u[j - i] == s[j];
    TextRunUnique(u, j - i);
    assert u[..j - i] == s[i..j];
    assert u[j - i..] == s[j..];
  }

  /** Leading whitespace from `j` on does not change the words. */
  lemma {:induction false} WordsFromSkip(s: string, j: nat, k: nat)
    requires j <= k <= |s| && forall q | j <= q < k :: IsSpace(s[q])
    ensures WordsFrom(s, j) == WordsFrom(s, k)
    decreases k - j
  {
    if j < k {
      WordsFromSkip(s, j + 1, k);
    }
  }

  /** The scan of `\s+` copies a word. */
  lemma {:induction false} SpaceScanCopiesRun(s: string, i: nat)
    requires i < |s|
    ensures Scan(Hits(SpaceRun, s), s, i) == s[i..RunFrom(s, i)] + Scan(Hits(SpaceRun, s), s, RunFrom(s, i))
  {
    var hits := Hits(SpaceRun, s);
    var j := RunFrom(s, i);
    forall p | i <= p < j ensures hits[p].None? {
      assert !IsSpace(s[p]);
    }
    assert NoHit(hits, i, j);
    ScanCopies(hits, s, i, j);
  }

  /** The gap after a word, when a word follows: the scan writes one space. */
  lemma {:induction false} SpaceScanGap(s: string, j: nat) returns (k: nat)
    requires j < |s| && IsSpace(s[j]) && !IsSpace(s[|s| - 1])
    ensures j < k < |s| && !IsSpace(s[k])
    ensures Scan(Hits(SpaceRun, s), s, j) == " " + Scan(Hits(SpaceRun, s), s, k)
    ensures WordsFrom(s, j) == WordsFrom(s, k)
  {
    k := j + SpacesFrom(s, j);
    SpaceScanStep(s, j);
    WordsFromSkip(s, j, k);
  }

  /** From the start of a word of text that ends in a non-space character, the scan of
      `\s+` writes the words from there on joined by single spaces. */
  lemma {:induction false} SpaceScanJoins(s: string, i: nat)
    requires i < |s| && !IsSpace(s[i]) && !IsSpace(s[|s| - 1])
    ensures Scan(Hits(SpaceRun, s), s, i) == JoinSpaced(WordsFrom(s, i))
    decreases |s| - i
  {
    var hits := Hits(SpaceRun, s);
    var j := RunFrom(s, i);
    var w := s[i..j];
    SpaceScanCopiesRun(s, i);
    assert WordsFrom(s, i) == [w] + WordsFrom(s, j);
    if j == |s| {
      assert WordsFrom(s, j) == [];
      assert Scan(hits, s, j) == [];
      assert [w] + [] == [w] && w + [] == w;
    } else {
      var k := SpaceScanGap(s, j);
      SpaceScanJoins(s, k);
      assert WordsFrom(s, k) != [];
      JoinSpacedCons(w, WordsFrom(s, k));
      Regroup3(w, " ", Scan(hits, s, k));
    }
  }

  /** `_normalize_whitespace(text)` is `" ".join(text.split())`: the words of the text,
      in order, separated by single spaces. */
  lemma {:induction false} SpaceRunJoinsWords(text: string)
    ensures Sub(SpaceRun, Strip(text)) == JoinSpaced(Words(text))
  {
    var s := Strip(text);
    WordsOfStripped(text);
    WordsFromSuffix(s, 0);
    assert s[0..] == s;
    if s != [] {
      SpaceScanJoins(s, 0);
    }
  }

  /** `str.strip()` does not change the words. */
  lemma {:induction false} WordsOfStripped(text: string)
    ensures Words(Strip(text)) == Words(text)
  {
    var a := LeadingSpaces(text);
    var tail := StripTail(text);
    WordsSkipSpaces(text, a);
    WordsDropTrailing(Strip(text), tail);
  }

  /** After the leading whitespace, the text is its stripped form and the trailing
      whitespace. */
  lemma StripTail(text: string) returns (tail: string)
    ensures text[LeadingSpaces(text)..] == Strip(text) + tail && AllSpace(tail)
  {
    var s := Strip(text);
    var a := LeadingSpaces(text);
    tail := text[a + |s|..];
    assert text[a..] == s + tail;
    forall k | 0 <= k < |tail| ensures IsSpace(tail[k]) {
      assert tail[k] == text[a + |s| + k];
    }
  }

  // ---------------------------------------------------------------------------
  // A list of patterns applied one after the other, as the loops of
  // `_normalize_relative_dates` and `_normalize_time_formats` do.
  // ---------------------------------------------------------------------------

  function ApplyAll(rules: seq<Rule>, t: string): string
    decreases |rules|
  {
    if rules == [] then t else ApplyAll(rules[1..], Sub(rules[0], t))
  }

  lemma {:induction false} ApplyAllStep(rules: seq<Rule>, i: nat, t: string)
    requires i < |rules|
    ensures ApplyAll(rules[i..], t) == ApplyAll(rules[i + 1..], Sub(rules[i], t))
  {
    assert rules[i..][1..] == rules[i + 1..];
  }

  lemma {:induction false} ApplyAllAppend(a: seq<Rule>, b: seq<Rule>, t: string)
    ensures ApplyAll(a + b, t) == ApplyAll(b, ApplyAll(a, t))
    decreases |a|
  {
    if a == [] {
      assert a + b == b;
    } else {
      assert (a + b)[1..] == a[1..] + b;
      ApplyAllAppend(a[1..], b, Sub(a[0], t));
    }
  }

  /** A whole-run rule that writes digits and separators and never matches a digit run:
      such rules cannot feed each other. */
  predicate DigitWordRule(rule: Rule) {
    IsWordRule(rule) && OutputsDigits(rule) && SparesDigitRuns(rule)
  }

  predicate AllDigitWordRules(rules: seq<Rule>) {
    forall k | 0 <= k < |rules| :: DigitWordRule(rules[k])
  }

  /** What the first rule of `rules` that matches the run `x` makes of it. */
  function FirstRewrite(rules: seq<Rule>, x: string): string
    decreases |rules|
  {
    if rules == [] then x
    else if RunMatches(rules[0], x) then RewriteWord(rules[0], x)
    else FirstRewrite(rules[1..], x)
  }

  predicate AnyMatches(rules: seq<Rule>, x: string)
    decreases |rules|
  {
    rules != [] && (RunMatches(rules[0], x) || AnyMatches(rules[1..], x))
  }

  function FirstRewriteFn(rules: seq<Rule>): string -> string {
    x => FirstRewrite(rules, x)
  }

  function AnyMatchesFn(rules: seq<Rule>): string -> bool {
    x => AnyMatches(rules, x)
  }

  lemma {:induction false} FirstRewriteOfNoMatch(rules: seq<Rule>, x: string)
    requires !AnyMatches(rules, x)
    ensures FirstRewrite(rules, x) == x
    decreases |rules|
  {
    if rules != [] {
      FirstRewriteOfNoMatch(rules[1..], x);
    }
  }

  lemma {:induction false} NoRuleMatchesDigits(rules: seq<Rule>, x: string)
    requires AllDigitWordRules(rules) && AllDigits(x)
    ensures !AnyMatches(rules, x)
    decreases |rules|
  {
    if rules != [] {
      RuleSparesDigits(rules[0]);
      assert !MatchesFn(rules[0])(x);
      assert AllDigitWordRules(rules[1..]) by {
        forall k | 0 <= k < |rules| - 1 ensures DigitWordRule(rules[1..][k]) {
          assert rules[1..][k] == rules[k + 1];
        }
      }
      NoRuleMatchesDigits(rules[1..], x);
    }
  }

  lemma {:induction false} TailDigitWordRules(rules: seq<Rule>)
    requires rules != [] && AllDigitWordRules(rules)
    ensures AllDigitWordRules(rules[1..])
  {
    forall k | 0 <= k < |rules| - 1 ensures DigitWordRule(rules[1..][k]) {
      assert rules[1..][k] == rules[k + 1];
    }
  }

  /** Applying the rules one after another rewrites each run with the first rule that
      matches it: no rule's output holds a run a later rule matches. */
  lemma {:induction false} ApplyAllIsWordMap(rules: seq<Rule>, t: string)
    requires AllDigitWordRules(rules)
    ensures ApplyAll(rules, t) == WordMap(FirstRewriteFn(rules), t)
    decreases |rules|
  {
    if rules == [] {
      WordMapIdentity(FirstRewriteFn(rules), t);
    } else {
      var r := rules[0];
      var rest := rules[1..];
      TailDigitWordRules(rules);
      ApplyAllIsWordMap(rest, Sub(r, t));
      SubIsWordMap(r, t);
      RuleChangesOnly(r);
      RuleWritesDigits(r);
      forall x | AllWord(x) && !AnyMatchesFn(rest)(x) ensures FirstRewriteFn(rest)(x) == x {
        FirstRewriteOfNoMatch(rest, x);
      }
      forall x | AllDigits(x) ensures !AnyMatchesFn(rest)(x) {
        NoRuleMatchesDigits(rest, x);
      }
      WordMapCompose(RewriteFn(r), MatchesFn(r), FirstRewriteFn(rest), AnyMatchesFn(rest), FirstRewriteFn(rules), t);
    }
  }

  lemma {:induction false} ApplyAllKeeps(rules: seq<Rule>, other: Rule, t: string)
    requires AllDigitWordRules(rules) && DigitWordRule(other) && NoMatch(other, t)
    ensures NoMatch(other, ApplyAll(rules, t))
    decreases |rules|
  {
    if rules != [] {
      SubKeepsNoMatch(rules[0], other, t);
      TailDigitWordRules(rules);
      ApplyAllKeeps(rules[1..], other, Sub(rules[0], t));
    }
  }

  /** After the rules have run, none of them matches anywhere. */
  lemma {:induction false} ApplyAllClears(rules: seq<Rule>, t: string)
    requires AllDigitWordRules(rules)
    ensures forall k | 0 <= k < |rules| :: NoMatch(rules[k], ApplyAll(rules, t))
    decreases |rules|
  {
    if rules != [] {
      var u := Sub(rules[0], t);
      NoMatchAfterSub(rules[0], t);
      TailDigitWordRules(rules);
      ApplyAllKeeps(rules[1..], rules[0], u);
      ApplyAllClears(rules[1..], u);
      forall k | 1 <= k < |rules| ensures NoMatch(rules[k], ApplyAll(rules, t)) {
        assert rules[k] == rules[1..][k - 1];
      }
    }
  }

  lemma {:induction false} ApplyAllOfNoMatch(rules: seq<Rule>, t: string)
    requires forall k | 0 <= k < |rules| :: NoMatch(rules[k], t)
    ensures ApplyAll(rules, t) == t
    decreases |rules|
  {
    if rules != [] {
      forall k | 0 <= k < |rules| - 1 ensures NoMatch(rules[1..][k], t) {
        assert rules[1..][k] == rules[k + 1];
      }
      ApplyAllOfNoMatch(rules[1..], t);
    }
  }

  lemma {:induction false} ApplyAllIdempotent(rules: seq<Rule>, t: string)
    requires AllDigitWordRules(rules)
    ensures ApplyAll(rules, ApplyAll(rules, t)) == ApplyAll(rules, t)
  {
    ApplyAllClears(rules, t);
    ApplyAllOfNoMatch(rules, ApplyAll(rules, t));
  }

  // ---------------------------------------------------------------------------
  // Relative dates: the `_relative_dates` table and `_normalize_relative_dates`.
  // ---------------------------------------------------------------------------

  /** `today` has two days before it, so the table can be built. */
  predicate TodayOk(today: Date) {
    ValidDate(today) && !IsFirstDay(today) && !IsFirstDay(PreviousDay(today))
  }

  /** `today - timedelta(days=n)`. */
  function DaysBack(today: Date, n: nat): (d: Date)
    requires TodayOk(today) && n <= 2
    ensures ValidDate(d) && Ordinal(d) == Ordinal(today) - n
  {
    if n == 0 then today
    else if n == 1 then PreviousDay(today)
    else PreviousDay(PreviousDay(today))
  }

  const RelativeWords: seq<string> := ["hoje", "ontem", "anteontem"]

  /** The `_relative_dates` dict, in its insertion order: the n-th word maps to the
      date n days before `today`, as `strftime("%Y-%m-%d")` writes it. */
  function RelativeDates(today: Date): (table: seq<(string, string)>)
    requires TodayOk(today)
    ensures |table| == 3
    ensures forall k | 0 <= k < 3 :: table[k] == (RelativeWords[k], FormatDate(DaysBack(today, k)))
  {
    [("hoje", FormatDate(today)),
     ("ontem", FormatDate(PreviousDay(today))),
     ("anteontem", FormatDate(PreviousDay(PreviousDay(today))))]
  }

  /** `re.sub(rf"\b{re.escape(word)}\b", date, text, flags=re.IGNORECASE)`. */
  function DateRule(entry: (string, string)): Rule {
    WholeWord(entry.0, entry.1)
  }

  function DateRules(table: seq<(string, string)>): (rules: seq<Rule>)
    ensures |rules| == |table| && forall k | 0 <= k < |table| :: rules[k] == DateRule(table[k])
  {
    seq(|table|, k requires 0 <= k < |table| => DateRule(table[k]))
  }

  lemma {:induction false} DateRuleIsDigitWordRule(w: string, d: Date)
    requires ValidDate(d) && 0 < |w| && AllWord(w) && !IsDigit(w[0])
    ensures DigitWordRule(WholeWord(w, FormatDate(d)))
  {
    assert !IsWordChar('-');
  }

  /** The patterns the table gives, one per word, in the dict's order. */
  lemma {:induction false} RelativeDateRulesAre(today: Date)
    requires TodayOk(today)
    ensures DateRules(RelativeDates(today)) == [
      WholeWord("hoje", FormatDate(DaysBack(today, 0))),
      WholeWord("ontem", FormatDate(DaysBack(today, 1))),
      WholeWord("anteontem", FormatDate(DaysBack(today, 2)))]
  {
  }

  lemma {:induction false} RelativeWordsAreWords()
    ensures forall k | 0 <= k < 3 :: 0 < |RelativeWords[k]| && AllWord(RelativeWords[k]) && !IsDigit(RelativeWords[k][0])
  {
    var w := "anteontem";
    assert IsWordChar('a') && IsWordChar('n') && IsWordChar('t') && IsWordChar('e') && IsWordChar('o');
    assert IsWordChar('m') && IsWordChar('h') && IsWordChar('j');
    assert forall i | 0 <= i < |w| :: w[i] in "anteom";
    assert AllWord(w);
  }

  lemma {:induction false} RelativeDateRules(today: Date)
    requires TodayOk(today)
    ensures AllDigitWordRules(DateRules(RelativeDates(today)))
  {
    RelativeDateRulesAre(today);
    RelativeWordsAreWords();
    var rules := DateRules(RelativeDates(today));
    forall k | 0 <= k < 3 ensures DigitWordRule(rules[k]) {
      DateRuleIsDigitWordRule(RelativeWords[k], DaysBack(today, k));
    }
  }

  lemma {:induction false} FirstRewriteOfThree(r0: Rule, r1: Rule, r2: Rule, x: string)
    ensures FirstRewrite([r0, r1, r2], x) ==
      if RunMatches(r0, x) then RewriteWord(r0, x)
      else if RunMatches(r1, x) then RewriteWord(r1, x)
      else if RunMatches(r2, x) then RewriteWord(r2, x)
      else x
  {
    var rules := [r0, r1, r2];
    assert rules[1..] == [r1, r2] && [r1, r2][1..] == [r2] && [r2][1..] == [];
    assert FirstRewrite([r2], x) == if RunMatches(r2, x) then RewriteWord(r2, x) else FirstRewrite([], x);
    assert FirstRewrite([r1, r2], x) == if RunMatches(r1, x) then RewriteWord(r1, x) else FirstRewrite([r2], x);
  }

  /** The reference: a run of word characters that equals one of the words, ignoring
      case, becomes that word's date; every other run stays. */
  function RelativeDate(today: Date, x: string): string
    requires TodayOk(today)
  {
    if FoldEq(x, "hoje") then FormatDate(today)
    else if FoldEq(x, "ontem") then FormatDate(DaysBack(today, 1))
    else if FoldEq(x, "anteontem") then FormatDate(DaysBack(today, 2))
    else x
  }

  lemma {:induction false} RelativeDateLookup(today: Date, x: string)
    requires TodayOk(today)
    ensures FirstRewrite(DateRules(RelativeDates(today)), x) == RelativeDate(today, x)
  {
    RelativeDateRulesAre(today);
    FirstRewriteOfThree(WholeWord("hoje", FormatDate(DaysBack(today, 0))),
                        WholeWord("ontem", FormatDate(DaysBack(today, 1))),
                        WholeWord("anteontem", FormatDate(DaysBack(today, 2))), x);
  }

  /** `_normalize_relative_dates` replaces each whole-word occurrence of a relative-date
      word, in any case, by its date, and nothing else. */
  lemma {:induction false} RelativeDatesAsWordMap(today: Date, t: string)
    requires TodayOk(today)
    ensures ApplyAll(DateRules(RelativeDates(today)), t) == WordMap(x => RelativeDate(today, x), t)
  {
    var rules := DateRules(RelativeDates(today));
    RelativeDateRules(today);
    ApplyAllIsWordMap(rules, t);
    forall x | AllWord(x) ensures FirstRewriteFn(rules)(x) == RelativeDate(today, x) {
      RelativeDateLookup(today, x);
    }
    WordMapCongruent(FirstRewriteFn(rules), x => RelativeDate(today, x), t);
  }

  /** No relative-date word is left as a whole word, and running the step again
      changes nothing. */
  lemma {:induction false} RelativeDatesCleared(today: Date, t: string)
    requires TodayOk(today)
    ensures var rules := DateRules(RelativeDates(today)); var r := ApplyAll(rules, t);
      && (forall k | 0 <= k < |rules| :: NoMatch(rules[k], r))
      && ApplyAll(rules, r) == r
  {
    var rules := DateRules(RelativeDates(today));
    RelativeDateRules(today);
    ApplyAllClears(rules, t);
    ApplyAllIdempotent(rules, t);
  }

  // ---------------------------------------------------------------------------
  // Times: `_normalize_time_formats`.
  // ---------------------------------------------------------------------------

  const TimeRules: seq<Rule> := [HourMinute, HourOnly, AtTime, AtHour]

  /** The reference for the first two time patterns: a run `D{1,2}hDD` becomes
      `D{1,2}:DD`, a run `D{1,2}h` becomes `D{1,2}:00`, every other run stays. */
  function TimeWord(x: string): string {
    if IsHourMinuteWord(x) then x[..|x| - 3] + ":" + x[|x| - 2..]
    else if IsHourOnlyWord(x) then x[..|x| - 1] + ":00"
    else x
  }

  lemma {:induction false} HourRulesLookup(x: string)
    ensures FirstRewrite([HourMinute, HourOnly], x) == TimeWord(x)
  {
    var rules := [HourMinute, HourOnly];
    assert rules[1..] == [HourOnly] && rules[1..][1..] == [];
  }

  lemma {:induction false} HourRulesAsWordMap(t: string)
    ensures ApplyAll(TimeRules[..2], t) == WordMap(TimeWord, t)
  {
    var rules := TimeRules[..2];
    assert rules == [HourMinute, HourOnly];
    ApplyAllIsWordMap(rules, t);
    forall x | AllWord(x) ensures FirstRewriteFn(rules)(x) == TimeWord(x) {
      HourRulesLookup(x);
    }
    WordMapCongruent(FirstRewriteFn(rules), TimeWord, t);
  }

  /** The four time patterns: the first two as the run reference, then `às` before an
      `H:MM` time, then `às` before an `Hh` time. */
  lemma {:induction false} TimeFormatsSteps(t: string)
    ensures ApplyAll(TimeRules, t) == Sub(AtHour, Sub(AtTime, WordMap(TimeWord, t)))
  {
    assert TimeRules == TimeRules[..2] + [AtTime, AtHour];
    ApplyAllAppend(TimeRules[..2], [AtTime, AtHour], t);
    HourRulesAsWordMap(t);
    var u := WordMap(TimeWord, t);
    assert [AtTime, AtHour][1..] == [AtHour];
    assert ApplyAll([AtTime, AtHour], u) == ApplyAll([AtHour], Sub(AtTime, u));
  }

  /** A match of `\bàs\s+(\d{1,2})h\b` contains a match of `\b(\d{1,2})h\b` where its
      digits start. */
  lemma {:induction false} AtHourContainsHourOnly(t: string, i: nat)
    requires i < |t| && MatchAt(AtHour, t, i).Some?
    ensures var p := i + 2 + SpacesFrom(t, i + 2); p < |t| && MatchAt(HourOnly, t, p).Some?
  {
    var p := i + 2 + SpacesFrom(t, i + 2);
    assert IsSpace(t[p - 1]) && !IsWordAt(t, p - 1);
  }

  lemma {:induction false} AtHourNeedsHourOnly(t: string)
    requires NoMatch(HourOnly, t)
    ensures NoMatch(AtHour, t)
  {
    forall i | 0 <= i < |t| ensures MatchAt(AtHour, t, i).None? {
      if MatchAt(AtHour, t, i).Some? {
        AtHourContainsHourOnly(t, i);
      }
    }
  }

  /** Once `\b(\d{1,2})h\b` has run, the last pattern finds nothing left to match. */
  lemma {:induction false} AtHourAfterHourOnly(t: string)
    ensures var u := ApplyAll(TimeRules[..2], t);
      NoMatch(HourMinute, u) && NoMatch(HourOnly, u) && NoMatch(AtHour, u)
  {
    var rules := TimeRules[..2];
    assert rules == [HourMinute, HourOnly];
    ApplyAllClears(rules, t);
    assert NoMatch(rules[1], ApplyAll(rules, t));
    AtHourNeedsHourOnly(ApplyAll(rules, t));
  }

  // ---------------------------------------------------------------------------
  // Punctuation: `_clean_punctuation`.
  // ---------------------------------------------------------------------------

  function CleanedPunctuation(t: string): (r: string)
    ensures Filter(IsMark, r) == MapChars(MarkOf, Filter(IsMark, t))
    ensures OneSpaceAfter(r, ',') && OneSpaceAfter(r, '.')
    ensures Lacks(r, ';')
  {
    PunctuationMarks(t);
    PunctuationSpaced(t);
    PunctuationNoSemicolon(t);
    Sub(Period, Sub(CommaOrSemicolon, t))
  }

  /** A character the punctuation step neither consumes nor writes. */
  predicate IsProse(c: char) {
    !IsSpace(c) && c != ',' && c != ';' && c != '.'
  }

  lemma {:induction false} PunctuationHitsDrop(rule: Rule, t: string)
    requires rule.CommaOrSemicolon? || rule.Period?
    ensures HitsDrop(Hits(rule, t), t, IsProse, 0)
  {
    var hits := Hits(rule, t);
    forall p | 0 <= p < |t| && hits[p].Some?
      ensures Dropped(IsProse, t[p..p + hits[p].value.len]) && Dropped(IsProse, hits[p].value.out)
    {
      assert hits[p] == MatchAt(rule, t, p);
      var seg := t[p..p + hits[p].value.len];
      forall k | 0 <= k < |seg| ensures !IsProse(seg[k]) {
        assert seg[k] == t[p + k];
      }
    }
  }

  /** `_clean_punctuation` keeps every character other than whitespace, `,`, `;` and `.`,
      in order. */
  lemma {:induction false} PunctuationKeepsProse(t: string)
    ensures Filter(IsProse, CleanedPunctuation(t)) == Filter(IsProse, t)
  {
    var u := Sub(CommaOrSemicolon, t);
    PunctuationHitsDrop(CommaOrSemicolon, t);
    ScanFilter(Hits(CommaOrSemicolon, t), t, IsProse, 0);
    PunctuationHitsDrop(Period, u);
    ScanFilter(Hits(Period, u), u, IsProse, 0);
    assert t[0..] == t && u[0..] == u;
  }

  /** A mark the punctuation step respaces. */
  predicate IsMark(c: char) {
    c == ',' || c == ';' || c == '.'
  }

  /** The mark written in place of a mark: a semicolon becomes a comma. */
  function MarkOf(c: char): char {
    if c == ';' then ',' else c
  }

  /** Of a mark and the whitespace after it, only the mark is a mark. */
  lemma {:induction false} MarkSegment(t: string, p: nat, len: nat)
    requires 0 < len && p + len <= |t| && IsMark(t[p])
    requires forall k | p < k < p + len :: IsSpace(t[k])
    ensures Filter(IsMark, t[p..p + len]) == [t[p]]
  {
    var gap := t[p + 1..p + len];
    assert t[p..p + len] == [t[p]] + gap;
    FilterAppend(IsMark, [t[p]], gap);
    FilterOne(IsMark, t[p]);
    forall k | 0 <= k < |gap| ensures !IsMark(gap[k]) {
      assert gap[k] == t[p + 1 + k];
    }
    FilterDropped(IsMark, gap);
  }

  lemma {:induction false} WrittenMarks(mark: char)
    requires IsMark(mark)
    ensures Filter(IsMark, [mark, ' ']) == [mark]
  {
    assert [mark, ' '] == [mark] + [' '];
    FilterAppend(IsMark, [mark], [' ']);
    FilterOne(IsMark, mark);
    FilterOne(IsMark, ' ');
  }

  /** What a punctuation pattern matches: the mark and all the whitespace after it. */
  lemma {:induction false} PunctuationHit(rule: Rule, t: string, p: nat)
    requires rule.CommaOrSemicolon? || rule.Period?
    requires p < |t| && MatchAt(rule, t, p).Some?
    ensures var h := MatchAt(rule, t, p).value; var q := p + h.len;
      && IsMark(t[p]) && (rule.Period? <==> t[p] == '.')
      && h.len == 1 + SpacesFrom(t, p + 1)
      && h.out == [if rule.Period? then '.' else ',', ' ']
      && (forall k | p < k < q :: IsSpace(t[k]))
      && (q < |t| ==> !IsSpace(t[q]))
  {
  }

  /** A punctuation match writes, of marks, the image of the mark it consumed. */
  lemma {:induction false} PunctuationHitMarks(rule: Rule, t: string, p: nat)
    requires rule.CommaOrSemicolon? || rule.Period?
    requires p < |t| && MatchAt(rule, t, p).Some?
    ensures var h := MatchAt(rule, t, p).value;
      p + h.len <= |t| && Filter(IsMark, h.out) == MapChars(MarkOf, Filter(IsMark, t[p..p + h.len]))
  {
    var h := MatchAt(rule, t, p).value;
    PunctuationHit(rule, t, p);
    MarkSegment(t, p, h.len);
    WrittenMarks(h.out[0]);
    assert MapChars(MarkOf, [t[p]]) == [MarkOf(t[p])];
  }

  /** `[,;]\s*` -> `", "`: the marks are kept in order, semicolons written as commas. */
  lemma {:induction false} CommaRuleMarks(t: string)
    ensures Filter(IsMark, Sub(CommaOrSemicolon, t)) == MapChars(MarkOf, Filter(IsMark, t))
  {
    var hits := Hits(CommaOrSemicolon, t);
    forall p | 0 <= p < |t| && hits[p].Some?
      ensures Filter(IsMark, hits[p].value.out) == MapChars(MarkOf, Filter(IsMark, t[p..p + hits[p].value.len]))
    {
      PunctuationHitMarks(CommaOrSemicolon, t, p);
    }
    forall p | 0 <= p < |t| && hits[p].None? && IsMark(t[p]) ensures MarkOf(t[p]) == t[p] {
      assert hits[p] == MatchAt(CommaOrSemicolon, t, p);
    }
    assert HitsMap(hits, t, IsMark, MarkOf, 0);
    ScanFilterMap(hits, t, IsMark, MarkOf, 0);
    assert t[0..] == t;
  }

  /** `\.\s*` -> `". "` keeps the marks of text without semicolons. */
  lemma {:induction false} PeriodRuleMarks(u: string)
    requires Lacks(u, ';')
    ensures Filter(IsMark, Sub(Period, u)) == MapChars(MarkOf, Filter(IsMark, u))
  {
    var hits := Hits(Period, u);
    forall p | 0 <= p < |u| && hits[p].Some?
      ensures Filter(IsMark, hits[p].value.out) == MapChars(MarkOf, Filter(IsMark, u[p..p + hits[p].value.len]))
    {
      PunctuationHitMarks(Period, u, p);
    }
    forall p | 0 <= p < |u| && hits[p].None? && IsMark(u[p]) ensures MarkOf(u[p]) == u[p] {
      assert u[p] != ';';
    }
    assert HitsMap(hits, u, IsMark, MarkOf, 0);
    ScanFilterMap(hits, u, IsMark, MarkOf, 0);
    assert u[0..] == u;
  }

  lemma MarkOfTwice(s: string)
    ensures MapChars(MarkOf, MapChars(MarkOf, s)) == MapChars(MarkOf, s)
  {
    var once := MapChars(MarkOf, s);
    assert forall k | 0 <= k < |s| :: MapChars(MarkOf, once)[k] == MarkOf(MarkOf(s[k])) == once[k];
  }

  lemma {:induction false} CommaRuleLacksSemicolon(t: string)
    ensures Lacks(Sub(CommaOrSemicolon, t), ';')
  {
    var hc := Hits(CommaOrSemicolon, t);
    forall p | 0 <= p < |t| ensures if hc[p].Some? then Lacks(hc[p].value.out, ';') else t[p] != ';' {
      assert hc[p] == MatchAt(CommaOrSemicolon, t, p);
    }
    ScanLacks(hc, t, ';', 0);
  }

  /** Semicolons become commas: none is left. */
  lemma {:induction false} PunctuationNoSemicolon(t: string)
    ensures Lacks(Sub(Period, Sub(CommaOrSemicolon, t)), ';')
  {
    CommaRuleLacksSemicolon(t);
    var u := Sub(CommaOrSemicolon, t);
    var hp := Hits(Period, u);
    forall p | 0 <= p < |u| ensures if hp[p].Some? then Lacks(hp[p].value.out, ';') else u[p] != ';' {
      assert hp[p] == MatchAt(Period, u, p);
    }
    ScanLacks(hp, u, ';', 0);
  }

  /** `_clean_punctuation` keeps the marks `,` `;` `.` of the text in order, writing each
      semicolon as a comma. */
  lemma {:induction false} PunctuationMarks(t: string)
    ensures Filter(IsMark, Sub(Period, Sub(CommaOrSemicolon, t))) == MapChars(MarkOf, Filter(IsMark, t))
  {
    var u := Sub(CommaOrSemicolon, t);
    CommaRuleMarks(t);
    CommaRuleLacksSemicolon(t);
    PeriodRuleMarks(u);
    MarkOfTwice(Filter(IsMark, t));
  }

  /** A match of a punctuation pattern is followed by text whose emission starts with a
      non-space character. */
  lemma {:induction false} PunctuationHeadAfter(rule: Rule, t: string, p: nat)
    requires rule.CommaOrSemicolon? || rule.Period?
    requires p < |t| && MatchAt(rule, t, p).Some?
    ensures var hits := Hits(rule, t); HeadAt(hits, t, p + hits[p].value.len)
  {
    var hits := Hits(rule, t);
    PunctuationHit(rule, t, p);
    var q := p + hits[p].value.len;
    if q < |t| && hits[q].Some? {
      PunctuationHit(rule, t, q);
    }
  }

  lemma ClosedOnceWritten(mark: char, c: char)
    requires mark != ' ' && c != ' '
    ensures ClosedOnce([mark, ' '], c)
  {
  }

  /** A match of a punctuation pattern writes a mark and one space, and the text after
      it starts with neither whitespace nor a match that writes whitespace. */
  lemma PunctuationHitSpaced(rule: Rule, t: string, p: nat, c: char)
    requires rule.CommaOrSemicolon? || rule.Period?
    requires c != ' ' && p < |t| && Hits(rule, t)[p].Some?
    ensures var hits := Hits(rule, t);
      ClosedOnce(hits[p].value.out, c) && HeadAt(hits, t, p + hits[p].value.len)
  {
    assert Hits(rule, t)[p] == MatchAt(rule, t, p);
    PunctuationHit(rule, t, p);
    PunctuationHeadAfter(rule, t, p);
    ClosedOnceWritten(if rule.Period? then '.' else ',', c);
  }

  /** In text where every comma is followed by one space and a non-space, `\s*\.\s*` does
      not match at a comma, at the space after it, or at what follows in a way that
      writes whitespace. */
  lemma CommaPastPeriodRule(u: string, p: nat)
    requires OneSpaceAfter(u, ',') && p < |u| && u[p] == ','
    ensures var hp := Hits(Period, u);
      p + 1 < |u| && u[p + 1] == ' ' && hp[p + 1].None? && HeadAt(hp, u, p + 2)
  {
    var hp := Hits(Period, u);
    assert hp[p + 1] == MatchAt(Period, u, p + 1);
    if p + 2 < |u| && hp[p + 2].Some? {
      PunctuationHit(Period, u, p + 2);
    }
  }

  lemma {:induction false} CommaRuleSpaced(t: string)
    ensures OneSpaceAfter(Sub(CommaOrSemicolon, t), ',')
  {
    var hc := Hits(CommaOrSemicolon, t);
    forall p | 0 <= p < |t| && hc[p].Some?
      ensures ClosedOnce(hc[p].value.out, ',') && HeadAt(hc, t, p + hc[p].value.len)
    {
      PunctuationHitSpaced(CommaOrSemicolon, t, p, ',');
    }
    forall p | 0 <= p < |t| && hc[p].None? ensures t[p] != ',' {
      assert hc[p] == MatchAt(CommaOrSemicolon, t, p);
    }
    assert SpacedOnce(hc, t, ',', 0);
    ScanOneSpaceAfter(hc, t, ',', 0);
  }

  lemma {:induction false} PeriodRuleKeepsCommaSpaced(u: string)
    requires OneSpaceAfter(u, ',')
    ensures OneSpaceAfter(Sub(Period, u), ',')
  {
    var hp := Hits(Period, u);
    forall p | 0 <= p < |u| && hp[p].Some?
      ensures ClosedOnce(hp[p].value.out, ',') && HeadAt(hp, u, p + hp[p].value.len)
    {
      PunctuationHitSpaced(Period, u, p, ',');
    }
    forall p | 0 <= p < |u| && hp[p].None? && u[p] == ','
      ensures p + 1 < |u| && u[p + 1] == ' ' && hp[p + 1].None? && HeadAt(hp, u, p + 2)
    {
      CommaPastPeriodRule(u, p);
    }
    assert SpacedOnce(hp, u, ',', 0);
    ScanOneSpaceAfter(hp, u, ',', 0);
  }

  lemma {:induction false} PeriodRuleSpaced(u: string)
    ensures OneSpaceAfter(Sub(Period, u), '.')
  {
    var hp := Hits(Period, u);
    forall p | 0 <= p < |u| && hp[p].Some?
      ensures ClosedOnce(hp[p].value.out, '.') && HeadAt(hp, u, p + hp[p].value.len)
    {
      PunctuationHitSpaced(Period, u, p, '.');
    }
    forall p | 0 <= p < |u| && hp[p].None? ensures u[p] != '.' {
      assert hp[p] == MatchAt(Period, u, p);
    }
    assert SpacedOnce(hp, u, '.', 0);
    ScanOneSpaceAfter(hp, u, '.', 0);
  }

  /** Every comma and every period is followed by exactly one space, and then by a
      non-space character or the end. */
  lemma {:induction false} PunctuationSpaced(t: string)
    ensures var r := Sub(Period, Sub(CommaOrSemicolon, t)); OneSpaceAfter(r, ',') && OneSpaceAfter(r, '.')
  {
    CommaRuleSpaced(t);
    PeriodRuleKeepsCommaSpaced(Sub(CommaOrSemicolon, t));
    PeriodRuleSpaced(Sub(CommaOrSemicolon, t));
  }

  // ---------------------------------------------------------------------------
  // Spacing through the substitutions after `_normalize_whitespace`.
  // ---------------------------------------------------------------------------

  predicate NoSpace(s: string) {
    forall k | 0 <= k < |s| :: !IsSpace(s[k])
  }

  /** A date or time rule: every replacement it writes is non-empty text without
      whitespace. */
  predicate WritesText(rule: Rule) {
    match rule
    case WholeWord(_, repl) => repl != [] && NoSpace(repl)
    case HourMinute => true
    case HourOnly => true
    case AtTime => true
    case AtHour => true
    case _ => false
  }

  lemma {:induction false} SliceHasNoSpace(t: string, i: nat, j: nat)
    requires i <= j <= |t| && forall k | i <= k < j :: !IsSpace(t[k])
    ensures NoSpace(t[i..j])
  {
    forall k | 0 <= k < j - i ensures !IsSpace(t[i..j][k]) {
      assert t[i..j][k] == t[i + k];
    }
  }

  lemma {:induction false} NoSpaceAppend(a: string, b: string)
    requires NoSpace(a) && NoSpace(b)
    ensures NoSpace(a + b)
  {
    forall k | 0 <= k < |a + b| ensures !IsSpace((a + b)[k]) {
      if k < |a| {
        assert (a + b)[k] == a[k];
      } else {
        assert (a + b)[k] == b[k - |a|];
      }
    }
  }

  /** Digits, then a suffix without whitespace. */
  lemma {:induction false} DigitsThen(t: string, i: nat, k: nat, suffix: string)
    requires i + k <= |t| && forall q | i <= q < i + k :: IsDigit(t[q])
    requires NoSpace(suffix)
    ensures NoSpace(t[i..i + k] + suffix)
  {
    SliceHasNoSpace(t, i, i + k);
    NoSpaceAppend(t[i..i + k], suffix);
  }

  lemma {:induction false} HourMinuteHitText(t: string, i: nat)
    requires i < |t| && MatchAt(HourMinute, t, i).Some?
    ensures var out := MatchAt(HourMinute, t, i).value.out; out != [] && NoSpace(out)
  {
    var k := LeadDigits(t, i);
    var minutes := t[i + k + 1..i + k + 3];
    SliceHasNoSpace(t, i + k + 1, i + k + 3);
    NoSpaceAppend(":", minutes);
    DigitsThen(t, i, k, ":" + minutes);
    assert t[i..i + k] + ":" + minutes == t[i..i + k] + (":" + minutes);
  }

  lemma {:induction false} AtTimeHitText(t: string, i: nat)
    requires i < |t| && MatchAt(AtTime, t, i).Some?
    ensures var out := MatchAt(AtTime, t, i).value.out; out != [] && NoSpace(out)
  {
    var p := i + 2 + SpacesFrom(t, i + 2);
    var k := LeadDigits(t, p);
    assert forall q | p <= q < p + k + 3 :: IsDigit(t[q]) || t[q] == ':';
    SliceHasNoSpace(t, p, p + k + 3);
  }

  /** What a date or time rule writes at a match has no whitespace. */
  lemma {:induction false} TextRuleHit(rule: Rule, t: string, i: nat)
    requires WritesText(rule) && i < |t| && MatchAt(rule, t, i).Some?
    ensures var out := MatchAt(rule, t, i).value.out; out != [] && NoSpace(out)
  {
    match rule
    case WholeWord(_, _) =>
    case HourMinute =>
      HourMinuteHitText(t, i);
    case HourOnly =>
      DigitsThen(t, i, LeadDigits(t, i), ":00");
    case AtTime =>
      AtTimeHitText(t, i);
    case AtHour =>
      var p := i + 2 + SpacesFrom(t, i + 2);
      DigitsThen(t, p, LeadDigits(t, p), ":00");
  }

  /** A date or time rule keeps single-spaced text single-spaced. */
  lemma {:induction false} TextRuleSingleSpaced(rule: Rule, t: string)
    requires WritesText(rule) && SingleSpaced(t)
    ensures SingleSpaced(Sub(rule, t))
  {
    var hits := Hits(rule, t);
    forall p | 0 <= p < |t| && hits[p].Some?
      ensures var out := hits[p].value.out;
        out != [] && !IsSpace(out[0]) && SingleSpaced(out) && !IsSpace(out[|out| - 1])
    {
      TextRuleHit(rule, t, p);
    }
    assert WritesSpaced(hits, t, 0);
    ScanSingleSpaced(hits, t, 0);
  }

  lemma {:induction false} ApplyAllSingleSpaced(rules: seq<Rule>, t: string)
    requires SingleSpaced(t) && forall k | 0 <= k < |rules| :: WritesText(rules[k])
    ensures SingleSpaced(ApplyAll(rules, t))
    decreases |rules|
  {
    if rules != [] {
      TextRuleSingleSpaced(rules[0], t);
      assert forall k | 0 <= k < |rules| - 1 :: rules[1..][k] == rules[k + 1];
      ApplyAllSingleSpaced(rules[1..], Sub(rules[0], t));
    }
  }

  lemma {:induction false} FormatDateHasNoSpace(d: Date)
    requires ValidDate(d)
    ensures NoSpace(FormatDate(d))
  {
    var s := FormatDate(d);
    forall k | 0 <= k < |s| ensures !IsSpace(s[k]) {
      assert IsDigit(s[k]) || s[k] == '-';
    }
  }

  lemma {:induction false} DateRulesWriteText(today: Date)
    requires TodayOk(today)
    ensures var rules := DateRules(RelativeDates(today)); forall k | 0 <= k < |rules| :: WritesText(rules[k])
  {
    RelativeDateRulesAre(today);
    FormatDateHasNoSpace(DaysBack(today, 0));
    FormatDateHasNoSpace(DaysBack(today, 1));
    FormatDateHasNoSpace(DaysBack(today, 2));
  }

  lemma {:induction false} TimeRulesWriteText()
    ensures forall k | 0 <= k < |TimeRules| :: WritesText(TimeRules[k])
  {
    assert TimeRules == [HourMinute, HourOnly, AtTime, AtHour];
  }

  /** The punctuation step keeps single-spaced text single-spaced. */
  lemma {:induction false} PunctuationRuleSingleSpaced(rule: Rule, t: string)
    requires rule.CommaOrSemicolon? || rule.Period?
    requires SingleSpaced(t)
    ensures SingleSpaced(Sub(rule, t))
  {
    var hits := Hits(rule, t);
    forall p | 0 <= p < |t| && hits[p].Some?
      ensures var out := hits[p].value.out;
        && out != [] && !IsSpace(out[0]) && SingleSpaced(out)
        && (IsSpace(out[|out| - 1]) ==> HeadAt(hits, t, p + hits[p].value.len))
    {
      PunctuationHit(rule, t, p);
      PunctuationHeadAfter(rule, t, p);
    }
    assert WritesSpaced(hits, t, 0);
    ScanSingleSpaced(hits, t, 0);
  }

  // ---------------------------------------------------------------------------
  // `preprocess` and the class.
  // ---------------------------------------------------------------------------

  /** The four steps in their fixed order, then `strip()`. */
  function Preprocessed(table: seq<(string, string)>, text: string): (r: string)
    ensures Trimmed(r)
    ensures Lacks(r, ';')
  {
    var spaced := NormalizeWhitespace(text);
    var dated := ApplyAll(DateRules(table), spaced);
    var timed := ApplyAll(TimeRules, dated);
    var cleaned := CleanedPunctuation(timed);
    StripLacks(cleaned, ';');
    Strip(cleaned)
  }

  /** With the table built for `today`, `preprocess` is the composition of the step
      references. */
  lemma {:induction false} PreprocessedSteps(today: Date, text: string)
    requires TodayOk(today)
    ensures var dated := WordMap(x => RelativeDate(today, x), NormalizeWhitespace(text));
      Preprocessed(RelativeDates(today), text)
        == Strip(CleanedPunctuation(Sub(AtHour, Sub(AtTime, WordMap(TimeWord, dated)))))
  {
    RelativeDatesAsWordMap(today, NormalizeWhitespace(text));
    TimeFormatsSteps(ApplyAll(DateRules(RelativeDates(today)), NormalizeWhitespace(text)));
  }

  /** `preprocess` returns text in which every whitespace character is a single space
      between two non-space characters. */
  lemma {:induction false} PreprocessedSpacing(today: Date, text: string)
    requires TodayOk(today)
    ensures var r := Preprocessed(RelativeDates(today), text); SingleSpaced(r) && Trimmed(r)
  {
    var rules := DateRules(RelativeDates(today));
    var s0 := NormalizeWhitespace(text);
    var s1 := ApplyAll(rules, s0);
    var s2 := ApplyAll(TimeRules, s1);
    var s3 := CleanedPunctuation(s2);
    assert SingleSpaced(s1) by {
      WhitespaceCollapsed(text);
      DateRulesWriteText(today);
      ApplyAllSingleSpaced(rules, s0);
    }
    assert SingleSpaced(s2) by {
      TimeRulesWriteText();
      ApplyAllSingleSpaced(TimeRules, s1);
    }
    assert SingleSpaced(s3) by {
      PunctuationRuleSingleSpaced(CommaOrSemicolon, s2);
      PunctuationRuleSingleSpaced(Period, Sub(CommaOrSemicolon, s2));
    }
    StripSpacing(s3);
  }

  lemma {:induction false} StripSpacing(s: string)
    requires SingleSpaced(s)
    ensures SingleSpaced(Strip(s)) && Trimmed(Strip(s))
  {
    var a := LeadingSpaces(s);
    SingleSpacedSlice(s, a, a + |Strip(s)|);
  }

  // ---------------------------------------------------------------------------
  // The examples of tests/unit/test_text_preprocessor.py.
  // ---------------------------------------------------------------------------

  /** Two runs separated by one space are rewritten one by one. */
  lemma {:induction false} WordMapTwo(f: string -> string, a: string, b: string)
    requires AllWord(a) && AllWord(b)
    ensures WordMap(f, a + " " + b) == f(a) + " " + f(b)
  {
    assert a + " " + b == a + [' '] + b;
    WordMapCut(f, a, ' ', b);
    WordMapOfWord(f, a);
    WordMapOfWord(f, b);
  }

  /** Text without `,` `;` `.` passes the punctuation step unchanged. */
  lemma {:induction false} PunctuationOfUnmarked(t: string)
    requires Unmarked(t)
    ensures CleanedPunctuation(t) == t
  {
    assert NoMatch(CommaOrSemicolon, t);
    assert NoMatch(Period, t);
  }

  /** `s` has no `,`, `;` or `.`. */
  predicate Unmarked(s: string) {
    forall k | 0 <= k < |s| :: !IsMark(s[k])
  }

  /** Where a punctuation pattern can start a match: `[,;]` or `\.`. */
  predicate Opens(rule: Rule, c: char) {
    if rule.Period? then c == '.' else c == ',' || c == ';'
  }

  /** Each punctuation pattern looks only forward from where it starts, so scanning the
      text from `d` on is substituting in the suffix from `d`. */
  lemma {:induction false} PunctuationSuffix(rule: Rule, t: string, d: nat)
    requires rule.CommaOrSemicolon? || rule.Period?
    requires d <= |t|
    ensures Scan(Hits(rule, t), t, d) == Sub(rule, t[d..])
  {
    var u := t[d..];
    forall p | 0 <= p < |u| ensures Hits(rule, u)[p] == Hits(rule, t)[p + d] {
      PunctuationMatchShift(rule, t, d, p);
    }
    ScanShift(Hits(rule, t), t, Hits(rule, u), u, d, d);
  }

  /** A punctuation pattern matches in a suffix as it matches at the same place in the
      whole text. */
  lemma {:induction false} PunctuationMatchShift(rule: Rule, t: string, d: nat, p: nat)
    requires rule.CommaOrSemicolon? || rule.Period?
    requires d + p < |t|
    ensures MatchAt(rule, t[d..], p) == MatchAt(rule, t, p + d)
  {
    var u := t[d..];
    assert u[p] == t[p + d];
    var n := SpacesFrom(t, p + d + 1);
    assert forall k | p + 1 <= k < p + 1 + n :: u[k] == t[k + d];
    SpacesFromIs(u, p + 1, n);
  }

  /** A punctuation pattern finds no match in a prefix in which it cannot start. */
  lemma {:induction false} PunctuationNoHit(rule: Rule, t: string, n: nat)
    requires rule.CommaOrSemicolon? || rule.Period?
    requires n <= |t| && forall k {:trigger Opens(rule, t[k])} | 0 <= k < n :: !Opens(rule, t[k])
    ensures NoHit(Hits(rule, t), 0, n)
  {
    var hits := Hits(rule, t);
    forall p | 0 <= p < n ensures hits[p].None? {
      assert !Opens(rule, t[p]);
      assert hits[p] == MatchAt(rule, t, p);
    }
  }

  /** A punctuation pattern copies a prefix in which it cannot start. */
  lemma {:induction false} PunctuationCopies(rule: Rule, t: string, n: nat)
    requires rule.CommaOrSemicolon? || rule.Period?
    requires n <= |t| && forall k {:trigger Opens(rule, t[k])} | 0 <= k < n :: !Opens(rule, t[k])
    ensures Sub(rule, t) == t[..n] + Scan(Hits(rule, t), t, n)
  {
    PunctuationNoHit(rule, t, n);
    ScanCopies(Hits(rule, t), t, 0, n);
    assert t[0..n] == t[..n];
  }

  /** What a punctuation pattern writes for a mark and the whitespace after it. */
  function MarkReplacement(rule: Rule): string {
    if rule.Period? then ". " else ", "
  }

  /** A punctuation pattern at a mark followed by `n` whitespace characters consumes them
      all and writes the mark and one space. */
  lemma {:induction false} PunctuationMatch(rule: Rule, t: string, i: nat, n: nat)
    requires rule.CommaOrSemicolon? || rule.Period?
    requires i + 1 + n <= |t| && Opens(rule, t[i])
    requires forall k | i + 1 <= k < i + 1 + n :: IsSpace(t[k])
    requires i + 1 + n < |t| ==> !IsSpace(t[i + 1 + n])
    ensures Hits(rule, t)[i] == Some(Hit(1 + n, MarkReplacement(rule)))
  {
    SpacesFromIs(t, i + 1, n);
    assert Hits(rule, t)[i] == MatchAt(rule, t, i);
  }

  /** The first place in `t` where a punctuation pattern can start is `i`, and `n`
      whitespace characters follow it. */
  predicate FirstMarkRun(rule: Rule, t: string, i: nat, n: nat) {
    && i + 1 + n <= |t| && Opens(rule, t[i])
    && (forall k {:trigger Opens(rule, t[k])} | 0 <= k < i :: !Opens(rule, t[k]))
    && (forall k | i + 1 <= k < i + 1 + n :: IsSpace(t[k]))
    && (i + 1 + n < |t| ==> !IsSpace(t[i + 1 + n]))
  }

  /** A punctuation pattern at the first place `i` where it can start: the text before `i`
      is copied, the mark and the `n` whitespace characters after it are replaced, and the
      scan resumes after them. */
  lemma {:induction false} PunctuationFirstHit(rule: Rule, t: string, i: nat, n: nat)
    requires rule.CommaOrSemicolon? || rule.Period?
    requires FirstMarkRun(rule, t, i, n)
    ensures Sub(rule, t) == t[..i] + (MarkReplacement(rule) + Scan(Hits(rule, t), t, i + 1 + n))
  {
    PunctuationNoHit(rule, t, i);
    PunctuationMatch(rule, t, i, n);
    PunctuationScanFirst(rule, t, i, n);
  }

  /** The scan of a punctuation pattern whose first match is at `i` and spans `1 + n`
      characters. */
  lemma PunctuationScanFirst(rule: Rule, t: string, i: nat, n: nat)
    requires i < |t| && NoHit(Hits(rule, t), 0, i)
    requires Hits(rule, t)[i] == Some(Hit(1 + n, MarkReplacement(rule)))
    ensures Sub(rule, t) == t[..i] + (MarkReplacement(rule) + Scan(Hits(rule, t), t, i + 1 + n))
  {
    ScanFirstHit(Hits(rule, t), t, i, n, MarkReplacement(rule));
  }

  /** Once the scan has reached the end of the first match, after the mark at `i` and the
      `n` whitespace characters that follow it, the rest of the text is substituted on
      its own. */
  lemma {:induction false} PunctuationRest(rule: Rule, t: string, i: nat, n: nat, pre: string, rest: string)
    requires rule.CommaOrSemicolon? || rule.Period?
    requires i + 1 + n <= |t| && t[..i] == pre && t[i + 1 + n..] == rest
    requires Sub(rule, t) == t[..i] + (MarkReplacement(rule) + Scan(Hits(rule, t), t, i + 1 + n))
    ensures Sub(rule, t) == pre + MarkReplacement(rule) + Sub(rule, rest)
  {
    PunctuationSuffix(rule, t, i + 1 + n);
    Regroup3(pre, MarkReplacement(rule), Sub(rule, rest));
  }

  /** A punctuation pattern at the first place `i` where it can start: the text before `i`
      is copied, the mark and the `n` whitespace characters after it become `mark`, and
      the rest is substituted on its own. */
  lemma {:induction false} PunctuationAt(rule: Rule, t: string, i: nat, n: nat, pre: string, rest: string)
    requires rule.CommaOrSemicolon? || rule.Period?
    requires FirstMarkRun(rule, t, i, n) && t[..i] == pre && t[i + 1 + n..] == rest
    ensures Sub(rule, t) == pre + MarkReplacement(rule) + Sub(rule, rest)
  {
    PunctuationFirstHit(rule, t, i, n);
    PunctuationRest(rule, t, i, n, pre, rest);
  }

  /** `[,;]\s*` at the first mark, a `,` or `;`: the text before it is copied, the mark
      and the whitespace after it become `", "`, and the rest is substituted on its own. */
  lemma {:induction false} CommaRuleAtComma(a: string, m: char, b: string)
    requires Unmarked(a) && (m == ',' || m == ';')
    ensures Sub(CommaOrSemicolon, a + [m] + b) == a + ", " + Sub(CommaOrSemicolon, b[LeadingSpaces(b)..])
  {
    var L := LeadingSpaces(b);
    CommaMarkRun(a, m, b);
    TakeBeforeMark(a, m, b);
    DropPastMark(a, m, b, L);
    PunctuationAt(CommaOrSemicolon, a + [m] + b, |a|, L, a, b[L..]);
  }

  /** In `a + [m] + b`, with no mark in `a` and `m` a `,` or `;`, the first place `[,;]\s*`
      can start is `m`, followed by the leading whitespace of `b`. */
  lemma CommaMarkRun(a: string, m: char, b: string)
    requires Unmarked(a) && (m == ',' || m == ';')
    ensures FirstMarkRun(CommaOrSemicolon, a + [m] + b, |a|, LeadingSpaces(b))
  {
    var t := a + [m] + b;
    var i := |a|;
    var L := LeadingSpaces(b);
    assert forall k | 0 <= k < i :: t[k] == a[k];
    assert forall k | i + 1 <= k < i + 1 + L :: t[k] == b[k - i - 1];
    assert i + 1 + L < |t| ==> t[i + 1 + L] == b[L];
  }

  /** `\.\s*` over what the comma pass wrote for the first mark: `a` and `", "` are
      copied, and the rest is substituted on its own. */
  lemma {:induction false} PeriodRuleAfterComma(a: string, v: string)
    requires Unmarked(a)
    ensures Sub(Period, a + ", " + v) == a + ", " + Sub(Period, v)
  {
    var u := a + ", " + v;
    var n := |a| + 2;
    assert u[..n] == a + ", " && u[n..] == v;
    assert forall k | 0 <= k < n :: !Opens(Period, u[k]) by {
      forall k | 0 <= k < n ensures !Opens(Period, u[k]) {
        if k < |a| {
          assert u[k] == a[k];
        } else {
          assert u[k] == (a + ", ")[k];
        }
      }
    }
    PunctuationCopies(Period, u, n);
    PunctuationSuffix(Period, u, n);
  }

  /** `[,;]\s*` when the first mark is a `.`: everything up to the whitespace after it is
      copied, and the rest is substituted on its own. */
  lemma {:induction false} CommaRuleAtPeriod(a: string, b: string)
    requires Unmarked(a)
    ensures Sub(CommaOrSemicolon, a + ['.'] + b)
      == a + ['.'] + b[..LeadingSpaces(b)] + Sub(CommaOrSemicolon, b[LeadingSpaces(b)..])
  {
    var t := a + ['.'] + b;
    var n := |a| + 1;
    assert t[..n] == a + ['.'] && t[n..] == b;
    assert forall k | 0 <= k < n :: !Opens(CommaOrSemicolon, t[k]) by {
      forall k | 0 <= k < n ensures !Opens(CommaOrSemicolon, t[k]) {
        if k < |a| {
          assert t[k] == a[k];
        }
      }
    }
    PunctuationCopies(CommaOrSemicolon, t, n);
    PunctuationSuffix(CommaOrSemicolon, t, n);
    var L := LeadingSpaces(b);
    PunctuationCopies(CommaOrSemicolon, b, L);
    PunctuationSuffix(CommaOrSemicolon, b, L);
    Regroup3(a + ['.'], b[..L], Sub(CommaOrSemicolon, b[L..]));
  }

  /** `\.\s*` at the first mark, a `.` followed by the whitespace `w`: the text before it
      is copied, the `.` and `w` become `". "`, and the rest is substituted on its own. */
  lemma {:induction false} PeriodRuleAtPeriod(a: string, w: string, v: string)
    requires Unmarked(a) && AllSpace(w) && (v == [] || !IsSpace(v[0]))
    ensures Sub(Period, a + ['.'] + w + v) == a + ". " + Sub(Period, v)
  {
    PeriodMarkRun(a, w, v);
    AroundMarkRun(a, '.', w, v);
    PunctuationAt(Period, a + ['.'] + w + v, |a|, |w|, a, v);
  }

  /** In `a + ['.'] + w + v`, with no mark in `a`, `w` all whitespace and `v` not starting
      with whitespace, the first place `\.\s*` can start is the `.`, followed by `w`. */
  lemma PeriodMarkRun(a: string, w: string, v: string)
    requires Unmarked(a) && AllSpace(w) && (v == [] || !IsSpace(v[0]))
    ensures FirstMarkRun(Period, a + ['.'] + w + v, |a|, |w|)
  {
    var u := a + ['.'] + w + v;
    var i := |a|;
    assert forall k | 0 <= k < i :: u[k] == a[k];
    assert forall k | i + 1 <= k < i + 1 + |w| :: u[k] == w[k - i - 1];
    assert i + 1 + |w| < |u| ==> u[i + 1 + |w|] == v[0];
  }

  /** The comma pass does not start its output with whitespace when the text does not. */
  lemma {:induction false} CommaRuleHead(s: string)
    requires s == [] || !IsSpace(s[0])
    ensures var r := Sub(CommaOrSemicolon, s); r == [] || !IsSpace(r[0])
  {
    if s != [] {
      var hits := Hits(CommaOrSemicolon, s);
      assert hits[0] == MatchAt(CommaOrSemicolon, s, 0);
      match hits[0]
      case Some(h) =>
        assert Sub(CommaOrSemicolon, s) == h.out + Scan(hits, s, h.len);
      case None =>
        assert Sub(CommaOrSemicolon, s) == [s[0]] + Scan(hits, s, 1);
    }
  }

  /** `_clean_punctuation` at the first mark of the text: everything before the mark is
      kept as it is, the mark (a `;` turned into `,`) and the whitespace after it become
      the mark and one space, and the rest is cleaned on its own. With
      `PunctuationOfUnmarked` this fixes the result of the step for every text. */
  lemma {:induction false} PunctuationAtMark(a: string, m: char, b: string)
    requires Unmarked(a) && IsMark(m)
    ensures CleanedPunctuation(a + [m] + b)
      == a + [MarkOf(m), ' '] + CleanedPunctuation(b[LeadingSpaces(b)..])
  {
    var L := LeadingSpaces(b);
    var rest := b[L..];
    if m == '.' {
      CommaRuleAtPeriod(a, b);
      CommaRuleHead(rest);
      PeriodRuleAtPeriod(a, b[..L], Sub(CommaOrSemicolon, rest));
      assert [MarkOf(m), ' '] == ". ";
    } else {
      CommaRuleAtComma(a, m, b);
      PeriodRuleAfterComma(a, Sub(CommaOrSemicolon, rest));
      assert [MarkOf(m), ' '] == ", ";
    }
  }

  /** A run that starts with a digit is no relative-date word. */
  lemma {:induction false} RelativeDateOfDigits(today: Date, x: string)
    requires TodayOk(today) && x != [] && IsDigit(x[0])
    ensures RelativeDate(today, x) == x
  {
    assert Fold(x[0]) == x[0];
  }

  /** A time `H:MM` or `HH:MM` has no whitespace, no `à` and no mark. */
  lemma {:induction false} ClockIsPlain(time: string)
    requires IsClock(time)
    ensures Trimmed(time) && NoSpace(time)
    ensures forall k | 0 <= k < |time| :: !IsAGrave(time[k]) && !IsMark(time[k])
  {
    assert forall k | 0 <= k < |time| :: IsDigit(time[k]) || time[k] == ':';
  }

  /** The punctuation step and the strip leave a time alone. */
  lemma {:induction false} PreprocessedClock(today: Date, t: string, time: string)
    requires TodayOk(today) && SingleSpaced(t) && Trimmed(t) && IsClock(time)
    requires Sub(AtHour, Sub(AtTime, WordMap(TimeWord, WordMap(x => RelativeDate(today, x), t)))) == time
    ensures Preprocessed(RelativeDates(today), t) == time
  {
    WhitespaceOfSpaced(t);
    PreprocessedSteps(today, t);
    ClockIsPlain(time);
    PunctuationOfUnmarked(time);
    StripTrimmed(time);
  }

  lemma {:induction false} WordIsSpaced(x: string)
    requires x != [] && AllWord(x)
    ensures SingleSpaced(x) && Trimmed(x) && NoSpace(x)
  {
    assert forall k | 0 <= k < |x| :: IsWordChar(x[k]) && !IsSpace(x[k]);
  }

  /** A run `x` that the time patterns rewrite to a time gives that time. */
  lemma {:induction false} PreprocessedTimeWord(today: Date, x: string, time: string)
    requires TodayOk(today) && x != [] && AllWord(x) && IsDigit(x[0])
    requires TimeWord(x) == time && IsClock(time)
    ensures Preprocessed(RelativeDates(today), x) == time
  {
    WordIsSpaced(x);
    WordMapOfWord(x => RelativeDate(today, x), x);
    RelativeDateOfDigits(today, x);
    WordMapOfWord(TimeWord, x);
    ClockIsPlain(time);
    SubWithoutAGrave(AtTime, time);
    SubWithoutAGrave(AtHour, time);
    PreprocessedClock(today, x, time);
  }

  lemma {:induction false} AtWordIsSpaced(x: string)
    requires x != [] && AllWord(x)
    ensures SingleSpaced("às " + x) && Trimmed("às " + x)
  {
    WordIsSpaced(x);
    var t := "às " + x;
    forall k | 0 <= k < |t| && IsSpace(t[k]) ensures t[k] == ' ' && (k + 1 < |t| ==> !IsSpace(t[k + 1])) {
      assert k == 2;
      assert t[3] == x[0];
    }
    assert t[|t| - 1] == x[|x| - 1];
  }

  /** No relative-date word in `às x`, where the run `x` starts with a digit. */
  lemma {:induction false} AtWordDated(today: Date, x: string)
    requires TodayOk(today) && x != [] && AllWord(x) && IsDigit(x[0])
    ensures WordMap(x => RelativeDate(today, x), "às " + x) == "às " + x
  {
    assert "às " + x == "às" + " " + x;
    WordMapTwo(x => RelativeDate(today, x), "às", x);
    RelativeDateOfDigits(today, x);
    assert RelativeDate(today, "às") == "às";
  }

  lemma {:induction false} AtWordTimed(x: string, time: string)
    requires AllWord(x) && TimeWord(x) == time
    ensures WordMap(TimeWord, "às " + x) == "às " + time
  {
    assert "às " + x == "às" + " " + x;
    WordMapTwo(TimeWord, "às", x);
    assert TimeWord("às") == "às";
  }

  lemma {:induction false} AtClockDropped(time: string)
    requires IsClock(time)
    ensures Sub(AtHour, Sub(AtTime, "às " + time)) == time
  {
    ClockIsPlain(time);
    AtTimeDrops([], "às", " ", time, []);
    assert [] + "às" + " " + time + [] == "às " + time;
    assert [] + time + [] == time;
    SubWithoutAGrave(AtHour, time);
  }

  /** The date and time patterns on `às x`, where the time patterns rewrite the run `x`
      to a time. */
  lemma {:induction false} AtTimeWordSubs(today: Date, x: string, time: string)
    requires TodayOk(today) && x != [] && AllWord(x) && IsDigit(x[0])
    requires TimeWord(x) == time && IsClock(time)
    ensures var t := "às " + x;
      Sub(AtHour, Sub(AtTime, WordMap(TimeWord, WordMap(x => RelativeDate(today, x), t)))) == time
  {
    AtWordDated(today, x);
    AtWordTimed(x, time);
    AtClockDropped(time);
  }

  /** `às` followed by a run `x` that the time patterns rewrite to a time gives that
      time: the pattern for `às` before `H:MM` drops the `às`. */
  lemma {:induction false} PreprocessedAtTimeWord(today: Date, x: string, time: string)
    requires TodayOk(today) && x != [] && AllWord(x) && IsDigit(x[0])
    requires TimeWord(x) == time && IsClock(time)
    ensures Preprocessed(RelativeDates(today), "às " + x) == time
  {
    AtWordIsSpaced(x);
    AtTimeWordSubs(today, x, time);
    PreprocessedClock(today, "às " + x, time);
  }

  predicate IsHour(hh: string) {
    (|hh| == 1 || |hh| == 2) && AllDigits(hh)
  }

  /** `HhMM` becomes `H:MM`. */
  lemma {:induction false} TimeWordOfHourMinute(hh: string, mm: string)
    requires IsHour(hh) && |mm| == 2 && AllDigits(mm)
    ensures var x := hh + "h" + mm;
      x != [] && AllWord(x) && IsDigit(x[0]) && TimeWord(x) == hh + ":" + mm && IsClock(hh + ":" + mm)
  {
    var x := hh + "h" + mm;
    assert x[..|hh|] == hh && x[|hh|] == 'h' && x[|hh| + 1..] == mm;
    assert IsHourMinuteWord(x);
    assert AllWord(x) by {
      forall k | 0 <= k < |x| ensures IsWordChar(x[k]) {
        if k < |hh| {
          assert x[k] == hh[k];
        } else if k > |hh| {
          assert x[k] == mm[k - |hh| - 1];
        }
      }
    }
  }

  /** `Hh` becomes `H:00`. */
  lemma {:induction false} TimeWordOfHour(hh: string)
    requires IsHour(hh)
    ensures var x := hh + "h";
      x != [] && AllWord(x) && IsDigit(x[0]) && TimeWord(x) == hh + ":00" && IsClock(hh + ":00")
  {
    var x := hh + "h";
    assert x[..|hh|] == hh && x[|hh|] == 'h';
    assert !IsHourMinuteWord(x) && IsHourOnlyWord(x);
    assert AllWord(x) by {
      forall k | 0 <= k < |x| ensures IsWordChar(x[k]) {
        if k < |hh| {
          assert x[k] == hh[k];
        }
      }
    }
  }

  lemma {:induction false} PreprocessedAtHourMinute(today: Date, hh: string, mm: string)
    requires TodayOk(today) && IsHour(hh) && |mm| == 2 && AllDigits(mm)
    ensures Preprocessed(RelativeDates(today), "às " + (hh + "h" + mm)) == hh + ":" + mm
  {
    TimeWordOfHourMinute(hh, mm);
    PreprocessedAtTimeWord(today, hh + "h" + mm, hh + ":" + mm);
  }

  lemma AtHourMinuteText()
    ensures "às " + ("14" + "h" + "30") == "às 14h30" && "14" + ":" + "30" == "14:30"
  {
  }

  /** "às 14h30" gives "14:30". */
  lemma {:induction false} AtHourMinuteExample(today: Date)
    requires TodayOk(today)
    ensures Preprocessed(RelativeDates(today), "às 14h30") == "14:30"
  {
    AtHourMinuteText();
    PreprocessedAtHourMinute(today, "14", "30");
  }

  lemma {:induction false} PreprocessedHour(today: Date, hh: string)
    requires TodayOk(today) && IsHour(hh)
    ensures Preprocessed(RelativeDates(today), hh + "h") == hh + ":00"
  {
    TimeWordOfHour(hh);
    PreprocessedTimeWord(today, hh + "h", hh + ":00");
  }

  lemma {:induction false} PreprocessedAtHour(today: Date, hh: string)
    requires TodayOk(today) && IsHour(hh)
    ensures Preprocessed(RelativeDates(today), "às " + (hh + "h")) == hh + ":00"
  {
    TimeWordOfHour(hh);
    PreprocessedAtTimeWord(today, hh + "h", hh + ":00");
  }

  lemma HourTexts()
    ensures "14" + "h" == "14h" && "14" + ":00" == "14:00"
    ensures "às " + ("9" + "h") == "às 9h" && "9" + ":00" == "9:00"
  {
  }

  /** "14h" gives "14:00". */
  lemma {:induction false} HourExample(today: Date)
    requires TodayOk(today)
    ensures Preprocessed(RelativeDates(today), "14h") == "14:00"
  {
    HourTexts();
    PreprocessedHour(today, "14");
  }

  /** "às 9h" gives "9:00": `9h` becomes `9:00` first, and then the pattern for `às`
      before `H:MM` drops the `às`. */
  lemma {:induction false} AtHourExample(today: Date)
    requires TodayOk(today)
    ensures Preprocessed(RelativeDates(today), "às 9h") == "9:00"
  {
    HourTexts();
    PreprocessedAtHour(today, "9");
  }

  /** A word, whitespace, and the rest: the word is the first of the words. */
  lemma {:induction false} WordsCons(w: string, gap: string, rest: string)
    requires w != [] && NoSpace(w) && AllSpace(gap) && (gap != [] || rest == [])
    ensures Words(w + gap + rest) == [w] + Words(rest)
  {
    var s := w + gap + rest;
    assert s[..|w|] == w && s[|w|..] == gap + rest;
    assert forall k | 0 <= k < |w| :: s[k] == w[k];
    assert |w| < |s| ==> s[|w|] == gap[0];
    TextRunUnique(s, |w|);
    WordsSkipSpaces(gap + rest, |gap|);
    assert (gap + rest)[|gap|..] == rest;
  }

  /** `_normalize_whitespace` of a word, whitespace, and a rest that is not all
      whitespace. */
  lemma {:induction false} WhitespaceCons(w: string, gap: string, rest: string)
    requires w != [] && NoSpace(w) && gap != [] && AllSpace(gap) && !AllSpace(rest)
    ensures NormalizeWhitespace(w + gap + rest) == w + " " + NormalizeWhitespace(rest)
  {
    WordsCons(w, gap, rest);
    WhitespaceEmptyIff(rest);
    JoinSpacedCons(w, Words(rest));
  }

  lemma {:induction false} WhitespaceOfWord(w: string)
    requires w != [] && NoSpace(w)
    ensures NormalizeWhitespace(w) == w
  {
    WhitespaceOfSpaced(w);
  }

  lemma SentenceText()
    ensures "Ontem  às   14h30,  houve   falha." == "Ontem" + "  " + "às   14h30,  houve   falha."
  {
  }

  lemma SentenceTailTexts()
    ensures "às   14h30,  houve   falha." == "às" + "   " + "14h30,  houve   falha."
    ensures "14h30,  houve   falha." == "14h30," + "  " + "houve   falha."
  {
  }

  lemma SentenceLastText()
    ensures "houve   falha." == "houve" + "   " + "falha."
  {
  }

  lemma SpacedSentenceText()
    ensures "Ontem às 14h30, houve falha." == "Ontem" + " " + ("às" + " " + ("14h30," + " " + ("houve" + " " + "falha.")))
  {
  }

  lemma SentenceWords()
    ensures NoSpace("Ontem") && NoSpace("às") && NoSpace("14h30,") && NoSpace("houve") && NoSpace("falha.")
    ensures "  " != [] && AllSpace("  ") && "   " != [] && AllSpace("   ")
    ensures !AllSpace("às   14h30,  houve   falha.") && !AllSpace("14h30,  houve   falha.")
    ensures !AllSpace("houve   falha.") && !AllSpace("falha.")
  {
    assert !IsSpace("às   14h30,  houve   falha."[0]);
    assert !IsSpace("14h30,  houve   falha."[0]);
    assert !IsSpace("houve   falha."[0]);
    assert !IsSpace("falha."[0]);
  }

  /** The whitespace step of the sentence "Ontem  às   14h30,  houve   falha.". */
  lemma {:induction false} SentenceSpaces()
    ensures NormalizeWhitespace("Ontem  às   14h30,  houve   falha.") == "Ontem às 14h30, houve falha."
  {
    SentenceText();
    SentenceTailTexts();
    SentenceLastText();
    SpacedSentenceText();
    SentenceWords();
    WhitespaceCons("Ontem", "  ", "às   14h30,  houve   falha.");
    WhitespaceCons("às", "   ", "14h30,  houve   falha.");
    WhitespaceCons("14h30,", "  ", "houve   falha.");
    WhitespaceCons("houve", "   ", "falha.");
    WhitespaceOfWord("falha.");
  }

  /** A run, then a non-word character: the run is rewritten on its own. */
  lemma {:induction false} WordMapRunCut(f: string -> string, a: string, c: char, b: string)
    requires AllWord(a) && !IsWordChar(c)
    ensures WordMap(f, a + [c] + b) == f(a) + [c] + WordMap(f, b)
  {
    WordMapCut(f, a, c, b);
    WordMapOfWord(f, a);
  }

  lemma ClauseText(a: string, b: string, c: string, d: string)
    ensures a + " " + b + ", " + c + " " + d + "."
      == a + [' '] + (b + [','] + ([] + [' '] + (c + [' '] + (d + ['.'] + []))))
  {
  }

  lemma ClauseImage(a: string, b: string, c: string, d: string)
    ensures a + [' '] + (b + [','] + ([] + [' '] + (c + [' '] + (d + ['.'] + []))))
      == a + " " + b + ", " + c + " " + d + "."
  {
  }

  /** The runs of `a b, c d.` are rewritten one by one, by an `f` that keeps the empty
      run. */
  lemma {:induction false} WordMapClause(f: string -> string, a: string, b: string, c: string, d: string)
    requires AllWord(a) && AllWord(b) && AllWord(c) && AllWord(d) && f([]) == []
    ensures WordMap(f, a + " " + b + ", " + c + " " + d + ".") == f(a) + " " + f(b) + ", " + f(c) + " " + f(d) + "."
  {
    var r4 := d + ['.'] + [];
    var r3 := c + [' '] + r4;
    var r2 := [] + [' '] + r3;
    var r1 := b + [','] + r2;
    ClauseText(a, b, c, d);
    WordMapRunCut(f, a, ' ', r1);
    WordMapRunCut(f, b, ',', r2);
    WordMapRunCut(f, [], ' ', r3);
    WordMapRunCut(f, c, ' ', r4);
    WordMapRunCut(f, d, '.', []);
    WordMapOfWord(f, []);
    ClauseImage(f(a), f(b), f(c), f(d));
  }

  /** `Ontem às X, c d.`: the date pattern for `ontem` rewrites the first run only. */
  lemma {:induction false} SentenceDated(today: Date, w: string, x: string, c: string, d: string)
    requires TodayOk(today) && AllWord(w) && FoldEq(w, "ontem")
    requires x != [] && AllWord(x) && IsDigit(x[0])
    requires AllWord(c) && AllWord(d) && RelativeDate(today, c) == c && RelativeDate(today, d) == d
    ensures WordMap(x => RelativeDate(today, x), w + " " + ("às" + " " + x + ", " + c + " " + d + "."))
      == FormatDate(DaysBack(today, 1)) + " " + ("às" + " " + x + ", " + c + " " + d + ".")
  {
    var f := x => RelativeDate(today, x);
    var tail := "às" + " " + x + ", " + c + " " + d + ".";
    assert w + " " + tail == w + [' '] + tail;
    WordMapCut(f, w, ' ', tail);
    WordMapOfWord(f, w);
    assert !FoldEq(w, "hoje");
    assert RelativeDate(today, []) == [];
    assert RelativeDate(today, "às") == "às";
    RelativeDateOfDigits(today, x);
    WordMapClause(f, "às", x, c, d);
  }

  /** A date holds no run that the first two time patterns rewrite. */
  lemma {:induction false} DateKeepsTimeWords(day: Date)
    requires ValidDate(day)
    ensures WordMap(TimeWord, FormatDate(day)) == FormatDate(day)
  {
    var g := x => IsHourMinuteWord(x) || IsHourOnlyWord(x);
    var s := FormatDate(day);
    assert DigitsAndSeparators(s) by {
      forall k | 0 <= k < |s| ensures IsDigit(s[k]) || !IsWordChar(s[k]) {
        assert IsDigit(s[k]) || s[k] == '-';
      }
    }
    assert SparesDigits(g) by {
      forall x | AllDigits(x) ensures !g(x) {
        if |x| >= 2 {
          assert IsDigit(x[|x| - 1]) && IsDigit(x[|x| - 2]);
        }
      }
    }
    assert ChangesOnly(TimeWord, g);
    NoRunInDigits(g, s);
    WordMapOfNoRun(TimeWord, g, s);
  }

  /** `D às X, c d.`: the first two time patterns rewrite the run `X` only. */
  lemma {:induction false} SentenceTimed(day: Date, x: string, time: string, c: string, d: string)
    requires ValidDate(day) && AllWord(x) && TimeWord(x) == time
    requires AllWord(c) && AllWord(d) && TimeWord(c) == c && TimeWord(d) == d
    ensures WordMap(TimeWord, FormatDate(day) + " " + ("às" + " " + x + ", " + c + " " + d + "."))
      == FormatDate(day) + " " + ("às" + " " + time + ", " + c + " " + d + ".")
  {
    var date := FormatDate(day);
    var tail := "às" + " " + x + ", " + c + " " + d + ".";
    assert date + " " + tail == date + [' '] + tail;
    WordMapCut(TimeWord, date, ' ', tail);
    DateKeepsTimeWords(day);
    assert TimeWord([]) == [] && TimeWord("às") == "às";
    WordMapClause(TimeWord, "às", x, c, d);
  }

  predicate NoAGrave(s: string) {
    forall k | 0 <= k < |s| :: !IsAGrave(s[k])
  }

  lemma {:induction false} NoAGraveAppend(a: string, b: string)
    requires NoAGrave(a) && NoAGrave(b)
    ensures NoAGrave(a + b)
  {
    forall k | 0 <= k < |a + b| ensures !IsAGrave((a + b)[k]) {
      if k >= |a| {
        assert (a + b)[k] == b[k - |a|];
      }
    }
  }

  lemma {:induction false} DateHasNoAGrave(day: Date)
    requires ValidDate(day)
    ensures NoAGrave(FormatDate(day))
  {
    var date := FormatDate(day);
    forall k | 0 <= k < |date| ensures !IsAGrave(date[k]) {
      assert IsDigit(date[k]) || date[k] == '-';
    }
  }

  /** `D às H:MM, c d.`: the pattern for `às` before `H:MM` drops the `às`, and the
      pattern for `às` before `Hh` finds nothing. */
  lemma {:induction false} SentenceAtDropped(day: Date, time: string, c: string, d: string)
    requires ValidDate(day) && IsClock(time) && AllWord(c) && AllWord(d)
    requires NoAGrave(c) && NoAGrave(d)
    ensures Sub(AtHour, Sub(AtTime, FormatDate(day) + " " + ("às" + " " + time + ", " + c + " " + d + ".")))
      == FormatDate(day) + " " + time + ", " + c + " " + d + "."
  {
    var date := FormatDate(day);
    var pre := date + " ";
    var post := ", " + c + " " + d + ".";
    assert date + " " + ("às" + " " + time + ", " + c + " " + d + ".") == pre + "às" + " " + time + post;
    DateHasNoAGrave(day);
    NoAGraveAppend(date, " ");
    NoAGraveAppend(", ", c);
    NoAGraveAppend(", " + c, " ");
    NoAGraveAppend(", " + c + " ", d);
    NoAGraveAppend(", " + c + " " + d, ".");
    ClockIsPlain(time);
    AtTimeDrops(pre, "às", " ", time, post);
    NoAGraveAppend(pre, time);
    NoAGraveAppend(pre + time, post);
    SubWithoutAGrave(AtHour, pre + time + post);
    RegroupClause(date, " ", time, ", ", c, " ", d, ".");
  }

  lemma RegroupClause(a: string, b: string, x: string, e: string, f: string, g: string, h: string, k: string)
    ensures (a + b) + x + (e + f + g + h + k) == a + b + x + e + f + g + h + k
  {
  }

  /** Text whose every comma already has one space after it, with no `;` and a single
      final `.`: the comma pattern rewrites each comma to itself, and the period pattern
      adds one space after the final `.`. */
  lemma {:induction false} PunctuationOfClause(u: string)
    requires OneSpaceAfter(u, ',') && Lacks(u, ';') && Lacks(u, '.')
    ensures CleanedPunctuation(u + ".") == u + ". "
  {
    CommaRuleKeepsClause(u);
    PeriodRuleEndsClause(u);
  }

  lemma {:induction false} CommaRuleKeepsClause(u: string)
    requires OneSpaceAfter(u, ',') && Lacks(u, ';')
    ensures Sub(CommaOrSemicolon, u + ".") == u + "."
  {
    var v := u + ".";
    var hits := Hits(CommaOrSemicolon, v);
    forall p | 0 <= p < |v| && hits[p].Some?
      ensures p + hits[p].value.len <= |v| && hits[p].value.out == v[p..p + hits[p].value.len]
    {
      assert v[p] == ',' && p < |u| && u[p] == ',';
      assert v[p + 1] == ' ' && !IsSpace(v[p + 2]);
      assert SpacesFrom(v, p + 1) == 1;
      assert v[p..p + 2] == ", ";
    }
    ScanSame(hits, v, 0, |v|);
    assert v[0..|v|] == v;
  }

  lemma {:induction false} PeriodRuleEndsClause(u: string)
    requires Lacks(u, '.')
    ensures Sub(Period, u + ".") == u + ". "
  {
    var v := u + ".";
    var marks := Hits(Period, v);
    assert SameUpTo(marks, v, 0, |u|);
    ScanSame(marks, v, 0, |u|);
    assert v[0..|u|] == u;
    assert marks[|u|] == Some(Hit(1, ". "));
    assert Scan(marks, v, |u|) == ". " + Scan(marks, v, |u| + 1);
    assert Scan(marks, v, |u| + 1) == [];
    assert ". " + [] == ". ";
  }

  /** `strip()` removes the one space the period pattern leaves at the end. */
  lemma {:induction false} StripFinalSpace(x: string)
    requires x != [] && !IsSpace(x[0]) && !IsSpace(x[|x| - 1])
    ensures Strip(x + " ") == x
  {
    var s := x + " ";
    assert s[..|s| - 1] == x;
    assert TrailingSpaces(s) == 1;
    assert LeadingSpaces(s) == 0;
    StripEnds(s, 0, 1);
    assert s[0..|s| - 1] == x;
  }

  /** In `D H:MM, c d` the one comma is followed by one space and then a word. */
  lemma {:induction false} ClauseSettled(day: Date, time: string, c: string, d: string)
    requires ValidDate(day) && IsClock(time) && c != [] && AllWord(c) && d != [] && AllWord(d)
    ensures var u := FormatDate(day) + " " + time + ", " + c + " " + d;
      OneSpaceAfter(u, ',') && Lacks(u, ';') && Lacks(u, '.') && !IsSpace(u[0]) && !IsSpace(u[|u| - 1])
  {
    var date := FormatDate(day);
    var u := date + " " + time + ", " + c + " " + d;
    var n := |date| + 1 + |time|;
    ClockIsPlain(time);
    forall k | 0 <= k < |u|
      ensures u[k] != ';' && u[k] != '.' && (u[k] == ',' ==> k == n)
    {
      if k < |date| {
        assert u[k] == date[k] && (IsDigit(date[k]) || date[k] == '-');
      } else if |date| < k < n {
        assert u[k] == time[k - |date| - 1];
      } else if n + 2 <= k < n + 2 + |c| {
        assert u[k] == c[k - n - 2];
      } else if n + 3 + |c| <= k {
        assert u[k] == d[k - n - 3 - |c|];
      }
    }
    assert u[n + 1] == ' ' && u[n + 2] == c[0];
    assert u[0] == date[0] && u[|u| - 1] == d[|d| - 1];
  }

  /** The date and time patterns on `Ontem às X, c d.`, where the time patterns rewrite
      the run `X` to a time and leave the words `c` and `d` alone. */
  lemma {:induction false} SentenceRewrites(today: Date, w: string, x: string, time: string, c: string, d: string)
    requires TodayOk(today) && AllWord(w) && FoldEq(w, "ontem")
    requires x != [] && AllWord(x) && IsDigit(x[0]) && TimeWord(x) == time && IsClock(time)
    requires AllWord(c) && AllWord(d)
    requires RelativeDate(today, c) == c && RelativeDate(today, d) == d && TimeWord(c) == c && TimeWord(d) == d
    requires NoAGrave(c) && NoAGrave(d)
    ensures var s := w + " " + ("às" + " " + x + ", " + c + " " + d + ".");
      Sub(AtHour, Sub(AtTime, WordMap(TimeWord, WordMap(x => RelativeDate(today, x), s))))
        == FormatDate(DaysBack(today, 1)) + " " + time + ", " + c + " " + d + "."
  {
    var day := DaysBack(today, 1);
    SentenceDated(today, w, x, c, d);
    SentenceTimed(day, x, time, c, d);
    SentenceAtDropped(day, time, c, d);
  }

  /** The punctuation step and the strip leave `D H:MM, c d.` as it is. */
  lemma {:induction false} SentenceSettled(day: Date, time: string, c: string, d: string)
    requires ValidDate(day) && IsClock(time) && c != [] && AllWord(c) && d != [] && AllWord(d)
    ensures var r := FormatDate(day) + " " + time + ", " + c + " " + d + ".";
      Strip(CleanedPunctuation(r)) == r
  {
    var u := FormatDate(day) + " " + time + ", " + c + " " + d;
    assert FormatDate(day) + " " + time + ", " + c + " " + d + "." == u + ".";
    ClauseSettled(day, time, c, d);
    PunctuationOfClause(u);
    assert (u + ".")[0] == u[0];
    assert u + ". " == (u + ".") + " ";
    StripFinalSpace(u + ".");
  }

  /** `preprocess` of text whose whitespace collapses to `Ontem às HhMM, c d.`. */
  lemma {:induction false} PreprocessedSentence(today: Date, text: string, w: string, hh: string, mm: string,
                                                c: string, d: string)
    requires TodayOk(today) && AllWord(w) && FoldEq(w, "ontem") && IsHour(hh) && |mm| == 2 && AllDigits(mm)
    requires c != [] && AllWord(c) && d != [] && AllWord(d)
    requires RelativeDate(today, c) == c && RelativeDate(today, d) == d && TimeWord(c) == c && TimeWord(d) == d
    requires NoAGrave(c) && NoAGrave(d)
    requires NormalizeWhitespace(text) == w + " " + ("às" + " " + (hh + "h" + mm) + ", " + c + " " + d + ".")
    ensures Preprocessed(RelativeDates(today), text)
      == FormatDate(DaysBack(today, 1)) + " " + (hh + ":" + mm) + ", " + c + " " + d + "."
  {
    PreprocessedSteps(today, text);
    TimeWordOfHourMinute(hh, mm);
    SentenceRewrites(today, w, hh + "h" + mm, hh + ":" + mm, c, d);
    SentenceSettled(DaysBack(today, 1), hh + ":" + mm, c, d);
  }

  lemma SentenceWordFacts(today: Date)
    requires TodayOk(today)
    ensures AllWord("Ontem") && FoldEq("Ontem", "ontem")
    ensures AllWord("houve") && RelativeDate(today, "houve") == "houve" && TimeWord("houve") == "houve"
  {
    assert Fold('O') == 'o';
    assert Fold("houve"[0]) != Fold("ontem"[0]);
  }

  lemma SentenceLastWordFacts(today: Date)
    requires TodayOk(today)
    ensures AllWord("falha") && RelativeDate(today, "falha") == "falha" && TimeWord("falha") == "falha"
  {
    assert Fold("falha"[0]) != Fold("ontem"[0]);
  }

  lemma SentenceLetters()
    ensures NoAGrave("houve") && NoAGrave("falha")
    ensures IsHour("14") && |"30"| == 2 && AllDigits("30")
  {
  }

  /** The whitespace step of the sentence, cut where the time patterns see it. */
  lemma {:induction false} SentenceSpacedParts()
    ensures NormalizeWhitespace("Ontem  às   14h30,  houve   falha.")
      == "Ontem" + " " + ("às" + " " + ("14" + "h" + "30") + ", " + "houve" + " " + "falha" + ".")
  {
    SentenceSpaces();
    SentenceParts();
  }

  lemma SentenceParts()
    ensures "Ontem às 14h30, houve falha." == "Ontem" + " " + ("às" + " " + ("14" + "h" + "30") + ", " + "houve" + " " + "falha" + ".")
  {
  }

  lemma SentenceResultText(date: string)
    ensures date + " " + ("14" + ":" + "30") + ", " + "houve" + " " + "falha" + "." == date + " 14:30, houve falha."
  {
  }

  /** "Ontem  às   14h30,  houve   falha." gives yesterday's date, then "14:30, houve
      falha.": the whitespace collapses, `Ontem` becomes the date, `14h30` becomes
      `14:30`, the `às` before it goes, and the punctuation and the ends are already
      settled. */
  lemma {:induction false} FullPreprocessingExample(today: Date)
    requires TodayOk(today)
    ensures Preprocessed(RelativeDates(today), "Ontem  às   14h30,  houve   falha.")
      == FormatDate(DaysBack(today, 1)) + " 14:30, houve falha."
  {
    SentenceSpacedParts();
    SentenceWordFacts(today);
    SentenceLastWordFacts(today);
    SentenceLetters();
    PreprocessedSentence(today, "Ontem  às   14h30,  houve   falha.", "Ontem", "14", "30", "houve", "falha");
    SentenceResultText(FormatDate(DaysBack(today, 1)));
  }

  class TextPreprocessor {
    const relativeDates: seq<(string, string)>

    constructor(today: Date)
      requires TodayOk(today)
      ensures relativeDates == RelativeDates(today)
    {
      relativeDates := RelativeDates(today);
    }

    method Preprocess(text: string) returns (r: string)
      ensures r == Preprocessed(relativeDates, text)
    {
      r := NormalizeWhitespace(text);
      r := NormalizeRelativeDates(r);
      r := NormalizeTimeFormats(r);
      r := CleanPunctuation(r);
      r := Strip(r);
    }

    method NormalizeRelativeDates(text: string) returns (r: string)
      ensures r == ApplyAll(DateRules(relativeDates), text)
    {
      var rules := DateRules(relativeDates);
      r := text;
      var i := 0;
      while i < |relativeDates|
        invariant 0 <= i <= |relativeDates|
        invariant ApplyAll(rules[i..], r) == ApplyAll(rules, text)
      {
        var (word, date) := relativeDates[i];
        ApplyAllStep(rules, i, r);
        r := Sub(WholeWord(word, date), r);
        i := i + 1;
      }
    }

    method NormalizeTimeFormats(text: string) returns (r: string)
      ensures r == ApplyAll(TimeRules, text)
    {
      r := text;
      var i := 0;
      while i < |TimeRules|
        invariant 0 <= i <= |TimeRules|
        invariant ApplyAll(TimeRules[i..], r) == ApplyAll(TimeRules, text)
      {
        ApplyAllStep(TimeRules, i, r);
        r := Sub(TimeRules[i], r);
        i := i + 1;
      }
    }

    method CleanPunctuation(text: string) returns (r: string)
      ensures r == CleanedPunctuation(text)
    {
      r := Sub(CommaOrSemicolon, text);
      r := Sub(Period, r);
    }
  }
}
