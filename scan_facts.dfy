/** Character-level facts about the `re.sub` scan of `Rewrite`: what it keeps, what it
    never writes, and which characters it always follows with a space. Each is stated
    for any table of matches, so the preprocessor only has to show that its patterns'
    matches behave. */
module ScanFacts {
  import opened Wrappers
  import opened PyStr
  import opened Rewrite

  /** The characters of `s` that `keep` accepts, in order. */
  function Filter(keep: char -> bool, s: string): (r: string)
    ensures |r| <= |s|
    ensures forall k | 0 <= k < |r| :: keep(r[k])
    decreases |s|
  {
    if s == [] then [] else (if keep(s[0]) then [s[0]] else []) + Filter(keep, s[1..])
  }

  /** `keep` accepts no character of `s`. */
  predicate Dropped(keep: char -> bool, s: string) {
    forall k | 0 <= k < |s| :: !keep(s[k])
  }

  lemma {:induction false} FilterAppend(keep: char -> bool, a: string, b: string)
    ensures Filter(keep, a + b) == Filter(keep, a) + Filter(keep, b)
    decreases |a|
  {
    if a != [] {
      FilterAppend(keep, a[1..], b);
      assert (a + b)[1..] == a[1..] + b;
    } else {
      assert a + b == b;
    }
  }

  lemma {:induction false} FilterDropped(keep: char -> bool, s: string)
    requires Dropped(keep, s)
    ensures Filter(keep, s) == []
    decreases |s|
  {
    if s != [] {
      FilterDropped(keep, s[1..]);
    }
  }

  lemma {:induction false} FilterKept(keep: char -> bool, s: string)
    requires forall k | 0 <= k < |s| :: keep(s[k])
    ensures Filter(keep, s) == s
    decreases |s|
  {
    if s != [] {
      FilterKept(keep, s[1..]);
      assert s == [s[0]] + s[1..];
    }
  }

  /** Cutting off ends that `keep` drops entirely keeps the filtered text. */
  lemma {:induction false} FilterTrimmedEnds(keep: char -> bool, s: string, a: nat, b: nat)
    requires a <= b <= |s|
    requires forall k | 0 <= k < a :: !keep(s[k])
    requires forall k | b <= k < |s| :: !keep(s[k])
    ensures Filter(keep, s[a..b]) == Filter(keep, s)
  {
    var head := s[..a];
    var mid := s[a..b];
    var tail := s[b..];
    assert s == head + mid + tail;
    FilterAppend(keep, head + mid, tail);
    FilterAppend(keep, head, mid);
    forall k | 0 <= k < |head| ensures !keep(head[k]) {
      assert head[k] == s[k];
    }
    forall k | 0 <= k < |tail| ensures !keep(tail[k]) {
      assert tail[k] == s[b + k];
    }
    FilterDropped(keep, head);
    FilterDropped(keep, tail);
  }

  /** Every match from `i` on consumes and emits only characters that `keep` drops. */
  predicate HitsDrop(hits: seq<Option<Hit>>, t: string, keep: char -> bool, i: nat)
    requires Fits(hits, t)
  {
    forall p | i <= p < |t| && hits[p].Some? ::
      Dropped(keep, t[p..p + hits[p].value.len]) && Dropped(keep, hits[p].value.out)
  }

  lemma {:induction false} ScanFilterHit(hits: seq<Option<Hit>>, t: string, keep: char -> bool, i: nat)
    requires Fits(hits, t) && i < |t| && hits[i].Some? && HitsDrop(hits, t, keep, i)
    ensures var n := i + hits[i].value.len;
      Filter(keep, Scan(hits, t, i)) == Filter(keep, Scan(hits, t, n))
      && Filter(keep, t[i..]) == Filter(keep, t[n..])
  {
    var h := hits[i].value;
    var n := i + h.len;
    assert Scan(hits, t, i) == h.out + Scan(hits, t, n);
    FilterAppend(keep, h.out, Scan(hits, t, n));
    FilterDropped(keep, h.out);
    assert t[i..] == t[i..n] + t[n..];
    FilterAppend(keep, t[i..n], t[n..]);
    FilterDropped(keep, t[i..n]);
  }

  lemma {:induction false} ScanFilterCopy(hits: seq<Option<Hit>>, t: string, keep: char -> bool, i: nat)
    requires Fits(hits, t) && i < |t| && hits[i].None?
    ensures Filter(keep, Scan(hits, t, i)) == Filter(keep, [t[i]]) + Filter(keep, Scan(hits, t, i + 1))
    ensures Filter(keep, t[i..]) == Filter(keep, [t[i]]) + Filter(keep, t[i + 1..])
  {
    assert Scan(hits, t, i) == [t[i]] + Scan(hits, t, i + 1);
    FilterAppend(keep, [t[i]], Scan(hits, t, i + 1));
    assert t[i..] == [t[i]] + t[i + 1..];
    FilterAppend(keep, [t[i]], t[i + 1..]);
  }

  /** A scan whose matches only touch dropped characters keeps every kept one, in order. */
  lemma {:induction false} ScanFilter(hits: seq<Option<Hit>>, t: string, keep: char -> bool, i: nat)
    requires Fits(hits, t) && i <= |t| && HitsDrop(hits, t, keep, i)
    ensures Filter(keep, Scan(hits, t, i)) == Filter(keep, t[i..])
    decreases |t| - i
  {
    if i == |t| {
      assert t[i..] == [];
    } else if hits[i].Some? {
      ScanFilterHit(hits, t, keep, i);
      ScanFilter(hits, t, keep, i + hits[i].value.len);
    } else {
      ScanFilterCopy(hits, t, keep, i);
      ScanFilter(hits, t, keep, i + 1);
    }
  }

  /** `c` does not occur in `s`. */
  predicate Lacks(s: string, c: char) {
    forall k | 0 <= k < |s| :: s[k] != c
  }

  /** Stripping adds no character. */
  lemma StripLacks(text: string, c: char)
    requires Lacks(text, c)
    ensures Lacks(Strip(text), c)
  {
    var t := Strip(text);
    var a := LeadingSpaces(text);
    forall k | 0 <= k < |t| ensures t[k] != c {
      assert t[k] == text[a + k];
    }
  }

  /** The scan writes `c` only by copying it or through a match that emits it. */
  lemma {:induction false} ScanLacks(hits: seq<Option<Hit>>, t: string, c: char, i: nat)
    requires Fits(hits, t) && i <= |t|
    requires forall p | i <= p < |t| :: if hits[p].Some? then Lacks(hits[p].value.out, c) else t[p] != c
    ensures Lacks(Scan(hits, t, i), c)
    decreases |t| - i
  {
    if i < |t| {
      match hits[i]
      case Some(h) =>
        ScanLacks(hits, t, c, i + h.len);
        assert Scan(hits, t, i) == h.out + Scan(hits, t, i + h.len);
      case None =>
        ScanLacks(hits, t, c, i + 1);
        assert Scan(hits, t, i) == [t[i]] + Scan(hits, t, i + 1);
    }
  }

  /** What the scan emits at `i` starts with, when it emits anything. */
  lemma {:induction false} ScanHead(hits: seq<Option<Hit>>, t: string, i: nat)
    requires Fits(hits, t) && i < |t|
    ensures hits[i].None? ==> Scan(hits, t, i) == [t[i]] + Scan(hits, t, i + 1)
    ensures hits[i].Some? ==> Scan(hits, t, i) == hits[i].value.out + Scan(hits, t, i + hits[i].value.len)
  {
  }

  /** What the scan emits from `q` on is empty or starts with a non-space character. */
  predicate HeadAt(hits: seq<Option<Hit>>, t: string, q: nat)
    requires Fits(hits, t)
  {
    q <= |t| &&
    (q < |t| ==>
      if hits[q].Some? then hits[q].value.out != [] && !IsSpace(hits[q].value.out[0]) else !IsSpace(t[q]))
  }

  lemma {:induction false} ScanHeadAt(hits: seq<Option<Hit>>, t: string, q: nat)
    requires Fits(hits, t) && HeadAt(hits, t, q)
    ensures var r := Scan(hits, t, q); r != [] ==> !IsSpace(r[0])
  {
    if q < |t| {
      ScanHead(hits, t, q);
    }
  }

  // ---------------------------------------------------------------------------
  // Marks followed by exactly one space.
  // ---------------------------------------------------------------------------

  /** Every `c` in `s` is followed by exactly one space, and then by a non-space
      character or the end of `s`. */
  predicate OneSpaceAfter(s: string, c: char) {
    forall k | 0 <= k < |s| && s[k] == c :: k + 1 < |s| && s[k + 1] == ' ' && (k + 2 < |s| ==> !IsSpace(s[k + 2]))
  }

  lemma {:induction false} OneSpaceAfterAppend(a: string, b: string, c: char)
    requires OneSpaceAfter(a, c) && OneSpaceAfter(b, c)
    requires a != [] && a[|a| - 1] != c
    requires b != [] ==> !IsSpace(b[0])
    ensures OneSpaceAfter(a + b, c)
  {
    var s := a + b;
    forall k | 0 <= k < |s| && s[k] == c
      ensures k + 1 < |s| && s[k + 1] == ' ' && (k + 2 < |s| ==> !IsSpace(s[k + 2]))
    {
      if k < |a| {
        assert a[k] == c;
        assert s[k + 1] == a[k + 1];
        if k + 2 < |a| {
          assert s[k + 2] == a[k + 2];
        } else if k + 2 < |s| {
          assert s[k + 2] == b[0];
        }
      } else {
        assert b[k - |a|] == c;
        assert s[k + 1] == b[k + 1 - |a|];
        assert k + 2 < |s| ==> s[k + 2] == b[k + 2 - |a|];
      }
    }
  }

  lemma {:induction false} OneSpaceAfterCons(x: char, rest: string, c: char)
    requires OneSpaceAfter(rest, c)
    requires x == c ==> rest != [] && rest[0] == ' ' && (|rest| > 1 ==> !IsSpace(rest[1]))
    ensures OneSpaceAfter([x] + rest, c)
  {
    var s := [x] + rest;
    forall k | 0 <= k < |s| && s[k] == c
      ensures k + 1 < |s| && s[k + 1] == ' ' && (k + 2 < |s| ==> !IsSpace(s[k + 2]))
    {
      if k > 0 {
        assert s[k] == rest[k - 1];
        assert s[k + 1] == rest[k];
        assert k + 2 < |s| ==> s[k + 2] == rest[k + 1];
      }
    }
  }

  /** Emitted text that does not end with `c` and puts one space after each `c`. */
  predicate ClosedOnce(out: string, c: char) {
    out != [] && out[|out| - 1] != c && OneSpaceAfter(out, c)
  }

  /** The conditions under which a scan puts exactly one space after every `c`: every
      match emits text that is `ClosedOnce` for `c` and is followed by emitted text that
      starts with a non-space character; a copied `c` is followed in `t` by a space
      that is copied too, and then by text whose emission starts with a non-space. */
  predicate SpacedOnce(hits: seq<Option<Hit>>, t: string, c: char, i: nat)
    requires Fits(hits, t)
  {
    (forall p | i <= p < |t| && hits[p].Some? ::
       ClosedOnce(hits[p].value.out, c) && HeadAt(hits, t, p + hits[p].value.len))
    && (forall p | i <= p < |t| && hits[p].None? && t[p] == c ::
          p + 1 < |t| && t[p + 1] == ' ' && hits[p + 1].None? && HeadAt(hits, t, p + 2))
  }

  lemma {:induction false} ScanOneSpaceAfterCopy(hits: seq<Option<Hit>>, t: string, c: char, i: nat)
    requires Fits(hits, t) && i < |t| && hits[i].None? && SpacedOnce(hits, t, c, i)
    requires OneSpaceAfter(Scan(hits, t, i + 1), c)
    ensures OneSpaceAfter(Scan(hits, t, i), c)
  {
    var rest := Scan(hits, t, i + 1);
    ScanHead(hits, t, i);
    if t[i] == c {
      ScanHead(hits, t, i + 1);
      assert rest == [' '] + Scan(hits, t, i + 2);
      ScanHeadAt(hits, t, i + 2);
    }
    OneSpaceAfterCons(t[i], rest, c);
  }

  /** Every `c` the scan emits is followed by exactly one space, then by a non-space
      character or the end. */
  lemma {:induction false} ScanOneSpaceAfter(hits: seq<Option<Hit>>, t: string, c: char, i: nat)
    requires Fits(hits, t) && i <= |t| && SpacedOnce(hits, t, c, i)
    ensures OneSpaceAfter(Scan(hits, t, i), c)
    decreases |t| - i
  {
    if i < |t| {
      match hits[i]
      case Some(h) =>
        assert ClosedOnce(h.out, c) && HeadAt(hits, t, i + h.len);
        ScanOneSpaceAfter(hits, t, c, i + h.len);
        ScanHead(hits, t, i);
        ScanHeadAt(hits, t, i + h.len);
        OneSpaceAfterAppend(h.out, Scan(hits, t, i + h.len), c);
      case None =>
        ScanOneSpaceAfter(hits, t, c, i + 1);
        ScanOneSpaceAfterCopy(hits, t, c, i);
    }
  }

  // ---------------------------------------------------------------------------
  // Characters kept up to a renaming.
  // ---------------------------------------------------------------------------

  /** `s` with each character replaced by its image under `f`. */
  function MapChars(f: char -> char, s: string): string {
    seq(|s|, k requires 0 <= k < |s| => f(s[k]))
  }

  lemma MapCharsAppend(f: char -> char, a: string, b: string)
    ensures MapChars(f, a + b) == MapChars(f, a) + MapChars(f, b)
  {
  }

  /** Every match from `i` on emits, among the characters `keep` accepts, the images under
      `f` of those it consumes, and every copied character `keep` accepts is its own image. */
  predicate HitsMap(hits: seq<Option<Hit>>, t: string, keep: char -> bool, f: char -> char, i: nat)
    requires Fits(hits, t)
  {
    (forall p | i <= p < |t| && hits[p].Some? ::
       Filter(keep, hits[p].value.out) == MapChars(f, Filter(keep, t[p..p + hits[p].value.len])))
    && (forall p | i <= p < |t| && hits[p].None? && keep(t[p]) :: f(t[p]) == t[p])
  }

  lemma {:induction false} FilterOne(keep: char -> bool, x: char)
    ensures Filter(keep, [x]) == if keep(x) then [x] else []
  {
    assert [x][1..] == [];
  }

  /** The characters a scan keeps are, in order, the images of the ones it was given. */
  lemma {:induction false} ScanFilterMap(hits: seq<Option<Hit>>, t: string, keep: char -> bool, f: char -> char, i: nat)
    requires Fits(hits, t) && i <= |t| && HitsMap(hits, t, keep, f, i)
    ensures Filter(keep, Scan(hits, t, i)) == MapChars(f, Filter(keep, t[i..]))
    decreases |t| - i
  {
    if i == |t| {
      assert t[i..] == [];
    } else {
      var n := if hits[i].Some? then i + hits[i].value.len else i + 1;
      HitsMapFrom(hits, t, keep, f, i, n);
      ScanFilterMap(hits, t, keep, f, n);
      if hits[i].Some? {
        ScanFilterMapHit(hits, t, keep, f, i);
      } else {
        ScanFilterMapCopy(hits, t, keep, f, i);
      }
    }
  }

  lemma {:induction false} HitsMapFrom(hits: seq<Option<Hit>>, t: string, keep: char -> bool, f: char -> char, i: nat, n: nat)
    requires Fits(hits, t) && i <= n <= |t| && HitsMap(hits, t, keep, f, i)
    ensures HitsMap(hits, t, keep, f, n)
  {
  }

  /** The step of `ScanFilterMap` over a match. */
  lemma {:induction false} ScanFilterMapHit(hits: seq<Option<Hit>>, t: string, keep: char -> bool, f: char -> char, i: nat)
    requires Fits(hits, t) && i < |t| && HitsMap(hits, t, keep, f, i) && hits[i].Some?
    requires var n := i + hits[i].value.len;
      Filter(keep, Scan(hits, t, n)) == MapChars(f, Filter(keep, t[n..]))
    ensures Filter(keep, Scan(hits, t, i)) == MapChars(f, Filter(keep, t[i..]))
  {
    var h := hits[i].value;
    var n := i + h.len;
    assert Filter(keep, h.out) == MapChars(f, Filter(keep, t[i..n]));
    assert Scan(hits, t, i) == h.out + Scan(hits, t, n);
    assert t[i..] == t[i..n] + t[n..];
    FilterMapJoin(keep, f, h.out, Scan(hits, t, n), t[i..n], t[n..]);
  }

  /** Two pieces whose kept characters are the images of those of two others join into
      a piece whose kept characters are the images of those of the joined others. */
  lemma {:induction false} FilterMapJoin(keep: char -> bool, f: char -> char, a: string, b: string, x: string, y: string)
    requires Filter(keep, a) == MapChars(f, Filter(keep, x))
    requires Filter(keep, b) == MapChars(f, Filter(keep, y))
    ensures Filter(keep, a + b) == MapChars(f, Filter(keep, x + y))
  {
    FilterAppend(keep, a, b);
    FilterAppend(keep, x, y);
    MapCharsAppend(f, Filter(keep, x), Filter(keep, y));
  }

  /** The step of `ScanFilterMap` over a copied character. */
  lemma {:induction false} ScanFilterMapCopy(hits: seq<Option<Hit>>, t: string, keep: char -> bool, f: char -> char, i: nat)
    requires Fits(hits, t) && i < |t| && HitsMap(hits, t, keep, f, i) && hits[i].None?
    requires Filter(keep, Scan(hits, t, i + 1)) == MapChars(f, Filter(keep, t[i + 1..]))
    ensures Filter(keep, Scan(hits, t, i)) == MapChars(f, Filter(keep, t[i..]))
  {
    ScanFilterCopy(hits, t, keep, i);
    FilterOne(keep, t[i]);
    MapCharsAppend(f, Filter(keep, [t[i]]), Filter(keep, t[i + 1..]));
    assert MapChars(f, Filter(keep, [t[i]])) == Filter(keep, [t[i]]);
  }

  // ---------------------------------------------------------------------------
  // Single spacing through a scan.
  // ---------------------------------------------------------------------------

  /** Every whitespace character is a plain space, and no two of them are adjacent. */
  predicate SingleSpaced(s: string) {
    forall k | 0 <= k < |s| && IsSpace(s[k]) :: s[k] == ' ' && (k + 1 < |s| ==> !IsSpace(s[k + 1]))
  }

  lemma {:induction false} SingleSpacedAppend(a: string, b: string)
    requires SingleSpaced(a) && SingleSpaced(b)
    requires a != [] && IsSpace(a[|a| - 1]) && b != [] ==> !IsSpace(b[0])
    ensures SingleSpaced(a + b)
  {
    var s := a + b;
    forall k | 0 <= k < |s| && IsSpace(s[k]) ensures s[k] == ' ' && (k + 1 < |s| ==> !IsSpace(s[k + 1])) {
      if k < |a| {
        assert s[k] == a[k];
        if k + 1 < |a| {
          assert s[k + 1] == a[k + 1];
        } else if k + 1 < |s| {
          assert s[k + 1] == b[0];
        }
      } else {
        assert s[k] == b[k - |a|];
        if k + 1 < |s| {
          assert s[k + 1] == b[k + 1 - |a|];
        }
      }
    }
  }

  lemma {:induction false} SingleSpacedSlice(s: string, i: nat, j: nat)
    requires SingleSpaced(s) && i <= j <= |s|
    ensures SingleSpaced(s[i..j])
  {
    var r := s[i..j];
    forall k | 0 <= k < |r| && IsSpace(r[k]) ensures r[k] == ' ' && (k + 1 < |r| ==> !IsSpace(r[k + 1])) {
      assert r[k] == s[i + k];
      if k + 1 < |r| {
        assert r[k + 1] == s[i + k + 1];
      }
    }
  }

  /** Every replacement from `i` on is single-spaced and starts with a non-space
      character, and one that ends with a space is followed by text whose emission
      starts with a non-space character. */
  predicate WritesSpaced(hits: seq<Option<Hit>>, t: string, i: nat)
    requires Fits(hits, t)
  {
    forall p | i <= p < |t| && hits[p].Some? ::
      && hits[p].value.out != [] && !IsSpace(hits[p].value.out[0]) && SingleSpaced(hits[p].value.out)
      && (IsSpace(hits[p].value.out[|hits[p].value.out| - 1]) ==> HeadAt(hits, t, p + hits[p].value.len))
  }

  /** Such replacements keep single-spaced text single-spaced. */
  lemma {:induction false} ScanSingleSpaced(hits: seq<Option<Hit>>, t: string, i: nat)
    requires Fits(hits, t) && i <= |t| && SingleSpaced(t) && WritesSpaced(hits, t, i)
    ensures SingleSpaced(Scan(hits, t, i))
    decreases |t| - i
  {
    if i < |t| {
      match hits[i]
      case Some(h) =>
        ScanSingleSpaced(hits, t, i + h.len);
        if IsSpace(h.out[|h.out| - 1]) {
          ScanHeadAt(hits, t, i + h.len);
        }
        SingleSpacedAppend(h.out, Scan(hits, t, i + h.len));
      case None =>
        ScanSingleSpaced(hits, t, i + 1);
        if IsSpace(t[i]) {
          assert HeadAt(hits, t, i + 1);
          ScanHeadAt(hits, t, i + 1);
        }
        SingleSpacedAppend([t[i]], Scan(hits, t, i + 1));
    }
  }

  // ---------------------------------------------------------------------------
  // Stretches a scan leaves as they are.
  // ---------------------------------------------------------------------------

  /** From `i` to `j` every replacement equals the text it covers and none reaches past `j`. */
  predicate SameUpTo(hits: seq<Option<Hit>>, t: string, i: nat, j: nat)
    requires Fits(hits, t) && i <= j <= |t|
  {
    forall p | i <= p < j && hits[p].Some? ::
      p + hits[p].value.len <= j && hits[p].value.out == t[p..p + hits[p].value.len]
  }

  /** One step of a scan over a replacement that equals the text it covers. */
  lemma {:induction false} ScanSameStep(hits: seq<Option<Hit>>, t: string, i: nat)
    requires Fits(hits, t) && i < |t|
    requires hits[i].Some? ==> hits[i].value.out == t[i..i + hits[i].value.len]
    ensures var k := if hits[i].Some? then i + hits[i].value.len else i + 1;
      Scan(hits, t, i) == t[i..k] + Scan(hits, t, k)
  {
  }

  lemma {:induction false} SliceJoin(t: string, i: nat, k: nat, j: nat, rest: string)
    requires i <= k <= j <= |t|
    ensures t[i..k] + (t[k..j] + rest) == t[i..j] + rest
  {
    assert t[i..j] == t[i..k] + t[k..j];
  }

  lemma {:induction false} ScanSame(hits: seq<Option<Hit>>, t: string, i: nat, j: nat)
    requires Fits(hits, t) && i <= j <= |t| && SameUpTo(hits, t, i, j)
    ensures Scan(hits, t, i) == t[i..j] + Scan(hits, t, j)
    decreases j - i
  {
    if i < j {
      var k := if hits[i].Some? then i + hits[i].value.len else i + 1;
      ScanSameStep(hits, t, i);
      ScanSame(hits, t, k, j);
      SliceJoin(t, i, k, j, Scan(hits, t, j));
    }
  }



  // ---------------------------------------------------------------------------
  // Scanning a suffix
  // ---------------------------------------------------------------------------

  /** The scan from `i` on depends only on the text and the table from `i` on: a table
      for the suffix `t[d..]` that agrees with `hits` there scans it alike. */
  lemma {:induction false} ScanShift(hits: seq<Option<Hit>>, t: string, hits2: seq<Option<Hit>>, u: string,
                                     d: nat, i: nat)
    requires Fits(hits, t) && Fits(hits2, u) && d <= i <= |t| && u == t[d..]
    requires forall p | 0 <= p < |u| :: hits2[p] == hits[p + d]
    ensures Scan(hits, t, i) == Scan(hits2, u, i - d)
    decreases |t| - i
  {
    if i < |t| {
      assert hits2[i - d] == hits[i];
      assert u[i - d] == t[i];
      match hits[i]
      case Some(h) =>
        ScanShift(hits, t, hits2, u, d, i + h.len);
        assert Scan(hits, t, i) == h.out + Scan(hits, t, i + h.len);
        assert Scan(hits2, u, i - d) == h.out + Scan(hits2, u, i - d + h.len);
      case None =>
        ScanShift(hits, t, hits2, u, d, i + 1);
        assert Scan(hits, t, i) == [t[i]] + Scan(hits, t, i + 1);
        assert Scan(hits2, u, i - d) == [u[i - d]] + Scan(hits2, u, i - d + 1);
    }
  }

  /** A scan with no match before `i` and a match of `1 + n` characters at `i` copies the
      text before `i`, writes the match's replacement `out`, and goes on after the match. */
  lemma {:induction false} ScanFirstHit(hits: seq<Option<Hit>>, t: string, i: nat, n: nat, out: string)
    requires Fits(hits, t) && i < |t| && NoHit(hits, 0, i) && hits[i] == Some(Hit(1 + n, out))
    ensures Scan(hits, t, 0) == t[..i] + (out + Scan(hits, t, i + 1 + n))
  {
    ScanCopies(hits, t, 0, i);
    assert t[0..i] == t[..i];
  }

  /** A scan of text that ends in a non-space character ends in one too, when no match
      reaches the end of the text. */
  lemma {:induction false} ScanKeepsLast(hits: seq<Option<Hit>>, t: string, i: nat)
    requires Fits(hits, t) && i < |t| && !IsSpace(t[|t| - 1])
    requires forall p | i <= p < |t| && hits[p].Some? :: p + hits[p].value.len < |t|
    ensures var r := Scan(hits, t, i); r != [] && !IsSpace(r[|r| - 1])
    decreases |t| - i
  {
    var r := Scan(hits, t, i);
    match hits[i]
    case Some(h) =>
      ScanKeepsLast(hits, t, i + h.len);
      var rest := Scan(hits, t, i + h.len);
      assert r == h.out + rest;
      assert r[|r| - 1] == rest[|rest| - 1];
    case None =>
      if i + 1 < |t| {
        ScanKeepsLast(hits, t, i + 1);
        var rest := Scan(hits, t, i + 1);
        assert r == [t[i]] + rest;
        assert r[|r| - 1] == rest[|rest| - 1];
      } else {
        assert Scan(hits, t, i + 1) == [];
        assert r == [t[i]];
      }
  }
}
