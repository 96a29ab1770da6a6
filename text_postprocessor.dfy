/** The reconciler and record builder that run on the decoded model answer
    (src/infrastructure/text_postprocessor.py). `normalize_field_names` maps whatever
    keys the language model used onto the four canonical ones (exact key, then a fixed
    list of synonyms, then the most similar key by `difflib`), and `build_incident_info`
    turns the result into an `IncidentInfo`, parsing the date with two `strptime`
    formats.

    `difflib.SequenceMatcher(None, a, b).ratio()` is a floating-point library computation;
    it is the parameter `ratio` here, and only the threshold and arg-max logic around it
    is modelled. */
module TextPostprocessing {
  import opened Wrappers
  import opened PyStr
  import opened Calendar
  import opened Dicts
  import opened Entities

  /** `EXPECTED_FIELDS`: each canonical key with its synonyms, in declaration order. */
  const ExpectedFields: seq<(string, seq<string>)> := [
    ("data_ocorrencia", ["data_ocoorrencia", "data_ocorencia", "data_ocorr\U{EA}ncia", "data_incidente", "data"]),
    ("local", ["location", "lugar", "localizacao", "localiza\U{E7}\U{E3}o"]),
    ("tipo_incidente", ["tipo_incidentde", "tipo_incidende", "tipo", "categoria", "type"]),
    ("impacto", ["impact", "impactos", "consequencia", "consequ\U{EA}ncia", "efeito"])
  ]

  /** The default `threshold` of `_find_best_field_match`. */
  const Threshold: real := 0.6

  /** The canonical keys of `EXPECTED_FIELDS` are the fields `IncidentInfo.to_dict` writes,
      in the same order. */
  lemma ExpectedKeysAreFieldNames()
    ensures |ExpectedFields| == |FieldNames|
    ensures forall i | 0 <= i < |FieldNames| :: ExpectedFields[i].0 == FieldNames[i]
  {
  }

  // ---------------------------------------------------------------------------
  // `_find_best_field_match`
  // ---------------------------------------------------------------------------

  /** The ratio the loop compares: both names lower-cased first. */
  function Similarity(ratio: (string, string) -> real, target: string, field: string): real {
    ratio(Lower(target), Lower(field))
  }

  /** `(best_match, best_ratio)` after the loop has seen `fields`. */
  function BestSoFar(ratio: (string, string) -> real, target: string, fields: seq<string>): (r: (Option<string>, real))
    ensures r.0.Some? ==> r.0.value in fields
    decreases |fields|
  {
    if fields == [] then (None, 0.0)
    else
      var prev := BestSoFar(ratio, target, fields[..|fields| - 1]);
      var field := fields[|fields| - 1];
      var x := Similarity(ratio, target, field);
      if x > prev.1 && x >= Threshold then (Some(field), x) else prev
  }

  /** What `_find_best_field_match(target, fields)` returns. */
  function BestFieldMatch(ratio: (string, string) -> real, target: string, fields: seq<string>): (r: Option<string>)
    ensures r.Some? ==> r.value in fields
  {
    BestSoFar(ratio, target, fields).0
  }

  /** `_find_best_field_match`: one pass over the keys, keeping a key only when its ratio
      beats the best so far and reaches the threshold. */
  method FindBestFieldMatch(ratio: (string, string) -> real, target: string, fields: seq<string>)
    returns (bestMatch: Option<string>)
    ensures bestMatch == BestFieldMatch(ratio, target, fields)
  {
    bestMatch := None;
    var bestRatio := 0.0;
    for i := 0 to |fields|
      invariant (bestMatch, bestRatio) == BestSoFar(ratio, target, fields[..i])
    {
      assert fields[..i + 1][..i] == fields[..i];
      var r := Similarity(ratio, target, fields[i]);
      if r > bestRatio && r >= Threshold {
        bestRatio := r;
        bestMatch := Some(fields[i]);
      }
    }
    assert fields[..|fields|] == fields;
  }

  /** The reference answer: `k` holds a key whose ratio reaches the threshold, no key
      has a higher ratio, and every earlier key has a strictly lower one. */
  predicate EarliestBest(ratio: (string, string) -> real, target: string, fields: seq<string>, k: int) {
    && 0 <= k < |fields|
    && Similarity(ratio, target, fields[k]) >= Threshold
    && (forall j | 0 <= j < |fields| :: Similarity(ratio, target, fields[j]) <= Similarity(ratio, target, fields[k]))
    && (forall j | 0 <= j < k :: Similarity(ratio, target, fields[j]) < Similarity(ratio, target, fields[k]))
  }

  /** What the loop keeps: nothing while no key reached the threshold, otherwise the
      earliest key of maximal ratio together with that ratio. */
  predicate BestSoFarIsEarliestBest(ratio: (string, string) -> real, target: string, fields: seq<string>) {
    var (best, bestRatio) := BestSoFar(ratio, target, fields);
    if best.None? then
      bestRatio == 0.0 && forall j | 0 <= j < |fields| :: Similarity(ratio, target, fields[j]) < Threshold
    else
      exists k | 0 <= k < |fields| :: fields[k] == best.value && Similarity(ratio, target, fields[k]) == bestRatio
        && EarliestBest(ratio, target, fields, k)
  }

  lemma {:induction false} BestSoFarStep(ratio: (string, string) -> real, target: string, fields: seq<string>)
    requires fields != []
    requires BestSoFarIsEarliestBest(ratio, target, fields[..|fields| - 1])
    ensures BestSoFarIsEarliestBest(ratio, target, fields)
  {
    var n := |fields| - 1;
    var init := fields[..n];
    var (best, bestRatio) := BestSoFar(ratio, target, init);
    var x := Similarity(ratio, target, fields[n]);
    assert forall j | 0 <= j < n :: init[j] == fields[j];
    if x > bestRatio && x >= Threshold {
      assert EarliestBest(ratio, target, fields, n) by {
        if best.Some? {
          var k :| 0 <= k < n && init[k] == best.value && Similarity(ratio, target, init[k]) == bestRatio
            && EarliestBest(ratio, target, init, k);
        }
      }
    } else if best.Some? {
      var k :| 0 <= k < n && init[k] == best.value && Similarity(ratio, target, init[k]) == bestRatio
        && EarliestBest(ratio, target, init, k);
      assert EarliestBest(ratio, target, fields, k);
    }
  }

  lemma {:induction false} BestSoFarInvariant(ratio: (string, string) -> real, target: string, fields: seq<string>)
    ensures BestSoFarIsEarliestBest(ratio, target, fields)
    decreases |fields|
  {
    if fields != [] {
      BestSoFarInvariant(ratio, target, fields[..|fields| - 1]);
      BestSoFarStep(ratio, target, fields);
    }
  }

  /** Two indices that both pass as the earliest best are the same index. */
  lemma EarliestBestUnique(ratio: (string, string) -> real, target: string, fields: seq<string>, k1: int, k2: int)
    requires EarliestBest(ratio, target, fields, k1) && EarliestBest(ratio, target, fields, k2)
    ensures k1 == k2
  {
  }

  /** `_find_best_field_match` returns `None` exactly when no key reaches the threshold,
      and otherwise the key with the highest ratio, the earliest one on a tie. */
  lemma BestFieldMatchSpec(ratio: (string, string) -> real, target: string, fields: seq<string>)
    ensures BestFieldMatch(ratio, target, fields).None?
        <==> forall j | 0 <= j < |fields| :: Similarity(ratio, target, fields[j]) < Threshold
    ensures forall k | EarliestBest(ratio, target, fields, k) :: BestFieldMatch(ratio, target, fields) == Some(fields[k])
    ensures BestFieldMatch(ratio, target, fields).Some? ==>
      exists k :: EarliestBest(ratio, target, fields, k) && fields[k] == BestFieldMatch(ratio, target, fields).value
  {
    BestSoFarInvariant(ratio, target, fields);
    var best := BestFieldMatch(ratio, target, fields);
    forall k | EarliestBest(ratio, target, fields, k) ensures best == Some(fields[k]) {
      if best.Some? {
        var k' :| 0 <= k' < |fields| && fields[k'] == best.value && EarliestBest(ratio, target, fields, k');
        EarliestBestUnique(ratio, target, fields, k, k');
      }
    }
  }

  // ---------------------------------------------------------------------------
  // `normalize_field_names`
  // ---------------------------------------------------------------------------

  /** The value of the first synonym present in `data` (the loop `break`s there even when
      that value is `None`), or `None` when no synonym is present. */
  function FirstSynonym(data: Dict, variations: seq<string>): (v: Value)
    ensures v != Null ==> exists k | 0 <= k < |variations| :: Get(data, variations[k]) == Some(v)
  {
    if variations == [] then Null
    else if HasKey(data, variations[0]) then Get(data, variations[0]).value
    else
      var v := FirstSynonym(data, variations[1..]);
      assert v != Null ==> exists k | 0 <= k < |variations[1..]| :: Get(data, variations[1..][k]) == Some(v);
      v
  }

  /** The value the loop body settles on for the canonical key `key`, `Null` standing
      for Python's `None`: the key's own value when the key is present (even `None`);
      otherwise the first present synonym's value; and when that is `None` too, the
      value of the best fuzzy match, if it is a non-empty key (`if best_match:`). */
  function Resolve(ratio: (string, string) -> real, data: Dict, key: string, variations: seq<string>): (v: Value)
    ensures HasKey(data, key) ==> Get(data, key) == Some(v)
    ensures v != Null ==> exists i | 0 <= i < |data| :: data[i].1 == v
  {
    if HasKey(data, key) then Get(data, key).value
    else
      var v := FirstSynonym(data, variations);
      if v != Null then v
      else
        match BestFieldMatch(ratio, key, Keys(data))
        case Some(m) =>
          if m != "" then
            assert HasKey(data, m) by {
              var k :| 0 <= k < |Keys(data)| && Keys(data)[k] == m;
              assert data[k].0 == m;
            }
            Get(data, m).value
          else Null
        case None => Null
  }

  /** The value settled on for each canonical key, in `EXPECTED_FIELDS` order. */
  function Resolved(ratio: (string, string) -> real, data: Dict): (vs: seq<Value>)
    ensures |vs| == |ExpectedFields|
    ensures forall i | 0 <= i < |vs| :: vs[i] == Resolve(ratio, data, ExpectedFields[i].0, ExpectedFields[i].1)
  {
    seq(|ExpectedFields|, i requires 0 <= i < |ExpectedFields| => Resolve(ratio, data, ExpectedFields[i].0, ExpectedFields[i].1))
  }

  /** The dict the loop builds: each key whose value is not `None`, in order. */
  function Collect(keys: seq<string>, vals: seq<Value>): (r: seq<(string, Value)>)
    requires |keys| == |vals|
    ensures |r| <= |keys|
    decreases |keys|
  {
    if keys == [] then []
    else
      var n := |keys| - 1;
      var prefix := Collect(keys[..n], vals[..n]);
      if vals[n] != Null then prefix + [(keys[n], vals[n])] else prefix
  }

  /** The dict holds exactly the pairs whose value is not `None`. */
  lemma {:induction false} CollectPairs(keys: seq<string>, vals: seq<Value>)
    requires |keys| == |vals|
    ensures forall p | p in Collect(keys, vals) :: p.1 != Null && exists j | 0 <= j < |keys| :: p == (keys[j], vals[j])
    ensures forall j | 0 <= j < |keys| && vals[j] != Null :: (keys[j], vals[j]) in Collect(keys, vals)
    decreases |keys|
  {
    if keys != [] {
      var n := |keys| - 1;
      var prefix := Collect(keys[..n], vals[..n]);
      CollectPairs(keys[..n], vals[..n]);
      forall p | p in prefix ensures exists j | 0 <= j < |keys| :: p == (keys[j], vals[j]) {
        var j :| 0 <= j < n && p == (keys[..n][j], vals[..n][j]);
        assert p == (keys[j], vals[j]);
      }
      forall j | 0 <= j < n && vals[j] != Null ensures (keys[j], vals[j]) in prefix {
        assert keys[..n][j] == keys[j] && vals[..n][j] == vals[j];
      }
    }
  }

  /** What `normalize_field_names(data)` returns. */
  function Normalized(ratio: (string, string) -> real, data: Dict): (r: seq<(string, Value)>)
    ensures |r| <= |FieldNames|
    ensures forall p | p in r :: p.0 in FieldNames && p.1 != Null
    ensures forall i | 0 <= i < |ExpectedFields| ::
      var v := Resolve(ratio, data, ExpectedFields[i].0, ExpectedFields[i].1);
      v != Null ==> (ExpectedFields[i].0, v) in r
  {
    ExpectedKeysAreFieldNames();
    var vs := Resolved(ratio, data);
    CollectPairs(FieldNames, vs);
    assert forall i | 0 <= i < |ExpectedFields| :: ExpectedFields[i].0 == FieldNames[i] && vs[i] == Resolve(ratio, data, ExpectedFields[i].0, ExpectedFields[i].1);
    Collect(FieldNames, vs)
  }

  /** `normalize_field_names`: for each canonical key, the exact key, else the synonyms in
      order up to the first one present, else the fuzzy match; a non-`None` result is
      stored under the canonical key. */
  method NormalizeFieldNames(ratio: (string, string) -> real, data: Dict) returns (normalized: seq<(string, Value)>)
    ensures normalized == Normalized(ratio, data)
  {
    normalized := [];
    for i := 0 to |ExpectedFields|
      invariant normalized == Collect(FieldNames[..i], Resolved(ratio, data)[..i])
    {
      assert FieldNames[..i + 1][..i] == FieldNames[..i];
      assert Resolved(ratio, data)[..i + 1][..i] == Resolved(ratio, data)[..i];
      ExpectedKeysAreFieldNames();
      var (expectedField, variations) := ExpectedFields[i];
      var value := Null;
      if HasKey(data, expectedField) {
        value := Get(data, expectedField).value;
      } else {
        var j := 0;
        while j < |variations|
          invariant 0 <= j <= |variations|
          invariant value == Null && FirstSynonym(data, variations[j..]) == FirstSynonym(data, variations)
        {
          assert variations[j..][1..] == variations[j + 1..];
          if HasKey(data, variations[j]) {
            value := Get(data, variations[j]).value;
            break;
          }
          j := j + 1;
        }
        if value == Null {
          var bestMatch := FindBestFieldMatch(ratio, expectedField, Keys(data));
          if bestMatch.Some? && bestMatch.value != "" {
            value := Get(data, bestMatch.value).value;
          }
        }
      }
      if value != Null {
        normalized := normalized + [(expectedField, value)];
      }
    }
    assert FieldNames[..|FieldNames|] == FieldNames;
    assert Resolved(ratio, data)[..|FieldNames|] == Resolved(ratio, data);
  }

  /** The keys `Collect` writes are distinct keys of `keys`, with values other than `None`. */
  lemma {:induction false} CollectShape(keys: seq<string>, vals: seq<Value>)
    requires |keys| == |vals|
    requires forall a, b | 0 <= a < b < |keys| :: keys[a] != keys[b]
    ensures var out := Collect(keys, vals);
      DistinctKeys(out) && forall e | 0 <= e < |out| :: out[e].1 != Null && out[e].0 in keys
    decreases |keys|, 1
  {
    if keys != [] {
      var n := |keys| - 1;
      CollectShape(keys[..n], vals[..n]);
      CollectLacksLast(keys, vals);
    }
  }

  /** The entries collected before the last key do not hold that key. */
  lemma {:induction false} CollectLacksLast(keys: seq<string>, vals: seq<Value>)
    requires |keys| == |vals| && keys != []
    requires forall a, b | 0 <= a < b < |keys| :: keys[a] != keys[b]
    ensures var n := |keys| - 1; !HasKey(Collect(keys[..n], vals[..n]), keys[n])
    decreases |keys|, 0
  {
    var n := |keys| - 1;
    var init := keys[..n];
    var prefix := Collect(init, vals[..n]);
    CollectShape(init, vals[..n]);
    forall e | 0 <= e < |prefix| ensures prefix[e].0 != keys[n] {
      var a :| 0 <= a < n && init[a] == prefix[e].0;
    }
  }

  /** The lookup of key `i` finds its value, or nothing when that value is `None`. */
  lemma {:induction false} CollectGet(keys: seq<string>, vals: seq<Value>, i: nat)
    requires |keys| == |vals| && i < |keys|
    requires forall a, b | 0 <= a < b < |keys| :: keys[a] != keys[b]
    ensures Get(Collect(keys, vals), keys[i]) == if vals[i] != Null then Some(vals[i]) else None
    decreases |keys|
  {
    var n := |keys| - 1;
    var prefix := Collect(keys[..n], vals[..n]);
    if i < n {
      CollectGet(keys[..n], vals[..n], i);
      if vals[n] != Null {
        GetSkipsLast(prefix, keys[n], vals[n], keys[i]);
      }
    } else {
      CollectLacksLast(keys, vals);
      if vals[n] != Null {
        GetAppendNew(prefix, keys[n], vals[n]);
      } else {
        GetMissing(prefix, keys[n]);
      }
    }
  }

  /** When no value is `None`, every key is written, in order. */
  lemma {:induction false} CollectAll(keys: seq<string>, vals: seq<Value>, out: seq<(string, Value)>)
    requires |keys| == |vals| == |out|
    requires forall i | 0 <= i < |keys| :: out[i] == (keys[i], vals[i]) && vals[i] != Null
    ensures Collect(keys, vals) == out
    decreases |keys|
  {
    if keys != [] {
      var n := |keys| - 1;
      CollectAll(keys[..n], vals[..n], out[..n]);
      assert out == out[..n] + [out[n]];
    }
  }

  lemma GetMissing(d: seq<(string, Value)>, key: string)
    requires !HasKey(d, key)
    ensures Get(d, key) == None
  {
  }

  /** Appending an entry under another key leaves a lookup unchanged. */
  lemma {:induction false} GetSkipsLast(d: seq<(string, Value)>, k: string, v: Value, key: string)
    requires k != key
    ensures Get(d + [(k, v)], key) == Get(d, key)
    decreases |d|
  {
    if d == [] {
      assert Get([(k, v)], key) == Get([(k, v)][1..], key);
    } else {
      assert (d + [(k, v)])[1..] == d[1..] + [(k, v)];
      GetSkipsLast(d[1..], k, v, key);
    }
  }

  /** Appending an entry under a key not yet present makes the lookup find it. */
  lemma {:induction false} GetAppendNew(d: seq<(string, Value)>, key: string, v: Value)
    requires !HasKey(d, key)
    ensures Get(d + [(key, v)], key) == Some(v)
    decreases |d|
  {
    if d != [] {
      assert (d + [(key, v)])[1..] == d[1..] + [(key, v)];
      assert !HasKey(d[1..], key) by {
        forall e | 0 <= e < |d[1..]| ensures d[1..][e].0 != key {
          assert d[1..][e] == d[e + 1];
        }
      }
      GetAppendNew(d[1..], key, v);
    }
  }

  lemma FieldNamesDistinct()
    ensures forall a, b | 0 <= a < b < |FieldNames| :: FieldNames[a] != FieldNames[b]
  {
  }

  /** Only canonical keys come out, each at most once, and none with a `None` value. */
  lemma NormalizedShape(ratio: (string, string) -> real, data: Dict)
    ensures var out := Normalized(ratio, data);
      DistinctKeys(out) && forall e | 0 <= e < |out| :: out[e].1 != Null && out[e].0 in FieldNames
  {
    FieldNamesDistinct();
    CollectShape(FieldNames, Resolved(ratio, data));
  }

  /** The value found under canonical key `i` of the output is its resolved value, and
      the key is absent when that value is `None`. */
  lemma NormalizedGet(ratio: (string, string) -> real, data: Dict, i: nat)
    requires i < |ExpectedFields|
    ensures var v := Resolve(ratio, data, ExpectedFields[i].0, ExpectedFields[i].1);
      Get(Normalized(ratio, data), ExpectedFields[i].0) == if v != Null then Some(v) else None
  {
    FieldNamesDistinct();
    ExpectedKeysAreFieldNames();
    CollectGet(FieldNames, Resolved(ratio, data), i);
  }

  /** The synonym loop stops at the first synonym present, whatever its value. */
  lemma {:induction false} FirstSynonymIsFirstPresent(data: Dict, variations: seq<string>, k: nat)
    requires k < |variations| && HasKey(data, variations[k])
    requires forall j | 0 <= j < k :: !HasKey(data, variations[j])
    ensures FirstSynonym(data, variations) == Get(data, variations[k]).value
    decreases k
  {
    if k > 0 {
      assert !HasKey(data, variations[0]);
      var rest := variations[1..];
      assert forall j | 0 <= j < k - 1 :: rest[j] == variations[j + 1];
      FirstSynonymIsFirstPresent(data, rest, k - 1);
    }
  }

  /** With no synonym present, the synonym loop yields `None`. */
  lemma {:induction false} FirstSynonymOfAbsent(data: Dict, variations: seq<string>)
    requires forall j | 0 <= j < |variations| :: !HasKey(data, variations[j])
    ensures FirstSynonym(data, variations) == Null
    decreases |variations|
  {
    if variations != [] {
      var rest := variations[1..];
      assert forall j | 0 <= j < |rest| :: rest[j] == variations[j + 1];
      FirstSynonymOfAbsent(data, rest);
    }
  }

  /** A canonical key present in the input decides its field alone: its value is kept,
      and a `None` there drops the field even when a synonym carries a value. */
  lemma CanonicalKeyWins(ratio: (string, string) -> real, data: Dict, i: nat)
    requires i < |ExpectedFields| && HasKey(data, ExpectedFields[i].0)
    ensures var v := Get(data, ExpectedFields[i].0).value;
      Get(Normalized(ratio, data), ExpectedFields[i].0) == if v != Null then Some(v) else None
  {
    NormalizedGet(ratio, data, i);
  }

  /** Without the canonical key, the first synonym in list order that is present supplies
      the value, when that value is not `None`. */
  lemma SynonymOrder(ratio: (string, string) -> real, data: Dict, i: nat, k: nat)
    requires i < |ExpectedFields| && !HasKey(data, ExpectedFields[i].0)
    requires var variations := ExpectedFields[i].1;
      && k < |variations| && HasKey(data, variations[k])
      && (forall j | 0 <= j < k :: !HasKey(data, variations[j]))
      && Get(data, variations[k]).value != Null
    ensures Get(Normalized(ratio, data), ExpectedFields[i].0) == Some(Get(data, ExpectedFields[i].1[k]).value)
  {
    FirstSynonymIsFirstPresent(data, ExpectedFields[i].1, k);
    NormalizedGet(ratio, data, i);
  }

  /** The similarity ratio is consulted only when neither the canonical key nor a synonym
      gave a value: otherwise any two ratio functions give the same field. */
  lemma FuzzyOnlyAsFallback(ratio1: (string, string) -> real, ratio2: (string, string) -> real, data: Dict, i: nat)
    requires i < |ExpectedFields|
    requires HasKey(data, ExpectedFields[i].0) || FirstSynonym(data, ExpectedFields[i].1) != Null
    ensures Get(Normalized(ratio1, data), ExpectedFields[i].0) == Get(Normalized(ratio2, data), ExpectedFields[i].0)
  {
    NormalizedGet(ratio1, data, i);
    NormalizedGet(ratio2, data, i);
  }

  /** Without the canonical key and any synonym, the field takes the value of the key
      `_find_best_field_match` picks among all input keys, if it picks a non-empty one. */
  lemma FuzzyFallback(ratio: (string, string) -> real, data: Dict, i: nat)
    requires i < |ExpectedFields| && !HasKey(data, ExpectedFields[i].0)
    requires forall j | 0 <= j < |ExpectedFields[i].1| :: !HasKey(data, ExpectedFields[i].1[j])
    ensures var m := BestFieldMatch(ratio, ExpectedFields[i].0, Keys(data));
      var v := if m.Some? && m.value != "" then Get(data, m.value).value else Null;
      Get(Normalized(ratio, data), ExpectedFields[i].0) == if v != Null then Some(v) else None
  {
    FirstSynonymOfAbsent(data, ExpectedFields[i].1);
    NormalizedGet(ratio, data, i);
  }

  // ---------------------------------------------------------------------------
  // `_parse_datetime` and `build_incident_info`
  // ---------------------------------------------------------------------------

  /** `_parse_datetime`: `None` for `None` or `""`; otherwise `"%Y-%m-%d %H:%M"`, then
      `"%Y-%m-%d"`, and `None` when both raise `ValueError`. */
  function ParseDatetime(v: Value): (r: Option<Moment>)
    ensures v == Null || v == Str("") ==> r == None
  {
    if v == Null || v.s == "" then None
    else
      match ParseDateTime(v.s)
      case Some(t) => Some(t)
      case None =>
        match ParseDate(v.s)
        case Some(t) => Some(t)
        case None => None
  }

  /** A serialised date-time is read back as the same date-time, and a serialised
      absent date as absent. */
  lemma ParseDatetimeRoundTrip(t: Option<Moment>)
    ensures ParseDatetime(DateValue(t)) == t
  {
    if t.Some? {
      ParseFormattedDateTime(t.value);
    }
  }

  /** A bare date falls through to the second format and is read as midnight. */
  lemma ParseDatetimeDateOnly(d: Date)
    requires ValidDate(d)
    ensures ParseDatetime(Str(FormatDate(d))) == Some(DateTime(d, 0, 0))
  {
    var s := FormatDate(d);
    ParseFormattedDate(d);
    assert s[..10] == s;
    DatePrefixOfFormatted(d, s);
    assert SpacesFrom(s, 10) == 0;
  }

  /** The two well-formed date strings of the post-processor tests. */
  lemma ParseDatetimeExamples()
    ensures ParseDatetime(Str("2025-08-13 14:00")) == Some(DateTime(Date(2025, 8, 13), 14, 0))
    ensures ParseDatetime(Str("2025-08-13")) == Some(DateTime(Date(2025, 8, 13), 0, 0))
  {
    var t := DateTime(Date(2025, 8, 13), 14, 0);
    FormatExampleDate();
    ParseDatetimeRoundTrip(Some(t));
    ParseDatetimeDateOnly(t.date);
  }

  lemma FormatExampleDate()
    ensures FormatDate(Date(2025, 8, 13)) == "2025-08-13"
    ensures FormatDateTime(DateTime(Date(2025, 8, 13), 14, 0)) == "2025-08-13 14:00"
  {
  }

  /** The malformed date strings of the post-processor tests give no date. */
  lemma ParseDatetimeRejects()
    ensures ParseDatetime(Str("invalid-date")) == None
    ensures ParseDatetime(Str("2025/08/13")) == None
    ensures ParseDatetime(Str("")) == None
  {
    assert YearAt("invalid-date", 0) == None;
    assert !CharAt("2025/08/13", 4, '-');
  }

  /** `build_incident_info`: the parsed date and the three text fields, `""` where a key
      is missing. */
  function BuildIncidentInfo(data: seq<(string, Value)>): (info: IncidentInfo)
    ensures info.dataOcorrencia == ParseDatetime(GetOr(data, "data_ocorrencia", Null))
    ensures HasKey(data, "local") ==> Get(data, "local") == Some(info.local)
    ensures !HasKey(data, "local") ==> info.local == Str("")
    ensures HasKey(data, "tipo_incidente") ==> Get(data, "tipo_incidente") == Some(info.tipoIncidente)
    ensures !HasKey(data, "tipo_incidente") ==> info.tipoIncidente == Str("")
    ensures HasKey(data, "impacto") ==> Get(data, "impacto") == Some(info.impacto)
    ensures !HasKey(data, "impacto") ==> info.impacto == Str("")
  {
    IncidentInfo(
      ParseDatetime(GetOr(data, "data_ocorrencia", Null)),
      GetOr(data, "local", Str("")),
      GetOr(data, "tipo_incidente", Str("")),
      GetOr(data, "impacto", Str("")))
  }

  /** Building a record from its own `to_dict` gives the record back. */
  lemma BuildAfterToDict(info: IncidentInfo)
    ensures BuildIncidentInfo(ToDict(info)) == info
  {
    ParseDatetimeRoundTrip(info.dataOcorrencia);
  }

  /** After reconciliation the builder never stores `None` in a text field. */
  lemma BuildAfterNormalizeHasText(ratio: (string, string) -> real, data: Dict)
    ensures var info := BuildIncidentInfo(Normalized(ratio, data));
      info.local.Str? && info.tipoIncidente.Str? && info.impacto.Str?
  {
    var out := Normalized(ratio, data);
    NormalizedShape(ratio, data);
    forall key | HasKey(out, key) ensures Get(out, key).value != Null {
      var e :| 0 <= e < |out| && out[e].0 == key;
      GetAt(out, e);
    }
  }

  /** Serialising a record whose text fields are strings, reconciling the keys and
      building again gives the record back, whatever the similarity ratio. */
  lemma NormalizeRoundTrip(ratio: (string, string) -> real, info: IncidentInfo)
    requires info.local.Str? && info.tipoIncidente.Str? && info.impacto.Str?
    ensures BuildIncidentInfo(Normalized(ratio, ToDict(info))) == info
  {
    var d := ToDict(info);
    ExpectedKeysAreFieldNames();
    NormalizedGet(ratio, d, 0);
    NormalizedGet(ratio, d, 1);
    NormalizedGet(ratio, d, 2);
    NormalizedGet(ratio, d, 3);
    ParseDatetimeRoundTrip(info.dataOcorrencia);
  }

  /** When every canonical key resolves to a value, the output holds all four, in order. */
  lemma NormalizedAll(ratio: (string, string) -> real, data: Dict, out: seq<(string, Value)>)
    requires |out| == |ExpectedFields|
    requires forall i | 0 <= i < |out| ::
      out[i] == (ExpectedFields[i].0, Resolve(ratio, data, ExpectedFields[i].0, ExpectedFields[i].1)) && out[i].1 != Null
    ensures Normalized(ratio, data) == out
  {
    ExpectedKeysAreFieldNames();
    CollectAll(FieldNames, Resolved(ratio, data), out);
  }

  const ExampleInput: Dict := [
    ("data_ocoorrencia", Str("2025-08-13 14:00")), ("location", Str("S\U{E3}o Paulo")),
    ("tipo", Str("Falha no servidor")), ("impact", Str("Sistema indispon\U{ED}vel"))]

  const ExampleOutput: seq<(string, Value)> := [
    ("data_ocorrencia", Str("2025-08-13 14:00")), ("local", Str("S\U{E3}o Paulo")),
    ("tipo_incidente", Str("Falha no servidor")), ("impacto", Str("Sistema indispon\U{ED}vel"))]

  /** Field `i` of the example is found through the synonym that is input key `i`. */
  lemma ExampleResolves(ratio: (string, string) -> real, i: nat)
    requires i < 4
    ensures Resolve(ratio, ExampleInput, ExpectedFields[i].0, ExpectedFields[i].1) == ExampleOutput[i].1
  {
    var data := ExampleInput;
    var (key, variations) := ExpectedFields[i];
    var k := if i == 2 then 2 else 0;
    assert data[i].0 == variations[k];
    assert !HasKey(data, key) by {
      assert forall a | 0 <= a < 4 :: data[a].0 != key;
    }
    GetAt(data, i);
    FirstSynonymIsFirstPresent(data, variations, k);
  }

  /** The reconciliation example of the post-processor tests: one synonym per field, so
      the result does not depend on the similarity ratio. */
  lemma NormalizeExample(ratio: (string, string) -> real)
    ensures Normalized(ratio, ExampleInput) == ExampleOutput
  {
    var f := ExpectedFields;
    forall i | 0 <= i < |f|
      ensures ExampleOutput[i] == (f[i].0, Resolve(ratio, ExampleInput, f[i].0, f[i].1)) && ExampleOutput[i].1 != Null
    {
      ExampleResolves(ratio, i);
    }
    NormalizedAll(ratio, ExampleInput, ExampleOutput);
  }

  /** A ratio that finds `"x"` similar to every name, and no other key. */
  function LikesX(a: string, b: string): real {
    if b == "x" then 1.0 else 0.0
  }

  /** With that ratio, a lone key `"x"` is every field's fuzzy match. */
  lemma LoneKeyResolves(i: nat)
    requires i < |ExpectedFields|
    ensures Resolve(LikesX, [("x", Str("v"))], ExpectedFields[i].0, ExpectedFields[i].1) == Str("v")
  {
    var data: Dict := [("x", Str("v"))];
    assert Lower("x") == "x";
    assert Keys(data) == ["x"];
    assert ["x"][..0] == [];
    assert BestFieldMatch(LikesX, ExpectedFields[i].0, ["x"]) == Some("x");
    FirstSynonymOfAbsent(data, ExpectedFields[i].1);
  }

  /** One input key can feed several canonical fields: a lone key `"x"` fills all four. */
  lemma FuzzyFeedsSeveralFields()
    ensures Normalized(LikesX, [("x", Str("v"))])
        == [("data_ocorrencia", Str("v")), ("local", Str("v")), ("tipo_incidente", Str("v")), ("impacto", Str("v"))]
  {
    var f := ExpectedFields;
    var out := [("data_ocorrencia", Str("v")), ("local", Str("v")), ("tipo_incidente", Str("v")), ("impacto", Str("v"))];
    forall i | 0 <= i < |f|
      ensures out[i] == (f[i].0, Resolve(LikesX, [("x", Str("v"))], f[i].0, f[i].1)) && out[i].1 != Null
    {
      LoneKeyResolves(i);
    }
    NormalizedAll(LikesX, [("x", Str("v"))], out);
  }
}
