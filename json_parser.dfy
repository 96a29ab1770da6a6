/** The JSON extraction of the language model's answer
    (src/infrastructure/json_parser.py). The answer is stripped; three regular
    expressions are tried in turn (a ```` ```json ```` fence, a bare ```` ``` ```` fence,
    any braces), and the first one whose first match, stripped, decodes to a JSON object
    is taken. Failing that, an answer that starts with `{` and ends with `}` is taken as
    it is, without checking it; anything else is refused.

    `json.loads` is a parameter: a `Decoder` gives the decoded value or the message of the
    `JSONDecodeError` it raises. `re.findall(pattern, text, re.DOTALL)[0]` is modelled by
    the leftmost match of each pattern, written out as the regular expression engine
    finds it (lazy `.*?`, greedy `\s*`). */
module JsonParsing {
  import opened Wrappers
  import opened Exceptions
  import opened PyStr
  import opened Dicts
  import ScanFacts

  /** What `json.loads` returns: an object, or any other JSON value. */
  datatype Json = Object(entries: Dict) | NonObject

  /** `json.loads`: the decoded value, or the message of the `JSONDecodeError`. */
  type Decoder = string -> Result<Json, string>

  const NoJsonFound := "No valid JSON found in response"
  const ParseFailed := "Failed to parse JSON: "

  /** `_is_valid_json_structure`: the text decodes, and to an object. */
  predicate IsValidJsonStructure(decode: Decoder, s: string)
    ensures IsValidJsonStructure(decode, s) <==> exists entries :: decode(s) == Ok(Object(entries))
  {
    assert decode(s).Ok? && decode(s).value.Object? ==> decode(s) == Ok(Object(decode(s).value.entries));
    decode(s).Ok? && decode(s).value.Object?
  }

  /** What every JSON decoder satisfies: a text starting with `{` that decodes at all
      decodes to an object. */
  ghost predicate ObjectsStartWithBrace(decode: Decoder) {
    forall s | s != [] && s[0] == '{' && decode(s).Ok? :: decode(s).value.Object?
  }

  // ---------------------------------------------------------------------------
  // The three patterns
  // ---------------------------------------------------------------------------

  /** `fence\s*(\{.*?\})\s*```` or `(\{.*?\})`. */
  datatype Pattern = Fenced(fence: string) | Braces

  const Fence := "```"

  const JsonPatterns: seq<Pattern> := [Fenced(Fence + "json"), Fenced(Fence), Braces]

  /** `\s*```` matches at `i`. */
  predicate FenceAt(t: string, i: nat)
    requires i <= |t|
  {
    StartsWith(t[i + SpacesFrom(t, i)..], Fence)
  }

  /** The lazy `.*?\}` can stop at `k`: a `}` there, and for a fenced pattern the rest of
      the pattern matching right after it. */
  predicate ClosesAt(t: string, k: nat, fenced: bool)
    requires k < |t|
  {
    t[k] == '}' && (fenced ==> FenceAt(t, k + 1))
  }

  /** The first place from `j` on where the lazy group can close. */
  function FirstClose(t: string, j: nat, fenced: bool): (r: Option<nat>)
    requires j <= |t|
    ensures r.Some? ==> j <= r.value < |t| && ClosesAt(t, r.value, fenced)
    ensures r.Some? ==> forall k | j <= k < r.value :: !ClosesAt(t, k, fenced)
    ensures r.None? ==> forall k | j <= k < |t| :: !ClosesAt(t, k, fenced)
    decreases |t| - j
  {
    if j == |t| then None
    else if ClosesAt(t, j, fenced) then Some(j)
    else FirstClose(t, j + 1, fenced)
  }

  /** The lazy group closes at the first place where it can. */
  lemma {:induction false} FirstCloseIs(t: string, from: nat, j: nat, fenced: bool)
    requires from <= j < |t| && ClosesAt(t, j, fenced)
    requires forall k | from <= k < j :: !ClosesAt(t, k, fenced)
    ensures FirstClose(t, from, fenced) == Some(j)
    decreases j - from
  {
    if from < j {
      FirstCloseIs(t, from + 1, j, fenced);
    }
  }

  /** A group of the patterns: from a `{` to a `}`. */
  predicate Braced(g: string) {
    2 <= |g| && g[0] == '{' && g[|g| - 1] == '}'
  }

  /** The group `(\{.*?\})` whose `{` is at `b`, if the pattern can be completed. */
  function Group(t: string, b: nat, fenced: bool): (r: Option<string>)
    requires b < |t| && t[b] == '{'
    ensures r.Some? ==> Braced(r.value)
  {
    match FirstClose(t, b + 1, fenced)
    case None => None
    case Some(j) => Some(t[b..j + 1])
  }

  /** The group of the pattern's match starting at `p`, if one starts there. */
  function MatchAt(t: string, pat: Pattern, p: nat): (r: Option<string>)
    requires p <= |t|
    ensures r.Some? ==> Braced(r.value)
  {
    match pat
    case Braces =>
      if p < |t| && t[p] == '{' then Group(t, p, false) else None
    case Fenced(f) =>
      if StartsWith(t[p..], f) then
        var b := p + |f| + SpacesFrom(t, p + |f|);
        if b < |t| && t[b] == '{' then Group(t, b, true) else None
      else None
  }

  /** The leftmost place from `p` on where a match starts. */
  function FirstMatch(t: string, pat: Pattern, p: nat): (r: Option<nat>)
    requires p <= |t|
    ensures r.Some? ==> p <= r.value < |t| && MatchAt(t, pat, r.value).Some?
    decreases |t| - p
  {
    if p == |t| then None
    else if MatchAt(t, pat, p).Some? then Some(p)
    else FirstMatch(t, pat, p + 1)
  }

  /** The leftmost match is the first place where one starts. */
  lemma {:induction false} FirstMatchIs(t: string, pat: Pattern, from: nat, q: nat)
    requires from <= q < |t| && MatchAt(t, pat, q).Some?
    requires forall k | from <= k < q :: MatchAt(t, pat, k).None?
    ensures FirstMatch(t, pat, from) == Some(q)
    decreases q - from
  {
    if from < q {
      FirstMatchIs(t, pat, from + 1, q);
    }
  }

  /** `re.findall(pattern, t, re.DOTALL)[0]`: the group of the leftmost match. */
  function Search(t: string, pat: Pattern): (r: Option<string>)
    ensures r.Some? ==> Braced(r.value)
  {
    match FirstMatch(t, pat, 0)
    case None => None
    case Some(q) => MatchAt(t, pat, q)
  }

  /** The first match found is the leftmost one. */
  lemma SearchIs(t: string, pat: Pattern, q: nat, g: string)
    requires q < |t| && MatchAt(t, pat, q) == Some(g)
    requires forall k | 0 <= k < q :: MatchAt(t, pat, k).None?
    ensures Search(t, pat) == Some(g)
  {
    FirstMatchIs(t, pat, 0, q);
  }

  /** `matches[0].strip()` when `re.findall` finds anything. */
  function Candidate(t: string, pat: Pattern): (r: Option<string>)
    ensures r.Some? ==> Braced(r.value)
  {
    match Search(t, pat)
    case None => None
    case Some(g) =>
      StripBraced(g);
      Some(Strip(g))
  }

  /** A group never has whitespace to strip. */
  lemma StripBraced(g: string)
    requires Braced(g)
    ensures Strip(g) == g
  {
    StripTrimmed(g);
  }

  /** The candidate is the group of the first match, as it is. */
  lemma CandidateIs(t: string, pat: Pattern, q: nat, g: string)
    requires q < |t| && MatchAt(t, pat, q) == Some(g)
    requires forall k | 0 <= k < q :: MatchAt(t, pat, k).None?
    ensures Candidate(t, pat) == Some(g)
  {
    SearchIs(t, pat, q, g);
    StripBraced(g);
  }

  /** The candidates of the patterns, in order. */
  function Candidates(t: string, pats: seq<Pattern>): (cs: seq<Option<string>>)
    ensures |cs| == |pats| && forall i | 0 <= i < |pats| :: cs[i] == Candidate(t, pats[i])
  {
    seq(|pats|, i requires 0 <= i < |pats| => Candidate(t, pats[i]))
  }

  /** There is a candidate and `_is_valid_json_structure` accepts it. */
  predicate Accepted(decode: Decoder, c: Option<string>) {
    c.Some? && IsValidJsonStructure(decode, c.value)
  }

  /** The loop over the patterns: the first candidate accepted. */
  function FirstAccepted(decode: Decoder, cs: seq<Option<string>>): Option<string>
    decreases |cs|
  {
    if cs == [] then None
    else if Accepted(decode, cs[0]) then cs[0]
    else FirstAccepted(decode, cs[1..])
  }

  /** `_extract_json_from_text`. */
  function ExtractJson(decode: Decoder, text: string): (r: Result<string, Error>)
    ensures r.Ok? ==> IsValidJsonStructure(decode, r.value)
                      || (r.value == Strip(text) && StartsWith(r.value, "{") && EndsWith(r.value, "}"))
    ensures r.Err? ==> r.error == InvalidJsonResponseError(NoJsonFound)
  {
    var t := Strip(text);
    match FirstAccepted(decode, Candidates(t, JsonPatterns))
    case Some(c) =>
      FirstAcceptedValid(decode, Candidates(t, JsonPatterns));
      Ok(c)
    case None =>
      if StartsWith(t, "{") && EndsWith(t, "}") then Ok(t)
      else Err(InvalidJsonResponseError(NoJsonFound))
  }

  /** `_extract_json_from_text`, with its loop over the patterns and early return. */
  method ExtractJsonFromText(decode: Decoder, text: string) returns (r: Result<string, Error>)
    ensures r == ExtractJson(decode, text)
  {
    var t := Strip(text);
    ghost var cs := Candidates(t, JsonPatterns);
    for i := 0 to |JsonPatterns|
      invariant FirstAccepted(decode, cs) == FirstAccepted(decode, cs[i..])
    {
      assert cs[i..][1..] == cs[i + 1..];
      var matches := Candidate(t, JsonPatterns[i]);
      if matches.Some? {
        var jsonText := matches.value;
        if IsValidJsonStructure(decode, jsonText) {
          return Ok(jsonText);
        }
      }
    }
    assert cs[|JsonPatterns|..] == [];
    if StartsWith(t, "{") && EndsWith(t, "}") {
      return Ok(t);
    }
    return Err(InvalidJsonResponseError(NoJsonFound));
  }

  /** `parse`: the extracted text decoded, a decoding failure reported with its
      message. */
  function Parsed(decode: Decoder, text: string): (r: Result<Json, Error>)
    ensures r.Ok? ==> ExtractJson(decode, text).Ok? && decode(ExtractJson(decode, text).value) == Ok(r.value)
    ensures r.Err? ==> r.error.InvalidJsonResponseError?
    ensures r.Err? ==> r.error.message == NoJsonFound || StartsWith(r.error.message, ParseFailed)
  {
    match ExtractJson(decode, text)
    case Err(e) => Err(e)
    case Ok(c) =>
      match decode(c)
      case Ok(v) => Ok(v)
      case Err(m) => Err(InvalidJsonResponseError(ParseFailed + m))
  }

  /** `parse`. */
  method Parse(decode: Decoder, text: string) returns (r: Result<Json, Error>)
    ensures r == Parsed(decode, text)
  {
    var cleaned := ExtractJsonFromText(decode, text);
    if cleaned.Err? {
      return Err(cleaned.error);
    }
    match decode(cleaned.value)
    case Ok(v) => r := Ok(v);
    case Err(m) => r := Err(InvalidJsonResponseError(ParseFailed + m));
  }

  // ---------------------------------------------------------------------------
  // The order of the patterns
  // ---------------------------------------------------------------------------

  lemma {:induction false} FirstAcceptedValid(decode: Decoder, cs: seq<Option<string>>)
    ensures FirstAccepted(decode, cs).Some? ==> IsValidJsonStructure(decode, FirstAccepted(decode, cs).value)
    decreases |cs|
  {
    if cs != [] && !Accepted(decode, cs[0]) {
      FirstAcceptedValid(decode, cs[1..]);
    }
  }

  /** The first accepted candidate is taken, whatever later patterns would give. */
  lemma {:induction false} FirstAcceptedAt(decode: Decoder, cs: seq<Option<string>>, k: nat)
    requires k < |cs| && Accepted(decode, cs[k])
    requires forall i | 0 <= i < k :: !Accepted(decode, cs[i])
    ensures FirstAccepted(decode, cs) == cs[k]
    decreases k
  {
    if k > 0 {
      assert !Accepted(decode, cs[0]);
      assert forall i | 0 <= i < k - 1 :: cs[1..][i] == cs[i + 1];
      FirstAcceptedAt(decode, cs[1..], k - 1);
    }
  }

  /** Whatever the loop returns is an accepted candidate, all earlier ones having been
      refused. */
  lemma {:induction false} FirstAcceptedFound(decode: Decoder, cs: seq<Option<string>>)
    requires FirstAccepted(decode, cs).Some?
    ensures exists k | 0 <= k < |cs| ::
      Accepted(decode, cs[k]) && cs[k] == FirstAccepted(decode, cs)
      && forall i | 0 <= i < k :: !Accepted(decode, cs[i])
    decreases |cs|
  {
    if !Accepted(decode, cs[0]) {
      var rest := cs[1..];
      FirstAcceptedFound(decode, rest);
      var k :| 0 <= k < |rest| && Accepted(decode, rest[k]) && rest[k] == FirstAccepted(decode, rest)
        && forall i | 0 <= i < k :: !Accepted(decode, rest[i]);
      assert cs[k + 1] == rest[k];
      forall i | 0 <= i < k + 1 ensures !Accepted(decode, cs[i]) {
        if i > 0 {
          assert cs[i] == rest[i - 1];
        }
      }
    }
  }

  /** The loop finds nothing exactly when every candidate is refused. */
  lemma {:induction false} FirstAcceptedNone(decode: Decoder, cs: seq<Option<string>>)
    ensures FirstAccepted(decode, cs).None? <==> forall i | 0 <= i < |cs| :: !Accepted(decode, cs[i])
    decreases |cs|
  {
    if cs != [] {
      FirstAcceptedNone(decode, cs[1..]);
      assert forall i | 1 <= i < |cs| :: cs[i] == cs[1..][i - 1];
    }
  }

  /** The loop over three patterns, unrolled. */
  lemma FirstOfThree(decode: Decoder, cs: seq<Option<string>>)
    requires |cs| == 3
    ensures FirstAccepted(decode, cs)
         == if Accepted(decode, cs[0]) then cs[0]
            else if Accepted(decode, cs[1]) then cs[1]
            else if Accepted(decode, cs[2]) then cs[2]
            else None
  {
    var c1 := cs[1..];
    var c2 := c1[1..];
    assert c1[0] == cs[1] && c2[0] == cs[2] && c2[1..] == [];
    assert FirstAccepted(decode, c2) == if Accepted(decode, cs[2]) then cs[2] else None;
    assert FirstAccepted(decode, c1) == if Accepted(decode, cs[1]) then cs[1] else FirstAccepted(decode, c2);
  }

  /** With every pattern failing, the stripped answer is returned unchecked when it looks
      like an object, and the answer is refused otherwise. */
  lemma ExtractFallback(decode: Decoder, text: string)
    requires forall i | 0 <= i < |JsonPatterns| :: !Accepted(decode, Candidate(Strip(text), JsonPatterns[i]))
    ensures var t := Strip(text);
      ExtractJson(decode, text)
      == if StartsWith(t, "{") && EndsWith(t, "}") then Ok(t) else Err(InvalidJsonResponseError(NoJsonFound))
  {
    FirstAcceptedNone(decode, Candidates(Strip(text), JsonPatterns));
  }

  // ---------------------------------------------------------------------------
  // What `parse` returns
  // ---------------------------------------------------------------------------

  /** No pattern matches a text without an opening brace. */
  lemma NoBraceNoCandidate(t: string, pat: Pattern)
    requires ScanFacts.Lacks(t, '{')
    ensures Candidate(t, pat).None?
  {
    forall q | 0 <= q <= |t| ensures MatchAt(t, pat, q).None? {
    }
  }

  /** An answer without an opening brace is refused as containing no JSON. */
  lemma NoBraceNoJson(decode: Decoder, text: string)
    requires ScanFacts.Lacks(text, '{')
    ensures ExtractJson(decode, text) == Err(InvalidJsonResponseError(NoJsonFound))
    ensures Parsed(decode, text) == Err(InvalidJsonResponseError(NoJsonFound))
  {
    var t := Strip(text);
    ScanFacts.StripLacks(text, '{');
    var cs := Candidates(t, JsonPatterns);
    NoBraceNoCandidate(t, JsonPatterns[0]);
    NoBraceNoCandidate(t, JsonPatterns[1]);
    NoBraceNoCandidate(t, JsonPatterns[2]);
    FirstOfThree(decode, cs);
    assert FirstAccepted(decode, cs).None?;
    assert !StartsWith(t, "{") by {
      if t != [] {
        assert t[0] != '{';
      }
    }
  }

  /** A successful parse always yields an object, as `parse` promises its callers: either
      the decoded text was checked to be an object, or it starts with `{`. */
  lemma ParseYieldsObject(decode: Decoder, text: string)
    requires ObjectsStartWithBrace(decode)
    ensures Parsed(decode, text).Ok? ==> Parsed(decode, text).value.Object?
  {
  }

  /** The text of a candidate that is accepted is the text `parse` decodes. */
  lemma ParseAccepted(decode: Decoder, text: string)
    requires ExtractJson(decode, text).Ok? && IsValidJsonStructure(decode, ExtractJson(decode, text).value)
    ensures Parsed(decode, text) == Ok(decode(ExtractJson(decode, text).value).value)
  {
  }

  // ---------------------------------------------------------------------------
  // The shapes of answer the parser is used with
  // ---------------------------------------------------------------------------

  /** Text without braces or backticks, as inside a flat object or around one. */
  predicate Plain(s: string) {
    forall k | 0 <= k < |s| :: s[k] != '{' && s[k] != '}' && s[k] != '`'
  }

  /** No fenced pattern matches a text without backticks. */
  lemma NoFence(t: string, f: string)
    requires ScanFacts.Lacks(t, '`') && f != [] && f[0] == '`'
    ensures Candidate(t, Fenced(f)).None?
  {
    forall q | 0 <= q <= |t| ensures MatchAt(t, Fenced(f), q).None? {
      assert q < |t| ==> t[q..][0] == t[q];
    }
  }

  /** The braces pattern picks the first `{` and the first `}` after it. */
  lemma BracesGroup(t: string, b: nat, j: nat)
    requires b < j < |t| && t[b] == '{' && t[j] == '}'
    requires forall k | 0 <= k < b :: t[k] != '{'
    requires forall k | b < k < j :: t[k] != '}'
    ensures Candidate(t, Braces) == Some(t[b..j + 1])
  {
    FirstCloseIs(t, b + 1, j, false);
    assert MatchAt(t, Braces, b) == Some(t[b..j + 1]);
    CandidateIs(t, Braces, b, t[b..j + 1]);
  }

  /** A flat JSON object written out: braces around a body. */
  function Obj(body: string): string {
    "{" + body + "}"
  }

  /** An answer with a flat object and text around it. */
  function Embedded(before: string, body: string, after: string): string {
    before + Obj(body) + after
  }

  /** An answer with a flat object in a ```` ```json ```` fence. */
  function FencedAnswer(ws1: string, body: string, ws2: string): string {
    (Fence + "json" + ws1) + Obj(body) + (ws2 + Fence)
  }

  lemma Parts(a: string, m: string, c: string)
    ensures (a + m + c)[..|a|] == a
    ensures (a + m + c)[|a|..|a| + |m|] == m
    ensures (a + m + c)[|a| + |m|..] == c
  {
  }

  /** A flat object, alone or with text around it that has no braces or backticks,
      yields that object: its braces are the braces pattern's match. */
  lemma {:induction false} EmbeddedObjectCandidate(before: string, body: string, after: string)
    requires Plain(before) && Plain(body) && Plain(after)
    ensures Candidate(Embedded(before, body, after), JsonPatterns[0]).None?
    ensures Candidate(Embedded(before, body, after), JsonPatterns[1]).None?
    ensures Candidate(Embedded(before, body, after), Braces) == Some(Obj(body))
  {
    var t := Embedded(before, body, after);
    var b := |before|;
    var j := |before| + |body| + 1;
    Parts(before, Obj(body), after);
    assert t[b] == '{' && t[j] == '}';
    forall k | 0 <= k < |t| ensures t[k] != '`' {
      if k < b {
        assert t[k] == before[k];
      } else if b < k < j {
        assert t[k] == body[k - b - 1];
      } else if k > j {
        assert t[k] == after[k - j - 1];
      }
    }
    forall k | 0 <= k < b ensures t[k] != '{' {
      assert t[k] == before[k];
    }
    forall k | b < k < j ensures t[k] != '}' {
      assert t[k] == body[k - b - 1];
    }
    NoFence(t, Fence + "json");
    NoFence(t, Fence);
    BracesGroup(t, b, j);
  }

  /** The answer trimmed of surrounding whitespace. */
  predicate Trimmed(s: string) {
    s == [] || (!IsSpace(s[0]) && !IsSpace(s[|s| - 1]))
  }

  /** A flat object, alone or inside prose, is parsed when it decodes to an object. */
  lemma EmbeddedObject(decode: Decoder, before: string, body: string, after: string)
    requires Plain(before) && Plain(body) && Plain(after)
    requires Trimmed(Embedded(before, body, after))
    requires IsValidJsonStructure(decode, Obj(body))
    ensures ExtractJson(decode, Embedded(before, body, after)) == Ok(Obj(body))
    ensures Parsed(decode, Embedded(before, body, after)) == Ok(decode(Obj(body)).value)
  {
    var t := Embedded(before, body, after);
    StripTrimmed(t);
    EmbeddedObjectCandidate(before, body, after);
    var cs := Candidates(t, JsonPatterns);
    assert JsonPatterns[2] == Braces;
    assert cs[0].None? && cs[1].None? && cs[2] == Some(Obj(body));
    FirstOfThree(decode, cs);
  }

  /** No pattern accepts a flat object that does not decode. */
  lemma MalformedRefused(decode: Decoder, body: string)
    requires Plain(body) && decode(Obj(body)).Err?
    ensures FirstAccepted(decode, Candidates(Obj(body), JsonPatterns)).None?
  {
    var cs := Candidates(Obj(body), JsonPatterns);
    assert Embedded([], body, []) == Obj(body);
    EmbeddedObjectCandidate([], body, []);
    assert JsonPatterns[2] == Braces;
    assert cs[0].None? && cs[1].None? && cs[2] == Some(Obj(body));
    FirstOfThree(decode, cs);
  }

  /** A flat object that does not decode is still taken, by the fallback, and `parse`
      reports the decoder's message. */
  lemma MalformedObject(decode: Decoder, body: string, m: string)
    requires Plain(body)
    requires decode(Obj(body)) == Err(m)
    ensures ExtractJson(decode, Obj(body)) == Ok(Obj(body))
    ensures Parsed(decode, Obj(body)) == Err(InvalidJsonResponseError(ParseFailed + m))
  {
    var t := Obj(body);
    StripTrimmed(t);
    MalformedRefused(decode, body);
    assert StartsWith(t, "{") && EndsWith(t, "}");
  }

  /** Whitespace and then the closing fence: the rest of the fenced pattern matches. */
  lemma FenceAfterSpaces(t: string, i: nat, ws: string)
    requires i <= |t| && t[i..] == ws + Fence && AllSpace(ws)
    ensures FenceAt(t, i)
  {
    assert t[i..][..|ws|] == ws;
    assert t[i + |ws|] == Fence[0];
    FencedSpaces(t, i, ws);
    assert t[i + |ws|..] == t[i..][|ws|..] == Fence;
  }

  /** An object followed by whitespace and the closing fence closes the fenced group. */
  lemma ObjectThenFence(t: string, pre: string, body: string, ws: string)
    requires t == pre + Obj(body) + (ws + Fence) && AllSpace(ws)
    ensures |pre| + |body| + 1 < |t| && ClosesAt(t, |pre| + |body| + 1, true)
  {
    var j := |pre| + |body| + 1;
    Parts(pre, Obj(body), ws + Fence);
    assert t[j] == Obj(body)[|body| + 1] == '}';
    FenceAfterSpaces(t, j + 1, ws);
  }

  /** After the object of a fenced answer comes whitespace and the closing fence. */
  lemma FencedTail(ws1: string, body: string, ws2: string)
    requires AllSpace(ws2)
    ensures var j := 7 + |ws1| + |body| + 1;
      j < |FencedAnswer(ws1, body, ws2)| && ClosesAt(FencedAnswer(ws1, body, ws2), j, true)
  {
    var pre := Fence + "json" + ws1;
    ObjectThenFence(FencedAnswer(ws1, body, ws2), pre, body, ws2);
  }

  /** No `}` inside the body of a fenced answer. */
  lemma FencedBody(ws1: string, body: string, ws2: string)
    requires Plain(body)
    ensures var b := 7 + |ws1|;
      b + |body| + 1 < |FencedAnswer(ws1, body, ws2)|
      && forall k | b < k < b + |body| + 1 :: FencedAnswer(ws1, body, ws2)[k] != '}'
  {
    var pre := Fence + "json" + ws1;
    var post := ws2 + Fence;
    var text := FencedAnswer(ws1, body, ws2);
    var b := |pre|;
    Parts(pre, Obj(body), post);
    forall k | b < k < b + |body| + 1 ensures text[k] != '}' {
      assert text[k] == Obj(body)[k - b] == body[k - b - 1];
    }
  }

  /** Inside a ```` ```json ```` fence, the lazy group closes at the object's own `}`:
      the fence follows it, and no `}` comes before it. */
  lemma FencedClose(ws1: string, body: string, ws2: string)
    requires AllSpace(ws1) && AllSpace(ws2) && Plain(body)
    ensures var b := 7 + |ws1|;
      b + |body| + 1 < |FencedAnswer(ws1, body, ws2)|
      && FirstClose(FencedAnswer(ws1, body, ws2), b + 1, true) == Some(b + |body| + 1)
  {
    var text := FencedAnswer(ws1, body, ws2);
    var b := 7 + |ws1|;
    var j := b + |body| + 1;
    FencedTail(ws1, body, ws2);
    FencedBody(ws1, body, ws2);
    forall k | b + 1 <= k < j ensures !ClosesAt(text, k, true) {
    }
    FirstCloseIs(text, b + 1, j, true);
  }

  /** The ```` ```json ```` pattern matches at the start of a fenced flat object. */
  lemma FencedMatch(ws1: string, body: string, ws2: string)
    requires AllSpace(ws1) && AllSpace(ws2) && Plain(body)
    ensures Candidate(FencedAnswer(ws1, body, ws2), JsonPatterns[0]) == Some(Obj(body))
  {
    var f := Fence + "json";
    var pre := f + ws1;
    var post := ws2 + Fence;
    var text := FencedAnswer(ws1, body, ws2);
    var b := |pre|;
    var j := b + |body| + 1;
    Parts(pre, Obj(body), post);
    assert text[..b][..|f|] == f && text[..b][|f|..] == ws1;
    assert text[b] == '{';
    FencedSpaces(text, |f|, ws1);
    FencedClose(ws1, body, ws2);
    assert text[0..][..|f|] == f;
    assert MatchAt(text, Fenced(f), 0) == Some(Obj(body));
    CandidateIs(text, Fenced(f), 0, Obj(body));
  }

  /** A flat object in a ```` ```json ```` fence is taken from inside the fence. */
  lemma FencedObject(decode: Decoder, ws1: string, body: string, ws2: string)
    requires AllSpace(ws1) && AllSpace(ws2) && Plain(body)
    requires IsValidJsonStructure(decode, Obj(body))
    ensures ExtractJson(decode, FencedAnswer(ws1, body, ws2)) == Ok(Obj(body))
    ensures Parsed(decode, FencedAnswer(ws1, body, ws2)) == Ok(decode(Obj(body)).value)
  {
    var text := FencedAnswer(ws1, body, ws2);
    assert text[0] == '`' && text[|text| - 1] == '`';
    StripTrimmed(text);
    FencedMatch(ws1, body, ws2);
    FirstOfThree(decode, Candidates(text, JsonPatterns));
  }

  /** `\s*` at `i` consumes exactly a run of whitespace followed by a character that is
      not whitespace. */
  lemma FencedSpaces(t: string, i: nat, ws: string)
    requires i + |ws| < |t| && t[i..][..|ws|] == ws && AllSpace(ws) && !IsSpace(t[i + |ws|])
    ensures SpacesFrom(t, i) == |ws|
  {
    assert forall k | 0 <= k < |ws| :: t[i + k] == t[i..][..|ws|][k];
  }

  /** The answer of the parser tests that has no JSON at all. */
  lemma NotJsonRefused(decode: Decoder)
    ensures Parsed(decode, "Este n\U{E3}o \U{E9} um JSON v\U{E1}lido") == Err(InvalidJsonResponseError(NoJsonFound))
  {
    NotJsonLacksBrace();
    NoBraceNoJson(decode, "Este n\U{E3}o \U{E9} um JSON v\U{E1}lido");
  }

  lemma NotJsonLacksBrace()
    ensures ScanFacts.Lacks("Este n\U{E3}o \U{E9} um JSON v\U{E1}lido", '{')
  {
  }
}
