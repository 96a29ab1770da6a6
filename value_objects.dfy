/** The extraction prompt (src/domain/value_objects.py): a frozen dataclass holding the
    text sent to the language model, its `__str__`, and `default()`, whose template has
    one `{incident_text}` field and writes the braces of its JSON example doubled, so
    that `str.format(incident_text=...)` leaves single braces there.

    `Format` models `str.format` called with the single keyword argument
    `incident_text`, for templates made of plain text, `{{`, `}}` and `{name}` fields:
    positional fields fail with `IndexError`, other keywords with `KeyError`. */
module ValueObjects {
  import opened Wrappers
  import opened Exceptions
  import Entities

  datatype ExtractionPrompt = ExtractionPrompt(content: string)

  /** `ExtractionPrompt.__str__`: the content, from which the prompt is rebuilt. */
  function Str(p: ExtractionPrompt): (s: string)
    ensures ExtractionPrompt(s) == p
  {
    p.content
  }

  // ---------------------------------------------------------------------------
  // `str.format(incident_text=value)`
  // ---------------------------------------------------------------------------

  const Placeholder := "incident_text"

  predicate NoBraces(s: string) {
    forall k | 0 <= k < |s| :: s[k] != '{' && s[k] != '}'
  }

  lemma NoBracesAppend(a: string, b: string)
    requires NoBraces(a) && NoBraces(b)
    ensures NoBraces(a + b)
  {
    forall k | 0 <= k < |a + b| ensures (a + b)[k] != '{' && (a + b)[k] != '}' {
      if k >= |a| {
        assert (a + b)[k] == b[k - |a|];
      }
    }
  }

  /** Where the replacement field opened before `i` ends: the first brace from `i` on. */
  function FieldEnd(t: string, i: nat): (j: Option<nat>)
    requires i <= |t|
    ensures j.Some? ==> i <= j.value < |t| && (t[j.value] == '{' || t[j.value] == '}')
    ensures j.Some? ==> NoBraces(t[i..j.value])
    ensures j.None? ==> NoBraces(t[i..])
    decreases |t| - i
  {
    if i == |t| then None
    else if t[i] == '{' || t[i] == '}' then Some(i)
    else
      var j := FieldEnd(t, i + 1);
      assert j.Some? ==> t[i..j.value] == [t[i]] + t[i + 1..j.value];
      assert j.None? ==> t[i..] == [t[i]] + t[i + 1..];
      j
  }

  function Prepend(s: string, r: Result<string, Error>): Result<string, Error> {
    match r
    case Ok(rest) => Ok(s + rest)
    case Err(e) => Err(e)
  }

  /** What ends the argument name of a field: an attribute `.`, an index `[`, a
      conversion `!` or a format spec `:`. */
  predicate EndsArgName(c: char) {
    c == '.' || c == '[' || c == '!' || c == ':'
  }

  /** The argument name that starts a field name. */
  function ArgName(name: string): (arg: string)
    ensures |arg| <= |name| && arg == name[..|arg|]
    ensures forall k | 0 <= k < |arg| :: !EndsArgName(arg[k])
    ensures |arg| < |name| ==> EndsArgName(name[|arg|])
  {
    if name == [] || EndsArgName(name[0]) then []
    else [name[0]] + ArgName(name[1..])
  }

  predicate IsIndex(arg: string) {
    arg != [] && forall k | 0 <= k < |arg| :: '0' <= arg[k] <= '9'
  }

  /** `str(int(digits))`: the digits without their leading zeros, or `0`. */
  function Decimal(digits: string): (r: string)
    requires IsIndex(digits)
    ensures IsIndex(r) && |r| <= |digits| && r == digits[|digits| - |r|..]
    ensures |r| > 1 ==> r[0] != '0'
    ensures forall k | 0 <= k < |digits| - |r| :: digits[k] == '0'
  {
    if |digits| > 1 && digits[0] == '0' then
      var r := Decimal(digits[1..]);
      assert digits[1..][|digits| - 1 - |r|..] == digits[|digits| - |r|..];
      r
    else digits
  }

  /** A name without `.`, `[`, `!` or `:` is its own argument name. */
  lemma {:induction false} ArgNameOfPlain(name: string)
    requires forall k | 0 <= k < |name| :: !EndsArgName(name[k])
    ensures ArgName(name) == name
  {
    var arg := ArgName(name);
    assert |arg| == |name| by {
      if |arg| < |name| {
        assert false;
      }
    }
    assert name[..|name|] == name;
  }

  /** `incident_text` is a whole argument name, not a number. */
  lemma PlaceholderIsArgName(name: string)
    ensures name == Placeholder ==> ArgName(name) == Placeholder
    ensures !IsIndex(Placeholder)
  {
    assert forall k | 0 <= k < |Placeholder| :: 'a' <= Placeholder[k] <= 'z' || Placeholder[k] == '_';
    ArgNameOfPlain(Placeholder);
  }

  /** The message of the `IndexError` for positional field `n`: the call passes no
      positional argument. */
  function PositionalMessage(n: string): string {
    "Replacement index " + n + " out of range for positional args tuple"
  }

  /** The error or value of the replacement field named `name`: a positional field
      (an empty argument name, numbered automatically from 0, or a number) is an
      `IndexError`, a keyword other than `incident_text` a `KeyError` for that keyword,
      and `incident_text` alone the value. */
  function FieldValue(name: string, value: string): (r: Result<string, Error>)
    ensures r == Ok(value) <==> name == Placeholder
    ensures r.Err? && r.error.KeyError? ==> r.error.message == ArgName(name) && r.error.message != Placeholder
    ensures r.Err? && r.error.IndexError? <==> ArgName(name) == [] || IsIndex(ArgName(name))
  {
    var arg := ArgName(name);
    PlaceholderIsArgName(name);
    if arg == [] then Err(IndexError(PositionalMessage("0")))
    else if IsIndex(arg) then Err(IndexError(PositionalMessage(Decimal(arg))))
    else if arg != Placeholder then Err(KeyError(arg))
    else if name == Placeholder then Ok(value)
    else Err(UnmodelledField(name))
  }

  /** `t.format(incident_text=value)`, left to right: `{{` and `}}` give one brace, a
      field gives what `FieldValue` gives, and a brace that is neither doubled nor part
      of a field is a `ValueError`, with Python's messages. */
  function Format(t: string, value: string): (r: Result<string, Error>)
    ensures r.Err? ==> r.error.ValueError? || r.error.KeyError? || r.error.IndexError? || r.error.UnmodelledField?
    decreases |t|
  {
    if t == [] then Ok([])
    else if t[0] == '{' && |t| >= 2 && t[1] == '{' then Prepend("{", Format(t[2..], value))
    else if t[0] == '}' && |t| >= 2 && t[1] == '}' then Prepend("}", Format(t[2..], value))
    else if t[0] == '}' then Err(ValueError("Single '}' encountered in format string"))
    else if t[0] == '{' then
      if |t| == 1 then Err(ValueError("Single '{' encountered in format string"))
      else
        match FieldEnd(t, 1)
        case None => Err(ValueError("expected '}' before end of string"))
        case Some(j) =>
          if t[j] == '{' then Err(ValueError("unexpected '{' in field name"))
          else
            match FieldValue(t[1..j], value)
            case Ok(v) => Prepend(v, Format(t[j + 1..], value))
            case Err(e) => Err(e)
    else Prepend([t[0]], Format(t[1..], value))
  }

  /** Text without braces is copied through. */
  lemma {:induction false} FormatText(s: string, rest: string, value: string)
    requires NoBraces(s)
    ensures Format(s + rest, value) == Prepend(s, Format(rest, value))
    decreases |s|
  {
    if s != [] {
      assert (s + rest)[0] == s[0] && (s + rest)[1..] == s[1..] + rest;
      assert NoBraces(s[1..]) by {
        assert forall k | 0 <= k < |s[1..]| :: s[1..][k] == s[k + 1];
      }
      FormatText(s[1..], rest, value);
      assert [s[0]] + s[1..] == s;
      match Format(rest, value)
      case Ok(r) => assert [s[0]] + (s[1..] + r) == s + r;
      case Err(_) =>
    } else {
      assert s + rest == rest;
      match Format(rest, value)
      case Ok(r) => assert s + r == r;
      case Err(_) =>
    }
  }

  /** A field with a name but no brace inside ends at its closing brace. */
  lemma {:induction false} FieldEndOfName(name: string, rest: string, i: nat)
    requires NoBraces(name) && i <= |name|
    ensures FieldEnd("{" + name + "}" + rest, i + 1) == Some(|name| + 1)
    decreases |name| - i
  {
    var t := "{" + name + "}" + rest;
    assert t[|name| + 1] == '}';
    if i < |name| {
      assert t[i + 1] == name[i];
      FieldEndOfName(name, rest, i + 1);
    }
  }

  /** A field with a name and no brace inside is looked up on its own: its value is
      written before the rest, and its error ends the formatting. */
  lemma FormatFieldFirst(name: string, rest: string, value: string)
    requires NoBraces(name)
    ensures var field := FieldValue(name, value);
      Format("{" + name + "}" + rest, value)
        == if field.Ok? then Prepend(field.value, Format(rest, value)) else Err(field.error)
  {
    var t := "{" + name + "}" + rest;
    FieldEndOfName(name, rest, 0);
    assert t[1..|name| + 1] == name;
    assert t[|name| + 2..] == rest;
  }

  /** The one field the template uses is replaced by the value. */
  lemma FormatField(rest: string, value: string)
    ensures Format("{" + Placeholder + "}" + rest, value) == Prepend(value, Format(rest, value))
  {
    assert NoBraces(Placeholder);
    FormatFieldFirst(Placeholder, rest, value);
  }

  /** `"{}".format(incident_text=v)` raises the `IndexError` for positional field 0:
      the call passes no positional argument. */
  lemma AutoNumberedFieldFails(value: string)
    ensures Format("{}", value) == Err(IndexError(PositionalMessage("0")))
  {
    FormatFieldFirst("", "", value);
    assert "{" + "" + "}" + "" == "{}";
  }

  /** So does `"{0}".format(incident_text=v)`. */
  lemma NumberedFieldFails(value: string)
    ensures Format("{0}", value) == Err(IndexError(PositionalMessage("0")))
  {
    FormatFieldFirst("0", "", value);
    assert "{" + "0" + "}" + "" == "{0}";
    assert ArgName("0") == "0";
    assert Decimal("0") == "0";
  }

  /** A keyword field other than `incident_text` raises `KeyError` for its argument
      name. */
  lemma UnknownFieldFails(name: string, rest: string, value: string)
    requires NoBraces(name) && ArgName(name) != [] && !IsIndex(ArgName(name)) && ArgName(name) != Placeholder
    ensures Format("{" + name + "}" + rest, value) == Err(KeyError(ArgName(name)))
  {
    FormatFieldFirst(name, rest, value);
  }

  lemma FormatOpen(rest: string, value: string)
    ensures Format("{{" + rest, value) == Prepend("{", Format(rest, value))
  {
    assert ("{{" + rest)[2..] == rest;
  }

  lemma FormatClose(rest: string, value: string)
    ensures Format("}}" + rest, value) == Prepend("}", Format(rest, value))
  {
    assert ("}}" + rest)[2..] == rest;
  }

  // ---------------------------------------------------------------------------
  // Templates as pieces
  // ---------------------------------------------------------------------------

  /** A stretch of template: brace-free text, an escaped brace, or the field. */
  datatype Piece = Text(s: string) | OpenBrace | CloseBrace | Field

  /** How a piece is written in the template. */
  function Written(p: Piece): string {
    match p
    case Text(s) => s
    case OpenBrace => "{{"
    case CloseBrace => "}}"
    case Field => "{" + Placeholder + "}"
  }

  /** What a piece becomes once formatted with `value`. */
  function Filled(p: Piece, value: string): string {
    match p
    case Text(s) => s
    case OpenBrace => "{"
    case CloseBrace => "}"
    case Field => value
  }

  function Render(ps: seq<Piece>): string {
    if ps == [] then "" else Written(ps[0]) + Render(ps[1..])
  }

  function Fill(ps: seq<Piece>, value: string): string {
    if ps == [] then "" else Filled(ps[0], value) + Fill(ps[1..], value)
  }

  predicate WellFormed(ps: seq<Piece>) {
    forall i | 0 <= i < |ps| :: ps[i].Text? ==> NoBraces(ps[i].s)
  }

  /** Formatting a template written from pieces fills each piece in place. */
  lemma {:induction false} FormatRender(ps: seq<Piece>, value: string)
    requires WellFormed(ps)
    ensures Format(Render(ps), value) == Ok(Fill(ps, value))
    decreases |ps|
  {
    if ps != [] {
      var rest := Render(ps[1..]);
      assert WellFormed(ps[1..]) by {
        forall i | 0 <= i < |ps[1..]| ensures ps[1..][i].Text? ==> NoBraces(ps[1..][i].s) {
          assert ps[1..][i] == ps[i + 1];
        }
      }
      FormatRender(ps[1..], value);
      match ps[0]
      case Text(s) => FormatText(s, rest, value);
      case OpenBrace => FormatOpen(rest, value);
      case CloseBrace => FormatClose(rest, value);
      case Field => FormatField(rest, value);
    }
  }

  lemma {:induction false} FillAppend(a: seq<Piece>, b: seq<Piece>, value: string)
    ensures Fill(a + b, value) == Fill(a, value) + Fill(b, value)
    decreases |a|
  {
    if a != [] {
      assert (a + b)[1..] == a[1..] + b;
      FillAppend(a[1..], b, value);
    } else {
      assert a + b == b;
    }
  }

  /** Filling pieces without the field does not depend on the value. */
  lemma {:induction false} FillWithoutField(ps: seq<Piece>, v1: string, v2: string)
    requires forall i | 0 <= i < |ps| :: ps[i] != Field
    ensures Fill(ps, v1) == Fill(ps, v2)
    decreases |ps|
  {
    if ps != [] {
      assert forall i | 0 <= i < |ps[1..]| :: ps[1..][i] == ps[i + 1];
      FillWithoutField(ps[1..], v1, v2);
    }
  }

  // ---------------------------------------------------------------------------
  // The default template
  // ---------------------------------------------------------------------------

  /** The indentation of the template's lines. */
  const Indent := "          "

  /** The bullet list of the requested fields: name and description. */
  const FieldDescriptions: seq<(string, string)> := [
    ("data_ocorrencia", "date and time of the incident in " + "the format \"YYYY-MM-DD HH:MM\" " + "(null if not mentioned)"),
    ("local", "location where the incident occurred"),
    ("tipo_incidente", "category or type of the incident"),
    ("impacto", "brief description of the impact caused")
  ]

  /** The example answer: key and value of each line of the JSON object. */
  const ExampleAnswer: seq<(string, string)> := [
    ("data_ocorrencia", "2025-08-14 14:00"),
    ("local", "S\U{E3}o Paulo"),
    ("tipo_incidente", "Server failure"),
    ("impacto", "Billing system unavailable for 2 hours")
  ]

  function Bullets(fields: seq<(string, string)>): string {
    if fields == [] then "" else Indent + "- " + fields[0].0 + ": " + fields[0].1 + "\n" + Bullets(fields[1..])
  }

  /** The lines of the example object, a comma after all but the last. */
  function JsonLines(entries: seq<(string, string)>): string {
    if entries == [] then ""
    else
      Indent + "  \"" + entries[0].0 + "\": \"" + entries[0].1 + "\""
      + (if |entries| == 1 then "\n" else ",\n" + JsonLines(entries[1..]))
  }

  const Instructions := Indent
    + ("You are an incident analysis " + "specialist. Extract the following " + "information from the provided ")
    + ("text and return ONLY a valid JSON " + "with the requested fields:\n")

  const IncidentExample := Indent + "Example of an incident:\n" + Indent
    + ("  2025-08-14 14:00, at the S\U{E3}o " + "Paulo office, there was a failure ")
    + ("in the main server that affected " + "the billing system for 2 hours.\n")

  const AnswerIntro := Indent + "Example of JSON response:\n" + Indent

  /** The text before the escaped opening brace of the example object. */
  const Head := "\n" + Instructions + Bullets(FieldDescriptions) + "\n" + IncidentExample + "\n" + AnswerIntro

  /** The inside of the example object. */
  const ExampleBody := "\n" + JsonLines(ExampleAnswer) + Indent

  const BeforeField := "\n\n" + Indent + "Incident text: "

  const Tail := "\n" + Indent + "JSON response:\n        "

  /** The template as pieces: text, the escaped opening brace of the example object, its
      inside, the escaped closing brace, text, the field and the closing text. */
  function Pieces(head: string, body: string, before: string, tail: string): seq<Piece> {
    [Text(head), OpenBrace, Text(body), CloseBrace, Text(before), Field, Text(tail)]
  }

  const DefaultPieces := Pieces(Head, ExampleBody, BeforeField, Tail)

  /** `ExtractionPrompt.default()`: the same frozen prompt on every call. */
  function Default(): (p: ExtractionPrompt)
    ensures p.content == Render(DefaultPieces)
  {
    ExtractionPrompt(Render(DefaultPieces))
  }

  /** A template of that shape formats to its text with the braces undone and the value
      in place of the field, and the field is its only one. */
  lemma FormatPieces(head: string, body: string, before: string, tail: string, value: string)
    requires NoBraces(head) && NoBraces(body) && NoBraces(before) && NoBraces(tail)
    ensures Format(Render(Pieces(head, body, before, tail)), value)
         == Ok(head + "{" + body + "}" + before + value + tail)
    ensures forall i | 0 <= i < 7 :: Pieces(head, body, before, tail)[i] == Field <==> i == 5
  {
    FormatRender(Pieces(head, body, before, tail), value);
    FillPieces(head, body, before, tail, value);
  }

  lemma FillPieces(head: string, body: string, before: string, tail: string, value: string)
    ensures Fill(Pieces(head, body, before, tail), value) == head + "{" + body + "}" + before + value + tail
  {
    var ps := Pieces(head, body, before, tail);
    var q1 := ps[1..];
    var q2 := q1[1..];
    var q3 := q2[1..];
    var q4 := q3[1..];
    var q5 := q4[1..];
    var q6 := q5[1..];
    assert q6 == [Text(tail)] && q6[1..] == [];
    assert Fill(q6, value) == tail;
    assert Fill(q5, value) == value + tail;
    assert Fill(q4, value) == before + (value + tail);
    assert Fill(q3, value) == "}" + (before + (value + tail));
    assert Fill(q2, value) == body + ("}" + (before + (value + tail)));
    assert Fill(q1, value) == "{" + (body + ("}" + (before + (value + tail))));
  }

  lemma {:induction false} BulletsHaveNoBraces(fields: seq<(string, string)>)
    requires forall i | 0 <= i < |fields| :: NoBraces(fields[i].0) && NoBraces(fields[i].1)
    ensures NoBraces(Bullets(fields))
    decreases |fields|
  {
    if fields != [] {
      assert forall i | 0 <= i < |fields[1..]| :: fields[1..][i] == fields[i + 1];
      BulletsHaveNoBraces(fields[1..]);
    }
  }

  lemma {:induction false} JsonLinesHaveNoBraces(entries: seq<(string, string)>)
    requires forall i | 0 <= i < |entries| :: NoBraces(entries[i].0) && NoBraces(entries[i].1)
    ensures NoBraces(JsonLines(entries))
    decreases |entries|
  {
    if |entries| > 1 {
      assert forall i | 0 <= i < |entries[1..]| :: entries[1..][i] == entries[i + 1];
      JsonLinesHaveNoBraces(entries[1..]);
    }
  }

  lemma NoBraces3(a: string, b: string, c: string)
    requires NoBraces(a) && NoBraces(b) && NoBraces(c)
    ensures NoBraces(a + b + c)
  {
    NoBracesAppend(a, b);
    NoBracesAppend(a + b, c);
  }

  lemma InstructionsHaveNoBraces()
    ensures NoBraces(Instructions)
  {
    var a := "You are an incident analysis " + "specialist. Extract the following " + "information from the provided ";
    var b := "text and return ONLY a valid JSON " + "with the requested fields:\n";
    AskHasNoBraces();
    RequestHasNoBraces();
    assert NoBraces(Indent);
    NoBraces3(Indent, a, b);
  }

  lemma AskHasNoBraces()
    ensures NoBraces("You are an incident analysis " + "specialist. Extract the following " + "information from the provided ")
  {
    assert NoBraces("You are an incident analysis ");
    assert NoBraces("specialist. Extract the following ");
    assert NoBraces("information from the provided ");
    NoBraces3("You are an incident analysis ", "specialist. Extract the following ", "information from the provided ");
  }

  lemma RequestHasNoBraces()
    ensures NoBraces("text and return ONLY a valid JSON " + "with the requested fields:\n")
  {
    assert NoBraces("text and return ONLY a valid JSON ");
    assert NoBraces("with the requested fields:\n");
    NoBracesAppend("text and return ONLY a valid JSON ", "with the requested fields:\n");
  }

  lemma IncidentExampleHasNoBraces()
    ensures NoBraces(IncidentExample)
  {
    var a := "  2025-08-14 14:00, at the S\U{E3}o " + "Paulo office, there was a failure ";
    var b := "in the main server that affected " + "the billing system for 2 hours.\n";
    assert NoBraces(Indent) && NoBraces("Example of an incident:\n");
    NoBraces3(Indent, "Example of an incident:\n", Indent);
    IncidentLineHasNoBraces();
    NoBraces3(Indent + "Example of an incident:\n" + Indent, a, b);
  }

  lemma IncidentLineHasNoBraces()
    ensures NoBraces("  2025-08-14 14:00, at the S\U{E3}o " + "Paulo office, there was a failure ")
    ensures NoBraces("in the main server that affected " + "the billing system for 2 hours.\n")
  {
    assert NoBraces("  2025-08-14 14:00, at the S\U{E3}o ");
    assert NoBraces("Paulo office, there was a failure ");
    NoBracesAppend("  2025-08-14 14:00, at the S\U{E3}o ", "Paulo office, there was a failure ");
    IncidentLineEndHasNoBraces();
  }

  lemma IncidentLineEndHasNoBraces()
    ensures NoBraces("in the main server that affected " + "the billing system for 2 hours.\n")
  {
    assert NoBraces("in the main server that affected ");
    assert NoBraces("the billing system for 2 hours.\n");
    NoBracesAppend("in the main server that affected ", "the billing system for 2 hours.\n");
  }

  lemma FieldDescriptionsHaveNoBraces()
    ensures forall i | 0 <= i < |FieldDescriptions| :: NoBraces(FieldDescriptions[i].0) && NoBraces(FieldDescriptions[i].1)
  {
    DateDescriptionHasNoBraces();
    assert NoBraces("data_ocorrencia") && NoBraces("local") && NoBraces("tipo_incidente") && NoBraces("impacto");
    OtherDescriptionsHaveNoBraces();
  }

  lemma DateDescriptionHasNoBraces()
    ensures NoBraces("date and time of the incident in " + "the format \"YYYY-MM-DD HH:MM\" " + "(null if not mentioned)")
  {
    assert NoBraces("date and time of the incident in ");
    assert NoBraces("the format \"YYYY-MM-DD HH:MM\" ");
    assert NoBraces("(null if not mentioned)");
    NoBraces3("date and time of the incident in ", "the format \"YYYY-MM-DD HH:MM\" ", "(null if not mentioned)");
  }

  lemma OtherDescriptionsHaveNoBraces()
    ensures NoBraces("location where the incident occurred")
    ensures NoBraces("category or type of the incident")
    ensures NoBraces("brief description of the impact caused")
  {
  }

  lemma ExampleAnswerHasNoBraces()
    ensures forall i | 0 <= i < |ExampleAnswer| :: NoBraces(ExampleAnswer[i].0) && NoBraces(ExampleAnswer[i].1)
  {
    assert NoBraces("data_ocorrencia") && NoBraces("local") && NoBraces("tipo_incidente") && NoBraces("impacto");
    assert NoBraces("2025-08-14 14:00") && NoBraces("S\U{E3}o Paulo") && NoBraces("Server failure");
    assert NoBraces("Billing system unavailable for 2 hours");
  }

  lemma HeadHasNoBraces()
    ensures NoBraces(Head)
  {
    InstructionsHaveNoBraces();
    IncidentExampleHasNoBraces();
    FieldDescriptionsHaveNoBraces();
    BulletsHaveNoBraces(FieldDescriptions);
    assert NoBraces("\n") && NoBraces(AnswerIntro);
    NoBraces3("\n", Instructions, Bullets(FieldDescriptions));
    NoBraces3("\n" + Instructions + Bullets(FieldDescriptions), "\n", IncidentExample);
    NoBraces3("\n" + Instructions + Bullets(FieldDescriptions) + "\n" + IncidentExample, "\n", AnswerIntro);
  }

  lemma ExampleBodyHasNoBraces()
    ensures NoBraces(ExampleBody)
  {
    ExampleAnswerHasNoBraces();
    JsonLinesHaveNoBraces(ExampleAnswer);
    assert NoBraces("\n") && NoBraces(Indent);
    NoBraces3("\n", JsonLines(ExampleAnswer), Indent);
  }

  lemma FieldTextHasNoBraces()
    ensures NoBraces(BeforeField) && NoBraces(Tail)
  {
    assert NoBraces("\n\n") && NoBraces(Indent) && NoBraces("Incident text: ");
    NoBraces3("\n\n", Indent, "Incident text: ");
    assert NoBraces("\n") && NoBraces("JSON response:\n        ");
    NoBraces3("\n", Indent, "JSON response:\n        ");
  }

  /** The formatted prompt's text before the incident text: the template's, with the
      example object's braces single. */
  const Preamble := Head + "{" + ExampleBody + "}" + BeforeField

  /** Formatting the default prompt never raises, and substitutes the incident text at
      its one field only: the rest of the result is the same for every text. */
  lemma FormatDefault(value: string)
    ensures Format(Str(Default()), value) == Ok(Preamble + value + Tail)
    ensures forall i | 0 <= i < |DefaultPieces| :: DefaultPieces[i] == Field <==> i == 5
  {
    HeadHasNoBraces();
    ExampleBodyHasNoBraces();
    FieldTextHasNoBraces();
    FormatPieces(Head, ExampleBody, BeforeField, Tail, value);
  }

  /** The prompt asks for exactly the four fields of the record, and its example answer
      uses exactly those keys. */
  lemma DefaultNamesTheFields()
    ensures |FieldDescriptions| == |Entities.FieldNames| == |ExampleAnswer|
    ensures forall i | 0 <= i < |FieldDescriptions| ::
      FieldDescriptions[i].0 == Entities.FieldNames[i] == ExampleAnswer[i].0
  {
  }
}
