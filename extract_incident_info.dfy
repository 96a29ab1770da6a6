/** The extraction use case (src/application/use_cases/extract_incident_info.py): the
    incident text is preprocessed, put into the default prompt, sent to the language
    model, and the reply is parsed, its keys normalised and the record built.

    The language model service is a parameter: a function from the prompt to the reply or
    to the error the service raises. The JSON decoder and the string-similarity ratio are
    parameters as in the parser and the postprocessor. */
module ExtractIncidentInfo {
  import opened Wrappers
  import opened Exceptions
  import ScanFacts
  import Entities
  import IncidentTexts
  import ValueObjects
  import JsonParsing
  import TextPreprocessing
  import TextPostprocessing

  /** `LLMServiceInterface.generate_response`: the reply, or the error raised. */
  type Llm = string -> Result<string, Error>

  type Ratio = (string, string) -> real

  const PreviewLength := 200

  /** What the message of a parse failure writes before the reply and before the
      parser's message. */
  const ResponseLabel := "LLM response: "
  const ErrorLabel := "... | Error: "

  /** `llm_response[:200]`. */
  function Preview(s: string): (p: string)
    ensures |p| <= PreviewLength && |p| <= |s| && p == s[..|p|]
    ensures |s| <= PreviewLength ==> p == s
    ensures |s| > PreviewLength ==> |p| == PreviewLength
  {
    if |s| <= PreviewLength then s else s[..PreviewLength]
  }

  /** How many characters of the reply `llm_response[:200]` quotes. */
  function QuotedLength(response: string): nat {
    if |response| <= PreviewLength then |response| else PreviewLength
  }

  /** The message of the error raised when the reply cannot be parsed: the label, the
      first 200 characters of the reply (all of it when shorter), the separator and the
      parser's message. */
  function ParseFailureMessage(response: string, e: Error): (r: string)
    ensures var n := QuotedLength(response);
      && |r| == |ResponseLabel| + n + |ErrorLabel| + |e.message|
      && r[..|ResponseLabel|] == ResponseLabel
      && r[|ResponseLabel|..|ResponseLabel| + n] == response[..n]
      && r[|ResponseLabel| + n..|ResponseLabel| + n + |ErrorLabel|] == ErrorLabel
      && r[|r| - |e.message|..] == e.message
  {
    FourParts(ResponseLabel, Preview(response), ErrorLabel, e.message);
    ResponseLabel + Preview(response) + ErrorLabel + e.message
  }

  /** Where the parts of `a + b + c + d` sit. */
  lemma FourParts(a: string, b: string, c: string, d: string)
    ensures var r := a + b + c + d;
      && |r| == |a| + |b| + |c| + |d|
      && r[..|a|] == a && r[|a|..|a| + |b|] == b && r[|a| + |b|..|a| + |b| + |c|] == c
      && r[|r| - |d|..] == d
  {
    var r := a + b + c + d;
    assert r == a + (b + (c + d));
  }

  /** The prompt sent for an incident text: the default template formatted with the
      preprocessed text. */
  function Prompt(table: seq<(string, string)>, text: IncidentTexts.IncidentText): Result<string, Error> {
    ValueObjects.Format(ValueObjects.Str(ValueObjects.Default()), TextPreprocessing.Preprocessed(table, text.content))
  }

  /** The reply of the language model to the prompt for an incident text, or the error
      raised while building the prompt or by the service. */
  function Reply(llm: Llm, table: seq<(string, string)>, text: IncidentTexts.IncidentText): Result<string, Error> {
    match Prompt(table, text)
    case Err(e) => Err(e)
    case Ok(prompt) => llm(prompt)
  }

  /** What `execute` makes of a reply: the parsed object, its keys normalised, as a record;
      a parse failure is re-raised with the start of the reply. A parsed reply is always an
      object (`JsonParsing.ParseYieldsObject`), which is what the postprocessor expects. */
  function Interpreted(decode: JsonParsing.Decoder, ratio: Ratio, response: string): (r: Result<Entities.IncidentInfo, Error>)
    requires JsonParsing.ObjectsStartWithBrace(decode)
    ensures r.Err? <==> JsonParsing.Parsed(decode, response).Err?
    ensures r.Err? ==> r.error.InvalidJsonResponseError?
  {
    JsonParsing.ParseYieldsObject(decode, response);
    match JsonParsing.Parsed(decode, response)
    case Err(e) => Err(InvalidJsonResponseError(ParseFailureMessage(response, e)))
    case Ok(v) => Ok(TextPostprocessing.BuildIncidentInfo(TextPostprocessing.Normalized(ratio, v.entries)))
  }

  /** What `execute` returns or raises. */
  function Outcome(llm: Llm, table: seq<(string, string)>, decode: JsonParsing.Decoder, ratio: Ratio,
                   text: IncidentTexts.IncidentText): (r: Result<Entities.IncidentInfo, Error>)
    requires JsonParsing.ObjectsStartWithBrace(decode)
    ensures var reply := Reply(llm, table, text);
      reply.Err? ==> r == Err(reply.error)
    ensures var reply := Reply(llm, table, text);
      reply.Ok? ==> (r.Err? <==> JsonParsing.Parsed(decode, reply.value).Err?)
  {
    var reply := Reply(llm, table, text);
    if reply.Err? then Err(reply.error) else Interpreted(decode, ratio, reply.value)
  }

  class ExtractIncidentInfoUseCase {
    const llmService: Llm
    const textPreprocessor: TextPreprocessing.TextPreprocessor
    const decode: JsonParsing.Decoder
    const ratio: Ratio

    /** `__init__`: the use case keeps its collaborators. */
    constructor(llmService: Llm, textPreprocessor: TextPreprocessing.TextPreprocessor,
                decode: JsonParsing.Decoder, ratio: Ratio)
      ensures this.llmService == llmService && this.textPreprocessor == textPreprocessor
      ensures this.decode == decode && this.ratio == ratio
    {
      this.llmService := llmService;
      this.textPreprocessor := textPreprocessor;
      this.decode := decode;
      this.ratio := ratio;
    }

    /** `execute`. */
    method Execute(incidentText: IncidentTexts.IncidentText) returns (r: Result<Entities.IncidentInfo, Error>)
      requires JsonParsing.ObjectsStartWithBrace(decode)
      ensures r == Outcome(llmService, textPreprocessor.relativeDates, decode, ratio, incidentText)
    {
      var preprocessedText := textPreprocessor.Preprocess(incidentText.content);
      var prompt := ValueObjects.Default();
      var formattedPrompt := ValueObjects.Format(ValueObjects.Str(prompt), preprocessedText);
      assert formattedPrompt == Prompt(textPreprocessor.relativeDates, incidentText);
      if formattedPrompt.Err? {
        return Err(formattedPrompt.error);
      }
      var llmResponse := llmService(formattedPrompt.value);
      assert llmResponse == Reply(llmService, textPreprocessor.relativeDates, incidentText);
      if llmResponse.Err? {
        return Err(llmResponse.error);
      }
      r := Interpret(llmResponse.value);
    }

    /** The second half of `execute`: parse the reply and build the record. */
    method Interpret(response: string) returns (r: Result<Entities.IncidentInfo, Error>)
      requires JsonParsing.ObjectsStartWithBrace(decode)
      ensures r == Interpreted(decode, ratio, response)
    {
      var extracted := JsonParsing.Parse(decode, response);
      if extracted.Err? {
        return Err(InvalidJsonResponseError(ParseFailureMessage(response, extracted.error)));
      }
      JsonParsing.ParseYieldsObject(decode, response);
      var normalizedData := TextPostprocessing.NormalizeFieldNames(ratio, extracted.value.entries);
      r := Ok(TextPostprocessing.BuildIncidentInfo(normalizedData));
    }
  }

  // ---------------------------------------------------------------------------
  // What `execute` promises
  // ---------------------------------------------------------------------------

  /** The prompt is always built: it is the fixed preamble, the preprocessed text and the
      fixed closing text. */
  lemma PromptFramesText(table: seq<(string, string)>, text: IncidentTexts.IncidentText)
    ensures Prompt(table, text)
         == Ok(ValueObjects.Preamble + TextPreprocessing.Preprocessed(table, text.content) + ValueObjects.Tail)
  {
    ValueObjects.FormatDefault(TextPreprocessing.Preprocessed(table, text.content));
  }

  /** So the reply is the service's answer to that prompt, and an error of the service
      reaches the caller of `execute` unchanged. */
  lemma ServiceAnswerPassedOn(llm: Llm, table: seq<(string, string)>, decode: JsonParsing.Decoder, ratio: Ratio,
                              text: IncidentTexts.IncidentText)
    requires JsonParsing.ObjectsStartWithBrace(decode)
    ensures Reply(llm, table, text)
         == llm(ValueObjects.Preamble + TextPreprocessing.Preprocessed(table, text.content) + ValueObjects.Tail)
    ensures Reply(llm, table, text).Err? ==> Outcome(llm, table, decode, ratio, text) == Err(Reply(llm, table, text).error)
  {
    PromptFramesText(table, text);
  }

  /** A reply is refused exactly when the parser refuses it, and then the error is an
      invalid-JSON error quoting the first 200 characters of the reply (all of it when
      shorter) and the parser's message. */
  lemma ParseFailureWrapped(decode: JsonParsing.Decoder, ratio: Ratio, response: string)
    requires JsonParsing.ObjectsStartWithBrace(decode)
    ensures Interpreted(decode, ratio, response).Err? <==> JsonParsing.Parsed(decode, response).Err?
    ensures Interpreted(decode, ratio, response).Err? ==>
      Interpreted(decode, ratio, response).error == InvalidJsonResponseError(
        "LLM response: " + response[..QuotedLength(response)] + "... | Error: "
        + JsonParsing.Parsed(decode, response).error.message)
  {
    if JsonParsing.Parsed(decode, response).Err? {
      assert Preview(response) == response[..QuotedLength(response)];
    }
  }

  /** A reply with no opening brace is refused because no JSON is found in it. */
  lemma ReplyWithoutBraceRefused(decode: JsonParsing.Decoder, ratio: Ratio, response: string)
    requires JsonParsing.ObjectsStartWithBrace(decode)
    requires ScanFacts.Lacks(response, '{')
    ensures Interpreted(decode, ratio, response)
         == Err(InvalidJsonResponseError(ParseFailureMessage(response, InvalidJsonResponseError(JsonParsing.NoJsonFound))))
  {
    JsonParsing.NoBraceNoJson(decode, response);
  }

  /** A record built from a reply always has text in its three text fields. */
  lemma InterpretedHasText(decode: JsonParsing.Decoder, ratio: Ratio, response: string)
    requires JsonParsing.ObjectsStartWithBrace(decode)
    ensures var r := Interpreted(decode, ratio, response);
      r.Ok? ==> r.value.local.Str? && r.value.tipoIncidente.Str? && r.value.impacto.Str?
  {
    JsonParsing.ParseYieldsObject(decode, response);
    var p := JsonParsing.Parsed(decode, response);
    if p.Ok? {
      TextPostprocessing.BuildAfterNormalizeHasText(ratio, p.value.entries);
    }
  }

  /** A reply that parses to the serialised form of a record gives back that record. */
  lemma SerialisedRecordRecovered(decode: JsonParsing.Decoder, ratio: Ratio, response: string, info: Entities.IncidentInfo)
    requires JsonParsing.ObjectsStartWithBrace(decode)
    requires info.local.Str? && info.tipoIncidente.Str? && info.impacto.Str?
    requires JsonParsing.Parsed(decode, response) == Ok(JsonParsing.Object(Entities.ToDict(info)))
    ensures Interpreted(decode, ratio, response) == Ok(info)
  {
    TextPostprocessing.NormalizeRoundTrip(ratio, info);
  }

  /** End to end: a successful extraction has text in its text fields, and when the service
      answers the prompt with the serialised form of a record, `execute` returns it. */
  lemma OutcomeOfSerialisedRecord(llm: Llm, table: seq<(string, string)>, decode: JsonParsing.Decoder, ratio: Ratio,
                                  text: IncidentTexts.IncidentText, response: string, info: Entities.IncidentInfo)
    requires JsonParsing.ObjectsStartWithBrace(decode)
    requires info.local.Str? && info.tipoIncidente.Str? && info.impacto.Str?
    requires llm(ValueObjects.Preamble + TextPreprocessing.Preprocessed(table, text.content) + ValueObjects.Tail) == Ok(response)
    requires JsonParsing.Parsed(decode, response) == Ok(JsonParsing.Object(Entities.ToDict(info)))
    ensures Outcome(llm, table, decode, ratio, text) == Ok(info)
  {
    ServiceAnswerPassedOn(llm, table, decode, ratio, text);
    SerialisedRecordRecovered(decode, ratio, response, info);
  }
}
