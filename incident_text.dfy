/** The incident text the pipeline accepts (src/domain/entities/incident_text.py; the
    class is repeated verbatim in app/domain/entities.py). It is a frozen dataclass whose
    `__post_init__` refuses content that `str.strip()` empties. A Dafny datatype value
    is immutable, which is what `frozen=True` promises. */
module IncidentTexts {
  import opened Wrappers
  import opened Exceptions
  import opened PyStr

  datatype IncidentText = IncidentText(content: string)

  const EmptyMessage := "Incident text cannot be empty"

  /** `IncidentText(content)`: the object, or the `ValueError` its `__post_init__` raises. */
  function Create(content: string): (r: Result<IncidentText, Error>)
    ensures r.Err? <==> AllSpace(content)
    ensures r.Err? ==> r.error == ValueError(EmptyMessage)
    ensures r.Ok? ==> r.value.content == content
  {
    StripEmptyIffAllSpace(content);
    if Strip(content) == [] then Err(ValueError(EmptyMessage)) else Ok(IncidentText(content))
  }

  /** Content with a character other than whitespace is accepted and kept as given,
      surrounding whitespace included. */
  lemma {:induction false} CreateKeepsContent(content: string, k: nat)
    requires k < |content| && !IsSpace(content[k])
    ensures Create(content) == Ok(IncidentText(content))
  {
  }

  /** The empty string and a run of spaces are both refused. */
  lemma CreateRejectsBlank()
    ensures Create("") == Err(ValueError(EmptyMessage))
    ensures Create("   ") == Err(ValueError(EmptyMessage))
  {
    assert AllSpace("   ");
  }

  /** The accepted example text keeps its content. */
  lemma CreateAcceptsText()
    ensures Create("Falha no servidor principal") == Ok(IncidentText("Falha no servidor principal"))
  {
    CreateKeepsContent("Falha no servidor principal", 0);
  }
}
