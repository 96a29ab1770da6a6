/** The extracted incident record (app/domain/entities.py): a frozen dataclass with an
    optional date-time and three text fields, and its `to_dict` serialisation, whose
    keys are the four canonical field names the rest of the pipeline is built around.

    The text fields are annotated `str` in the source, but nothing enforces that: a JSON
    `null` handed to the builder is stored as `None` and serialised as `None`. They are
    therefore `Value`s here. */
module Entities {
  import opened Wrappers
  import opened Calendar
  import opened Dicts

  /** The canonical field names, in the order `to_dict` writes them. */
  const FieldNames: seq<string> := ["data_ocorrencia", "local", "tipo_incidente", "impacto"]

  datatype IncidentInfo = IncidentInfo(
    dataOcorrencia: Option<Moment>,
    local: Value,
    tipoIncidente: Value,
    impacto: Value)

  /** What `to_dict` writes for the date: `strftime("%Y-%m-%d %H:%M")`, or `None`. */
  function DateValue(t: Option<Moment>): (v: Value)
    ensures t.None? <==> v == Null
    ensures t.Some? ==> v.Str? && |v.s| == 16 && v.s[..10] == FormatDate(t.value.date)
  {
    match t
    case None => Null
    case Some(dt) => Str(FormatDateTime(dt))
  }

  /** `IncidentInfo.to_dict()`: the four canonical keys, in order, the date formatted
      and the text fields copied as they are. */
  function ToDict(info: IncidentInfo): (d: Dict)
    ensures Keys(d) == FieldNames
    ensures Get(d, "data_ocorrencia") == Some(DateValue(info.dataOcorrencia))
    ensures Get(d, "local") == Some(info.local)
    ensures Get(d, "tipo_incidente") == Some(info.tipoIncidente)
    ensures Get(d, "impacto") == Some(info.impacto)
  {
    var d: Dict := [
      ("data_ocorrencia", DateValue(info.dataOcorrencia)),
      ("local", info.local),
      ("tipo_incidente", info.tipoIncidente),
      ("impacto", info.impacto)];
    GetAt(d, 0);
    GetAt(d, 1);
    GetAt(d, 2);
    GetAt(d, 3);
    d
  }

  /** The serialised example record of the entity tests. */
  lemma ToDictExample()
    ensures ToDict(IncidentInfo(Some(DateTime(Date(2025, 8, 14), 14, 0)), Str("S\U{E3}o Paulo"),
                                Str("Falha no servidor"), Str("Sistema indispon\U{ED}vel por 2 horas")))
         == [("data_ocorrencia", Str("2025-08-14 14:00")), ("local", Str("S\U{E3}o Paulo")),
             ("tipo_incidente", Str("Falha no servidor")), ("impacto", Str("Sistema indispon\U{ED}vel por 2 horas"))]
  {
    FormatExample();
  }

  lemma FormatExample()
    ensures FormatDateTime(DateTime(Date(2025, 8, 14), 14, 0)) == "2025-08-14 14:00"
  {
  }

  /** A record without a date serialises its date as `None`. */
  lemma ToDictWithoutDate(local: Value, tipo: Value, impacto: Value)
    ensures Get(ToDict(IncidentInfo(None, local, tipo, impacto)), "data_ocorrencia") == Some(Null)
  {
  }
}
