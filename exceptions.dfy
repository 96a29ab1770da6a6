/** The exceptions the pipeline raises, as values (app/domain/exceptions.py and the
    built-ins `ValueError`, raised by the entities and by `str.format`, `KeyError`,
    raised by `str.format` for an unknown keyword field, and `IndexError`, raised by
    `str.format` for a positional field). Each carries the message Python's `str(e)`
    would show, except `KeyError`, which carries the missing key. */
module Exceptions {

  datatype Error =
    | ValueError(message: string)
    | KeyError(message: string)
    | IndexError(message: string)
    /** Raised by the language model service; the model is a parameter of the use case,
        so only the function passed in returns this error. */
    | LlmServiceError(message: string)
    | InvalidJsonResponseError(message: string)
    /** `str.format` applying an index, an attribute, a conversion or a format spec to
        the `incident_text` value: what Python writes or raises there is not modelled,
        and the field's text is kept. */
    | UnmodelledField(message: string)
}
