/** Error serialisation: turning a database or runtime error into a plain
    object that can be handed from server code to client code. */
module Errors {
  import opened Base

  const DefaultMessage: string := "An unexpected error occurred"

  /** The properties of an error object that the serialiser reads; a property
      is `None` when it is absent, null or undefined. */
  datatype ErrorValue = ErrorValue(
    message: Option<string>,
    code: Option<string>,
    statusCode: Option<int>,
    details: Option<string>,
    hint: Option<string>)

  /** The plain object produced: either exactly `{ message }`, or all five
      keys with `null` (`None`) for the falsy ones. */
  datatype SerializedError =
    | MessageOnly(message: string)
    | Detailed(
        message: string,
        code: Option<string>,
        statusCode: Option<int>,
        details: Option<string>,
        hint: Option<string>)

  /** The default parameter: `undefined` becomes the generic message. */
  function DefaultOr(defaultMessage: Option<string>): string {
    if defaultMessage.Some? then defaultMessage.value else DefaultMessage
  }

  /** No optional field of a serialised error holds a falsy value. */
  predicate NoFalsyFields(r: SerializedError) {
    r.Detailed? ==>
      && (r.code.Some? ==> r.code.value != "")
      && (r.statusCode.Some? ==> r.statusCode.value != 0)
      && (r.details.Some? ==> r.details.value != "")
      && (r.hint.Some? ==> r.hint.value != "")
  }

  /** `serializeError(error, defaultMessage)`. */
  function SerializeError(error: Option<ErrorValue>, defaultMessage: Option<string>): (r: SerializedError)
    // a missing error yields exactly { message: defaultMessage }
    ensures error.None? ==> r == MessageOnly(DefaultOr(defaultMessage))
    // an error object always yields all five keys
    ensures error.Some? ==> r.Detailed?
    // the message is the error's own when truthy, else the default
    ensures error.Some? && Truthy(error.value.message) ==> r.message == error.value.message.value
    ensures error.Some? && !Truthy(error.value.message) ==> r.message == DefaultOr(defaultMessage)
    // with the built-in default the message is never empty
    ensures defaultMessage.None? ==> r.message != ""
    // truthy properties are copied unchanged, falsy ones become null
    ensures error.Some? ==>
      && (Truthy(error.value.code) ==> r.code == error.value.code)
      && (Truthy(error.value.details) ==> r.details == error.value.details)
      && (Truthy(error.value.hint) ==> r.hint == error.value.hint)
      && (error.value.statusCode.Some? && error.value.statusCode.value != 0 ==> r.statusCode == error.value.statusCode)
    ensures error.Some? ==>
      && (!Truthy(error.value.code) ==> r.code.None?)
      && (!Truthy(error.value.details) ==> r.details.None?)
      && (!Truthy(error.value.hint) ==> r.hint.None?)
      && (!(error.value.statusCode.Some? && error.value.statusCode.value != 0) ==> r.statusCode.None?)
    ensures NoFalsyFields(r)
  {
    match error
    case None => MessageOnly(DefaultOr(defaultMessage))
    case Some(e) =>
      Detailed(
        if Truthy(e.message) then e.message.value else DefaultOr(defaultMessage),
        OrNull(e.code),
        NumOrNull(e.statusCode),
        OrNull(e.details),
        OrNull(e.hint))
  }

  /** Reads a serialised error back as an error object (what a caller that
      re-serialises an error it received sees). */
  function AsErrorValue(r: SerializedError): ErrorValue {
    match r
    case MessageOnly(m) => ErrorValue(Some(m), None, None, None, None)
    case Detailed(m, c, s, d, h) => ErrorValue(Some(m), c, s, d, h)
  }

  /** Serialisation is a fixpoint: serialising an already serialised error
      (with the same default) gives the same object back, apart from a bare
      `{ message }` gaining its null keys. */
  lemma ReserializeIsStable(error: Option<ErrorValue>, defaultMessage: Option<string>)
    ensures var r := SerializeError(error, defaultMessage);
      var again := SerializeError(Some(AsErrorValue(r)), defaultMessage);
      && again.message == r.message
      && (r.Detailed? ==> again == r)
      && (r.MessageOnly? ==> again == Detailed(r.message, None, None, None, None))
  {
  }
}
