/** The backend's last-resort error middleware: an error's name decides status and body. */
module ErrorHandler {
  import opened Wrappers

  const CastMessage: string := "Invalid ID format"
  const GenericMessage: string := "Something went wrong!"

  /** The JSON body: `message`, and `error` only where it is not `undefined`. */
  datatype ErrorBody = ErrorBody(message: string, error: Option<string>)

  datatype ErrorReply = ErrorReply(status: nat, body: ErrorBody)

  /** The answer for an error with `err.name` and `err.message`, given `process.env.NODE_ENV`. */
  function Handle(name: string, message: string, nodeEnv: Option<string>): (r: ErrorReply)
    ensures r.status == 400 <==> name == "ValidationError" || name == "CastError"
    ensures r.status == 400 || r.status == 500
    ensures name == "ValidationError" ==> r.body == ErrorBody(message, None)
    ensures name == "CastError" ==> r.body == ErrorBody(CastMessage, None)
    ensures r.status == 500 ==> r.body.message == GenericMessage
    ensures r.body.error.Some? <==> r.status == 500 && nodeEnv == Some("development")
    ensures r.body.error.Some? ==> r.body.error.value == message
  {
    if name == "ValidationError" then ErrorReply(400, ErrorBody(message, None))
    else if name == "CastError" then ErrorReply(400, ErrorBody(CastMessage, None))
    else ErrorReply(500, ErrorBody(GenericMessage, if nodeEnv == Some("development") then Some(message) else None))
  }

  /** Outside development the raw message of an unexpected error never reaches the client. */
  lemma NoDetailOutsideDevelopment(name: string, message: string, nodeEnv: Option<string>)
    requires nodeEnv != Some("development")
    requires name != "ValidationError"
    ensures Handle(name, message, nodeEnv).body.error.None?
    ensures Handle(name, message, nodeEnv).body.message in {CastMessage, GenericMessage}
  {
  }
}
