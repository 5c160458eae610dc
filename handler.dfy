/**
 * What a handler hands back: a JSON reply written with utils.WriteJSON (a
 * status code and a JSON object), and the command descriptors of the
 * `docker` command lines the handlers run. A command is never executed
 * here: its outcome (the combined output and, on a non-zero exit, the error
 * text) comes from an oracle the caller passes in.
 */
module Handler {
  import opened Text

  const StatusOK: int := 200
  const StatusCreated: int := 201
  const StatusBadRequest: int := 400
  const StatusInternalServerError: int := 500

  /** The values that occur in the modelled JSON bodies. */
  datatype Value = Str(s: string) | Bool(b: bool)

  datatype Reply = Reply(status: int, body: map<string, Value>)

  /** types.ErrorResponse: the object {"error": msg}. */
  function ErrorReply(status: int, msg: string): Reply {
    Reply(status, map["error" := Str(msg)])
  }

  /**
   * exec.Command(exe, argv...) with its working directory (`dir`, "" for
   * the server's own) and its environment (None: inherited unchanged).
   */
  datatype Command = Command(exe: string, argv: seq<string>, dir: string, env: Option<seq<string>>)

  /** What cmd.CombinedOutput reports: the output, and the error on failure. */
  datatype Outcome = Outcome(output: string, failure: Option<string>)

  const Docker: string := "docker"

  /**
   * The reply of a handler that ran a command: 500 with success=false, the
   * output and the error when it failed, 200 with success=true and the
   * output otherwise; `extra` are further fields of the success reply.
   */
  function RunReply(o: Outcome, extra: map<string, Value>): (r: Reply)
    ensures r.status == StatusOK || r.status == StatusInternalServerError
    ensures r.status == StatusOK <==> o.failure.None?
    ensures "success" in r.body && r.body["success"] == Bool(o.failure.None?)
    ensures "output" in r.body && r.body["output"] == Str(o.output)
    ensures o.failure.Some? ==> "error" in r.body && r.body["error"] == Str(o.failure.value)
  {
    match o.failure
    case Some(e) =>
      Reply(StatusInternalServerError, map["success" := Bool(false), "output" := Str(o.output), "error" := Str(e)])
    case None =>
      Reply(StatusOK, extra + map["success" := Bool(true), "output" := Str(o.output)])
  }
}
