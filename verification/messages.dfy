/**
 Messages exchanged with a WebDriver BiDi server, already decoded from JSON.

 An inbound message is a JSON object; only the keys the clients look at are
 kept, each absent or present with an arbitrary JSON value. The key `type` is
 called `kind` and `method` is called `methodName` here, since both words are
 reserved in Dafny.
 */
module Messages {
  import opened Wrappers
  import opened Json

  datatype Inbound = Inbound(
    id: Option<Json>,
    kind: Option<Json>,
    methodName: Option<Json>,
    params: Option<Json>,
    result: Option<Json>,
    error: Option<Json>,
    message: Option<Json>,
    stacktrace: Option<Json>)

  /** The outgoing command record `{"id": id, "method": methodName, "params": params}`. */
  datatype Command = Command(id: int, methodName: string, params: Json)

  /** How a command's future ends: with a result object, or with a protocol error. */
  datatype Outcome =
    | Success(result: Json)
    | Error(code: Json, message: Json, stacktrace: Json)

  /** The state of the future handed back for one command. */
  datatype Slot = Unresolved | Resolved(outcome: Outcome)

  /** Python's `msg.get("type") == s`: only a present JSON string equal to `s` matches. */
  predicate HasKind(m: Inbound, s: string)
  {
    m.kind == Some(JStr(s))
  }
}
