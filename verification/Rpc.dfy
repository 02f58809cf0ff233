/** Replies of the server, or exceptions in place of them, and the early exits that every call shares. */
module Rpc {
  import opened Decimal
  import opened PyString

  datatype TStatusCode = SUCCESS | SUCCESS_WITH_INFO | STILL_EXECUTING | ERROR | INVALID_HANDLE | OTHER(code: int)

  datatype TStatus = TStatus(code: TStatusCode, infoMessages: seq<string>, errorMessage: string)

  datatype StatusCode = Success | StillExecuting | Error | InvalidHandle

  datatype Status = Status(code: StatusCode, message: string) {
    predicate Ok() { code == Success }
  }

  /** What an RPC gives: an exception, or a response with a status and a payload. */
  datatype Reply<T> = Exception(what: string) | Response(status: TStatus, payload: T)

  /** The messages with commas between them. */
  function InfoText(messages: seq<string>): string {
    if messages == [] then "" else Join(messages, ",")
  }

  function ToStatus(t: TStatus): Status {
    match t.code
    case SUCCESS => Status(Success, "")
    case SUCCESS_WITH_INFO => Status(Success, InfoText(t.infoMessages))
    case STILL_EXECUTING => Status(StillExecuting, "")
    case ERROR => Status(Error, t.errorMessage)
    case INVALID_HANDLE => Status(InvalidHandle, "")
    case OTHER(code) => Status(Error, "Unknown TStatusCode " + IntText(code))
  }

  lemma InfoTextSnoc(messages: seq<string>, g: string)
    ensures InfoText(messages + [g]) == (if messages == [] then g else InfoText(messages) + "," + g)
  {
    if messages == [] { assert messages + [g] == [g]; } else { JoinSnoc(messages, g, ","); }
  }

  /** The loop of `TStatusToStatus` that joins the info messages. */
  method TStatusToStatus(t: TStatus) returns (s: Status)
    ensures s.Ok() <==> t.code == SUCCESS || t.code == SUCCESS_WITH_INFO
    ensures s.code == StillExecuting <==> t.code == STILL_EXECUTING
    ensures s.code == InvalidHandle <==> t.code == INVALID_HANDLE
    ensures s.code == Error <==> t.code == ERROR || t.code.OTHER?
    ensures t.code == SUCCESS_WITH_INFO && t.infoMessages != [] ==> s.message == Join(t.infoMessages, ",")
    ensures t.code == ERROR ==> s.message == t.errorMessage
    ensures t.code.OTHER? ==> s.message == "Unknown TStatusCode " + IntText(t.code.code)
    ensures s.message != "" ==> t.code.SUCCESS_WITH_INFO? || s.code == Error
    ensures s == ToStatus(t)
  {
    match t.code
    case SUCCESS => return Status(Success, "");
    case SUCCESS_WITH_INFO =>
      var ss := "";
      for i := 0 to |t.infoMessages|
        invariant ss == InfoText(t.infoMessages[..i])
      {
        assert t.infoMessages[..i + 1] == t.infoMessages[..i] + [t.infoMessages[i]];
        InfoTextSnoc(t.infoMessages[..i], t.infoMessages[i]);
        if i != 0 { ss := ss + ","; }
        ss := ss + t.infoMessages[i];
      }
      assert t.infoMessages[..|t.infoMessages|] == t.infoMessages;
      return Status(Success, ss);
    case STILL_EXECUTING => return Status(StillExecuting, "");
    case ERROR => return Status(Error, t.errorMessage);
    case INVALID_HANDLE => return Status(InvalidHandle, "");
    case OTHER(code) => return Status(Error, "Unknown TStatusCode " + IntText(code));
  }

  /** The test of `RETURN_NOT_OK`. */
  predicate Succeeded(t: TStatus) { t.code == SUCCESS || t.code == SUCCESS_WITH_INFO }

  /** The reply was a response that gets past both early exits. */
  predicate Passes<T>(r: Reply<T>) { r.Response? && Succeeded(r.status) }

  /** The status that a call returns after its reply. */
  function ReplyStatus<T>(r: Reply<T>): Status {
    match r
    case Exception(what) => Status(Error, what)
    case Response(t, _) => ToStatus(t)
  }

  /** Getting past the early exits and returning an ok status are the same thing. */
  lemma OkIffPasses<T>(r: Reply<T>)
    ensures ReplyStatus(r).Ok() <==> Passes(r)
    ensures Passes(r) <==> r.Response? && (r.status.code == SUCCESS || r.status.code == SUCCESS_WITH_INFO)
    ensures r.Exception? ==> ReplyStatus(r) == Status(Error, r.what)
  {
  }
}
