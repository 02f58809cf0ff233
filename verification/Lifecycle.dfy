/**
  Sessions and operations (src/hs2client/session.cc, src/hs2client/operation.cc): a handle, an
  open flag, and RPCs to a server that may answer anything or throw.
*/
module Lifecycle {
  import opened Options
  import opened Rpc

  type Handle = int

  datatype Kind = SessionKind | OperationKind

  /** What a session or an operation remembers. */
  datatype Endpoint = Endpoint(kind: Kind, open: bool, handle: Handle)

  /** A request on the wire; a statement is executed under the handle of a session. */
  datatype Request =
    | OpenSession
    | ExecuteStatementIn(session: Handle)
    | CloseSession(handle: Handle)
    | CloseOperation(handle: Handle)

  function OpenRequest(kind: Kind, session: Handle): Request {
    if kind.SessionKind? then OpenSession else ExecuteStatementIn(session)
  }

  function CloseRequest(kind: Kind, h: Handle): Request {
    if kind.SessionKind? then CloseSession(h) else CloseOperation(h)
  }

  /** One exchange: the request, whether its reply got past the early exits, and the handle that an open got. */
  datatype Exchange = Exchange(request: Request, passed: bool, granted: Handle)

  datatype Call = OpenCall(session: Handle, openReply: Reply<Handle>) | CloseCall(closeReply: Reply<()>)

  datatype Outcome = Outcome(next: Endpoint, status: Status, sent: seq<Exchange>)

  function Perform(e: Endpoint, call: Call): Outcome {
    match call
    case OpenCall(session, reply) =>
      var request := OpenRequest(e.kind, session);
      if Passes(reply) then
        Outcome(Endpoint(e.kind, true, reply.payload), ReplyStatus(reply), [Exchange(request, true, reply.payload)])
      else Outcome(e, ReplyStatus(reply), [Exchange(request, false, 0)])
    case CloseCall(reply) =>
      if !e.open then Outcome(e, Status(Success, ""), [])
      else
        Outcome(if Passes(reply) then e.(open := false) else e, ReplyStatus(reply),
                [Exchange(CloseRequest(e.kind, e.handle), Passes(reply), 0)])
  }

  /** The wire: replies are chosen by the server, requests are recorded. */
  class Wire {
    var log: seq<Exchange>

    constructor ()
      ensures log == []
    {
      log := [];
    }
  }

  class Session {
    var open: bool
    var handle: Handle
    const wire: Wire

    constructor (w: Wire)
      ensures !open && wire == w
    {
      open, handle, wire := false, 0, w;
    }

    function View(): Endpoint
      reads this
    {
      Endpoint(SessionKind, open, handle)
    }

    method Open(reply: Reply<Handle>) returns (s: Status)
      modifies this, wire
      ensures var r := Perform(old(View()), OpenCall(0, reply));
              View() == r.next && s == r.status && wire.log == old(wire.log) + r.sent
      ensures s.Ok() <==> Passes(reply)
      ensures (s.Ok() <==> open) <==> (!old(open) || Passes(reply))
      ensures wire.log == old(wire.log) + [Exchange(OpenSession, Passes(reply), if Passes(reply) then reply.payload else 0)]
      ensures if Passes(reply) then open && handle == reply.payload else open == old(open) && handle == old(handle)
      ensures reply.Exception? ==> s == Status(Error, reply.what)
    {
      OkIffPasses(reply);
      wire.log := wire.log + [Exchange(OpenSession, Passes(reply), if Passes(reply) then reply.payload else 0)];
      match reply
      case Exception(what) => return Status(Error, what);
      case Response(t, h) =>
        if t.code != SUCCESS && t.code != SUCCESS_WITH_INFO {
          s := TStatusToStatus(t);
          return;
        }
        handle := h;
        open := true;
        s := TStatusToStatus(t);
    }

    method Close(reply: Reply<()>) returns (s: Status)
      modifies this, wire
      ensures var r := Perform(old(View()), CloseCall(reply));
              View() == r.next && s == r.status && wire.log == old(wire.log) + r.sent
      ensures s.Ok() <==> !open
      ensures handle == old(handle)
      ensures wire.log == old(wire.log) + if old(open) then [Exchange(CloseSession(handle), Passes(reply), 0)] else []
      ensures open == (old(open) && !Passes(reply))
    {
      OkIffPasses(reply);
      if !open { return Status(Success, ""); }
      wire.log := wire.log + [Exchange(CloseSession(handle), Passes(reply), 0)];
      match reply
      case Exception(what) => return Status(Error, what);
      case Response(t, _) =>
        if t.code != SUCCESS && t.code != SUCCESS_WITH_INFO {
          s := TStatusToStatus(t);
          return;
        }
        open := false;
        s := TStatusToStatus(t);
    }
  }

  /** An operation that executes a statement; it also remembers the session it belongs to. */
  class Operation {
    var open: bool
    var handle: Handle
    var sessionHandle: Handle
    const wire: Wire

    constructor (w: Wire)
      ensures !open && wire == w
    {
      open, handle, sessionHandle, wire := false, 0, 0, w;
    }

    function View(): Endpoint
      reads this
    {
      Endpoint(OperationKind, open, handle)
    }

    method Open(session: Handle, reply: Reply<Handle>) returns (s: Status)
      modifies this, wire
      ensures var r := Perform(old(View()), OpenCall(session, reply));
              View() == r.next && s == r.status && wire.log == old(wire.log) + r.sent
      ensures s.Ok() <==> Passes(reply)
      ensures sessionHandle == if s.Ok() then session else old(sessionHandle)
      ensures wire.log == old(wire.log) +
                [Exchange(ExecuteStatementIn(session), Passes(reply), if Passes(reply) then reply.payload else 0)]
      ensures if Passes(reply) then open && handle == reply.payload else open == old(open) && handle == old(handle)
    {
      OkIffPasses(reply);
      wire.log := wire.log + [Exchange(ExecuteStatementIn(session), Passes(reply), if Passes(reply) then reply.payload else 0)];
      match reply
      case Exception(what) => return Status(Error, what);
      case Response(t, h) =>
        if t.code != SUCCESS && t.code != SUCCESS_WITH_INFO {
          s := TStatusToStatus(t);
          return;
        }
        handle := h;
        sessionHandle := session;
        open := true;
        s := TStatusToStatus(t);
    }

    method Close(reply: Reply<()>) returns (s: Status)
      modifies this, wire
      ensures var r := Perform(old(View()), CloseCall(reply));
              View() == r.next && s == r.status && wire.log == old(wire.log) + r.sent
      ensures s.Ok() <==> !open
      ensures handle == old(handle) && sessionHandle == old(sessionHandle)
      ensures wire.log == old(wire.log) + if old(open) then [Exchange(CloseOperation(handle), Passes(reply), 0)] else []
      ensures open == (old(open) && !Passes(reply))
    {
      OkIffPasses(reply);
      if !open { return Status(Success, ""); }
      wire.log := wire.log + [Exchange(CloseOperation(handle), Passes(reply), 0)];
      match reply
      case Exception(what) => return Status(Error, what);
      case Response(t, _) =>
        if t.code != SUCCESS && t.code != SUCCESS_WITH_INFO {
          s := TStatusToStatus(t);
          return;
        }
        open := false;
        s := TStatusToStatus(t);
    }
  }

  /** `Session::ExecuteStatement`: a new operation under the session's handle, returned even if opening it failed. */
  method ExecuteStatement(session: Session, reply: Reply<Handle>) returns (operation: Operation, s: Status)
    modifies session.wire
    ensures fresh(operation) && operation.wire == session.wire
    ensures s.Ok() <==> Passes(reply)
    ensures operation.open <==> s.Ok()
    ensures s.Ok() ==> operation.handle == reply.payload && operation.sessionHandle == session.handle
    ensures session.wire.log == old(session.wire.log) +
              [Exchange(ExecuteStatementIn(session.handle), Passes(reply), if Passes(reply) then reply.payload else 0)]
  {
    operation := new Operation(session.wire);
    s := operation.Open(session.handle, reply);
  }

  /** After `Open` with this reply the status is ok exactly if the endpoint is open. */
  ghost predicate Agrees(e: Endpoint, session: Handle, reply: Reply<Handle>) {
    var r := Perform(e, OpenCall(session, reply));
    r.status.Ok() <==> r.next.open
  }

  /** What a caller can test beforehand: status and open flag agree whatever the server replies exactly if it is not open. */
  lemma AgreesIffClosed(e: Endpoint, session: Handle)
    ensures (forall reply :: Agrees(e, session, reply)) <==> !e.open
  {
    forall reply: Reply<Handle> ensures ReplyStatus(reply).Ok() <==> Passes(reply) { OkIffPasses(reply); }
    if e.open { assert !Agrees(e, session, Exception("")); }
  }

  /** A session that is opened again, in vain: the status is not ok, and the session is open. */
  method ReopenInVain() returns (session: Session, s: Status)
    ensures session.open && !s.Ok()
  {
    var wire := new Wire();
    session := new Session(wire);
    s := session.Open(Response(TStatus(SUCCESS, [], ""), 1));
    assert session.open;
    s := session.Open(Exception("connection reset"));
  }

  // ----- Runs of any number of objects on one wire

  function Fresh(kind: Kind): Endpoint { Endpoint(kind, false, 0) }

  function Opens(log: seq<Exchange>, kind: Kind, h: Handle): nat {
    if log == [] then 0 else
    var x := log[|log| - 1];
    var granted := x.passed && x.granted == h && if kind.SessionKind? then x.request.OpenSession? else x.request.ExecuteStatementIn?;
    Opens(log[..|log| - 1], kind, h) + if granted then 1 else 0
  }

  function Closes(log: seq<Exchange>, kind: Kind, h: Handle): nat {
    if log == [] then 0 else
    var x := log[|log| - 1];
    Closes(log[..|log| - 1], kind, h) + if x.passed && x.request == CloseRequest(kind, h) then 1 else 0
  }

  lemma CountSent(log: seq<Exchange>, sent: seq<Exchange>, kind: Kind, h: Handle)
    requires |sent| <= 1
    ensures Opens(log + sent, kind, h) == Opens(log, kind, h) + Opens(sent, kind, h)
    ensures Closes(log + sent, kind, h) == Closes(log, kind, h) + Closes(sent, kind, h)
  {
    if sent == [] {
      assert log + sent == log;
    } else {
      assert (log + sent)[..|log + sent| - 1] == log && sent[..0] == [];
    }
  }

  /** One if the endpoint is open on this handle. */
  function Holds(e: Endpoint, kind: Kind, h: Handle): nat {
    if e.open && e.kind == kind && e.handle == h then 1 else 0
  }

  /** The number of endpoints that are open on this handle. */
  function Holders(es: seq<Endpoint>, kind: Kind, h: Handle): nat {
    if es == [] then 0 else Holders(es[..|es| - 1], kind, h) + Holds(es[|es| - 1], kind, h)
  }

  lemma {:induction false} HoldersUpdate(es: seq<Endpoint>, i: nat, e: Endpoint, kind: Kind, h: Handle)
    requires i < |es|
    ensures Holders(es[i := e], kind, h) == Holders(es, kind, h) - Holds(es[i], kind, h) + Holds(e, kind, h)
    decreases |es|
  {
    var n := |es| - 1;
    if i < n {
      HoldersUpdate(es[..n], i, e, kind, h);
      assert es[i := e][..n] == es[..n][i := e];
    } else {
      assert es[i := e][..n] == es[..n];
    }
  }

  lemma PerformBalances(e: Endpoint, call: Call, kind: Kind, h: Handle)
    ensures var r := Perform(e, call);
            Closes(r.sent, kind, h) + Holds(r.next, kind, h) <= Opens(r.sent, kind, h) + Holds(e, kind, h)
  {
    var sent := Perform(e, call).sent;
    if sent != [] { assert sent[..0] == []; }
  }

  /** A call of the object with this number. */
  datatype Step = Step(index: nat, call: Call)

  datatype World = World(endpoints: seq<Endpoint>, log: seq<Exchange>)

  predicate Addressed(steps: seq<Step>, n: nat) {
    forall i :: 0 <= i < |steps| ==> steps[i].index < n
  }

  /** Calls of several objects, in any order, recorded in one log. */
  function RunAll(es: seq<Endpoint>, steps: seq<Step>): (w: World)
    requires Addressed(steps, |es|)
    ensures |w.endpoints| == |es|
    decreases |steps|
  {
    if steps == [] then World(es, []) else
    var before, last := RunAll(es, steps[..|steps| - 1]), steps[|steps| - 1];
    var r := Perform(before.endpoints[last.index], last.call);
    World(before.endpoints[last.index := r.next], before.log + r.sent)
  }

  lemma StepBalances(w: World, step: Step, kind: Kind, h: Handle)
    requires step.index < |w.endpoints|
    ensures var r := Perform(w.endpoints[step.index], step.call);
            var log, es := w.log + r.sent, w.endpoints[step.index := r.next];
            && Closes(log, kind, h) + Holders(es, kind, h) - Opens(log, kind, h)
               <= Closes(w.log, kind, h) + Holders(w.endpoints, kind, h) - Opens(w.log, kind, h)
  {
    var e := w.endpoints[step.index];
    var r := Perform(e, step.call);
    PerformBalances(e, step.call, kind, h);
    CountSent(w.log, r.sent, kind, h);
    HoldersUpdate(w.endpoints, step.index, r.next, kind, h);
  }

  /**
    For any number of objects, any interleaving of their calls and any replies: each successful
    close answers one successful open of the same handle, and each open object has one left.
  */
  lemma {:induction false} ClosesAnswerOpens(es: seq<Endpoint>, steps: seq<Step>, kind: Kind, h: Handle)
    requires Addressed(steps, |es|) && Holders(es, kind, h) == 0
    ensures var w := RunAll(es, steps);
            Closes(w.log, kind, h) + Holders(w.endpoints, kind, h) <= Opens(w.log, kind, h)
    decreases |steps|
  {
    if steps != [] {
      var prefix := steps[..|steps| - 1];
      ClosesAnswerOpens(es, prefix, kind, h);
      StepBalances(RunAll(es, prefix), steps[|steps| - 1], kind, h);
    }
  }

  /** A server that never hands out the same handle twice sees each handle closed successfully at most once. */
  lemma ClosedAtMostOnce(es: seq<Endpoint>, steps: seq<Step>, kind: Kind, h: Handle)
    requires Addressed(steps, |es|) && Holders(es, kind, h) == 0
    requires Opens(RunAll(es, steps).log, kind, h) <= 1
    ensures Closes(RunAll(es, steps).log, kind, h) <= 1
  {
    ClosesAnswerOpens(es, steps, kind, h);
  }

  predicate NeverAskedToClose(log: seq<Exchange>, kind: Kind, h: Handle) {
    forall i :: 0 <= i < |log| ==> log[i].request != CloseRequest(kind, h)
  }

  /** A handle that no object holds is not closed, not even in vain, unless the server grants it again. */
  lemma {:induction false} NotHeldNotClosed(es: seq<Endpoint>, steps: seq<Step>, kind: Kind, h: Handle)
    requires Addressed(steps, |es|) && Holders(es, kind, h) == 0
    requires Opens(RunAll(es, steps).log, kind, h) == 0
    ensures NeverAskedToClose(RunAll(es, steps).log, kind, h) && Holders(RunAll(es, steps).endpoints, kind, h) == 0
    decreases |steps|
  {
    if steps != [] {
      var prefix, last := steps[..|steps| - 1], steps[|steps| - 1];
      var w := RunAll(es, prefix);
      var e := w.endpoints[last.index];
      assert Opens(w.log, kind, h) == 0 by { CountSent(w.log, Perform(e, last.call).sent, kind, h); }
      NotHeldNotClosed(es, prefix, kind, h);
      assert NeverAskedToClose(RunAll(es, steps).log, kind, h) by {
        HeldBy(w.endpoints, last.index, kind, h);
        SendsNoClose(e, last.call, kind, h);
        NeverAskedConcat(w.log, Perform(e, last.call).sent, kind, h);
      }
      assert Holders(RunAll(es, steps).endpoints, kind, h) == 0 by { ClosesAnswerOpens(es, steps, kind, h); }
    }
  }

  lemma NeverAskedConcat(u: seq<Exchange>, v: seq<Exchange>, kind: Kind, h: Handle)
    requires NeverAskedToClose(u, kind, h) && NeverAskedToClose(v, kind, h)
    ensures NeverAskedToClose(u + v, kind, h)
  {
  }

  lemma SendsNoClose(e: Endpoint, call: Call, kind: Kind, h: Handle)
    requires Holds(e, kind, h) == 0
    ensures NeverAskedToClose(Perform(e, call).sent, kind, h)
  {
  }

  lemma HeldBy(es: seq<Endpoint>, i: nat, kind: Kind, h: Handle)
    requires i < |es|
    ensures Holds(es[i], kind, h) <= Holders(es, kind, h)
  {
    HoldersUpdate(es, i, Fresh(kind), kind, h);
  }

  /**
    Opening an open session again, with success, overwrites its handle: whatever is called
    afterwards, the server is never asked to close the first one.
  */
  lemma ReopenLosesHandle(es: seq<Endpoint>, i: nat, session: Handle, reply: Reply<Handle>, steps: seq<Step>)
    requires i < |es| && es[i].open && Holders(es, es[i].kind, es[i].handle) == 1
    requires Passes(reply) && reply.payload != es[i].handle && Addressed(steps, |es|)
    requires var next := Perform(es[i], OpenCall(session, reply)).next;
             Opens(RunAll(es[i := next], steps).log, es[i].kind, es[i].handle) == 0
    ensures var next := Perform(es[i], OpenCall(session, reply)).next;
            NeverAskedToClose(RunAll(es[i := next], steps).log, es[i].kind, es[i].handle)
  {
    var next := Perform(es[i], OpenCall(session, reply)).next;
    HoldersUpdate(es, i, next, es[i].kind, es[i].handle);
    NotHeldNotClosed(es[i := next], steps, es[i].kind, es[i].handle);
  }

  // ----- The calls on objects

  /** The objects, sessions first, have the values of these endpoints. */
  ghost predicate ShowsAll(sessions: seq<Session>, operations: seq<Operation>, es: seq<Endpoint>)
    reads sessions, operations
  {
    && |es| == |sessions| + |operations|
    && (forall i :: 0 <= i < |sessions| ==> sessions[i].View() == es[i])
    && (forall i :: 0 <= i < |operations| ==> operations[i].View() == es[|sessions| + i])
  }

  ghost predicate Distinct<T>(s: seq<T>) {
    forall i, j :: 0 <= i < j < |s| ==> s[i] != s[j]
  }

  ghost predicate ShareWire(sessions: seq<Session>, operations: seq<Operation>, wire: Wire) {
    && Distinct(sessions) && Distinct(operations)
    && (forall i :: 0 <= i < |sessions| ==> sessions[i].wire == wire)
    && (forall i :: 0 <= i < |operations| ==> operations[i].wire == wire)
  }

  method PerformStep(wire: Wire, sessions: seq<Session>, operations: seq<Operation>, step: Step, ghost w: World)
    requires ShareWire(sessions, operations, wire) && ShowsAll(sessions, operations, w.endpoints)
    requires step.index < |w.endpoints|
    modifies wire, sessions, operations
    ensures var r := Perform(w.endpoints[step.index], step.call);
            && wire.log == old(wire.log) + r.sent
            && ShowsAll(sessions, operations, w.endpoints[step.index := r.next])
  {
    var k := step.index;
    if k < |sessions| {
      match step.call
      case OpenCall(_, reply) => var _ := sessions[k].Open(reply);
      case CloseCall(reply) => var _ := sessions[k].Close(reply);
    } else {
      match step.call
      case OpenCall(session, reply) => var _ := operations[k - |sessions|].Open(session, reply);
      case CloseCall(reply) => var _ := operations[k - |sessions|].Close(reply);
    }
  }

  /** Calls of any objects that share a wire: the log and the objects are those of the run. */
  method PerformAll(wire: Wire, sessions: seq<Session>, operations: seq<Operation>, steps: seq<Step>, ghost es: seq<Endpoint>)
    requires ShareWire(sessions, operations, wire) && ShowsAll(sessions, operations, es)
    requires Addressed(steps, |es|) && wire.log == []
    modifies wire, sessions, operations
    ensures wire.log == RunAll(es, steps).log && ShowsAll(sessions, operations, RunAll(es, steps).endpoints)
    ensures forall kind, h :: Holders(es, kind, h) == 0 ==> Closes(wire.log, kind, h) <= Opens(wire.log, kind, h)
  {
    assert steps[..0] == [];
    for i := 0 to |steps|
      invariant wire.log == RunAll(es, steps[..i]).log
      invariant ShowsAll(sessions, operations, RunAll(es, steps[..i]).endpoints)
    {
      assert steps[..i + 1][..i] == steps[..i];
      PerformStep(wire, sessions, operations, steps[i], RunAll(es, steps[..i]));
    }
    assert steps[..|steps|] == steps;
    forall kind, h | Holders(es, kind, h) == 0 ensures Closes(wire.log, kind, h) <= Opens(wire.log, kind, h) {
      ClosesAnswerOpens(es, steps, kind, h);
    }
  }

  // ----- Closing again and again

  datatype History = History(final: Endpoint, statuses: seq<Status>, log: seq<Exchange>)

  function Run(e: Endpoint, calls: seq<Call>): History {
    if calls == [] then History(e, [], []) else
    var before := Run(e, calls[..|calls| - 1]);
    var r := Perform(before.final, calls[|calls| - 1]);
    History(r.next, before.statuses + [r.status], before.log + r.sent)
  }

  predicate OnlyCloses(calls: seq<Call>) {
    forall i :: 0 <= i < |calls| ==> calls[i].CloseCall?
  }

  /** Closing again and again sends the handle that was opened until one close succeeds, and nothing after that. */
  lemma {:induction false} RetriesSendTheSameHandle(e: Endpoint, calls: seq<Call>)
    requires e.open && OnlyCloses(calls)
    ensures var r := Run(e, calls);
            && r.final.handle == e.handle && r.final.kind == e.kind
            && (forall i :: 0 <= i < |r.log| ==> r.log[i].request == CloseRequest(e.kind, e.handle))
            && (forall i :: 0 <= i < |r.log| - 1 ==> !r.log[i].passed)
            && (r.final.open <==> r.log == [] || !r.log[|r.log| - 1].passed)
            && (r.final.open ==> |r.log| == |calls|)
    decreases |calls|
  {
    if calls != [] { RetriesSendTheSameHandle(e, calls[..|calls| - 1]); }
  }
}
