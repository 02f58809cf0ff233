/**
  Services, sessions and operations as Python objects (python/hs2client/ext.pyx): each child
  holds a reference to its parent, and an object is closed when its last reference goes.
*/
module DropOrder {
  import opened Options

  type Id = nat

  datatype Kind = Service | Session | Operation

  datatype Obj = Obj(kind: Kind, parent: Option<Id>)

  /**
    `refs` are the interpreter's counts, `user` the references that user code holds, and `closed`
    the objects whose close went to the server, in that order.
  */
  datatype State = State(objs: seq<Obj>, refs: seq<nat>, user: seq<nat>, closed: seq<Id>)

  const EMPTY := State([], [], [], [])

  datatype Action =
    | Connect
    | OpenSession(service: Id)
    | Execute(session: Id)
    | CloseOperation(operation: Id)
    | Duplicate(id: Id)
    | TakeParent(id: Id)
    | Drop(id: Id)

  // ----- The machine

  predicate Shaped(s: State) {
    && |s.objs| == |s.refs| == |s.user|
    && forall i :: 0 <= i < |s.objs| ==>
         match s.objs[i].parent
         case None => s.objs[i].kind == Service
         case Some(p) => p < i && s.objs[p].kind == if s.objs[i].kind == Operation then Session else Service
  }

  predicate Owns(s: State, id: Id) {
    id < |s.user| && s.user[id] > 0
  }

  /** An object that can be created now: its parent is alive and of the right kind. */
  predicate Adoptable(s: State, o: Obj)
    requires Shaped(s)
  {
    match o.parent
    case None => o.kind == Service
    case Some(p) => p < |s.objs| && s.refs[p] > 0 && s.objs[p].kind == if o.kind == Operation then Session else Service
  }

  /** A new object that the user holds, with a reference to its parent. */
  function Create(s: State, o: Obj): (t: State)
    requires Shaped(s) && Adoptable(s, o)
    ensures Shaped(t)
  {
    var refs := if o.parent.Some? then s.refs[o.parent.value := s.refs[o.parent.value] + 1] else s.refs;
    State(s.objs + [o], refs + [1], s.user + [1], s.closed)
  }

  /** A child of an object that the user holds. */
  function CreateChild(s: State, kind: Kind, p: Id): (t: State)
    requires Shaped(s)
    ensures Shaped(t)
  {
    var o := Obj(kind, Some(p));
    if Owns(s, p) && Adoptable(s, o) then Create(s, o) else s
  }

  /** The idempotent close. */
  function Close(s: State, id: Id): State {
    if id in s.closed then s else s.(closed := s.closed + [id])
  }

  /** Gives one reference back; the last one closes the object and then gives its parent back. */
  function Release(s: State, id: Id): (t: State)
    requires Shaped(s) && id < |s.objs| && s.refs[id] > 0
    ensures Shaped(t)
    decreases id
  {
    var t := s.(refs := s.refs[id := s.refs[id] - 1]);
    if t.refs[id] > 0 then t else
    var c := Close(t, id);
    match s.objs[id].parent
    case None => c
    case Some(p) => if c.refs[p] > 0 then Release(c, p) else c
  }

  /** Actions on objects that the user does not hold, or of the wrong kind, do nothing. */
  function Step(s: State, a: Action): (t: State)
    requires Shaped(s)
    ensures Shaped(t)
  {
    match a
    case Connect => Create(s, Obj(Service, None))
    case OpenSession(v) => CreateChild(s, Session, v)
    case Execute(n) => CreateChild(s, Operation, n)
    case CloseOperation(o) => if Owns(s, o) && s.objs[o].kind == Operation then Close(s, o) else s
    case Duplicate(i) => if Owns(s, i) then Take(s, i) else s
    case TakeParent(i) => if Owns(s, i) && s.objs[i].parent.Some? then Take(s, s.objs[i].parent.value) else s
    case Drop(i) =>
      if Owns(s, i) && s.refs[i] > 0 then Release(s.(user := s.user[i := s.user[i] - 1]), i) else s
  }

  function Take(s: State, i: Id): (t: State)
    requires Shaped(s) && i < |s.objs|
    ensures Shaped(t)
  {
    s.(refs := s.refs[i := s.refs[i] + 1], user := s.user[i := s.user[i] + 1])
  }

  // ----- Reference counts

  /** The live objects below `n` whose parent is `p`. */
  function Kids(objs: seq<Obj>, refs: seq<nat>, p: Id, n: nat): nat
    requires n <= |objs| == |refs|
  {
    if n == 0 then 0 else
    Kids(objs, refs, p, n - 1) + if objs[n - 1].parent == Some(p) && refs[n - 1] > 0 then 1 else 0
  }

  lemma {:induction false} KidsChange(objs: seq<Obj>, refs: seq<nat>, p: Id, n: nat, i: Id, r: nat)
    requires n <= |objs| == |refs| && i < |objs|
    ensures Kids(objs, refs[i := r], p, n) ==
            Kids(objs, refs, p, n)
            - (if i < n && objs[i].parent == Some(p) && refs[i] > 0 then 1 else 0)
            + (if i < n && objs[i].parent == Some(p) && r > 0 then 1 else 0)
  {
    if n > 0 { KidsChange(objs, refs, p, n - 1, i, r); }
  }

  lemma {:induction false} KidsExtend(objs: seq<Obj>, refs: seq<nat>, o: Obj, r: nat, p: Id, n: nat)
    requires n <= |objs| == |refs|
    ensures Kids(objs + [o], refs + [r], p, n) == Kids(objs, refs, p, n)
  {
    if n > 0 { KidsExtend(objs, refs, o, r, p, n - 1); }
  }

  lemma {:induction false} KidAlive(objs: seq<Obj>, refs: seq<nat>, p: Id, n: nat, i: Id)
    requires i < n <= |objs| == |refs| && objs[i].parent == Some(p) && refs[i] > 0
    ensures Kids(objs, refs, p, n) > 0
  {
    if i < n - 1 { KidAlive(objs, refs, p, n - 1, i); }
  }

  /** The count is the user's references and one for each live child, plus `extra` still to be given back. */
  ghost predicate Counted(s: State, i: Id, extra: nat)
    requires Shaped(s) && i < |s.objs|
  {
    s.refs[i] == s.user[i] + Kids(s.objs, s.refs, i, |s.objs|) + extra
  }

  /** An object without references is closed, and only operations are closed while they have some. */
  ghost predicate ClosedWhenDead(s: State, i: Id)
    requires Shaped(s) && i < |s.objs|
  {
    && (s.refs[i] == 0 ==> i in s.closed)
    && (i in s.closed && s.objs[i].kind != Operation ==> s.refs[i] == 0)
  }

  /** Nothing is closed twice, and nothing after its parent. */
  ghost predicate ChildrenFirst(s: State)
    requires Shaped(s)
  {
    && (forall e :: 0 <= e < |s.closed| ==> s.closed[e] < |s.objs|)
    && (forall e, f :: 0 <= e < f < |s.closed| ==> s.closed[e] != s.closed[f])
    && (forall e, f :: 0 <= e < f < |s.closed| ==> s.objs[s.closed[f]].parent != Some(s.closed[e]))
  }

  ghost predicate Inv(s: State, pending: Option<Id>) {
    && Shaped(s) && ChildrenFirst(s)
    && (pending.Some? ==> pending.value < |s.objs|)
    && forall i :: 0 <= i < |s.objs| ==>
         ClosedWhenDead(s, i) && Counted(s, i, if pending == Some(i) then 1 else 0)
  }

  /** A close that comes while the parent is open keeps the order. */
  lemma CloseKeepsOrder(s: State, id: Id)
    requires Shaped(s) && ChildrenFirst(s) && id < |s.objs|
    requires s.objs[id].parent.Some? ==> s.objs[id].parent.value !in s.closed
    ensures ChildrenFirst(Close(s, id))
  {
  }

  /** The parent of a live object is live and has not been closed. */
  lemma ParentIsOpen(s: State, pending: Option<Id>, id: Id)
    requires Inv(s, pending) && id < |s.objs| && s.refs[id] > 0 && s.objs[id].parent.Some?
    ensures s.refs[s.objs[id].parent.value] > 0 && s.objs[id].parent.value !in s.closed
  {
    var p := s.objs[id].parent.value;
    KidAlive(s.objs, s.refs, p, |s.objs|, id);
    assert Counted(s, p, if pending == Some(p) then 1 else 0) && ClosedWhenDead(s, p);
  }

  /** One reference given back, as far as the counts go. */
  lemma ReleaseCounts(s: State, id: Id, t: State, i: Id)
    requires Shaped(s) && Shaped(t) && id < |s.objs| && i < |s.objs| && s.refs[id] > 0
    requires Counted(s, i, if id == i then 1 else 0)
    requires t.objs == s.objs && t.user == s.user && t.refs == s.refs[id := s.refs[id] - 1]
    ensures Counted(t, i, if t.refs[id] == 0 && s.objs[id].parent == Some(i) then 1 else 0)
  {
    KidsChange(s.objs, s.refs, i, |s.objs|, id, s.refs[id] - 1);
  }

  lemma ReleaseShared(s: State, id: Id, t: State)
    requires Inv(s, Some(id)) && s.refs[id] > 1 && t == s.(refs := s.refs[id := s.refs[id] - 1])
    ensures Inv(t, None)
  {
    forall i | 0 <= i < |s.objs| ensures Counted(t, i, 0) && ClosedWhenDead(t, i) {
      assert Counted(s, i, if id == i then 1 else 0) && ClosedWhenDead(s, i);
      ReleaseCounts(s, id, t, i);
    }
  }

  lemma ReleaseLast(s: State, id: Id, t: State)
    requires Inv(s, Some(id)) && s.refs[id] == 1 && t == Close(s.(refs := s.refs[id := 0]), id)
    ensures Inv(t, s.objs[id].parent)
  {
    var u := s.(refs := s.refs[id := 0]);
    if s.objs[id].parent.Some? { ParentIsOpen(s, Some(id), id); }
    CloseKeepsOrder(u, id);
    forall i | 0 <= i < |s.objs|
      ensures Counted(t, i, if s.objs[id].parent == Some(i) then 1 else 0) && ClosedWhenDead(t, i)
    {
      assert Counted(s, i, if id == i then 1 else 0) && ClosedWhenDead(s, i);
      ReleaseCounts(s, id, t, i);
    }
  }

  lemma {:induction false} ReleaseKeepsInv(s: State, id: Id)
    requires Inv(s, Some(id))
    ensures s.refs[id] > 0 && Inv(Release(s, id), None)
    ensures Release(s, id).user == s.user && Release(s, id).objs == s.objs
    decreases id
  {
    assert Counted(s, id, 1);
    var t := s.(refs := s.refs[id := s.refs[id] - 1]);
    if s.refs[id] > 1 {
      ReleaseShared(s, id, t);
    } else {
      ReleaseLast(s, id, Close(t, id));
      if s.objs[id].parent.Some? {
        ReleaseKeepsInv(Close(t, id), s.objs[id].parent.value);
      }
    }
  }

  /** A new object is the only new child, and has none itself. */
  lemma KidsOfCreate(s: State, o: Obj, t: State, i: Id)
    requires Shaped(s) && Adoptable(s, o) && t == Create(s, o) && i <= |s.objs|
    ensures Kids(t.objs, t.refs, i, |t.objs|) ==
            if i < |s.objs| then Kids(s.objs, s.refs, i, |s.objs|) + (if o.parent == Some(i) then 1 else 0) else 0
  {
    var n := |s.objs|;
    var refs := if o.parent.Some? then s.refs[o.parent.value := s.refs[o.parent.value] + 1] else s.refs;
    KidsExtend(s.objs, refs, o, 1, i, n);
    if o.parent.Some? { KidsChange(s.objs, s.refs, i, n, o.parent.value, s.refs[o.parent.value] + 1); }
    if i == n { NoKidsAbove(s, i, n); }
  }

  lemma CreateKeepsInv(s: State, o: Obj)
    requires Inv(s, None) && Adoptable(s, o)
    ensures Inv(Create(s, o), None)
  {
    var t, n := Create(s, o), |s.objs|;
    assert Shaped(t) && ChildrenFirst(t);
    forall i | 0 <= i <= n ensures Counted(t, i, 0) && ClosedWhenDead(t, i) {
      KidsOfCreate(s, o, t, i);
      assert i < n ==> Counted(s, i, 0) && ClosedWhenDead(s, i);
    }
  }

  lemma {:induction false} NoKidsAbove(s: State, p: Id, n: nat)
    requires Shaped(s) && n <= |s.objs| && n <= p + 1
    ensures Kids(s.objs, s.refs, p, n) == 0
  {
    if n > 0 { NoKidsAbove(s, p, n - 1); }
  }

  lemma TakeKeepsInv(s: State, i: Id)
    requires Inv(s, None) && i < |s.objs| && s.refs[i] > 0
    ensures Inv(Take(s, i), None)
  {
    var t := Take(s, i);
    forall k | 0 <= k < |s.objs| ensures Counted(t, k, 0) && ClosedWhenDead(t, k) {
      assert Counted(s, k, 0) && ClosedWhenDead(s, k);
      KidsChange(s.objs, s.refs, k, |s.objs|, i, s.refs[i] + 1);
    }
  }

  lemma CloseOperationKeepsInv(s: State, id: Id)
    requires Inv(s, None) && Owns(s, id) && s.objs[id].kind == Operation
    ensures Inv(Close(s, id), None)
  {
    assert Counted(s, id, 0);
    ParentIsOpen(s, None, id);
    CloseKeepsOrder(s, id);
    var t := Close(s, id);
    forall i | 0 <= i < |s.objs| ensures Counted(t, i, 0) && ClosedWhenDead(t, i) {
      assert Counted(s, i, 0) && ClosedWhenDead(s, i);
    }
  }

  lemma DropKeepsInv(s: State, i: Id)
    requires Inv(s, None) && Owns(s, i)
    ensures s.refs[i] > 0 && Inv(Step(s, Drop(i)), None)
  {
    var t := s.(user := s.user[i := s.user[i] - 1]);
    forall k | 0 <= k < |s.objs| ensures Counted(t, k, if k == i then 1 else 0) && ClosedWhenDead(t, k) {
      assert Counted(s, k, 0) && ClosedWhenDead(s, k);
    }
    assert ChildrenFirst(t);
    ReleaseKeepsInv(t, i);
  }

  lemma StepKeepsInv(s: State, a: Action)
    requires Inv(s, None)
    ensures Inv(Step(s, a), None)
  {
    forall i: Id | Owns(s, i) ensures s.refs[i] > 0 { assert Counted(s, i, 0); }
    match a
    case Connect => CreateKeepsInv(s, Obj(Service, None));
    case OpenSession(v) => if Adoptable(s, Obj(Session, Some(v))) { CreateKeepsInv(s, Obj(Session, Some(v))); }
    case Execute(n) => if Adoptable(s, Obj(Operation, Some(n))) { CreateKeepsInv(s, Obj(Operation, Some(n))); }
    case CloseOperation(o) => if Owns(s, o) && s.objs[o].kind == Operation { CloseOperationKeepsInv(s, o); }
    case Duplicate(i) => if Owns(s, i) { TakeKeepsInv(s, i); }
    case TakeParent(i) =>
      if Owns(s, i) && s.objs[i].parent.Some? {
        ParentIsOpen(s, None, i);
        TakeKeepsInv(s, s.objs[i].parent.value);
      }
    case Drop(i) => if Owns(s, i) { DropKeepsInv(s, i); }
  }

  // ----- Whole runs

  function Run(actions: seq<Action>): (s: State)
    ensures Shaped(s)
  {
    if actions == [] then EMPTY else Step(Run(actions[..|actions| - 1]), actions[|actions| - 1])
  }

  lemma {:induction false} RunKeepsInv(actions: seq<Action>)
    ensures Inv(Run(actions), None)
  {
    if actions != [] {
      RunKeepsInv(actions[..|actions| - 1]);
      StepKeepsInv(Run(actions[..|actions| - 1]), actions[|actions| - 1]);
    }
  }

  /** Over every run, the parent of whatever is closed is still open at that moment, and nothing is closed twice. */
  lemma ClosedBeforeParent(actions: seq<Action>)
    ensures ChildrenFirst(Run(actions))
  {
    RunKeepsInv(actions);
  }

  /** An owned object is alive and, unless it is an operation that the user closed, still open. */
  lemma OwnedIsOpen(actions: seq<Action>, i: Id)
    requires Owns(Run(actions), i)
    ensures var s := Run(actions); s.refs[i] > 0 && (s.objs[i].kind != Operation ==> i !in s.closed)
  {
    RunKeepsInv(actions);
    assert Counted(Run(actions), i, 0) && ClosedWhenDead(Run(actions), i);
  }

  /** Once the user holds nothing, everything has been closed. */
  lemma {:induction false} NothingLeftOpen(actions: seq<Action>, i: Id)
    requires i < |Run(actions).objs| && forall k :: 0 <= k < |Run(actions).user| ==> Run(actions).user[k] == 0
    ensures Run(actions).refs[i] == 0 && i in Run(actions).closed
    decreases |Run(actions).objs| - i
  {
    var s := Run(actions);
    RunKeepsInv(actions);
    forall k | i < k < |s.objs| ensures s.refs[k] == 0 { NothingLeftOpen(actions, k); }
    NoKidsIfDead(s, i, |s.objs|);
    assert Counted(s, i, 0) && ClosedWhenDead(s, i);
  }

  lemma {:induction false} NoKidsIfDead(s: State, p: Id, n: nat)
    requires Shaped(s) && n <= |s.objs| && forall k :: p < k < n ==> s.refs[k] == 0
    ensures Kids(s.objs, s.refs, p, n) == 0
  {
    if n > 0 { NoKidsIfDead(s, p, n - 1); }
  }

  // ----- What an action closes

  /** The object and the ancestors whose only reference is the one to be given back, children first. */
  function Chain(s: State, i: Id): (c: seq<Id>)
    requires Shaped(s) && i < |s.objs|
    decreases i
  {
    if s.refs[i] != 1 then [] else
    [i] + match s.objs[i].parent case None => [] case Some(p) => Chain(s, p)
  }

  /** The part of the chain that is still open; only the first of it can have been closed explicitly. */
  function StillOpen(s: State, i: Id): seq<Id>
    requires Shaped(s) && i < |s.objs|
  {
    var c := Chain(s, i);
    if c != [] && i in s.closed then c[1..] else c
  }

  /** Just the chain has lost its last reference. */
  ghost predicate Dies(s: State, t: State, c: seq<Id>) {
    && |t.refs| == |s.refs|
    && forall k :: 0 <= k < |s.refs| ==> (t.refs[k] == 0 <==> s.refs[k] == 0 || k in c)
  }

  lemma {:induction false} ChainBelow(s: State, i: Id)
    requires Shaped(s) && i < |s.objs|
    ensures forall e :: 0 <= e < |Chain(s, i)| ==> Chain(s, i)[e] <= i
    decreases i
  {
    if s.refs[i] == 1 && s.objs[i].parent.Some? { ChainBelow(s, s.objs[i].parent.value); }
  }

  /** A chain looks only at the counts of the object and its ancestors. */
  lemma {:induction false} ChainSame(s: State, t: State, i: Id)
    requires Shaped(s) && Shaped(t) && i < |s.objs| && t.objs == s.objs
    requires forall k :: 0 <= k <= i ==> t.refs[k] == s.refs[k]
    ensures Chain(t, i) == Chain(s, i)
    decreases i
  {
    if s.objs[i].parent.Some? { ChainSame(s, t, s.objs[i].parent.value); }
  }

  lemma {:induction false} ReleaseCloses(s: State, id: Id)
    requires Inv(s, Some(id)) && s.refs[id] > 0
    ensures Release(s, id).closed == s.closed + StillOpen(s, id) && Dies(s, Release(s, id), Chain(s, id))
    decreases id
  {
    var t := s.(refs := s.refs[id := s.refs[id] - 1]);
    if s.refs[id] > 1 {
      assert s.closed + [] == s.closed;
    } else {
      ReleaseLastCloses(s, id, Close(t, id));
    }
  }

  lemma {:induction false} ReleaseLastCloses(s: State, id: Id, c: State)
    requires Inv(s, Some(id)) && s.refs[id] == 1 && c == Close(s.(refs := s.refs[id := 0]), id)
    ensures Release(s, id).closed == s.closed + StillOpen(s, id) && Dies(s, Release(s, id), Chain(s, id))
    decreases id, 0
  {
    ReleaseLast(s, id, c);
    if s.objs[id].parent.None? {
      assert Chain(s, id) == [id] + [];
      JoinChains(s, id, c, Release(s, id), []);
    } else {
      var p := s.objs[id].parent.value;
      assert c.refs[p] > 0 && p !in c.closed by {
        assert Counted(c, p, 1);
        ParentIsOpen(s, Some(id), id);
      }
      assert Chain(c, p) == Chain(s, p) by { ChainSame(s, c, p); }
      ReleaseCloses(c, p);
      JoinChains(s, id, c, Release(c, p), Chain(s, p));
    }
  }

  lemma JoinChains(s: State, id: Id, c: State, r: State, u: seq<Id>)
    requires Shaped(s) && id < |s.objs| && s.refs[id] == 1 && c == Close(s.(refs := s.refs[id := 0]), id)
    requires r.closed == c.closed + u && Dies(c, r, u) && Chain(s, id) == [id] + u
    ensures r.closed == s.closed + StillOpen(s, id) && Dies(s, r, Chain(s, id))
  {
    JoinClosed(s.closed, c.closed, r.closed, id, u, StillOpen(s, id));
    JoinDies(s, id, c, r, u, Chain(s, id));
  }

  lemma JoinClosed(before: seq<Id>, closed: seq<Id>, after: seq<Id>, id: Id, u: seq<Id>, added: seq<Id>)
    requires closed == (if id in before then before else before + [id]) && after == closed + u
    requires added == if id in before then ([id] + u)[1..] else [id] + u
    ensures after == before + added
  {
    assert ([id] + u)[1..] == u;
    assert before + [id] + u == before + ([id] + u);
  }

  lemma JoinDies(s: State, id: Id, c: State, r: State, u: seq<Id>, chain: seq<Id>)
    requires id < |s.refs| && c.refs == s.refs[id := 0] && Dies(c, r, u) && chain == [id] + u
    ensures Dies(s, r, chain)
  {
    forall k | 0 <= k < |s.refs| ensures r.refs[k] == 0 <==> s.refs[k] == 0 || k in chain {
      assert k in chain <==> k == id || k in u;
    }
  }

  /**
    Dropping a reference takes just that one from the user, and closes just the chain of
    ancestors whose last reference goes with it, children first.
  */
  lemma DropCloses(s: State, i: Id)
    requires Inv(s, None) && Owns(s, i)
    ensures var t := Step(s, Drop(i));
            && t.objs == s.objs && t.user == s.user[i := s.user[i] - 1]
            && t.closed == s.closed + StillOpen(s, i) && Dies(s, t, Chain(s, i))
  {
    var t := s.(user := s.user[i := s.user[i] - 1]);
    forall k | 0 <= k < |s.objs| ensures Counted(t, k, if k == i then 1 else 0) && ClosedWhenDead(t, k) {
      assert Counted(s, k, 0) && ClosedWhenDead(s, k);
    }
    assert Inv(t, Some(i)) by { assert ChildrenFirst(t); }
    assert Counted(t, i, 1);
    ReleaseKeepsInv(t, i);
    ReleaseCloses(t, i);
    ChainSame(s, t, i);
  }

  /** No other action closes anything, except an explicit close, which closes just its operation. */
  lemma OthersCloseNothing(s: State, a: Action)
    requires Shaped(s) && !a.Drop?
    ensures var closed := Step(s, a).closed;
            if a.CloseOperation? && Owns(s, a.operation) && s.objs[a.operation].kind == Operation
            then a.operation in closed && (closed == s.closed || closed == s.closed + [a.operation])
            else closed == s.closed
  {
  }

  // ----- What the user holds

  /** The objects and the references that user code holds, without any counting by the interpreter. */
  datatype Ledger = Ledger(objs: seq<Obj>, user: seq<nat>)

  predicate Keeps(l: Ledger, i: Id) {
    i < |l.user| && l.user[i] > 0
  }

  function Book(l: Ledger, a: Action): Ledger
    requires |l.objs| == |l.user|
  {
    match a
    case Connect => Ledger(l.objs + [Obj(Service, None)], l.user + [1])
    case OpenSession(v) =>
      if Keeps(l, v) && l.objs[v].kind == Service then Ledger(l.objs + [Obj(Session, Some(v))], l.user + [1]) else l
    case Execute(n) =>
      if Keeps(l, n) && l.objs[n].kind == Session then Ledger(l.objs + [Obj(Operation, Some(n))], l.user + [1]) else l
    case CloseOperation(_) => l
    case Duplicate(i) => if Keeps(l, i) then l.(user := l.user[i := l.user[i] + 1]) else l
    case TakeParent(i) =>
      if Keeps(l, i) && l.objs[i].parent.Some? && l.objs[i].parent.value < |l.user|
      then l.(user := l.user[l.objs[i].parent.value := l.user[l.objs[i].parent.value] + 1]) else l
    case Drop(i) => if Keeps(l, i) then l.(user := l.user[i := l.user[i] - 1]) else l
  }

  function Books(actions: seq<Action>): (l: Ledger)
    ensures |l.objs| == |l.user|
  {
    if actions == [] then Ledger([], []) else Book(Books(actions[..|actions| - 1]), actions[|actions| - 1])
  }

  lemma StepIsBooked(s: State, a: Action)
    requires Inv(s, None)
    ensures Ledger(Step(s, a).objs, Step(s, a).user) == Book(Ledger(s.objs, s.user), a)
  {
    forall i: Id | Owns(s, i) ensures s.refs[i] > 0 { assert Counted(s, i, 0); }
    match a
    case Drop(i) => if Owns(s, i) { DropCloses(s, i); }
    case _ =>
  }

  /** The references that the user holds after a run: those taken and not dropped. */
  lemma {:induction false} RunIsBooked(actions: seq<Action>)
    ensures Ledger(Run(actions).objs, Run(actions).user) == Books(actions)
  {
    if actions != [] {
      var before := actions[..|actions| - 1];
      RunIsBooked(before);
      RunKeepsInv(before);
      StepIsBooked(Run(before), actions[|actions| - 1]);
    }
  }

  // ----- What is alive

  /** The object is `k` or has it among its ancestors. */
  predicate Below(s: State, d: Id, k: Id)
    requires Shaped(s) && d < |s.objs|
    decreases d
  {
    d == k || match s.objs[d].parent case None => false case Some(p) => Below(s, p, k)
  }

  lemma {:induction false} BelowChild(s: State, d: Id, j: Id, k: Id)
    requires Shaped(s) && d < |s.objs| && j < |s.objs| && Below(s, d, j) && s.objs[j].parent == Some(k)
    ensures Below(s, d, k)
    decreases d
  {
    if d != j { BelowChild(s, s.objs[d].parent.value, j, k); } else { assert Below(s, k, k); }
  }

  lemma {:induction false} AncestorsAlive(s: State, d: Id, k: Id)
    requires Inv(s, None) && d < |s.objs| && s.refs[d] > 0 && Below(s, d, k)
    ensures k < |s.objs| && s.refs[k] > 0
    decreases d
  {
    if d != k {
      ParentIsOpen(s, None, d);
      AncestorsAlive(s, s.objs[d].parent.value, k);
    }
  }

  lemma {:induction false} LiveKid(objs: seq<Obj>, refs: seq<nat>, p: Id, n: nat) returns (j: Id)
    requires n <= |objs| == |refs| && Kids(objs, refs, p, n) > 0
    ensures j < n && objs[j].parent == Some(p) && refs[j] > 0
  {
    if objs[n - 1].parent == Some(p) && refs[n - 1] > 0 { j := n - 1; } else { j := LiveKid(objs, refs, p, n - 1); }
  }

  lemma {:induction false} HolderOf(s: State, k: Id) returns (d: Id)
    requires Inv(s, None) && k < |s.objs| && s.refs[k] > 0
    ensures d < |s.objs| && Below(s, d, k) && s.user[d] > 0
    decreases |s.objs| - k
  {
    assert Counted(s, k, 0);
    if s.user[k] > 0 {
      d := k;
    } else {
      var j := LiveKid(s.objs, s.refs, k, |s.objs|);
      d := HolderOf(s, j);
      BelowChild(s, d, j, k);
    }
  }

  /**
    After any run, an object is alive exactly if the user holds it or something below it, and a
    service or session has been closed exactly if that is not so.
  */
  lemma AliveIffHeld(actions: seq<Action>, k: Id)
    requires k < |Run(actions).objs|
    ensures var s := Run(actions);
            && (s.refs[k] > 0 <==> exists d :: 0 <= d < |s.objs| && Below(s, d, k) && s.user[d] > 0)
            && (s.refs[k] == 0 ==> k in s.closed)
            && (k in s.closed && s.objs[k].kind != Operation ==> s.refs[k] == 0)
  {
    var s := Run(actions);
    RunKeepsInv(actions);
    assert ClosedWhenDead(s, k);
    if s.refs[k] > 0 { var d := HolderOf(s, k); }
    forall d | 0 <= d < |s.objs| && Below(s, d, k) && s.user[d] > 0 ensures s.refs[k] > 0 {
      assert Counted(s, d, 0);
      AncestorsAlive(s, d, k);
    }
  }

  /** For example: the last reference to a service that was just connected closes it. */
  lemma ConnectAndDrop()
    ensures Run([Connect, Drop(0)]).closed == [0] && Run([Connect, Drop(0)]).user == [0]
  {
    var a := [Connect, Drop(0)];
    assert a[..1] == [Connect] && [Connect][..0] == [];
    assert Run([Connect]) == Create(EMPTY, Obj(Service, None));
  }
}
