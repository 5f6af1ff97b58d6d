/**
 The routing core of `CraterBidiSession`: command-id allocation, the table of
 pending commands, the listener registry and the receive loop's dispatch of
 each inbound message.

 The WebSocket is replaced by its effect: commands written to it accumulate in
 `sent`, and the inbound stream is a finite sequence of decoded messages. Each
 handler invocation is appended to `trace`; whether a handler fails is decided
 by an oracle the loop consults only to report the failure.
 */
module Session {
  import opened Wrappers
  import opened Json
  import opened Messages
  import opened Registry

  /** One awaited handler call `handler(eventName, params)`; `raised` is whether it failed. */
  datatype Call = Call(handler: HandlerId, eventName: string, params: Json, raised: bool)

  /** Whether a handler fails on a given call: outside the model, and ignored by the loop. */
  type FailureOracle = (HandlerId, string, Json) -> bool

  /**
   The session. `futures` holds every future ever handed out, keyed by command
   id; `pending` is the key set of `_pending_commands`. `halted` is set once the
   receive task has died of an exception it does not catch.
   */
  datatype Session = Session(
    counter: nat,
    pending: set<int>,
    futures: map<int, Slot>,
    listeners: Listeners,
    sent: seq<Command>,
    trace: seq<Call>,
    halted: bool)

  /** A freshly constructed session: counter 0, nothing pending, nobody listening. */
  function Init(): Session
  {
    Session(0, {}, map[], map[], [], [], false)
  }

  /**
   The bookkeeping invariant: the k-th command sent carries id k, a future
   exists for exactly the ids issued so far, and an id is pending exactly when
   its future is unresolved.
   */
  ghost predicate Valid(s: Session)
  {
    && s.counter == |s.sent|
    && (forall i :: 0 <= i < |s.sent| ==> s.sent[i].id == i + 1)
    && (forall id :: id in s.futures <==> 1 <= id <= s.counter)
    && (forall id :: id in s.pending <==> id in s.futures && s.futures[id].Unresolved?)
  }

  /**
   `send_command`: bump the counter, use the new value as the id, make the
   future pending under that id, then write `{id, method, params}`.
   */
  function SendCommand(s: Session, name: string, params: Json): (r: (Session, int))
    ensures r.1 == s.counter + 1 && r.0.counter == r.1
    ensures r.0.sent == s.sent + [Command(r.1, name, params)]
    ensures r.0.pending == s.pending + {r.1}
    ensures r.0.futures == s.futures[r.1 := Unresolved]
    ensures r.0.listeners == s.listeners && r.0.trace == s.trace && r.0.halted == s.halted
    ensures Valid(s) ==> Valid(r.0) && r.1 !in s.futures && forall i :: 0 <= i < |s.sent| ==> s.sent[i].id < r.1
  {
    var id := s.counter + 1;
    (s.(counter := id,
        pending := s.pending + {id},
        futures := s.futures[id := Unresolved],
        sent := s.sent + [Command(id, name, params)]),
     id)
  }

  /** How Python's `id in self._pending_commands` treats a JSON id. */
  datatype Lookup = Unhashable | Key(k: Option<int>)

  /**
   Integers are looked up as themselves and booleans as 0 and 1 (`True == 1`
   in Python); lists and objects cannot be hashed; anything else matches no key.
   */
  function PendingKey(v: Json): Lookup
  {
    match v
    case JNum(n) => Key(Some(n))
    case JBool(b) => Key(Some(if b then 1 else 0))
    case JArr(_) => Unhashable
    case JObj(_) => Unhashable
    case _ => Key(None)
  }

  /** The message is a response (it has an `id` key) whose id is pending under `k`. */
  predicate Answers(s: Session, m: Inbound, k: int)
  {
    m.id.Some? && PendingKey(m.id.value) == Key(Some(k)) && k in s.pending
  }

  /** The message is an event whose method names registered handlers. */
  predicate Delivers(s: Session, m: Inbound, name: string)
  {
    m.id.None? && m.methodName == Some(JStr(name)) && name != "" && name in s.listeners
  }

  /**
   The message makes the receive loop raise `TypeError`: a list or object `id`
   in the membership test, or a non-empty list or object `method`.
   */
  predicate Crashes(m: Inbound)
  {
    if m.id.Some? then PendingKey(m.id.value).Unhashable?
    else m.methodName.Some? && Truthy(m.methodName.value) && (m.methodName.value.JArr? || m.methodName.value.JObj?)
  }

  /** The value a response resolves its future with. */
  function OutcomeOf(m: Inbound): (o: Outcome)
    ensures o.Error? <==> HasKind(m, "error")
    ensures o.Success? ==> o.result == m.result.GetOr(Empty)
    ensures o.Error? ==> o.code == m.error.GetOr(JStr("unknown error"))
    ensures o.Error? ==> o.message == m.message.GetOr(JStr("Unknown error"))
    ensures o.Error? ==> o.stacktrace == m.stacktrace.GetOr(JStr(""))
  {
    if HasKind(m, "error") then
      Error(m.error.GetOr(JStr("unknown error")),
            m.message.GetOr(JStr("Unknown error")),
            m.stacktrace.GetOr(JStr("")))
    else Success(m.result.GetOr(Empty))
  }

  /** Awaits every handler in order with the same arguments; a failure does not stop the rest. */
  function Calls(hs: seq<HandlerId>, name: string, params: Json, raises: FailureOracle): (r: seq<Call>)
    ensures |r| == |hs|
    ensures forall i :: 0 <= i < |hs| ==> r[i] == Call(hs[i], name, params, raises(hs[i], name, params))
  {
    if hs == [] then []
    else [Call(hs[0], name, params, raises(hs[0], name, params))] + Calls(hs[1..], name, params, raises)
  }

  /** One iteration of `_receive_messages` on a decoded message. */
  function Dispatch(s: Session, m: Inbound, raises: FailureOracle): (r: Session)
    // routing never sends a command nor changes the registry (handlers do not act on the session)
    ensures r.counter == s.counter && r.sent == s.sent && r.listeners == s.listeners
    ensures s.halted ==> r == s
    ensures r.halted <==> s.halted || Crashes(m)
    // a crashing message raises before it pops a future or calls a handler
    ensures !s.halted && Crashes(m) ==> r == s.(halted := true)
    // a response for a pending id resolves exactly that future and removes it
    ensures forall k :: !s.halted && Answers(s, m, k) ==>
              && r.pending == s.pending - {k}
              && r.futures == s.futures[k := Resolved(OutcomeOf(m))]
              && r.trace == s.trace
    // an event reaches every handler registered under its exact method, in order
    ensures forall name :: !s.halted && Delivers(s, m, name) ==>
              && r.trace == s.trace + Calls(s.listeners[name], name, m.params.GetOr(Empty), raises)
              && r.pending == s.pending && r.futures == s.futures
    // anything else is dropped without effect
    ensures (forall k :: !Answers(s, m, k)) && (forall name :: !Delivers(s, m, name)) && !Crashes(m) ==> r == s
    ensures Valid(s) ==> Valid(r)
  {
    if s.halted then s
    else if m.id.Some? then
      match PendingKey(m.id.value)
      case Unhashable => s.(halted := true)
      case Key(k) =>
        if k.Some? && k.value in s.pending then
          assert Answers(s, m, k.value);
          s.(pending := s.pending - {k.value}, futures := s.futures[k.value := Resolved(OutcomeOf(m))])
        else s
    else if m.methodName.Some? && Truthy(m.methodName.value) then
      match m.methodName.value
      case JArr(_) => s.(halted := true)
      case JObj(_) => s.(halted := true)
      case JStr(name) =>
        if name in s.listeners then
          s.(trace := s.trace + Calls(s.listeners[name], name, m.params.GetOr(Empty), raises))
        else s
      case _ => s
    else s
  }

  /** The receive loop over a finite inbound stream; the end of the stream is the connection closing. */
  function DispatchAll(s: Session, msgs: seq<Inbound>, raises: FailureOracle): (r: Session)
    ensures r.counter == s.counter && r.sent == s.sent && r.listeners == s.listeners
    ensures r.pending <= s.pending
    ensures |s.trace| <= |r.trace| && r.trace[..|s.trace|] == s.trace
    ensures s.halted ==> r.halted
    ensures Valid(s) ==> Valid(r)
    decreases |msgs|
  {
    if msgs == [] then s
    else DispatchAll(Dispatch(s, msgs[0], raises), msgs[1..], raises)
  }

  /** Everything a client of the session can do, in some interleaving. */
  datatype Op =
    | Send(methodName: string, params: Json)
    | Receive(m: Inbound)
    | Listen(eventName: string, handler: HandlerId)
    | Unlisten(remover: Remover)

  function Step(s: Session, op: Op, raises: FailureOracle): (r: Session)
    ensures Valid(s) ==> Valid(r)
  {
    match op
    case Send(name, params) => SendCommand(s, name, params).0
    case Receive(m) => Dispatch(s, m, raises)
    case Listen(name, h) => s.(listeners := AddListener(s.listeners, name, h).0)
    case Unlisten(rm) => s.(listeners := Remove(s.listeners, rm))
  }

  function Run(s: Session, ops: seq<Op>, raises: FailureOracle): Session
    decreases |ops|
  {
    if ops == [] then s else Run(Step(s, ops[0], raises), ops[1..], raises)
  }

  /** The number of commands issued by a sequence of operations. */
  function CountSends(ops: seq<Op>): nat
  {
    if ops == [] then 0 else (if ops[0].Send? then 1 else 0) + CountSends(ops[1..])
  }

  /** Every reachable state satisfies the bookkeeping invariant. */
  lemma {:induction false} RunPreservesValid(s: Session, ops: seq<Op>, raises: FailureOracle)
    requires Valid(s)
    ensures Valid(Run(s, ops, raises))
    decreases |ops|
  {
    if ops != [] {
      RunPreservesValid(Step(s, ops[0], raises), ops[1..], raises);
    }
  }

  /** The counter grows by exactly one per command sent, and by nothing else. */
  lemma {:induction false} RunCounter(s: Session, ops: seq<Op>, raises: FailureOracle)
    ensures Run(s, ops, raises).counter == s.counter + CountSends(ops)
    ensures |Run(s, ops, raises).sent| == |s.sent| + CountSends(ops)
    ensures Run(s, ops, raises).sent[..|s.sent|] == s.sent
    decreases |ops|
  {
    if ops != [] {
      var s1 := Step(s, ops[0], raises);
      RunCounter(s1, ops[1..], raises);
      assert s1.sent[..|s.sent|] == s.sent;
    }
  }

  /**
   From a fresh session, the commands sent carry ids 1, 2, ..., one per send,
   so they are strictly increasing and never reused.
   */
  lemma IssuedIdsStrictlyIncrease(ops: seq<Op>, raises: FailureOracle)
    ensures var r := Run(Init(), ops, raises);
            && |r.sent| == CountSends(ops)
            && (forall i :: 0 <= i < |r.sent| ==> r.sent[i].id == i + 1)
            && (forall i, j :: 0 <= i < j < |r.sent| ==> r.sent[i].id < r.sent[j].id)
  {
    RunPreservesValid(Init(), ops, raises);
    RunCounter(Init(), ops, raises);
  }

  /** At most one resolution per id: a resolved future keeps its outcome through any later operations. */
  lemma {:induction false} ResolvedIsFinal(s: Session, ops: seq<Op>, raises: FailureOracle, id: int)
    requires Valid(s)
    requires id in s.futures && s.futures[id].Resolved?
    ensures id in Run(s, ops, raises).futures
    ensures Run(s, ops, raises).futures[id] == s.futures[id]
    decreases |ops|
  {
    if ops != [] {
      var s1 := Step(s, ops[0], raises);
      assert id !in s.pending;
      assert id in s1.futures && s1.futures[id] == s.futures[id];
      ResolvedIsFinal(s1, ops[1..], raises, id);
    }
  }

  /** A second copy of a response changes nothing: the first one already popped its id. */
  lemma DuplicateResponseIgnored(s: Session, m: Inbound, raises: FailureOracle)
    requires m.id.Some?
    ensures Dispatch(Dispatch(s, m, raises), m, raises) == Dispatch(s, m, raises)
  {
  }

  /**
   The command sent last can be answered at once: its future is already in the
   table when the response is routed, and the response resolves it.
   */
  lemma SendThenRespond(s: Session, name: string, params: Json, m: Inbound, raises: FailureOracle)
    requires Valid(s) && !s.halted
    requires m.id == Some(JNum(s.counter + 1))
    ensures var (s1, id) := SendCommand(s, name, params);
            var s2 := Dispatch(s1, m, raises);
            && id !in s2.pending
            && s2.futures[id] == Resolved(OutcomeOf(m))
            && s2.pending == s.pending
  {
    var (s1, id) := SendCommand(s, name, params);
    assert Answers(s1, m, id);
    assert id !in s.pending;
  }

  /**
   Out-of-order tolerance: responses to two different pending commands may
   arrive in either order; each future gets its own outcome and the end state
   is the same.
   */
  lemma ResponsesCommute(s: Session, ka: int, kb: int, ma: Inbound, mb: Inbound, raises: FailureOracle)
    requires !s.halted && ka != kb
    requires Answers(s, ma, ka) && Answers(s, mb, kb)
    ensures DispatchAll(s, [ma, mb], raises) == DispatchAll(s, [mb, ma], raises)
    ensures var r := DispatchAll(s, [ma, mb], raises);
            && ka in r.futures && r.futures[ka] == Resolved(OutcomeOf(ma))
            && kb in r.futures && r.futures[kb] == Resolved(OutcomeOf(mb))
            && r.pending == s.pending - {ka, kb}
  {
    var sa := Dispatch(s, ma, raises);
    var sb := Dispatch(s, mb, raises);
    assert Answers(sa, mb, kb);
    assert Answers(sb, ma, ka);
    DispatchPair(s, ma, mb, raises);
    DispatchPair(s, mb, ma, raises);
    var oa := Resolved(OutcomeOf(ma));
    var ob := Resolved(OutcomeOf(mb));
    assert Dispatch(sa, mb, raises).futures == s.futures[ka := oa][kb := ob];
    assert Dispatch(sb, ma, raises).futures == s.futures[kb := ob][ka := oa];
    assert s.futures[ka := oa][kb := ob] == s.futures[kb := ob][ka := oa];
    assert s.pending - {ka} - {kb} == s.pending - {kb} - {ka} == s.pending - {ka, kb};
  }

  lemma DispatchPair(s: Session, m1: Inbound, m2: Inbound, raises: FailureOracle)
    ensures DispatchAll(s, [m1, m2], raises) == Dispatch(Dispatch(s, m1, raises), m2, raises)
  {
    var s1 := Dispatch(s, m1, raises);
    assert [m1, m2][1..] == [m2];
    assert DispatchAll(s, [m1, m2], raises) == DispatchAll(s1, [m2], raises);
    assert [m2][1..] == [];
    assert DispatchAll(s1, [m2], raises) == DispatchAll(Dispatch(s1, m2, raises), [], raises);
  }

  /** The stream consumed in two parts is the stream consumed at once. */
  lemma {:induction false} DispatchAllAppend(s: Session, a: seq<Inbound>, b: seq<Inbound>, raises: FailureOracle)
    ensures DispatchAll(s, a + b, raises) == DispatchAll(DispatchAll(s, a, raises), b, raises)
    decreases |a|
  {
    if a == [] {
      assert a + b == b;
    } else {
      assert (a + b)[0] == a[0];
      assert (a + b)[1..] == a[1..] + b;
      DispatchAllAppend(Dispatch(s, a[0], raises), a[1..], b, raises);
    }
  }

  /** Once the receive task has died, no later message has any effect. */
  lemma {:induction false} HaltedIgnoresRest(s: Session, msgs: seq<Inbound>, raises: FailureOracle)
    requires s.halted
    ensures DispatchAll(s, msgs, raises) == s
    decreases |msgs|
  {
    if msgs != [] {
      HaltedIgnoresRest(s, msgs[1..], raises);
    }
  }

  /** A trace with every failure report blanked out. */
  function Erased(t: seq<Call>): (r: seq<Call>)
  {
    seq(|t|, i requires 0 <= i < |t| => t[i].(raised := false))
  }

  /** The session as seen by everything but the failure reports. */
  function Observable(s: Session): Session
  {
    s.(trace := Erased(s.trace))
  }

  lemma ErasedAppend(t: seq<Call>, u: seq<Call>)
    ensures Erased(t + u) == Erased(t) + Erased(u)
  {
  }

  lemma ErasedCalls(hs: seq<HandlerId>, name: string, params: Json, o1: FailureOracle, o2: FailureOracle)
    ensures Erased(Calls(hs, name, params, o1)) == Erased(Calls(hs, name, params, o2))
  {
  }

  /** One dispatch step sees only the observable state, whatever the handlers' failures. */
  lemma DispatchObservable(s: Session, t: Session, m: Inbound, o1: FailureOracle, o2: FailureOracle)
    requires Observable(s) == Observable(t)
    ensures Observable(Dispatch(s, m, o1)) == Observable(Dispatch(t, m, o2))
  {
    assert s.(trace := t.trace) == t;
    if !s.halted && m.id.None? && m.methodName.Some? && m.methodName.value.JStr? {
      var name := m.methodName.value.s;
      if Delivers(s, m, name) {
        var p := m.params.GetOr(Empty);
        var c1 := Calls(s.listeners[name], name, p, o1);
        var c2 := Calls(s.listeners[name], name, p, o2);
        ErasedAppend(s.trace, c1);
        ErasedAppend(t.trace, c2);
        ErasedCalls(s.listeners[name], name, p, o1, o2);
      }
    }
  }

  /**
   Handler isolation: whether handlers fail changes nothing but the failure
   reports; every handler still runs, every response is still routed.
   */
  lemma {:induction false} HandlerIsolation(s: Session, msgs: seq<Inbound>, o1: FailureOracle, o2: FailureOracle)
    ensures Observable(DispatchAll(s, msgs, o1)) == Observable(DispatchAll(s, msgs, o2))
  {
    HandlerIsolationFrom(s, s, msgs, o1, o2);
  }

  lemma {:induction false} HandlerIsolationFrom(s: Session, t: Session, msgs: seq<Inbound>, o1: FailureOracle, o2: FailureOracle)
    requires Observable(s) == Observable(t)
    ensures Observable(DispatchAll(s, msgs, o1)) == Observable(DispatchAll(t, msgs, o2))
    decreases |msgs|
  {
    if msgs != [] {
      DispatchObservable(s, t, msgs[0], o1, o2);
      HandlerIsolationFrom(Dispatch(s, msgs[0], o1), Dispatch(t, msgs[0], o2), msgs[1..], o1, o2);
    }
  }
}
