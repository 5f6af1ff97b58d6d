/**
 The manual BiDi test client `BidiTester`: a second, synchronous
 demultiplexer. After sending a command it keeps reading until it meets a
 message that is not an event and carries an `id`; events met on the way are
 queued. It also counts passed and failed checks, from which the script's
 exit code follows.

 The WebSocket is a finite inbound sequence; running out of it is the
 connection closing while `recv` waits, which raises.
 */
module ManualTester {
  import opened Wrappers
  import opened Json
  import opened Messages

  datatype Tester = Tester(cmdId: nat, passed: nat, failed: nat, eventQueue: seq<Inbound>)

  /** `BidiTester()`: no command sent, no check made, no event queued. */
  function NewTester(): Tester
  {
    Tester(0, 0, 0, [])
  }

  /** `resp.get("type") == "event"`. */
  predicate IsEvent(m: Inbound)
  {
    HasKind(m, "event")
  }

  /** What ends the receive loop: a message that is not an event and has an `id` key. */
  predicate IsReply(m: Inbound)
  {
    !IsEvent(m) && m.id.Some?
  }

  /** `resp.get("id") == expected_id` under Python equality (`True == 1`, `False == 0`). */
  predicate IdEquals(id: Option<Json>, expected: int)
  {
    id.Some? && (id.value == JNum(expected) || (id.value == JBool(expected == 1) && (expected == 0 || expected == 1)))
  }

  /** The events of a stretch of the stream, in arrival order. */
  function Events(xs: seq<Inbound>): seq<Inbound>
    decreases |xs|
  {
    if xs == [] then []
    else Events(xs[..|xs| - 1]) + if IsEvent(xs[|xs| - 1]) then [xs[|xs| - 1]] else []
  }

  /**
   `BidiTester.send`: bump `cmd_id`, send `{id, method, params or {}}`, then
   read until the first non-event message carrying an `id`, whichever id it
   carries. Events are queued on the way; messages after the reply stay unread.
   Without a reply the stream runs out (`recv` raises), and the events read
   so far stay queued.
   */
  method Send(t: Tester, name: string, params: Json, inbound: seq<Inbound>)
    returns (t': Tester, sent: Command, reply: Option<Inbound>, rest: seq<Inbound>)
    ensures t'.cmdId == t.cmdId + 1 && t'.passed == t.passed && t'.failed == t.failed
    ensures sent == Command(t'.cmdId, name, if Truthy(params) then params else Empty)
    // the reply is the message just before the unread rest
    ensures reply.Some? ==>
              && |rest| < |inbound|
              && var k := |inbound| - |rest| - 1;
                 && reply.value == inbound[k] && IsReply(inbound[k])
                 && (forall j :: 0 <= j < k ==> !IsReply(inbound[j]))
                 && rest == inbound[k + 1..]
                 && t'.eventQueue == t.eventQueue + Events(inbound[..k])
    ensures reply.None? ==>
              && (forall j :: 0 <= j < |inbound| ==> !IsReply(inbound[j]))
              && rest == []
              && t'.eventQueue == t.eventQueue + Events(inbound)
  {
    var expected := t.cmdId + 1;
    sent := Command(expected, name, if Truthy(params) then params else Empty);
    var queue := t.eventQueue;
    var i := 0;
    while i < |inbound|
      invariant 0 <= i <= |inbound|
      invariant forall j :: 0 <= j < i ==> !IsReply(inbound[j])
      invariant queue == t.eventQueue + Events(inbound[..i])
    {
      var resp := inbound[i];
      assert inbound[..i + 1][..i] == inbound[..i];
      if IsEvent(resp) {
        queue := queue + [resp];
        i := i + 1;
        continue;
      }
      if IdEquals(resp.id, expected) {
        t' := t.(cmdId := expected, eventQueue := queue);
        return t', sent, Some(resp), inbound[i + 1..];
      }
      if resp.id.Some? {
        t' := t.(cmdId := expected, eventQueue := queue);
        return t', sent, Some(resp), inbound[i + 1..];
      }
      i := i + 1;
    }
    assert inbound[..i] == inbound;
    t' := t.(cmdId := expected, eventQueue := queue);
    reply := None;
    rest := [];
  }

  /** `BidiTester.check`: counts the condition as passed or failed. */
  function Check(t: Tester, condition: bool): (r: Tester)
    ensures condition ==> r.passed == t.passed + 1 && r.failed == t.failed
    ensures !condition ==> r.failed == t.failed + 1 && r.passed == t.passed
    ensures r.cmdId == t.cmdId && r.eventQueue == t.eventQueue
  {
    if condition then t.(passed := t.passed + 1) else t.(failed := t.failed + 1)
  }

  function CheckAll(t: Tester, conditions: seq<bool>): Tester
    decreases |conditions|
  {
    if conditions == [] then t else CheckAll(Check(t, conditions[0]), conditions[1..])
  }

  function CountTrue(conditions: seq<bool>): nat
    decreases |conditions|
  {
    if conditions == [] then 0 else (if conditions[0] then 1 else 0) + CountTrue(conditions[1..])
  }

  /** Each check adds exactly one to `passed + failed`; `passed` counts the conditions that held. */
  lemma {:induction false} CheckAllCounts(t: Tester, conditions: seq<bool>)
    ensures CheckAll(t, conditions).passed == t.passed + CountTrue(conditions)
    ensures CheckAll(t, conditions).passed + CheckAll(t, conditions).failed == t.passed + t.failed + |conditions|
    decreases |conditions|
  {
    if conditions != [] {
      CheckAllCounts(Check(t, conditions[0]), conditions[1..]);
    }
  }

  lemma {:induction false} CountTrueAll(conditions: seq<bool>)
    ensures CountTrue(conditions) <= |conditions|
    ensures CountTrue(conditions) == |conditions| <==> forall i :: 0 <= i < |conditions| ==> conditions[i]
    decreases |conditions|
  {
    if conditions != [] {
      CountTrueAll(conditions[1..]);
      assert forall i :: 1 <= i < |conditions| ==> conditions[i] == conditions[1..][i - 1];
    }
  }

  /** How `main` ends: the test run finished, or an exception (refused connection, closed stream) aborted it. */
  datatype RunOutcome = Finished(tester: Tester) | Aborted

  /** `main`'s return value, which becomes the process exit status. */
  function ExitCode(o: RunOutcome): (code: int)
    ensures code == 0 || code == 1
    ensures code == 0 <==> o.Finished? && o.tester.failed == 0
  {
    match o
    case Finished(t) => if t.failed == 0 then 0 else 1
    case Aborted => 1
  }

  /** A finished run from a fresh tester exits with 0 exactly when every check passed. */
  lemma ExitZeroIffAllChecksPass(conditions: seq<bool>)
    ensures ExitCode(Finished(CheckAll(NewTester(), conditions))) == 0
        <==> forall i :: 0 <= i < |conditions| ==> conditions[i]
  {
    CheckAllCounts(NewTester(), conditions);
    CountTrueAll(conditions);
  }
}
