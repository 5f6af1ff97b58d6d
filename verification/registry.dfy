/**
 The event-listener registry of a BiDi session: event name to the handlers
 registered under it, in registration order.

 Python compares handlers with `==`, which for functions is identity; a
 handler is therefore modelled by an opaque identifier.
 */
module Registry {

  type HandlerId = nat

  type Listeners = map<string, seq<HandlerId>>

  /** The capability returned by `AddListener`: the closure `remove` over its event name and handler. */
  datatype Remover = Remover(eventName: string, handler: HandlerId)

  /** `listeners.get(name, [])`. */
  function Handlers(reg: Listeners, name: string): seq<HandlerId>
  {
    if name in reg then reg[name] else []
  }

  /** Registers `h` under `name`, creating the list on first use, and returns the remover. */
  function AddListener(reg: Listeners, name: string, h: HandlerId): (r: (Listeners, Remover))
    ensures r.0.Keys == reg.Keys + {name}
    ensures r.0[name] == Handlers(reg, name) + [h]
    ensures forall n :: n in reg && n != name ==> r.0[n] == reg[n]
    ensures r.1 == Remover(name, h)
  {
    (reg[name := Handlers(reg, name) + [h]], Remover(name, h))
  }

  /** The position of the first occurrence of `h`. */
  function FirstIndex(xs: seq<HandlerId>, h: HandlerId): (i: nat)
    requires h in xs
    ensures i < |xs| && xs[i] == h
    ensures h !in xs[..i]
  {
    if xs[0] == h then 0
    else
      var i := FirstIndex(xs[1..], h);
      assert xs[..i + 1] == [xs[0]] + xs[1..][..i];
      i + 1
  }

  /** Python's `list.remove(h)` guarded by `h in list`: drops the first occurrence, if any. */
  function RemoveFirst(xs: seq<HandlerId>, h: HandlerId): (r: seq<HandlerId>)
    ensures h !in xs ==> r == xs
    ensures h in xs ==> |r| == |xs| - 1
    ensures h in xs ==> forall j :: 0 <= j < |r| ==> r[j] == if j < FirstIndex(xs, h) then xs[j] else xs[j + 1]
    ensures multiset(r) == multiset(xs) - multiset{h}
  {
    if h in xs then
      var i := FirstIndex(xs, h);
      assert xs == xs[..i] + [h] + xs[i + 1..];
      xs[..i] + xs[i + 1..]
    else xs
  }

  /** Calls the remover: detaches its handler once from its event name; a no-op when absent. */
  function Remove(reg: Listeners, rm: Remover): (r: Listeners)
    ensures r.Keys == reg.Keys
    ensures forall n :: n in reg && n != rm.eventName ==> r[n] == reg[n]
    ensures rm.eventName in reg ==> r[rm.eventName] == RemoveFirst(reg[rm.eventName], rm.handler)
    ensures rm.handler !in Handlers(reg, rm.eventName) ==> r == reg
  {
    if rm.handler in Handlers(reg, rm.eventName) then
      reg[rm.eventName := RemoveFirst(reg[rm.eventName], rm.handler)]
    else reg
  }

  /** Removing the handler just appended to a list that did not hold it gives the list back. */
  lemma RemoveFirstAppended(xs: seq<HandlerId>, h: HandlerId)
    requires h !in xs
    ensures RemoveFirst(xs + [h], h) == xs
  {
    var i := FirstIndex(xs + [h], h);
    assert (xs + [h])[..|xs|] == xs;
    assert i == |xs|;
  }

  /**
   Registering and then calling the remover restores the handlers of that name
   as a multiset, and as a list when the handler was not registered there
   already; no other name is touched.
   */
  lemma AddThenRemove(reg: Listeners, name: string, h: HandlerId)
    ensures var (reg1, rm) := AddListener(reg, name, h);
            var reg2 := Remove(reg1, rm);
            && reg2.Keys == reg.Keys + {name}
            && multiset(Handlers(reg2, name)) == multiset(Handlers(reg, name))
            && (h !in Handlers(reg, name) ==> Handlers(reg2, name) == Handlers(reg, name))
            && (forall n :: n in reg && n != name ==> reg2[n] == reg[n])
  {
    var xs := Handlers(reg, name);
    if h !in xs {
      RemoveFirstAppended(xs, h);
    }
  }

  /**
   A remover for a handler registered once under its name is idempotent: the
   second call finds the handler gone and changes nothing.
   */
  lemma RemoveTwiceAfterSingleAdd(reg: Listeners, name: string, h: HandlerId)
    requires h !in Handlers(reg, name)
    ensures var (reg1, rm) := AddListener(reg, name, h);
            Remove(Remove(reg1, rm), rm) == Remove(reg1, rm)
  {
    var (reg1, rm) := AddListener(reg, name, h);
    RemoveFirstAppended(Handlers(reg, name), h);
    assert Handlers(Remove(reg1, rm), name) == Handlers(reg, name);
  }

  /** The first occurrence of `h` does not move when another `h` is appended. */
  lemma FirstIndexAppended(xs: seq<HandlerId>, h: HandlerId)
    requires h in xs
    ensures FirstIndex(xs + [h], h) == FirstIndex(xs, h)
  {
    var f := FirstIndex(xs, h);
    var g := FirstIndex(xs + [h], h);
    forall k | 0 <= k < f ensures xs[k] != h {
      assert xs[..f][k] == xs[k];
    }
    forall k | 0 <= k < g ensures (xs + [h])[k] != h {
      assert (xs + [h])[..g][k] == (xs + [h])[k];
    }
    assert (xs + [h])[f] == h;
  }

  /** Appending `h` to a list holding it and dropping the first `h` shifts the tail left by one. */
  lemma RemoveFirstAppendedAt(xs: seq<HandlerId>, h: HandlerId)
    requires h in xs
    ensures |RemoveFirst(xs + [h], h)| == |xs|
    ensures forall j :: 0 <= j < |xs| ==>
              RemoveFirst(xs + [h], h)[j] == if j < FirstIndex(xs, h) then xs[j] else (xs + [h])[j + 1]
  {
    FirstIndexAppended(xs, h);
  }

  /** From `f` on, each element equals the one before it, so all equal `xs[f]`. */
  lemma {:induction false} ConstantFrom(xs: seq<HandlerId>, f: nat, i: nat)
    requires f <= i < |xs|
    requires forall j :: f <= j < |xs| - 1 ==> xs[j + 1] == xs[j]
    ensures xs[i] == xs[f]
    decreases i - f
  {
    if i > f {
      ConstantFrom(xs, f, i - 1);
    }
  }

  lemma RestoredOnlyIfConstantTail(xs: seq<HandlerId>, h: HandlerId)
    requires h in xs && RemoveFirst(xs + [h], h) == xs
    ensures forall i :: FirstIndex(xs, h) <= i < |xs| ==> xs[i] == h
  {
    var f := FirstIndex(xs, h);
    RemoveFirstAppendedAt(xs, h);
    forall j | f <= j < |xs| - 1 ensures xs[j + 1] == xs[j] {
      assert (xs + [h])[j + 1] == xs[j + 1];
    }
    forall i | f <= i < |xs| ensures xs[i] == h {
      ConstantFrom(xs, f, i);
    }
  }

  lemma RestoredIfConstantTail(xs: seq<HandlerId>, h: HandlerId)
    requires h in xs && forall i :: FirstIndex(xs, h) <= i < |xs| ==> xs[i] == h
    ensures RemoveFirst(xs + [h], h) == xs
  {
    var f := FirstIndex(xs, h);
    var r := RemoveFirst(xs + [h], h);
    RemoveFirstAppendedAt(xs, h);
    forall j | 0 <= j < |xs| ensures r[j] == xs[j] {
      if j >= f && j + 1 < |xs| {
        assert (xs + [h])[j + 1] == xs[j + 1];
      }
    }
  }

  /**
   Appending `h` and dropping its first occurrence gives the list back exactly
   when `h` is absent or every element from its first occurrence on is `h`.
   */
  lemma RemoveFirstAppendedIff(xs: seq<HandlerId>, h: HandlerId)
    ensures RemoveFirst(xs + [h], h) == xs
        <==> h !in xs || forall i :: FirstIndex(xs, h) <= i < |xs| ==> xs[i] == h
  {
    if h !in xs {
      RemoveFirstAppended(xs, h);
    } else if RemoveFirst(xs + [h], h) == xs {
      RestoredOnlyIfConstantTail(xs, h);
    } else if forall i :: FirstIndex(xs, h) <= i < |xs| ==> xs[i] == h {
      RestoredIfConstantTail(xs, h);
    }
  }

  /**
   Registering and calling the remover restores the name's list exactly when
   the handler was absent or fills the list from its first occurrence on.
   */
  lemma AddThenRemoveRestoresIff(reg: Listeners, name: string, h: HandlerId)
    ensures var (reg1, rm) := AddListener(reg, name, h);
            var xs := Handlers(reg, name);
            Handlers(Remove(reg1, rm), name) == xs
            <==> h !in xs || forall i :: FirstIndex(xs, h) <= i < |xs| ==> xs[i] == h
  {
    RemoveFirstAppendedIff(Handlers(reg, name), h);
  }
}
