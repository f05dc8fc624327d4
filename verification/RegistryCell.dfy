/** The global schema registry as a concurrent object (fraiseql_rs/src/schema_registry.rs): every operation is one
    atomic step on one cell, so any interleaving of threads is a sequence of operations. */
module RegistryCell {
  import opened Schema

  const EMPTY_REGISTRY := SchemaRegistry("", [], map[])

  datatype Op = Initialize(registry: SchemaRegistry) | Set(registry: SchemaRegistry) | Reset | Get | IsInitialized

  /** `arcs[h]` is the registry that handle `h` denotes; handle 0 is the permanent empty one. */
  datatype State = State(arcs: seq<SchemaRegistry>, current: nat) {
    ghost predicate Valid() {
      arcs != [] && arcs[0] == EMPTY_REGISTRY && current < |arcs|
    }
  }

  datatype Reply = Flag(b: bool) | Handle(h: nat) | Done

  function Step(s: State, op: Op): State {
    match op
    case Initialize(registry) =>
      State(s.arcs + [registry], if s.current == 0 then |s.arcs| else s.current)
    case Set(registry) => State(s.arcs + [registry], |s.arcs|)
    case Reset => s.(current := 0)
    case _ => s
  }

  function ReplyTo(s: State, op: Op): Reply {
    match op
    case Initialize(_) => Flag(s.current == 0)
    case Get => Handle(s.current)
    case IsInitialized => Flag(s.current != 0)
    case _ => Done
  }

  // ----- the code -----

  class Arc {
    const registry: SchemaRegistry

    constructor (registry: SchemaRegistry)
      ensures this.registry == registry
    {
      this.registry := registry;
    }
  }

  class GlobalRegistry {
    const empty: Arc
    var current: Arc
    ghost var arcs: seq<Arc>
    ghost var position: nat

    ghost predicate Valid()
      reads this
    {
      && arcs != [] && arcs[0] == empty && empty.registry == EMPTY_REGISTRY
      && position < |arcs| && arcs[position] == current
      && forall i, j :: 0 <= i < j < |arcs| ==> arcs[i] != arcs[j]
    }

    ghost function View(): (s: State)
      reads this
      requires Valid()
      ensures s.Valid()
    {
      State(seq(|arcs|, i requires 0 <= i < |arcs| reads this => arcs[i].registry), position)
    }

    constructor ()
      ensures Valid() && View() == State([EMPTY_REGISTRY], 0)
    {
      var arc := new Arc(EMPTY_REGISTRY);
      empty := arc;
      current := arc;
      arcs := [arc];
      position := 0;
    }

    /** Compare-and-swap against the empty handle. */
    method Initialize(registry: SchemaRegistry) returns (ok: bool)
      requires Valid()
      modifies this
      ensures Valid()
      ensures View() == Step(old(View()), Op.Initialize(registry))
      ensures Flag(ok) == ReplyTo(old(View()), Op.Initialize(registry))
      ensures current == if ok then arcs[|arcs| - 1] else old(current)
      ensures arcs[..|arcs| - 1] == old(arcs)
    {
      var newArc := new Arc(registry);
      var previous := current;
      assert newArc !in arcs;
      if current == empty {
        current := newArc;
        position := |arcs|;
      }
      arcs := arcs + [newArc];
      ok := previous == empty;
    }

    method Set(registry: SchemaRegistry)
      requires Valid()
      modifies this
      ensures Valid()
      ensures View() == Step(old(View()), Op.Set(registry))
      ensures fresh(current) && current.registry == registry && arcs == old(arcs) + [current]
    {
      current := new Arc(registry);
      assert current !in arcs;
      position := |arcs|;
      arcs := arcs + [current];
    }

    method Reset()
      requires Valid()
      modifies this`current, this`position
      ensures Valid()
      ensures View() == Step(old(View()), Op.Reset)
      ensures current == empty
    {
      current := empty;
      position := 0;
    }

    method Get() returns (handle: Arc)
      requires Valid()
      ensures handle == current
      ensures handle.registry == View().arcs[View().current]
    {
      handle := current;
    }

    method IsInitialized() returns (b: bool)
      requires Valid()
      ensures Flag(b) == ReplyTo(View(), Op.IsInitialized)
      ensures b <==> current != empty
    {
      b := current != empty;
    }
  }

  // ----- runs -----

  const START := State([EMPTY_REGISTRY], 0)

  /** The state after the operations, in the order in which they take effect. */
  function After(ops: seq<Op>): (s: State)
    ensures s.Valid()
  {
    if ops == [] then START else Step(After(ops[..|ops| - 1]), ops[|ops| - 1])
  }

  predicate IsRead(op: Op) {
    op.Get? || op.IsInitialized?
  }

  /** Since the start, or some reset, there were only reads. */
  predicate NothingSince(ops: seq<Op>) {
    exists j :: 0 <= j <= |ops| && OnlyReadsFrom(ops, j)
  }

  predicate OnlyReadsFrom(ops: seq<Op>, j: nat)
    requires j <= |ops|
  {
    (j == 0 || ops[j - 1].Reset?) && forall l :: j <= l < |ops| ==> IsRead(ops[l])
  }

  lemma {:induction false} EmptyIff(ops: seq<Op>)
    ensures After(ops).current == 0 <==> NothingSince(ops)
  {
    if ops == [] {
      assert OnlyReadsFrom(ops, 0);
    } else {
      var n := |ops| - 1;
      var front := ops[..n];
      EmptyIff(front);
      forall j | 0 <= j <= n
        ensures OnlyReadsFrom(ops, j) <==> OnlyReadsFrom(front, j) && IsRead(ops[n])
      {
        assert forall l :: 0 <= l < n ==> front[l] == ops[l];
      }
      if ops[n].Reset? {
        assert OnlyReadsFrom(ops, |ops|);
      }
    }
  }

  /** An initialization succeeds exactly when nothing was installed since the start or the last reset. */
  lemma InitializeSucceedsIff(ops: seq<Op>, i: nat)
    requires i < |ops| && ops[i].Initialize?
    ensures ReplyTo(After(ops[..i]), ops[i]) == Flag(true) <==> NothingSince(ops[..i])
  {
    EmptyIff(ops[..i]);
  }

  /** `is_initialized` answers false exactly then too. */
  lemma IsInitializedIff(ops: seq<Op>)
    ensures ReplyTo(After(ops), IsInitialized) == Flag(false) <==> NothingSince(ops)
  {
    EmptyIff(ops);
  }

  /** Between two successful initializations there is a reset. */
  lemma ResetBetweenSuccesses(ops: seq<Op>, i: nat, k: nat)
    requires i < k < |ops| && ops[i].Initialize? && ops[k].Initialize?
    requires ReplyTo(After(ops[..i]), ops[i]) == Flag(true)
    requires ReplyTo(After(ops[..k]), ops[k]) == Flag(true)
    ensures exists j :: i < j < k && ops[j].Reset?
  {
    InitializeSucceedsIff(ops, k);
    var j :| 0 <= j <= k && OnlyReadsFrom(ops[..k], j);
    assert ops[..k][i] == ops[i];
    assert ops[..k][j - 1] == ops[j - 1];
  }

  /** A failed one changes nothing that a handle, or a later operation, can see. */
  lemma FailureChangesNothing(s: State, registry: SchemaRegistry, op: Op)
    requires s.Valid() && ReplyTo(s, Initialize(registry)) == Flag(false)
    ensures var s' := Step(s, Initialize(registry));
      && s'.current == s.current
      && ReplyTo(s', op) == ReplyTo(s, op)
      && forall h :: 0 <= h < |s.arcs| ==> s'.arcs[h] == s.arcs[h]
  {
  }

  /** The operation at `w` installed what the cell holds after `ops`: a set, or an initialization that found the
      cell empty, with no set or reset after it. */
  predicate Installs(ops: seq<Op>, w: nat) {
    && w < |ops|
    && (ops[w].Set? || (ops[w].Initialize? && NothingSince(ops[..w])))
    && forall l :: w < l < |ops| ==> !ops[l].Set? && !ops[l].Reset?
  }

  lemma {:induction false} HoldsInstalled(ops: seq<Op>)
    ensures forall w: nat :: Installs(ops, w) ==>
      After(ops).current != 0 && After(ops).arcs[After(ops).current] == ops[w].registry
    ensures After(ops).current != 0 ==> exists w: nat :: Installs(ops, w)
  {
    if ops != [] {
      var n := |ops| - 1;
      var front := ops[..n];
      HoldsInstalled(front);
      EmptyIff(front);
      forall w: nat | w < n
        ensures Installs(ops, w) <==> Installs(front, w) && !ops[n].Set? && !ops[n].Reset?
      {
        assert front[..w] == ops[..w];
        assert forall l :: 0 <= l < n ==> front[l] == ops[l];
      }
      forall w: nat | Installs(ops, w)
        ensures After(ops).current != 0 && After(ops).arcs[After(ops).current] == ops[w].registry
      {
        if w < n {
          assert Installs(front, w) && front[w] == ops[w];
        }
      }
      if After(ops).current != 0 {
        if ops[n].Set? || (ops[n].Initialize? && After(front).current == 0) {
          assert Installs(ops, n);
        } else {
          var w: nat :| Installs(front, w);
          assert Installs(ops, w);
        }
      }
    }
  }

  /** The handle a `get_registry` hands out denotes the registry that was installed last, or, exactly when nothing
      was since the start or the last reset, the empty one. */
  lemma GetIff(ops: seq<Op>, registry: SchemaRegistry)
    ensures ReplyTo(After(ops), Get) == Handle(0) <==> NothingSince(ops)
    ensures !NothingSince(ops) ==>
      (After(ops).arcs[After(ops).current] == registry <==>
       exists w: nat :: Installs(ops, w) && ops[w].registry == registry)
  {
    EmptyIff(ops);
    HoldsInstalled(ops);
  }

  /** A handle denotes the same registry for ever, whatever happens to the cell. */
  lemma {:induction false} HandleStable(ops: seq<Op>, more: seq<Op>, h: nat)
    requires h < |After(ops).arcs|
    ensures h < |After(ops + more).arcs| && After(ops + more).arcs[h] == After(ops).arcs[h]
  {
    if more == [] {
      assert ops + more == ops;
    } else {
      var front := more[..|more| - 1];
      HandleStable(ops, front, h);
      assert (ops + more)[..|ops + more| - 1] == ops + front;
    }
  }

  /** Without sets and resets, every `get` after the first success hands out the same handle. */
  lemma {:induction false} GetsAgree(ops: seq<Op>, more: seq<Op>)
    requires After(ops).current != 0
    requires forall i :: 0 <= i < |more| ==> !more[i].Set? && !more[i].Reset?
    ensures ReplyTo(After(ops + more), Get) == ReplyTo(After(ops), Get)
  {
    if more == [] {
      assert ops + more == ops;
    } else {
      var front := more[..|more| - 1];
      GetsAgree(ops, front);
      assert (ops + more)[..|ops + more| - 1] == ops + front;
    }
  }
}
