/** Facts about the upward trickle of argue-rust/src/model/proof.rs (set_proof_state,
    on_child_change, check_if_all_children_true) and about the graph operations built on it.

    Three groups:
    - the trickle only ever rewrites proof states, and only of implied nodes (other than the
      node it starts from);
    - more fuel never changes an outcome that did not run out of fuel;
    - on a well-formed tree (symmetric edges, no dangling handle) in which every implied node
      agrees with its premises, the trickle started by any operation finishes within
      `|nodes| + 1` levels of re-derivation, never panics, and leaves every implied node
      agreeing with its premises again. The argument: one operation starts a "wave" in one
      direction d (towards proven or towards unproven); during the wave a node that disagrees
      with its premises always has proven-ness != d, each re-derivation moves one such node to
      d, and no node ever moves away from d, so the nodes not yet at d bound the depth. */
module Propagation {
  import opened ProofGraph

  // ---------------------------------------------------------------------------------------
  // Shape and implied-only

  /** Between `t` and `u`, every node outside `except` whose state changed was implied before
      and is implied after. */
  ghost predicate OnlyImpliedMoved(t: Tree, u: Tree, except: set<Handle>) {
    forall k | k in t.nodes && k in u.nodes && k !in except && u.nodes[k].state != t.nodes[k].state ::
      t.nodes[k].state.IsImplied() && u.nodes[k].state.IsImplied()
  }

  lemma OnlyImpliedMovedTrans(t: Tree, u: Tree, v: Tree, e1: set<Handle>, e2: set<Handle>)
    requires SameShape(t, u) && SameShape(u, v)
    requires OnlyImpliedMoved(t, u, e1) && OnlyImpliedMoved(u, v, e2)
    ensures SameShape(t, v) && OnlyImpliedMoved(t, v, e1 + e2)
  {
  }

  /** `SetState(t, id, s)` keeps the shape; a node other than `id` only moves between
      implied states; `id` ends in `s`, or, when `s` is implied, in some implied state. */
  lemma {:induction false} SetStateShape(t: Tree, id: Handle, s: ProofState, fuel: nat)
    ensures var r := SetState(t, id, s, fuel);
      r.Ok? ==>
        && SameShape(t, r.value)
        && OnlyImpliedMoved(t, r.value, {id})
        && (r.value.nodes[id].state == s || (s.IsImplied() && r.value.nodes[id].state.IsImplied()))
    decreases fuel, 3
  {
    if id in t.nodes && t.nodes[id].state.IsProven() != s.IsProven() {
      var t1 := WithState(t, id, s);
      var r := NotifyParents(t1, t.nodes[id].parents, fuel);
      NotifyShape(t1, t.nodes[id].parents, fuel);
      if r.Ok? {
        OnlyImpliedMovedTrans(t, t1, r.value, {id}, {});
        assert {id} + {} == {id};
      }
    }
  }

  lemma {:induction false} NotifyShape(t: Tree, ps: seq<Handle>, fuel: nat)
    ensures var r := NotifyParents(t, ps, fuel);
      r.Ok? ==> SameShape(t, r.value) && OnlyImpliedMoved(t, r.value, {})
    decreases fuel, 2, |ps|
  {
    if ps != [] {
      var r0 := OnChildChange(t, ps[0], fuel);
      OnChildChangeShape(t, ps[0], fuel);
      if r0.Ok? {
        NotifyShape(r0.value, ps[1..], fuel);
        var r := NotifyParents(r0.value, ps[1..], fuel);
        if r.Ok? {
          OnlyImpliedMovedTrans(t, r0.value, r.value, {}, {});
        }
      }
    }
  }

  /** A notified node changes only if it is implied, and only to another implied state. */
  lemma {:induction false} OnChildChangeShape(t: Tree, id: Handle, fuel: nat)
    ensures var r := OnChildChange(t, id, fuel);
      r.Ok? ==> SameShape(t, r.value) && OnlyImpliedMoved(t, r.value, {})
    decreases fuel, 1
  {
    if id in t.nodes && t.nodes[id].state.IsImplied() && fuel > 0 {
      match CheckChildren(t, id)
      case None =>
      case Some(all) =>
        var s := if all then ImpliedProven else ImpliedUnproven;
        SetStateShape(t, id, s, fuel - 1);
    }
  }

  // ---------------------------------------------------------------------------------------
  // Fuel is only a bound

  lemma {:induction false} SetStateFuel(t: Tree, id: Handle, s: ProofState, f: nat, g: nat)
    requires f <= g && SetState(t, id, s, f) != OutOfFuel
    ensures SetState(t, id, s, g) == SetState(t, id, s, f)
    decreases f, 3
  {
    if id in t.nodes && t.nodes[id].state.IsProven() != s.IsProven() {
      NotifyFuel(WithState(t, id, s), t.nodes[id].parents, f, g);
    }
  }

  lemma {:induction false} NotifyFuel(t: Tree, ps: seq<Handle>, f: nat, g: nat)
    requires f <= g && NotifyParents(t, ps, f) != OutOfFuel
    ensures NotifyParents(t, ps, g) == NotifyParents(t, ps, f)
    decreases f, 2, |ps|
  {
    if ps != [] {
      var r := OnChildChange(t, ps[0], f);
      assert r != OutOfFuel;
      OnChildChangeFuel(t, ps[0], f, g);
      if r.Ok? {
        NotifyFuel(r.value, ps[1..], f, g);
      }
    }
  }

  lemma {:induction false} OnChildChangeFuel(t: Tree, id: Handle, f: nat, g: nat)
    requires f <= g && OnChildChange(t, id, f) != OutOfFuel
    ensures OnChildChange(t, id, g) == OnChildChange(t, id, f)
    decreases f, 1
  {
    if id in t.nodes && t.nodes[id].state.IsImplied() {
      match CheckChildren(t, id)
      case None =>
      case Some(all) =>
        SetStateFuel(t, id, if all then ImpliedProven else ImpliedUnproven, f - 1, g - 1);
    }
  }

  // ---------------------------------------------------------------------------------------
  // The wave argument

  /** Nodes whose proven-ness is not yet `d`. */
  ghost function Lagging(t: Tree, d: bool): set<Handle> {
    set k | k in t.nodes && t.nodes[k].state.IsProven() != d
  }

  /** During a wave towards `d`: every node that disagrees with its premises is in `pending`
      and is not yet at `d`. */
  ghost predicate Wave(t: Tree, d: bool, pending: set<Handle>) {
    forall k | k in t.nodes && !ConsistentAt(t, k) :: k in pending && t.nodes[k].state.IsProven() != d
  }

  lemma SubsetCard<T>(a: set<T>, b: set<T>)
    requires a <= b
    ensures |a| <= |b|
    decreases a
  {
    if a != {} {
      var x :| x in a;
      SubsetCard(a - {x}, b - {x});
    }
  }

  lemma LaggingBound(t: Tree, d: bool)
    ensures |Lagging(t, d)| <= |t.nodes|
  {
    SubsetCard(Lagging(t, d), t.nodes.Keys);
  }

  lemma ShapeKeepsWellFormed(t: Tree, u: Tree)
    requires WellFormed(t) && SameShape(t, u)
    ensures WellFormed(u)
  {
    assert forall k | k in u.nodes :: k in t.nodes;
  }

  /** Setting one node's state: a node other than `id` whose premise list does not contain
      `id`, or any node when `id` keeps its proven-ness, keeps its agreement. */
  lemma AgreementAfterSet(t: Tree, id: Handle, s: ProofState, k: Handle)
    requires id in t.nodes && k in t.nodes && k != id
    requires id !in t.nodes[k].children || t.nodes[id].state.IsProven() == s.IsProven()
    ensures ConsistentAt(WithState(t, id, s), k) == ConsistentAt(t, k)
  {
    var t1 := WithState(t, id, s);
    var cs := t.nodes[k].children;
    assert forall c | c in cs && c in t.nodes :: t1.nodes[c].state.IsProven() == t.nodes[c].state.IsProven();
    assert AllProven(t1, cs) == AllProven(t, cs);
  }

  /** Moving `id` towards `d` only unsettles parents of `id`, and each unsettled node is
      still short of `d`. */
  lemma MoveKeepsWave(t: Tree, id: Handle, s: ProofState, d: bool, pending: set<Handle>)
    requires WellFormed(t) && id in t.nodes
    requires forall k | k in t.nodes && k != id && !ConsistentAt(t, k) :: k in pending && t.nodes[k].state.IsProven() != d
    requires ConsistentAt(WithState(t, id, s), id)
    requires t.nodes[id].state.IsProven() != s.IsProven() ==> s.IsProven() == d
    ensures var flip := t.nodes[id].state.IsProven() != s.IsProven();
      Wave(WithState(t, id, s), d, pending + (if flip then set p | p in t.nodes[id].parents else {}))
  {
    var t1 := WithState(t, id, s);
    var flip := t.nodes[id].state.IsProven() != s.IsProven();
    var more := if flip then set p | p in t.nodes[id].parents else {};
    forall k | k in t1.nodes && !ConsistentAt(t1, k)
      ensures k in pending + more && t1.nodes[k].state.IsProven() != d
    {
      assert k != id;
      if id !in t.nodes[k].children || !flip {
        AgreementAfterSet(t, id, s, k);
      } else {
        assert k in t.nodes[id].parents;
      }
    }
  }

  /** Re-deriving `id` from its current children leaves `id` agreeing with them, also when
      `id` is its own premise. */
  lemma RederivedAgrees(t: Tree, id: Handle)
    requires NoDangling(t) && id in t.nodes
    ensures var s := if AllProven(t, t.nodes[id].children) then ImpliedProven else ImpliedUnproven;
      ConsistentAt(WithState(t, id, s), id)
  {
    var cs := t.nodes[id].children;
    var all := AllProven(t, cs);
    var s := if all then ImpliedProven else ImpliedUnproven;
    var t1 := WithState(t, id, s);
    if all {
      assert forall c | c in cs :: c in t1.nodes && t1.nodes[c].state.IsProven();
    } else {
      var w :| w in cs && !(w in t.nodes && t.nodes[w].state.IsProven());
      assert !t1.nodes[w].state.IsProven();
    }
  }

  lemma LaggingAfterMove(t: Tree, id: Handle, s: ProofState, d: bool)
    requires id in t.nodes
    requires t.nodes[id].state.IsProven() != s.IsProven() ==> s.IsProven() == d
    ensures Lagging(WithState(t, id, s), d) <= Lagging(t, d)
    ensures t.nodes[id].state.IsProven() != s.IsProven() ==>
      id in Lagging(t, d) && Lagging(WithState(t, id, s), d) == Lagging(t, d) - {id}
  {
  }

  /** SetState inside a wave towards `d`. */
  lemma {:induction false} SetStateWave(t: Tree, id: Handle, s: ProofState, fuel: nat, d: bool, pending: set<Handle>)
    requires WellFormed(t) && id in t.nodes
    requires forall k | k in t.nodes && k != id && !ConsistentAt(t, k) :: k in pending && t.nodes[k].state.IsProven() != d
    requires ConsistentAt(WithState(t, id, s), id)
    requires t.nodes[id].state.IsProven() != s.IsProven() ==>
      s.IsProven() == d && fuel > |Lagging(WithState(t, id, s), d)|
    ensures var r := SetState(t, id, s, fuel);
      && r.Ok?
      && SameShape(t, r.value)
      && Wave(r.value, d, pending)
      && Lagging(r.value, d) <= Lagging(t, d)
    decreases fuel, 3
  {
    var t1 := WithState(t, id, s);
    var flip := t.nodes[id].state.IsProven() != s.IsProven();
    MoveKeepsWave(t, id, s, d, pending);
    LaggingAfterMove(t, id, s, d);
    ShapeKeepsWellFormed(t, t1);
    if flip {
      var ps := t.nodes[id].parents;
      var more := set p | p in ps;
      assert forall p | p in ps :: p in t1.nodes;
      NotifyWave(t1, ps, fuel, d, pending);
    }
  }

  /** The loop over a parent list inside a wave. */
  lemma {:induction false} NotifyWave(t: Tree, ps: seq<Handle>, fuel: nat, d: bool, pending: set<Handle>)
    requires WellFormed(t)
    requires forall p | p in ps :: p in t.nodes
    requires Wave(t, d, pending + set p | p in ps)
    requires fuel > |Lagging(t, d)|
    ensures var r := NotifyParents(t, ps, fuel);
      && r.Ok?
      && SameShape(t, r.value)
      && Wave(r.value, d, pending)
      && Lagging(r.value, d) <= Lagging(t, d)
    decreases fuel, 2, |ps|
  {
    if ps != [] {
      var rest := set p | p in ps[1..];
      assert (pending + rest) + {ps[0]} == pending + set p | p in ps;
      OnChildChangeWave(t, ps[0], fuel, d, pending + rest);
      var t1 := OnChildChange(t, ps[0], fuel).value;
      ShapeKeepsWellFormed(t, t1);
      SubsetCard(Lagging(t1, d), Lagging(t, d));
      NotifyWave(t1, ps[1..], fuel, d, pending);
    }
  }

  /** Re-deriving a notified implied node inside a wave: the node then agrees, the other
      disagreeing nodes are still pending, and a flip moves it to `d`, shrinking the lag. */
  lemma RederiveInWave(t: Tree, p: Handle, d: bool, pending: set<Handle>)
    requires WellFormed(t) && p in t.nodes && t.nodes[p].state.IsImplied()
    requires Wave(t, d, pending + {p})
    ensures var s := if AllProven(t, t.nodes[p].children) then ImpliedProven else ImpliedUnproven;
      && (forall k | k in t.nodes && k != p && !ConsistentAt(t, k) :: k in pending && t.nodes[k].state.IsProven() != d)
      && ConsistentAt(WithState(t, p, s), p)
      && (t.nodes[p].state.IsProven() != s.IsProven() ==>
            s.IsProven() == d && |Lagging(WithState(t, p, s), d)| < |Lagging(t, d)|)
  {
    var s := if AllProven(t, t.nodes[p].children) then ImpliedProven else ImpliedUnproven;
    RederivedAgrees(t, p);
    if t.nodes[p].state.IsProven() != s.IsProven() {
      assert !ConsistentAt(t, p);
      LaggingAfterMove(t, p, s, d);
      SubsetCard(Lagging(t, d) - {p}, Lagging(t, d));
    }
  }

  /** One notified node inside a wave. */
  lemma {:induction false} OnChildChangeWave(t: Tree, p: Handle, fuel: nat, d: bool, pending: set<Handle>)
    requires WellFormed(t) && p in t.nodes
    requires Wave(t, d, pending + {p})
    requires fuel > |Lagging(t, d)|
    ensures var r := OnChildChange(t, p, fuel);
      && r.Ok?
      && SameShape(t, r.value)
      && Wave(r.value, d, pending)
      && Lagging(r.value, d) <= Lagging(t, d)
    decreases fuel, 1
  {
    if t.nodes[p].state.IsImplied() {
      ImpliedWave(t, p, fuel, d, pending);
    } else {
      assert ConsistentAt(t, p);
    }
  }

  /** A notified implied node inside a wave: its re-derivation is one more step of it. */
  lemma {:induction false} ImpliedWave(t: Tree, p: Handle, fuel: nat, d: bool, pending: set<Handle>)
    requires WellFormed(t) && p in t.nodes && t.nodes[p].state.IsImplied()
    requires Wave(t, d, pending + {p})
    requires fuel > |Lagging(t, d)|
    ensures var s := if AllProven(t, t.nodes[p].children) then ImpliedProven else ImpliedUnproven;
      var r := SetState(t, p, s, fuel - 1);
      && OnChildChange(t, p, fuel) == r
      && r.Ok?
      && SameShape(t, r.value)
      && Wave(r.value, d, pending)
      && Lagging(r.value, d) <= Lagging(t, d)
    decreases fuel, 0
  {
    var s := if AllProven(t, t.nodes[p].children) then ImpliedProven else ImpliedUnproven;
    RederiveInWave(t, p, d, pending);
    SetStateWave(t, p, s, fuel - 1, d, pending);
  }

  // ---------------------------------------------------------------------------------------
  // The operations keep a well-formed, agreeing tree well-formed and agreeing

  /** Enough fuel for any trickle on `t`. */
  function Fuel(t: Tree): (f: nat)
    ensures f > |t.nodes|
  {
    |t.nodes| + 1
  }

  /** SetState on a well-formed tree in which only `id` may disagree, when the new state
      agrees at `id`: the trickle settles with every node agreeing. */
  lemma SettleFrom(t: Tree, id: Handle, s: ProofState, fuel: nat)
    requires WellFormed(t) && id in t.nodes
    requires forall k | k in t.nodes && k != id :: ConsistentAt(t, k)
    requires ConsistentAt(WithState(t, id, s), id)
    requires fuel > |t.nodes|
    ensures var r := SetState(t, id, s, fuel);
      r.Ok? && SameShape(t, r.value) && WellFormed(r.value) && Consistent(r.value)
  {
    var d := s.IsProven();
    var t1 := WithState(t, id, s);
    LaggingBound(t1, d);
    SetStateWave(t, id, s, fuel, d, {});
    ShapeKeepsWellFormed(t, SetState(t, id, s, fuel).value);
  }

  /** OnChildChange on a well-formed tree in which only `p` may disagree. */
  lemma RederiveSettles(t: Tree, p: Handle, fuel: nat)
    requires WellFormed(t) && p in t.nodes
    requires forall k | k in t.nodes && k != p :: ConsistentAt(t, k)
    requires fuel > |t.nodes|
    ensures var r := OnChildChange(t, p, fuel);
      r.Ok? && SameShape(t, r.value) && WellFormed(r.value) && Consistent(r.value)
  {
    var d := !t.nodes[p].state.IsProven();
    LaggingBound(t, d);
    OnChildChangeWave(t, p, fuel, d, {});
    ShapeKeepsWellFormed(t, OnChildChange(t, p, fuel).value);
  }
}
