/** The graph operations of argue-rust/src/model/proof.rs against the two invariants the
    rest of the game relies on: the edge lists stay well formed (issued, no dangling handle,
    child and parent lists describing the same edges), and every implied node agrees with
    its premises.

    With `Fuel(t)` levels of re-derivation every operation keeps both invariants and never
    panics, with two exceptions the source really has:
    - `unlink(p, p)` on an `ImpliedUnproven` node drops premises without re-deriving the
      node, so the node can stay unproven with all premises proven;
    - `remove_node` leaves the removed handle in its neighbours' edge lists, and a later
      `get_premises` on a former parent panics. */
module GraphInvariants {
  import opened ProofGraph
  import opened Propagation

  // ---------------------------------------------------------------------------------------
  // Helpers: agreement only depends on states and child lists

  /** A node keeps its agreement when its child list and every live node's state are kept. */
  lemma AgreementKept(t: Tree, u: Tree, k: Handle)
    requires k in t.nodes && k in u.nodes && u.nodes.Keys == t.nodes.Keys
    requires forall h | h in t.nodes :: u.nodes[h].state == t.nodes[h].state
    requires u.nodes[k].children == t.nodes[k].children
    ensures ConsistentAt(u, k) == ConsistentAt(t, k)
  {
    var cs := t.nodes[k].children;
    assert AllProven(u, cs) == AllProven(t, cs);
  }

  /** Adding the edge p -> c keeps the edge lists well formed, and every node but `p` keeps
      its agreement. */
  lemma AddEdgeWellFormed(t: Tree, p: Handle, c: Handle)
    requires WellFormed(t) && p in t.nodes && c in t.nodes && p != c
    ensures WellFormed(AddEdge(t, p, c))
    ensures forall k | k in t.nodes && k != p :: ConsistentAt(AddEdge(t, p, c), k) == ConsistentAt(t, k)
  {
    var u := AddEdge(t, p, c);
    forall a | a in u.nodes
      ensures forall x :: x in u.nodes[a].children <==> x in t.nodes[a].children || (a == p && x == c)
      ensures forall x :: x in u.nodes[a].parents <==> x in t.nodes[a].parents || (a == c && x == p)
    {
    }
    forall k | k in t.nodes && k != p
      ensures ConsistentAt(u, k) == ConsistentAt(t, k)
    {
      AgreementKept(t, u, k);
    }
  }

  /** Dropping the edge p -> c keeps the edge lists well formed, and every node but `p`
      keeps its agreement. */
  lemma RemoveEdgeWellFormed(t: Tree, p: Handle, c: Handle)
    requires WellFormed(t) && p in t.nodes && c in t.nodes && p != c
    ensures WellFormed(RemoveEdge(t, p, c))
    ensures forall k | k in t.nodes && k != p :: ConsistentAt(RemoveEdge(t, p, c), k) == ConsistentAt(t, k)
  {
    var u := RemoveEdge(t, p, c);
    forall a | a in u.nodes
      ensures forall x :: x in u.nodes[a].children <==> x in t.nodes[a].children && !(a == p && x == c)
      ensures forall x :: x in u.nodes[a].parents <==> x in t.nodes[a].parents && !(a == c && x == p)
    {
    }
    forall k | k in t.nodes && k != p
      ensures ConsistentAt(u, k) == ConsistentAt(t, k)
    {
      AgreementKept(t, u, k);
    }
  }

  // ---------------------------------------------------------------------------------------
  // The operations

  /** `add_node` keeps both invariants: the fresh node is unproven, not implied, and no
      existing edge list mentions it. */
  lemma AddNodeKeeps(t: Tree, statement: string)
    requires WellFormed(t) && Consistent(t)
    ensures var (u, h) := AddNode(t, statement);
      WellFormed(u) && Consistent(u) && !u.nodes[h].state.IsProven()
  {
    var (u, h) := AddNode(t, statement);
    forall k | k in u.nodes
      ensures ConsistentAt(u, k)
    {
      if k != h {
        var cs := t.nodes[k].children;
        assert AllProven(u, cs) == AllProven(t, cs);
      }
    }
  }

  /** `link` on a well-formed agreeing tree: it either reports an error or succeeds, never
      panics, and on success the tree is well formed and agreeing, with `c` a premise of `p`.
      For a new edge the result is the tree with the edge appended to both lists, in which
      only implied nodes changed state, between the implied states; so an implied `p` stays
      implied and is re-derived from its premises, now including `c`. */
  lemma LinkKeeps(t: Tree, p: Handle, c: Handle)
    requires WellFormed(t) && Consistent(t)
    ensures var r := Link(t, p, c, Fuel(t));
      && (r.Ok? || r.Err?)
      && (r.Ok? ==> WellFormed(r.value) && Consistent(r.value) && p in r.value.nodes
                    && c in r.value.nodes[p].children && p in r.value.nodes[c].parents)
      && (r.Ok? && p != c ==> LinkedTo(t, p, c, r.value))
  {
    if p == c {
      if p in t.nodes {
        SelfLoopLinkKeeps(t, p);
      }
    } else if p in t.nodes && c in t.nodes && c !in t.nodes[p].children {
      EdgeLinkKeeps(t, p, c);
    }
  }

  /** What `link(p, c)` of a new edge leaves: the edge-appended tree in which only implied
      nodes changed state, between the implied states, and an implied `p` is re-derived
      from its premises, `c` now among them. */
  ghost predicate LinkedTo(t: Tree, p: Handle, c: Handle, u: Tree)
    requires p in t.nodes && c in t.nodes && p != c
  {
    && SameShape(AddEdge(t, p, c), u)
    && OnlyImpliedMoved(AddEdge(t, p, c), u, {})
    && (t.nodes[p].state.IsImplied() ==>
          u.nodes[p].state == (if AllProven(u, t.nodes[p].children + [c]) then ImpliedProven else ImpliedUnproven))
  }

  /** `link(p, c)` of a new edge on a well-formed agreeing tree succeeds, keeps both
      invariants, and leaves exactly `LinkedTo`. */
  lemma EdgeLinkKeeps(t: Tree, p: Handle, c: Handle)
    requires WellFormed(t) && Consistent(t) && p in t.nodes && c in t.nodes && p != c
    requires c !in t.nodes[p].children
    ensures var r := Link(t, p, c, Fuel(t));
      r.Ok? && WellFormed(r.value) && Consistent(r.value) && LinkedTo(t, p, c, r.value)
  {
    var t1 := AddEdge(t, p, c);
    if t.nodes[p].state.IsImplied() {
      assert Link(t, p, c, Fuel(t)) == OnChildChange(t1, p, Fuel(t));
      ImpliedLinkSettles(t, p, c);
    } else {
      assert Link(t, p, c, Fuel(t)) == Ok(t1);
      AddEdgeWellFormed(t, p, c);
      assert ConsistentAt(t1, p);
      assert SameShape(t1, t1);
    }
  }

  /** The implied case of `EdgeLinkKeeps`: the re-check of `p` after the edge is added. */
  lemma ImpliedLinkSettles(t: Tree, p: Handle, c: Handle)
    requires WellFormed(t) && Consistent(t) && p in t.nodes && c in t.nodes && p != c
    requires c !in t.nodes[p].children && t.nodes[p].state.IsImplied()
    ensures var r := OnChildChange(AddEdge(t, p, c), p, Fuel(t));
      r.Ok? && WellFormed(r.value) && Consistent(r.value) && LinkedTo(t, p, c, r.value)
  {
    var fuel := Fuel(t);
    var t1 := AddEdge(t, p, c);
    AddEdgeWellFormed(t, p, c);
    assert |t1.nodes| == |t.nodes| by {
      assert t1.nodes.Keys == t.nodes.Keys;
    }
    RederiveSettles(t1, p, fuel);
    OnChildChangeShape(t1, p, fuel);
    var u := OnChildChange(t1, p, fuel).value;
    assert u.nodes[p].state.IsImplied();
    assert u.nodes[p].children == t.nodes[p].children + [c];
    ImpliedIsDerived(u, p);
  }

  /** An implied node that agrees with its premises holds exactly the re-derived state. */
  lemma ImpliedIsDerived(u: Tree, k: Handle)
    requires k in u.nodes && ConsistentAt(u, k) && u.nodes[k].state.IsImplied()
    ensures u.nodes[k].state == (if AllProven(u, u.nodes[k].children) then ImpliedProven else ImpliedUnproven)
  {
  }

  /** The self-loop `link(p, p)` keeps agreement: `p` is proven exactly when its old
      premises are, and adding itself as a premise does not change that. */
  lemma SelfLoopLinkKeeps(t: Tree, p: Handle)
    requires WellFormed(t) && Consistent(t) && p in t.nodes
    ensures var u := AddSelfLoop(t, p);
      WellFormed(u) && Consistent(u)
  {
    var u := AddSelfLoop(t, p);
    forall a | a in u.nodes
      ensures forall x :: x in u.nodes[a].children <==> x in t.nodes[a].children || (a == p && x == p)
      ensures forall x :: x in u.nodes[a].parents <==> x in t.nodes[a].parents || (a == p && x == p)
    {
    }
    forall k | k in u.nodes
      ensures ConsistentAt(u, k)
    {
      if k != p {
        AgreementKept(t, u, k);
      } else {
        var cs := t.nodes[p].children;
        assert forall x :: x in cs + [p] <==> x in cs || x == p;
        assert AllProven(u, cs) == AllProven(t, cs);
      }
    }
  }

  /** `unlink` on a well-formed agreeing tree, except the self-loop of an `ImpliedUnproven`
      node (see `UnlinkSelfLoopBreaksAgreement`): never panics, and on success the tree is
      well formed and agreeing and `c` is no longer a premise of `p`. For an existing edge
      the result is the tree with the edge removed from both lists, an implied `p` falls back
      to `Unproven`, any other `p` keeps its state, and besides `p` only implied nodes
      changed state, between the implied states. */
  lemma UnlinkKeeps(t: Tree, p: Handle, c: Handle)
    requires WellFormed(t) && Consistent(t)
    requires p == c && p in t.nodes ==> t.nodes[p].state != ImpliedUnproven
    ensures var r := Unlink(t, p, c, Fuel(t));
      && (r.Ok? || r.Err?)
      && (r.Ok? ==> WellFormed(r.value) && Consistent(r.value) && p in r.value.nodes
                    && c !in r.value.nodes[p].children)
      && (r.Ok? && p != c ==> UnlinkedFrom(t, p, c, r.value))
  {
    var fuel := Fuel(t);
    if p == c {
      if p in t.nodes {
        SelfLoopUnlinkKeeps(t, p);
      }
    } else if p in t.nodes && c in t.nodes && c in t.nodes[p].children {
      EdgeUnlinkKeeps(t, p, c);
    }
  }

  /** What `unlink(p, c)` of an existing edge leaves: the edge-removed tree in which `p` is
      `Unproven` if it was implied and keeps its state otherwise, and every other node that
      changed state was implied before and after. */
  ghost predicate UnlinkedFrom(t: Tree, p: Handle, c: Handle, u: Tree)
    requires p in t.nodes && c in t.nodes && p != c
  {
    && SameShape(RemoveEdge(t, p, c), u)
    && OnlyImpliedMoved(RemoveEdge(t, p, c), u, {p})
    && u.nodes[p].state == (if t.nodes[p].state.IsImplied() then Unproven else t.nodes[p].state)
  }

  /** `unlink(p, c)` of an existing edge on a well-formed agreeing tree succeeds, keeps both
      invariants, and leaves exactly `UnlinkedFrom`. */
  lemma EdgeUnlinkKeeps(t: Tree, p: Handle, c: Handle)
    requires WellFormed(t) && Consistent(t) && p in t.nodes && c in t.nodes && p != c
    requires c in t.nodes[p].children
    ensures var r := Unlink(t, p, c, Fuel(t));
      r.Ok? && WellFormed(r.value) && Consistent(r.value) && UnlinkedFrom(t, p, c, r.value)
  {
    var fuel := Fuel(t);
    var t1 := RemoveEdge(t, p, c);
    RemoveEdgeWellFormed(t, p, c);
    assert |t1.nodes| == |t.nodes| by {
      assert t1.nodes.Keys == t.nodes.Keys;
    }
    if t.nodes[p].state.IsImplied() {
      assert Unlink(t, p, c, fuel) == SetState(t1, p, Unproven, fuel);
      SettleFrom(t1, p, Unproven, fuel);
      SetStateShape(t1, p, Unproven, fuel);
    } else {
      assert ConsistentAt(t1, p);
    }
  }

  lemma SelfLoopUnlinkKeeps(t: Tree, p: Handle)
    requires WellFormed(t) && Consistent(t) && p in t.nodes && t.nodes[p].state != ImpliedUnproven
    ensures var u := RemoveSelfLoop(t, p);
      WellFormed(u) && Consistent(u)
  {
    var u := RemoveSelfLoop(t, p);
    forall a | a in u.nodes
      ensures forall x :: x in u.nodes[a].children <==> x in t.nodes[a].children && !(a == p && x == p)
      ensures forall x :: x in u.nodes[a].parents <==> x in t.nodes[a].parents && !(a == p && x == p)
    {
    }
    forall k | k in u.nodes
      ensures ConsistentAt(u, k)
    {
      if k != p {
        AgreementKept(t, u, k);
      } else if t.nodes[p].state == ImpliedProven {
        var cs := t.nodes[p].children;
        assert AllProven(t, cs);
        assert forall x | x in Without(cs, p) :: x in cs;
      }
    }
  }

  /** The counterexample: a root that is its own only premise, re-derived as
      `ImpliedUnproven`. `unlink(root, root)` leaves it with no premise at all and still
      unproven, though every one of its (zero) premises is proven. */
  lemma UnlinkSelfLoopBreaksAgreement()
    ensures var t := Tree(map[0 := Node("claim", [0], [0], ImpliedUnproven)], 0, 1);
      var r := Unlink(t, 0, 0, Fuel(t));
      && WellFormed(t) && Consistent(t)
      && r.Ok? && WellFormed(r.value) && !Consistent(r.value)
  {
    var t := Tree(map[0 := Node("claim", [0], [0], ImpliedUnproven)], 0, 1);
    var u := RemoveSelfLoop(t, 0);
    assert u.nodes[0].children == [];
    assert !ConsistentAt(u, 0);
  }

  /** `change_node_statement` keeps both invariants and never panics; the node ends
      `Unproven` with the new text, no other text or edge changes, and every other node that
      changed state was implied before and after. */
  lemma ChangeNodeStatementKeeps(t: Tree, id: Handle, statement: string)
    requires WellFormed(t) && Consistent(t)
    ensures var r := ChangeNodeStatement(t, id, statement, Fuel(t));
      && (r.Ok? <==> id in t.nodes)
      && (r.Ok? ==> WellFormed(r.value) && Consistent(r.value)
                    && id in r.value.nodes && r.value.nodes[id].statement == statement && r.value.nodes[id].state == Unproven
                    && SameShape(WithStatement(t, id, statement), r.value)
                    && OnlyImpliedMoved(t, r.value, {id}))
  {
    if id in t.nodes {
      var t1 := WithStatement(t, id, statement);
      WithStatementKeeps(t, id, statement);
      assert ChangeNodeStatement(t, id, statement, Fuel(t)) == SetState(t1, id, Unproven, Fuel(t));
      SettleFrom(t1, id, Unproven, Fuel(t));
      SetStateShape(t1, id, Unproven, Fuel(t));
    }
  }

  /** Replacing a text keeps both invariants, the node count and every state. */
  lemma WithStatementKeeps(t: Tree, id: Handle, statement: string)
    requires WellFormed(t) && Consistent(t) && id in t.nodes
    ensures var t1 := WithStatement(t, id, statement);
      && WellFormed(t1) && Consistent(t1) && Fuel(t1) == Fuel(t)
      && forall k | k in t.nodes :: t1.nodes[k].state == t.nodes[k].state
  {
    var t1 := WithStatement(t, id, statement);
    forall k | k in t.nodes
      ensures ConsistentAt(t1, k)
    {
      AgreementKept(t, t1, k);
    }
    assert forall k | k in t.nodes :: t1.nodes[k].children == t.nodes[k].children && t1.nodes[k].parents == t.nodes[k].parents;
    assert |t1.nodes| == |t.nodes| by {
      assert t1.nodes.Keys == t.nodes.Keys;
    }
  }

  /** `set_directly_proven` on a live node keeps both invariants and never panics; the node
      ends `DirectlyProven`, no text or edge changes, and every other node that changed state
      was implied before and after. */
  lemma SetDirectlyProvenKeeps(t: Tree, id: Handle)
    requires WellFormed(t) && Consistent(t) && id in t.nodes
    ensures var r := SetDirectlyProven(t, id, Fuel(t));
      r.Ok? && WellFormed(r.value) && Consistent(r.value) && id in r.value.nodes
      && r.value.nodes[id].state == DirectlyProven
      && SameShape(t, r.value) && OnlyImpliedMoved(t, r.value, {id})
  {
    SettleFrom(t, id, DirectlyProven, Fuel(t));
    SetStateShape(t, id, DirectlyProven, Fuel(t));
  }

  /** `set_implied` on a live node keeps both invariants and never panics; the node ends
      implied, and proven exactly when all its premises are; no text or edge changes, and
      every other node that changed state was implied before and after. */
  lemma SetImpliedKeeps(t: Tree, id: Handle)
    requires WellFormed(t) && Consistent(t) && id in t.nodes
    ensures var r := SetImplied(t, id, Fuel(t));
      && r.Ok? && WellFormed(r.value) && Consistent(r.value) && id in r.value.nodes
      && r.value.nodes[id].state.IsImplied()
      && (r.value.nodes[id].state == ImpliedProven <==> AllProven(r.value, r.value.nodes[id].children))
      && SameShape(t, r.value) && OnlyImpliedMoved(t, r.value, {id})
  {
    var s := if AllProven(t, t.nodes[id].children) then ImpliedProven else ImpliedUnproven;
    RederivedAgrees(t, id);
    SettleFrom(t, id, s, Fuel(t));
    SetStateShape(t, id, s, Fuel(t));
  }

  /** Removing a node with no edges keeps both invariants. */
  lemma RemoveIsolatedKeeps(t: Tree, id: Handle)
    requires WellFormed(t) && Consistent(t) && id in t.nodes && id != t.root
    requires t.nodes[id].children == [] && t.nodes[id].parents == []
    ensures var r := RemoveNode(t, id, Fuel(t));
      r.Ok? && WellFormed(r.value) && Consistent(r.value) && id !in r.value.nodes
  {
    var u := t.(nodes := t.nodes - {id});
    forall k | k in u.nodes
      ensures id !in t.nodes[k].children && id !in t.nodes[k].parents
    {
    }
    forall k | k in u.nodes
      ensures ConsistentAt(u, k)
    {
      var cs := t.nodes[k].children;
      assert AllProven(u, cs) == AllProven(t, cs);
    }
  }

  /** Removing a node that has a parent leaves that parent with a dangling premise: the
      tree is no longer well formed and `get_premises` on the parent panics. */
  lemma RemoveNodeDangles(t: Tree, id: Handle, p: Handle)
    requires WellFormed(t) && id in t.nodes && id != t.root
    requires p in t.nodes[id].parents && p != id
    ensures var r := RemoveNode(t, id, Fuel(t));
      && r.Ok? && p in r.value.nodes && id in r.value.nodes[p].children
      && !NoDangling(r.value)
      && GetPremises(r.value, p) == Panic
  {
  }
}
