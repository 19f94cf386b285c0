/** The proof graph of argue-rust/src/model/proof.rs: an arena of statement nodes addressed
    by handles, each node carrying its text, its proof state and its parent and child edge
    lists, together with the operations the game applies to it and the upward "trickle" that
    re-derives implied nodes when a child's proven-ness flips.

    The arena is a map from handle to node. Handles come from a counter and are never handed
    out twice, which is what the generational arena guarantees for a handle that other nodes
    may still hold. Where the source unwraps a lookup of a missing handle (a panic), the model
    returns `Panic`; the trickle is bounded by a `fuel` argument and returns `OutOfFuel` when
    the bound is hit (see module Propagation for a bound that always suffices). */
module ProofGraph {

  type Handle = nat

  /** The four proof states. `Unproven` is the source's `ProofState::None`: never adjudicated,
      or invalidated by an edit or by losing a premise. */
  datatype ProofState = DirectlyProven | Unproven | ImpliedUnproven | ImpliedProven
  {
    /** Accepted, by itself or through premises that are all proven. */
    predicate IsProven() {
      this == DirectlyProven || this == ImpliedProven
    }

    /** Last adjudicated as following from its premises. */
    predicate IsImplied() {
      this == ImpliedUnproven || this == ImpliedProven
    }
  }

  datatype Node = Node(statement: string, children: seq<Handle>, parents: seq<Handle>, state: ProofState)

  /** `next` is the arena's supply of fresh handles: every handle it has issued is below it. */
  datatype Tree = Tree(nodes: map<Handle, Node>, root: Handle, next: Handle)

  datatype ProofError =
    | NoSuchNode(id: Handle)
    | RemoveRoot
    | AddExistingLink(child: Handle, parent: Handle)
    | RemoveNonExistentLink(child: Handle, parent: Handle)

  /** What a graph operation ends in: a value, a typed error, a panic of the source
      (an `unwrap` of a missing handle), or the model's fuel running out. */
  datatype Outcome<T> = Ok(value: T) | Err(error: ProofError) | Panic | OutOfFuel

  /** One statement as sent to the clients. */
  datatype StatementDto = StatementDto(id: Handle, statement: string, state: ProofState,
                                       parents: seq<Handle>, children: seq<Handle>)

  datatype TreeDto = TreeDto(statements: seq<StatementDto>, root: Handle)

  // ---------------------------------------------------------------------------------------
  // Invariants

  /** Every handle the tree holds, live or mentioned in an edge list, was issued. */
  predicate Issued(t: Tree) {
    && t.root in t.nodes
    && (forall h | h in t.nodes :: h < t.next)
    && (forall h, c | h in t.nodes && c in t.nodes[h].children :: c < t.next)
    && (forall h, p | h in t.nodes && p in t.nodes[h].parents :: p < t.next)
  }

  /** No edge list mentions a handle that is no longer live. */
  predicate NoDangling(t: Tree) {
    && (forall h, c | h in t.nodes && c in t.nodes[h].children :: c in t.nodes)
    && (forall h, p | h in t.nodes && p in t.nodes[h].parents :: p in t.nodes)
  }

  /** The child lists and the parent lists describe the same edges. */
  predicate Symmetric(t: Tree) {
    forall a, b | a in t.nodes && b in t.nodes :: b in t.nodes[a].children <==> a in t.nodes[b].parents
  }

  predicate WellFormed(t: Tree) {
    Issued(t) && NoDangling(t) && Symmetric(t)
  }

  /** Every handle in `cs` is live and proven. */
  predicate AllProven(t: Tree, cs: seq<Handle>) {
    forall c | c in cs :: c in t.nodes && t.nodes[c].state.IsProven()
  }

  /** An implied node is proven exactly when all its premises are. */
  predicate ConsistentAt(t: Tree, k: Handle)
    requires k in t.nodes
  {
    t.nodes[k].state.IsImplied() ==> (t.nodes[k].state.IsProven() <==> AllProven(t, t.nodes[k].children))
  }

  predicate Consistent(t: Tree) {
    forall k | k in t.nodes :: ConsistentAt(t, k)
  }

  /** Same handles, texts and edges; only proof states may differ. */
  predicate SameShape(t: Tree, u: Tree) {
    && u.root == t.root
    && u.next == t.next
    && u.nodes.Keys == t.nodes.Keys
    && forall k | k in t.nodes ::
         && u.nodes[k].statement == t.nodes[k].statement
         && u.nodes[k].children == t.nodes[k].children
         && u.nodes[k].parents == t.nodes[k].parents
  }

  // ---------------------------------------------------------------------------------------
  // Construction, queries and snapshot

  /** `TreeState::new`: a single unproven root. */
  function New(rootStatement: string): (t: Tree)
    ensures WellFormed(t) && Consistent(t)
    ensures t.nodes.Keys == {t.root}
    ensures t.nodes[t.root] == Node(rootStatement, [], [], Unproven)
  {
    Tree(map[0 := Node(rootStatement, [], [], Unproven)], 0, 1)
  }

  /** `proof_complete`: the root is directly proven or implied-proven. The source expects
      the root to exist. */
  function ProofComplete(t: Tree): (r: bool)
    requires t.root in t.nodes
    ensures r <==> t.nodes[t.root].state in {DirectlyProven, ImpliedProven}
  {
    t.nodes[t.root].state.IsProven()
  }

  /** `get_statement`. */
  function GetStatement(t: Tree, id: Handle): (r: Outcome<string>)
    ensures id in t.nodes <==> r.Ok?
    ensures r.Ok? ==> r.value == t.nodes[id].statement
    ensures !r.Ok? ==> r == Err(NoSuchNode(id))
  {
    if id in t.nodes then Ok(t.nodes[id].statement) else Err(NoSuchNode(id))
  }

  /** `get_premises`: the texts of the node's children, in child order. A missing node is an
      error; a missing child is a panic of the source (`unwrap`). */
  function GetPremises(t: Tree, id: Handle): (r: Outcome<seq<string>>)
    ensures id !in t.nodes <==> r == Err(NoSuchNode(id))
    ensures id in t.nodes ==>
      (r.Ok? <==> forall c | c in t.nodes[id].children :: c in t.nodes)
    ensures id in t.nodes && !r.Ok? ==> r == Panic
    ensures r.Ok? ==>
      (&& |r.value| == |t.nodes[id].children|
       && forall i :: 0 <= i < |r.value| ==> r.value[i] == t.nodes[t.nodes[id].children[i]].statement)
  {
    if id !in t.nodes then Err(NoSuchNode(id))
    else
      var cs := t.nodes[id].children;
      if forall c | c in cs :: c in t.nodes
      then Ok(seq(|cs|, i requires 0 <= i < |cs| => t.nodes[cs[i]].statement))
      else Panic
  }

  /** `as_dto`: one entry per live node, in ascending handle order (the arena's slot order). */
  function AsDto(t: Tree): (d: TreeDto)
    ensures d.root == t.root
    ensures forall i :: 0 <= i < |d.statements| ==> Describes(t, d.statements[i])
    ensures forall h :: h in t.nodes && h < t.next <==> h in Ids(d.statements)
    ensures forall i, j :: 0 <= i < j < |d.statements| ==> d.statements[i].id < d.statements[j].id
  {
    SnapshotCovers(t, 0);
    TreeDto(Snapshot(t, 0), t.root)
  }

  /** The handles a snapshot lists. */
  function Ids(s: seq<StatementDto>): (r: set<Handle>)
    ensures forall i :: 0 <= i < |s| ==> s[i].id in r
    ensures forall h :: h in r ==> exists i :: 0 <= i < |s| && s[i].id == h
  {
    set i | 0 <= i < |s| :: s[i].id
  }

  /** `dto` is the entry of a live node, copied field by field. */
  predicate Describes(t: Tree, dto: StatementDto) {
    && dto.id in t.nodes
    && var n := t.nodes[dto.id];
       dto == StatementDto(dto.id, n.statement, n.state, n.parents, n.children)
  }

  /** Entries for the live handles in `from .. t.next`, ascending. */
  function Snapshot(t: Tree, from: nat): (s: seq<StatementDto>)
    ensures forall i :: 0 <= i < |s| ==> Describes(t, s[i]) && from <= s[i].id < t.next
    ensures forall i, j :: 0 <= i < j < |s| ==> s[i].id < s[j].id
    decreases t.next - from
  {
    if from >= t.next then []
    else
      var rest := Snapshot(t, from + 1);
      if from in t.nodes then
        var n := t.nodes[from];
        [StatementDto(from, n.statement, n.state, n.parents, n.children)] + rest
      else rest
  }

  /** The snapshot from `from` lists exactly the live handles in `from .. t.next`. */
  lemma {:induction false} SnapshotCovers(t: Tree, from: nat)
    ensures forall h :: h in t.nodes && from <= h < t.next <==> h in Ids(Snapshot(t, from))
    decreases t.next - from
  {
    if from < t.next {
      SnapshotCovers(t, from + 1);
      if from in t.nodes {
        var rest := Snapshot(t, from + 1);
        var n := t.nodes[from];
        IdsCons(StatementDto(from, n.statement, n.state, n.parents, n.children), rest);
      }
    }
  }

  /** The handles of a snapshot with one more entry in front. */
  lemma IdsCons(d: StatementDto, s: seq<StatementDto>)
    ensures Ids([d] + s) == {d.id} + Ids(s)
  {
    var l := [d] + s;
    forall x | x in Ids(l) ensures x == d.id || x in Ids(s) {
      var i :| 0 <= i < |l| && l[i].id == x;
      if i > 0 { assert l[i] == s[i - 1]; }
    }
    forall x | x in Ids(s) ensures x in Ids(l) {
      var i :| 0 <= i < |s| && s[i].id == x;
      assert l[i + 1] == s[i];
    }
    assert l[0] == d;
  }

  // ---------------------------------------------------------------------------------------
  // Edge-list helpers

  /** `Vec::retain(|&y| y != x)`: every occurrence of `x` dropped, the rest kept in order. */
  function Without(s: seq<Handle>, x: Handle): (r: seq<Handle>)
    ensures forall y :: y in r <==> y in s && y != x
    ensures |r| <= |s|
    ensures x !in s ==> r == s
  {
    if s == [] then []
    else if s[0] == x then Without(s[1..], x)
    else [s[0]] + Without(s[1..], x)
  }

  function WithState(t: Tree, id: Handle, s: ProofState): (u: Tree)
    requires id in t.nodes
    ensures SameShape(t, u)
    ensures u.nodes[id].state == s
    ensures forall k | k in t.nodes && k != id :: u.nodes[k] == t.nodes[k]
  {
    t.(nodes := t.nodes[id := t.nodes[id].(state := s)])
  }

  // ---------------------------------------------------------------------------------------
  // The trickle: set_proof_state, on_child_change, check_if_all_children_true

  /** `set_proof_state`: store the new state; when the node's proven-ness changed, notify
      every parent in its parent list, in order. */
  function SetState(t: Tree, id: Handle, s: ProofState, fuel: nat): (r: Outcome<Tree>)
    ensures id !in t.nodes ==> r == Panic
    ensures id in t.nodes && t.nodes[id].state.IsProven() == s.IsProven() ==> r == Ok(WithState(t, id, s))
    decreases fuel, 3
  {
    if id !in t.nodes then Panic
    else
      var t1 := WithState(t, id, s);
      if t.nodes[id].state.IsProven() == s.IsProven() then Ok(t1)
      else NotifyParents(t1, t.nodes[id].parents, fuel)
  }

  /** The loop over the cloned parent list in `set_proof_state`. */
  function NotifyParents(t: Tree, ps: seq<Handle>, fuel: nat): (r: Outcome<Tree>)
    ensures ps == [] ==> r == Ok(t)
    decreases fuel, 2, |ps|
  {
    if ps == [] then Ok(t)
    else
      match OnChildChange(t, ps[0], fuel)
      case Ok(t1) => NotifyParents(t1, ps[1..], fuel)
      case other => other
  }

  /** `on_child_change`: a notified node is re-derived only when it is in an implied state. */
  function OnChildChange(t: Tree, id: Handle, fuel: nat): (r: Outcome<Tree>)
    ensures id !in t.nodes ==> r == Panic
    ensures id in t.nodes && !t.nodes[id].state.IsImplied() ==> r == Ok(t)
    decreases fuel, 1
  {
    if id !in t.nodes then Panic
    else if !t.nodes[id].state.IsImplied() then Ok(t)
    else if fuel == 0 then OutOfFuel
    else Rederive(t, id, fuel - 1)
  }

  /** The shared body of `set_implied` and of `on_child_change` for an implied node:
      `ImpliedProven` if every current child is proven, `ImpliedUnproven` otherwise. */
  function Rederive(t: Tree, id: Handle, fuel: nat): (r: Outcome<Tree>)
    ensures NoDangling(t) && id in t.nodes ==>
      r == SetState(t, id, if AllProven(t, t.nodes[id].children) then ImpliedProven else ImpliedUnproven, fuel)
    decreases fuel, 4
  {
    match CheckChildren(t, id)
    case None => Panic
    case Some(all) => SetState(t, id, if all then ImpliedProven else ImpliedUnproven, fuel)
  }

  datatype Verdict = None | Some(allProven: bool)

  /** `check_if_all_children_true`: walks the children in order and stops at the first
      unproven one; a missing node or a missing child reached before that is a panic. */
  function CheckChildren(t: Tree, id: Handle): (r: Verdict)
    ensures id !in t.nodes ==> r == None
    ensures id in t.nodes && (forall c | c in t.nodes[id].children :: c in t.nodes) ==>
      r == Some(AllProven(t, t.nodes[id].children))
  {
    if id !in t.nodes then None else ChildrenProven(t, t.nodes[id].children)
  }

  function ChildrenProven(t: Tree, cs: seq<Handle>): (r: Verdict)
    ensures (forall c | c in cs :: c in t.nodes) ==> r == Some(AllProven(t, cs))
    ensures r == Some(true) ==> AllProven(t, cs)
  {
    if cs == [] then Some(true)
    else if cs[0] !in t.nodes then None
    else if !t.nodes[cs[0]].state.IsProven() then Some(false)
    else
      var rest := ChildrenProven(t, cs[1..]);
      assert forall c | c in cs :: c == cs[0] || c in cs[1..];
      rest
  }

  // ---------------------------------------------------------------------------------------
  // Public operations

  /** A node with the given text, no edges and state `Unproven`. */
  function Fresh(statement: string): Node {
    Node(statement, [], [], Unproven)
  }

  /** `add_node`: inserts a fresh node and returns its handle. */
  function AddNode(t: Tree, statement: string): (r: (Tree, Handle))
    ensures r.0.root == t.root && r.0.next > r.1
    ensures r.1 in r.0.nodes && r.0.nodes[r.1] == Fresh(statement)
    ensures forall k | k in t.nodes && k != r.1 :: k in r.0.nodes && r.0.nodes[k] == t.nodes[k]
    ensures Issued(t) ==> r.1 !in t.nodes && r.0.nodes.Keys == t.nodes.Keys + {r.1}
    ensures Issued(t) ==> forall k | k in t.nodes :: r.1 !in t.nodes[k].children && r.1 !in t.nodes[k].parents
  {
    var h := t.next;
    (t.(nodes := t.nodes[h := Fresh(statement)], next := h + 1), h)
  }

  /** The pairs `remove_node` hands to `unlink`: (parent, id) for each parent, then
      (id, child) for each child. */
  function IncidentPairs(id: Handle, n: Node): (r: seq<(Handle, Handle)>)
    ensures forall i :: 0 <= i < |r| ==> r[i].0 == id || r[i].1 == id
  {
    seq(|n.parents|, i requires 0 <= i < |n.parents| => (n.parents[i], id))
    + seq(|n.children|, i requires 0 <= i < |n.children| => (id, n.children[i]))
  }

  /** `let _ = self.unlink(a, b)` for each pair: errors are dropped, a panic is not. */
  function UnlinkEach(t: Tree, pairs: seq<(Handle, Handle)>, fuel: nat): Outcome<Tree>
    decreases |pairs|
  {
    if pairs == [] then Ok(t)
    else
      match Unlink(t, pairs[0].0, pairs[0].1, fuel)
      case Ok(t1) => UnlinkEach(t1, pairs[1..], fuel)
      case Err(_) => UnlinkEach(t, pairs[1..], fuel)
      case Panic => Panic
      case OutOfFuel => OutOfFuel
  }

  /** `remove_node`. The node leaves the arena BEFORE the unlink calls, so each of them
      fails on the missing handle and its error is dropped: the neighbours keep the removed
      handle in their edge lists. */
  function RemoveNode(t: Tree, id: Handle, fuel: nat): (r: Outcome<Tree>)
    ensures id == t.root ==> r == Err(RemoveRoot)
    ensures id != t.root && id !in t.nodes ==> r == Err(NoSuchNode(id))
    ensures id != t.root && id in t.nodes ==> r == Ok(t.(nodes := t.nodes - {id}))
  {
    if id == t.root then Err(RemoveRoot)
    else if id !in t.nodes then Err(NoSuchNode(id))
    else
      var t1 := t.(nodes := t.nodes - {id});
      UnlinkMissingFails(t1, id, IncidentPairs(id, t.nodes[id]), fuel);
      UnlinkEach(t1, IncidentPairs(id, t.nodes[id]), fuel)
  }

  /** Unlinking pairs that all involve a handle that is not live changes nothing. */
  lemma {:induction false} UnlinkMissingFails(t: Tree, id: Handle, pairs: seq<(Handle, Handle)>, fuel: nat)
    requires id !in t.nodes
    requires forall i :: 0 <= i < |pairs| ==> pairs[i].0 == id || pairs[i].1 == id
    ensures UnlinkEach(t, pairs, fuel) == Ok(t)
  {
    if pairs != [] {
      assert Unlink(t, pairs[0].0, pairs[0].1, fuel).Err?;
      UnlinkMissingFails(t, id, pairs[1..], fuel);
    }
  }

  /** `change_node_statement`: new text, then the state is forced to `Unproven` (with the
      usual notification of the parents if the node was proven). */
  function ChangeNodeStatement(t: Tree, id: Handle, statement: string, fuel: nat): (r: Outcome<Tree>)
    ensures id !in t.nodes <==> r == Err(NoSuchNode(id))
    ensures id in t.nodes && !t.nodes[id].state.IsProven() ==>
      r == Ok(WithState(WithStatement(t, id, statement), id, Unproven))
  {
    if id !in t.nodes then Err(NoSuchNode(id))
    else
      var t1 := WithStatement(t, id, statement);
      SetStateNeverErrs(t1, id, Unproven, fuel);
      SetState(t1, id, Unproven, fuel)
  }

  /** The tree with the text of `id` replaced, every other field and node kept. */
  function WithStatement(t: Tree, id: Handle, statement: string): (u: Tree)
    requires id in t.nodes
    ensures u.root == t.root && u.next == t.next && u.nodes.Keys == t.nodes.Keys
    ensures u.nodes[id] == t.nodes[id].(statement := statement)
    ensures forall k | k in t.nodes && k != id :: u.nodes[k] == t.nodes[k]
  {
    t.(nodes := t.nodes[id := t.nodes[id].(statement := statement)])
  }

  /** The tree with the edge parent -> child appended to both lists. */
  function AddEdge(t: Tree, p: Handle, c: Handle): (u: Tree)
    requires p in t.nodes && c in t.nodes && p != c
    ensures u.root == t.root && u.next == t.next && u.nodes.Keys == t.nodes.Keys
    ensures u.nodes[p] == t.nodes[p].(children := t.nodes[p].children + [c])
    ensures u.nodes[c] == t.nodes[c].(parents := t.nodes[c].parents + [p])
    ensures forall k | k in t.nodes && k != p && k != c :: u.nodes[k] == t.nodes[k]
  {
    var np := t.nodes[p];
    var nc := t.nodes[c];
    t.(nodes := t.nodes[p := np.(children := np.children + [c])][c := nc.(parents := nc.parents + [p])])
  }

  /** The tree with every occurrence of the edge parent -> child dropped from both lists. */
  function RemoveEdge(t: Tree, p: Handle, c: Handle): (u: Tree)
    requires p in t.nodes && c in t.nodes && p != c
    ensures u.root == t.root && u.next == t.next && u.nodes.Keys == t.nodes.Keys
    ensures u.nodes[p] == t.nodes[p].(children := Without(t.nodes[p].children, c))
    ensures u.nodes[c] == t.nodes[c].(parents := Without(t.nodes[c].parents, p))
    ensures forall k | k in t.nodes && k != p && k != c :: u.nodes[k] == t.nodes[k]
  {
    var np := t.nodes[p];
    var nc := t.nodes[c];
    t.(nodes := t.nodes[p := np.(children := Without(np.children, c))][c := nc.(parents := Without(nc.parents, p))])
  }

  /** The self-loop `link(p, p)`: `p` appended to its own parent and child lists. */
  function AddSelfLoop(t: Tree, p: Handle): (u: Tree)
    requires p in t.nodes
    ensures u.root == t.root && u.next == t.next && u.nodes.Keys == t.nodes.Keys
    ensures u.nodes[p] == t.nodes[p].(children := t.nodes[p].children + [p], parents := t.nodes[p].parents + [p])
    ensures forall k | k in t.nodes && k != p :: u.nodes[k] == t.nodes[k]
  {
    var n := t.nodes[p];
    t.(nodes := t.nodes[p := n.(parents := n.parents + [p], children := n.children + [p])])
  }

  /** The self-loop `unlink(p, p)`: every `p` dropped from its own lists. */
  function RemoveSelfLoop(t: Tree, p: Handle): (u: Tree)
    requires p in t.nodes
    ensures u.root == t.root && u.next == t.next && u.nodes.Keys == t.nodes.Keys
    ensures u.nodes[p] == t.nodes[p].(children := Without(t.nodes[p].children, p), parents := Without(t.nodes[p].parents, p))
    ensures forall k | k in t.nodes && k != p :: u.nodes[k] == t.nodes[k]
  {
    var n := t.nodes[p];
    t.(nodes := t.nodes[p := n.(parents := Without(n.parents, p), children := Without(n.children, p))])
  }

  /** `link(parent, child)`: makes `child` a premise of `parent`. */
  function Link(t: Tree, p: Handle, c: Handle, fuel: nat): (r: Outcome<Tree>)
    // the degenerate self-loop: no duplicate check, no re-derivation
    ensures p == c ==> r == (if p in t.nodes then Ok(AddSelfLoop(t, p)) else Err(NoSuchNode(p)))
    // errors, in the order the source checks them; none of them changes the tree
    ensures p != c && p !in t.nodes ==> r == Err(NoSuchNode(p))
    ensures p != c && p in t.nodes && c !in t.nodes ==> r == Err(NoSuchNode(c))
    ensures p != c && p in t.nodes && c in t.nodes && c in t.nodes[p].children ==> r == Err(AddExistingLink(c, p))
    // success: both lists extended; only an implied parent is re-derived
    ensures p != c && p in t.nodes && c in t.nodes && c !in t.nodes[p].children ==>
      !r.Err? && (!t.nodes[p].state.IsImplied() ==> r == Ok(AddEdge(t, p, c)))
  {
    if p == c then
      if p !in t.nodes then Err(NoSuchNode(p)) else Ok(AddSelfLoop(t, p))
    else if p !in t.nodes then Err(NoSuchNode(p))
    else if c !in t.nodes then Err(NoSuchNode(c))
    else if c in t.nodes[p].children then Err(AddExistingLink(c, p))
    else
      var t1 := AddEdge(t, p, c);
      if t.nodes[p].state.IsImplied() then
        PropagationNeverErrs(t1, p, fuel);
        OnChildChange(t1, p, fuel)
      else Ok(t1)
  }

  /** `unlink(parent, child)`: removes the premise `child` from `parent`. */
  function Unlink(t: Tree, p: Handle, c: Handle, fuel: nat): (r: Outcome<Tree>)
    // the degenerate self-loop: always succeeds on a live node, state untouched
    ensures p == c ==> r == (if p in t.nodes then Ok(RemoveSelfLoop(t, p)) else Err(NoSuchNode(p)))
    ensures p != c && p !in t.nodes ==> r == Err(NoSuchNode(p))
    ensures p != c && p in t.nodes && c !in t.nodes ==> r == Err(NoSuchNode(c))
    ensures p != c && p in t.nodes && c in t.nodes && c !in t.nodes[p].children ==> r == Err(RemoveNonExistentLink(c, p))
    // success: every occurrence dropped; an implied parent falls back to Unproven
    ensures p != c && p in t.nodes && c in t.nodes && c in t.nodes[p].children ==>
      !r.Err?
      && (!t.nodes[p].state.IsImplied() ==> r == Ok(RemoveEdge(t, p, c)))
      && (t.nodes[p].state == ImpliedUnproven ==> r == Ok(WithState(RemoveEdge(t, p, c), p, Unproven)))
  {
    if p == c then
      if p !in t.nodes then Err(NoSuchNode(p)) else Ok(RemoveSelfLoop(t, p))
    else if p !in t.nodes then Err(NoSuchNode(p))
    else if c !in t.nodes then Err(NoSuchNode(c))
    else if c !in t.nodes[p].children then Err(RemoveNonExistentLink(c, p))
    else
      var t1 := RemoveEdge(t, p, c);
      if t.nodes[p].state.IsImplied() then
        SetStateNeverErrs(t1, p, Unproven, fuel);
        SetState(t1, p, Unproven, fuel)
      else Ok(t1)
  }

  /** `set_directly_proven`. The source unwraps the lookup, so a missing node panics. */
  function SetDirectlyProven(t: Tree, id: Handle, fuel: nat): (r: Outcome<Tree>)
    ensures id !in t.nodes ==> r == Panic
    ensures !r.Err?
    ensures id in t.nodes && t.nodes[id].state.IsProven() ==> r == Ok(WithState(t, id, DirectlyProven))
  {
    SetStateNeverErrs(t, id, DirectlyProven, fuel);
    SetState(t, id, DirectlyProven, fuel)
  }

  /** `set_implied`: `ImpliedProven` when every current child is proven, else
      `ImpliedUnproven`, then the usual notification. */
  function SetImplied(t: Tree, id: Handle, fuel: nat): (r: Outcome<Tree>)
    ensures id !in t.nodes ==> r == Panic
    ensures id in t.nodes && NoDangling(t) && t.nodes[id].state.IsProven() == AllProven(t, t.nodes[id].children) ==>
      r == Ok(WithState(t, id, if AllProven(t, t.nodes[id].children) then ImpliedProven else ImpliedUnproven))
  {
    Rederive(t, id, fuel)
  }

  // ---------------------------------------------------------------------------------------
  // The trickle never reports a typed error

  lemma {:induction false} SetStateNeverErrs(t: Tree, id: Handle, s: ProofState, fuel: nat)
    ensures !SetState(t, id, s, fuel).Err?
    decreases fuel, 3
  {
    if id in t.nodes && t.nodes[id].state.IsProven() != s.IsProven() {
      NotifyNeverErrs(WithState(t, id, s), t.nodes[id].parents, fuel);
    }
  }

  lemma {:induction false} NotifyNeverErrs(t: Tree, ps: seq<Handle>, fuel: nat)
    ensures !NotifyParents(t, ps, fuel).Err?
    decreases fuel, 2, |ps|
  {
    if ps != [] {
      PropagationNeverErrs(t, ps[0], fuel);
      var r := OnChildChange(t, ps[0], fuel);
      if r.Ok? {
        NotifyNeverErrs(r.value, ps[1..], fuel);
      }
    }
  }

  lemma {:induction false} PropagationNeverErrs(t: Tree, id: Handle, fuel: nat)
    ensures !OnChildChange(t, id, fuel).Err?
    decreases fuel, 1
  {
    if id in t.nodes && t.nodes[id].state.IsImplied() && fuel > 0 {
      match CheckChildren(t, id)
      case None =>
      case Some(all) =>
        SetStateNeverErrs(t, id, if all then ImpliedProven else ImpliedUnproven, fuel - 1);
    }
  }
}
