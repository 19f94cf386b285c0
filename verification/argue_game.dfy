/** `GameState` of argue-rust/src/model.rs: one proof tree, one adjudicator timer, and the
    handling of one client command.

    A command is handled into the list of messages it emits, in order: each either broadcast
    to every player or a reply to the requesting player (the messenger applies them, see
    `Deliver`), together with the requests put to the adjudicator. The adjudicator endpoint
    is the parameter `oracle`; the clock is the parameter `now`. A panic of the source (an
    `unwrap` on a missing handle) is `Crashed`, as is a trickle deeper than `Fuel(tree)`,
    which `KeepsInvariants` shows cannot happen on a well-formed agreeing tree. A crash
    keeps the messages already handed to the messenger and the requests already put to the
    adjudicator before the panic; the game after it is gone. */
module ArgueGame {
  import opened ProofGraph
  import opened Protocol
  import opened Cooldown
  import Propagation
  import GraphInvariants
  import ArgueAi
  import Messenger

  datatype Game = Game(tree: Tree, ai: Ai)

  datatype Effect = Broadcast(msg: ServerMessage) | Reply(msg: ServerMessage, player: Messenger.PlayerId)

  datatype Handled = Handled(game: Game, effects: seq<Effect>, requests: seq<Request>)
                   | Crashed(effects: seq<Effect>, requests: seq<Request>)

  /** `Result<(), ProofError>` of a command body. */
  datatype Status = Done | Failed(error: ProofError)

  /** A command body before the common tail of `on_incoming_message`: the game, the messages
      so far, the requests, the status and the `state_change` flag. */
  datatype Body = Body(game: Game, effects: seq<Effect>, requests: seq<Request>, status: Status, changed: bool)
                | BodyCrashed(effects: seq<Effect>, requests: seq<Request>)

  /** `GameState::new`: a tree holding only the root, and an expired timer. */
  function NewGame(rootStatement: string, maxCooldown: nat, now: nat): (g: Game)
    ensures WellFormed(g.tree) && Consistent(g.tree) && g.tree.nodes.Keys == {g.tree.root}
    ensures g.ai.maxCooldown == maxCooldown && CheckCooldown(g.ai, now).1.Ready?
  {
    Game(New(rootStatement), NewAi(now, maxCooldown))
  }

  /** The broadcast after a successful tree-changing command: the snapshot, then `Win` if
      the root is proven. */
  function Announce(t: Tree): (es: seq<Effect>)
    requires t.root in t.nodes
    ensures |es| >= 1 && es[0] == Broadcast(GameState(AsDto(t)))
    ensures Broadcast(Win) in es <==> ProofComplete(t)
  {
    [Broadcast(GameState(AsDto(t)))] + (if ProofComplete(t) then [Broadcast(Win)] else [])
  }

  /** The outcome of a tree operation as a command body. */
  function Apply(g: Game, o: Outcome<Tree>): (b: Body)
    ensures o.Ok? ==> b == Body(g.(tree := o.value), [], [], Done, true)
    ensures o.Err? ==> b == Body(g, [], [], Failed(o.error), true)
    ensures o.Panic? || o.OutOfFuel? ==> b == BodyCrashed([], [])
  {
    match o
    case Ok(t) => Body(g.(tree := t), [], [], Done, true)
    case Err(e) => Body(g, [], [], Failed(e), true)
    case _ => BodyCrashed([], [])
  }

  /** The match of `on_incoming_message`. Link and Unlink name the premise first, the tree
      operations the conclusion (the parent) first. */
  function Handle(g: Game, cmd: ClientMessage, player: Messenger.PlayerId, now: nat, oracle: Request -> AiReply): Body {
    var fuel := Propagation.Fuel(g.tree);
    match cmd
    case Add(statement) =>
      var (t, h) := AddNode(g.tree, statement);
      Body(g.(tree := t), [Reply(NewNodeId(h), player)], [], Done, true)
    case GetGameState =>
      Body(g, [Reply(GameState(AsDto(g.tree)), player)], [], Done, false)
    case Link(premise, conclusion) => Apply(g, ProofGraph.Link(g.tree, conclusion, premise, fuel))
    case Unlink(premise, conclusion) => Apply(g, ProofGraph.Unlink(g.tree, conclusion, premise, fuel))
    case Delete(id) => Apply(g, RemoveNode(g.tree, id, fuel))
    case Edit(id, statement) => Apply(g, ChangeNodeStatement(g.tree, id, statement, fuel))
    case ProveDirect(id) => ProveDirect(g, id, now, oracle)
    case ProveImplication(id) => ProveImplication(g, id, now, oracle)
  }

  /** `prove_direct`: announce the pause, look the statement up (an unknown id is an error,
      before the timer is consulted), then ask the adjudicator if the timer allows. */
  function ProveDirect(g: Game, id: Handle, now: nat, oracle: Request -> AiReply): (b: Body)
    ensures |b.effects| >= 1 && b.effects[0] == Broadcast(AICooldown(g.ai.maxCooldown))
    ensures id !in g.tree.nodes ==> b == Body(g, [Broadcast(AICooldown(g.ai.maxCooldown))], [], Failed(NoSuchNode(id)), false)
    // a request is put exactly when the timer has run out, and restarts it
    ensures id in g.tree.nodes ==>
      (g.ai.cooldownUntil <= now <==> b.requests == [Request(ArgueAi.DirectSystem(), ArgueAi.StatementMessage(g.tree.nodes[id].statement))])
    ensures b.Body? ==> b.game.ai == CheckCooldown(g.ai, now).0 || b.game == g
    ensures b.Body? && b.requests != [] ==> b.game.ai == g.ai.(cooldownUntil := now + g.ai.maxCooldown)
    // the tree changes only through `set_directly_proven`, which is the only way to crash
    ensures var o := SetDirectlyProven(g.tree, id, Propagation.Fuel(g.tree));
      && (b.Body? ==> b.game.tree == g.tree || (o.Ok? && b.game.tree == o.value))
      && (b.BodyCrashed? ==> !o.Ok?)
    // a crash comes after the pause notice, the request comment and the request
    ensures b.BodyCrashed? ==> |b.effects| == 2 && b.effects[1].Broadcast? && b.effects[1].msg.Comment? && |b.requests| == 1
  {
    var pause := [Broadcast(AICooldown(g.ai.maxCooldown))];
    if id !in g.tree.nodes then Body(g, pause, [], Failed(NoSuchNode(id)), false)
    else
      var statement := g.tree.nodes[id].statement;
      var (ai, check) := CheckCooldown(g.ai, now);
      if check.Refused? then
        Body(g.(ai := ai), pause + [Broadcast(Comment(id, check.message, false))], [], Done, false)
      else
        var req := Request(ArgueAi.DirectSystem(), ArgueAi.StatementMessage(statement));
        var shown := pause + [Broadcast(Comment(id, ArgueAi.RequestComment(req.system, req.user), true))];
        Conclude(g.(ai := ai), id, req, shown, ArgueAi.ParseAiResult(oracle(req)),
                 SetDirectlyProven(g.tree, id, Propagation.Fuel(g.tree)))
  }

  /** `prove_implication`: as `prove_direct`, but the request lists the premises, and a
      statement without premises is answered with a comment before the timer is consulted. */
  function ProveImplication(g: Game, id: Handle, now: nat, oracle: Request -> AiReply): (b: Body)
    ensures |b.effects| >= 1 && b.effects[0] == Broadcast(AICooldown(g.ai.maxCooldown))
    ensures id !in g.tree.nodes ==> b == Body(g, [Broadcast(AICooldown(g.ai.maxCooldown))], [], Failed(NoSuchNode(id)), false)
    // no premises: a comment, the timer untouched
    ensures id in g.tree.nodes && g.tree.nodes[id].children == [] ==>
      b == Body(g, [Broadcast(AICooldown(g.ai.maxCooldown)), Broadcast(Comment(id, NeedPremise, false))], [], Done, false)
    // otherwise a request is put exactly when the timer has run out, and restarts it
    ensures id in g.tree.nodes && g.tree.nodes[id].children != [] && GetPremises(g.tree, id).Ok? ==>
      (g.ai.cooldownUntil <= now <==>
         b.requests == [Request(ArgueAi.ImplicationSystem(),
                                ArgueAi.ImplicationMessage(GetPremises(g.tree, id).value, g.tree.nodes[id].statement))])
    ensures b.Body? ==> b.game.ai == CheckCooldown(g.ai, now).0 || b.game == g
    ensures b.Body? && b.requests != [] ==> b.game.ai == g.ai.(cooldownUntil := now + g.ai.maxCooldown)
    // the tree changes only through `set_implied`; a crash is that or a dangling premise
    ensures var o := SetImplied(g.tree, id, Propagation.Fuel(g.tree));
      && (b.Body? ==> b.game.tree == g.tree || (o.Ok? && b.game.tree == o.value))
      && (b.BodyCrashed? ==> !GetPremises(g.tree, id).Ok? || !o.Ok?)
    // a dangling premise crashes after the pause notice alone; `set_implied` after the
    // request comment and the request
    ensures id in g.tree.nodes && !GetPremises(g.tree, id).Ok? ==>
      b == BodyCrashed([Broadcast(AICooldown(g.ai.maxCooldown))], [])
    ensures b.BodyCrashed? && GetPremises(g.tree, id).Ok? ==>
      |b.effects| == 2 && b.effects[1].Broadcast? && b.effects[1].msg.Comment? && |b.requests| == 1
  {
    var pause := [Broadcast(AICooldown(g.ai.maxCooldown))];
    if id !in g.tree.nodes then Body(g, pause, [], Failed(NoSuchNode(id)), false)
    else
      var conclusion := g.tree.nodes[id].statement;
      match GetPremises(g.tree, id)
      case Ok(premises) =>
        if |premises| == 0 then
          var note := Broadcast(Comment(id, NeedPremise, false));
          assert pause + [note] == [Broadcast(AICooldown(g.ai.maxCooldown)), note];
          Body(g, pause + [note], [], Done, false)
        else
          var (ai, check) := CheckCooldown(g.ai, now);
          if check.Refused? then
            Body(g.(ai := ai), pause + [Broadcast(Comment(id, check.message, false))], [], Done, false)
          else
            var req := Request(ArgueAi.ImplicationSystem(), ArgueAi.ImplicationMessage(premises, conclusion));
            var shown := pause + [Broadcast(Comment(id, ArgueAi.RequestComment(req.system, req.user), true))];
            Conclude(g.(ai := ai), id, req, shown, ArgueAi.ParseAiResult(oracle(req)),
                     SetImplied(g.tree, id, Propagation.Fuel(g.tree)))
      case _ => BodyCrashed(pause, [])
  }

  /** After the adjudicator answered: on acceptance the tree update `accepted` is applied and
      the explanation shown as a success; on rejection the tree is kept and the explanation
      shown as a failure. */
  function Conclude(g: Game, id: Handle, req: Request, shown: seq<Effect>, ruling: Ruling, accepted: Outcome<Tree>): (b: Body)
    ensures b.requests == [req]
    ensures b.Body? ==> b.status == Done
    // `set_...` runs before the verdict is shown, so a crash keeps only what was shown
    ensures b.BodyCrashed? ==> b.effects == shown
    ensures b.Body? ==> b.effects == shown + [Broadcast(Comment(id, ruling.explanation, ruling.Accepted?))]
    ensures b.Body? ==> (b.changed <==> ruling.Accepted?)
    ensures ruling.Rejected? ==> b == Body(g, shown + [Broadcast(Comment(id, ruling.explanation, false))], [req], Done, false)
    ensures ruling.Accepted? ==> (b.Body? <==> accepted.Ok?)
    ensures ruling.Accepted? && accepted.Ok? ==> b.game == g.(tree := accepted.value)
    ensures b.Body? ==> b.game.ai == g.ai
  {
    match ruling
    case Accepted(x) =>
      (match accepted
       case Ok(t) => Body(g.(tree := t), shown + [Broadcast(Comment(id, x, true))], [req], Done, true)
       case _ => BodyCrashed(shown, [req]))
    case Rejected(x) => Body(g, shown + [Broadcast(Comment(id, x, false))], [req], Done, false)
  }

  /** `on_incoming_message`: the command body, then the common tail. */
  function OnIncomingMessage(g: Game, cmd: ClientMessage, player: Messenger.PlayerId, now: nat,
                             oracle: Request -> AiReply): (r: Handled)
    // an unknown statement: the pause notice, then the error to the requester, nothing else
    ensures IsProve(cmd) && cmd.id !in g.tree.nodes ==>
      r == Handled(g, [Broadcast(AICooldown(g.ai.maxCooldown)), Reply(Error(NoSuchNode(cmd.id)), player)], [])
    // an implication without premises: a comment, no request, the timer untouched
    ensures cmd.ProveImplication? && cmd.id in g.tree.nodes && g.tree.nodes[cmd.id].children == [] ==>
      r == Handled(g, [Broadcast(AICooldown(g.ai.maxCooldown)), Broadcast(Comment(cmd.id, NeedPremise, false))], [])
  {
    var pause := Broadcast(AICooldown(g.ai.maxCooldown));
    assert IsProve(cmd) ==>
      [pause] + [Reply(Error(NoSuchNode(cmd.id)), player)] == [pause, Reply(Error(NoSuchNode(cmd.id)), player)];
    Finish(Handle(g, cmd, player, now, oracle), player)
  }

  /** The common tail: an error reply to the requester if the body failed, or else the
      snapshot broadcast (and `Win`) if the tree may have changed. The root lookup of
      `proof_complete` is expected to succeed; if it fails, the snapshot is already out. */
  function Finish(b: Body, player: Messenger.PlayerId): Handled {
    match b
    case BodyCrashed(es, rq) => Crashed(es, rq)
    case Body(g1, es, rq, status, changed) =>
      if status.Failed? then Handled(g1, es + [Reply(Error(status.error), player)], rq)
      else if !changed then Handled(g1, es, rq)
      else if g1.tree.root !in g1.tree.nodes then Crashed(es + [Broadcast(GameState(AsDto(g1.tree)))], rq)
      else Handled(g1, es + Announce(g1.tree), rq)
  }

  /** Hands each message to the messenger: a broadcast to `send`, a reply to `reply`. */
  function Deliver(m: Messenger.BroadcastMessenger<ServerMessage>, es: seq<Effect>): Messenger.BroadcastMessenger<ServerMessage>
    decreases |es|
  {
    if es == [] then m
    else
      var m1 := match es[0]
        case Broadcast(msg) => Messenger.Send(m, msg)
        case Reply(msg, p) => Messenger.Reply(m, msg, p);
      Deliver(m1, es[1..])
  }

  // ---------------------------------------------------------------------------------------
  // What a command emits

  /** Some message is an error reply. */
  predicate ErrorReplied(es: seq<Effect>) {
    exists i :: 0 <= i < |es| && es[i].Reply? && es[i].msg.Error?
  }

  /** Some message broadcasts the tree. */
  predicate TreeBroadcast(es: seq<Effect>) {
    exists i :: 0 <= i < |es| && es[i].Broadcast? && es[i].msg.GameState?
  }

  /** No error reply, tree broadcast or win notice. */
  predicate Quiet(es: seq<Effect>) {
    forall i :: 0 <= i < |es| ==>
      !(es[i].Reply? && es[i].msg.Error?) && !(es[i].Broadcast? && (es[i].msg.GameState? || es[i].msg.Win?))
  }

  /** The adjudicator was asked once and accepted. */
  predicate AcceptedOnce(requests: seq<Request>, oracle: Request -> AiReply) {
    |requests| == 1 && ArgueAi.ParseAiResult(oracle(requests[0])).Accepted?
  }

  /** What every command body guarantees before the common tail: it emits no error reply,
      tree broadcast or win; a failed body changed nothing and emitted at most the pause
      notice; a successful body asks for the broadcast exactly for the tree-changing
      commands and for an accepted proof. */
  lemma BodyFacts(g: Game, cmd: ClientMessage, player: Messenger.PlayerId, now: nat, oracle: Request -> AiReply)
    ensures var b := Handle(g, cmd, player, now, oracle);
      b.Body? ==>
        && Quiet(b.effects)
        && AddressedTo(b.effects, player)
        && |b.requests| <= 1
        && (!IsProve(cmd) ==> b.requests == [])
        && (b.status.Failed? ==>
              b.game == g && b.requests == [] && |b.effects| <= 1
              && forall i :: 0 <= i < |b.effects| ==> b.effects[i] == Broadcast(AICooldown(g.ai.maxCooldown)))
        && (b.status.Done? ==> (b.changed <==> ChangesTree(cmd) || (IsProve(cmd) && AcceptedOnce(b.requests, oracle))))
  {
    match cmd
    case ProveDirect(id) => ProveDirectFacts(g, id, player, now, oracle);
    case ProveImplication(id) => ProveImplicationFacts(g, id, player, now, oracle);
    case _ =>
  }

  /** `BodyFacts` of a prove body. */
  ghost predicate ProveBodyFacts(g: Game, b: Body, player: Messenger.PlayerId, oracle: Request -> AiReply) {
    b.Body? ==>
      && Quiet(b.effects)
      && AddressedTo(b.effects, player)
      && |b.requests| <= 1
      && (b.status.Failed? ==>
            b.game == g && b.requests == [] && |b.effects| <= 1
            && forall i :: 0 <= i < |b.effects| ==> b.effects[i] == Broadcast(AICooldown(g.ai.maxCooldown)))
      && (b.status.Done? ==> (b.changed <==> AcceptedOnce(b.requests, oracle)))
  }

  lemma ProveDirectFacts(g: Game, id: Handle, player: Messenger.PlayerId, now: nat, oracle: Request -> AiReply)
    ensures ProveBodyFacts(g, ProveDirect(g, id, now, oracle), player, oracle)
  {
    var b := ProveDirect(g, id, now, oracle);
    if b.Body? && b.requests != [] {
      assert |b.effects| == 3;
    }
  }

  lemma ProveImplicationFacts(g: Game, id: Handle, player: Messenger.PlayerId, now: nat, oracle: Request -> AiReply)
    ensures ProveBodyFacts(g, ProveImplication(g, id, now, oracle), player, oracle)
  {
    var b := ProveImplication(g, id, now, oracle);
    if b.Body? && b.requests != [] {
      assert |b.effects| == 3;
    }
  }

  /** What the common tail adds to a quiet body: the error reply exactly when it failed,
      the tree broadcast exactly when it succeeded and changed the tree, `Win` exactly when
      moreover the root is proven. */
  lemma FinishFacts(b: Body, player: Messenger.PlayerId)
    requires b.Body? && Quiet(b.effects)
    ensures var r := Finish(b, player);
      r.Handled? ==>
        && r.game == b.game && r.requests == b.requests
        && (ErrorReplied(r.effects) <==> b.status.Failed?)
        && (b.status.Failed? ==> r.effects == b.effects + [Reply(Error(b.status.error), player)])
        && (TreeBroadcast(r.effects) <==> b.status.Done? && b.changed)
        && (Broadcast(Win) in r.effects <==>
              b.status.Done? && b.changed && b.game.tree.root in b.game.tree.nodes && ProofComplete(b.game.tree))
  {
    var r := Finish(b, player);
    var es := b.effects;
    if r.Handled? {
      if b.status.Failed? {
        var last := Reply(Error(b.status.error), player);
        assert r.effects == es + [last];
        assert r.effects[|es|] == last;
        assert ErrorReplied(r.effects);
      } else if !b.changed {
        assert r.effects == es;
      } else {
        var t := b.game.tree;
        var tail := Announce(t);
        assert r.effects == es + tail;
        assert r.effects[|es|] == Broadcast(GameState(AsDto(t)));
        assert Broadcast(Win) in r.effects <==> Broadcast(Win) in tail by {
          if Broadcast(Win) in r.effects {
            var i :| 0 <= i < |r.effects| && r.effects[i] == Broadcast(Win);
            if i >= |es| {
              assert tail[i - |es|] == Broadcast(Win);
            }
          }
        }
      }
    }
  }

  /** The common tail replies to nobody but the requester. */
  lemma FinishAddressed(b: Body, player: Messenger.PlayerId)
    requires b.Body? && AddressedTo(b.effects, player)
    ensures var r := Finish(b, player); r.Handled? ==> AddressedTo(r.effects, player)
  {
    var r := Finish(b, player);
    if r.Handled? && !b.status.Failed? && b.changed {
      var tail := Announce(b.game.tree);
      assert r.effects == b.effects + tail;
    }
  }

  /** The dispatch rule of `on_incoming_message`, for every command, clock and adjudicator:
      - an error is answered to the requester alone, with at most the pause notice before
        it, and changes nothing;
      - the tree is broadcast exactly when there is no error and the command changes the
        tree or a proof was accepted;
      - `Win` follows exactly when the tree is broadcast and the root is proven. */
  lemma DispatchRule(g: Game, cmd: ClientMessage, player: Messenger.PlayerId, now: nat, oracle: Request -> AiReply)
    ensures var r := OnIncomingMessage(g, cmd, player, now, oracle);
      r.Handled? ==>
        && (ErrorReplied(r.effects) ==>
              && r.game == g && r.requests == [] && 1 <= |r.effects| <= 2
              && r.effects[|r.effects| - 1].Reply? && r.effects[|r.effects| - 1].player == player
              && (forall i :: 0 <= i < |r.effects| - 1 ==> r.effects[i] == Broadcast(AICooldown(g.ai.maxCooldown))))
        && (TreeBroadcast(r.effects) <==>
              !ErrorReplied(r.effects) && (ChangesTree(cmd) || (IsProve(cmd) && AcceptedOnce(r.requests, oracle))))
        && (Broadcast(Win) in r.effects <==>
              TreeBroadcast(r.effects) && r.game.tree.root in r.game.tree.nodes && ProofComplete(r.game.tree))
  {
    var b := Handle(g, cmd, player, now, oracle);
    BodyFacts(g, cmd, player, now, oracle);
    if b.Body? {
      FinishFacts(b, player);
    }
  }

  // ---------------------------------------------------------------------------------------
  // Individual commands

  /** A tree command through the common tail: a typed error is replied to the requester
      and changes nothing; a success with a live root keeps the new tree and replies no
      error. */
  lemma ApplyFinish(g: Game, o: Outcome<Tree>, player: Messenger.PlayerId)
    requires o.Ok? || o.Err?
    requires o.Ok? ==> o.value.root in o.value.nodes
    ensures var r := Finish(Apply(g, o), player);
      && r.Handled?
      && (ErrorReplied(r.effects) <==> o.Err?)
      && (o.Err? ==> r == Handled(g, [Reply(Error(o.error), player)], []))
      && (o.Ok? ==> r == Handled(g.(tree := o.value), Announce(o.value), []))
  {
    var r := Finish(Apply(g, o), player);
    if o.Err? {
      assert r.effects[0] == Reply(Error(o.error), player);
    }
  }

  /** The two edge commands are their tree operations, parent first, through the tail. */
  lemma LinkHandled(g: Game, premise: Handle, conclusion: Handle, player: Messenger.PlayerId, now: nat,
                    oracle: Request -> AiReply)
    ensures OnIncomingMessage(g, Link(premise, conclusion), player, now, oracle)
      == Finish(Apply(g, ProofGraph.Link(g.tree, conclusion, premise, Propagation.Fuel(g.tree))), player)
  {
  }

  lemma UnlinkHandled(g: Game, premise: Handle, conclusion: Handle, player: Messenger.PlayerId, now: nat,
                      oracle: Request -> AiReply)
    ensures OnIncomingMessage(g, Unlink(premise, conclusion), player, now, oracle)
      == Finish(Apply(g, ProofGraph.Unlink(g.tree, conclusion, premise, Propagation.Fuel(g.tree))), player)
  {
  }

  /** `Link(premise, conclusion)` makes `premise` a child of `conclusion` (the tree
      operation takes the parent first). On a well-formed agreeing tree it never crashes; it
      fails exactly when either statement is unknown or the premise is already linked to that
      different conclusion, and otherwise leaves a well-formed agreeing tree with the edge in
      both lists: for two statements, exactly the edge added, an implied conclusion
      re-derived and only implied statements otherwise moved. */
  lemma LinkCommand(g: Game, premise: Handle, conclusion: Handle, player: Messenger.PlayerId, now: nat,
                    oracle: Request -> AiReply)
    requires WellFormed(g.tree) && Consistent(g.tree)
    ensures var r := OnIncomingMessage(g, Link(premise, conclusion), player, now, oracle);
      && r.Handled?
      && (ErrorReplied(r.effects) <==>
            !(conclusion in g.tree.nodes && premise in g.tree.nodes
              && (premise == conclusion || premise !in g.tree.nodes[conclusion].children)))
      && (!ErrorReplied(r.effects) ==>
            && WellFormed(r.game.tree) && Consistent(r.game.tree)
            && conclusion in r.game.tree.nodes && premise in r.game.tree.nodes[conclusion].children
            && premise in r.game.tree.nodes && conclusion in r.game.tree.nodes[premise].parents
            && (premise != conclusion ==> GraphInvariants.LinkedTo(g.tree, conclusion, premise, r.game.tree)))
  {
    var t := g.tree;
    var o := ProofGraph.Link(t, conclusion, premise, Propagation.Fuel(t));
    LinkHandled(g, premise, conclusion, player, now, oracle);
    LinkOutcome(t, conclusion, premise);
    ApplyFinish(g, o, player);
  }

  /** `LinkKeeps` with the error condition spelled out, parent first. */
  lemma LinkOutcome(t: Tree, p: Handle, c: Handle)
    requires WellFormed(t) && Consistent(t)
    ensures var o := ProofGraph.Link(t, p, c, Propagation.Fuel(t));
      && (o.Ok? || o.Err?)
      && (o.Err? <==> !(p in t.nodes && c in t.nodes && (c == p || c !in t.nodes[p].children)))
      && (o.Ok? ==> WellFormed(o.value) && Consistent(o.value) && p in o.value.nodes
                    && c in o.value.nodes[p].children && c in o.value.nodes && p in o.value.nodes[c].parents
                    && o.value.root in o.value.nodes)
      && (o.Ok? && p != c ==> GraphInvariants.LinkedTo(t, p, c, o.value))
  {
    GraphInvariants.LinkKeeps(t, p, c);
  }

  /** `Unlink(premise, conclusion)` removes `premise` from the children of `conclusion`. It
      fails exactly when either statement is unknown or they are not linked (a statement
      is always taken as unlinkable from itself); otherwise the premise is gone from the
      conclusion's children, and for two statements an implied conclusion falls back to
      `Unproven` with only implied statements otherwise moved. Except for the self-loop on an
      implied unproven statement, the tree stays well-formed and agreeing. */
  lemma UnlinkCommand(g: Game, premise: Handle, conclusion: Handle, player: Messenger.PlayerId, now: nat,
                      oracle: Request -> AiReply)
    requires WellFormed(g.tree) && Consistent(g.tree)
    requires premise == conclusion && conclusion in g.tree.nodes ==> g.tree.nodes[conclusion].state != ImpliedUnproven
    ensures var r := OnIncomingMessage(g, Unlink(premise, conclusion), player, now, oracle);
      && r.Handled?
      && (ErrorReplied(r.effects) <==>
            !(conclusion in g.tree.nodes && premise in g.tree.nodes
              && (premise == conclusion || premise in g.tree.nodes[conclusion].children)))
      && (!ErrorReplied(r.effects) ==>
            && WellFormed(r.game.tree) && Consistent(r.game.tree)
            && conclusion in r.game.tree.nodes && premise !in r.game.tree.nodes[conclusion].children
            && (premise != conclusion ==> GraphInvariants.UnlinkedFrom(g.tree, conclusion, premise, r.game.tree)))
  {
    var t := g.tree;
    var o := ProofGraph.Unlink(t, conclusion, premise, Propagation.Fuel(t));
    UnlinkHandled(g, premise, conclusion, player, now, oracle);
    UnlinkOutcome(t, conclusion, premise);
    ApplyFinish(g, o, player);
  }

  /** `UnlinkKeeps` with the error condition spelled out, parent first. */
  lemma UnlinkOutcome(t: Tree, p: Handle, c: Handle)
    requires WellFormed(t) && Consistent(t)
    requires p == c && p in t.nodes ==> t.nodes[p].state != ImpliedUnproven
    ensures var o := ProofGraph.Unlink(t, p, c, Propagation.Fuel(t));
      && (o.Ok? || o.Err?)
      && (o.Err? <==> !(p in t.nodes && c in t.nodes && (c == p || c in t.nodes[p].children)))
      && (o.Ok? ==> WellFormed(o.value) && Consistent(o.value) && p in o.value.nodes
                    && c !in o.value.nodes[p].children && o.value.root in o.value.nodes)
      && (o.Ok? && p != c ==> GraphInvariants.UnlinkedFrom(t, p, c, o.value))
  {
    GraphInvariants.UnlinkKeeps(t, p, c);
  }

  /** The commands whose handling keeps a well-formed agreeing tree so: all but the self-loop
      unlink on an implied unproven statement and the deletion of a statement that still
      has links. */
  predicate Safe(t: Tree, cmd: ClientMessage) {
    match cmd
    case Unlink(premise, conclusion) =>
      !(premise == conclusion && conclusion in t.nodes && t.nodes[conclusion].state == ImpliedUnproven)
    case Delete(id) => id in t.nodes && id != t.root ==> t.nodes[id].children == [] && t.nodes[id].parents == []
    case _ => true
  }

  /** For every safe command, clock and adjudicator, a well-formed agreeing game never
      crashes and stays well-formed and agreeing: no unwrap in the trickle panics and the
      trickle never runs deeper than `Fuel`. */
  lemma KeepsInvariants(g: Game, cmd: ClientMessage, player: Messenger.PlayerId, now: nat, oracle: Request -> AiReply)
    requires WellFormed(g.tree) && Consistent(g.tree) && Safe(g.tree, cmd)
    ensures var r := OnIncomingMessage(g, cmd, player, now, oracle);
      r.Handled? && WellFormed(r.game.tree) && Consistent(r.game.tree)
  {
    var b := Handle(g, cmd, player, now, oracle);
    assert b.Body? && WellFormed(b.game.tree) && Consistent(b.game.tree) by {
      if IsProve(cmd) {
        ProveKeeps(g, cmd, player, now, oracle);
      } else {
        EditKeeps(g, cmd, player, now, oracle);
      }
    }
    FinishKeepsGame(b, player);
  }

  /** The tail of a body on a tree with a live root does not crash and keeps the game. */
  lemma FinishKeepsGame(b: Body, player: Messenger.PlayerId)
    requires b.Body? && b.game.tree.root in b.game.tree.nodes
    ensures Finish(b, player).Handled? && Finish(b, player).game == b.game
  {
  }

  /** The tree commands keep the invariants of a well-formed agreeing tree. */
  lemma EditKeeps(g: Game, cmd: ClientMessage, player: Messenger.PlayerId, now: nat, oracle: Request -> AiReply)
    requires WellFormed(g.tree) && Consistent(g.tree) && Safe(g.tree, cmd) && !IsProve(cmd)
    ensures var b := Handle(g, cmd, player, now, oracle);
      b.Body? && WellFormed(b.game.tree) && Consistent(b.game.tree)
  {
    var t := g.tree;
    var fuel := Propagation.Fuel(t);
    match cmd
    case Add(statement) => GraphInvariants.AddNodeKeeps(t, statement);
    case GetGameState =>
    case Link(premise, conclusion) => GraphInvariants.LinkKeeps(t, conclusion, premise);
    case Unlink(premise, conclusion) => GraphInvariants.UnlinkKeeps(t, conclusion, premise);
    case Delete(id) =>
      if id in t.nodes && id != t.root {
        GraphInvariants.RemoveIsolatedKeeps(t, id);
      }
    case Edit(id, statement) => GraphInvariants.ChangeNodeStatementKeeps(t, id, statement);
  }

  /** The prove commands keep the invariants of a well-formed agreeing tree. */
  lemma ProveKeeps(g: Game, cmd: ClientMessage, player: Messenger.PlayerId, now: nat, oracle: Request -> AiReply)
    requires WellFormed(g.tree) && Consistent(g.tree) && IsProve(cmd)
    ensures var b := Handle(g, cmd, player, now, oracle);
      b.Body? && WellFormed(b.game.tree) && Consistent(b.game.tree)
  {
    if cmd.ProveDirect? {
      ProveDirectKeeps(g, cmd.id, now, oracle);
    } else {
      ProveImplicationKeeps(g, cmd.id, now, oracle);
    }
  }

  lemma ProveDirectKeeps(g: Game, id: Handle, now: nat, oracle: Request -> AiReply)
    requires WellFormed(g.tree) && Consistent(g.tree)
    ensures var b := ProveDirect(g, id, now, oracle);
      b.Body? && WellFormed(b.game.tree) && Consistent(b.game.tree)
  {
    var t := g.tree;
    if id in t.nodes {
      var o := SetDirectlyProven(t, id, Propagation.Fuel(t));
      assert o.Ok? && WellFormed(o.value) && Consistent(o.value) by {
        GraphInvariants.SetDirectlyProvenKeeps(t, id);
      }
    }
  }

  lemma ProveImplicationKeeps(g: Game, id: Handle, now: nat, oracle: Request -> AiReply)
    requires WellFormed(g.tree) && Consistent(g.tree)
    ensures var b := ProveImplication(g, id, now, oracle);
      b.Body? && WellFormed(b.game.tree) && Consistent(b.game.tree)
  {
    var t := g.tree;
    if id in t.nodes {
      var o := SetImplied(t, id, Propagation.Fuel(t));
      assert o.Ok? && WellFormed(o.value) && Consistent(o.value) by {
        GraphInvariants.SetImpliedKeeps(t, id);
      }
      assert GetPremises(t, id).Ok?;
    }
  }

  /** Deleting a statement that is still the premise of another leaves that other statement
      pointing at the removed handle: the command succeeds, and the tree is no longer
      well-formed. */
  lemma DeleteLinkedDangles(g: Game, id: Handle, p: Handle, player: Messenger.PlayerId, now: nat, oracle: Request -> AiReply)
    requires WellFormed(g.tree) && id in g.tree.nodes && id != g.tree.root
    requires p in g.tree.nodes[id].parents && p != id
    ensures var r := OnIncomingMessage(g, Delete(id), player, now, oracle);
      r.Handled? && !ErrorReplied(r.effects) && TreeBroadcast(r.effects) && !WellFormed(r.game.tree)
  {
    var b := Handle(g, Delete(id), player, now, oracle);
    GraphInvariants.RemoveNodeDangles(g.tree, id, p);
    BodyFacts(g, Delete(id), player, now, oracle);
    FinishFacts(b, player);
  }

  /** A crash in the middle of a command keeps what was already out: proving directly a
      statement whose first parent handle is dead (as `DeleteLinkedDangles` leaves it), on an
      expired timer and with an accepting adjudicator, broadcasts the pause notice and the
      request comment and puts the request; only then does `set_directly_proven` panic in
      the notification of that parent, before the verdict is shown. */
  lemma DanglingProveCrashes(g: Game, id: Handle, player: Messenger.PlayerId, now: nat, oracle: Request -> AiReply)
    requires id in g.tree.nodes && !g.tree.nodes[id].state.IsProven()
    requires g.tree.nodes[id].parents != [] && g.tree.nodes[id].parents[0] !in g.tree.nodes
    requires g.ai.cooldownUntil <= now
    requires ArgueAi.ParseAiResult(oracle(Request(ArgueAi.DirectSystem(), ArgueAi.StatementMessage(g.tree.nodes[id].statement)))).Accepted?
    ensures var req := Request(ArgueAi.DirectSystem(), ArgueAi.StatementMessage(g.tree.nodes[id].statement));
      OnIncomingMessage(g, ClientMessage.ProveDirect(id), player, now, oracle)
        == Crashed([Broadcast(AICooldown(g.ai.maxCooldown)), Broadcast(Comment(id, ArgueAi.RequestComment(req.system, req.user), true))],
                   [req])
  {
    var t := g.tree;
    var t1 := WithState(t, id, DirectlyProven);
    assert NotifyParents(t1, t.nodes[id].parents, Propagation.Fuel(t)) == Panic;
    assert SetDirectlyProven(t, id, Propagation.Fuel(t)) == Panic;
  }

  /** Once a prove command has put its request at `now`, every prove command before
      `now + maxCooldown` is answered without a request, by anyone. */
  lemma CooldownBlocksSecondProve(g: Game, first: ClientMessage, second: ClientMessage, p1: Messenger.PlayerId,
                                  p2: Messenger.PlayerId, now: nat, later: nat, oracle: Request -> AiReply)
    requires IsProve(first) && IsProve(second)
    requires var r := OnIncomingMessage(g, first, p1, now, oracle); r.Handled? && r.requests != []
    requires now <= later < now + g.ai.maxCooldown
    ensures var g1 := OnIncomingMessage(g, first, p1, now, oracle).game;
      var r := OnIncomingMessage(g1, second, p2, later, oracle);
      r.Handled? ==> r.requests == []
  {
    var b := Handle(g, first, p1, now, oracle);
    BodyFacts(g, first, p1, now, oracle);
    FinishFacts(b, p1);
    var g1 := b.game;
    assert g1.ai.cooldownUntil == now + g.ai.maxCooldown;
  }

  // ---------------------------------------------------------------------------------------
  // Delivery

  /** The messages among `es` that reach player `p`: every broadcast and the replies to `p`. */
  function Received(es: seq<Effect>, p: Messenger.PlayerId): seq<ServerMessage> {
    if es == [] then []
    else
      (match es[0]
       case Broadcast(msg) => [msg]
       case Reply(msg, q) => if q == p then [msg] else [])
      + Received(es[1..], p)
  }

  /** The broadcast messages among `es`. */
  function Broadcasts(es: seq<Effect>): seq<ServerMessage> {
    if es == [] then []
    else (if es[0].Broadcast? then [es[0].msg] else []) + Broadcasts(es[1..])
  }

  /** Every reply is to `p`. */
  predicate AddressedTo(es: seq<Effect>, p: Messenger.PlayerId) {
    forall i :: 0 <= i < |es| && es[i].Reply? ==> es[i].player == p
  }

  /** Delivering the messages appends to every registered player exactly the messages meant
      for them, in order, and registers or drops nobody. */
  lemma {:induction false} DeliverReaches(m: Messenger.BroadcastMessenger<ServerMessage>, es: seq<Effect>)
    ensures var m1 := Deliver(m, es);
      && m1.logs.Keys == m.logs.Keys && m1.nextId == m.nextId
      && forall p | p in m.logs :: m1.logs[p] == m.logs[p] + Received(es, p)
    decreases |es|
  {
    if es != [] {
      var m1 := match es[0]
        case Broadcast(msg) => Messenger.Send(m, msg)
        case Reply(msg, q) => Messenger.Reply(m, msg, q);
      DeliverReaches(m1, es[1..]);
    }
  }

  /** A player who did not send the command receives exactly the broadcasts. */
  lemma {:induction false} OthersReceiveBroadcasts(es: seq<Effect>, sender: Messenger.PlayerId, p: Messenger.PlayerId)
    requires AddressedTo(es, sender) && p != sender
    ensures Received(es, p) == Broadcasts(es)
    decreases |es|
  {
    if es != [] {
      assert AddressedTo(es[1..], sender) by {
        forall i | 0 <= i < |es[1..]| && es[1..][i].Reply?
          ensures es[1..][i].player == sender
        {
          assert es[1..][i] == es[i + 1];
        }
      }
      OthersReceiveBroadcasts(es[1..], sender, p);
    }
  }

  /** After a command is handled and delivered, every other registered player has received
      exactly its broadcasts, in order. */
  lemma OthersSeeBroadcasts(g: Game, cmd: ClientMessage, player: Messenger.PlayerId, now: nat, oracle: Request -> AiReply,
                            m: Messenger.BroadcastMessenger<ServerMessage>, q: Messenger.PlayerId)
    requires q in m.logs && q != player
    ensures var r := OnIncomingMessage(g, cmd, player, now, oracle);
      r.Handled? ==> q in Deliver(m, r.effects).logs && Deliver(m, r.effects).logs[q] == m.logs[q] + Broadcasts(r.effects)
  {
    var b := Handle(g, cmd, player, now, oracle);
    var r := OnIncomingMessage(g, cmd, player, now, oracle);
    if r.Handled? {
      BodyFacts(g, cmd, player, now, oracle);
      FinishAddressed(b, player);
      DeliverReaches(m, r.effects);
      OthersReceiveBroadcasts(r.effects, player, q);
    }
  }
}
