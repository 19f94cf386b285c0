/** `GameState` of backend/src/model.rs, the later single-client variant of the server. It
    differs from `ArgueGame` in three ways: every message goes to the one socket (`reply` is
    `send`), no request comment is shown before the adjudicator is asked, and the system
    prompts stand alone and the verdict tag is cut from the explanation (`BackendAi`).

    backend/src/model/proof.rs is not part of this model; its `TreeState` is taken to be the
    one of argue-rust/src/model/proof.rs (`ProofGraph`), whose interface it matches. */
module BackendGame {
  import opened ProofGraph
  import opened Protocol
  import opened Cooldown
  import Propagation
  import BackendAi
  import ArgueAi
  import ArgueGame
  import GraphInvariants
  import Messenger

  /** `Messenger`: the sending half of the one socket, abstracted to what it was sent. */
  datatype Sink = Sink(sent: seq<ServerMessage>)

  /** `send`: the message goes out on the socket. */
  function Send(s: Sink, msg: ServerMessage): (r: Sink)
    ensures r.sent == s.sent + [msg]
  {
    Sink(s.sent + [msg])
  }

  /** `reply`, meant to answer only the requesting client, sends on the one socket. */
  function Reply(s: Sink, msg: ServerMessage): (r: Sink)
    ensures r.sent == s.sent + [msg]
  {
    Send(s, msg)
  }

  /** The socket behaves as a broadcast messenger with exactly one registered player: a send
      and a reply both reach that player, as the argue-rust messenger does when one player is
      connected. */
  lemma SinkIsOnePlayer(s: Sink, msg: ServerMessage, p: Messenger.PlayerId)
    ensures var m := Messenger.BroadcastMessenger(map[p := s.sent], p + 1);
      && Messenger.Valid(m)
      && Messenger.Send(m, msg).logs == map[p := Send(s, msg).sent]
      && Messenger.Reply(m, msg, p).logs == map[p := Reply(s, msg).sent]
      && Messenger.Reply(m, msg, p) == Messenger.Send(m, msg)
  {
    var m := Messenger.BroadcastMessenger(map[p := s.sent], p + 1);
    Messenger.ReplyToOnlyPlayer(m, msg, p);
    assert Messenger.Send(m, msg).logs == map[p := Send(s, msg).sent];
  }

  /** As in `ArgueGame`, a crash keeps what was sent and asked before the panic. */
  datatype Handled = Handled(game: ArgueGame.Game, sent: seq<ServerMessage>, requests: seq<Request>)
                   | Crashed(sent: seq<ServerMessage>, requests: seq<Request>)

  /** A command body: the game, the messages so far, the requests, the status and the
      `state_change` flag. */
  datatype Body = Body(game: ArgueGame.Game, sent: seq<ServerMessage>, requests: seq<Request>,
                       status: ArgueGame.Status, changed: bool)
                | BodyCrashed(sent: seq<ServerMessage>, requests: seq<Request>)

  function Apply(g: ArgueGame.Game, o: Outcome<Tree>): (b: Body)
    ensures o.Ok? ==> b == Body(g.(tree := o.value), [], [], ArgueGame.Done, true)
    ensures o.Err? ==> b == Body(g, [], [], ArgueGame.Failed(o.error), true)
    ensures o.Panic? || o.OutOfFuel? ==> b == BodyCrashed([], [])
  {
    match o
    case Ok(t) => Body(g.(tree := t), [], [], ArgueGame.Done, true)
    case Err(e) => Body(g, [], [], ArgueGame.Failed(e), true)
    case _ => BodyCrashed([], [])
  }

  /** The match of `on_incoming_message`; the tree commands are those of argue-rust. */
  function Handle(g: ArgueGame.Game, cmd: ClientMessage, now: nat, oracle: Request -> AiReply): Body {
    var fuel := Propagation.Fuel(g.tree);
    match cmd
    case Add(statement) =>
      var (t, h) := AddNode(g.tree, statement);
      Body(g.(tree := t), [NewNodeId(h)], [], ArgueGame.Done, true)
    case GetGameState => Body(g, [GameState(AsDto(g.tree))], [], ArgueGame.Done, false)
    case Link(premise, conclusion) => Apply(g, ProofGraph.Link(g.tree, conclusion, premise, fuel))
    case Unlink(premise, conclusion) => Apply(g, ProofGraph.Unlink(g.tree, conclusion, premise, fuel))
    case Delete(id) => Apply(g, RemoveNode(g.tree, id, fuel))
    case Edit(id, statement) => Apply(g, ChangeNodeStatement(g.tree, id, statement, fuel))
    case ProveDirect(id) => ProveDirect(g, id, now, oracle)
    case ProveImplication(id) => ProveImplication(g, id, now, oracle)
  }

  /** `prove_direct`: the pause notice, the lookup, then `check_statement`, whose refusal by
      the timer is shown like a rejection. The statement is sent as it is. */
  function ProveDirect(g: ArgueGame.Game, id: Handle, now: nat, oracle: Request -> AiReply): (b: Body)
    ensures id !in g.tree.nodes ==> b == Body(g, [AICooldown(g.ai.maxCooldown)], [], ArgueGame.Failed(NoSuchNode(id)), false)
    ensures id in g.tree.nodes ==>
      (g.ai.cooldownUntil <= now <==> b.requests == [Request(BackendAi.SystemMessageDirect, g.tree.nodes[id].statement)])
    // exactly two messages: the pause notice and the verdict on the statement
    ensures b.Body? && id in g.tree.nodes ==>
      |b.sent| == 2 && b.sent[0] == AICooldown(g.ai.maxCooldown) && b.sent[1].Comment? && b.sent[1].about == id
    // the tree changes only through `set_directly_proven`, which is the only way to crash
    ensures var o := SetDirectlyProven(g.tree, id, Propagation.Fuel(g.tree));
      && (b.Body? ==> b.game.tree == g.tree || (o.Ok? && b.game.tree == o.value))
      && (b.BodyCrashed? ==> !o.Ok?)
    // a crash comes after the pause notice and the request
    ensures b.BodyCrashed? ==> b.sent == [AICooldown(g.ai.maxCooldown)] && |b.requests| == 1
  {
    var pause := [AICooldown(g.ai.maxCooldown)];
    if id !in g.tree.nodes then Body(g, pause, [], ArgueGame.Failed(NoSuchNode(id)), false)
    else
      var (ai, check) := CheckCooldown(g.ai, now);
      if check.Refused? then
        Body(g.(ai := ai), pause + [Comment(id, check.message, false)], [], ArgueGame.Done, false)
      else
        var req := Request(BackendAi.SystemMessageDirect, g.tree.nodes[id].statement);
        Conclude(g.(ai := ai), id, req, pause, BackendAi.ParseAiResult(oracle(req)),
                 SetDirectlyProven(g.tree, id, Propagation.Fuel(g.tree)))
  }

  /** `prove_implication`: the pause notice, the lookups, the comment for a statement without
      premises (the timer untouched), then `check_implication`. */
  function ProveImplication(g: ArgueGame.Game, id: Handle, now: nat, oracle: Request -> AiReply): (b: Body)
    ensures id !in g.tree.nodes ==> b == Body(g, [AICooldown(g.ai.maxCooldown)], [], ArgueGame.Failed(NoSuchNode(id)), false)
    ensures id in g.tree.nodes && g.tree.nodes[id].children == [] ==>
      b == Body(g, [AICooldown(g.ai.maxCooldown), Comment(id, NeedPremise, false)], [], ArgueGame.Done, false)
    ensures id in g.tree.nodes && g.tree.nodes[id].children != [] && GetPremises(g.tree, id).Ok? ==>
      (g.ai.cooldownUntil <= now <==>
         b.requests == [Request(BackendAi.SystemMessageImplication,
                                BackendAi.ImplicationMessage(GetPremises(g.tree, id).value, g.tree.nodes[id].statement))])
    ensures var o := SetImplied(g.tree, id, Propagation.Fuel(g.tree));
      && (b.Body? ==> b.game.tree == g.tree || (o.Ok? && b.game.tree == o.value))
      && (b.BodyCrashed? ==> !GetPremises(g.tree, id).Ok? || !o.Ok?)
    // every crash comes after the pause notice; `set_implied` also after the request
    ensures b.BodyCrashed? ==>
      b.sent == [AICooldown(g.ai.maxCooldown)] && (|b.requests| == 1 <==> GetPremises(g.tree, id).Ok?)
  {
    var pause := [AICooldown(g.ai.maxCooldown)];
    if id !in g.tree.nodes then Body(g, pause, [], ArgueGame.Failed(NoSuchNode(id)), false)
    else
      var conclusion := g.tree.nodes[id].statement;
      match GetPremises(g.tree, id)
      case Ok(premises) =>
        if |premises| == 0 then
          var note := Comment(id, NeedPremise, false);
          assert pause + [note] == [AICooldown(g.ai.maxCooldown), note];
          Body(g, pause + [note], [], ArgueGame.Done, false)
        else
          var (ai, check) := CheckCooldown(g.ai, now);
          if check.Refused? then
            Body(g.(ai := ai), pause + [Comment(id, check.message, false)], [], ArgueGame.Done, false)
          else
            var req := Request(BackendAi.SystemMessageImplication, BackendAi.ImplicationMessage(premises, conclusion));
            Conclude(g.(ai := ai), id, req, pause, BackendAi.ParseAiResult(oracle(req)),
                     SetImplied(g.tree, id, Propagation.Fuel(g.tree)))
      case _ => BodyCrashed(pause, [])
  }

  /** After the adjudicator answered: apply `accepted` on acceptance, and show the
      explanation either way. */
  function Conclude(g: ArgueGame.Game, id: Handle, req: Request, shown: seq<ServerMessage>, ruling: Ruling,
                    accepted: Outcome<Tree>): (b: Body)
    ensures b.requests == [req]
    ensures b.Body? ==> b.status == ArgueGame.Done && b.game.ai == g.ai
    ensures b.BodyCrashed? ==> b.sent == shown
    ensures b.Body? ==> b.sent == shown + [Comment(id, ruling.explanation, ruling.Accepted?)]
    ensures b.Body? ==> (b.changed <==> ruling.Accepted?)
    ensures ruling.Rejected? ==> b.Body? && b.game == g
    ensures ruling.Accepted? ==> (b.Body? <==> accepted.Ok?)
    ensures ruling.Accepted? && accepted.Ok? ==> b.game == g.(tree := accepted.value)
  {
    match ruling
    case Accepted(x) =>
      (match accepted
       case Ok(t) => Body(g.(tree := t), shown + [Comment(id, x, true)], [req], ArgueGame.Done, true)
       case _ => BodyCrashed(shown, [req]))
    case Rejected(x) => Body(g, shown + [Comment(id, x, false)], [req], ArgueGame.Done, false)
  }

  /** `on_incoming_message`: the body, then the error, or the tree and `Win` when the tree may
      have changed. */
  function OnIncomingMessage(g: ArgueGame.Game, cmd: ClientMessage, now: nat, oracle: Request -> AiReply): (r: Handled)
    ensures IsProve(cmd) && cmd.id !in g.tree.nodes ==>
      r == Handled(g, [AICooldown(g.ai.maxCooldown), Error(NoSuchNode(cmd.id))], [])
    ensures cmd.ProveImplication? && cmd.id in g.tree.nodes && g.tree.nodes[cmd.id].children == [] ==>
      r == Handled(g, [AICooldown(g.ai.maxCooldown), Comment(cmd.id, NeedPremise, false)], [])
  {
    var pause := AICooldown(g.ai.maxCooldown);
    assert IsProve(cmd) ==> [pause] + [Error(NoSuchNode(cmd.id))] == [pause, Error(NoSuchNode(cmd.id))];
    Finish(Handle(g, cmd, now, oracle))
  }

  function Finish(b: Body): Handled {
    match b
    case BodyCrashed(sent, rq) => Crashed(sent, rq)
    case Body(g1, sent, rq, status, changed) =>
      if status.Failed? then Handled(g1, sent + [Error(status.error)], rq)
      else if !changed then Handled(g1, sent, rq)
      else if g1.tree.root !in g1.tree.nodes then Crashed(sent + [GameState(AsDto(g1.tree))], rq)
      else Handled(g1, sent + [GameState(AsDto(g1.tree))] + (if ProofComplete(g1.tree) then [Win] else []), rq)
  }

  // ---------------------------------------------------------------------------------------
  // Properties

  /** Some message is an error. */
  predicate HasError(sent: seq<ServerMessage>) {
    exists i :: 0 <= i < |sent| && sent[i].Error?
  }

  /** Some message is the tree. */
  predicate HasTree(sent: seq<ServerMessage>) {
    exists i :: 0 <= i < |sent| && sent[i].GameState?
  }

  /** Neither error, tree nor win. */
  predicate Quiet(sent: seq<ServerMessage>) {
    forall i :: 0 <= i < |sent| ==> !sent[i].Error? && !sent[i].GameState? && !sent[i].Win?
  }

  /** What a body sends besides the common tail: a tree only when the state was asked for,
      nothing else of the kinds the tail sends. */
  lemma BodyFacts(g: ArgueGame.Game, cmd: ClientMessage, now: nat, oracle: Request -> AiReply)
    ensures var b := Handle(g, cmd, now, oracle);
      b.Body? ==>
        && (cmd.GetGameState? ==> b.sent == [GameState(AsDto(g.tree))] && b.status.Done? && !b.changed)
        && (!cmd.GetGameState? ==> Quiet(b.sent))
        && |b.requests| <= 1
        && (!IsProve(cmd) ==> b.requests == [])
        && (b.status.Failed? ==> b.game == g && b.requests == [] && (forall i :: 0 <= i < |b.sent| ==> b.sent[i].AICooldown?))
        && (b.status.Done? ==>
              (b.changed <==> ChangesTree(cmd)
                              || (IsProve(cmd) && |b.requests| == 1 && BackendAi.ParseAiResult(oracle(b.requests[0])).Accepted?)))
  {
    match cmd
    case ProveDirect(id) => ProveDirectFacts(g, id, now, oracle);
    case ProveImplication(id) => ProveImplicationFacts(g, id, now, oracle);
    case _ =>
  }

  /** `BodyFacts` of a prove body. */
  ghost predicate ProveBodyFacts(g: ArgueGame.Game, b: Body, oracle: Request -> AiReply) {
    b.Body? ==>
      && Quiet(b.sent)
      && |b.requests| <= 1
      && (b.status.Failed? ==> b.game == g && b.requests == [] && (forall i :: 0 <= i < |b.sent| ==> b.sent[i].AICooldown?))
      && (b.status.Done? ==> (b.changed <==> |b.requests| == 1 && BackendAi.ParseAiResult(oracle(b.requests[0])).Accepted?))
  }

  lemma ProveDirectFacts(g: ArgueGame.Game, id: Handle, now: nat, oracle: Request -> AiReply)
    ensures ProveBodyFacts(g, ProveDirect(g, id, now, oracle), oracle)
  {
  }

  lemma ProveImplicationFacts(g: ArgueGame.Game, id: Handle, now: nat, oracle: Request -> AiReply)
    ensures ProveBodyFacts(g, ProveImplication(g, id, now, oracle), oracle)
  {
  }

  /** The common tail on a quiet body. */
  lemma FinishFacts(b: Body)
    requires b.Body? && Quiet(b.sent)
    ensures var r := Finish(b);
      r.Handled? ==>
        && r.game == b.game && r.requests == b.requests
        && (HasError(r.sent) <==> b.status.Failed?)
        && (HasTree(r.sent) <==> b.status.Done? && b.changed)
        && (Win in r.sent <==> b.status.Done? && b.changed && b.game.tree.root in b.game.tree.nodes && ProofComplete(b.game.tree))
  {
    var r := Finish(b);
    if r.Handled? {
      if b.status.Failed? {
        assert r.sent[|b.sent|] == Error(b.status.error);
      } else if b.changed {
        var tail := [GameState(AsDto(b.game.tree))] + (if ProofComplete(b.game.tree) then [Win] else []);
        assert r.sent == b.sent + tail;
        assert r.sent[|b.sent|] == GameState(AsDto(b.game.tree));
        assert Win in r.sent <==> Win in tail by {
          if Win in r.sent {
            var i :| 0 <= i < |r.sent| && r.sent[i] == Win;
            if i >= |b.sent| {
              assert tail[i - |b.sent|] == Win;
            }
          }
        }
      }
    }
  }

  /** The dispatch rule of the single-client server: an error is the last message and
      changes nothing; the tree is sent exactly when there is no error and the command asked
      for it, changed the tree, or a proof was accepted (a client cannot tell a requested
      tree from a pushed one); `Win` exactly when the tree was pushed and the root is proven. */
  lemma DispatchRule(g: ArgueGame.Game, cmd: ClientMessage, now: nat, oracle: Request -> AiReply)
    ensures var r := OnIncomingMessage(g, cmd, now, oracle);
      r.Handled? ==>
        && (HasError(r.sent) ==> r.game == g && r.requests == [] && r.sent[|r.sent| - 1].Error?)
        && (HasTree(r.sent) <==>
              !HasError(r.sent)
              && (cmd.GetGameState? || ChangesTree(cmd)
                  || (IsProve(cmd) && |r.requests| == 1 && BackendAi.ParseAiResult(oracle(r.requests[0])).Accepted?)))
        && (Win in r.sent <==>
              HasTree(r.sent) && !cmd.GetGameState? && r.game.tree.root in r.game.tree.nodes && ProofComplete(r.game.tree))
  {
    var b := Handle(g, cmd, now, oracle);
    BodyFacts(g, cmd, now, oracle);
    if b.Body? {
      if cmd.GetGameState? {
        assert Finish(b).sent == b.sent;
        assert Finish(b).sent[0].GameState?;
      } else {
        FinishFacts(b);
      }
    }
  }

  /** The same adjudicator opinion: every request is ruled `verdict` by both readings. */
  ghost predicate Rules(oracle1: Request -> AiReply, oracle2: Request -> AiReply, verdict: bool) {
    && (forall q :: ArgueAi.ParseAiResult(oracle1(q)).Accepted? == verdict)
    && (forall q :: BackendAi.ParseAiResult(oracle2(q)).Accepted? == verdict)
  }

  /** Both servers, from the same game, on the same command and clock, with adjudicators of
      the same opinion on the prove commands, crash alike and otherwise reach the same tree and timer and ask the
      same number of requests; they differ only in the messages they send. */
  lemma VariantsAgree(g: ArgueGame.Game, cmd: ClientMessage, player: Messenger.PlayerId, now: nat,
                      oracle1: Request -> AiReply, oracle2: Request -> AiReply, verdict: bool)
    requires IsProve(cmd) ==> Rules(oracle1, oracle2, verdict)
    ensures var r1 := ArgueGame.OnIncomingMessage(g, cmd, player, now, oracle1);
      var r2 := OnIncomingMessage(g, cmd, now, oracle2);
      && (r1.Crashed? <==> r2.Crashed?)
      && (r1.Handled? ==> r1.game == r2.game && |r1.requests| == |r2.requests|)
  {
    var b1 := ArgueGame.Handle(g, cmd, player, now, oracle1);
    var b2 := Handle(g, cmd, now, oracle2);
    if IsProve(cmd) {
      ProveAgree(g, cmd, player, now, oracle1, oracle2, verdict);
    } else {
      EditAgree(g, cmd, player, now, oracle1, oracle2);
    }
    FinishAgree(b1, b2, player);
  }

  /** Same branches and same game in both bodies. */
  ghost predicate BodiesAgree(b1: ArgueGame.Body, b2: Body) {
    && (b1.Body? <==> b2.Body?)
    && (b1.Body? ==> b1.game == b2.game && b1.status == b2.status && b1.changed == b2.changed
                     && |b1.requests| == |b2.requests|)
  }

  /** The tree commands of both servers are the same tree operations. */
  lemma EditAgree(g: ArgueGame.Game, cmd: ClientMessage, player: Messenger.PlayerId, now: nat,
                  oracle1: Request -> AiReply, oracle2: Request -> AiReply)
    requires !IsProve(cmd)
    ensures BodiesAgree(ArgueGame.Handle(g, cmd, player, now, oracle1), Handle(g, cmd, now, oracle2))
  {
  }

  /** Agreeing bodies go through both tails alike. */
  lemma FinishAgree(b1: ArgueGame.Body, b2: Body, player: Messenger.PlayerId)
    requires BodiesAgree(b1, b2)
    ensures var r1 := ArgueGame.Finish(b1, player);
      var r2 := Finish(b2);
      && (r1.Crashed? <==> r2.Crashed?)
      && (r1.Handled? ==> r1.game == r2.game && |r1.requests| == |r2.requests|)
  {
  }

  /** The prove commands of both servers take the same branches under the same opinion. */
  lemma ProveAgree(g: ArgueGame.Game, cmd: ClientMessage, player: Messenger.PlayerId, now: nat,
                   oracle1: Request -> AiReply, oracle2: Request -> AiReply, verdict: bool)
    requires Rules(oracle1, oracle2, verdict) && IsProve(cmd)
    ensures BodiesAgree(ArgueGame.Handle(g, cmd, player, now, oracle1), Handle(g, cmd, now, oracle2))
  {
    if cmd.ProveDirect? {
      ProveDirectAgree(g, cmd.id, now, oracle1, oracle2, verdict);
    } else {
      ProveImplicationAgree(g, cmd.id, now, oracle1, oracle2, verdict);
    }
  }

  lemma ProveDirectAgree(g: ArgueGame.Game, id: Handle, now: nat,
                         oracle1: Request -> AiReply, oracle2: Request -> AiReply, verdict: bool)
    requires Rules(oracle1, oracle2, verdict)
    ensures BodiesAgree(ArgueGame.ProveDirect(g, id, now, oracle1), ProveDirect(g, id, now, oracle2))
  {
    if id in g.tree.nodes && CheckCooldown(g.ai, now).1.Ready? {
      var q1 := Request(ArgueAi.DirectSystem(), ArgueAi.StatementMessage(g.tree.nodes[id].statement));
      var q2 := Request(BackendAi.SystemMessageDirect, g.tree.nodes[id].statement);
      assert ArgueAi.ParseAiResult(oracle1(q1)).Accepted? == BackendAi.ParseAiResult(oracle2(q2)).Accepted?;
    }
  }

  lemma ProveImplicationAgree(g: ArgueGame.Game, id: Handle, now: nat,
                              oracle1: Request -> AiReply, oracle2: Request -> AiReply, verdict: bool)
    requires Rules(oracle1, oracle2, verdict)
    ensures BodiesAgree(ArgueGame.ProveImplication(g, id, now, oracle1), ProveImplication(g, id, now, oracle2))
  {
    if id in g.tree.nodes && CheckCooldown(g.ai, now).1.Ready? && GetPremises(g.tree, id).Ok? && GetPremises(g.tree, id).value != [] {
      var ps := GetPremises(g.tree, id).value;
      var c := g.tree.nodes[id].statement;
      var q1 := Request(ArgueAi.ImplicationSystem(), ArgueAi.ImplicationMessage(ps, c));
      var q2 := Request(BackendAi.SystemMessageImplication, BackendAi.ImplicationMessage(ps, c));
      assert ArgueAi.ParseAiResult(oracle1(q1)).Accepted? == BackendAi.ParseAiResult(oracle2(q2)).Accepted?;
    }
  }

  /** The single-client server keeps a well-formed agreeing tree on every safe command, and
      never crashes there. */
  lemma KeepsInvariants(g: ArgueGame.Game, cmd: ClientMessage, now: nat, oracle: Request -> AiReply)
    requires WellFormed(g.tree) && Consistent(g.tree) && ArgueGame.Safe(g.tree, cmd)
    ensures var r := OnIncomingMessage(g, cmd, now, oracle);
      r.Handled? && WellFormed(r.game.tree) && Consistent(r.game.tree)
  {
    var b := Handle(g, cmd, now, oracle);
    assert b.Body? && WellFormed(b.game.tree) && Consistent(b.game.tree) by {
      if IsProve(cmd) {
        ProveKeeps(g, cmd, now, oracle);
      } else {
        EditAgree(g, cmd, 0, now, oracle, oracle);
        ArgueGame.EditKeeps(g, cmd, 0, now, oracle);
      }
    }
    FinishKeepsGame(b);
  }

  /** The tail of a body on a tree with a live root does not crash and keeps the game. */
  lemma FinishKeepsGame(b: Body)
    requires b.Body? && b.game.tree.root in b.game.tree.nodes
    ensures Finish(b).Handled? && Finish(b).game == b.game
  {
  }

  /** The prove commands keep the invariants of a well-formed agreeing tree. */
  lemma ProveKeeps(g: ArgueGame.Game, cmd: ClientMessage, now: nat, oracle: Request -> AiReply)
    requires WellFormed(g.tree) && Consistent(g.tree) && IsProve(cmd)
    ensures var b := Handle(g, cmd, now, oracle);
      b.Body? && WellFormed(b.game.tree) && Consistent(b.game.tree)
  {
    if cmd.ProveDirect? {
      ProveDirectKeeps(g, cmd.id, now, oracle);
    } else {
      ProveImplicationKeeps(g, cmd.id, now, oracle);
    }
  }

  lemma ProveDirectKeeps(g: ArgueGame.Game, id: Handle, now: nat, oracle: Request -> AiReply)
    requires WellFormed(g.tree) && Consistent(g.tree)
    ensures var b := ProveDirect(g, id, now, oracle);
      b.Body? && WellFormed(b.game.tree) && Consistent(b.game.tree)
  {
    if id in g.tree.nodes {
      var o := SetDirectlyProven(g.tree, id, Propagation.Fuel(g.tree));
      assert o.Ok? && WellFormed(o.value) && Consistent(o.value) by {
        GraphInvariants.SetDirectlyProvenKeeps(g.tree, id);
      }
    }
  }

  lemma ProveImplicationKeeps(g: ArgueGame.Game, id: Handle, now: nat, oracle: Request -> AiReply)
    requires WellFormed(g.tree) && Consistent(g.tree)
    ensures var b := ProveImplication(g, id, now, oracle);
      b.Body? && WellFormed(b.game.tree) && Consistent(b.game.tree)
  {
    if id in g.tree.nodes {
      var o := SetImplied(g.tree, id, Propagation.Fuel(g.tree));
      assert o.Ok? && WellFormed(o.value) && Consistent(o.value) by {
        GraphInvariants.SetImpliedKeeps(g.tree, id);
      }
      assert GetPremises(g.tree, id).Ok?;
    }
  }
}
