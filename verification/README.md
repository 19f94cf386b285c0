# argue — a Dafny model of the proof-graph game

"argue" is a multiplayer game. Players build a graph of statements and link premises to
conclusions. They ask an AI adjudicator to accept a statement either by itself ("prove
directly") or as a consequence of its premises ("prove implication"). The game is won when
the root statement is proven. This project models the core of the game and proves
properties of that model:

- **The proof graph** (`ProofGraph`, `Propagation`, `GraphInvariants`). This is the arena of
  statement nodes from `argue-rust/src/model/proof.rs`. It has the add, remove, edit, link,
  unlink, set-directly-proven and set-implied operations. It also has the upward "trickle"
  that re-derives implied statements when a premise's proven-ness flips. Handles are
  naturals that are never handed out twice. A panic of the source (an `unwrap` of a missing
  handle) is the outcome `Panic`. The trickle takes a fuel bound and returns `OutOfFuel`
  when it is exhausted. `Propagation` proves that `|nodes| + 1` always suffices on a
  well-formed tree in which implied statements agree with their premises.
- **Command handling of the argue-rust server** (`ArgueGame`, `ArgueAi`, `Cooldown`,
  `Protocol`). `on_incoming_message`, `prove_direct` and `prove_implication` turn one client
  command into an ordered list of messages. Each message is broadcast or replied to the
  requester. The result also lists the requests put to the adjudicator. The adjudicator
  endpoint is a function parameter and the clock is a natural-number parameter. A command
  that panics still lists the messages and requests that went out before the panic.
- **The later single-client server** (`BackendGame`, `BackendAi`). This is
  `backend/src/model.rs`, where `reply` is `send`, prompts are laid out differently and the
  verdict tag is cut off. `BackendGame.VariantsAgree` proves that both servers reach the same
  game state.
- **The player registry** (`Messenger`). This is `BroadcastMessenger`, with each socket
  abstracted to the log of messages it was given.
- **The web client's pure conversions** (`Client`, `Decimal`, `Strings`): handles as
  `"index,generation"` strings, the snapshot turned into nodes and links, edge colouring,
  and the merge of a new snapshot into the nodes on screen.

Where the design description and the code disagree, the model follows the code:

- Comments, including verdict explanations, are broadcast to every player
  (`messenger.msg` uses `send`), not sent to the requester only.
- A prove command on an unknown statement broadcasts the cooldown notice before the error
  reply. So an error is not always the only message.
- `remove_node` takes the node out of the arena before it unlinks the neighbours. Those
  unlink calls fail silently and the neighbours keep the removed handle
  (`GraphInvariants.RemoveNodeDangles`, `ArgueGame.DeleteLinkedDangles`).
- `unlink(p, p)` on an implied-unproven statement with a self-loop skips the re-derivation
  and leaves the statement out of agreement with its premises
  (`GraphInvariants.UnlinkSelfLoopBreaksAgreement`).
- The backend implication prompt puts no line break after the last premise, so it runs into
  the next header line (`BackendAi.ImplicationLines`).

## Model

| member | source | states |
|---|---|---|
| ProofGraph.New | argue-rust/src/model/proof.rs:89-97 | a new tree holds only the root: its text, no edges, state None; it is well-formed and agreeing |
| ProofGraph.ProofComplete | argue-rust/src/model/proof.rs:114-116 | the proof is complete exactly when the root is DirectlyProven or ImpliedProven |
| ProofGraph.GetStatement | argue-rust/src/model/proof.rs:121-123 | succeeds exactly on a live handle, with its text; otherwise NoSuchNode of that handle |
| ProofGraph.GetPremises | argue-rust/src/model/proof.rs:124-131 | NoSuchNode exactly for a dead handle; otherwise the children's texts in child order, or a panic exactly when some child is dead |
| ProofGraph.AsDto | argue-rust/src/model/proof.rs:98-113 | the snapshot lists every live handle once, ascending, each entry a field-by-field copy of its node, plus the root |
| ProofGraph.SnapshotCovers | argue-rust/src/model/proof.rs:100-108 | the snapshot walk from a handle lists exactly the live handles from there on |
| ProofGraph.Without | argue-rust/src/model/proof.rs:199-200 | `retain(x != c)` keeps exactly the other elements and drops every occurrence of c |
| ProofGraph.SetState | argue-rust/src/model/proof.rs:239-250 | a dead handle panics; a new state with the same proven-ness is stored with no notification |
| ProofGraph.NotifyParents | argue-rust/src/model/proof.rs:244-249 | notifying an empty parent list changes nothing |
| ProofGraph.OnChildChange | argue-rust/src/model/proof.rs:253-265 | a dead handle panics; a node that is not implied is left as it is |
| ProofGraph.Rederive | argue-rust/src/model/proof.rs:256-263 | an implied node is re-derived to ImpliedProven if all its children are proven, otherwise to ImpliedUnproven |
| ProofGraph.CheckChildren | argue-rust/src/model/proof.rs:267-277 | on a live node whose children are all live, answers whether every child is proven; a dead node panics |
| ProofGraph.ChildrenProven | argue-rust/src/model/proof.rs:270-276 | the early-exit loop answers whether all children are proven, and "all" is only answered when it is true |
| ProofGraph.AddNode | argue-rust/src/model/proof.rs:132-135 | the new handle was not live and no edge list mentions it; the new node is the text, state None, no edges; every other node is unchanged |
| ProofGraph.IncidentPairs | argue-rust/src/model/proof.rs:142-147 | every pair handed to unlink involves the removed handle |
| ProofGraph.RemoveNode | argue-rust/src/model/proof.rs:137-149 | the root gives RemoveRoot and a dead handle NoSuchNode, both changing nothing; otherwise only the node leaves the arena and every other edge list is kept |
| ProofGraph.UnlinkMissingFails | argue-rust/src/model/proof.rs:141-147 | after removal, every neighbour unlink fails on the missing handle, and dropping those errors leaves the tree as it was |
| ProofGraph.ChangeNodeStatement | argue-rust/src/model/proof.rs:151-160 | an error exactly for a dead handle; an unproven node gets the new text and state None with no notification |
| ProofGraph.WithStatement | argue-rust/src/model/proof.rs:156-157 | only the node's text is replaced; every other field and node is kept |
| ProofGraph.AddEdge | argue-rust/src/model/proof.rs:176-177 | the child is appended to the parent's children and the parent to the child's parents, nothing else |
| ProofGraph.RemoveEdge | argue-rust/src/model/proof.rs:199-200 | every occurrence of the edge leaves both lists, nothing else |
| ProofGraph.AddSelfLoop | argue-rust/src/model/proof.rs:163-167 | the node is appended to its own parents and children |
| ProofGraph.RemoveSelfLoop | argue-rust/src/model/proof.rs:186-190 | every occurrence of the node leaves its own lists |
| ProofGraph.Link | argue-rust/src/model/proof.rs:162-183 | self-link appends with no check on a live node; otherwise NoSuchNode of parent then child, AddExistingLink for an existing edge, and a new edge never a typed error; under a parent that is not implied the result is exactly the edge added (the implied case is stated by GraphInvariants.LinkKeeps) |
| ProofGraph.Unlink | argue-rust/src/model/proof.rs:185-205 | self-unlink always succeeds on a live node; otherwise the same NoSuchNode order, RemoveNonExistentLink for a missing edge, and an existing edge never a typed error; the edge is removed, a parent that is not implied keeps its state and an ImpliedUnproven parent becomes None (the ImpliedProven case is stated by GraphInvariants.EdgeUnlinkKeeps) |
| ProofGraph.SetDirectlyProven | argue-rust/src/model/proof.rs:207-209 | never a typed error; a dead handle panics; a node that is already proven just takes the new state |
| ProofGraph.SetImplied | argue-rust/src/model/proof.rs:211-220 | a dead handle panics; ImpliedProven exactly when every child is proven, else ImpliedUnproven |
| ProofGraph.SetStateNeverErrs | argue-rust/src/model/proof.rs:239-250 | the trickle from a state change never reports a typed error |
| ProofGraph.NotifyNeverErrs | argue-rust/src/model/proof.rs:244-249 | notifying parents never reports a typed error |
| ProofGraph.PropagationNeverErrs | argue-rust/src/model/proof.rs:253-265 | re-checking a notified node never reports a typed error |
| Propagation.SetStateShape | argue-rust/src/model/proof.rs:239-250 | the trickle keeps handles, texts and edges; besides the changed node, only implied nodes move, within the implied states |
| Propagation.NotifyShape | argue-rust/src/model/proof.rs:244-249 | notifying parents changes only the states of implied nodes, and only between the implied states |
| Propagation.OnChildChangeShape | argue-rust/src/model/proof.rs:253-265 | re-checking a node changes only the states of implied nodes, and only between the implied states |
| Propagation.SetStateFuel | argue-rust/src/model/proof.rs:239-250 | once a fuel bound suffices, any larger bound gives the same result |
| Propagation.NotifyFuel | argue-rust/src/model/proof.rs:244-249 | once a fuel bound suffices for notifying parents, any larger bound gives the same result |
| Propagation.OnChildChangeFuel | argue-rust/src/model/proof.rs:253-265 | once a fuel bound suffices for a re-check, any larger bound gives the same result |
| Propagation.AgreementAfterSet | argue-rust/src/model/proof.rs:239-243 | storing a state whose proven-ness is unchanged keeps every other node's agreement with its premises |
| Propagation.MoveKeepsWave | argue-rust/src/model/proof.rs:242-248 | a truth flip toward the wave's direction adds only the flipped node's parents to the pending set |
| Propagation.RederivedAgrees | argue-rust/src/model/proof.rs:256-263 | a re-derived implied node agrees with its premises |
| Propagation.LaggingAfterMove | argue-rust/src/model/proof.rs:241-244 | a flip toward the wave's direction takes that node out of the set of nodes not yet flipped |
| Propagation.SetStateWave | argue-rust/src/model/proof.rs:239-250 | within a wave, setting a state succeeds with fuel above the nodes not yet flipped, and leaves only pending nodes disagreeing |
| Propagation.NotifyWave | argue-rust/src/model/proof.rs:244-249 | within a wave, notifying the parents succeeds and clears them from the pending set |
| Propagation.RederiveInWave | argue-rust/src/model/proof.rs:256-263 | re-deriving a pending implied node makes it agree, and any flip it makes goes toward the wave and shrinks the set of nodes not yet flipped |
| Propagation.OnChildChangeWave | argue-rust/src/model/proof.rs:253-265 | within a wave, re-checking a pending node succeeds and clears it |
| Propagation.ImpliedWave | argue-rust/src/model/proof.rs:253-265 | within a wave, re-checking an implied node is re-deriving it, and succeeds |
| Propagation.SettleFrom | argue-rust/src/model/proof.rs:239-250 | with fuel above the node count, a state change that is locally consistent settles the whole well-formed tree back into agreement |
| Propagation.RederiveSettles | argue-rust/src/model/proof.rs:253-265 | with fuel above the node count, re-checking the one disagreeing node settles the whole tree into agreement |
| GraphInvariants.AddEdgeWellFormed | argue-rust/src/model/proof.rs:176-177 | adding both halves of an edge keeps the tree well-formed and every other node's agreement |
| GraphInvariants.RemoveEdgeWellFormed | argue-rust/src/model/proof.rs:199-200 | removing both halves of an edge keeps the tree well-formed and every other node's agreement |
| GraphInvariants.AddNodeKeeps | argue-rust/src/model/proof.rs:132-135 | adding a node keeps a well-formed agreeing tree so, and the new node is unproven |
| GraphInvariants.LinkKeeps | argue-rust/src/model/proof.rs:162-183 | link never panics or runs out of fuel on a well-formed agreeing tree; on success the tree stays so and holds the edge in both lists; for a new edge the result is the edge-appended tree with only implied states moved and an implied parent re-derived from its premises, the new child included |
| GraphInvariants.EdgeLinkKeeps | argue-rust/src/model/proof.rs:168-182 | linking a new edge succeeds and leaves the edge-appended tree, well-formed and agreeing, with only implied states moved and an implied parent re-derived |
| GraphInvariants.SelfLoopLinkKeeps | argue-rust/src/model/proof.rs:163-167 | a self-link keeps a well-formed agreeing tree so |
| GraphInvariants.UnlinkKeeps | argue-rust/src/model/proof.rs:185-205 | unlink never panics or runs out of fuel; on success the edge is gone and the tree stays well-formed and agreeing; for an existing edge the result is the edge-removed tree in which an implied parent is None, any other parent keeps its state, and only implied states moved besides |
| GraphInvariants.EdgeUnlinkKeeps | argue-rust/src/model/proof.rs:192-204 | removing an existing edge succeeds and leaves the edge-removed tree, well-formed and agreeing, with an implied parent (ImpliedProven or ImpliedUnproven) at None, any other parent unchanged, and only implied states moved besides |
| GraphInvariants.SelfLoopUnlinkKeeps | argue-rust/src/model/proof.rs:186-190 | a self-unlink keeps the invariants unless the node is implied-unproven |
| GraphInvariants.UnlinkSelfLoopBreaksAgreement | argue-rust/src/model/proof.rs:186-190 | a one-node example: self-unlink of an implied-unproven self-looped root leaves it disagreeing with its (now empty) premises |
| GraphInvariants.ChangeNodeStatementKeeps | argue-rust/src/model/proof.rs:151-160 | edit succeeds exactly on a live handle, sets the text and state None, keeps the invariants, changes no other text or edge, and moves only implied states besides |
| GraphInvariants.SetDirectlyProvenKeeps | argue-rust/src/model/proof.rs:207-209 | a live node becomes DirectlyProven and the tree settles into agreement, with no text or edge changed and only implied states moved besides |
| GraphInvariants.SetImpliedKeeps | argue-rust/src/model/proof.rs:211-220 | a live node becomes implied, proven exactly when all its premises are in the settled tree, with no text or edge changed and only implied states moved besides |
| GraphInvariants.RemoveIsolatedKeeps | argue-rust/src/model/proof.rs:137-149 | removing a non-root node without edges succeeds and keeps the invariants |
| GraphInvariants.RemoveNodeDangles | argue-rust/src/model/proof.rs:141-147 | removing a node that has a parent leaves that parent holding the dead handle, so its premises lookup panics |
| Cooldown.NewAi | argue-rust/src/model.rs:73-79 | a new timer has the configured pause and lets the first request through |
| Cooldown.CheckCooldown | argue-rust/src/model.rs:207-219 | refuses exactly while the timer runs, leaving it unchanged; otherwise restarts it at now plus the pause |
| Cooldown.CooldownWindow | argue-rust/src/model.rs:207-219 | after an accepted check, the next one is accepted exactly from now plus the pause on |
| Cooldown.RefusalChangesNothing | argue-rust/src/model.rs:207-212 | a refused check leaves no trace on any later check |
| ArgueAi.StatementMessage | argue-rust/src/model.rs:252 | the statement prompt is the line "Statement:" followed by the bulleted statement |
| ArgueAi.ParseAiResult | argue-rust/src/model.rs:220-242 | an answer is accepted exactly when it starts with [TRUE] and is shown in full; a transport error is rejected with the internal-error text |
| ArgueAi.ImplicationLines | argue-rust/src/model.rs:275-281 | the implication prompt's lines are "Premises:", each premise bulleted, "Conclusion:", the bulleted conclusion |
| ArgueAi.ImplicationJoined | argue-rust/src/model.rs:275-281 | the implication prompt is those lines joined by line breaks |
| BackendAi.ParseAiResult | backend/src/model.rs:218-237 | accepted exactly on a [TRUE] prefix, the answer being the tag plus the explanation; a [FALSE] prefix is cut off likewise; other text is rejected in full |
| BackendAi.VariantsAgree | backend/src/model.rs:228-236 | both servers reach the same verdict on every reply, the earlier showing the tag the later cuts off |
| BackendAi.ImplicationLines | backend/src/model.rs:243-253 | the backend prompt's lines are the header, every premise but the last, the last premise run together with the second header, and the conclusion |
| BackendAi.ImplicationJoined | backend/src/model.rs:245-251 | the backend prompt is those lines joined by line breaks |
| Messenger.New | argue-rust/src/model/messenger.rs:22-27 | no players registered, counter at zero |
| Messenger.AddPlayer | argue-rust/src/model/messenger.rs:28-33 | returns the old counter as the id, registers it with an empty log, advances the counter; the id was not registered before |
| Messenger.RemovePlayer | argue-rust/src/model/messenger.rs:34-36 | only that player is dropped, the others' logs and the counter are kept |
| Messenger.Send | argue-rust/src/model/messenger.rs:37-44 | every registered player receives the message once, the set of players is unchanged |
| Messenger.Reply | argue-rust/src/model/messenger.rs:45-55 | only the named player receives the message; an unknown player makes it a no-op |
| Messenger.ReplyToOnlyPlayer | argue-rust/src/model/messenger.rs:37-55 | with one registered player, reply and send coincide |
| Messenger.RegisterFreshIds | argue-rust/src/model/messenger.rs:28-36 | over any joins and leaves the ids handed out strictly increase and are never ids registered before, even after a leave |
| ArgueGame.NewGame | argue-rust/src/model.rs:70-82 | a new game holds only the root, well-formed and agreeing, with an expired timer |
| ArgueGame.Announce | argue-rust/src/model.rs:128-133 | the snapshot is broadcast first, then Win exactly when the proof is complete |
| ArgueGame.Apply | argue-rust/src/model.rs:110-119 | a tree operation's success, typed error or panic becomes the body's result, error or crash |
| ArgueGame.ProveDirect | argue-rust/src/model.rs:138-161 | the pause notice first; an unknown id fails before the timer; a request is put exactly when the timer has run out, restarting it; the tree changes only by set_directly_proven; a crash there keeps the pause notice, the request comment and the request |
| ArgueGame.ProveImplication | argue-rust/src/model.rs:162-193 | as prove_direct, and a statement with no premises gets the premise comment with the timer and tree untouched; the tree changes only by set_implied; a dangling premise crashes after the pause notice alone, set_implied after the request comment and the request |
| ArgueGame.Conclude | argue-rust/src/model.rs:151-158 | acceptance applies the tree update and comments success; rejection keeps the game and comments failure; one request either way; a crash of the update keeps only what was shown before the verdict |
| ArgueGame.OnIncomingMessage | argue-rust/src/model.rs:85-136 | an unknown prove target gives only the pause notice and the error reply; an implication with no premises gives only the pause notice and the comment |
| ArgueGame.BodyFacts | argue-rust/src/model.rs:92-122 | a body replies to nobody else, emits no error, snapshot or win, puts at most one request, and a failed body changes nothing |
| ArgueGame.FinishFacts | argue-rust/src/model.rs:123-134 | the tail replies an error exactly on failure, broadcasts the tree exactly on a successful change, and Win exactly when the root is also proven |
| ArgueGame.FinishAddressed | argue-rust/src/model.rs:123-126 | the tail replies to nobody but the requester |
| ArgueGame.DispatchRule | argue-rust/src/model.rs:85-136 | an error goes to the requester alone, after at most the pause notice, and changes nothing; the tree is broadcast exactly when there is no error and the command edits the tree or a proof is accepted; Win exactly when the root is also proven |
| ArgueGame.LinkCommand | argue-rust/src/model.rs:110-113 | Link(premise, conclusion) adds premise under conclusion; it fails exactly on an unknown statement or an existing link, and otherwise keeps the invariants with exactly the edge added and an implied conclusion re-derived |
| ArgueGame.UnlinkCommand | argue-rust/src/model.rs:114-117 | Unlink(premise, conclusion) fails exactly on an unknown statement or a missing link, and otherwise removes the premise, drops an implied conclusion to None and keeps the invariants |
| ArgueGame.KeepsInvariants | argue-rust/src/model.rs:98-122 | every command except the two unsafe ones leaves a well-formed agreeing game so and never crashes |
| ArgueGame.EditKeeps | argue-rust/src/model.rs:110-119 | the tree-editing commands keep a well-formed agreeing tree so |
| ArgueGame.ProveKeeps | argue-rust/src/model.rs:120-121 | the prove commands keep a well-formed agreeing tree so, whatever the adjudicator says |
| ArgueGame.DeleteLinkedDangles | argue-rust/src/model.rs:118 | deleting a statement that is still a premise succeeds, is broadcast, and leaves a tree that is not well-formed |
| ArgueGame.DanglingProveCrashes | argue-rust/src/model.rs:138-156 | proving a statement whose first parent handle is dead, when accepted, crashes in set_directly_proven after the pause notice, the request comment and the request went out, and before the verdict |
| ArgueGame.CooldownBlocksSecondProve | argue-rust/src/model.rs:207-219 | after a prove command put a request, no prove command by anyone puts another before the pause ends |
| ArgueGame.DeliverReaches | argue-rust/src/model/messenger.rs:37-55 | delivering the messages appends to every registered player exactly the broadcasts and their own replies, in order |
| ArgueGame.OthersReceiveBroadcasts | argue-rust/src/model.rs:123-126 | a player other than the requester receives exactly the broadcasts |
| ArgueGame.OthersSeeBroadcasts | argue-rust/src/model.rs:85-136 | after a command, every other registered player has received exactly its broadcasts, in order |
| BackendGame.Send | backend/src/model.rs:58-63 | the message is appended to what the socket was sent |
| BackendGame.Reply | backend/src/model.rs:80-82 | a reply is appended to the same socket, like a send |
| BackendGame.SinkIsOnePlayer | backend/src/model.rs:80-82 | the socket is a broadcast messenger with one player, on which reply and send coincide |
| BackendGame.Apply | backend/src/model.rs:129-132 | a tree operation's success, typed error or panic becomes the body's result, error or crash |
| BackendGame.ProveDirect | backend/src/model.rs:148-161 | unknown id fails after the pause notice only; a request (the bare statement) is put exactly when the timer has run out; exactly the pause notice and the verdict are sent; a crash keeps the pause notice and the request |
| BackendGame.ProveImplication | backend/src/model.rs:162-187 | no premises gives the comment with the timer untouched; otherwise a request is put exactly when the timer has run out; the tree changes only by set_implied; a crash keeps the pause notice, and the request exactly when the premises were read |
| BackendGame.Conclude | backend/src/model.rs:150-159 | acceptance applies the tree update and comments success; rejection keeps the game; a crash of the update keeps only what was sent before the verdict |
| BackendGame.OnIncomingMessage | backend/src/model.rs:111-146 | an unknown prove target gives the pause notice and the error; an implication with no premises gives the pause notice and the comment |
| BackendGame.BodyFacts | backend/src/model.rs:113-135 | a body sends the tree only for GetGameState, no error or win, at most one request, and a failed body changes nothing |
| BackendGame.FinishFacts | backend/src/model.rs:136-145 | the tail sends an error exactly on failure, the tree exactly on a successful change, Win exactly when the root is also proven |
| BackendGame.DispatchRule | backend/src/model.rs:111-146 | an error is the last message and changes nothing; the tree is sent exactly when there is no error and the command asked for it, changed the tree or had a proof accepted |
| BackendGame.VariantsAgree | backend/src/model.rs:111-146 | both servers, under adjudicators of one opinion, crash alike and otherwise reach the same game with as many requests |
| BackendGame.ProveAgree | backend/src/model.rs:148-187 | both servers' prove commands take the same branches under the same opinion |
| BackendGame.KeepsInvariants | backend/src/model.rs:119-135 | every safe command keeps a well-formed agreeing game so and never crashes |
| BackendGame.ProveKeeps | backend/src/model.rs:133-134 | the prove commands keep a well-formed agreeing tree so |
| Decimal.IntToString | argue-react/src/game/Game.tsx:57 | an integer renders as its decimal digits, with a minus sign when negative and never a comma |
| Decimal.JsParseInt | argue-react/src/game/Game.tsx:61 | parseInt gives a number exactly when some digit follows the leading space, sign and hex prefix |
| Decimal.ParseIntToString | argue-react/src/game/Game.tsx:56-62 | parseInt reads every rendered integer back to itself |
| Client.ToIndex | argue-react/src/game/Game.tsx:56-58 | the string splits at its one comma into the two rendered numbers |
| Client.ToIndexDto | argue-react/src/game/Game.tsx:59-62 | the first number is parseInt of the text before the first comma; with no comma the second is NaN |
| Client.IndexRoundTrip | argue-react/src/game/Game.tsx:56-62 | reading a handle back from its string gives the handle, for every pair of integers |
| Client.ToIndexInjective | argue-react/src/game/Game.tsx:56-58 | two handles have the same string exactly when they are equal |
| Client.LinksOf | argue-react/src/game/Game.tsx:72-74 | one edge per child, in order, from the child to the statement |
| Client.AllLinks | argue-react/src/game/Game.tsx:66-75 | as many edges as (statement, child) pairs |
| Client.AllLinksPairs | argue-react/src/game/Game.tsx:72-74 | an edge is listed exactly when it comes from some (statement, child) pair |
| Client.AllLinksSnoc | argue-react/src/game/Game.tsx:66-75 | one more statement appends its edges at the end |
| Client.ToGraphData | argue-react/src/game/Game.tsx:63-82 | one node per statement, in order, with its text and state; the edges statement by statement and child by child; the root's string |
| Client.Visit | argue-react/src/game/Game.tsx:66-75 | one round of the loop adds the statement's node and its edges |
| Client.PushLinks | argue-react/src/game/Game.tsx:72-74 | the inner loop appends the statement's edges |
| Client.EdgeState | argue-react/src/game/Canvas.tsx:74-87 | plain exactly into a non-implied target; proven-coloured exactly into an ImpliedProven target or from a proven source into an ImpliedUnproven one |
| Client.ColoursShowGaps | argue-react/src/game/Canvas.tsx:74-87 | on an agreeing tree, every edge into a proven implication is proven-coloured, and an unproven implication shows some unproven-coloured edge |
| Client.Find | argue-react/src/game/Canvas.tsx:33 | the first position holding the id, or -1 when none does |
| Client.UpdateGraph | argue-react/src/game/Canvas.tsx:26-57 | the edges and the root are taken from the snapshot as they are |
| Client.MergeOneSpec | argue-react/src/game/Canvas.tsx:32-45 | one merge step keeps ids distinct, adds the new id, keeps positions of drawn nodes and pins new ones at the origin |
| Client.MergeAllSpec | argue-react/src/game/Canvas.tsx:32-45 | the merge loop yields the old and new ids once each, new text and state, old positions or the origin |
| Client.KeepSpec | argue-react/src/game/Canvas.tsx:46 | the filter keeps exactly the drawn nodes whose id the snapshot has |
| Client.UpdateGraphMerges | argue-react/src/game/Canvas.tsx:26-57 | the screen shows exactly the snapshot's statements once each, with the snapshot's text and state, keeping positions of nodes already drawn and pinning new ones at the origin |

## Left out

- The WebSocket and HTTP plumbing, the process entry points, configuration loading and the
  OpenAI clients. The adjudicator is a function parameter from request to reply, and the
  reply may be a transport error.
- JSON encoding of the messages. Messages are datatypes.
- The concurrency of `join_all` in `send`. Delivery is sequential and a failed delivery is
  not modelled, as the source ignores it.
- `Instant` and `Duration`. The clock is a natural number of whole seconds.
- The u64 width of the player counter and of the cooldown seconds. Numbers are unbounded.
- The generational arena's slots and generations. A handle is a natural number that is never
  reused, and the arena's iteration order is ascending handle order.
- backend/src/model/proof.rs is not part of this model. The backend server is modelled on
  the proof graph of argue-rust/src/model/proof.rs.
- ProofGraph.SetState: the trickle runs on a fuel bound. `OutOfFuel` is an outcome the source
  does not have. `ArgueGame.KeepsInvariants` shows the bound `|nodes| + 1` is never hit on a
  well-formed agreeing tree. On other trees a run out of fuel is reported as a crash, like a
  panic.
- ArgueGame.KeepsInvariants: excludes two commands. The first is the self-unlink of an
  implied-unproven statement, which the source leaves disagreeing. The second is deleting a
  statement that still has links, which leaves dangling handles. Both are shown by their own
  lemmas.
- BackendGame.KeepsInvariants: excludes the same two commands, for the same reasons.
- GraphInvariants.UnlinkKeeps: excludes the self-unlink of an implied-unproven statement,
  which `GraphInvariants.UnlinkSelfLoopBreaksAgreement` shows breaks agreement.
- ArgueGame.UnlinkCommand: excludes the same self-unlink case.
- Client.UpdateGraphMerges: assumes neither the screen nor the snapshot repeats an id. With
  repeats, `find` takes the first match, and the model does not state what then happens.
- Client.UpdateGraph: the source mutates the node objects and the caller's array in place.
  The model returns new values, so the aliasing between the snapshot and the screen is not
  modelled.
- Decimal.JsParseInt: only integer prefixes in radix 10 and 16 are modelled, with the
  whitespace set listed in `IsJsSpace`. The source's number type is a float, and its
  rounding of long digit strings is not modelled.
- ArgueGame.Handled and BackendGame.Handled: a crash keeps the messages and requests that
  went out before the panic, but no game. The source's connection task ends at the panic,
  and what the rest of the server does after that is not modelled.
- The colours of nodes (`nodeColor`) and all rendering. They are CSS lookups.
- `reply_tree` and `GetGameState` in argue-rust are modelled as a reply of the snapshot.
  `msg_win` and `send_tree` are modelled as broadcasts.
