/** The messages exchanged over the game socket. Both server variants (argue-rust/src/model.rs
    and backend/src/model.rs) declare the same two enums; JSON encoding is not modelled. */
module Protocol {
  import opened ProofGraph

  /** `ServerMessage`. */
  datatype ServerMessage =
    | NewNodeId(id: Handle)
    | GameState(tree: TreeDto)
    | Comment(about: Handle, comment: string, success: bool)
    | Win
    | AICooldown(seconds: nat)
    | Error(error: ProofError)

  /** `ClientMessage`. */
  datatype ClientMessage =
    | GetGameState
    | Add(statement: string)
    | Delete(id: Handle)
    | Edit(id: Handle, statement: string)
    | Link(premise: Handle, conclusion: Handle)
    | Unlink(premise: Handle, conclusion: Handle)
    | ProveDirect(id: Handle)
    | ProveImplication(id: Handle)

  /** The commands that push the tree to the clients whenever they succeed; the two prove
      commands push it only when the adjudicator accepts. */
  predicate ChangesTree(m: ClientMessage) {
    m.Add? || m.Delete? || m.Link? || m.Unlink? || m.Edit?
  }

  predicate IsProve(m: ClientMessage) {
    m.ProveDirect? || m.ProveImplication?
  }

  /** A request to the adjudicator: the system message and the user message. */
  datatype Request = Request(system: string, user: string)

  /** What the adjudicator's endpoint answers: the completion text, or a transport failure
      (shown to the players through its debug rendering `detail`). */
  datatype AiReply = Answer(text: string) | TransportError(detail: string)

  /** `Result<String, String>` of `parse_ai_result`: accepted or rejected, with the text the
      players are shown. */
  datatype Ruling = Accepted(explanation: string) | Rejected(explanation: string)

  /** The comment for a prove command on a statement without premises. */
  const NeedPremise: string := "You need to add at least one premise to prove an implication."

  /** The prefix of the comment shown for a transport failure. */
  const TransportFailure: string := "Server: Internal Error while consulting AI - maybe no more money? :( - "
}
