/** `BroadcastMessenger` of argue-rust/src/model/messenger.rs: the registered players, each
    with the socket half that reaches them, and a counter for the next player id. A socket
    is abstracted to the log of the messages delivered through it; delivery failures, which
    the source ignores, and the u64 width of the counter are not modelled. */
module Messenger {

  type PlayerId = nat

  datatype BroadcastMessenger<M> = BroadcastMessenger(logs: map<PlayerId, seq<M>>, nextId: PlayerId)

  /** Every registered id was handed out already. */
  predicate Valid<M>(m: BroadcastMessenger<M>) {
    forall p | p in m.logs :: p < m.nextId
  }

  /** `new`: nobody registered, ids start at 0. */
  function New<M>(): (m: BroadcastMessenger<M>)
    ensures Valid(m) && m.logs == map[] && m.nextId == 0
  {
    BroadcastMessenger(map[], 0)
  }

  /** `add_player`: registers a new socket under the current counter value, which it returns,
      and advances the counter. */
  function AddPlayer<M>(m: BroadcastMessenger<M>): (r: (BroadcastMessenger<M>, PlayerId))
    ensures r.1 == m.nextId && r.0.nextId == m.nextId + 1
    ensures r.0.logs == m.logs[r.1 := []]
    ensures Valid(m) ==> Valid(r.0) && r.1 !in m.logs
  {
    (m.(logs := m.logs[m.nextId := []], nextId := m.nextId + 1), m.nextId)
  }

  /** `remove_player`: forgets that one player; the counter is kept, so the id is never
      handed out again. */
  function RemovePlayer<M>(m: BroadcastMessenger<M>, player: PlayerId): (r: BroadcastMessenger<M>)
    ensures r.nextId == m.nextId
    ensures r.logs.Keys == m.logs.Keys - {player}
    ensures forall p | p in r.logs :: r.logs[p] == m.logs[p]
    ensures Valid(m) ==> Valid(r)
  {
    m.(logs := m.logs - {player})
  }

  /** `send`: the message is delivered once to every registered player. */
  function Send<M>(m: BroadcastMessenger<M>, msg: M): (r: BroadcastMessenger<M>)
    ensures r.nextId == m.nextId && r.logs.Keys == m.logs.Keys
    ensures forall p | p in m.logs :: r.logs[p] == m.logs[p] + [msg]
  {
    m.(logs := map p | p in m.logs :: m.logs[p] + [msg])
  }

  /** `reply`: the message is delivered to that player only; an unknown player gets nothing
      and nothing fails (the source only logs the miss). */
  function Reply<M>(m: BroadcastMessenger<M>, msg: M, player: PlayerId): (r: BroadcastMessenger<M>)
    ensures r.nextId == m.nextId && r.logs.Keys == m.logs.Keys
    ensures player in m.logs ==> r.logs[player] == m.logs[player] + [msg]
    ensures forall p | p in m.logs && p != player :: r.logs[p] == m.logs[p]
    ensures player !in m.logs ==> r == m
  {
    if player in m.logs then m.(logs := m.logs[player := m.logs[player] + [msg]]) else m
  }

  /** With a single registered player, answering that player is broadcasting. */
  lemma ReplyToOnlyPlayer<M>(m: BroadcastMessenger<M>, msg: M, player: PlayerId)
    requires m.logs.Keys == {player}
    ensures Reply(m, msg, player) == Send(m, msg)
  {
    assert Reply(m, msg, player).logs == Send(m, msg).logs;
  }

  // ---------------------------------------------------------------------------------------
  // Ids over a whole session

  /** One change to the set of connected players. */
  datatype Registration = Join | Leave(player: PlayerId)

  /** Applies the registrations in order; returns the final messenger and the ids handed out
      by the joins, in order. */
  function Register<M>(m: BroadcastMessenger<M>, rs: seq<Registration>): (r: (BroadcastMessenger<M>, seq<PlayerId>))
    decreases |rs|
  {
    if rs == [] then (m, [])
    else
      match rs[0]
      case Join =>
        var (m1, id) := AddPlayer(m);
        var (m2, ids) := Register(m1, rs[1..]);
        (m2, [id] + ids)
      case Leave(p) => Register(RemovePlayer(m, p), rs[1..])
  }

  /** Over any sequence of joins and leaves, the ids handed out are strictly increasing, all
      at least the starting counter, never an id registered at the start, and the counter
      ends above all of them. In particular an id is never reused after its player left. */
  lemma {:induction false} RegisterFreshIds<M>(m: BroadcastMessenger<M>, rs: seq<Registration>)
    requires Valid(m)
    ensures var (m1, ids) := Register(m, rs);
      && Valid(m1)
      && (forall i, j :: 0 <= i < j < |ids| ==> ids[i] < ids[j])
      && (forall i :: 0 <= i < |ids| ==> m.nextId <= ids[i] < m1.nextId && ids[i] !in m.logs)
      && m.nextId <= m1.nextId
    decreases |rs|
  {
    if rs != [] {
      match rs[0]
      case Join =>
        var (m1, id) := AddPlayer(m);
        RegisterFreshIds(m1, rs[1..]);
      case Leave(p) =>
        RegisterFreshIds(RemovePlayer(m, p), rs[1..]);
    }
  }
}
