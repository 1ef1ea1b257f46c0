/** The signalling relay: the module-level client list and the three event
    handlers run by the connection server. Each handler runs to completion
    before the next event is handled, so each is one atomic step here. */
module Signaling {
  import opened Protocol
  import opened Registry

  /** The sends of the `join` branch: `new-peer` to every other listed
      connection, in list order, then `existing-peers` to the joiner. */
  function JoinSends(clients: seq<Conn>, ids: map<Conn, string>, ws: Conn, name: Option<JsonText>): (r: seq<Send>)
    requires Known(clients, ids) && ws in ids
    ensures |r| == |Others(clients, ws)| + 1
    ensures r[|r| - 1] == Send(ws, ExistingPeers(IdsOf(Others(clients, ws), ids)))
    ensures forall k :: 0 <= k < |r| - 1 ==>
      r[k].msg == NewPeer(ids[ws], name) && r[k].to in clients && r[k].to != ws
  {
    var others := Others(clients, ws);
    assert forall k :: 0 <= k < |others| ==> others[k] in others;
    Broadcast(others, NewPeer(ids[ws], name)) + [Send(ws, ExistingPeers(IdsOf(others, ids)))]
  }

  /** The sends of the forwarding branch: the message itself, unchanged, to
      the first listed connection whose id is its `to`. */
  function ForwardSends(clients: seq<Conn>, ids: map<Conn, string>, m: Msg): (r: seq<Send>)
    requires Known(clients, ids) && m.IsSignal()
    ensures |r| <= 1
    ensures forall s :: s in r ==> s.msg == m && s.to in clients && Addressed(ids, s.to, m.to)
    ensures r == [] <==> forall j :: 0 <= j < |clients| ==> !Addressed(ids, clients[j], m.to)
  {
    match FirstWithId(clients, ids, m.to)
    case Some(k) => [Send(clients[k], m)]
    case None => []
  }

  /** Everything the message handler of connection `ws` sends for one raw
      frame, given the client list at that moment. A frame that does not
      parse, the literal `null` and any type other than `join`, `offer`,
      `answer` and `ice` send nothing. */
  function Reaction(clients: seq<Conn>, ids: map<Conn, string>, ws: Conn, raw: Parsed): (r: seq<Send>)
    requires Known(clients, ids) && ws in ids
    ensures forall s :: s in r ==> s.to in clients || s.to == ws
    ensures !raw.Value? ==> r == []
  {
    match raw
    case Unparseable => []
    case Null => []
    case Value(m) =>
      if m.Join? then JoinSends(clients, ids, ws, m.name)
      else if m.IsSignal() then ForwardSends(clients, ids, m)
      else []
  }

  /** The sends of the `close` handler of `ws`: `peer-left` with the id of
      `ws` to every connection left once the entries of `ws` are removed. */
  function CloseSends(clients: seq<Conn>, ids: map<Conn, string>, ws: Conn): (r: seq<Send>)
    requires ws in ids
    ensures |r| == |Others(clients, ws)|
    ensures forall s :: s in r ==> s.to in clients && s.to != ws && s.msg == PeerLeft(ids[ws])
  {
    var others := Others(clients, ws);
    assert forall k :: 0 <= k < |others| ==> others[k] in others;
    Broadcast(others, PeerLeft(ids[ws]))
  }

  class Relay {
    /** The connected sockets, in the order they connected. */
    var clients: seq<Conn>
    /** The `id` property each socket was given when it connected. */
    var ids: map<Conn, string>
    /** Every `send` performed so far, in order. */
    var log: seq<Send>

    ghost predicate Valid()
      reads this
    {
      NoDup(clients) && Known(clients, ids)
    }

    /** The server starts with no clients and has sent nothing. */
    constructor ()
      ensures Valid()
      ensures clients == [] && ids == map[] && log == []
    {
      clients, ids, log := [], map[], [];
    }

    /** `c.send(JSON.stringify(m))`: the message is recorded as sent to `c`. */
    method Deliver(c: Conn, m: Msg)
      modifies this
      ensures log == old(log) + [Send(c, m)]
      ensures clients == old(clients) && ids == old(ids)
    {
      log := log + [Send(c, m)];
    }

    /** The `connection` handler: the new socket gets `id` and is appended to
        the list; nothing is sent. The server library hands each socket to
        this handler once, so the socket is not listed yet. */
    method OnConnect(ws: Conn, id: string)
      requires Valid() && ws !in clients
      modifies this
      ensures Valid()
      ensures clients == old(clients) + [ws]
      ensures ids == old(ids)[ws := id]
      ensures log == old(log)
    {
      ids := ids[ws := id];
      clients := clients + [ws];
      assert Known(clients, ids);
    }

    /** The `message` handler of socket `ws` (installed when `ws` connected,
        so `ws` has an id). The list and the ids never change; the sends are
        those of `Reaction`. For the frame `null` this is the corrected
        handler, which drops it; the code as written throws there (see
        `NullInput.ReactionAsWritten`). */
    method OnMessage(ws: Conn, raw: Parsed)
      requires Valid() && ws in ids
      modifies this
      ensures Valid()
      ensures clients == old(clients) && ids == old(ids)
      ensures log == old(log) + Reaction(clients, ids, ws, raw)
    {
      if !raw.Value? {
        return;
      }
      var data := raw.data;
      if data.Join? {
        AnnounceJoin(ws, NewPeer(ids[ws], data.name));
        var existing := IdsOf(Others(clients, ws), ids);
        Deliver(ws, ExistingPeers(existing));
      }
      if data.IsSignal() {
        var target := FirstWithId(clients, ids, data.to);
        if target.Some? {
          Deliver(clients[target.value], data);
        }
      }
    }

    /** The `forEach` of the `join` branch: `announce` to every listed
        socket other than `ws`, in list order. */
    method AnnounceJoin(ws: Conn, announce: Msg)
      modifies this
      ensures clients == old(clients) && ids == old(ids)
      ensures log == old(log) + Broadcast(Others(clients, ws), announce)
    {
      var cs := clients;
      for i := 0 to |cs|
        invariant clients == cs && ids == old(ids)
        invariant log == old(log) + Broadcast(Others(cs[..i], ws), announce)
      {
        var c := cs[i];
        assert cs[..i + 1] == cs[..i] + [c];
        FanoutStep(cs[..i], c, ws, announce);
        AnnounceTo(c, ws, announce);
      }
      assert cs[..|cs|] == cs;
    }

    /** The callback of that `forEach`: `announce` to `c` unless `c` is the
        joining socket itself. */
    method AnnounceTo(c: Conn, ws: Conn, announce: Msg)
      modifies this
      ensures clients == old(clients) && ids == old(ids)
      ensures log == old(log) + (if c != ws then [Send(c, announce)] else [])
    {
      if c != ws {
        Deliver(c, announce);
      }
    }

    /** The `close` handler of socket `ws`: the list loses the entries of
        `ws` (matched by socket, not by id) and every remaining socket, in
        list order, is sent `peer-left` with the id of `ws`. */
    method OnClose(ws: Conn)
      requires Valid() && ws in ids
      modifies this
      ensures Valid()
      ensures clients == Others(old(clients), ws) && ids == old(ids)
      ensures log == old(log) + CloseSends(old(clients), ids, ws)
    {
      OthersNoDup(clients, ws);
      clients := Others(clients, ws);
      SendToAll(PeerLeft(ids[ws]));
    }

    /** The `forEach` of the `close` handler: `m` to every listed socket, in
        list order. */
    method SendToAll(m: Msg)
      modifies this
      ensures clients == old(clients) && ids == old(ids)
      ensures log == old(log) + Broadcast(clients, m)
    {
      var cs := clients;
      for i := 0 to |cs|
        invariant clients == cs && ids == old(ids)
        invariant log == old(log) + Broadcast(cs[..i], m)
      {
        var c := cs[i];
        assert cs[..i + 1] == cs[..i] + [c];
        BroadcastSnoc(cs[..i], c, m);
        Deliver(c, m);
      }
      assert cs[..|cs|] == cs;
    }
  }
}
