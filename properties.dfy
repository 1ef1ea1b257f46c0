/** What the relay's handlers promise, stated over the sends they perform
    (the functions `Reaction` and `CloseSends` that the handlers' contracts
    equal) and over the client list. */
module SignalingProperties {
  import opened Protocol
  import opened Registry
  import opened Signaling

  /** A run of sends none of which is addressed to `c` gives `c` nothing. */
  lemma {:induction false} ReceivedNone(sends: seq<Send>, c: Conn)
    requires forall k :: 0 <= k < |sends| ==> sends[k].to != c
    ensures Received(sends, c) == []
  {
    if sends != [] {
      assert forall k :: 0 <= k < |sends[1..]| ==> sends[1..][k] == sends[k + 1];
      ReceivedNone(sends[1..], c);
    }
  }

  /** The ids of a concatenation are the ids of each part, in order. */
  lemma {:induction false} IdsOfAppend(a: seq<Conn>, b: seq<Conn>, ids: map<Conn, string>)
    requires Known(a, ids) && Known(b, ids)
    ensures Known(a + b, ids)
    ensures IdsOf(a + b, ids) == IdsOf(a, ids) + IdsOf(b, ids)
  {
    if a == [] {
      assert a + b == b;
    } else {
      assert (a + b)[0] == a[0];
      assert (a + b)[1..] == a[1..] + b;
      IdsOfAppend(a[1..], b, ids);
    }
  }

  /** Join, broadcast: every other listed connection receives exactly one
      message, `new-peer` with the joiner's id and the `name` it sent. */
  lemma JoinNotifiesEachOther(clients: seq<Conn>, ids: map<Conn, string>, ws: Conn, name: Option<JsonText>, c: Conn)
    requires NoDup(clients) && Known(clients, ids) && ws in ids
    requires c in clients && c != ws
    ensures Received(Reaction(clients, ids, ws, Value(Join(name))), c) == [NewPeer(ids[ws], name)]
  {
    var others := Others(clients, ws);
    var reply := Send(ws, ExistingPeers(IdsOf(others, ids)));
    ReceivedAppend(Broadcast(others, NewPeer(ids[ws], name)), [reply], c);
    OthersNoDup(clients, ws);
    ReceivedBroadcast(others, NewPeer(ids[ws], name), c);
    ReceivedNone([reply], c);
  }

  /** Join, reply: the joiner receives no `new-peer` and exactly one
      `existing-peers`, listing the ids of the other listed connections. */
  lemma JoinRepliesToJoiner(clients: seq<Conn>, ids: map<Conn, string>, ws: Conn, name: Option<JsonText>)
    requires Known(clients, ids) && ws in ids
    ensures Received(Reaction(clients, ids, ws, Value(Join(name))), ws)
         == [ExistingPeers(IdsOf(Others(clients, ws), ids))]
  {
    var others := Others(clients, ws);
    var reply := Send(ws, ExistingPeers(IdsOf(others, ids)));
    var fanout := Broadcast(others, NewPeer(ids[ws], name));
    ReceivedAppend(fanout, [reply], ws);
    assert forall k :: 0 <= k < |fanout| ==> fanout[k].to == others[k] && others[k] in others;
    ReceivedNone(fanout, ws);
    assert [reply][1..] == [];
  }

  /** Join, order: the sends are the `new-peer` messages, one per other
      listed connection in list order, and the `existing-peers` reply comes
      after all of them, as the last send. */
  lemma JoinReplyComesLast(clients: seq<Conn>, ids: map<Conn, string>, ws: Conn, name: Option<JsonText>)
    requires Known(clients, ids) && ws in ids
    ensures var s, others := Reaction(clients, ids, ws, Value(Join(name))), Others(clients, ws);
      && |s| == |others| + 1
      && (forall k :: 0 <= k < |others| ==> s[k] == Send(others[k], NewPeer(ids[ws], name)) && s[k].to != ws)
      && s[|others|] == Send(ws, ExistingPeers(IdsOf(others, ids)))
  {
    var others := Others(clients, ws);
    assert forall k :: 0 <= k < |others| ==> others[k] in others;
  }

  /** Join, reply contents: the peer list holds the ids of every listed
      connection before the joiner's entry, then of every one after it, in
      list order; the joiner's own entry is the only one left out. */
  lemma ExistingPeersInListOrder(clients: seq<Conn>, ids: map<Conn, string>, ws: Conn, k: nat)
    requires NoDup(clients) && Known(clients, ids)
    requires k < |clients| && clients[k] == ws
    ensures Known(clients[..k], ids) && Known(clients[k + 1..], ids)
    ensures IdsOf(Others(clients, ws), ids) == IdsOf(clients[..k], ids) + IdsOf(clients[k + 1..], ids)
  {
    OthersRemovesAt(clients, ws, k);
    IdsOfAppend(clients[..k], clients[k + 1..], ids);
  }

  /** Join from a connection that has an id but is not listed: the peer
      list is the ids of the whole list. The server library emits no
      `message` after `close`, so the server never meets this case; it is
      here because the message handler's precondition asks only that the
      socket has an id, not that it is listed. */
  lemma ExistingPeersWhenUnlisted(clients: seq<Conn>, ids: map<Conn, string>, ws: Conn)
    requires Known(clients, ids) && ws !in clients
    ensures IdsOf(Others(clients, ws), ids) == IdsOf(clients, ids)
  {
    OthersAbsent(clients, ws);
  }

  /** Forwarding: a signal whose `to` is the id of some listed connection is
      sent, unchanged and once, to the first such connection, and nowhere
      else. */
  lemma ForwardReachesFirstMatch(clients: seq<Conn>, ids: map<Conn, string>, ws: Conn, m: Msg, k: nat)
    requires Known(clients, ids) && ws in ids && m.IsSignal()
    requires k < |clients| && Addressed(ids, clients[k], m.to)
    requires forall j :: 0 <= j < k ==> !Addressed(ids, clients[j], m.to)
    ensures Reaction(clients, ids, ws, Value(m)) == [Send(clients[k], m)]
  {
    assert FirstWithId(clients, ids, m.to) == Some(k);
  }

  /** Forwarding: when no listed connection has the `to` id, nothing at all
      is sent, and in particular no error back to the sender. */
  lemma ForwardWithoutTargetIsDropped(clients: seq<Conn>, ids: map<Conn, string>, ws: Conn, m: Msg)
    requires Known(clients, ids) && ws in ids && m.IsSignal()
    requires forall j :: 0 <= j < |clients| ==> !Addressed(ids, clients[j], m.to)
    ensures Reaction(clients, ids, ws, Value(m)) == []
  {
  }

  /** A frame yields no send at all exactly when it does not parse, is
      `null`, has a type other than `join`, `offer`, `answer` and `ice`, or is
      a signal whose target is not listed. */
  lemma SilentExactlyWhenUnusable(clients: seq<Conn>, ids: map<Conn, string>, ws: Conn, raw: Parsed)
    requires Known(clients, ids) && ws in ids
    ensures Reaction(clients, ids, ws, raw) == [] <==>
      || raw.Unparseable?
      || raw.Null?
      || (raw.Value? && !raw.data.Join? && !raw.data.IsSignal())
      || (raw.Value? && raw.data.IsSignal() && FirstWithId(clients, ids, raw.data.to).None?)
  {
  }

  /** A connection that is no longer listed receives nothing from any frame
      another connection sends afterwards. */
  lemma ClosedConnectionHearsNothing(clients: seq<Conn>, ids: map<Conn, string>, ws: Conn, raw: Parsed, gone: Conn)
    requires Known(clients, ids) && ws in ids
    requires gone !in clients && gone != ws
    ensures Received(Reaction(clients, ids, ws, raw), gone) == []
  {
    var s := Reaction(clients, ids, ws, raw);
    assert forall k :: 0 <= k < |s| ==> s[k] in s;
    ReceivedNone(s, gone);
  }

  /** Close: every connection still listed receives exactly one `peer-left`
      with the closed connection's id; the closed connection and unlisted
      ones receive nothing. */
  lemma CloseNotifiesEachRemaining(clients: seq<Conn>, ids: map<Conn, string>, ws: Conn, c: Conn)
    requires NoDup(clients) && ws in ids
    ensures Received(CloseSends(clients, ids, ws), c)
         == if c in clients && c != ws then [PeerLeft(ids[ws])] else []
  {
    OthersNoDup(clients, ws);
    ReceivedBroadcast(Others(clients, ws), PeerLeft(ids[ws]), c);
  }

  /** The session of two browsers: X connects and joins, Y connects and
      joins, Y sends X an offer, X closes, and Y's next offer to X and a
      garbled frame are dropped. */
  method TwoPeerSession() returns (log: seq<Send>)
    ensures log == [
      Send(Conn(1), ExistingPeers([])),
      Send(Conn(1), NewPeer("idY", Some("\"Bob\""))),
      Send(Conn(2), ExistingPeers(["idX"])),
      Send(Conn(1), Offer(Some("idX"), "{\"sdp\":\"o1\"}")),
      Send(Conn(2), PeerLeft("idX"))
    ]
  {
    var relay := SessionJoins();
    SessionOfferAndClose(relay);
    SessionDrops(relay);
    log := relay.log;
  }

  /** X connects and joins alone, then Y connects and joins. */
  method SessionJoins() returns (relay: Relay)
    ensures fresh(relay)
    ensures relay.Valid() && relay.clients == [Conn(1), Conn(2)] && relay.ids == SessionIds()
    ensures relay.log == [
      Send(Conn(1), ExistingPeers([])),
      Send(Conn(1), NewPeer("idY", Some("\"Bob\""))),
      Send(Conn(2), ExistingPeers(["idX"]))
    ]
  {
    var x, y := Conn(1), Conn(2);
    relay := new Relay();
    relay.OnConnect(x, "idX");
    assert relay.clients == [x] && relay.ids == map[x := "idX"];
    SessionJoinX();
    relay.OnMessage(x, Value(Join(Some("\"Alice\""))));
    relay.OnConnect(y, "idY");
    assert relay.clients == [x, y] && relay.ids == SessionIds();
    SessionJoinY();
    relay.OnMessage(y, Value(Join(Some("\"Bob\""))));
  }

  /** Y offers to X, then X closes. */
  method SessionOfferAndClose(relay: Relay)
    requires relay.Valid() && relay.clients == [Conn(1), Conn(2)] && relay.ids == SessionIds()
    modifies relay
    ensures relay.Valid() && relay.clients == [Conn(2)] && relay.ids == SessionIds()
    ensures relay.log == old(relay.log) + [
      Send(Conn(1), Offer(Some("idX"), "{\"sdp\":\"o1\"}")),
      Send(Conn(2), PeerLeft("idX"))
    ]
  {
    SessionOffer();
    relay.OnMessage(Conn(2), Value(Offer(Some("idX"), "{\"sdp\":\"o1\"}")));
    SessionClose();
    relay.OnClose(Conn(1));
  }

  /** With X gone, Y's offer to X and a garbled frame send nothing. */
  method SessionDrops(relay: Relay)
    requires relay.Valid() && relay.clients == [Conn(2)] && relay.ids == SessionIds()
    modifies relay
    ensures relay.log == old(relay.log)
  {
    SessionAfterClose();
    relay.OnMessage(Conn(2), Value(Offer(Some("idX"), "{\"sdp\":\"o2\"}")));
    relay.OnMessage(Conn(2), Unparseable);
  }

  /** The socket ids of the session once both browsers are connected. */
  function SessionIds(): map<Conn, string> {
    map[Conn(1) := "idX", Conn(2) := "idY"]
  }

  /** X joins while alone: only its empty `existing-peers` reply is sent. */
  lemma SessionJoinX()
    ensures Known([Conn(1)], map[Conn(1) := "idX"])
    ensures Reaction([Conn(1)], map[Conn(1) := "idX"], Conn(1), Value(Join(Some("\"Alice\""))))
         == [Send(Conn(1), ExistingPeers([]))]
  {
    var x := Conn(1);
    assert [x][1..] == [];
    assert Others([x], x) == [];
  }

  /** Y joins after X: X is told about Y, then Y is told about X. */
  lemma SessionJoinY()
    ensures Known([Conn(1), Conn(2)], SessionIds())
    ensures Reaction([Conn(1), Conn(2)], SessionIds(), Conn(2), Value(Join(Some("\"Bob\""))))
         == [Send(Conn(1), NewPeer("idY", Some("\"Bob\""))), Send(Conn(2), ExistingPeers(["idX"]))]
  {
    var x, y := Conn(1), Conn(2);
    assert [x, y][1..] == [y] && [y][1..] == [];
    assert Others([y], y) == [];
    assert Others([x, y], y) == [x];
    assert IdsOf([x], SessionIds()) == ["idX"];
  }

  /** Y's offer to X reaches X unchanged. */
  lemma SessionOffer()
    ensures Known([Conn(1), Conn(2)], SessionIds())
    ensures Reaction([Conn(1), Conn(2)], SessionIds(), Conn(2), Value(Offer(Some("idX"), "{\"sdp\":\"o1\"}")))
         == [Send(Conn(1), Offer(Some("idX"), "{\"sdp\":\"o1\"}"))]
  {
    assert FirstWithId([Conn(1), Conn(2)], SessionIds(), Some("idX")) == Some(0);
  }

  /** X closes: Y alone is told. */
  lemma SessionClose()
    ensures Others([Conn(1), Conn(2)], Conn(1)) == [Conn(2)]
    ensures CloseSends([Conn(1), Conn(2)], SessionIds(), Conn(1)) == [Send(Conn(2), PeerLeft("idX"))]
  {
    var x, y := Conn(1), Conn(2);
    assert [x, y][1..] == [y] && [y][1..] == [];
    assert Others([y], x) == [y];
  }

  /** After X has closed, an offer to X goes nowhere. */
  lemma SessionAfterClose()
    ensures Known([Conn(2)], SessionIds())
    ensures Reaction([Conn(2)], SessionIds(), Conn(2), Value(Offer(Some("idX"), "{\"sdp\":\"o2\"}"))) == []
  {
    assert FirstWithId([Conn(2)], SessionIds(), Some("idX")) == None by {
      assert [Conn(2)][1..] == [];
    }
  }
}
