/** The values the signalling relay handles: connection handles, the JSON
    messages it receives and sends, and one recorded send. */
module Protocol {

  datatype Option<+T> = None | Some(value: T)

  /** A live connection (one `ws` socket object). Two handles denote the same
      connection exactly when they are equal, as `===` on the socket objects. */
  datatype Conn = Conn(handle: nat)

  /** The serialised text of a JSON value the relay carries without looking
      inside it. */
  type JsonText = string

  /** A signalling message, received and sent as one JSON object whose `type`
      field selects the variant.
      - `Join`: client to relay; `name` is whatever the client put in the
        `name` field (None when the field is absent).
      - `NewPeer`, `ExistingPeers`, `PeerLeft`: relay to client. The peer
        list carries ids only, one `{id}` object per peer.
      - `Offer`, `Answer`, `Ice`: relayed between clients. `to` is the target
        id when the field holds a string (None when absent or of another JSON
        type, which no id can equal); `rest` is every other field, opaque.
      - `Other`: any parsed value whose `type` is missing or none of the
        above, carried as its text. */
  datatype Msg =
    | Join(name: Option<JsonText>)
    | NewPeer(id: string, name: Option<JsonText>)
    | ExistingPeers(peers: seq<string>)
    | Offer(to: Option<string>, rest: JsonText)
    | Answer(to: Option<string>, rest: JsonText)
    | Ice(to: Option<string>, rest: JsonText)
    | PeerLeft(id: string)
    | Other(text: JsonText)
  {
    /** The kinds the relay forwards to their `to` target. */
    predicate IsSignal() {
      Offer? || Answer? || Ice?
    }
  }

  /** What `JSON.parse` makes of a raw frame: it throws (`Unparseable`), it
      yields the JSON literal `null`, or it yields a value read as a message. */
  datatype Parsed = Unparseable | Null | Value(data: Msg)

  /** One call of `send` on a connection: the recipient and the message. */
  datatype Send = Send(to: Conn, msg: Msg)
}
