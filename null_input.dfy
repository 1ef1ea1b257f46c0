/** The message handler as written, for the one input where it differs
    from `Signaling.Reaction`: the frame `null`. `JSON.parse` accepts it and
    returns `null`, the `try` lets it through, and the next line reads
    `data.type`, which throws a TypeError out of the handler. Nothing catches
    it, so the server process stops and every client loses its connection.
    The `try` shows that bad input was meant to be dropped; `Reaction` drops
    `null` too, and the rest of the model uses `Reaction`. */
module NullInput {
  import opened Protocol
  import opened Registry
  import opened Signaling

  /** How a run of the handler ends: it throws before sending anything, or
      it returns after the given sends. */
  datatype Outcome = Threw | Completed(sends: seq<Send>)

  /** The handler as written: the property read on a parsed `null` throws;
      every other frame is handled as `Reaction` says. */
  function ReactionAsWritten(clients: seq<Conn>, ids: map<Conn, string>, ws: Conn, raw: Parsed): (r: Outcome)
    requires Known(clients, ids) && ws in ids
    ensures r.Threw? <==> raw.Null?
    ensures r.Completed? ==> forall s :: s in r.sends ==> s.to in clients || s.to == ws
  {
    if raw.Null? then Threw else Completed(Reaction(clients, ids, ws, raw))
  }

  /** The frame `null` makes the handler as written throw, whatever the list. */
  lemma NullThrowsAsWritten(clients: seq<Conn>, ids: map<Conn, string>, ws: Conn)
    requires Known(clients, ids) && ws in ids
    ensures ReactionAsWritten(clients, ids, ws, Null) == Threw
  {
  }

  /** The corrected handler drops `null` silently, like a frame that does
      not parse, and the two agree on every other frame. */
  lemma CorrectedDropsNull(clients: seq<Conn>, ids: map<Conn, string>, ws: Conn, raw: Parsed)
    requires Known(clients, ids) && ws in ids
    ensures Reaction(clients, ids, ws, Null) == Reaction(clients, ids, ws, Unparseable) == []
    ensures raw != Null ==> ReactionAsWritten(clients, ids, ws, raw) == Completed(Reaction(clients, ids, ws, raw))
  {
  }
}
