/** Pure views of the relay's client list: the `filter`, `map` and `find`
    lookups of the handlers, the fan-out of one message to a list of
    connections, and what one connection receives from a run of sends. */
module Registry {
  import opened Protocol

  /** No connection is listed twice. */
  ghost predicate NoDup(s: seq<Conn>) {
    forall i, j :: 0 <= i < j < |s| ==> s[i] != s[j]
  }

  /** Every listed connection carries an id. */
  ghost predicate Known(cs: seq<Conn>, ids: map<Conn, string>) {
    forall c :: c in cs ==> c in ids
  }

  /** `cs.filter(c => c !== ws)`: the list without the entries for `ws`. */
  function Others(cs: seq<Conn>, ws: Conn): (r: seq<Conn>)
    ensures forall c :: c in r <==> c in cs && c != ws
    ensures |r| <= |cs|
  {
    if cs == [] then []
    else
      assert forall c :: c in cs <==> c == cs[0] || c in cs[1..];
      (if cs[0] != ws then [cs[0]] else []) + Others(cs[1..], ws)
  }

  /** `cs.map(c => c.id)`: the ids of the listed connections, in order. */
  function IdsOf(cs: seq<Conn>, ids: map<Conn, string>): (r: seq<string>)
    requires Known(cs, ids)
    ensures |r| == |cs|
    ensures forall k :: 0 <= k < |cs| ==> r[k] == ids[cs[k]]
  {
    if cs == [] then [] else [ids[cs[0]]] + IdsOf(cs[1..], ids)
  }

  /** Whether the connection's id is the string held in a `to` field
      (`c.id === data.to`). */
  predicate Addressed(ids: map<Conn, string>, c: Conn, to: Option<string>)
    requires c in ids
  {
    to == Some(ids[c])
  }

  /** `cs.find(c => c.id === to)`, as the position of the found entry: the
      first entry whose id equals `to`, or None when there is none. */
  function FirstWithId(cs: seq<Conn>, ids: map<Conn, string>, to: Option<string>): (r: Option<nat>)
    requires Known(cs, ids)
    ensures r.Some? ==> r.value < |cs| && Addressed(ids, cs[r.value], to)
    ensures r.Some? ==> forall j :: 0 <= j < r.value ==> !Addressed(ids, cs[j], to)
    ensures r.None? <==> forall j :: 0 <= j < |cs| ==> !Addressed(ids, cs[j], to)
  {
    if cs == [] then None
    else if Addressed(ids, cs[0], to) then Some(0)
    else
      match FirstWithId(cs[1..], ids, to)
      case None => None
      case Some(k) => Some(k + 1)
  }

  /** One send of `m` to every connection of `targets`, in order
      (`targets.forEach(c => c.send(m))`). */
  function Broadcast(targets: seq<Conn>, m: Msg): (r: seq<Send>)
    ensures |r| == |targets|
    ensures forall k :: 0 <= k < |targets| ==> r[k] == Send(targets[k], m)
  {
    if targets == [] then [] else [Send(targets[0], m)] + Broadcast(targets[1..], m)
  }

  /** The messages sent to `c`, in the order they were sent. */
  function Received(sends: seq<Send>, c: Conn): (r: seq<Msg>)
    ensures forall m :: m in r <==> Send(c, m) in sends
    ensures |r| <= |sends|
  {
    if sends == [] then []
    else
      assert forall s :: s in sends <==> s == sends[0] || s in sends[1..];
      (if sends[0].to == c then [sends[0].msg] else []) + Received(sends[1..], c)
  }

  /** Filtering distributes over concatenation, so it keeps the relative
      order of the entries it keeps. */
  lemma {:induction false} OthersAppend(a: seq<Conn>, b: seq<Conn>, ws: Conn)
    ensures Others(a + b, ws) == Others(a, ws) + Others(b, ws)
  {
    if a == [] {
      assert a + b == b;
    } else {
      assert (a + b)[0] == a[0];
      assert (a + b)[1..] == a[1..] + b;
      OthersAppend(a[1..], b, ws);
    }
  }

  /** A list that does not contain `ws` is left as it is. */
  lemma {:induction false} OthersAbsent(s: seq<Conn>, ws: Conn)
    requires ws !in s
    ensures Others(s, ws) == s
  {
    if s != [] {
      OthersAbsent(s[1..], ws);
    }
  }

  /** In a list without repetitions, the entry at `k` occurs nowhere else. */
  lemma OnlyAt(s: seq<Conn>, k: nat)
    requires NoDup(s) && k < |s|
    ensures s[k] !in s[..k] && s[k] !in s[k + 1..]
  {
    var post := s[k + 1..];
    forall j | 0 <= j < |post| ensures post[j] != s[k] {
      assert post[j] == s[k + 1 + j];
    }
  }

  /** Filtering a list without repetitions removes exactly the one entry of
      `ws` and keeps every other entry in its order. */
  lemma OthersRemovesAt(s: seq<Conn>, ws: Conn, k: nat)
    requires NoDup(s) && k < |s| && s[k] == ws
    ensures Others(s, ws) == s[..k] + s[k + 1..]
    ensures |Others(s, ws)| == |s| - 1
  {
    var pre, post := s[..k], s[k + 1..];
    OnlyAt(s, k);
    assert s == pre + ([ws] + post);
    SplitAround(pre, post, ws);
  }

  lemma SplitAround(pre: seq<Conn>, post: seq<Conn>, ws: Conn)
    requires ws !in pre && ws !in post
    ensures Others(pre + ([ws] + post), ws) == pre + post
  {
    var rest := [ws] + post;
    OthersAppend(pre, rest, ws);
    assert rest[0] == ws && rest[1..] == post;
    assert Others(rest, ws) == Others(post, ws);
    OthersAbsent(pre, ws);
    OthersAbsent(post, ws);
  }

  /** Filtering keeps a list free of repetitions. */
  lemma {:induction false} OthersNoDup(s: seq<Conn>, ws: Conn)
    requires NoDup(s)
    ensures NoDup(Others(s, ws))
  {
    if s != [] {
      assert NoDup(s[1..]) by {
        forall i, j | 0 <= i < j < |s[1..]| ensures s[1..][i] != s[1..][j] {
          assert s[1..][i] == s[i + 1] && s[1..][j] == s[j + 1];
        }
      }
      OthersNoDup(s[1..], ws);
      assert s[0] !in s[1..] by {
        forall j | 0 <= j < |s[1..]| ensures s[1..][j] != s[0] {
          assert s[1..][j] == s[j + 1];
        }
      }
    }
  }

  lemma BroadcastSnoc(t: seq<Conn>, c: Conn, m: Msg)
    ensures Broadcast(t + [c], m) == Broadcast(t, m) + [Send(c, m)]
  {
    var l, r := Broadcast(t + [c], m), Broadcast(t, m) + [Send(c, m)];
    assert |l| == |r|;
    forall k | 0 <= k < |l| ensures l[k] == r[k] {
      if k < |t| {
        assert (t + [c])[k] == t[k];
      } else {
        assert (t + [c])[k] == c;
      }
    }
  }

  /** One more entry of the list adds one more send to the fan-out over the
      filtered list exactly when it is not the excluded socket. */
  lemma FanoutStep(s: seq<Conn>, c: Conn, ws: Conn, m: Msg)
    ensures Broadcast(Others(s + [c], ws), m)
         == Broadcast(Others(s, ws), m) + (if c != ws then [Send(c, m)] else [])
  {
    OthersAppend(s, [c], ws);
    assert Others([c], ws) == if c != ws then [c] else [] by {
      assert [c][1..] == [];
    }
    if c != ws {
      BroadcastSnoc(Others(s, ws), c, m);
    } else {
      assert Others(s, ws) + [] == Others(s, ws);
    }
  }

  /** What a connection receives from two runs of sends is what it receives
      from the first, then what it receives from the second. */
  lemma {:induction false} ReceivedAppend(a: seq<Send>, b: seq<Send>, c: Conn)
    ensures Received(a + b, c) == Received(a, c) + Received(b, c)
  {
    if a == [] {
      assert a + b == b;
    } else {
      assert (a + b)[0] == a[0];
      assert (a + b)[1..] == a[1..] + b;
      ReceivedAppend(a[1..], b, c);
    }
  }

  /** A fan-out over a list without repetitions reaches each listed
      connection exactly once and no other connection at all. */
  lemma {:induction false} ReceivedBroadcast(t: seq<Conn>, m: Msg, c: Conn)
    requires NoDup(t)
    ensures Received(Broadcast(t, m), c) == if c in t then [m] else []
  {
    if t != [] {
      var b := Broadcast(t, m);
      assert b[0] == Send(t[0], m);
      assert b[1..] == Broadcast(t[1..], m);
      assert NoDup(t[1..]) by {
        forall i, j | 0 <= i < j < |t[1..]| ensures t[1..][i] != t[1..][j] {
          assert t[1..][i] == t[i + 1] && t[1..][j] == t[j + 1];
        }
      }
      assert t[0] !in t[1..] by {
        forall j | 0 <= j < |t[1..]| ensures t[1..][j] != t[0] {
          assert t[1..][j] == t[j + 1];
        }
      }
      assert c in t <==> c == t[0] || c in t[1..];
      ReceivedBroadcast(t[1..], m, c);
    }
  }
}
