/** The broadcast hub as a step system: any interleaving of registrations, removals, broadcasts
    and deliveries, with any set of writes failing. */
module HubModel {

  type Msg = string

  const QUEUE_SIZE: nat := 100

  /** clients and queue are the hub's own state. received and closes are what happened at the
      connections; the rest records the run: messages accepted and taken off the queue, where in
      that log each connection joined, and how many broadcasts were offered and dropped. */
  datatype State<C(==)> = State(
    clients: set<C>, queue: seq<Msg>,
    received: map<C, seq<Msg>>, closes: map<C, nat>,
    accepted: seq<Msg>, processed: seq<Msg>, joined: map<C, nat>, offered: nat, dropped: nat)

  datatype Event<C(==)> =
    | Register(conn: C)
    | Unregister(conn: C)
    | Deliver(failing: set<C>)
    | Broadcast(msg: Msg)

  function Initial<C(==)>(): State<C> {
    State({}, [], map[], map[], [], [], map[], 0, 0)
  }

  function Apply<C(==)>(s: State<C>, e: Event<C>): State<C> {
    match e
    case Register(c) =>
      if c in s.joined then s.(clients := s.clients + {c})
      else s.(clients := s.clients + {c}, joined := s.joined[c := |s.processed|],
              received := s.received[c := []], closes := s.closes[c := 0])
    case Unregister(c) =>
      if c in s.clients then s.(clients := s.clients - {c}, closes := Closed(s.closes, {c})) else s
    case Deliver(failing) =>
      if s.queue == [] then s
      else
        var m := s.queue[0];
        s.(queue := s.queue[1..], processed := s.processed + [m],
           clients := s.clients - failing,
           received := Written(s.received, s.clients - failing, m),
           closes := Closed(s.closes, s.clients * failing))
    case Broadcast(m) =>
      if |s.queue| < QUEUE_SIZE then
        s.(queue := s.queue + [m], accepted := s.accepted + [m], offered := s.offered + 1)
      else s.(offered := s.offered + 1, dropped := s.dropped + 1)
  }

  function Closed<C(==)>(closes: map<C, nat>, conns: set<C>): map<C, nat> {
    map c | c in closes :: if c in conns then closes[c] + 1 else closes[c]
  }

  function Written<C(==)>(received: map<C, seq<Msg>>, conns: set<C>, m: Msg): map<C, seq<Msg>> {
    map c | c in received :: if c in conns then received[c] + [m] else received[c]
  }

  function Run<C(==)>(s: State<C>, events: seq<Event<C>>): State<C>
    decreases |events|
  {
    if events == [] then s else Run(Apply(s, events[0]), events[1..])
  }

  lemma {:induction false} RunSnoc<C>(s: State<C>, events: seq<Event<C>>, e: Event<C>)
    ensures Run(s, events + [e]) == Apply(Run(s, events), e)
    decreases |events|
  {
    if events == [] {
      assert [] + [e] == [e];
    } else {
      assert (events + [e])[1..] == events[1..] + [e];
      RunSnoc(Apply(s, events[0]), events[1..], e);
    }
  }

  /** Each upgrade makes a new connection, so none is registered twice. */
  predicate FreshConns<C(==)>(s: State<C>, events: seq<Event<C>>)
    decreases |events|
  {
    events == [] ||
    ((events[0].Register? ==> events[0].conn !in s.joined) && FreshConns(Apply(s, events[0]), events[1..]))
  }

  // ---------- delivery ----------

  /** c got a contiguous stretch of the processed messages, from where it joined. */
  ghost predicate GotStretch<C>(s: State<C>, c: C)
    requires c in s.joined && c in s.received
  {
    var from, n := s.joined[c], |s.received[c]|;
    from + n <= |s.processed| && s.received[c] == s.processed[from..from + n]
  }

  ghost predicate Inv<C>(s: State<C>) {
    && s.received.Keys == s.joined.Keys && s.closes.Keys == s.joined.Keys && s.clients <= s.joined.Keys
    && (forall c :: c in s.joined ==> GotStretch(s, c))
    && (forall c :: c in s.clients ==> s.joined[c] + |s.received[c]| == |s.processed|)
    && (forall c :: c in s.joined ==> s.closes[c] == if c in s.clients then 0 else 1)
    && s.accepted == s.processed + s.queue
    && |s.queue| <= QUEUE_SIZE
    && s.offered == |s.accepted| + s.dropped
  }

  lemma StretchGrows<C>(s: State<C>, t: State<C>, c: C, m: Msg)
    requires c in s.joined && c in s.received && GotStretch(s, c)
    requires c in t.joined && c in t.received && t.joined[c] == s.joined[c] && t.processed == s.processed + [m]
    requires t.received[c] == s.received[c]
             || (t.received[c] == s.received[c] + [m] && s.joined[c] + |s.received[c]| == |s.processed|)
    ensures GotStretch(t, c)
  {
    var from, n := s.joined[c], |s.received[c]|;
    assert t.processed[from..from + n] == s.processed[from..from + n];
    if t.received[c] == s.received[c] + [m] {
      assert t.processed[from..from + n + 1] == s.processed[from..] + [m];
      assert s.processed[from..from + n] == s.processed[from..];
    }
  }

  lemma DeliverStretches<C>(s: State<C>, failing: set<C>)
    requires Inv(s) && s.queue != []
    ensures
      var t := Apply(s, Deliver(failing));
      && t.received.Keys == t.joined.Keys
      && (forall c :: c in t.joined ==> GotStretch(t, c))
      && (forall c :: c in t.clients ==> t.joined[c] + |t.received[c]| == |t.processed|)
  {
    var t, m := Apply(s, Deliver(failing)), s.queue[0];
    forall c | c in t.joined
      ensures GotStretch(t, c)
    {
      StretchGrows(s, t, c, m);
    }
  }

  lemma DeliverKeeps<C>(s: State<C>, failing: set<C>)
    requires Inv(s) && s.queue != []
    ensures Inv(Apply(s, Deliver(failing)))
  {
    DeliverStretches(s, failing);
    var m := s.queue[0];
    assert s.queue == [m] + s.queue[1..];
    assert s.processed + ([m] + s.queue[1..]) == (s.processed + [m]) + s.queue[1..];
  }

  lemma RegisterKeeps<C>(s: State<C>, c: C)
    requires Inv(s) && c !in s.joined
    ensures Inv(Apply(s, Register(c)))
  {
    var t := Apply(s, Register(c));
    forall k | k in t.joined
      ensures GotStretch(t, k)
    {
      assert k != c ==> GotStretch(s, k);
    }
  }

  lemma UnregisterKeeps<C>(s: State<C>, c: C)
    requires Inv(s)
    ensures Inv(Apply(s, Unregister(c)))
  {
    var t := Apply(s, Unregister(c));
    forall k | k in t.joined
      ensures GotStretch(t, k)
    {
      assert GotStretch(s, k);
    }
  }

  lemma BroadcastKeeps<C>(s: State<C>, m: Msg)
    requires Inv(s)
    ensures Inv(Apply(s, Broadcast(m)))
  {
    var t := Apply(s, Broadcast(m));
    assert s.processed + (s.queue + [m]) == (s.processed + s.queue) + [m];
    forall k | k in t.joined
      ensures GotStretch(t, k)
    {
      assert GotStretch(s, k);
    }
  }

  lemma StepKeeps<C>(s: State<C>, e: Event<C>)
    requires Inv(s) && (e.Register? ==> e.conn !in s.joined)
    ensures Inv(Apply(s, e))
  {
    match e {
      case Register(c) => RegisterKeeps(s, c);
      case Unregister(c) => UnregisterKeeps(s, c);
      case Broadcast(m) => BroadcastKeeps(s, m);
      case Deliver(failing) =>
        if s.queue != [] {
          DeliverKeeps(s, failing);
        }
    }
  }

  lemma {:induction false} RunKeeps<C>(s: State<C>, events: seq<Event<C>>)
    requires Inv(s) && FreshConns(s, events)
    ensures Inv(Run(s, events))
    decreases |events|
  {
    if events == [] {
    } else {
      StepKeeps(s, events[0]);
      RunKeeps(Apply(s, events[0]), events[1..]);
    }
  }

  /** After any run: a live client has received exactly the messages processed since it joined, so
      of two live clients the later one's log is a suffix of the earlier one's; a dropped client has
      a gapless stretch from its joining point; no connection is closed twice or while registered;
      broadcasts are processed, queued or dropped, in order. */
  lemma HubDelivery<C>(events: seq<Event<C>>)
    requires FreshConns(Initial<C>(), events)
    ensures
      var s := Run(Initial<C>(), events);
      && s.clients <= s.joined.Keys && s.received.Keys == s.joined.Keys && s.closes.Keys == s.joined.Keys
      && (forall c :: c in s.clients ==>
            s.joined[c] <= |s.processed| && s.received[c] == s.processed[s.joined[c]..] && s.closes[c] == 0)
      && (forall c :: c in s.joined && c !in s.clients ==> GotStretch(s, c) && s.closes[c] == 1)
      && (forall a, b :: a in s.clients && b in s.clients && s.joined[a] <= s.joined[b] ==>
            |s.received[b]| <= |s.received[a]|
            && s.received[a][|s.received[a]| - |s.received[b]|..] == s.received[b])
      && s.accepted == s.processed + s.queue
      && s.offered == |s.processed| + |s.queue| + s.dropped
  {
    RunKeeps(Initial<C>(), events);
    var s := Run(Initial<C>(), events);
    forall c | c in s.clients
      ensures s.joined[c] <= |s.processed| && s.received[c] == s.processed[s.joined[c]..]
    {
      assert GotStretch(s, c);
    }
  }

  /** A broadcast is dropped exactly when 100 messages are already waiting. */
  lemma DropsOnlyWhenFull<C>(events: seq<Event<C>>, e: Event<C>)
    requires FreshConns(Initial<C>(), events)
    ensures
      var s := Run(Initial<C>(), events);
      Apply(s, e).dropped == s.dropped + (if e.Broadcast? && |s.queue| == 100 then 1 else 0)
  {
    RunKeeps(Initial<C>(), events);
  }
}
