/** The hub told by its events alone: what was accepted, how much of it is out, who is a client, and
    which stretch of it each client got. */
module HubOrder {
  import opened HubModel

  /** How many messages wait after these events: the channel holds at most 100. */
  function Waiting<C(==)>(events: seq<Event<C>>): nat {
    if events == [] then 0
    else
      var before, last := Waiting(events[..|events| - 1]), events[|events| - 1];
      if last.Broadcast? && before < 100 then before + 1
      else if last.Deliver? && before > 0 then before - 1
      else before
  }

  /** The payloads of the broadcasts that met fewer than 100 waiting messages, in order. */
  function Accepted<C(==)>(events: seq<Event<C>>): seq<Msg> {
    if events == [] then []
    else
      var before, last := events[..|events| - 1], events[|events| - 1];
      Accepted(before) + if last.Broadcast? && Waiting(before) < 100 then [last.msg] else []
  }

  /** How many messages have been taken off the channel. */
  function Delivered<C(==)>(events: seq<Event<C>>): nat {
    if events == [] then 0
    else
      var before, last := events[..|events| - 1], events[|events| - 1];
      Delivered(before) + if last.Deliver? && Waiting(before) > 0 then 1 else 0
  }

  /** The connection's last registration has not been followed by its removal, nor by a failed write. */
  predicate IsClient<C(==)>(events: seq<Event<C>>, c: C) {
    if events == [] then false
    else
      var before, last := events[..|events| - 1], events[|events| - 1];
      match last
      case Register(conn) => conn == c || IsClient(before, c)
      case Unregister(conn) => conn != c && IsClient(before, c)
      case Deliver(failing) => (c !in failing || Waiting(before) == 0) && IsClient(before, c)
      case Broadcast(_) => IsClient(before, c)
  }

  /** How many messages were out when the connection was first registered. */
  function JoinedAt<C(==)>(events: seq<Event<C>>, c: C): nat {
    if events == [] then 0
    else
      var before, last := events[..|events| - 1], events[|events| - 1];
      if last == Register(c) && Register(c) !in before then Delivered(before) else JoinedAt(before, c)
  }

  ghost predicate QueueFollows<C>(s: State<C>, events: seq<Event<C>>) {
    s.processed + s.queue == Accepted(events) && |s.queue| == Waiting(events) && |s.processed| == Delivered(events)
  }

  ghost predicate ClientFollows<C>(s: State<C>, events: seq<Event<C>>, c: C) {
    && (c in s.clients <==> IsClient(events, c))
    && (c in s.joined <==> Register(c) in events)
    && (c in s.joined ==> s.joined[c] == JoinedAt(events, c))
  }

  lemma QueueStep<C>(s: State<C>, events: seq<Event<C>>, e: Event<C>)
    requires QueueFollows(s, events)
    ensures QueueFollows(Apply(s, e), events + [e])
  {
    assert (events + [e])[..|events|] == events;
    match e {
      case Deliver(_) =>
        if s.queue != [] {
          assert s.queue == [s.queue[0]] + s.queue[1..];
          assert (s.processed + [s.queue[0]]) + s.queue[1..] == s.processed + s.queue;
        }
      case Broadcast(m) => assert s.processed + (s.queue + [m]) == (s.processed + s.queue) + [m];
      case _ =>
    }
  }

  lemma ClientStep<C>(s: State<C>, events: seq<Event<C>>, e: Event<C>, c: C)
    requires QueueFollows(s, events) && ClientFollows(s, events, c)
    ensures ClientFollows(Apply(s, e), events + [e], c)
  {
    var all := events + [e];
    assert all[..|events|] == events && all[|events|] == e;
    assert Register(c) in all <==> Register(c) in events || e == Register(c);
  }

  lemma {:induction false} RunFollows<C>(events: seq<Event<C>>, c: C)
    ensures QueueFollows(Run(Initial<C>(), events), events)
    ensures ClientFollows(Run(Initial<C>(), events), events, c)
  {
    if events == [] {
    } else {
      var before, last := events[..|events| - 1], events[|events| - 1];
      assert events == before + [last];
      RunFollows(before, c);
      RunSnoc(Initial<C>(), before, last);
      QueueStep(Run(Initial<C>(), before), before, last);
      ClientStep(Run(Initial<C>(), before), before, last, c);
    }
  }

  /** First in, first out: the messages processed and waiting are the accepted payloads in the order of
      their broadcasts, and each client has received exactly those from its registration up to the
      latest one processed. */
  lemma DeliveredInOrder<C>(events: seq<Event<C>>, c: C)
    requires FreshConns(Initial<C>(), events)
    ensures
      var s := Run(Initial<C>(), events);
      && s.processed + s.queue == Accepted(events) && |s.queue| == Waiting(events)
      && (c in s.clients <==> IsClient(events, c))
      && (IsClient(events, c) ==>
            && c in s.received && JoinedAt(events, c) <= Delivered(events) <= |Accepted(events)|
            && s.received[c] == Accepted(events)[JoinedAt(events, c)..Delivered(events)])
  {
    RunFollows(events, c);
    HubDelivery(events);
    var s := Run(Initial<C>(), events);
    if c in s.clients {
      assert s.processed == Accepted(events)[..|s.processed|];
    }
  }
}
