/** cmd/controller/hub.go: the hub's event loop over connection objects. */
module Hub {
  import opened HubModel

  /** A dashboard connection: the text messages it was sent and how often it was closed. */
  class Conn {
    var log: seq<Msg>
    var closes: nat

    constructor ()
      ensures log == [] && closes == 0
    {
      log, closes := [], 0;
    }

    /** Whether the write succeeds is up to the network. */
    method WriteMessage(m: Msg, fails: bool) returns (ok: bool)
      modifies `log
      ensures ok == !fails && log == if fails then old(log) else old(log) + [m]
    {
      if !fails {
        log := log + [m];
      }
      ok := !fails;
    }

    method Close()
      modifies `closes
      ensures closes == old(closes) + 1
    {
      closes := closes + 1;
    }
  }

  class Hub {
    var clients: set<Conn>
    var broadcast: seq<Msg>
    ghost var accepted: seq<Msg>
    ghost var processed: seq<Msg>
    ghost var joined: map<Conn, nat>
    ghost var offered: nat
    ghost var dropped: nat

    ghost predicate Valid()
      reads this
    {
      clients <= joined.Keys
    }

    ghost function Logs(): map<Conn, seq<Msg>>
      reads `joined, joined.Keys
    {
      map c | c in joined :: c.log
    }

    ghost function Closes(): map<Conn, nat>
      reads `joined, joined.Keys
    {
      map c | c in joined :: c.closes
    }

    ghost function Abs(): State<Conn>
      reads this, joined.Keys
    {
      State(clients, broadcast, Logs(), Closes(), accepted, processed, joined, offered, dropped)
    }

    constructor ()
      ensures Valid() && Abs() == Initial<Conn>()
    {
      clients, broadcast := {}, [];
      accepted, processed, joined, offered, dropped := [], [], map[], 0, 0;
    }

    method Register(conn: Conn)
      requires Valid()
      requires conn !in joined ==> conn.log == [] && conn.closes == 0
      modifies this
      ensures Valid() && Abs() == Apply(old(Abs()), Event.Register(conn))
    {
      if conn !in joined {
        joined := joined[conn := |processed|];
      }
      clients := clients + {conn};
    }

    method Unregister(conn: Conn)
      requires Valid()
      modifies this, joined.Keys
      ensures Valid() && Abs() == Apply(old(Abs()), Event.Unregister(conn))
    {
      if conn in clients {
        clients := clients - {conn};
        conn.Close();
      }
    }

    /** The delivery branch: the loop meets the clients in any order and drops the failing ones. */
    method Deliver(failing: set<Conn>)
      requires Valid()
      modifies this, joined.Keys
      ensures Valid() && Abs() == Apply(old(Abs()), Event.Deliver(failing))
    {
      if broadcast == [] {
        return;
      }
      var message := Take();
      SendAll(message, failing);
    }

    /** Receiving from the channel. */
    method Take() returns (message: Msg)
      requires Valid() && broadcast != []
      modifies `broadcast, `processed
      ensures message == old(broadcast)[0]
      ensures broadcast == old(broadcast)[1..] && processed == old(processed) + [message]
    {
      message := broadcast[0];
      broadcast := broadcast[1..];
      processed := processed + [message];
    }

    method SendAll(message: Msg, failing: set<Conn>)
      requires Valid()
      modifies `clients, joined.Keys
      ensures clients == old(clients) - failing
      ensures Logs() == Written(old(Logs()), old(clients) - failing, message)
      ensures Closes() == Closed(old(Closes()), old(clients) * failing)
    {
      SendEach(message, failing);
    }

    /** The range loop over the clients. */
    method SendEach(message: Msg, failing: set<Conn>)
      requires Valid()
      modifies `clients, joined.Keys
      ensures clients == old(clients) - failing
      ensures forall c :: c in joined ==>
                c.log == (if c in old(clients) && c !in failing then old(c.log) + [message] else old(c.log))
                && c.closes == (if c in old(clients) && c in failing then old(c.closes) + 1 else old(c.closes))
    {
      ghost var all := clients;
      var todo := clients;
      while todo != {}
        invariant todo <= all && clients == all - ((all - todo) * failing)
        invariant forall c :: c in joined ==>
                    c.log == (if c in all && c !in todo && c !in failing then old(c.log) + [message] else old(c.log))
                    && c.closes == (if c in all && c !in todo && c in failing then old(c.closes) + 1 else old(c.closes))
      {
        var conn :| conn in todo;
        SendOrDrop(conn, message, conn in failing);
        todo := todo - {conn};
      }
    }

    /** The loop body: a client whose write fails is closed and forgotten. */
    method SendOrDrop(conn: Conn, message: Msg, fails: bool)
      modifies `clients, conn
      ensures clients == if fails then old(clients) - {conn} else old(clients)
      ensures conn.log == if fails then old(conn.log) else old(conn.log) + [message]
      ensures conn.closes == if fails then old(conn.closes) + 1 else old(conn.closes)
    {
      var ok := conn.WriteMessage(message, fails);
      if !ok {
        conn.Close();
        clients := clients - {conn};
      }
    }

    /** A non-blocking send on the buffered channel. */
    method BroadcastJSON(data: Msg)
      requires Valid()
      modifies `broadcast, `accepted, `offered, `dropped
      ensures Valid() && Abs() == Apply(old(Abs()), Event.Broadcast(data))
      ensures broadcast == if |old(broadcast)| < 100 then old(broadcast) + [data] else old(broadcast)
    {
      offered := offered + 1;
      if |broadcast| < QUEUE_SIZE {
        broadcast := broadcast + [data];
        accepted := accepted + [data];
      } else {
        dropped := dropped + 1;
      }
    }

    /** One choice of the event loop's select, broadcasts included. */
    method Handle(e: Event<Conn>)
      requires Valid()
      requires e.Register? && e.conn !in joined ==> e.conn.log == [] && e.conn.closes == 0
      modifies this, joined.Keys
      ensures Valid() && Abs() == Apply(old(Abs()), e)
      ensures joined.Keys == old(joined.Keys) + if e.Register? then {e.conn} else {}
    {
      match e {
        case Register(conn) => Register(conn);
        case Unregister(conn) => Unregister(conn);
        case Deliver(failing) => Deliver(failing);
        case Broadcast(data) => BroadcastJSON(data);
      }
    }

    /** The event loop over the first |script| choices. */
    method Run(script: seq<Event<Conn>>)
      requires Valid()
      requires forall e :: e in script && e.Register? && e.conn !in joined ==> e.conn.log == [] && e.conn.closes == 0
      modifies this, joined.Keys, set e | e in script && e.Register? :: e.conn
      ensures Valid() && Abs() == HubModel.Run(old(Abs()), script)
    {
      for i := 0 to |script|
        invariant Valid() && Abs() == HubModel.Run(old(Abs()), script[..i])
        invariant joined.Keys <= old(joined.Keys) + set e | e in script && e.Register? :: e.conn
        invariant forall e :: e in script && e.Register? && e.conn !in joined ==> e.conn.log == [] && e.conn.closes == 0
      {
        assert script[i] in script;
        RunSnoc(old(Abs()), script[..i], script[i]);
        assert script[..i + 1] == script[..i] + [script[i]];
        Handle(script[i]);
      }
      assert script[..|script|] == script;
    }
  }
}
