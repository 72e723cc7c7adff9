/** Liveness detection over timed runs: who is ONLINE when. Times are nanoseconds. */
module RegistryLiveness {
  import opened Text
  import opened GoTime
  import opened ClusterTypes
  import opened RegistryModel
  import opened RegistryRecovery

  const TIMEOUT := 15 * SECOND
  const REAP_PERIOD := 5 * SECOND
  const HEARTBEAT_PERIOD := 5 * SECOND

  /** A registration accepted for node id, or a heartbeat from it. */
  ghost predicate Contacts(cfg: Config, s: State, op: Op, id: string) {
    match op
    case Register(req, _, _, _) =>
      TokenOk(cfg, req.clusterToken) && MACOwner(s.nodes, req.hardware.macAddress) == Some(id)
    case Heartbeat(sender, _, _) => sender == id
    case _ => false
  }

  lemma ContactMarksOnline(cfg: Config, s: State, now: int, op: Op, id: string)
    requires id in s.nodes && Contacts(cfg, s, op, id)
    ensures
      var t := Apply(cfg, s, now, op);
      id in t.nodes && t.nodes[id].status == Online && t.nodes[id].lastSeen == now
  {
  }

  lemma OtherStepsLeave(cfg: Config, s: State, now: int, op: Op, id: string)
    requires id in s.nodes && Spares(cfg, s, op, id) && !op.Restart? && !Contacts(cfg, s, op, id)
    ensures
      var t := Apply(cfg, s, now, op);
      id in t.nodes && t.nodes[id] == if op.Reap? then Reaped(s.nodes[id], now, op.timeout) else s.nodes[id]
  {
  }

  /** One controller run (no restart) seen from node id: clocks do not go back, the node is not
      removed, and every reap uses timeout T. */
  ghost predicate Observed(cfg: Config, s: State, steps: seq<Step>, id: string, T: int, from: int, end: int)
    decreases |steps|
  {
    if steps == [] then from <= end
    else
      && from <= steps[0].now
      && Spares(cfg, s, steps[0].op, id) && !steps[0].op.Restart?
      && (steps[0].op.Reap? ==> steps[0].op.timeout == T)
      && Observed(cfg, Apply(cfg, s, steps[0].now, steps[0].op), steps[1..], id, T, steps[0].now, end)
  }

  /** Contacts of id are at most T apart, counting one at `last` before the run and the end of
      the run as the close of the final gap. */
  ghost predicate GapsWithin(cfg: Config, s: State, steps: seq<Step>, id: string, T: int, last: int, end: int)
    decreases |steps|
  {
    if steps == [] then end - last <= T
    else
      var here := Contacts(cfg, s, steps[0].op, id);
      && (here ==> steps[0].now - last <= T)
      && GapsWithin(cfg, Apply(cfg, s, steps[0].now, steps[0].op), steps[1..], id, T,
                    if here then steps[0].now else last, end)
  }

  /** The close of the current gap bounds every time before it. */
  lemma {:induction false} GapCovers(cfg: Config, s: State, steps: seq<Step>, id: string, T: int,
                                     last: int, from: int, end: int)
    requires Observed(cfg, s, steps, id, T, from, end) && GapsWithin(cfg, s, steps, id, T, last, end)
    ensures from - last <= T
    decreases |steps|
  {
    if steps == [] || Contacts(cfg, s, steps[0].op, id) {
    } else {
      GapCovers(cfg, Apply(cfg, s, steps[0].now, steps[0].op), steps[1..], id, T, last, steps[0].now, end);
    }
  }

  /** A node whose contacts are at most T apart is ONLINE after every prefix of the run. */
  lemma {:induction false} RegularNodeStaysOnline(cfg: Config, s: State, steps: seq<Step>, id: string, T: int,
                                                  from: int, end: int, upto: nat)
    requires id in s.nodes && s.nodes[id].status == Online && upto <= |steps|
    requires Observed(cfg, s, steps, id, T, from, end)
    requires GapsWithin(cfg, s, steps, id, T, s.nodes[id].lastSeen, end)
    ensures
      var t := Run(cfg, s, steps[..upto]);
      id in t.nodes && t.nodes[id].status == Online
    decreases |steps|
  {
    if upto == 0 {
    } else {
      var op, now := steps[0].op, steps[0].now;
      var t := Apply(cfg, s, now, op);
      if Contacts(cfg, s, op, id) {
        ContactMarksOnline(cfg, s, now, op, id);
      } else {
        OtherStepsLeave(cfg, s, now, op, id);
        GapCovers(cfg, t, steps[1..], id, T, s.nodes[id].lastSeen, now, end);
      }
      RegularNodeStaysOnline(cfg, t, steps[1..], id, T, now, end, upto - 1);
      assert steps[..upto][1..] == steps[1..][..upto - 1];
    }
  }

  /** Reap ticks are at most g apart: `tick` is the latest so far, and no tick is overdue at the end. */
  ghost predicate TicksWithin(steps: seq<Step>, g: int, tick: int, end: int)
    decreases |steps|
  {
    if steps == [] then end < tick + g
    else
      && (steps[0].op.Reap? ==> steps[0].now <= tick + g)
      && TicksWithin(steps[1..], g, if steps[0].op.Reap? then steps[0].now else tick, end)
  }

  ghost predicate Silent(cfg: Config, s: State, steps: seq<Step>, id: string)
    decreases |steps|
  {
    steps == [] ||
    (!Contacts(cfg, s, steps[0].op, id)
     && Silent(cfg, Apply(cfg, s, steps[0].now, steps[0].op), steps[1..], id))
  }

  /** A node last seen at L and silent since is OFFLINE at every time from L + T + g on. */
  lemma {:induction false} SilentNodeGoesOffline(cfg: Config, s: State, steps: seq<Step>, id: string, T: int,
                                                 g: int, tick: int, from: int, end: int)
    requires id in s.nodes && s.nodes[id].status in {Online, Offline}
    requires Observed(cfg, s, steps, id, T, from, end) && Silent(cfg, s, steps, id)
    requires TicksWithin(steps, g, tick, end)
    requires tick - s.nodes[id].lastSeen > T ==> s.nodes[id].status == Offline
    requires end >= s.nodes[id].lastSeen + T + g
    ensures
      var t := Run(cfg, s, steps);
      id in t.nodes && t.nodes[id].status == Offline && t.nodes[id].lastSeen == s.nodes[id].lastSeen
    decreases |steps|
  {
    if steps == [] {
    } else {
      var op, now := steps[0].op, steps[0].now;
      OtherStepsLeave(cfg, s, now, op, id);
      SilentNodeGoesOffline(cfg, Apply(cfg, s, now, op), steps[1..], id, T, g,
                            if op.Reap? then now else tick, now, end);
    }
  }

  /** With the controller's constants: a node that heartbeats may lose two beats in a row and stay
      ONLINE, and a dead one is reported within 20 seconds of its last contact. */
  lemma ControllerTiming(cfg: Config, s: State, steps: seq<Step>, id: string, tick: int, from: int, end: int)
    requires id in s.nodes && s.nodes[id].status == Online
    requires Observed(cfg, s, steps, id, TIMEOUT, from, end)
    ensures GapsWithin(cfg, s, steps, id, 3 * HEARTBEAT_PERIOD, s.nodes[id].lastSeen, end) ==>
              var t := Run(cfg, s, steps); id in t.nodes && t.nodes[id].status == Online
    ensures && Silent(cfg, s, steps, id)
            && TicksWithin(steps, REAP_PERIOD, tick, end)
            && tick <= s.nodes[id].lastSeen + TIMEOUT
            && end >= s.nodes[id].lastSeen + 20 * SECOND ==>
              var t := Run(cfg, s, steps); id in t.nodes && t.nodes[id].status == Offline
  {
    if GapsWithin(cfg, s, steps, id, 3 * HEARTBEAT_PERIOD, s.nodes[id].lastSeen, end) {
      RegularNodeStaysOnline(cfg, s, steps, id, TIMEOUT, from, end, |steps|);
      assert steps[..|steps|] == steps;
    }
    if && Silent(cfg, s, steps, id) && TicksWithin(steps, REAP_PERIOD, tick, end)
       && tick <= s.nodes[id].lastSeen + TIMEOUT && end >= s.nodes[id].lastSeen + 20 * SECOND {
      SilentNodeGoesOffline(cfg, s, steps, id, TIMEOUT, REAP_PERIOD, tick, from, end);
    }
  }

  // ---------- across a restart ----------

  ghost predicate OverdueAtReap(steps: seq<Step>, lastSeen: int, T: int) {
    exists k :: 0 <= k < |steps| && steps[k].op.Reap? && steps[k].now - lastSeen > T
  }

  lemma OverdueFirst(steps: seq<Step>, lastSeen: int, T: int)
    requires steps != []
    ensures OverdueAtReap(steps, lastSeen, T) <==>
              (steps[0].op.Reap? && steps[0].now - lastSeen > T) || OverdueAtReap(steps[1..], lastSeen, T)
  {
    if OverdueAtReap(steps, lastSeen, T) {
      var k :| 0 <= k < |steps| && steps[k].op.Reap? && steps[k].now - lastSeen > T;
      assert k > 0 ==> steps[1..][k - 1] == steps[k];
    }
    if OverdueAtReap(steps[1..], lastSeen, T) {
      var k :| 0 <= k < |steps[1..]| && steps[1..][k].op.Reap? && steps[1..][k].now - lastSeen > T;
      assert steps[k + 1] == steps[1..][k];
    }
  }

  /** Without contact, a node is OFFLINE exactly if it was to begin with or some reap found it overdue. */
  lemma {:induction false} SilentStatus(cfg: Config, s: State, steps: seq<Step>, id: string, T: int,
                                        from: int, end: int)
    requires id in s.nodes && s.nodes[id].status in {Online, Offline}
    requires Observed(cfg, s, steps, id, T, from, end) && Silent(cfg, s, steps, id)
    ensures
      var t := Run(cfg, s, steps);
      && id in t.nodes && t.nodes[id].status in {Online, Offline}
      && (t.nodes[id].status == Offline <==>
            s.nodes[id].status == Offline || OverdueAtReap(steps, s.nodes[id].lastSeen, T))
    decreases |steps|
  {
    if steps == [] {
    } else {
      var op, now := steps[0].op, steps[0].now;
      OtherStepsLeave(cfg, s, now, op, id);
      OverdueFirst(steps, s.nodes[id].lastSeen, T);
      SilentStatus(cfg, Apply(cfg, s, now, op), steps[1..], id, T, now, end);
    }
  }

  /** From its first contact on, a node whose contacts are at most T apart is ONLINE. */
  lemma {:induction false} OnlineFromFirstContact(cfg: Config, s: State, steps: seq<Step>, id: string, T: int,
                                                  from: int, end: int, first: nat, upto: nat)
    requires id in s.nodes && first < upto <= |steps|
    requires Observed(cfg, s, steps, id, T, from, end)
    requires
      var before := Run(cfg, s, steps[..first]);
      && Contacts(cfg, before, steps[first].op, id)
      && GapsWithin(cfg, Apply(cfg, before, steps[first].now, steps[first].op), steps[first + 1..], id, T,
          steps[first].now, end)
    ensures
      var t := Run(cfg, s, steps[..upto]);
      id in t.nodes && t.nodes[id].status == Online
    decreases first
  {
    var op, now := steps[0].op, steps[0].now;
    var t := Apply(cfg, s, now, op);
    assert steps[..upto][1..] == steps[1..][..upto - 1];
    SparedStep(cfg, s, now, op, id);
    if first == 0 {
      ContactMarksOnline(cfg, s, now, op, id);
      RegularNodeStaysOnline(cfg, t, steps[1..], id, T, now, end, upto - 1);
    } else {
      assert steps[..first][1..] == steps[1..][..first - 1];
      OnlineFromFirstContact(cfg, t, steps[1..], id, T, now, end, first - 1, upto - 1);
    }
  }

  /** After a restart at time R of a controller whose file is up to date, a node that makes its first
      contact at step `first` and is at most T between contacts from then on is ONLINE ever after. Until
      then it has the status of the file, and goes OFFLINE exactly if a reap comes more than T after the
      last-seen time of the file, which no heartbeat has touched. */
  lemma LivenessAcrossRestart(cfg: Config, s: State, R: int, steps: seq<Step>, id: string, T: int, end: int,
                              first: nat, upto: nat)
    requires cfg.persistent && Synced(s) && id in s.nodes && first < |steps| && upto <= |steps|
    requires OnDisk(s)[id].status in {Online, Offline}
    requires
      var booted := Apply(cfg, s, R, Restart);
      var before := Run(cfg, booted, steps[..first]);
      && Observed(cfg, booted, steps, id, T, R, end) && Silent(cfg, booted, steps[..first], id)
      && Contacts(cfg, before, steps[first].op, id)
      && GapsWithin(cfg, Apply(cfg, before, steps[first].now, steps[first].op), steps[first + 1..], id, T,
          steps[first].now, end)
    ensures
      var t := Run(cfg, Apply(cfg, s, R, Restart), steps[..upto]);
      && id in t.nodes
      && (t.nodes[id].status == Offline <==>
            upto <= first &&
            (OnDisk(s)[id].status == Offline || OverdueAtReap(steps[..upto], OnDisk(s)[id].lastSeen, T)))
  {
    var booted := Apply(cfg, s, R, Restart);
    assert booted.nodes == OnDisk(s);
    if first < upto {
      OnlineFromFirstContact(cfg, booted, steps, id, T, R, end, first, upto);
    } else {
      assert steps[..first][..upto] == steps[..upto];
      ObservedPrefix(cfg, booted, steps, id, T, R, end, upto);
      SilentPrefix(cfg, booted, steps[..first], id, upto);
      SilentStatus(cfg, booted, steps[..upto], id, T, R, if upto == 0 then R else steps[upto - 1].now);
    }
  }

  lemma {:induction false} ObservedPrefix(cfg: Config, s: State, steps: seq<Step>, id: string, T: int,
                                          from: int, end: int, n: nat)
    requires n <= |steps| && Observed(cfg, s, steps, id, T, from, end)
    ensures Observed(cfg, s, steps[..n], id, T, from, if n == 0 then from else steps[n - 1].now)
    decreases n
  {
    if n == 0 {
    } else {
      assert steps[..n][1..] == steps[1..][..n - 1];
      ObservedPrefix(cfg, Apply(cfg, s, steps[0].now, steps[0].op), steps[1..], id, T, steps[0].now, end, n - 1);
    }
  }

  lemma {:induction false} SilentPrefix(cfg: Config, s: State, steps: seq<Step>, id: string, n: nat)
    requires n <= |steps| && Silent(cfg, s, steps, id)
    ensures Silent(cfg, s, steps[..n], id)
    decreases n
  {
    if n == 0 {
    } else {
      assert steps[..n][1..] == steps[1..][..n - 1];
      SilentPrefix(cfg, Apply(cfg, s, steps[0].now, steps[0].op), steps[1..], id, n - 1);
    }
  }

  /** So a node that has never missed a heartbeat may be shown OFFLINE: registered at t0, heard from
      at h, the controller restarted and reaping at p more than T after t0, however short after h. */
  lemma RestartForgetsHeartbeats(cfg: Config, req: RegisterRequest, ip: string, id: string, metrics: Metrics,
                                 t0: int, h: int, R: int, p: int, T: int)
    requires cfg.persistent && TokenOk(cfg, req.clusterToken) && p - t0 > T
    ensures
      var steps := [Step(t0, Register(req, ip, id, true)), Step(h, Heartbeat(id, metrics, [])),
                    Step(R, Restart), Step(p, Reap(T))];
      var t := Run(cfg, Boot(cfg, None), steps);
      id in t.nodes && t.nodes[id].status == Offline
  {
    var a, b, c, d := Step(t0, Register(req, ip, id, true)), Step(h, Heartbeat(id, metrics, [])),
                      Step(R, Restart), Step(p, Reap(T));
    var s0 := Boot(cfg, None);
    assert forall k, mac :: !OwnsMAC(s0.nodes, k, mac);
    var node := NewNode(id, 2, req, ip, t0);
    var s1 := Apply(cfg, s0, t0, a.op);
    assert s1.nodes == map[id := node] && s1.disk == Some(s1.nodes);
    var s2 := Apply(cfg, s1, h, b.op);
    assert s2.disk == s1.disk;
    var s3 := Apply(cfg, s2, R, c.op);
    assert s3.nodes == s1.nodes;
    RunSnoc(cfg, s0, [], a);
    RunSnoc(cfg, s0, [a], b);
    RunSnoc(cfg, s0, [a, b], c);
    RunSnoc(cfg, s0, [a, b, c], d);
    assert [] + [a] == [a] && [a] + [b] == [a, b] && [a, b] + [c] == [a, b, c] && [a, b, c] + [d] == [a, b, c, d];
  }

  // ---------- the two reachable statuses ----------

  ghost predicate TwoStatuses(nodes: Nodes) {
    forall id :: id in nodes ==> nodes[id].status in {Online, Offline}
  }

  /** The premise of SilentNodeGoesOffline holds of every node of every reachable state. */
  lemma {:induction false} OnlyOnlineOrOffline(cfg: Config, s: State, steps: seq<Step>)
    requires TwoStatuses(s.nodes) && (s.disk.Some? ==> TwoStatuses(s.disk.value))
    ensures TwoStatuses(Run(cfg, s, steps).nodes)
    decreases |steps|
  {
    if steps == [] {
    } else {
      var t := Apply(cfg, s, steps[0].now, steps[0].op);
      assert TwoStatuses(t.nodes) && (t.disk.Some? ==> TwoStatuses(t.disk.value));
      OnlyOnlineOrOffline(cfg, t, steps[1..]);
    }
  }
}
