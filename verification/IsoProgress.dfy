/** The progress a job shows, in any interleaving of any downloads. */
module IsoProgress {
  import opened Text
  import opened IsoNames
  import opened IsoDownloads
  import opened IsoRetry

  /** The percentage is that of the bytes reported so far, where the server announced a length; a
      completed job shows 100. */
  predicate ShowsProgress(job: Job) {
    job.progressPct ==
      if job.status == Completed then 100.0
      else if job.totalBytes > 0 then job.downloaded as real / job.totalBytes as real * 100.0
      else 0.0
  }

  predicate ProgressOk(job: Job) {
    && ShowsProgress(job)
    && (job.status == Completed ==> job.pc == Done)
    && (job.pc == Connecting ==> job.downloaded == 0 && job.totalBytes == 0)
  }

  lemma StepKeepsProgress(s: State, e: Event, k: nat)
    requires Enabled(s, e) && k < |Step(s, e).jobs| && (k < |s.jobs| ==> ProgressOk(s.jobs[k]))
    ensures ProgressOk(Step(s, e).jobs[k])
  {
    if e.Start? || e.j != k {
      assert k < |s.jobs| ==> Step(s, e).jobs[k] == s.jobs[k];
    }
  }

  lemma {:induction false} ProgressShown(s0: State, events: seq<Event>, k: nat)
    requires Initial(s0) && Happens(s0, events) && k < |StateAfter(s0, events).jobs|
    ensures ProgressOk(StateAfter(s0, events).jobs[k])
  {
    if events == [] {
    } else {
      var before, last := events[..|events| - 1], events[|events| - 1];
      if k < |StateAfter(s0, before).jobs| {
        ProgressShown(s0, before, k);
      }
      StepKeepsProgress(StateAfter(s0, before), last, k);
    }
  }

  /** The length that the server announced to job k, once it has. */
  function Announced(events: seq<Event>, k: nat): int {
    if events == [] then 0
    else
      var last := events[|events| - 1];
      if last.Connect? && last.j == k && last.response.Body? then last.response.length
      else Announced(events[..|events| - 1], k)
  }

  lemma {:induction false} TotalIsAnnounced(s0: State, events: seq<Event>, k: nat)
    requires Initial(s0) && Happens(s0, events)
    ensures k < |StateAfter(s0, events).jobs| ==> StateAfter(s0, events).jobs[k].totalBytes == Announced(events, k)
    ensures k >= |StateAfter(s0, events).jobs| ==> Announced(events, k) == 0
  {
    if events == [] {
    } else {
      var before, last := events[..|events| - 1], events[|events| - 1];
      TotalIsAnnounced(s0, before, k);
      if last.Start? || last.j != k {
        var s := StateAfter(s0, before);
        assert k < |s.jobs| ==> Step(s, last).jobs[k] == s.jobs[k];
      }
    }
  }

  /** The runs of IsoSafety are interleavings of this kind. */
  lemma {:induction false} RunHappens(s: State, events: seq<Event>)
    requires IsRun(s, events)
    ensures Happens(s, events) && StateAfter(s, events) == Run(s, events)
    decreases |events|
  {
    if events == [] {
    } else {
      var before, last := events[..|events| - 1], events[|events| - 1];
      RunSplit(s, before, events);
      assert events[|before|..] == [last] && [last][1..] == [];
      RunHappens(s, before);
    }
  }
}
