/** Retrying a file name after a failure: what a retry meets while the failed job still cleans up,
    and what a caller can tell from the job it is shown. */
module IsoRetry {
  import opened Text
  import opened IsoNames
  import opened IsoDownloads
  import opened IsoSafety

  // ---------- any interleaving ----------

  /** Each event is its goroutine's next effect; downloads start whenever they like. */
  predicate Happens(s: State, events: seq<Event>)
    decreases |events|, 0
  {
    events == [] ||
    (Happens(s, events[..|events| - 1]) && Enabled(StateAfter(s, events[..|events| - 1]), events[|events| - 1]))
  }

  function StateAfter(s: State, events: seq<Event>): State
    requires Happens(s, events)
    decreases |events|, 1
  {
    if events == [] then s else Step(StateAfter(s, events[..|events| - 1]), events[|events| - 1])
  }

  lemma OneMore(s: State, events: seq<Event>, e: Event)
    requires Happens(s, events) && Enabled(StateAfter(s, events), e)
    ensures Happens(s, events + [e]) && StateAfter(s, events + [e]) == Step(StateAfter(s, events), e)
  {
    assert (events + [e])[..|events|] == events;
  }

  predicate NoStartOf(events: seq<Event>, name: string) {
    forall k :: 0 <= k < |events| && events[k].Start? ==> Normalise(events[k].urlPath, events[k].filename) != name
  }

  // ---------- a failed job and its retry ----------

  /** A job that holds a handle, holds one on another file than p. */
  predicate HandleElsewhere(f: Files, job: Job, p: string) {
    HasPart(job.pc) ==> job.inode < f.next && (p in f.dir ==> job.inode != f.dir[p])
  }

  /** Jobs other than a and b hold no handle on their .part file. */
  ghost predicate NoOtherHandle(s: State, a: nat, b: nat, p: string) {
    forall k :: 0 <= k < |s.jobs| && k != a && k != b ==> HandleElsewhere(s.files, s.jobs[k], p)
  }

  ghost predicate OthersOver(s: State, a: nat, b: nat, name: string) {
    forall k :: 0 <= k < |s.jobs| && k != a && k != b && s.jobs[k].filename == name ==> s.jobs[k].pc == Done
  }

  ghost predicate AllStored(s: State) {
    forall k :: 0 <= k < |s.jobs| ==> IsStored(s.jobs[k].filename)
  }

  /** Job a has failed and has at most its clean-up left; b is the one other job of its name with
      anything left to do. */
  ghost predicate Retrying(s: State, a: nat, b: nat) {
    && FilesOk(s.files) && AllStored(s)
    && a < b < |s.jobs| && s.jobs[a].filename == s.jobs[b].filename
    && (s.jobs[a].pc == Removing || s.jobs[a].pc == Done)
    && OthersOver(s, a, b, s.jobs[b].filename)
    && NoOtherHandle(s, a, b, PartName(s.jobs[b].filename))
  }

  /** A successful removal by job a after job b created its .part file. */
  ghost predicate Struck(events: seq<Event>, a: nat, b: nat) {
    exists i, k :: 0 <= i < k < |events| && events[i] == Create(b, true) && events[k] == Remove(a, true)
  }

  lemma StruckSnoc(events: seq<Event>, e: Event, a: nat, b: nat)
    ensures Struck(events + [e], a, b) <==> Struck(events, a, b) || (e == Remove(a, true) && Create(b, true) in events)
    ensures Create(b, true) in events + [e] <==> Create(b, true) in events || e == Create(b, true)
  {
    var all := events + [e];
    if Struck(events, a, b) {
      var i, k :| 0 <= i < k < |events| && events[i] == Create(b, true) && events[k] == Remove(a, true);
      assert all[i] == events[i] && all[k] == events[k];
    }
    if e == Remove(a, true) && Create(b, true) in events {
      var i :| 0 <= i < |events| && events[i] == Create(b, true);
      assert all[i] == events[i] && all[|events|] == e;
    }
  }

  /** The .part file of job b is gone for good. */
  ghost predicate Lost(f: Files, job: Job) {
    && Created(job)
    && (job.pc == Removing ==> Removes(job.error))
    && (HasPart(job.pc) ==> PartName(job.filename) !in f.dir)
  }

  ghost predicate RetryOk(s: State, a: nat, b: nat, created: bool, struck: bool) {
    && Retrying(s, a, b)
    && (created <==> Created(s.jobs[b]))
    && if struck then Lost(s.files, s.jobs[b]) else JobOk(s.files, s.jobs[b])
  }

  ghost predicate RetryInv(s: State, events: seq<Event>, a: nat, b: nat) {
    RetryOk(s, a, b, Create(b, true) in events, Struck(events, a, b))
  }

  // ---------- each effect keeps this ----------

  lemma WriteElsewhere(f: Files, inode: nat, offset: nat, b: Bytes, p: string)
    requires FilesOk(f) && (p in f.dir ==> f.dir[p] != inode)
    ensures
      var g := WriteFile(f, inode, offset, b);
      FilesOk(g) && SameEntry(f, g, p) && g.dir == f.dir && g.next == f.next
  {
  }

  lemma CreateElsewhere(f: Files, q: string, p: string)
    requires FilesOk(f) && p != q
    ensures
      var (g, inode) := CreateFile(f, q);
      && FilesOk(g) && SameEntry(f, g, p) && g.next >= f.next
      && inode < g.next && (p in g.dir ==> inode != g.dir[p])
  {
    CreateFileOk(f, q);
  }

  lemma RenameElsewhere(f: Files, from: string, to: string, p: string)
    requires FilesOk(f) && from in f.dir && from != to && p != from && p != to
    ensures FilesOk(RenameFile(f, from, to)) && SameEntry(f, RenameFile(f, from, to), p)
  {
    RenameFileOk(f, from, to);
  }

  lemma RemoveElsewhere(f: Files, q: string, p: string)
    requires FilesOk(f) && p != q
    ensures FilesOk(RemoveFile(f, q)) && SameEntry(f, RemoveFile(f, q), p)
  {
    RemoveFileOk(f, q);
  }

  /** What an effect of a job of another name does to a .part file, and the handle it may gain. */
  lemma OtherFiles(s: State, e: Event, p: string)
    requires FilesOk(s.files) && Enabled(s, e) && !e.Start? && HandleElsewhere(s.files, s.jobs[e.j], p)
    requires
      var name := s.jobs[e.j].filename;
      PartName(name) != p && PartName(name) != name && name != p
    ensures
      var t := Step(s, e);
      && FilesOk(t.files) && SameEntry(s.files, t.files, p) && t.files.next >= s.files.next
      && HandleElsewhere(t.files, t.jobs[e.j], p)
  {
    var job := s.jobs[e.j];
    var part := PartName(job.filename);
    if IsQuiet(e) {
      QuietOther(s, e);
    } else if e.Create? {
      CreateElsewhere(s.files, part, p);
    } else if e.Write? {
      WriteElsewhere(s.files, job.inode, job.offset, job.pc.chunk[..e.written], p);
    } else if e.Rename? {
      RenameElsewhere(s.files, part, job.filename, p);
    } else {
      RemoveElsewhere(s.files, part, p);
    }
  }

  lemma QuietOther(s: State, e: Event)
    requires IsQuiet(e) && Enabled(s, e)
    ensures
      var t := Step(s, e);
      t.files == s.files && t.jobs[e.j].inode == s.jobs[e.j].inode
          && (HasPart(t.jobs[e.j].pc) ==> HasPart(s.jobs[e.j].pc))
  {
  }

  lemma HandlesKept(s: State, t: State, a: nat, b: nat, j: nat, p: string)
    requires FilesOk(s.files) && FilesOk(t.files) && NoOtherHandle(s, a, b, p) && |t.jobs| == |s.jobs| && j < |s.jobs|
    requires forall k :: 0 <= k < |s.jobs| && k != j ==> t.jobs[k] == s.jobs[k]
    requires SameEntry(s.files, t.files, p) && t.files.next >= s.files.next && HandleElsewhere(t.files, t.jobs[j], p)
    ensures NoOtherHandle(t, a, b, p)
  {
  }

  /** An effect of a job changes no other job, and no name. */
  lemma OnlyOneJob(s: State, e: Event)
    requires Enabled(s, e) && !e.Start?
    ensures
      var t := Step(s, e);
      && |t.jobs| == |s.jobs| && t.jobs[e.j].filename == s.jobs[e.j].filename
      && forall k :: 0 <= k < |t.jobs| && k != e.j ==> t.jobs[k] == s.jobs[k]
    ensures AllStored(s) ==> AllStored(Step(s, e))
  {
  }

  lemma OthersStep(s: State, a: nat, b: nat, e: Event)
    requires Retrying(s, a, b) && Enabled(s, e) && !e.Start? && e.j != a && e.j != b
    ensures Retrying(Step(s, e), a, b) && Step(s, e).jobs[b] == s.jobs[b]
    ensures SameEntry(s.files, Step(s, e).files, PartName(s.jobs[b].filename))
  {
    var t, name, other := Step(s, e), s.jobs[b].filename, s.jobs[e.j].filename;
    assert other != name;
    if PartName(other) == PartName(name) {
      PartNameInjective(other, name);
    }
    PartsStayHidden(name, other);
    PartsStayHidden(other, other);
    OtherFiles(s, e, PartName(name));
    OnlyOneJob(s, e);
    HandlesKept(s, t, a, b, e.j, PartName(name));
  }

  lemma StartStep(s: State, a: nat, b: nat, e: Event)
    requires Retrying(s, a, b) && e.Start? && Normalise(e.urlPath, e.filename) != s.jobs[b].filename
    ensures Retrying(Step(s, e), a, b) && Step(s, e).jobs[b] == s.jobs[b]
  {
    NormaliseStores(e.urlPath, e.filename, "");
  }

  /** The clean-up of job a, the one effect it has left. */
  lemma FailedStep(s: State, a: nat, b: nat, e: Event)
    requires Retrying(s, a, b) && Enabled(s, e) && !e.Start? && e.j == a
    ensures e.Remove? && Retrying(Step(s, e), a, b) && Step(s, e).jobs[b] == s.jobs[b]
    ensures e.ok ==> PartName(s.jobs[b].filename) !in Step(s, e).files.dir
    ensures !e.ok ==> Step(s, e).files == s.files
  {
    RemoveFileOk(s.files, PartName(s.jobs[b].filename));
    OnlyOneJob(s, e);
  }

  /** What the retry's own effect does to the entry of its .part file. */
  ghost predicate OwnEntry(f: Files, g: Files, p: string) {
    && FilesOk(g) && g.next >= f.next
    && (p in g.dir ==> (p in f.dir && g.dir[p] == f.dir[p]) || g.dir[p] >= f.next)
  }

  lemma IntactCreate(s: State, j: nat)
    requires FilesOk(s.files) && Enabled(s, Create(j, true)) && JobOk(s.files, s.jobs[j])
    ensures
      var t := Step(s, Create(j, true));
      OwnEntry(s.files, t.files, PartName(s.jobs[j].filename)) && JobOk(t.files, t.jobs[j])
  {
    CreateFileOk(s.files, PartName(s.jobs[j].filename));
  }

  lemma IntactWrite(s: State, e: Event)
    requires FilesOk(s.files) && e.Write? && Enabled(s, e) && JobOk(s.files, s.jobs[e.j])
    ensures
      var t := Step(s, e);
      OwnEntry(s.files, t.files, PartName(s.jobs[e.j].filename)) && JobOk(t.files, t.jobs[e.j])
  {
    var job := s.jobs[e.j];
    WriteFileOk(s.files, PartName(job.filename), job.pc.chunk[..e.written]);
    assert e.ok ==> job.pc.chunk[..e.written] == job.pc.chunk;
  }

  lemma IntactRename(s: State, j: nat)
    requires FilesOk(s.files) && Enabled(s, Rename(j, true)) && JobOk(s.files, s.jobs[j])
    ensures
      var t := Step(s, Rename(j, true));
      OwnEntry(s.files, t.files, PartName(s.jobs[j].filename)) && JobOk(t.files, t.jobs[j])
  {
    PartsStayHidden(s.jobs[j].filename, s.jobs[j].filename);
    RenameFileOk(s.files, PartName(s.jobs[j].filename), s.jobs[j].filename);
  }

  lemma IntactRemove(s: State, j: nat)
    requires FilesOk(s.files) && Enabled(s, Remove(j, true)) && JobOk(s.files, s.jobs[j])
    ensures
      var t := Step(s, Remove(j, true));
      OwnEntry(s.files, t.files, PartName(s.jobs[j].filename)) && JobOk(t.files, t.jobs[j])
  {
    RemoveFileOk(s.files, PartName(s.jobs[j].filename));
  }

  lemma IntactFiles(s: State, e: Event)
    requires FilesOk(s.files) && Enabled(s, e) && !e.Start? && JobOk(s.files, s.jobs[e.j])
    ensures
      var t := Step(s, e);
      OwnEntry(s.files, t.files, PartName(s.jobs[e.j].filename)) && JobOk(t.files, t.jobs[e.j])
  {
    match e {
      case Write(_, _, _) => IntactWrite(s, e);
      case Create(j, ok) => if ok { IntactCreate(s, j); } else { QuietJobOk(s, e); }
      case Rename(j, ok) => if ok { IntactRename(s, j); } else { QuietJobOk(s, e); }
      case Remove(j, ok) => if ok { IntactRemove(s, j); } else { QuietJobOk(s, e); }
      case _ => QuietJobOk(s, e);
    }
  }

  lemma IntactStep(s: State, a: nat, b: nat, e: Event)
    requires Retrying(s, a, b) && Enabled(s, e) && !e.Start? && e.j == b && JobOk(s.files, s.jobs[b])
    ensures Retrying(Step(s, e), a, b) && JobOk(Step(s, e).files, Step(s, e).jobs[b])
  {
    IntactFiles(s, e);
    OnlyOneJob(s, e);
  }

  /** The retry's own effects once its .part file is gone: nothing brings it back. */
  lemma LostStep(s: State, a: nat, b: nat, e: Event)
    requires Retrying(s, a, b) && Enabled(s, e) && !e.Start? && e.j == b && Lost(s.files, s.jobs[b])
    ensures Retrying(Step(s, e), a, b) && Lost(Step(s, e).files, Step(s, e).jobs[b])
  {
    OwnStepCreates(s, e);
    var t, job, part := Step(s, e), s.jobs[b], PartName(s.jobs[b].filename);
    RemoveFileOk(s.files, part);
    if e.Write? {
      WriteElsewhere(s.files, job.inode, job.offset, job.pc.chunk[..e.written], part);
    }
    OnlyOneJob(s, e);
  }

  lemma RetryStepKeeps(s: State, a: nat, b: nat, e: Event, created: bool, struck: bool)
    requires RetryOk(s, a, b, created, struck) && Enabled(s, e)
    requires e.Start? ==> Normalise(e.urlPath, e.filename) != s.jobs[b].filename
    ensures RetryOk(Step(s, e), a, b, created || e == Create(b, true), struck || (e == Remove(a, true) && created))
    ensures Step(s, e).jobs[b].filename == s.jobs[b].filename
  {
    if e.Start? {
      StartStep(s, a, b, e);
    } else if e.j == a {
      FailedStep(s, a, b, e);
    } else if e.j == b {
      OwnStepCreates(s, e);
      if struck {
        LostStep(s, a, b, e);
      } else {
        IntactStep(s, a, b, e);
      }
    } else {
      OthersStep(s, a, b, e);
      if !struck {
        OtherJobKept(s.files, Step(s, e).files, s.jobs[b]);
      }
    }
  }

  lemma RetryNext(s: State, events: seq<Event>, a: nat, b: nat, e: Event)
    requires RetryInv(s, events, a, b) && Enabled(s, e)
    requires e.Start? ==> Normalise(e.urlPath, e.filename) != s.jobs[b].filename
    ensures RetryInv(Step(s, e), events + [e], a, b) && Step(s, e).jobs[b].filename == s.jobs[b].filename
  {
    StruckSnoc(events, e, a, b);
    RetryStepKeeps(s, a, b, e, Create(b, true) in events, Struck(events, a, b));
  }

  lemma {:induction false} RetryRunKeeps(s: State, events: seq<Event>, a: nat, b: nat)
    requires RetryInv(s, [], a, b) && Happens(s, events) && NoStartOf(events, s.jobs[b].filename)
    ensures RetryInv(StateAfter(s, events), events, a, b)
    ensures StateAfter(s, events).jobs[b].filename == s.jobs[b].filename
    decreases |events|
  {
    if events == [] {
    } else {
      var before, last := events[..|events| - 1], events[|events| - 1];
      RetryRunKeeps(s, before, a, b);
      RetryNext(StateAfter(s, before), before, a, b, last);
      assert before + [last] == events;
    }
  }

  lemma RetryEnters(s: State, a: nat, e: Event)
    requires FilesOk(s.files) && a < |s.jobs| && s.jobs[a].pc == Removing
    requires AllStored(s) && OthersOver(s, a, |s.jobs|, s.jobs[a].filename)
    requires NoOtherHandle(s, a, |s.jobs|, PartName(s.jobs[a].filename))
    requires e.Start? && Normalise(e.urlPath, e.filename) == s.jobs[a].filename
    ensures RetryInv(Step(s, e), [], a, |s.jobs|)
  {
    var t, b := Step(s, e), |s.jobs|;
    assert t.jobs[b] == NewJob(e.id, s.jobs[a].filename);
    assert forall k :: 0 <= k < b ==> t.jobs[k] == s.jobs[k];
  }

  lemma BeforeRetry(init: Files, s: State, a: nat)
    requires Inv(init, s) && a < |s.jobs| && s.jobs[a].pc == Removing
    ensures
      var name, b := s.jobs[a].filename, |s.jobs|;
      AllStored(s) && OthersOver(s, a, b, name) && NoOtherHandle(s, a, b, PartName(name))
  {
    forall k | 0 <= k < |s.jobs| && k != a
      ensures s.jobs[k].filename == s.jobs[a].filename ==> s.jobs[k].pc == Done
      ensures HandleElsewhere(s.files, s.jobs[k], PartName(s.jobs[a].filename))
    {
      assert JobOk(s.files, s.jobs[k]);
      if Live(s.jobs[k]) {
        OthersLive(s, a, k);
      }
    }
  }

  /** A download of the same name starts while job a has shown "failed" but not yet cleaned up. */
  lemma RetryBegins(init: Files, s: State, a: nat, e: Event)
    requires Inv(init, s) && a < |s.jobs| && s.jobs[a].pc == Removing
    requires e.Start? && Normalise(e.urlPath, e.filename) == s.jobs[a].filename
    ensures RetryInv(Step(s, e), [], a, |s.jobs|)
  {
    BeforeRetry(init, s, a);
    RetryEnters(s, a, e);
  }

  /** Job b, come to its rename, finds its .part file, holding exactly what it read, or it does not. */
  ghost predicate MeetsRename(t: State, b: nat, struck: bool) {
    FilesOk(t.files) && b < |t.jobs| &&
    (t.jobs[b].pc == Renaming ==>
       var part := PartName(t.jobs[b].filename);
       && (part in t.files.dir <==> !struck)
       && (part in t.files.dir ==> Content(t.files, part) == t.jobs[b].read)
       && (Enabled(t, Rename(b, true)) <==> !struck))
  }

  lemma AtRename(t: State, a: nat, b: nat, created: bool, struck: bool)
    requires RetryOk(t, a, b, created, struck)
    ensures MeetsRename(t, b, struck)
  {
  }

  /** Whatever happens after the retry b of a job a that has still to clean up, downloads of other
      names included: when b comes to its rename, its .part file is there, and then holds exactly
      what b read, if and only if a did not remove it after b had created it. */
  lemma RetryMeetsCleanup(init: Files, s: State, a: nat, e: Event, events: seq<Event>)
    requires Inv(init, s) && a < |s.jobs| && s.jobs[a].pc == Removing
    requires e.Start? && Normalise(e.urlPath, e.filename) == s.jobs[a].filename
    requires Happens(Step(s, e), events) && NoStartOf(events, s.jobs[a].filename)
    ensures
      var b, t := |s.jobs|, StateAfter(Step(s, e), events);
      MeetsRename(t, b, Struck(events, a, b)) && t.jobs[b].filename == s.jobs[a].filename
  {
    var b := |s.jobs|;
    RetryBegins(init, s, a, e);
    RetryRunKeeps(Step(s, e), events, a, b);
    AtRename(StateAfter(Step(s, e), events), a, b, Create(b, true) in events, Struck(events, a, b));
  }

  // ---------- both ways are reachable ----------

  /** The effects of job 0 up to failing with this fault. */
  function WayTo(fault: Fault, id: string, urlPath: string, filename: string): seq<Event> {
    [Start(id, urlPath, filename), Connect(0, Body(1)), Create(0, true)]
    + if fault == NotWritten then [Read(0, [0], More), Write(0, false, 0), Fail(0)]
      else if fault == NotRenamed then [Read(0, [], EOF), Rename(0, false), Fail(0)]
      else [Read(0, [], ReadError), Fail(0)]
  }

  lemma Created0(s0: State, id: string, urlPath: string, filename: string)
    requires Initial(s0)
    ensures
      var events := [Start(id, urlPath, filename), Connect(0, Body(1)), Create(0, true)];
      && IsRun(s0, events) && |Run(s0, events).jobs| == 1
      && Run(s0, events).jobs[0].pc == Reading && Run(s0, events).jobs[0].filename == Normalise(urlPath, filename)
  {
    var e1, e2, e3 := Start(id, urlPath, filename), Connect(0, Body(1)), Create(0, true);
    RunSnoc(s0, [], e1);
    assert [] + [e1] == [e1] && [e1] + [e2] == [e1, e2] && [e1, e2] + [e3] == [e1, e2, e3];
    RunSnoc(s0, [e1], e2);
    RunSnoc(s0, [e1, e2], e3);
  }

  /** From any start, a job can come to have shown each of the last three faults before cleaning up. */
  lemma CleanupPending(s0: State, fault: Fault, id: string, urlPath: string, filename: string)
    requires Initial(s0) && Removes(fault)
    ensures
      var events := WayTo(fault, id, urlPath, filename);
      && IsRun(s0, events) && |Run(s0, events).jobs| == 1
      && var job := Run(s0, events).jobs[0];
         && job.filename == Normalise(urlPath, filename)
         && job.status == Failed && job.error == fault && job.pc == Removing
  {
    Created0(s0, id, urlPath, filename);
    var created := [Start(id, urlPath, filename), Connect(0, Body(1)), Create(0, true)];
    if fault == NotWritten {
      ThreeMore(s0, created, Read(0, [0], More), Write(0, false, 0), Fail(0));
    } else if fault == NotRenamed {
      ThreeMore(s0, created, Read(0, [], EOF), Rename(0, false), Fail(0));
    } else {
      TwoMore(s0, created, Read(0, [], ReadError), Fail(0));
    }
  }

  lemma TwoMore(s0: State, events: seq<Event>, x: Event, y: Event)
    requires IsRun(s0, events) && MayHappen(Run(s0, events), x) && MayHappen(Step(Run(s0, events), x), y)
    ensures IsRun(s0, events + [x, y]) && Run(s0, events + [x, y]) == Step(Step(Run(s0, events), x), y)
  {
    RunSnoc(s0, events, x);
    RunSnoc(s0, events + [x], y);
    assert events + [x] + [y] == events + [x, y];
  }

  lemma ThreeMore(s0: State, events: seq<Event>, x: Event, y: Event, z: Event)
    requires IsRun(s0, events) && MayHappen(Run(s0, events), x) && MayHappen(Step(Run(s0, events), x), y)
    requires MayHappen(Step(Step(Run(s0, events), x), y), z)
    ensures IsRun(s0, events + [x, y, z]) && Run(s0, events + [x, y, z]) == Step(Step(Step(Run(s0, events), x), y), z)
  {
    TwoMore(s0, events, x, y);
    RunSnoc(s0, events + [x, y], z);
    assert events + [x, y] + [z] == events + [x, y, z];
  }

  ghost predicate At(s: State, first: PC, retry: PC) {
    |s.jobs| == 2 && s.jobs[0].pc == first && s.jobs[1].pc == retry
  }

  const CREATES := [Connect(1, Body(1)), Create(1, true)]
  const STRIKES := [Remove(0, true), Read(1, [], EOF)]

  /** What follows a retry that loses: it creates its file, the clean-up strikes, it reads to the end. */
  const LOSING := CREATES + STRIKES

  lemma PairMore(s: State, events: seq<Event>, x: Event, y: Event)
    requires Happens(s, events) && Enabled(StateAfter(s, events), x) && Enabled(Step(StateAfter(s, events), x), y)
    ensures Happens(s, events + [x, y]) && StateAfter(s, events + [x, y]) == Step(Step(StateAfter(s, events), x), y)
  {
    OneMore(s, events, x);
    OneMore(s, events + [x], y);
    assert events + [x] + [y] == events + [x, y];
  }

  lemma RetryCreates(s: State)
    requires At(s, Removing, Connecting)
    ensures Enabled(s, Connect(1, Body(1))) && Enabled(Step(s, Connect(1, Body(1))), Create(1, true))
    ensures At(Step(Step(s, Connect(1, Body(1))), Create(1, true)), Removing, Reading)
  {
  }

  lemma RemovalStrikes(s: State)
    requires At(s, Removing, Reading)
    ensures Enabled(s, Remove(0, true)) && Enabled(Step(s, Remove(0, true)), Read(1, [], EOF))
    ensures At(Step(Step(s, Remove(0, true)), Read(1, [], EOF)), Done, Renaming)
  {
  }

  lemma LosingHappens(s: State)
    requires At(s, Removing, Connecting)
    ensures Happens(s, LOSING) && At(StateAfter(s, LOSING), Done, Renaming)
  {
    RetryCreates(s);
    PairMore(s, [], Connect(1, Body(1)), Create(1, true));
    assert [] + CREATES == CREATES;
    RemovalStrikes(StateAfter(s, CREATES));
    PairMore(s, CREATES, Remove(0, true), Read(1, [], EOF));
  }

  lemma LosingStrikes(name: string)
    ensures Struck(LOSING, 0, 1) && NoStartOf(LOSING, name)
  {
    assert LOSING[1] == Create(1, true) && LOSING[2] == Remove(0, true);
  }

  lemma CleanupStrikes(init: Files, failed: State, e: Event)
    requires Inv(init, failed) && |failed.jobs| == 1 && failed.jobs[0].pc == Removing
    requires e.Start? && Normalise(e.urlPath, e.filename) == failed.jobs[0].filename
    ensures
      var s := Step(failed, e);
      && Happens(s, LOSING) && At(StateAfter(s, LOSING), Done, Renaming)
      && !Enabled(StateAfter(s, LOSING), Rename(1, true))
  {
    LosingHappens(Step(failed, e));
    LosingStrikes(failed.jobs[0].filename);
    RetryMeetsCleanup(init, failed, 0, e, LOSING);
  }

  /** The losing schedule, from any start: the first job's read fails, its retry creates the .part file
      and reads the whole body, and between the two the clean-up strikes. */
  lemma RetryDuringCleanup(s0: State, id: string, retryID: string, urlPath: string, filename: string)
    requires Initial(s0)
    ensures
      var events := WayTo(NotRead, id, urlPath, filename);
      IsRun(s0, events) &&
      var s := Step(Run(s0, events), Start(retryID, urlPath, filename));
      && Happens(s, LOSING) && At(StateAfter(s, LOSING), Done, Renaming)
      && !Enabled(StateAfter(s, LOSING), Rename(1, true))
  {
    var events := WayTo(NotRead, id, urlPath, filename);
    CleanupPending(s0, NotRead, id, urlPath, filename);
    InitialOk(s0);
    RunKeeps(s0.files, s0, events);
    CleanupStrikes(s0.files, Run(s0, events), Start(retryID, urlPath, filename));
  }

  // ---------- what a caller can tell ----------

  /** Whoever sees a job failed with this error may be sure that its goroutine is over. */
  ghost predicate TellsOver(fault: Fault) {
    forall s0, events, j: nat | Initial(s0) && IsRun(s0, events) && j < |Run(s0, events).jobs| ::
      Run(s0, events).jobs[j].status == Failed && Run(s0, events).jobs[j].error == fault ==>
        !Live(Run(s0, events).jobs[j])
  }

  /** A connection, response or create error is the goroutine's last effect; after a write, read or
      rename error a removal may still come, and the job shows the same before and after it. */
  lemma ErrorTells(fault: Fault)
    requires fault != NoFault
    ensures TellsOver(fault) <==> !Removes(fault)
  {
    if Removes(fault) {
      var s0 := State(Files(map[], map[], 0), [], map[], map[]);
      CleanupPending(s0, fault, "", "", "");
      assert Live(Run(s0, WayTo(fault, "", "", "")).jobs[0]);
    } else {
      forall s0, events, j: nat | Initial(s0) && IsRun(s0, events) && j < |Run(s0, events).jobs|
        ensures Run(s0, events).jobs[j].status == Failed && Run(s0, events).jobs[j].error == fault ==>
                  !Live(Run(s0, events).jobs[j])
      {
        InitialOk(s0);
        RunKeeps(s0.files, s0, events);
        assert JobOk(Run(s0, events).files, Run(s0, events).jobs[j]);
      }
    }
  }

  /** Every job of this name shows "completed", or "failed" with an error that no removal follows. */
  predicate SeenOver(s: State, name: string) {
    forall k :: 0 <= k < |s.jobs| && s.jobs[k].filename == name ==>
      s.jobs[k].status == Completed || (s.jobs[k].status == Failed && !Removes(s.jobs[k].error))
  }

  /** Each download starts only when a look at the jobs of its name allows it. */
  predicate IsCautious(s: State, events: seq<Event>)
    decreases |events|
  {
    events == [] ||
    (&& Enabled(s, events[0])
     && (events[0].Start? ==> SeenOver(s, Normalise(events[0].urlPath, events[0].filename)))
     && IsCautious(Step(s, events[0]), events[1..]))
  }

  /** Callers that start a download only on such a look are safe: all results about runs hold. */
  lemma {:induction false} CautionSuffices(init: Files, s: State, events: seq<Event>)
    requires Inv(init, s) && IsCautious(s, events)
    ensures IsRun(s, events)
    decreases |events|
  {
    if events == [] {
    } else {
      var e := events[0];
      forall k | 0 <= k < |s.jobs| && e.Start? && s.jobs[k].filename == Normalise(e.urlPath, e.filename)
        ensures !Live(s.jobs[k])
      {
        assert JobOk(s.files, s.jobs[k]);
      }
      StepKeeps(init, s, e);
      CautionSuffices(init, Step(s, e), events[1..]);
    }
  }
}
