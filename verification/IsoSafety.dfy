/** What every interleaving of downloads keeps, and what observers may conclude. */
module IsoSafety {
  import opened Text
  import opened IsoNames
  import opened IsoDownloads

  // ---------- the invariant ----------

  /** Where the goroutine has a .part file of its own. */
  predicate HasPart(pc: PC) {
    pc.Reading? || pc.Writing? || pc.Publishing? || pc.Renaming? || pc.Removing? || (pc.Failing? && Removes(pc.fault))
  }

  /** The rename has put the file in place. */
  predicate Renamed(job: Job) {
    job.pc.Completing? || (job.pc.Done? && job.status == Completed)
  }

  /** The goroutine has got as far as creating its .part file. */
  predicate Created(job: Job) {
    HasPart(job.pc) || Renamed(job) || (job.pc.Done? && Removes(job.error))
  }

  ghost predicate OwnsPart(f: Files, job: Job) {
    PartName(job.filename) in f.dir && f.dir[PartName(job.filename)] == job.inode
  }

  /** How much of the body is in the .part file and how much has been reported. */
  ghost predicate Accounted(f: Files, job: Job)
    requires FilesOk(f) && (HasPart(job.pc) ==> OwnsPart(f, job))
  {
    var n := |job.read|;
    match job.pc
    case Connecting => n == 0 && job.downloaded == 0 && job.offset == 0
    case Creating => n == 0 && job.downloaded == 0 && job.offset == 0
    case Reading => Content(f, PartName(job.filename)) == job.read && job.offset == n && job.downloaded == n
    case Writing(chunk, _) =>
      var written := Content(f, PartName(job.filename));
      written + chunk == job.read && job.offset == |written| && job.downloaded == |written|
    case Publishing(_) => Content(f, PartName(job.filename)) == job.read && job.offset == n && job.downloaded <= n
    case Renaming => Content(f, PartName(job.filename)) == job.read && job.downloaded == n
    case Completing => job.downloaded == n
    case Done => job.downloaded <= n && (job.status == Completed ==> job.downloaded == n)
    case _ => job.downloaded <= n
  }

  ghost predicate JobOk(f: Files, job: Job)
    requires FilesOk(f)
  {
    && IsStored(job.filename)
    && (job.status == Downloading <==> Live(job) && job.pc != Removing)
    && (job.status == Failed <==> job.error != NoFault)
    && (job.pc.Failing? ==> job.pc.fault != NoFault)
    && (job.pc == Removing ==> Removes(job.error))
    && (HasPart(job.pc) ==> OwnsPart(f, job))
    && Accounted(f, job)
  }

  /** The destination p was last put in place by job owner[p], and holds exactly its body. */
  ghost predicate OwnedWell(s: State, p: string)
    requires FilesOk(s.files) && p in s.owner
  {
    var k := s.owner[p];
    && k < |s.jobs| && s.jobs[k].filename == p && Renamed(s.jobs[k])
    && p in s.files.dir && Content(s.files, p) == s.jobs[k].read
  }

  /** A .part file on disk belongs to a running job, or to one whose clean-up failed. */
  ghost predicate PartExplained(s: State, p: string) {
    exists j :: 0 <= j < |s.jobs| && PartName(s.jobs[j].filename) == p && (HasPart(s.jobs[j].pc) || s.jobs[j].leaked)
  }

  /** Some job has created, or truncated, the .part file p. */
  ghost predicate Claimed(s: State, p: string) {
    exists j :: 0 <= j < |s.jobs| && PartName(s.jobs[j].filename) == p && Created(s.jobs[j])
  }

  ghost predicate Untouched(before: Files, after: Files, p: string)
    requires FilesOk(before) && FilesOk(after)
  {
    p in before.dir && p in after.dir && Content(after, p) == Content(before, p)
  }

  ghost predicate JobsOk(s: State)
    requires FilesOk(s.files)
  {
    forall j :: 0 <= j < |s.jobs| ==> JobOk(s.files, s.jobs[j])
  }

  /** A live job is the latest of its name. */
  ghost predicate LiveIsLatest(s: State) {
    forall j, k :: 0 <= j < |s.jobs| && 0 <= k < |s.jobs| && Live(s.jobs[j]) && s.jobs[k].filename == s.jobs[j].filename
      ==> k <= j
  }

  ghost predicate OwnersOk(s: State)
    requires FilesOk(s.files)
  {
    forall p :: p in s.owner ==> OwnedWell(s, p)
  }

  /** Every finished rename is accounted for by itself or a later job of the same name. */
  ghost predicate RenamesOwned(s: State) {
    forall j :: 0 <= j < |s.jobs| && Renamed(s.jobs[j]) ==>
      s.jobs[j].filename in s.owner && s.owner[s.jobs[j].filename] >= j
  }

  /** Every other visible file is as it was at the start, and no file of the start has gone. */
  ghost predicate RestUntouched(init: Files, s: State)
    requires FilesOk(init) && FilesOk(s.files)
  {
    && (forall p :: p in s.files.dir && !IsPart(p) && p !in s.owner ==> Untouched(init, s.files, p))
    && (forall p :: p in init.dir && !IsPart(p) ==> p in s.files.dir)
  }

  /** A .part file is some job's, or left over from an earlier process: the latter exactly while no
      job has created one of that name. */
  ghost predicate PartsOk(init: Files, s: State)
    requires FilesOk(init) && FilesOk(s.files)
  {
    && (forall p :: p in s.files.dir && IsPart(p) ==> PartExplained(s, p) || (p in init.dir && !Claimed(s, p)))
    && (forall p :: p in init.dir && IsPart(p) && !Claimed(s, p) ==> Untouched(init, s.files, p))
  }

  ghost predicate Inv(init: Files, s: State) {
    && FilesOk(init) && FilesOk(s.files)
    && JobsOk(s) && LiveIsLatest(s) && OwnersOk(s) && RenamesOwned(s) && RestUntouched(init, s) && PartsOk(init, s)
    && (forall id :: id in s.table ==> s.table[id] < |s.jobs|)
  }

  // ---------- file operations ----------

  ghost predicate SameEntry(f: Files, g: Files, p: string)
    requires FilesOk(f) && FilesOk(g)
  {
    (p in f.dir <==> p in g.dir) && (p in f.dir ==> f.dir[p] == g.dir[p] && Content(f, p) == Content(g, p))
  }

  /** Nothing but the entry `name` differs. */
  ghost predicate SameBut(f: Files, g: Files, name: string)
    requires FilesOk(f) && FilesOk(g)
  {
    forall p :: p != name ==> SameEntry(f, g, p)
  }

  lemma CreateFileOk(f: Files, p: string)
    requires FilesOk(f)
    ensures
      var (g, inode) := CreateFile(f, p);
      FilesOk(g) && SameBut(f, g, p) && p in g.dir && g.dir[p] == inode && Content(g, p) == []
  {
  }

  lemma OverwriteAtEnd(d: Bytes, b: Bytes)
    ensures Overwrite(d, |d|, b) == d + b
  {
  }

  lemma WriteFileOk(f: Files, p: string, b: Bytes)
    requires FilesOk(f) && p in f.dir
    ensures
      var g := WriteFile(f, f.dir[p], |Content(f, p)|, b);
      FilesOk(g) && SameBut(f, g, p) && g.dir == f.dir && Content(g, p) == Content(f, p) + b
  {
    OverwriteAtEnd(Content(f, p), b);
  }

  lemma RemoveFileOk(f: Files, p: string)
    requires FilesOk(f)
    ensures FilesOk(RemoveFile(f, p)) && SameBut(f, RemoveFile(f, p), p) && p !in RemoveFile(f, p).dir
  {
  }

  lemma RenameFileOk(f: Files, from: string, to: string)
    requires FilesOk(f) && from in f.dir && from != to
    ensures
      var g := RenameFile(f, from, to);
      && FilesOk(g) && from !in g.dir && to in g.dir && Content(g, to) == Content(f, from)
      && (forall p :: p != from && p != to ==> SameEntry(f, g, p))
  {
  }

  // ---------- other jobs are not disturbed ----------

  lemma OthersLive(s: State, j: nat, k: nat)
    requires LiveIsLatest(s) && j < |s.jobs| && k < |s.jobs| && j != k && Live(s.jobs[j]) && Live(s.jobs[k])
    ensures PartName(s.jobs[k].filename) != PartName(s.jobs[j].filename)
  {
    if PartName(s.jobs[k].filename) == PartName(s.jobs[j].filename) {
      PartNameInjective(s.jobs[k].filename, s.jobs[j].filename);
    }
  }

  lemma OtherJobKept(f: Files, g: Files, job: Job)
    requires FilesOk(f) && FilesOk(g) && (Live(job) ==> SameEntry(f, g, PartName(job.filename)))
    requires JobOk(f, job)
    ensures JobOk(g, job)
  {
  }

  /** A step of live job j that leaves g: at most its own .part file differs, the job stays
      well-formed, and a .part file it leaves is one it may leave. */
  ghost predicate OwnStep(s: State, j: nat, job: Job, g: Files)
    requires FilesOk(s.files)
  {
    && j < |s.jobs| && Live(s.jobs[j]) && job.filename == s.jobs[j].filename
    && FilesOk(g) && SameBut(s.files, g, PartName(job.filename)) && JobOk(g, job)
    && (Renamed(job) <==> Renamed(s.jobs[j]))
    && (Renamed(job) ==> job.read == s.jobs[j].read)
    && (s.jobs[j].leaked ==> job.leaked)
    && (PartName(job.filename) in g.dir ==>
          HasPart(job.pc) || job.leaked || (!HasPart(s.jobs[j].pc) && PartName(job.filename) in s.files.dir))
    && (Created(s.jobs[j]) ==> Created(job))
    && (!Created(job) ==> g == s.files)
    && (Created(job) && !HasPart(job.pc) ==> Created(s.jobs[j]))
  }

  lemma JobsKept(s: State, j: nat, job: Job, g: Files)
    requires FilesOk(s.files) && JobsOk(s) && LiveIsLatest(s) && OwnStep(s, j, job, g)
    ensures JobsOk(Put(s.(files := g), j, job))
  {
    var t := Put(s.(files := g), j, job);
    forall k | 0 <= k < |t.jobs|
      ensures JobOk(t.files, t.jobs[k])
    {
      if k != j {
        if Live(s.jobs[k]) {
          OthersLive(s, j, k);
        }
        OtherJobKept(s.files, g, s.jobs[k]);
      }
    }
  }

  lemma OwnersKept(s: State, j: nat, job: Job, g: Files)
    requires FilesOk(s.files) && JobsOk(s) && OwnersOk(s) && OwnStep(s, j, job, g)
    ensures OwnersOk(Put(s.(files := g), j, job))
  {
    var t := Put(s.(files := g), j, job);
    forall p | p in t.owner
      ensures OwnedWell(t, p)
    {
      assert OwnedWell(s, p);
      assert JobOk(s.files, s.jobs[s.owner[p]]);
      PartsStayHidden(job.filename, p);
      assert SameEntry(s.files, g, p);
      assert s.owner[p] != j ==> t.jobs[s.owner[p]] == s.jobs[s.owner[p]];
    }
  }

  lemma RestKept(init: Files, s: State, j: nat, job: Job, g: Files)
    requires FilesOk(init) && FilesOk(s.files) && RestUntouched(init, s) && OwnStep(s, j, job, g)
    ensures RestUntouched(init, Put(s.(files := g), j, job))
  {
    PartsStayHidden(job.filename, job.filename);
    assert forall p :: !IsPart(p) ==> SameEntry(s.files, g, p);
    forall p | p in g.dir && !IsPart(p) && p !in s.owner
      ensures Untouched(init, g, p)
    {
      assert Untouched(init, s.files, p);
    }
  }

  lemma ClaimedBy(s: State, j: nat)
    requires j < |s.jobs| && Created(s.jobs[j])
    ensures Claimed(s, PartName(s.jobs[j].filename))
  {
  }

  /** Jobs that keep their names and what they have created keep every claim. */
  ghost predicate ClaimsGrow(s: State, t: State) {
    |s.jobs| <= |t.jobs| &&
    forall k :: 0 <= k < |s.jobs| ==>
      t.jobs[k].filename == s.jobs[k].filename && (Created(s.jobs[k]) ==> Created(t.jobs[k]))
  }

  lemma StillClaimed(s: State, t: State, p: string)
    requires ClaimsGrow(s, t) && Claimed(s, p)
    ensures Claimed(t, p)
  {
    var k :| 0 <= k < |s.jobs| && PartName(s.jobs[k].filename) == p && Created(s.jobs[k]);
    ClaimedBy(t, k);
  }

  lemma NewlyClaimed(s: State, j: nat, job: Job, p: string)
    requires j < |s.jobs| && job.filename == s.jobs[j].filename
    requires Claimed(Put(s, j, job), p)
    ensures Claimed(s, p) || (PartName(job.filename) == p && Created(job) && !Created(s.jobs[j]))
  {
    var t := Put(s, j, job);
    var k :| 0 <= k < |t.jobs| && PartName(t.jobs[k].filename) == p && Created(t.jobs[k]);
    if k != j || Created(s.jobs[j]) {
      ClaimedBy(s, k);
    }
  }

  lemma ExplainedKept(init: Files, s: State, j: nat, job: Job, g: Files, p: string)
    requires FilesOk(init) && FilesOk(s.files) && PartsOk(init, s) && OwnStep(s, j, job, g) && p in g.dir && IsPart(p)
    ensures
      var t := Put(s.(files := g), j, job);
      PartExplained(t, p) || (p in init.dir && !Claimed(t, p))
  {
    var t := Put(s.(files := g), j, job);
    assert p != PartName(job.filename) ==> SameEntry(s.files, g, p);
    if p == PartName(job.filename) && (HasPart(job.pc) || job.leaked) {
      assert t.jobs[j] == job;
    } else if PartExplained(s, p) {
      var i :| 0 <= i < |s.jobs| && PartName(s.jobs[i].filename) == p && (HasPart(s.jobs[i].pc) || s.jobs[i].leaked);
      assert i != j ==> t.jobs[i] == s.jobs[i];
      assert t.jobs[j] == job;
    } else if Claimed(t, p) {
      assert Claimed(Put(s, j, job), p);
      NewlyClaimed(s, j, job, p);
    }
  }

  lemma PartsKept(init: Files, s: State, j: nat, job: Job, g: Files)
    requires FilesOk(init) && FilesOk(s.files) && PartsOk(init, s) && OwnStep(s, j, job, g)
    ensures PartsOk(init, Put(s.(files := g), j, job))
  {
    var t := Put(s.(files := g), j, job);
    forall p | p in g.dir && IsPart(p)
      ensures PartExplained(t, p) || (p in init.dir && !Claimed(t, p))
    {
      ExplainedKept(init, s, j, job, g, p);
    }
    forall p | p in init.dir && IsPart(p) && !Claimed(t, p)
      ensures Untouched(init, g, p)
    {
      if Claimed(s, p) {
        StillClaimed(s, t, p);
      }
      assert Untouched(init, s.files, p);
      assert p != PartName(job.filename) ==> SameEntry(s.files, g, p);
      if p == PartName(job.filename) && Created(job) {
        ClaimedBy(t, j);
      }
    }
  }

  lemma OwnStepKeeps(init: Files, s: State, j: nat, job: Job, g: Files)
    requires Inv(init, s) && OwnStep(s, j, job, g)
    ensures Inv(init, Put(s.(files := g), j, job))
  {
    JobsKept(s, j, job, g);
    OwnersKept(s, j, job, g);
    RestKept(init, s, j, job, g);
    PartsKept(init, s, j, job, g);
  }

  // ---------- the steps ----------

  lemma SameFiles(f: Files, name: string)
    requires FilesOk(f)
    ensures SameBut(f, f, name)
  {
  }

  /** Steps that leave the files alone. */
  predicate IsQuiet(e: Event) {
    e.Connect? || e.Read? || e.Publish? || e.Complete? || e.Fail? || ((e.Create? || e.Rename? || e.Remove?) && !e.ok)
  }

  lemma QuietJobOk(s: State, e: Event)
    requires FilesOk(s.files) && IsQuiet(e) && Enabled(s, e) && JobOk(s.files, s.jobs[e.j])
    ensures JobOk(s.files, Step(s, e).jobs[e.j])
  {
    if e.Read? || e.Publish? {
      TransferJobOk(s, e);
    }
  }

  lemma TransferJobOk(s: State, e: Event)
    requires FilesOk(s.files) && (e.Read? || e.Publish?) && Enabled(s, e) && JobOk(s.files, s.jobs[e.j])
    ensures JobOk(s.files, Step(s, e).jobs[e.j])
  {
    if e.Read? && e.chunk == [] {
      assert s.jobs[e.j].read + e.chunk == s.jobs[e.j].read;
    }
  }

  /** What is created, and when. */
  lemma OwnStepCreates(s: State, e: Event)
    requires Enabled(s, e) && !e.Start?
    requires s.jobs[e.j].pc == Removing ==> Removes(s.jobs[e.j].error)
    ensures Created(Step(s, e).jobs[e.j]) <==> Created(s.jobs[e.j]) || e == Create(e.j, true)
    ensures Step(s, e).jobs[e.j].pc == Removing ==> Removes(Step(s, e).jobs[e.j].error)
    ensures e.Create? ==> !Created(s.jobs[e.j])
  {
  }

  lemma QuietIsOwnStep(s: State, e: Event)
    requires FilesOk(s.files) && IsQuiet(e) && Enabled(s, e) && JobOk(s.files, s.jobs[e.j])
    ensures OwnStep(s, e.j, Step(s, e).jobs[e.j], s.files)
    ensures Step(s, e) == Put(s.(files := s.files), e.j, Step(s, e).jobs[e.j])
  {
    SameFiles(s.files, PartName(s.jobs[e.j].filename));
    QuietJobOk(s, e);
    OwnStepCreates(s, e);
  }

  lemma QuietStepKeeps(init: Files, s: State, e: Event)
    requires Inv(init, s) && IsQuiet(e) && Enabled(s, e)
    ensures Inv(init, Step(s, e))
  {
    assert JobOk(s.files, s.jobs[e.j]);
    QuietIsOwnStep(s, e);
    OwnStepKeeps(init, s, e.j, Step(s, e).jobs[e.j], s.files);
  }

  lemma CreateKeeps(init: Files, s: State, j: nat)
    requires Inv(init, s) && Enabled(s, Create(j, true))
    ensures Inv(init, Step(s, Create(j, true)))
  {
    var e := Create(j, true);
    var part := PartName(s.jobs[j].filename);
    CreateFileOk(s.files, part);
    assert JobOk(s.files, s.jobs[j]);
    OwnStepKeeps(init, s, j, Step(s, e).jobs[j], Step(s, e).files);
  }

  lemma WriteKeeps(init: Files, s: State, e: Event)
    requires Inv(init, s) && e.Write? && Enabled(s, e)
    ensures Inv(init, Step(s, e))
  {
    var job := s.jobs[e.j];
    assert JobOk(s.files, job);
    var part, chunk := PartName(job.filename), job.pc.chunk[..e.written];
    WriteFileOk(s.files, part, chunk);
    var t := Step(s, e);
    assert e.ok ==> chunk == job.pc.chunk;
    OwnStepKeeps(init, s, e.j, t.jobs[e.j], t.files);
  }

  lemma RemoveKeeps(init: Files, s: State, j: nat)
    requires Inv(init, s) && Enabled(s, Remove(j, true))
    ensures Inv(init, Step(s, Remove(j, true)))
  {
    var t := Step(s, Remove(j, true));
    assert JobOk(s.files, s.jobs[j]);
    RemoveFileOk(s.files, PartName(s.jobs[j].filename));
    OwnStepKeeps(init, s, j, t.jobs[j], t.files);
  }

  lemma StartJobs(s: State, e: Event)
    requires FilesOk(s.files) && JobsOk(s) && LiveIsLatest(s) && RenamesOwned(s) && e.Start? && MayHappen(s, e)
    ensures JobsOk(Step(s, e)) && LiveIsLatest(Step(s, e)) && RenamesOwned(Step(s, e))
  {
    NormaliseStores(e.urlPath, e.filename, "");
  }

  lemma StartOwners(s: State, e: Event)
    requires FilesOk(s.files) && OwnersOk(s) && e.Start?
    ensures OwnersOk(Step(s, e))
  {
    var t := Step(s, e);
    forall p | p in t.owner
      ensures OwnedWell(t, p)
    {
      assert OwnedWell(s, p);
    }
  }

  lemma StartParts(init: Files, s: State, e: Event)
    requires FilesOk(init) && FilesOk(s.files) && PartsOk(init, s) && e.Start?
    ensures PartsOk(init, Step(s, e))
  {
    var t := Step(s, e);
    forall p
      ensures Claimed(t, p) <==> Claimed(s, p)
      ensures PartExplained(s, p) ==> PartExplained(t, p)
    {
      if Claimed(s, p) {
        StillClaimed(s, t, p);
      }
      if PartExplained(s, p) {
        var i :| 0 <= i < |s.jobs| && PartName(s.jobs[i].filename) == p && (HasPart(s.jobs[i].pc) || s.jobs[i].leaked);
        assert t.jobs[i] == s.jobs[i];
      }
    }
  }

  lemma StartKeeps(init: Files, s: State, e: Event)
    requires Inv(init, s) && e.Start? && MayHappen(s, e)
    ensures Inv(init, Step(s, e))
  {
    StartJobs(s, e);
    StartOwners(s, e);
    StartParts(init, s, e);
    assert RestUntouched(init, Step(s, e));
  }

  // ---------- renaming into place ----------

  lemma RenameJobs(s: State, j: nat)
    requires FilesOk(s.files) && JobsOk(s) && LiveIsLatest(s) && Enabled(s, Rename(j, true))
    ensures FilesOk(Step(s, Rename(j, true)).files) && JobsOk(Step(s, Rename(j, true)))
  {
    var t, job := Step(s, Rename(j, true)), s.jobs[j];
    assert JobOk(s.files, job);
    PartsStayHidden(job.filename, job.filename);
    RenameFileOk(s.files, PartName(job.filename), job.filename);
    forall k | 0 <= k < |t.jobs|
      ensures JobOk(t.files, t.jobs[k])
    {
      assert JobOk(s.files, s.jobs[k]);
      if k != j {
        PartsStayHidden(s.jobs[k].filename, job.filename);
        if Live(s.jobs[k]) {
          OthersLive(s, j, k);
        }
        OtherJobKept(s.files, t.files, s.jobs[k]);
      }
    }
  }

  lemma RenameOwners(s: State, j: nat)
    requires FilesOk(s.files) && JobsOk(s) && OwnersOk(s) && Enabled(s, Rename(j, true))
    requires FilesOk(Step(s, Rename(j, true)).files)
    ensures OwnersOk(Step(s, Rename(j, true)))
  {
    var t, job := Step(s, Rename(j, true)), s.jobs[j];
    assert JobOk(s.files, job);
    PartsStayHidden(job.filename, job.filename);
    RenameFileOk(s.files, PartName(job.filename), job.filename);
    forall p | p in t.owner
      ensures OwnedWell(t, p)
    {
      if p != job.filename {
        assert OwnedWell(s, p);
        assert p != PartName(job.filename) ==> SameEntry(s.files, t.files, p);
        assert JobOk(s.files, s.jobs[s.owner[p]]);
        PartsStayHidden(job.filename, p);
      }
    }
  }

  lemma RenameRest(init: Files, s: State, j: nat)
    requires FilesOk(init) && FilesOk(s.files) && JobsOk(s) && RestUntouched(init, s)
    requires Enabled(s, Rename(j, true)) && FilesOk(Step(s, Rename(j, true)).files)
    ensures RestUntouched(init, Step(s, Rename(j, true)))
  {
    var t, job := Step(s, Rename(j, true)), s.jobs[j];
    assert JobOk(s.files, job);
    PartsStayHidden(job.filename, job.filename);
    RenameFileOk(s.files, PartName(job.filename), job.filename);
    assert forall p :: !IsPart(p) && p != job.filename ==> SameEntry(s.files, t.files, p);
    forall p | p in t.files.dir && !IsPart(p) && p !in t.owner
      ensures Untouched(init, t.files, p)
    {
      assert Untouched(init, s.files, p);
    }
  }

  lemma RenameParts(init: Files, s: State, j: nat)
    requires FilesOk(init) && FilesOk(s.files) && JobsOk(s) && PartsOk(init, s) && Enabled(s, Rename(j, true))
    requires FilesOk(Step(s, Rename(j, true)).files)
    ensures PartsOk(init, Step(s, Rename(j, true)))
  {
    var t, job := Step(s, Rename(j, true)), s.jobs[j];
    assert JobOk(s.files, job);
    ClaimedBy(s, j);
    forall p | IsPart(p)
      ensures p != PartName(job.filename) ==> SameEntry(s.files, t.files, p)
      ensures PartName(job.filename) !in t.files.dir
      ensures Claimed(t, p) <==> Claimed(s, p)
      ensures PartExplained(s, p) && p != PartName(job.filename) ==> PartExplained(t, p)
    {
      RenameEntry(s, j, p);
      RenameClaims(s, j, p);
    }
  }

  lemma RenameEntry(s: State, j: nat, p: string)
    requires FilesOk(s.files) && Enabled(s, Rename(j, true)) && IsStored(s.jobs[j].filename) && IsPart(p)
    ensures
      var t, part := Step(s, Rename(j, true)), PartName(s.jobs[j].filename);
      FilesOk(t.files) && part !in t.files.dir && (p != part ==> SameEntry(s.files, t.files, p))
  {
    var job := s.jobs[j];
    PartsStayHidden(job.filename, job.filename);
    RenameFileOk(s.files, PartName(job.filename), job.filename);
  }

  lemma RenameClaims(s: State, j: nat, p: string)
    requires Enabled(s, Rename(j, true))
    ensures Claimed(Step(s, Rename(j, true)), p) <==> Claimed(s, p)
    ensures PartExplained(s, p) && p != PartName(s.jobs[j].filename) ==> PartExplained(Step(s, Rename(j, true)), p)
  {
    var t, job := Step(s, Rename(j, true)), s.jobs[j];
    if Claimed(s, p) {
      StillClaimed(s, t, p);
    }
    if Claimed(t, p) {
      NewlyClaimed(s, j, t.jobs[j], p);
    }
    if PartExplained(s, p) && p != PartName(job.filename) {
      var i :| 0 <= i < |s.jobs| && PartName(s.jobs[i].filename) == p && (HasPart(s.jobs[i].pc) || s.jobs[i].leaked);
      assert t.jobs[i] == s.jobs[i];
    }
  }

  lemma RenameKeeps(init: Files, s: State, j: nat)
    requires Inv(init, s) && Enabled(s, Rename(j, true))
    ensures Inv(init, Step(s, Rename(j, true)))
  {
    RenameJobs(s, j);
    RenameOwners(s, j);
    RenameRest(init, s, j);
    RenameParts(init, s, j);
  }

  lemma StepKeeps(init: Files, s: State, e: Event)
    requires Inv(init, s) && MayHappen(s, e)
    ensures Inv(init, Step(s, e))
  {
    match e {
      case Start(_, _, _) => StartKeeps(init, s, e);
      case Write(_, _, _) => WriteKeeps(init, s, e);
      case Create(j, ok) => if ok { CreateKeeps(init, s, j); } else { QuietStepKeeps(init, s, e); }
      case Rename(j, ok) => if ok { RenameKeeps(init, s, j); } else { QuietStepKeeps(init, s, e); }
      case Remove(j, ok) => if ok { RemoveKeeps(init, s, j); } else { QuietStepKeeps(init, s, e); }
      case _ => QuietStepKeeps(init, s, e);
    }
  }

  lemma {:induction false} RunKeeps(init: Files, s: State, events: seq<Event>)
    requires Inv(init, s) && IsRun(s, events)
    ensures Inv(init, Run(s, events))
    decreases |events|
  {
    if events == [] {
    } else {
      StepKeeps(init, s, events[0]);
      RunKeeps(init, Step(s, events[0]), events[1..]);
    }
  }

  // ---------- what observers may conclude ----------

  /** GetJob */
  function GetJob(s: State, id: string): Option<Job> {
    if id in s.table && s.table[id] < |s.jobs| then Some(s.jobs[s.table[id]]) else None
  }

  /** The names ListISOs returns. */
  function ListISOs(f: Files): set<string> {
    set p | p in f.dir && IsListed(p)
  }

  /** A completed job's destination file holds exactly every chunk the job read, byte count included,
      unless a later download of the same name has replaced it; that one is complete as well. */
  ghost predicate CompletedIsWhole(s: State, id: string) {
    var seen := GetJob(s, id);
    FilesOk(s.files) &&
    (seen.Some? && seen.value.status == Completed ==>
       var name := seen.value.filename;
       && seen.value.downloaded == |seen.value.read|
       && name in s.files.dir
       && (exists k :: s.table[id] <= k < |s.jobs| && s.jobs[k].filename == name && Renamed(s.jobs[k])
             && Content(s.files, name) == s.jobs[k].read)
       && ((forall k :: s.table[id] < k < |s.jobs| ==> s.jobs[k].filename != name) ==>
             Content(s.files, name) == seen.value.read))
  }

  lemma CompletedInv(s: State, id: string)
    requires FilesOk(s.files) && JobsOk(s) && OwnersOk(s) && RenamesOwned(s)
    ensures CompletedIsWhole(s, id)
  {
    var seen := GetJob(s, id);
    if seen.Some? && seen.value.status == Completed {
      var j, name := s.table[id], seen.value.filename;
      assert JobOk(s.files, s.jobs[j]) && Renamed(s.jobs[j]);
      var k := s.owner[name];
      assert OwnedWell(s, name);
      assert j <= k < |s.jobs| && s.jobs[k].filename == name && Renamed(s.jobs[k])
          && Content(s.files, name) == s.jobs[k].read;
    }
  }

  lemma InitialOk(s0: State)
    requires Initial(s0)
    ensures Inv(s0.files, s0)
  {
  }

  /** Whatever an observer sees at any moment of any interleaving. */
  lemma CompletedMeansComplete(s0: State, events: seq<Event>, id: string)
    requires Initial(s0) && IsRun(s0, events)
    ensures CompletedIsWhole(Run(s0, events), id)
  {
    InitialOk(s0);
    RunKeeps(s0.files, s0, events);
    CompletedInv(Run(s0, events), id);
  }

  /** A listed file is as it was before the manager started, or the whole body of a renamed job. */
  ghost predicate ListedIsWhole(init: Files, s: State, p: string) {
    FilesOk(init) && FilesOk(s.files) &&
    (p in ListISOs(s.files) ==>
       Untouched(init, s.files, p)
       || exists k :: 0 <= k < |s.jobs| && s.jobs[k].filename == p && Renamed(s.jobs[k])
            && Content(s.files, p) == s.jobs[k].read && s.jobs[k].downloaded == |s.jobs[k].read|)
  }

  lemma ListedInv(init: Files, s: State, p: string)
    requires Inv(init, s)
    ensures ListedIsWhole(init, s, p) && (p in ListISOs(init) ==> p in ListISOs(s.files))
  {
    if IsListed(p) {
      NotPart(p);
    }
    if p in ListISOs(s.files) {
      if p in s.owner {
        assert OwnedWell(s, p);
        assert JobOk(s.files, s.jobs[s.owner[p]]);
      }
    }
  }

  /** What ListISOs shows is never a partial download, and no listed file of the start is lost. */
  lemma NoPartialFileListed(s0: State, events: seq<Event>, p: string)
    requires Initial(s0) && IsRun(s0, events)
    ensures ListedIsWhole(s0.files, Run(s0, events), p)
    ensures p in ListISOs(s0.files) ==> p in ListISOs(Run(s0, events).files)
  {
    InitialOk(s0);
    RunKeeps(s0.files, s0, events);
    ListedInv(s0.files, Run(s0, events), p);
  }

  /** No job of this name is running, and every clean-up of one worked. */
  ghost predicate CleanlyFinished(s: State, name: string) {
    forall k :: 0 <= k < |s.jobs| && s.jobs[k].filename == name ==> !Live(s.jobs[k]) && !s.jobs[k].leaked
  }

  lemma NoPartInv(init: Files, s: State, name: string)
    requires Inv(init, s) && IsStored(name) && CleanlyFinished(s, name)
    ensures
      var part := PartName(name);
      && (part in s.files.dir <==> part in init.dir && !Claimed(s, part))
      && (part in s.files.dir ==> Untouched(init, s.files, part))
  {
    var part := PartName(name);
    PartsStayHidden(name, name);
    forall i | 0 <= i < |s.jobs| && PartName(s.jobs[i].filename) == part
      ensures !HasPart(s.jobs[i].pc) && !s.jobs[i].leaked
    {
      PartNameInjective(s.jobs[i].filename, name);
    }
  }

  /** Finished goroutines leave no .part file behind, unless the removal itself failed. One that an
      earlier process left survives, as it was, exactly if no download of that name got as far as
      creating its own. */
  lemma NoPartLeft(s0: State, events: seq<Event>, name: string)
    requires Initial(s0) && IsRun(s0, events) && IsStored(name) && CleanlyFinished(Run(s0, events), name)
    ensures
      var t, part := Run(s0, events), PartName(name);
      && FilesOk(t.files)
      && (part in t.files.dir <==> part in s0.files.dir && !Claimed(t, part))
      && (part in t.files.dir ==> Untouched(s0.files, t.files, part))
  {
    InitialOk(s0);
    RunKeeps(s0.files, s0, events);
    NoPartInv(s0.files, Run(s0, events), name);
  }

  /** Over any stretch of a run: a job keeps its id and name, its byte count never falls, its status
      leaves "downloading" at most once and is then final. */
  ghost predicate Advances(before: Job, after: Job) {
    && after.id == before.id && after.filename == before.filename
    && after.downloaded >= before.downloaded
    && (before.status != Downloading ==>
          after.status == before.status && after.error == before.error && after.downloaded == before.downloaded)
    && before.read <= after.read
  }

  lemma OwnStepAdvances(f: Files, s: State, e: Event)
    requires FilesOk(f) && Enabled(s, e) && !e.Start? && JobOk(f, s.jobs[e.j])
    ensures Advances(s.jobs[e.j], Step(s, e).jobs[e.j])
  {
  }

  lemma StepAdvances(init: Files, s: State, e: Event, j: nat)
    requires Inv(init, s) && MayHappen(s, e) && j < |s.jobs|
    ensures j < |Step(s, e).jobs| && Advances(s.jobs[j], Step(s, e).jobs[j])
  {
    if !e.Start? && e.j == j {
      assert JobOk(s.files, s.jobs[j]);
      OwnStepAdvances(s.files, s, e);
    } else {
      assert Step(s, e).jobs[j] == s.jobs[j];
    }
  }

  lemma {:induction false} StatusSettles(init: Files, s: State, events: seq<Event>, j: nat)
    requires Inv(init, s) && IsRun(s, events) && j < |s.jobs|
    ensures j < |Run(s, events).jobs| && Advances(s.jobs[j], Run(s, events).jobs[j])
    decreases |events|
  {
    if events == [] {
    } else {
      StepKeeps(init, s, events[0]);
      StepAdvances(init, s, events[0], j);
      StatusSettles(init, Step(s, events[0]), events[1..], j);
    }
  }
}
