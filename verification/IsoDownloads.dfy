/** The ISO download manager as a step system: any number of executeDownload goroutines interleaved
    at the granularity of their shared effects, over a file system of paths and inodes. */
module IsoDownloads {
  import opened Text
  import opened IsoNames

  type Bytes = seq<int>

  // ---------- files ----------

  /** The repository directory: names to inodes, and what each inode holds. */
  datatype Files = Files(dir: map<string, nat>, data: map<nat, Bytes>, next: nat)

  /** Names are the only links, inode numbers are not reused. */
  ghost predicate FilesOk(f: Files) {
    && (forall p :: p in f.dir ==> f.dir[p] in f.data)
    && (forall i :: i in f.data ==> i < f.next)
    && (forall p, q :: p in f.dir && q in f.dir && f.dir[p] == f.dir[q] ==> p == q)
  }

  ghost function Content(f: Files, p: string): Bytes
    requires FilesOk(f) && p in f.dir
  {
    f.data[f.dir[p]]
  }

  /** os.Create: truncates an existing file. */
  function CreateFile(f: Files, p: string): (Files, nat) {
    if p in f.dir then (f.(data := f.data[f.dir[p] := []]), f.dir[p])
    else (Files(f.dir[p := f.next], f.data[f.next := []], f.next + 1), f.next)
  }

  function Zeros(n: nat): Bytes {
    seq(n, _ => 0)
  }

  /** A write at the handle's offset. */
  function Overwrite(d: Bytes, offset: nat, b: Bytes): Bytes {
    var padded := if |d| < offset then d + Zeros(offset - |d|) else d;
    padded[..offset] + b + if offset + |b| < |padded| then padded[offset + |b|..] else []
  }

  function WriteFile(f: Files, inode: nat, offset: nat, b: Bytes): Files {
    if inode in f.data then f.(data := f.data[inode := Overwrite(f.data[inode], offset, b)]) else f
  }

  function RenameFile(f: Files, from: string, to: string): Files
    requires from in f.dir
  {
    f.(dir := (f.dir - {from})[to := f.dir[from]])
  }

  function RemoveFile(f: Files, p: string): Files {
    f.(dir := f.dir - {p})
  }

  // ---------- jobs ----------

  datatype Status = Downloading | Completed | Failed

  /** How a body read ended. */
  datatype After = More | EOF | ReadError

  /** How client.Get ended: no connection, a status other than 200, or a body of the announced length. */
  datatype Response = Unreachable | BadStatus(code: int) | Body(length: int)

  /** The kinds of message failJob records in a job's Error field. */
  datatype Fault = NoFault | NoConnection | NotOK | NotCreated | NotWritten | NotRead | NotRenamed

  /** The failures that executeDownload follows with os.Remove. */
  predicate Removes(fault: Fault) {
    fault.NotWritten? || fault.NotRead? || fault.NotRenamed?
  }

  /** Where a job's goroutine is: the next shared effect it will have. */
  datatype PC =
    | Connecting
    | Creating
    | Reading
    | Writing(chunk: Bytes, after: After)
    | Publishing(after: After)
    | Renaming
    | Completing
    | Failing(fault: Fault)
    | Removing
    | Done

  /** The first seven fields are what GetJob shows; offset is the local byte count; read is every
      chunk the body has yielded; leaked records a failed clean-up. */
  datatype Job = Job(
    id: string, filename: string, status: Status, error: Fault, totalBytes: int, downloaded: nat, progressPct: real,
    pc: PC, inode: nat, offset: nat, read: Bytes, leaked: bool)

  /** jobs are the job objects in order of creation, table the manager's map from ids to them, owner
      the job whose rename last put each destination in place. */
  datatype State = State(files: Files, jobs: seq<Job>, table: map<string, nat>, owner: map<string, nat>)

  datatype Event =
    | Start(id: string, urlPath: string, filename: string)
    | Connect(j: nat, response: Response)
    | Create(j: nat, ok: bool)
    | Read(j: nat, chunk: Bytes, after: After)
    | Write(j: nat, ok: bool, written: nat)
    | Publish(j: nat)
    | Rename(j: nat, ok: bool)
    | Complete(j: nat)
    | Fail(j: nat)
    | Remove(j: nat, ok: bool)

  function NewJob(id: string, filename: string): Job {
    Job(id, filename, Downloading, NoFault, 0, 0, 0.0, Connecting, 0, 0, [], false)
  }

  /** After a chunk has been dealt with. */
  function Continue(after: After): PC {
    match after
    case More => Reading
    case EOF => Renaming
    case ReadError => Failing(NotRead)
  }

  function Progress(total: int, downloaded: nat, before: real): real {
    if total > 0 then downloaded as real / total as real * 100.0 else before
  }

  /** The event is the next effect of its job's goroutine. */
  predicate Enabled(s: State, e: Event) {
    if e.Start? then true
    else
      e.j < |s.jobs| &&
      var pc := s.jobs[e.j].pc;
      match e
      case Connect(_, _) => pc.Connecting?
      case Create(_, _) => pc.Creating?
      case Read(_, _, _) => pc.Reading?
      case Write(_, ok, written) => pc.Writing? && written <= |pc.chunk| && (ok ==> written == |pc.chunk|)
      case Publish(_) => pc.Publishing?
      case Rename(_, ok) => pc.Renaming? && (ok ==> PartName(s.jobs[e.j].filename) in s.files.dir)
      case Complete(_) => pc.Completing?
      case Fail(_) => pc.Failing?
      case Remove(_, _) => pc.Removing?
  }

  function Put(s: State, j: nat, job: Job): State
    requires j < |s.jobs|
  {
    s.(jobs := s.jobs[j := job])
  }

  function Step(s: State, e: Event): State
    requires Enabled(s, e)
  {
    if e.Start? then
      var name := Normalise(e.urlPath, e.filename);
      s.(jobs := s.jobs + [NewJob(e.id, name)], table := s.table[e.id := |s.jobs|])
    else
      var job := s.jobs[e.j];
      var part := PartName(job.filename);
      match e
      case Connect(j, response) =>
        (match response
         case Unreachable => Put(s, j, job.(pc := Failing(NoConnection)))
         case BadStatus(_) => Put(s, j, job.(pc := Failing(NotOK)))
         case Body(length) => Put(s, j, job.(pc := Creating, totalBytes := length)))
      case Create(j, ok) =>
        if !ok then Put(s, j, job.(pc := Failing(NotCreated)))
        else
          var (files, inode) := CreateFile(s.files, part);
          Put(s.(files := files), j, job.(pc := Reading, inode := inode))
      case Read(j, chunk, after) =>
        Put(s, j, job.(read := job.read + chunk, pc := if chunk == [] then Continue(after) else Writing(chunk, after)))
      case Write(j, ok, written) =>
        var files := WriteFile(s.files, job.inode, job.offset, job.pc.chunk[..written]);
        Put(s.(files := files), j,
            if ok then job.(offset := job.offset + written, pc := Publishing(job.pc.after))
            else job.(pc := Failing(NotWritten)))
      case Publish(j) =>
        Put(s, j, job.(downloaded := job.offset, progressPct := Progress(job.totalBytes, job.offset, job.progressPct),
                       pc := Continue(job.pc.after)))
      case Rename(j, ok) =>
        if !ok then Put(s, j, job.(pc := Failing(NotRenamed)))
        else
          Put(s.(files := RenameFile(s.files, part, job.filename), owner := s.owner[job.filename := j]), j,
              job.(pc := Completing))
      case Complete(j) => Put(s, j, job.(status := Completed, progressPct := 100.0, pc := Done))
      case Fail(j) =>
        Put(s, j, job.(status := Failed, error := job.pc.fault, pc := if Removes(job.pc.fault) then Removing else Done))
      case Remove(j, ok) =>
        if ok then Put(s.(files := RemoveFile(s.files, part)), j, job.(pc := Done))
        else Put(s, j, job.(pc := Done, leaked := true))
  }

  predicate Live(job: Job) {
    job.pc != Done
  }

  /** A download may start when no live one has the same normalised name. */
  predicate MayHappen(s: State, e: Event) {
    && Enabled(s, e)
    && (e.Start? ==>
          forall k :: 0 <= k < |s.jobs| && Live(s.jobs[k]) ==> s.jobs[k].filename != Normalise(e.urlPath, e.filename))
  }

  predicate IsRun(s: State, events: seq<Event>)
    decreases |events|
  {
    events == [] || (MayHappen(s, events[0]) && IsRun(Step(s, events[0]), events[1..]))
  }

  function Run(s: State, events: seq<Event>): State
    requires IsRun(s, events)
    decreases |events|
  {
    if events == [] then s else Run(Step(s, events[0]), events[1..])
  }

  lemma {:induction false} RunSnoc(s: State, events: seq<Event>, e: Event)
    requires IsRun(s, events) && MayHappen(Run(s, events), e)
    ensures IsRun(s, events + [e]) && Run(s, events + [e]) == Step(Run(s, events), e)
    decreases |events|
  {
    if events == [] {
      assert [] + [e] == [e];
    } else {
      assert (events + [e])[1..] == events[1..] + [e];
      RunSnoc(Step(s, events[0]), events[1..], e);
    }
  }

  /** What follows a prefix of a run is a run from where the prefix ends. */
  lemma {:induction false} RunSplit(s: State, before: seq<Event>, events: seq<Event>)
    requires IsRun(s, events) && before <= events
    ensures IsRun(s, before) && IsRun(Run(s, before), events[|before|..])
    ensures Run(Run(s, before), events[|before|..]) == Run(s, events)
    decreases |before|
  {
    if before == [] {
    } else {
      assert before[1..] <= events[1..];
      assert events[1..][|before| - 1..] == events[|before|..];
      RunSplit(Step(s, before[0]), before[1..], events[1..]);
    }
  }

  /** A fresh manager over any directory, whatever an earlier process has left in it. */
  ghost predicate Initial(s: State) {
    FilesOk(s.files) && s.jobs == [] && s.table == map[] && s.owner == map[]
  }
}
