/** pkg/iso/catalog.go: starting and executing downloads, listing, and byte counts for display. */
module IsoCatalog {
  import opened Text
  import opened GoInt
  import opened IsoNames
  import opened IsoDownloads
  import opened IsoSafety

  // ---------- one goroutine's view of the network and disk ----------

  /** One round of the loop: what Body.Read yields and whether the write of it succeeds. */
  datatype Round = Round(chunk: Bytes, after: After, writeOk: bool, written: nat)

  datatype Net = Net(response: Response, createOk: bool, rounds: seq<Round>, renameOk: bool, removeOk: bool)

  /** How the transfer ends: the whole body, an error after some of it, or still waiting. */
  datatype Transfer = Whole(body: Bytes) | Broken(body: Bytes, fault: Fault) | Waiting(body: Bytes)

  function Prepend(b: Bytes, t: Transfer): Transfer {
    t.(body := b + t.body)
  }

  /** How one round leaves the transfer. */
  function RoundOutcome(r: Round): Transfer {
    if r.chunk != [] && !r.writeOk then Broken(r.chunk, NotWritten)
    else
      match r.after
      case EOF => Whole(r.chunk)
      case ReadError => Broken(r.chunk, NotRead)
      case More => Waiting(r.chunk)
  }

  function Fetch(rounds: seq<Round>): Transfer {
    if rounds == [] then Waiting([])
    else
      var t := RoundOutcome(rounds[0]);
      if t.Waiting? then Prepend(t.body, Fetch(rounds[1..])) else t
  }

  /** Without a connection or a .part file nothing is transferred. */
  function Outcome(net: Net): Transfer {
    match net.response
    case Unreachable => Broken([], NoConnection)
    case BadStatus(_) => Broken([], NotOK)
    case Body(_) => if !net.createOk then Broken([], NotCreated) else Fetch(net.rounds)
  }

  /** What the job shows once its goroutine has ended, or while it still waits for the body. */
  ghost predicate Ended(job: Job, t: Transfer, renameOk: bool) {
    && job.read == t.body
    && match t
       case Waiting(_) => job.pc == Reading && job.status == Downloading
       case Broken(_, fault) => job.pc == Done && job.status == Failed && job.error == fault
       case Whole(_) =>
         job.pc == Done && if renameOk then job.status == Completed else job.status == Failed && job.error == NotRenamed
  }

  lemma PrependTwice(a: Bytes, b: Bytes, t: Transfer)
    ensures Prepend(a, Prepend(b, t)) == Prepend(a + b, t)
  {
    assert a + (b + t.body) == (a + b) + t.body;
  }

  /** The next round, after `before` has been read. */
  lemma FetchRound(rounds: seq<Round>, i: nat, before: Bytes)
    requires i < |rounds|
    ensures
      var t := Prepend(before, RoundOutcome(rounds[i]));
      Prepend(before, Fetch(rounds[i..])) == if t.Waiting? then Prepend(t.body, Fetch(rounds[i + 1..])) else t
  {
    assert rounds[i..][0] == rounds[i] && rounds[i..][1..] == rounds[i + 1..];
    PrependTwice(before, rounds[i].chunk, Fetch(rounds[i + 1..]));
  }

  /** Jobs that differ at most in their file handles. */
  predicate SameView(a: Job, b: Job) {
    a.(inode := 0) == b.(inode := 0)
  }

  // ---------- the manager ----------

  class Manager {
    /** The job objects, the id map and the directory, shared by all goroutines. */
    var st: State
    ghost var origin: State
    ghost var trace: seq<Event>

    /** The state is always the result of a run of the step system. */
    ghost predicate Valid()
      reads this
    {
      Initial(origin) && IsRun(origin, trace) && st == Run(origin, trace)
    }

    /** The run so far has only been added to. */
    twostate predicate Continues()
      reads this
    {
      origin == old(origin) && old(trace) <= trace
    }

    constructor (files: Files)
      requires FilesOk(files)
      ensures Valid() && st == State(files, [], map[], map[])
    {
      st := State(files, [], map[], map[]);
      origin, trace := State(files, [], map[], map[]), [];
    }

    /** One shared effect. */
    method Act(e: Event)
      requires Valid() && MayHappen(st, e)
      modifies this
      ensures Valid() && origin == old(origin) && trace == old(trace) + [e] && st == Step(old(st), e)
    {
      RunSnoc(origin, trace, e);
      trace := trace + [e];
      st := Step(st, e);
    }

    /** Whatever other goroutines and callers do meanwhile. */
    method Others(j: nat, events: seq<Event>)
      requires Valid() && j < |st.jobs|
      requires forall k :: 0 <= k < |events| ==> events[k].Start? || events[k].j != j
      modifies this
      ensures Valid() && Continues() && j < |st.jobs| && st.jobs[j] == old(st.jobs[j])
    {
      for i := 0 to |events|
        invariant Valid() && Continues() && j < |st.jobs| && st.jobs[j] == old(st.jobs[j])
      {
        if MayHappen(st, events[i]) {
          Act(events[i]);
        }
      }
    }

    /** The next effect of job j's goroutine, other than the rename, after whatever others do first. */
    method Next(j: nat, e: Event, events: seq<Event>)
      requires Valid() && Enabled(st, e) && !e.Start? && !e.Rename? && e.j == j
      requires forall k :: 0 <= k < |events| ==> events[k].Start? || events[k].j != j
      modifies this
      ensures Valid() && Continues() && j < |st.jobs|
      ensures SameView(st.jobs[j], Step(old(st), e).jobs[j])
    {
      Others(j, events);
      Act(e);
    }

    /** The rewriting of the file name, step by step. */
    method ChooseName(urlPath: string, filename: string) returns (name: string)
      ensures name == Normalise(urlPath, filename) && IsStored(name)
    {
      name := filename;
      if name == "" {
        name := Base(urlPath);
      }
      if name == "" || name == "." || name == "/" {
        name := "downloaded-image.iso";
      }
      if !EndsIn(name, ".iso") && !EndsIn(name, ".img") {
        name := name + ".iso";
      }
      name := Base(name);
      NormaliseStores(urlPath, filename, "");
    }

    /** StartDownload up to the go statement; None when the URL is not an http or https one. Nothing
        keeps a caller from naming a file that a live download is writing: the run is then no longer
        one that IsoSafety speaks of. */
    method StartDownload(urlPath: Option<string>, filename: string, id: string) returns (j: Option<nat>)
      requires Valid()
      modifies this
      ensures j.Some? <==> urlPath.Some?
      ensures j.None? ==> st == old(st) && Valid() && Continues()
      ensures j.Some? ==>
                && j.value == |old(st.jobs)| < |st.jobs| && st == Step(old(st), Start(id, urlPath.value, filename))
                && GetJob(st, id) == Some(st.jobs[j.value]) && st.jobs[j.value].id == id
                && st.jobs[j.value].filename == Normalise(urlPath.value, filename)
                && IsStored(st.jobs[j.value].filename)
                && st.jobs[j.value].status == Downloading && st.jobs[j.value].error == NoFault
                && st.jobs[j.value].downloaded == 0 && st.jobs[j.value].progressPct == 0.0
                && (old(MayHappen(st, Start(id, urlPath.value, filename))) ==> Valid() && Continues())
    {
      if urlPath.None? {
        return None;
      }
      var name := ChooseName(urlPath.value, filename);
      ghost var e := Start(id, urlPath.value, filename);
      if MayHappen(st, e) {
        RunSnoc(origin, trace, e);
      }
      trace := trace + [e];
      j := Some(|st.jobs|);
      st := st.(jobs := st.jobs + [NewJob(id, name)], table := st.table[id := |st.jobs|]);
    }

    /** The goroutine: its loop and branches, with arbitrary activity of others before each of its
        shared effects. Its outcome depends on its own network and disk results alone. */
    method ExecuteDownload(j: nat, net: Net, others: nat -> seq<Event>)
      requires Valid() && j < |st.jobs| && st.jobs[j].pc == Connecting
      requires forall n, k :: 0 <= k < |others(n)| ==> others(n)[k].Start? || others(n)[k].j != j
      requires forall k :: 0 <= k < |net.rounds| ==> net.rounds[k].written <= |net.rounds[k].chunk|
      modifies this
      ensures Valid() && Continues() && j < |st.jobs|
      ensures Ended(st.jobs[j], Outcome(net), net.renameOk)
    {
      var ok := Open(j, net, others);
      if ok {
        Receive(j, net, others);
      }
    }

    /** The request and the creation of the .part file. */
    method Open(j: nat, net: Net, others: nat -> seq<Event>) returns (ok: bool)
      requires Valid() && j < |st.jobs| && st.jobs[j].pc == Connecting
      requires forall n, k :: 0 <= k < |others(n)| ==> others(n)[k].Start? || others(n)[k].j != j
      modifies this
      ensures Valid() && Continues() && j < |st.jobs| && ok == (net.response.Body? && net.createOk)
      ensures if ok then Ended(st.jobs[j], Waiting([]), net.renameOk) else Ended(st.jobs[j], Outcome(net), net.renameOk)
    {
      Known(j);
      Next(j, Connect(j, net.response), others(0));
      if net.response.Body? {
        ok := CreatePart(j, net.createOk, others);
      } else {
        GiveUp(j, others(2));
        ok := false;
      }
    }

    /** failJob with nothing to remove. */
    method GiveUp(j: nat, events: seq<Event>)
      requires Valid() && j < |st.jobs| && st.jobs[j].pc.Failing? && !Removes(st.jobs[j].pc.fault)
      requires forall k :: 0 <= k < |events| ==> events[k].Start? || events[k].j != j
      modifies this
      ensures Valid() && Continues() && j < |st.jobs|
      ensures st.jobs[j].pc == Done && st.jobs[j].status == Failed && st.jobs[j].error == old(st.jobs[j].pc.fault)
      ensures st.jobs[j].read == old(st.jobs[j].read)
    {
      Next(j, Fail(j), events);
    }

    method CreatePart(j: nat, createOk: bool, others: nat -> seq<Event>) returns (ok: bool)
      requires Valid() && j < |st.jobs| && st.jobs[j].pc == Creating && st.jobs[j].status == Downloading
      requires forall n, k :: 0 <= k < |others(n)| ==> others(n)[k].Start? || others(n)[k].j != j
      modifies this
      ensures Valid() && Continues() && j < |st.jobs| && ok == createOk && st.jobs[j].read == old(st.jobs[j].read)
      ensures if ok then st.jobs[j].pc == Reading && st.jobs[j].status == Downloading
              else st.jobs[j].pc == Done && st.jobs[j].status == Failed && st.jobs[j].error == NotCreated
    {
      Next(j, Create(j, createOk), others(1));
      if !createOk {
        GiveUp(j, others(2));
      }
      return createOk;
    }

    /** The read loop. */
    method Receive(j: nat, net: Net, others: nat -> seq<Event>)
      requires Valid() && j < |st.jobs| && Ended(st.jobs[j], Waiting([]), net.renameOk)
      requires forall n, k :: 0 <= k < |others(n)| ==> others(n)[k].Start? || others(n)[k].j != j
      requires forall k :: 0 <= k < |net.rounds| ==> net.rounds[k].written <= |net.rounds[k].chunk|
      modifies this
      ensures Valid() && Continues() && j < |st.jobs|
      ensures Ended(st.jobs[j], Fetch(net.rounds), net.renameOk)
    {
      for i := 0 to |net.rounds|
        invariant Valid() && Continues() && j < |st.jobs|
        invariant Ended(st.jobs[j], Waiting(st.jobs[j].read), net.renameOk)
        invariant Fetch(net.rounds) == Prepend(st.jobs[j].read, Fetch(net.rounds[i..]))
      {
        FetchRound(net.rounds, i, st.jobs[j].read);
        var more := TakeRound(j, net.rounds[i], net, others, 5 * i + 2);
        if !more {
          return;
        }
      }
    }

    /** The loop body: one read, and what it leads to. */
    method TakeRound(j: nat, r: Round, net: Net, others: nat -> seq<Event>, at: nat) returns (more: bool)
      requires Valid() && j < |st.jobs| && st.jobs[j].pc == Reading && st.jobs[j].status == Downloading
      requires forall n, k :: 0 <= k < |others(n)| ==> others(n)[k].Start? || others(n)[k].j != j
      requires r.written <= |r.chunk|
      modifies this
      ensures Valid() && Continues() && j < |st.jobs| && more == RoundOutcome(r).Waiting?
      ensures Ended(st.jobs[j], Prepend(old(st.jobs[j].read), RoundOutcome(r)), net.renameOk)
    {
      Next(j, Read(j, r.chunk, r.after), others(at));
      if r.chunk != [] {
        var ok := Store(j, r, others, at + 1);
        if !ok {
          CleanUp(j, net.removeOk, others, at + 2);
          return false;
        }
      }
      if r.after == EOF {
        Finish(j, net, others, at + 3);
        return false;
      }
      if r.after == ReadError {
        CleanUp(j, net.removeOk, others, at + 3);
        return false;
      }
      return true;
    }

    /** Writing a chunk and reporting the new count. */
    method Store(j: nat, r: Round, others: nat -> seq<Event>, at: nat) returns (ok: bool)
      requires Valid() && j < |st.jobs| && st.jobs[j].pc == Writing(r.chunk, r.after) && r.written <= |r.chunk|
      requires forall n, k :: 0 <= k < |others(n)| ==> others(n)[k].Start? || others(n)[k].j != j
      modifies this
      ensures Valid() && Continues() && j < |st.jobs| && ok == r.writeOk
      ensures st.jobs[j].pc == if ok then Continue(r.after) else Failing(NotWritten)
      ensures st.jobs[j].read == old(st.jobs[j].read) && st.jobs[j].status == old(st.jobs[j].status)
    {
      Next(j, Write(j, r.writeOk, if r.writeOk then |r.chunk| else r.written), others(at));
      ok := r.writeOk;
      if ok {
        Next(j, Publish(j), others(at + 1));
      }
    }

    /** failJob, then os.Remove. */
    method CleanUp(j: nat, removeOk: bool, others: nat -> seq<Event>, at: nat)
      requires Valid() && j < |st.jobs| && st.jobs[j].pc.Failing? && Removes(st.jobs[j].pc.fault)
      requires forall n, k :: 0 <= k < |others(n)| ==> others(n)[k].Start? || others(n)[k].j != j
      modifies this
      ensures Valid() && Continues() && j < |st.jobs|
      ensures st.jobs[j].pc == Done && st.jobs[j].status == Failed && st.jobs[j].error == old(st.jobs[j].pc.fault)
      ensures st.jobs[j].read == old(st.jobs[j].read)
    {
      Next(j, Fail(j), others(at));
      Next(j, Remove(j, removeOk), others(at + 1));
    }

    /** The rename, which always finds the .part file, and the final status. */
    method Finish(j: nat, net: Net, others: nat -> seq<Event>, at: nat)
      requires Valid() && j < |st.jobs| && st.jobs[j].pc == Renaming
      requires forall n, k :: 0 <= k < |others(n)| ==> others(n)[k].Start? || others(n)[k].j != j
      modifies this
      ensures Valid() && Continues() && j < |st.jobs|
      ensures st.jobs[j].pc == Done && st.jobs[j].read == old(st.jobs[j].read)
      ensures if net.renameOk then st.jobs[j].status == Completed
              else st.jobs[j].status == Failed && st.jobs[j].error == NotRenamed
    {
      Others(j, others(at));
      Known(j);
      Act(Rename(j, net.renameOk));
      if net.renameOk {
        Next(j, Complete(j), others(at + 1));
      } else {
        CleanUp(j, net.removeOk, others, at + 1);
      }
    }

    /** From one state of a manager to any later one, each job only advances. */
    twostate lemma JobsAdvance(j: nat)
      requires old(Valid()) && Valid() && Continues() && j < old(|st.jobs|)
      ensures j < |st.jobs| && Advances(old(st.jobs[j]), st.jobs[j])
    {
      var before := old(trace);
      RunSplit(origin, before, trace);
      InitialOk(origin);
      RunKeeps(origin.files, origin, before);
      StatusSettles(origin.files, Run(origin, before), trace[|before|..], j);
    }

    lemma Known(j: nat)
      requires Valid() && j < |st.jobs|
      ensures FilesOk(st.files) && JobOk(st.files, st.jobs[j])
    {
      InitialOk(origin);
      RunKeeps(origin.files, origin, trace);
    }
  }

  // ---------- listing ----------

  /** What ReadDir says of an entry; size is None when Info fails. */
  datatype DirEntry = DirEntry(name: string, isDir: bool, size: Option<int64>)

  datatype ISOFile = ISOFile(name: string, sizeBytes: int64)

  predicate Shown(e: DirEntry) {
    !e.isDir && e.size.Some? && IsListed(e.name)
  }

  /** The entries that ListISOs shows, in the directory's order. */
  function Listing(entries: seq<DirEntry>): seq<ISOFile> {
    if entries == [] then []
    else
      var last := entries[|entries| - 1];
      Listing(entries[..|entries| - 1]) + if Shown(last) then [ISOFile(last.name, last.size.value)] else []
  }

  /** One scan of the entries, in the order ReadDir gives them. */
  method List(entries: seq<DirEntry>) returns (results: seq<ISOFile>)
    ensures results == Listing(entries)
  {
    results := [];
    for i := 0 to |entries|
      invariant results == Listing(entries[..i])
    {
      var entry := entries[i];
      ListingRound(entries, i);
      if entry.isDir {
        continue;
      }
      var lower := ToLower(entry.name);
      if HasSuffix(lower, ".iso") || HasSuffix(lower, ".img") || HasSuffix(lower, ".vhdx") {
        if entry.size.None? {
          continue;
        }
        results := results + [ISOFile(entry.name, entry.size.value)];
      }
    }
    assert entries[..|entries|] == entries;
  }

  lemma ListingRound(entries: seq<DirEntry>, i: nat)
    requires i < |entries|
    ensures
      var e := entries[i];
      Listing(entries[..i + 1]) == Listing(entries[..i]) + if Shown(e) then [ISOFile(e.name, e.size.value)] else []
  {
    assert entries[..i + 1][..i] == entries[..i];
  }

  /** The listing consists of the entries at these positions. */
  ghost predicate Positions(entries: seq<DirEntry>, at: seq<nat>) {
    && |at| == |Listing(entries)|
    && (forall i, k :: 0 <= i < k < |at| ==> at[i] < at[k])
    && (forall i :: 0 <= i < |at| ==>
          at[i] < |entries| && Shown(entries[at[i]])
          && Listing(entries)[i] == ISOFile(entries[at[i]].name, entries[at[i]].size.value))
    && (forall k :: 0 <= k < |entries| && Shown(entries[k]) ==> k in at)
  }

  /** A listing is complete, in the directory's order, without repetition, and nothing else. */
  lemma {:induction false} ListingMeaning(entries: seq<DirEntry>) returns (at: seq<nat>)
    ensures Positions(entries, at)
  {
    if entries == [] {
      at := [];
    } else {
      var n := |entries| - 1;
      var rest := ListingMeaning(entries[..n]);
      at := if Shown(entries[n]) then rest + [n] else rest;
      PositionsGrow(entries, rest, at);
    }
  }

  lemma PositionsGrow(entries: seq<DirEntry>, rest: seq<nat>, at: seq<nat>)
    requires entries != [] && Positions(entries[..|entries| - 1], rest)
    requires at == if Shown(entries[|entries| - 1]) then rest + [|entries| - 1] else rest
    ensures Positions(entries, at)
  {
    var n := |entries| - 1;
    var before := entries[..n];
    assert forall k :: 0 <= k < n ==> before[k] == entries[k];
    forall k | 0 <= k < |entries| && Shown(entries[k])
      ensures k in at
    {
      if k < n {
        assert Shown(before[k]) && k in rest;
      } else {
        assert at[|rest|] == n;
      }
    }
  }

  // ---------- FormatBytes ----------

  function Power(base: nat, e: nat): (r: nat)
    ensures base > 0 ==> r > 0
  {
    if e == 0 then 1 else base * Power(base, e - 1)
  }

  /** A plain byte count, or a value in [1, 1024) of a unit. */
  datatype ByteText = Plain(bytes: int64) | Scaled(value: real, unit: char)

  const UNITS := "KMGTPE"

  /** The int64 types of div and n carry the proof that the loop never overflows. */
  method FormatBytes(bytes: int64) returns (text: ByteText)
    ensures bytes < 1024 ==> text == Plain(bytes)
    ensures bytes >= 1024 ==>
              exists exp: nat ::
                && exp < |UNITS| && Power(1024, exp + 1) <= bytes < Power(1024, exp + 2)
                && Power(1024, exp + 1) <= 0x1000_0000_0000_0000
                && text == Scaled(bytes as real / Power(1024, exp + 1) as real, UNITS[exp])
    ensures bytes >= 1024 ==>
              && text.Scaled? && text.unit in {'K', 'M', 'G', 'T', 'P', 'E'}
              && UnitSize(text.unit) <= bytes < 1024 * UnitSize(text.unit)
              && text.value == bytes as real / UnitSize(text.unit) as real
    ensures text.Scaled? ==> 1.0 <= text.value < 1024.0
  {
    if bytes < 1024 {
      return Plain(bytes);
    }
    var div: int64, exp: nat := 1024, 0;
    var n: int64 := bytes / 1024;
    assert Power(1024, 1) == 1024 * Power(1024, 0);
    while n >= 1024
      invariant div == Power(1024, exp + 1) && n >= 1
      invariant div * n <= bytes < div * (n + 1)
      decreases n
    {
      ScaleDown(bytes, div, n);
      div := div * 1024;
      exp := exp + 1;
      n := n / 1024;
    }
    OneUnit(bytes, div, n);
    UnitIndex(bytes, exp);
    Quotient(bytes, div);
    assert Power(1024, exp + 2) == 1024 * Power(1024, exp + 1);
    text := Scaled(bytes as real / div as real, UNITS[exp]);
    UnitSizes(exp);
  }

  /** How many bytes a unit stands for. */
  function UnitSize(unit: char): nat {
    match unit
    case 'K' => 0x400
    case 'M' => 0x10_0000
    case 'G' => 0x4000_0000
    case 'T' => 0x100_0000_0000
    case 'P' => 0x4_0000_0000_0000
    case _ => 0x1000_0000_0000_0000
  }

  lemma UnitSizes(exp: nat)
    requires exp < |UNITS|
    ensures UNITS[exp] in {'K', 'M', 'G', 'T', 'P', 'E'} && UnitSize(UNITS[exp]) == Power(1024, exp + 1)
  {
    assert Power(1024, 2) == 1024 * Power(1024, 1);
    assert Power(1024, 3) == 1024 * Power(1024, 2);
    assert Power(1024, 4) == 1024 * Power(1024, 3);
    assert Power(1024, 5) == 1024 * Power(1024, 4);
    assert Power(1024, 6) == 1024 * Power(1024, 5);
  }

  /** One round of the loop; the next divisor is still at most the byte count. */
  lemma ScaleDown(bytes: int, div: int, n: int)
    requires div > 0 && n >= 1024 && div * n <= bytes < div * (n + 1)
    ensures div * 1024 <= bytes
    ensures (div * 1024) * (n / 1024) <= bytes < (div * 1024) * (n / 1024 + 1)
  {
    var q := n / 1024;
    Monotone(div, 1024, n);
    Monotone(div, 1024 * q, n);
    Monotone(div, n + 1, 1024 * (q + 1));
    assert (div * 1024) * q == div * (1024 * q);
    assert (div * 1024) * (q + 1) == div * (1024 * (q + 1));
  }

  lemma Monotone(div: int, a: int, b: int)
    requires div > 0 && a <= b
    ensures div * a <= div * b
  {
  }

  lemma OneUnit(bytes: int, div: int, n: int)
    requires div > 0 && 1 <= n < 1024 && div * n <= bytes < div * (n + 1)
    ensures div <= bytes < 1024 * div
  {
    Monotone(div, 1, n);
    Monotone(div, n + 1, 1024);
  }

  lemma {:induction false} PowerAtLeast(k: nat, e: nat)
    requires k <= e
    ensures Power(1024, k) <= Power(1024, e)
  {
    if k == e {
    } else {
      PowerAtLeast(k, e - 1);
    }
  }

  lemma SixthPower()
    ensures Power(1024, 6) == 0x1000_0000_0000_0000 && Power(1024, 7) > TWO_63
  {
    assert Power(1024, 2) == 1024 * 1024;
    assert Power(1024, 4) == 1024 * (1024 * Power(1024, 2));
    assert Power(1024, 6) == 1024 * (1024 * Power(1024, 4));
  }

  /** An int64 count never reaches a unit beyond "E". */
  lemma UnitIndex(bytes: int64, exp: nat)
    requires Power(1024, exp + 1) <= bytes
    ensures exp < |UNITS| && Power(1024, exp + 1) <= 0x1000_0000_0000_0000
  {
    SixthPower();
    if exp >= 6 {
      PowerAtLeast(7, exp + 1);
    } else {
      PowerAtLeast(exp + 1, 6);
    }
  }

  lemma Quotient(bytes: int, div: int)
    requires 0 < div <= bytes < 1024 * div
    ensures 1.0 <= bytes as real / div as real < 1024.0
  {
    assert (1024 * div) as real == 1024.0 * div as real;
    RealQuotient(bytes as real, div as real);
  }

  lemma RealQuotient(b: real, d: real)
    requires 0.0 < d <= b < 1024.0 * d
    ensures 1.0 <= b / d < 1024.0
  {
    var q := b / d;
    assert q * d == b;
    Ordered(q, 1.0, d);
    Ordered(1024.0, q, d);
  }

  lemma Ordered(x: real, y: real, d: real)
    requires d > 0.0
    ensures x < y ==> x * d < y * d
    ensures x <= y ==> x * d <= y * d
  {
    assert (y - x) * d == y * d - x * d;
  }
}
