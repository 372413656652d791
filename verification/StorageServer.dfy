/**
 The storage server's files under concurrent requests: the lock system of `LockSystem` with every
 section nested in the mutex, and inside the sections the file operations, one read or written
 chunk per step.  The lock index of a request is independent of its path: what follows rests on
 the mutex alone.
 */
module StorageServer {
  import opened Bytes
  import opened Transfer
  import L = LockSystem

  type Files = map<Path, seq<Byte>>

  datatype Option<T> = None | Some(value: T)

  /** How far a thread's request has got. */
  datatype Job =
    | Fresh(op: L.Op)                                          // nothing done yet
    | Sending(path: Path, pos: nat, sent: seq<Packet>)         // a read under way
    | Truncating(path: Path, packets: seq<Packet>)             // a write that has found its file
    | Receiving(path: Path, packets: seq<Packet>, got: nat)    // a write under way
    | Done

  /** A completed operation and its outcome; `possible` is what the environment allowed it. */
  datatype Event =
    | ReadDone(path: Path, result: Option<seq<Packet>>)
    | WriteDone(path: Path, packets: seq<Packet>, ok: bool)
    | CreateDone(path: Path, possible: bool, ok: bool)
    | DeleteDone(path: Path, possible: bool, ok: bool)

  datatype State = State(sync: L.State, files: Files, jobs: seq<Job>, history: seq<Event>)

  /** The places where requests do their file operations. */
  predicate InSection(pc: L.Pc) {
    pc.Reading? || pc.Writing? || pc.Exclusive?
  }

  predicate BeforeSection(pc: L.Pc) {
    pc.WaitMutex? || pc.ReadEnter? || pc.ReadCount? || pc.ReadTest? || pc.ReadBlock? || pc.ReadPost? || pc.WriteEnter?
  }

  /** The request that a thread brings to its section is of the kind the section serves. */
  predicate OpFits(pc: L.Pc, op: L.Op) {
    if pc.WaitMutex? then pc.op == op
    else if pc.WriteEnter? || pc.Writing? then op.WriteFile?
    else if pc.Exclusive? then op.CreateFile? || op.DeleteFile? || op.OtherPrivileged?
    else op.ReadFile? || op.GetInfo?
  }

  predicate Ready(pc: L.Pc, job: Job) {
    match job
    case Fresh(op) => OpFits(pc, op)
    case Sending(_, _, _) => pc.Reading?
    case Truncating(_, _) => pc.Writing?
    case Receiving(_, packets, got) => pc.Writing? && got < |packets|
    case Done => false
  }

  /** What a file handle on `path` reads: the file's content at that moment. */
  function Content(files: Files, path: Path): seq<Byte> {
    if path in files then files[path] else []
  }

  /** The next chunk of a read: the bytes from `pos` on, and whether they end the file. */
  function NextChunk(content: seq<Byte>, pos: nat): (seq<Byte>, bool) {
    if pos + MAX_CHUNK_SIZE <= |content| then (content[pos..pos + MAX_CHUNK_SIZE], false)
    else if pos <= |content| then (content[pos..], true)
    else ([], true)
  }

  /** One step of file work: the new files, the new job, and the event if it completes. */
  function Work(files: Files, job: Job): (Files, Job, seq<Event>) {
    match job
    case Fresh(ReadFile(_, path)) =>
      if path in files then (files, Sending(path, 0, []), []) else (files, Done, [ReadDone(path, None)])
    case Fresh(GetInfo(_, _)) => (files, Done, [])
    case Fresh(WriteFile(_, path, packets)) =>
      if path in files then (files, Truncating(path, packets), []) else (files, Done, [WriteDone(path, packets, false)])
    case Fresh(CreateFile(path, possible)) =>
      (if possible then files[path := []] else files, Done, [CreateDone(path, possible, possible)])
    case Fresh(DeleteFile(path, possible)) =>
      var ok := possible && path in files;
      (if ok then files - {path} else files, Done, [DeleteDone(path, possible, ok)])
    case Fresh(OtherPrivileged) => (files, Done, [])
    case Sending(path, pos, sent) =>
      var (bytes, eof) := NextChunk(Content(files, path), pos);
      var all := sent + [Packet(CStr(bytes), eof)];
      if eof then (files, Done, [ReadDone(path, Some(all))]) else (files, Sending(path, pos + |bytes|, all), [])
    case Truncating(path, packets) => (files[path := []], Receiving(path, packets, 0), [])
    case Receiving(path, packets, got) =>
      if got >= |packets| then (files, job, [])
      else
        var files' := files[path := Content(files, path) + CStr(packets[got].chunk)];
        if packets[got].lastChunk then (files', Done, [WriteDone(path, packets, true)])
        else (files', Receiving(path, packets, got + 1), [])
    case Done => (files, Done, [])
  }

  predicate Busy(d: State, i: nat)
    requires i < |d.sync.pcs| == |d.jobs|
  {
    InSection(d.sync.pcs[i]) && !d.jobs[i].Done?
  }

  ghost predicate Enabled(d: State, i: nat)
    requires L.Shaped(d.sync) && |d.sync.pcs| == |d.jobs|
  {
    && i < |d.jobs|
    && if Busy(d, i) then Ready(d.sync.pcs[i], d.jobs[i]) else L.Enabled(d.sync, i)
  }

  ghost function Step(d: State, i: nat): State
    requires L.Shaped(d.sync) && |d.sync.pcs| == |d.jobs| && Enabled(d, i)
  {
    if Busy(d, i) then
      var (files, job, events) := Work(d.files, d.jobs[i]);
      State(d.sync, files, d.jobs[i := job], d.history + events)
    else
      var jobs := if d.sync.pcs[i].Idle? then d.jobs[i := Fresh(d.sync.work[i][0])] else d.jobs;
      State(L.Step(d.sync, i), d.files, jobs, d.history)
  }

  ghost predicate Init(d: State) {
    && L.Init(d.sync)
    && (forall i :: 0 <= i < |d.sync.nested| ==> d.sync.nested[i])
    && |d.jobs| == |d.sync.pcs|
    && (forall i :: 0 <= i < |d.jobs| ==> d.jobs[i] == Done)
    && d.history == []
  }

  ghost predicate Next(d: State, d': State) {
    && L.Shaped(d.sync) && |d.sync.pcs| == |d.jobs|
    && exists i :: Enabled(d, i) && d' == Step(d, i)
  }

  ghost predicate IsRun(run: seq<State>) {
    && run != [] && Init(run[0])
    && forall j, k {:trigger Next(run[j], run[k])} :: 0 <= j && k == j + 1 < |run| ==> Next(run[j], run[k])
  }

  // ---------- The sequential meaning ----------

  /** The files after one operation carried out on its own. */
  function Apply(files: Files, e: Event): Files {
    match e
    case ReadDone(_, _) => files
    case WriteDone(path, packets, ok) => if ok then files[path := Delivered(Transmission(packets))] else files
    case CreateDone(path, _, ok) => if ok then files[path := []] else files
    case DeleteDone(path, _, ok) => if ok then files - {path} else files
  }

  function Replay(files: Files, history: seq<Event>): Files {
    if history == [] then files else Apply(Replay(files, history[..|history| - 1]), history[|history| - 1])
  }

  /** The outcome that an operation carried out on these files must have. */
  predicate Correct(files: Files, e: Event) {
    match e
    case ReadDone(path, result) => result == if path in files then Some(ServerPackets(files[path])) else None
    case WriteDone(path, _, ok) => ok == (path in files)
    case CreateDone(_, possible, ok) => ok == possible
    case DeleteDone(path, possible, ok) => ok == (possible && path in files)
  }

  /** Each outcome is the one that replaying the operations completed before it gives. */
  ghost predicate Legal(files: Files, history: seq<Event>) {
    forall k :: 0 <= k < |history| ==> Correct(Replay(files, history[..k]), history[k])
  }

  // ---------- The invariant ----------

  /** No packet before the `got`-th is the last. */
  predicate Unended(packets: seq<Packet>, got: nat) {
    got <= |packets| && forall k :: 0 <= k < got ==> !packets[k].lastChunk
  }

  /** The files while a job is under way, given what the completed operations left. */
  ghost predicate JobFits(files: Files, base: Files, job: Job) {
    match job
    case Sending(path, pos, sent) =>
      && files == base && path in base
      && pos == |sent| * MAX_CHUNK_SIZE <= |base[path]|
      && |sent| <= |base[path]| / MAX_CHUNK_SIZE
      && sent == ServerPackets(base[path])[..|sent|]
    case Truncating(path, _) => files == base && path in base
    case Receiving(path, packets, got) =>
      && path in base && Unended(packets, got)
      && files == base[path := Delivered(packets[..got])]
    case _ => files == base
  }

  /** A thread's place and its job agree. */
  predicate PlaceFits(pc: L.Pc, job: Job) {
    if BeforeSection(pc) then job.Fresh? && OpFits(pc, job.op)
    else if InSection(pc) then
      match job
      case Fresh(op) => OpFits(pc, op)
      case Sending(_, _, _) => pc.Reading?
      case Truncating(_, _) => pc.Writing?
      case Receiving(_, _, _) => pc.Writing?
      case Done => true
    else job.Done?
  }

  ghost predicate Inv(d: State, init: Files) {
    && L.Inv(d.sync)
    && |d.jobs| == |d.sync.pcs|
    && (forall i :: 0 <= i < |d.jobs| ==> d.sync.nested[i] && PlaceFits(d.sync.pcs[i], d.jobs[i]))
    && Legal(init, d.history)
    && (forall i :: 0 <= i < |d.jobs| && d.sync.holds[i] ==>
          JobFits(d.files, Replay(init, d.history), d.jobs[i]))
    && ((forall i :: 0 <= i < |d.jobs| ==> !d.sync.holds[i]) ==> d.files == Replay(init, d.history))
  }

  lemma {:induction false} ReplayNext(files: Files, history: seq<Event>, e: Event)
    requires Legal(files, history) && Correct(Replay(files, history), e)
    ensures Legal(files, history + [e])
    ensures Replay(files, history + [e]) == Apply(Replay(files, history), e)
  {
    var h := history + [e];
    assert h[..|history|] == history;
    forall k | 0 <= k < |h| ensures Correct(Replay(files, h[..k]), h[k]) {
      if k < |history| {
        assert h[..k] == history[..k];
      }
    }
  }

  /** One chunk more of a read. */
  lemma {:induction false} SendingStep(base: Files, job: Job)
    requires job.Sending? && JobFits(base, base, job)
    ensures var (files, job', events) := Work(base, job);
      && files == base
      && (job'.Sending? ==> events == [] && JobFits(base, base, job'))
      && (job'.Done? ==> |events| == 1 && events[0].ReadDone? && Correct(base, events[0]))
      && (job'.Sending? || job'.Done?)
  {
    var content, n := base[job.path], |job.sent|;
    var packets := ServerPackets(content);
    var (bytes, eof) := NextChunk(content, job.pos);
    assert eof <==> n == |content| / MAX_CHUNK_SIZE;
    assert bytes == ChunkAt(content, n);
    assert packets[n] == Packet(CStr(bytes), eof);
    assert packets[..n + 1] == packets[..n] + [packets[n]];
    assert eof ==> packets[..n + 1] == packets;
  }

  /** One packet more of a write. */
  lemma {:induction false} ReceivingStep(files: Files, base: Files, job: Job)
    requires job.Receiving? && job.got < |job.packets| && JobFits(files, base, job)
    ensures var (files', job', events) := Work(files, job);
      if job.packets[job.got].lastChunk then
        job' == Done && events == [WriteDone(job.path, job.packets, true)] && files' == Apply(base, events[0])
      else
        job'.Receiving? && events == [] && JobFits(files', base, job')
  {
    var n := job.got;
    DeliveredNext(job.packets, n + 1, []);
    assert Work(files, job).0 == base[job.path := Delivered(job.packets[..n + 1])];
    if job.packets[n].lastChunk {
      TransmissionEnds(job.packets, n + 1);
    }
  }

  /** What a step of file work must achieve, given what the completed operations left. */
  ghost predicate Achieves(base: Files, files': Files, job': Job, events: seq<Event>) {
    if events == [] then JobFits(files', base, job')
    else |events| == 1 && Correct(base, events[0]) && JobFits(files', Apply(base, events[0]), job')
  }

  lemma {:induction false} FreshStep(base: Files, job: Job)
    requires job.Fresh?
    ensures var (files', job', events) := Work(base, job); Achieves(base, files', job', events)
  {
  }

  lemma {:induction false} WorkAchieves(files: Files, base: Files, pc: L.Pc, job: Job)
    requires JobFits(files, base, job) && Ready(pc, job)
    ensures var (files', job', events) := Work(files, job); Achieves(base, files', job', events)
  {
    if job.Fresh? {
      FreshStep(base, job);
    } else if job.Sending? {
      SendingStep(base, job);
    } else if job.Receiving? {
      ReceivingStep(files, base, job);
    } else {
      assert job.packets[..0] == [];
    }
  }

  lemma {:induction false} WorkKeepsPlace(files: Files, pc: L.Pc, job: Job)
    requires InSection(pc) && PlaceFits(pc, job) && Ready(pc, job)
    ensures PlaceFits(pc, Work(files, job).1)
  {
  }

  /** A step of file work keeps the files in line with the history. */
  lemma {:induction false} WorkStep(init: Files, files: Files, history: seq<Event>, pc: L.Pc, job: Job)
    requires Legal(init, history) && JobFits(files, Replay(init, history), job)
    requires InSection(pc) && PlaceFits(pc, job) && Ready(pc, job)
    ensures var (files', job', events) := Work(files, job);
      && Legal(init, history + events)
      && JobFits(files', Replay(init, history + events), job')
      && PlaceFits(pc, job')
  {
    var events := Work(files, job).2;
    WorkAchieves(files, Replay(init, history), pc, job);
    WorkKeepsPlace(files, pc, job);
    if events == [] {
      assert history + events == history;
    } else {
      assert events == [events[0]];
      ReplayNext(init, history, events[0]);
    }
  }

  /** The mutex has one holder at most, and none while it is free. */
  lemma {:induction false} OneHolder(s: L.State, i: nat, j: nat)
    requires L.Inv(s) && i < |s.pcs| && j < |s.pcs| && s.holds[i]
    ensures s.mutex == 0
    ensures s.holds[j] ==> i == j
  {
    L.Moved(s.holds, i, false);
    if s.holds[j] && i != j {
      L.Moved(s.holds[i := false], j, false);
    }
  }

  lemma {:induction false} FreeMutex(s: L.State, j: nat)
    requires L.Inv(s) && s.mutex > 0 && j < |s.holds|
    ensures !s.holds[j]
  {
    L.Moved(s.holds, j, s.holds[j]);
  }

  lemma {:induction false} InitInv(d: State)
    requires Init(d)
    ensures Inv(d, d.files)
  {
    L.InitInv(d.sync);
  }

  lemma {:induction false} WorkKeepsInv(d: State, i: nat, init: Files)
    requires Inv(d, init) && Enabled(d, i) && Busy(d, i)
    ensures Inv(Step(d, i), init)
  {
    assert L.HoldsFit(d.sync.pcs[i], d.sync.holds[i], d.sync.nested[i]);
    forall j | 0 <= j < |d.jobs| && j != i ensures !d.sync.holds[j] {
      OneHolder(d.sync, i, j);
    }
    WorkStep(init, d.files, d.history, d.sync.pcs[i], d.jobs[i]);
  }

  /** Where a thread goes next, its job still fits. */
  lemma {:induction false} MoveKeepsPlace(d: State, i: nat, init: Files)
    requires Inv(d, init) && Enabled(d, i) && !Busy(d, i)
    ensures |Step(d, i).sync.pcs| == |Step(d, i).jobs| == |d.jobs|
    ensures PlaceFits(Step(d, i).sync.pcs[i], Step(d, i).jobs[i])
    ensures Step(d, i).jobs == d.jobs[i := Step(d, i).jobs[i]]
    ensures !d.sync.pcs[i].Idle? ==> Step(d, i).jobs[i] == d.jobs[i]
    ensures d.sync.pcs[i].PostMutex? ==> d.jobs[i] == Done
    ensures d.sync.pcs[i].WaitMutex? ==> d.jobs[i].Fresh? && d.sync.mutex > 0
  {
    L.StepKeepsShape(d.sync, i);
    assert PlaceFits(d.sync.pcs[i], d.jobs[i]) && d.sync.nested[i];
    assert L.HoldsFit(d.sync.pcs[i], d.sync.holds[i], d.sync.nested[i]);
  }

  /** How a step of a lock or the mutex changes who holds the mutex. */
  lemma {:induction false} HolderAfter(s: L.State, i: nat)
    requires L.Inv(s) && L.Enabled(s, i)
    ensures |L.Step(s, i).holds| == |s.holds|
    ensures L.Step(s, i).holds == s.holds[i := L.Step(s, i).holds[i]]
    ensures L.Step(s, i).holds[i] != s.holds[i] ==> s.pcs[i].WaitMutex? || s.pcs[i].PostMutex?
  {
    L.StepKeepsFit(s, i);
  }

  lemma {:induction false} MoveKeepsFiles(d: State, i: nat, init: Files)
    requires Inv(d, init) && Enabled(d, i) && !Busy(d, i)
    ensures var d', base := Step(d, i), Replay(init, d.history);
      && |d'.sync.holds| == |d'.jobs| == |d.jobs|
      && (forall j :: 0 <= j < |d'.jobs| && d'.sync.holds[j] ==> JobFits(d'.files, base, d'.jobs[j]))
      && ((forall j :: 0 <= j < |d'.jobs| ==> !d'.sync.holds[j]) ==> d'.files == base)
  {
    var d', base := Step(d, i), Replay(init, d.history);
    MoveKeepsPlace(d, i, init);
    HolderAfter(d.sync, i);
    assert L.HoldsFit(d.sync.pcs[i], d.sync.holds[i], d.sync.nested[i]);
    if d.sync.pcs[i].WaitMutex? {
      forall j | 0 <= j < |d.jobs| ensures !d.sync.holds[j] {
        FreeMutex(d.sync, j);
      }
    } else if d.sync.pcs[i].PostMutex? {
      assert d.files == base;
    } else {
      assert d'.sync.holds == d.sync.holds;
    }
  }

  lemma {:induction false} MoveKeepsInv(d: State, i: nat, init: Files)
    requires Inv(d, init) && Enabled(d, i) && !Busy(d, i)
    ensures Inv(Step(d, i), init)
  {
    var d' := Step(d, i);
    L.StepInv(d.sync, i);
    L.StepKeepsShape(d.sync, i);
    L.StepKeepsFit(d.sync, i);
    MoveKeepsPlace(d, i, init);
    MoveKeepsFiles(d, i, init);
    forall j | 0 <= j < |d'.jobs| ensures d'.sync.nested[j] && PlaceFits(d'.sync.pcs[j], d'.jobs[j]) {
      assert d.sync.nested[j] && PlaceFits(d.sync.pcs[j], d.jobs[j]);
    }
  }

  lemma {:induction false} StepInv(d: State, i: nat, init: Files)
    requires Inv(d, init) && Enabled(d, i)
    ensures Inv(Step(d, i), init)
  {
    if Busy(d, i) {
      WorkKeepsInv(d, i, init);
    } else {
      MoveKeepsInv(d, i, init);
    }
  }

  lemma {:induction false} StepOfRun(run: seq<State>, k: nat)
    requires IsRun(run) && k + 1 < |run|
    ensures Next(run[k], run[k + 1])
  {
  }

  /** The thread that moved. */
  lemma {:induction false} Mover(run: seq<State>, k: nat) returns (i: nat)
    requires IsRun(run) && k + 1 < |run|
    ensures L.Shaped(run[k].sync) && |run[k].sync.pcs| == |run[k].jobs|
    ensures Enabled(run[k], i) && run[k + 1] == Step(run[k], i)
  {
    StepOfRun(run, k);
    i :| Enabled(run[k], i) && run[k + 1] == Step(run[k], i);
  }

  lemma {:induction false} RunInv(run: seq<State>, k: nat)
    requires IsRun(run) && k < |run|
    ensures Inv(run[k], run[0].files)
  {
    if k == 0 {
      InitInv(run[0]);
    } else {
      RunInv(run, k - 1);
      var i := Mover(run, k - 1);
      StepInv(run[k - 1], i, run[0].files);
    }
  }

  // ---------- Atomicity ----------

  /**
   Atomicity: at every point of every run, the operations completed so far have the outcomes they
   would have had one after another, in the order of completion.  In particular a completed read
   has sent exactly the packets of the content left by the last completed write, creation or
   deletion before it, or failed because that left no file.
   */
  lemma {:induction false} Atomicity(run: seq<State>, k: nat, n: nat)
    requires IsRun(run) && k < |run| && n < |run[k].history|
    ensures var before := Replay(run[0].files, run[k].history[..n]);
      match run[k].history[n]
      case ReadDone(path, None) => path !in before
      case ReadDone(path, Some(packets)) => path in before && packets == ServerPackets(before[path])
      case WriteDone(path, _, ok) => ok <==> path in before
      case CreateDone(_, possible, ok) => ok <==> possible
      case DeleteDone(path, possible, ok) => ok <==> possible && path in before
  {
    RunInv(run, k);
    assert Correct(Replay(run[0].files, run[k].history[..n]), run[k].history[n]);
  }

  /** The event has changed what is stored at `path`. */
  predicate Changes(e: Event, path: Path) {
    match e
    case ReadDone(_, _) => false
    case WriteDone(p, _, ok) => p == path && ok
    case CreateDone(p, _, ok) => p == path && ok
    case DeleteDone(p, _, ok) => p == path && ok
  }

  lemma {:induction false} ReplayUnchanged(files: Files, history: seq<Event>, j: nat, n: nat, path: Path)
    requires j <= n <= |history|
    requires forall m :: j <= m < n ==> !Changes(history[m], path)
    ensures var before, after := Replay(files, history[..j]), Replay(files, history[..n]);
      (path in after <==> path in before) && (path in before ==> after[path] == before[path])
  {
    if j < n {
      ReplayUnchanged(files, history, j, n - 1, path);
      assert history[..n][..n - 1] == history[..n - 1];
    }
  }

  /** What is stored at `path` right after an event that changed it. */
  lemma {:induction false} ReplayChanged(files: Files, history: seq<Event>, j: nat, path: Path)
    requires j < |history| && Changes(history[j], path)
    ensures var after := Replay(files, history[..j + 1]);
      match history[j]
      case WriteDone(_, packets, _) => path in after && after[path] == Delivered(Transmission(packets))
      case CreateDone(_, _, _) => path in after && after[path] == []
      case _ => path !in after
  {
    assert history[..j + 1][..j] == history[..j];
  }

  /**
   A completed read answers the last completed operation that changed its file: the text delivered by
   a write, nothing after a creation, a failure after a deletion; and the file as it was at the start
   if there was none.
   */
  lemma {:induction false} ReadAnswersLastChange(run: seq<State>, k: nat, n: nat, j: int)
    requires IsRun(run) && k < |run| && n < |run[k].history| && run[k].history[n].ReadDone?
    requires -1 <= j < n && (j >= 0 ==> Changes(run[k].history[j], run[k].history[n].path))
    requires forall m :: j < m < n ==> !Changes(run[k].history[m], run[k].history[n].path)
    ensures var history, path, result := run[k].history, run[k].history[n].path, run[k].history[n].result;
      if j < 0 then result == if path in run[0].files then Some(ServerPackets(run[0].files[path])) else None
      else match history[j]
           case WriteDone(_, packets, _) => result == Some(ServerPackets(Delivered(Transmission(packets))))
           case CreateDone(_, _, _) => result == Some(ServerPackets([]))
           case _ => result == None
  {
    var history, path := run[k].history, run[k].history[n].path;
    Atomicity(run, k, n);
    ReplayUnchanged(run[0].files, history, j + 1, n, path);
    if j < 0 {
      assert history[..0] == [];
    } else {
      ReplayChanged(run[0].files, history, j, path);
    }
  }

  /** Creating and deleting: what one step does to the files, and what it answers. */
  lemma {:induction false} CreationAndDeletion(d: State, i: nat)
    requires L.Shaped(d.sync) && |d.sync.pcs| == |d.jobs| && Enabled(d, i) && Busy(d, i) && d.jobs[i].Fresh?
    ensures match d.jobs[i].op
      case CreateFile(path, possible) =>
        && Step(d, i).files == (if possible then d.files[path := []] else d.files)
        && Step(d, i).history == d.history + [CreateDone(path, possible, possible)]
      case DeleteFile(path, possible) =>
        && Step(d, i).files == (if possible then d.files - {path} else d.files)
        && Step(d, i).history == d.history + [DeleteDone(path, possible, possible && path in d.files)]
      case _ => true
  {
  }

  /** Whenever the mutex is free, the files are what the completed operations make of them. */
  lemma {:induction false} FilesAtRest(run: seq<State>, k: nat)
    requires IsRun(run) && k < |run| && run[k].sync.mutex > 0
    ensures run[k].files == Replay(run[0].files, run[k].history)
  {
    var d := run[k];
    RunInv(run, k);
    forall i | 0 <= i < |d.jobs| ensures !d.sync.holds[i] {
      FreeMutex(d.sync, i);
    }
  }

  /** The history only grows: a completed operation keeps its outcome and its place. */
  lemma {:induction false} HistoryGrows(run: seq<State>, j: nat, k: nat)
    requires IsRun(run) && j <= k < |run|
    ensures run[j].history <= run[k].history
    decreases k
  {
    if j < k {
      HistoryGrows(run, j, k - 1);
      StepOfRun(run, k - 1);
    }
  }

  // ---------- Jobs and their requests ----------

  /** The job is some stage of serving the request `op`. */
  predicate StageOf(job: Job, op: L.Op) {
    match job
    case Fresh(o) => o == op
    case Sending(path, _, _) => op.ReadFile? && op.path == path
    case Truncating(path, packets) => op.WriteFile? && op.path == path && op.packets == packets
    case Receiving(path, packets, _) => op.WriteFile? && op.path == path && op.packets == packets
    case Done => true
  }

  ghost predicate JobsServe(d: State) {
    && L.AllServe(d.sync) && |d.jobs| == |d.sync.pcs|
    && (forall i :: 0 <= i < |d.jobs| && !d.jobs[i].Done? ==>
          i in d.sync.serving && StageOf(d.jobs[i], d.sync.serving[i]))
  }

  lemma {:induction false} WorkKeepsStage(files: Files, job: Job, op: L.Op)
    requires StageOf(job, op)
    ensures StageOf(Work(files, job).1, op)
  {
  }

  lemma {:induction false} StepKeepsStage(d: State, i: nat)
    requires L.Shaped(d.sync) && JobsServe(d) && Enabled(d, i)
    ensures JobsServe(Step(d, i))
  {
    if Busy(d, i) {
      WorkKeepsStage(d.files, d.jobs[i], d.sync.serving[i]);
    } else {
      L.StepServes(d.sync, i);
    }
  }

  lemma {:induction false} RunServes(run: seq<State>, k: nat)
    requires IsRun(run) && k < |run|
    ensures JobsServe(run[k])
  {
    if k > 0 {
      RunServes(run, k - 1);
      var i := Mover(run, k - 1);
      StepKeepsStage(run[k - 1], i);
    }
  }

  /**
   A thread that is using a lock uses the one its request names, for a request of the lock's kind, and
   the file work it does is that request's.
   */
  lemma {:induction false} LockIsRequests(run: seq<State>, k: nat, i: nat)
    requires IsRun(run) && k < |run| && i < |run[k].sync.pcs| && L.UsesLock(run[k].sync.pcs[i])
    ensures i < |run[k].jobs| && i in run[k].sync.serving
    ensures var op := run[k].sync.serving[i];
      && L.TakesLock(op) && op.lock == run[k].sync.pcs[i].f
      && (op.WriteFile? <==> run[k].sync.pcs[i].WriteEnter? || run[k].sync.pcs[i].Writing?)
      && StageOf(run[k].jobs[i], op)
  {
    RunServes(run, k);
    assert L.Serves(run[k].sync.pcs[i], run[k].sync.serving[i]);
  }

  // ---------- Progress ----------

  /** Every write that is or will be served has a last packet to come. */
  ghost predicate Terminated(op: L.Op) {
    op.WriteFile? ==> HasLast(op.packets)
  }

  ghost predicate AllTerminated(d: State) {
    && (forall i, k :: 0 <= i < |d.sync.work| && 0 <= k < |d.sync.work[i]| ==> Terminated(d.sync.work[i][k]))
    && (forall i :: 0 <= i < |d.jobs| ==> JobTerminated(d.jobs[i]))
  }

  ghost predicate JobTerminated(job: Job) {
    match job
    case Fresh(op) => Terminated(op)
    case Truncating(_, packets) => HasLast(packets)
    case Receiving(_, packets, got) => Unended(packets, got) && HasLast(packets)
    case _ => true
  }

  lemma {:induction false} WorkKeepsTerminated(files: Files, job: Job)
    requires JobTerminated(job)
    ensures JobTerminated(Work(files, job).1)
  {
  }

  lemma {:induction false} StepKeepsTerminated(d: State, i: nat)
    requires L.Shaped(d.sync) && |d.sync.pcs| == |d.jobs| && AllTerminated(d) && Enabled(d, i)
    ensures AllTerminated(Step(d, i))
  {
    if Busy(d, i) {
      assert JobTerminated(d.jobs[i]);
      WorkKeepsTerminated(d.files, d.jobs[i]);
    } else {
      L.StepKeepsShape(d.sync, i);
    }
  }

  /** As long as some thread has not finished, some thread can move. */
  lemma {:induction false} DeadlockFree(d: State, i: nat, init: Files) returns (j: nat)
    requires Inv(d, init) && AllTerminated(d) && L.Unfinished(d.sync, i)
    ensures Enabled(d, j)
  {
    j := L.DeadlockFree(d.sync, i);
    assert PlaceFits(d.sync.pcs[j], d.jobs[j]) && JobTerminated(d.jobs[j]);
  }

  /** While a thread does file work no other thread is in a section. */
  lemma {:induction false} AloneInSection(d: State, i: nat, j: nat, init: Files)
    requires Inv(d, init) && i < |d.jobs| && j < |d.jobs| && InSection(d.sync.pcs[i]) && InSection(d.sync.pcs[j])
    ensures i == j
  {
    assert L.HoldsFit(d.sync.pcs[i], d.sync.holds[i], d.sync.nested[i]);
    assert L.HoldsFit(d.sync.pcs[j], d.sync.holds[j], d.sync.nested[j]);
    assert d.sync.nested[i] && d.sync.nested[j];
    OneHolder(d.sync, i, j);
  }

  // ---------- Every schedule finishes ----------

  /** At most this many steps of file work serve a request, if no file exceeds `bound` bytes. */
  function OpCost(op: L.Op, bound: nat): nat {
    match op
    case ReadFile(_, _) => bound / MAX_CHUNK_SIZE + 2
    case WriteFile(_, _, packets) => |packets| + 2
    case _ => 1
  }

  function OpsCost(work: seq<L.Op>, bound: nat): nat {
    if work == [] then 0 else OpCost(work[0], bound) + OpsCost(work[1..], bound)
  }

  /** The steps of file work that a job still needs. */
  function JobCost(job: Job, bound: nat): nat {
    match job
    case Fresh(op) => OpCost(op, bound)
    case Sending(_, pos, _) => if pos <= bound then (bound - pos) / MAX_CHUNK_SIZE + 1 else 1
    case Truncating(_, packets) => |packets| + 1
    case Receiving(_, packets, got) => if got < |packets| then |packets| - got else 0
    case Done => 0
  }

  function WorkLeft(jobs: seq<Job>, work: seq<seq<L.Op>>, bound: nat): nat
    requires |jobs| == |work|
  {
    if jobs == [] then 0
    else
      var last := |jobs| - 1;
      WorkLeft(jobs[..last], work[..last], bound) + JobCost(jobs[last], bound) + OpsCost(work[last], bound)
  }

  /** The steps left: those of the locks and those of file work. */
  function StepsLeft(d: State, bound: nat): nat
    requires |d.jobs| == |d.sync.pcs| == |d.sync.work|
  {
    L.Measure(d.sync.pcs, d.sync.work) + WorkLeft(d.jobs, d.sync.work, bound)
  }

  lemma {:induction false} WorkLeftUpdate(jobs: seq<Job>, work: seq<seq<L.Op>>, i: nat, job: Job, w: seq<L.Op>,
                                          bound: nat)
    requires i < |jobs| == |work|
    ensures WorkLeft(jobs[i := job], work[i := w], bound) ==
            WorkLeft(jobs, work, bound) - JobCost(jobs[i], bound) - OpsCost(work[i], bound)
            + JobCost(job, bound) + OpsCost(w, bound)
  {
    var last := |jobs| - 1;
    if i == last {
      assert jobs[i := job][..last] == jobs[..last] && work[i := w][..last] == work[..last];
    } else {
      assert jobs[i := job][..last] == jobs[..last][i := job];
      assert work[i := w][..last] == work[..last][i := w];
      WorkLeftUpdate(jobs[..last], work[..last], i, job, w, bound);
    }
  }

  /** No write makes a file of more than `bound` bytes. */
  predicate OpWithin(op: L.Op, bound: nat) {
    op.WriteFile? ==> |Delivered(op.packets)| <= bound
  }

  predicate JobWithin(job: Job, bound: nat) {
    match job
    case Fresh(op) => OpWithin(op, bound)
    case Truncating(_, packets) => |Delivered(packets)| <= bound
    case Receiving(_, packets, _) => |Delivered(packets)| <= bound
    case _ => true
  }

  ghost predicate FilesWithin(files: Files, bound: nat) {
    forall p :: p in files ==> |files[p]| <= bound
  }

  ghost predicate SizesWithin(d: State, bound: nat) {
    && FilesWithin(d.files, bound)
    && (forall i, k :: 0 <= i < |d.sync.work| && 0 <= k < |d.sync.work[i]| ==> OpWithin(d.sync.work[i][k], bound))
    && (forall i :: 0 <= i < |d.jobs| ==> JobWithin(d.jobs[i], bound))
  }

  lemma {:induction false} DeliveredGrows(packets: seq<Packet>, n: nat)
    requires n <= |packets|
    ensures |Delivered(packets[..n])| <= |Delivered(packets)|
  {
    if n == |packets| {
      assert packets[..n] == packets;
    } else {
      DeliveredGrows(packets[..|packets| - 1], n);
      assert packets[..|packets| - 1][..n] == packets[..n];
    }
  }

  lemma {:induction false} WorkStaysWithin(files: Files, base: Files, pc: L.Pc, job: Job, bound: nat)
    requires JobFits(files, base, job) && Ready(pc, job)
    requires FilesWithin(files, bound) && JobWithin(job, bound)
    ensures FilesWithin(Work(files, job).0, bound) && JobWithin(Work(files, job).1, bound)
  {
    if job.Receiving? {
      DeliveredNext(job.packets, job.got + 1, []);
      DeliveredGrows(job.packets, job.got + 1);
    }
  }

  lemma {:induction false} WorkCosts(files: Files, pc: L.Pc, job: Job, bound: nat)
    requires FilesWithin(files, bound) && Ready(pc, job)
    ensures JobCost(Work(files, job).1, bound) < JobCost(job, bound)
  {
    if job.Sending? {
      assert |Content(files, job.path)| <= bound;
    }
  }

  lemma {:induction false} BusyHeadway(d: State, i: nat, init: Files, bound: nat)
    requires Inv(d, init) && Enabled(d, i) && Busy(d, i) && SizesWithin(d, bound)
    ensures |Step(d, i).jobs| == |Step(d, i).sync.pcs| == |Step(d, i).sync.work|
    ensures SizesWithin(Step(d, i), bound) && StepsLeft(Step(d, i), bound) < StepsLeft(d, bound)
  {
    var pc, job, work := d.sync.pcs[i], d.jobs[i], d.sync.work;
    BusyStep(d, i);
    assert L.HoldsFit(pc, d.sync.holds[i], d.sync.nested[i]);
    WorkStaysWithin(d.files, Replay(init, d.history), pc, job, bound);
    WorkCosts(d.files, pc, job, bound);
    WorkLeftUpdate(d.jobs, work, i, Work(d.files, job).1, work[i], bound);
    assert work[i := work[i]] == work;
  }

  lemma {:induction false} MoveHeadway(d: State, i: nat, init: Files, bound: nat)
    requires Inv(d, init) && Enabled(d, i) && !Busy(d, i) && SizesWithin(d, bound)
    ensures |Step(d, i).jobs| == |Step(d, i).sync.pcs| == |Step(d, i).sync.work|
    ensures StepsLeft(Step(d, i), bound) < StepsLeft(d, bound)
  {
    var d' := Step(d, i);
    L.StepDecreases(d.sync, i);
    MoveKeepsPlace(d, i, init);
    assert PlaceFits(d.sync.pcs[i], d.jobs[i]);
    WorkLeftUpdate(d.jobs, d.sync.work, i, d'.jobs[i], d'.sync.work[i], bound);
    assert d'.sync.work == d.sync.work[i := d'.sync.work[i]];
  }

  lemma {:induction false} MoveStaysWithin(d: State, i: nat, init: Files, bound: nat)
    requires Inv(d, init) && Enabled(d, i) && !Busy(d, i) && SizesWithin(d, bound)
    ensures SizesWithin(Step(d, i), bound)
  {
    L.StepKeepsShape(d.sync, i);
  }

  /** Every step leaves fewer steps to do, and no file beyond the bound. */
  lemma {:induction false} StepMakesHeadway(d: State, i: nat, init: Files, bound: nat)
    requires Inv(d, init) && Enabled(d, i) && SizesWithin(d, bound)
    ensures |Step(d, i).jobs| == |Step(d, i).sync.pcs| == |Step(d, i).sync.work|
    ensures SizesWithin(Step(d, i), bound) && StepsLeft(Step(d, i), bound) < StepsLeft(d, bound)
  {
    if Busy(d, i) {
      BusyHeadway(d, i, init, bound);
    } else {
      MoveHeadway(d, i, init, bound);
      MoveStaysWithin(d, i, init, bound);
    }
  }

  lemma {:induction false} NextMakesHeadway(run: seq<State>, k: nat, bound: nat)
    requires IsRun(run) && k + 1 < |run| && SizesWithin(run[k], bound)
    ensures |run[k].jobs| == |run[k].sync.pcs| == |run[k].sync.work|
    ensures |run[k + 1].jobs| == |run[k + 1].sync.pcs| == |run[k + 1].sync.work|
    ensures SizesWithin(run[k + 1], bound) && StepsLeft(run[k + 1], bound) < StepsLeft(run[k], bound)
  {
    RunInv(run, k);
    var i := Mover(run, k);
    StepMakesHeadway(run[k], i, run[0].files, bound);
  }

  /**
   Whatever the schedule, the workload is served in a number of steps known at the start: given a
   bound on the files there are and on what each write delivers.
   */
  lemma {:induction false} RunsAreBounded(run: seq<State>, k: nat, bound: nat)
    requires IsRun(run) && k < |run| && SizesWithin(run[0], bound)
    ensures |run[0].jobs| == |run[0].sync.pcs| == |run[0].sync.work|
    ensures |run[k].jobs| == |run[k].sync.pcs| == |run[k].sync.work|
    ensures SizesWithin(run[k], bound)
    ensures k + StepsLeft(run[k], bound) <= StepsLeft(run[0], bound)
  {
    if k > 0 {
      RunsAreBounded(run, k - 1, bound);
      NextMakesHeadway(run, k - 1, bound);
    }
  }

  lemma {:induction false} FilesBound(files: Files) returns (bound: nat)
    ensures FilesWithin(files, bound)
  {
    if p :| p in files {
      var rest := FilesBound(files - {p});
      bound := if |files[p]| <= rest then rest else |files[p]|;
      assert forall q :: q in files && q != p ==> q in files - {p};
    } else {
      bound := 0;
    }
  }

  lemma {:induction false} OpsBound(ops: seq<L.Op>) returns (bound: nat)
    ensures forall k :: 0 <= k < |ops| ==> OpWithin(ops[k], bound)
  {
    if ops == [] {
      bound := 0;
    } else {
      var rest := OpsBound(ops[1..]);
      var first := if ops[0].WriteFile? then |Delivered(ops[0].packets)| else 0;
      bound := if first <= rest then rest else first;
      forall k | 0 <= k < |ops| ensures OpWithin(ops[k], bound) {
        assert k > 0 ==> OpWithin(ops[1..][k - 1], rest);
      }
    }
  }

  lemma {:induction false} WorkBound(work: seq<seq<L.Op>>) returns (bound: nat)
    ensures forall i, k :: 0 <= i < |work| && 0 <= k < |work[i]| ==> OpWithin(work[i][k], bound)
  {
    if work == [] {
      bound := 0;
    } else {
      var first := OpsBound(work[0]);
      var rest := WorkBound(work[1..]);
      bound := if first <= rest then rest else first;
      forall i, k | 0 <= i < |work| && 0 <= k < |work[i]| ensures OpWithin(work[i][k], bound) {
        assert i > 0 ==> OpWithin(work[1..][i - 1][k], rest);
      }
    }
  }

  /** There always is such a bound. */
  lemma {:induction false} BoundExists(d: State) returns (bound: nat)
    requires Init(d)
    ensures SizesWithin(d, bound)
  {
    var files := FilesBound(d.files);
    var work := WorkBound(d.sync.work);
    bound := if files <= work then work else files;
  }

  // ---------- Every request is answered once ----------

  /** What an answer is an answer to: a write is told from others by the packets it was sent. */
  datatype Answer =
    | Read(path: Path)
    | Write(path: Path, packets: seq<Packet>)
    | Create(path: Path, possible: bool)
    | Delete(path: Path, possible: bool)

  /** The answer that the history will hold for a request, if it reads or changes a file. */
  function AnswerTo(op: L.Op): Option<Answer> {
    match op
    case ReadFile(_, path) => Some(Read(path))
    case GetInfo(_, _) => None
    case WriteFile(_, path, packets) => Some(Write(path, packets))
    case CreateFile(path, possible) => Some(Create(path, possible))
    case DeleteFile(path, possible) => Some(Delete(path, possible))
    case OtherPrivileged => None
  }

  function AnswerOfJob(job: Job): Option<Answer> {
    match job
    case Fresh(op) => AnswerTo(op)
    case Sending(path, _, _) => Some(Read(path))
    case Truncating(path, packets) => Some(Write(path, packets))
    case Receiving(path, packets, _) => Some(Write(path, packets))
    case Done => None
  }

  function AnswerOf(e: Event): Answer {
    match e
    case ReadDone(path, _) => Read(path)
    case WriteDone(path, packets, _) => Write(path, packets)
    case CreateDone(path, possible, _) => Create(path, possible)
    case DeleteDone(path, possible, _) => Delete(path, possible)
  }

  function One(answer: Option<Answer>, a: Answer): nat {
    if answer == Some(a) then 1 else 0
  }

  /** How often the requests still to be started ask for `a`. */
  function OwedLater(work: seq<L.Op>, a: Answer): nat {
    if work == [] then 0 else One(AnswerTo(work[0]), a) + OwedLater(work[1..], a)
  }

  /** How often the requests started or still to be started ask for `a`. */
  function Owed(jobs: seq<Job>, work: seq<seq<L.Op>>, a: Answer): nat
    requires |jobs| == |work|
  {
    if jobs == [] then 0
    else
      var last := |jobs| - 1;
      Owed(jobs[..last], work[..last], a) + One(AnswerOfJob(jobs[last]), a) + OwedLater(work[last], a)
  }

  /** How often `a` has been given. */
  function Given(history: seq<Event>, a: Answer): nat {
    if history == [] then 0
    else Given(history[..|history| - 1], a) + One(Some(AnswerOf(history[|history| - 1])), a)
  }

  function Answered(events: seq<Event>, a: Answer): nat {
    if events == [] then 0 else One(Some(AnswerOf(events[0])), a)
  }

  lemma {:induction false} GivenNext(history: seq<Event>, events: seq<Event>, a: Answer)
    requires |events| <= 1
    ensures Given(history + events, a) ==
            Given(history, a) + Answered(events, a)
  {
    if events == [] {
      assert history + events == history;
    } else {
      assert (history + events)[..|history|] == history;
    }
  }

  lemma {:induction false} OwedUpdate(jobs: seq<Job>, work: seq<seq<L.Op>>, i: nat, job: Job, w: seq<L.Op>, a: Answer)
    requires i < |jobs| == |work|
    ensures Owed(jobs[i := job], work[i := w], a) ==
            Owed(jobs, work, a) - One(AnswerOfJob(jobs[i]), a) - OwedLater(work[i], a)
            + One(AnswerOfJob(job), a) + OwedLater(w, a)
  {
    var last := |jobs| - 1;
    if i == last {
      assert jobs[i := job][..last] == jobs[..last] && work[i := w][..last] == work[..last];
    } else {
      assert jobs[i := job][..last] == jobs[..last][i := job];
      assert work[i := w][..last] == work[..last][i := w];
      OwedUpdate(jobs[..last], work[..last], i, job, w, a);
    }
  }

  /** File work answers its request when it completes, and not before. */
  lemma {:induction false} WorkAnswers(files: Files, job: Job, a: Answer)
    ensures var (_, job', events) := Work(files, job);
      && |events| <= 1
      && One(AnswerOfJob(job), a) == One(AnswerOfJob(job'), a) + Answered(events, a)
  {
  }

  lemma {:induction false} BusyStep(d: State, i: nat)
    requires L.Shaped(d.sync) && |d.jobs| == |d.sync.pcs| && Enabled(d, i) && Busy(d, i)
    ensures var (files, job, events) := Work(d.files, d.jobs[i]);
      Step(d, i) == State(d.sync, files, d.jobs[i := job], d.history + events)
  {
  }

  lemma {:induction false} StepConserves(d: State, i: nat, init: Files, a: Answer)
    requires Inv(d, init) && Enabled(d, i)
    ensures |Step(d, i).jobs| == |Step(d, i).sync.work|
    ensures Owed(Step(d, i).jobs, Step(d, i).sync.work, a) + Given(Step(d, i).history, a) ==
            Owed(d.jobs, d.sync.work, a) + Given(d.history, a)
  {
    if Busy(d, i) {
      WorkConserves(d, i, a);
    } else {
      MoveConserves(d, i, init, a);
    }
  }

  lemma {:induction false} WorkConserves(d: State, i: nat, a: Answer)
    requires L.Shaped(d.sync) && |d.jobs| == |d.sync.pcs| && Enabled(d, i) && Busy(d, i)
    ensures Step(d, i).sync == d.sync && |Step(d, i).jobs| == |d.jobs|
    ensures Owed(Step(d, i).jobs, d.sync.work, a) + Given(Step(d, i).history, a) ==
            Owed(d.jobs, d.sync.work, a) + Given(d.history, a)
  {
    var (_, job', events) := Work(d.files, d.jobs[i]);
    BusyStep(d, i);
    WorkAnswers(d.files, d.jobs[i], a);
    GivenNext(d.history, events, a);
    OwedUpdate(d.jobs, d.sync.work, i, job', d.sync.work[i], a);
    assert d.sync.work[i := d.sync.work[i]] == d.sync.work;
  }

  lemma {:induction false} MoveConserves(d: State, i: nat, init: Files, a: Answer)
    requires Inv(d, init) && Enabled(d, i) && !Busy(d, i)
    ensures |Step(d, i).jobs| == |Step(d, i).sync.work| && Step(d, i).history == d.history
    ensures Owed(Step(d, i).jobs, Step(d, i).sync.work, a) == Owed(d.jobs, d.sync.work, a)
  {
    var d' := Step(d, i);
    L.StepKeepsShape(d.sync, i);
    MoveKeepsPlace(d, i, init);
    assert PlaceFits(d.sync.pcs[i], d.jobs[i]);
    OwedUpdate(d.jobs, d.sync.work, i, d'.jobs[i], d'.sync.work[i], a);
    assert d'.sync.work == d.sync.work[i := d'.sync.work[i]];
  }

  lemma {:induction false} NextConserves(run: seq<State>, k: nat, a: Answer)
    requires IsRun(run) && k + 1 < |run|
    ensures |run[k].jobs| == |run[k].sync.work| && |run[k + 1].jobs| == |run[k + 1].sync.work|
    ensures Given(run[k + 1].history, a) + Owed(run[k + 1].jobs, run[k + 1].sync.work, a) ==
            Given(run[k].history, a) + Owed(run[k].jobs, run[k].sync.work, a)
  {
    RunInv(run, k);
    var i := Mover(run, k);
    StepConserves(run[k], i, run[0].files, a);
  }

  lemma {:induction false} NothingGivenYet(d: State, a: Answer)
    requires Init(d)
    ensures |d.jobs| == |d.sync.work| && Given(d.history, a) == 0
  {
  }

  /** Answers given and answers still owed always add up to the workload. */
  lemma {:induction false} AnswersConserved(run: seq<State>, k: nat, a: Answer)
    requires IsRun(run) && k < |run|
    ensures |run[0].jobs| == |run[0].sync.work| && |run[k].jobs| == |run[k].sync.work|
    ensures Given(run[k].history, a) + Owed(run[k].jobs, run[k].sync.work, a) ==
            Owed(run[0].jobs, run[0].sync.work, a)
  {
    if k == 0 {
      NothingGivenYet(run[0], a);
    } else {
      AnswersConserved(run, k - 1, a);
      NextConserves(run, k - 1, a);
    }
  }

  lemma {:induction false} RunTerminated(run: seq<State>, k: nat)
    requires IsRun(run) && AllTerminated(run[0]) && k < |run|
    ensures AllTerminated(run[k])
  {
    if k > 0 {
      RunTerminated(run, k - 1);
      var i := Mover(run, k - 1);
      StepKeepsTerminated(run[k - 1], i);
    }
  }

  /** No thread can move. */
  ghost predicate Stuck(d: State) {
    L.Shaped(d.sync) && |d.sync.pcs| == |d.jobs| ==> forall i :: !Enabled(d, i)
  }

  lemma {:induction false} NothingOwed(jobs: seq<Job>, work: seq<seq<L.Op>>, a: Answer)
    requires |jobs| == |work|
    requires forall i :: 0 <= i < |jobs| ==> jobs[i] == Done && work[i] == []
    ensures Owed(jobs, work, a) == 0
  {
    if jobs != [] {
      NothingOwed(jobs[..|jobs| - 1], work[..|work| - 1], a);
    }
  }

  /** A storage server can start with any files and any requests under the locks it has. */
  lemma {:induction false} AnyWorkloadStarts(files: Files, locks: nat, work: seq<seq<L.Op>>) returns (d: State)
    requires forall i, k :: 0 <= i < |work| && 0 <= k < |work[i]| && L.TakesLock(work[i][k]) ==>
               work[i][k].lock < locks
    ensures Init(d) && d.files == files && d.sync.work == work && |d.sync.locks| == locks
  {
    var sync := L.AnyWorkloadStarts(locks, seq(|work|, _ => true), work);
    d := State(sync, files, seq(|work|, _ => Done), []);
  }

  lemma {:induction false} StuckIsFinished(d: State, init: Files)
    requires Inv(d, init) && AllTerminated(d) && Stuck(d)
    ensures forall i :: 0 <= i < |d.jobs| ==> d.jobs[i] == Done && d.sync.work[i] == [] && !d.sync.holds[i]
  {
    forall i | 0 <= i < |d.jobs| ensures d.jobs[i] == Done && d.sync.work[i] == [] && !d.sync.holds[i] {
      assert L.HoldsFit(d.sync.pcs[i], d.sync.holds[i], d.sync.nested[i]);
      assert PlaceFits(d.sync.pcs[i], d.jobs[i]);
      if L.Unfinished(d.sync, i) {
        var j := DeadlockFree(d, i, init);
        assert false;
      }
    }
  }

  lemma {:induction false} StuckRunIsFinished(run: seq<State>)
    requires IsRun(run) && AllTerminated(run[0]) && Stuck(run[|run| - 1])
    ensures var d := run[|run| - 1];
      && |d.jobs| == |d.sync.work|
      && (forall i :: 0 <= i < |d.jobs| ==> d.jobs[i] == Done && d.sync.work[i] == [])
      && d.files == Replay(run[0].files, d.history)
  {
    RunInv(run, |run| - 1);
    RunTerminated(run, |run| - 1);
    StuckIsFinished(run[|run| - 1], run[0].files);
  }

  /**
   A run that cannot go on has answered every request of the workload exactly once, and has left
   the files as the answers in their order make them.
   */
  lemma {:induction false} EverythingAnswered(run: seq<State>, a: Answer)
    requires IsRun(run) && AllTerminated(run[0]) && Stuck(run[|run| - 1])
    ensures |run[0].jobs| == |run[0].sync.work|
    ensures Given(run[|run| - 1].history, a) == Owed(run[0].jobs, run[0].sync.work, a)
    ensures run[|run| - 1].files == Replay(run[0].files, run[|run| - 1].history)
  {
    var d := run[|run| - 1];
    StuckRunIsFinished(run);
    AnswersConserved(run, |run| - 1, a);
    NothingOwed(d.jobs, d.sync.work, a);
  }

  lemma {:induction false} OneStepMore(run: seq<State>, i: nat)
    requires IsRun(run)
    requires var d := run[|run| - 1]; L.Shaped(d.sync) && |d.sync.pcs| == |d.jobs| && Enabled(d, i)
    ensures IsRun(run + [Step(run[|run| - 1], i)])
  {
    var next := run + [Step(run[|run| - 1], i)];
    assert Next(run[|run| - 1], next[|run|]);
    forall j, k {:trigger Next(next[j], next[k])} | 0 <= j && k == j + 1 < |next| ensures Next(next[j], next[k]) {
      if k < |run| {
        StepOfRun(run, j);
      }
    }
  }

  ghost predicate Sized(d: State, bound: nat) {
    |d.jobs| == |d.sync.pcs| == |d.sync.work| && SizesWithin(d, bound)
  }

  lemma {:induction false} OneStepLess(run: seq<State>, bound: nat) returns (next: seq<State>)
    requires IsRun(run) && Sized(run[|run| - 1], bound) && !Stuck(run[|run| - 1])
    ensures IsRun(next) && run <= next && Sized(next[|next| - 1], bound)
    ensures StepsLeft(next[|next| - 1], bound) < StepsLeft(run[|run| - 1], bound)
  {
    var d := run[|run| - 1];
    var i :| Enabled(d, i);
    OneStepMore(run, i);
    RunInv(run, |run| - 1);
    StepMakesHeadway(d, i, run[0].files, bound);
    next := run + [Step(d, i)];
  }

  /** Any run, however far it has got, can be carried on until no thread can move. */
  lemma {:induction false} CarriedOn(run: seq<State>, bound: nat) returns (whole: seq<State>)
    requires IsRun(run) && Sized(run[|run| - 1], bound)
    ensures IsRun(whole) && run <= whole && Stuck(whole[|whole| - 1])
    decreases StepsLeft(run[|run| - 1], bound)
  {
    if Stuck(run[|run| - 1]) {
      whole := run;
    } else {
      var next := OneStepLess(run, bound);
      whole := CarriedOn(next, bound);
    }
  }

  /** So every request of the workload can still be answered exactly once, whatever has happened so far. */
  lemma {:induction false} AnswersCanBeCompleted(run: seq<State>, a: Answer) returns (whole: seq<State>)
    requires IsRun(run) && AllTerminated(run[0])
    ensures IsRun(whole) && run <= whole
    ensures |run[0].jobs| == |run[0].sync.work|
    ensures Given(whole[|whole| - 1].history, a) == Owed(run[0].jobs, run[0].sync.work, a)
  {
    var bound := BoundExists(run[0]);
    RunsAreBounded(run, |run| - 1, bound);
    whole := CarriedOn(run, bound);
    assert whole[0] == run[0];
    EverythingAnswered(whole, a);
  }
}
