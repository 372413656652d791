/**
 The storage server's locks as an interleaved system: any number of threads, any number of
 readers-writer locks, one semaphore operation or one access to `readers` per step.  A thread
 with `nested` set wraps each of its sections in the outer mutex, as the server does; one without
 it uses the readers-writer locks alone.
 */
module LockSystem {
  import opened Bytes
  import opened Transfer

  /** The requests a thread serves.  Only the lock they need matters in this module. */
  datatype Op =
    | ReadFile(lock: nat, path: Path)
    | GetInfo(lock: nat, path: Path)
    | WriteFile(lock: nat, path: Path, packets: seq<Packet>)
    | CreateFile(path: Path, possible: bool)
    | DeleteFile(path: Path, possible: bool)
    | OtherPrivileged

  /** `readers`, and the values of the semaphores `lock` and `writeLock`. */
  datatype RwLock = RwLock(readers: int, lock: nat, writeLock: nat)

  /** Where a thread stands; `f` is the lock it is using. */
  datatype Pc =
    | Idle
    | WaitMutex(op: Op)     // about to wait on the mutex
    | ReadEnter(f: nat)     // acquire_readlock: about to wait on `lock`
    | ReadCount(f: nat)     //   about to increment `readers`
    | ReadTest(f: nat)      //   about to compare it with 1
    | ReadBlock(f: nat)     //   about to wait on `writeLock`
    | ReadPost(f: nat)      //   about to post `lock`
    | Reading(f: nat)       // inside the read section
    | LeaveEnter(f: nat)    // release_readlock: about to wait on `lock`
    | LeaveCount(f: nat)    //   about to decrement `readers`
    | LeaveTest(f: nat)     //   about to compare it with 0
    | LeaveUnblock(f: nat)  //   about to post `writeLock`
    | LeavePost(f: nat)     //   about to post `lock`
    | WriteEnter(f: nat)    // acquire_writelock: about to wait on `writeLock`
    | Writing(f: nat)       // inside the write section
    | Exclusive             // inside a privileged section, under the mutex alone
    | PostMutex             // about to post the mutex

  datatype State = State(
    mutex: nat,
    locks: seq<RwLock>,
    pcs: seq<Pc>,
    holds: seq<bool>,       // who holds the mutex
    nested: seq<bool>,      // who wraps sections in the mutex
    work: seq<seq<Op>>,     // what each thread has still to serve
    serving: map<nat, Op>   // what each thread is serving, or has served last
  )

  predicate OpInRange(op: Op, numLocks: nat) {
    match op
    case ReadFile(f, _) => f < numLocks
    case GetInfo(f, _) => f < numLocks
    case WriteFile(f, _, _) => f < numLocks
    case _ => true
  }

  predicate PcInRange(pc: Pc, numLocks: nat) {
    match pc
    case Idle => true
    case WaitMutex(op) => OpInRange(op, numLocks)
    case Exclusive => true
    case PostMutex => true
    case _ => pc.f < numLocks
  }

  ghost predicate Shaped(s: State) {
    && |s.pcs| == |s.holds| == |s.nested| == |s.work|
    && (forall i :: 0 <= i < |s.pcs| ==> PcInRange(s.pcs[i], |s.locks|))
    && (forall i, k :: 0 <= i < |s.work| && 0 <= k < |s.work[i]| ==> OpInRange(s.work[i][k], |s.locks|))
  }

  /** All semaphores at 1, nobody reading, every thread idle. */
  ghost predicate Init(s: State) {
    && Shaped(s)
    && s.mutex == 1
    && (forall f :: 0 <= f < |s.locks| ==> s.locks[f] == RwLock(0, 1, 1))
    && (forall i :: 0 <= i < |s.pcs| ==> s.pcs[i] == Idle && !s.holds[i])
  }

  /** Privileged requests always take the mutex; the others only in nested threads. */
  function Entered(op: Op): Pc {
    match op
    case ReadFile(f, _) => ReadEnter(f)
    case GetInfo(f, _) => ReadEnter(f)
    case WriteFile(f, _, _) => WriteEnter(f)
    case _ => Exclusive
  }

  function Started(op: Op, nested: bool): Pc {
    if nested || Entered(op).Exclusive? then WaitMutex(op) else Entered(op)
  }

  function AfterSection(holds: bool): Pc {
    if holds then PostMutex else Idle
  }

  /** A thread can move unless it is done or waits on a semaphore at 0. */
  predicate Enabled(s: State, i: nat)
    requires Shaped(s)
  {
    && i < |s.pcs|
    && match s.pcs[i]
       case Idle => s.work[i] != []
       case WaitMutex(_) => s.mutex > 0
       case ReadEnter(f) => s.locks[f].lock > 0
       case LeaveEnter(f) => s.locks[f].lock > 0
       case ReadBlock(f) => s.locks[f].writeLock > 0
       case WriteEnter(f) => s.locks[f].writeLock > 0
       case _ => true
  }

  /** What thread `i` does to the lock it is using. */
  function LockAfter(l: RwLock, pc: Pc): RwLock {
    match pc
    case ReadEnter(_) => if l.lock > 0 then l.(lock := l.lock - 1) else l
    case ReadCount(_) => l.(readers := l.readers + 1)
    case ReadBlock(_) => if l.writeLock > 0 then l.(writeLock := l.writeLock - 1) else l
    case ReadPost(_) => l.(lock := l.lock + 1)
    case LeaveEnter(_) => if l.lock > 0 then l.(lock := l.lock - 1) else l
    case LeaveCount(_) => l.(readers := l.readers - 1)
    case LeaveUnblock(_) => l.(writeLock := l.writeLock + 1)
    case LeavePost(_) => l.(lock := l.lock + 1)
    case WriteEnter(_) => if l.writeLock > 0 then l.(writeLock := l.writeLock - 1) else l
    case Writing(_) => l.(writeLock := l.writeLock + 1)
    case _ => l
  }

  /** Where a thread using lock `l` stands after its step. */
  function PcAfter(l: RwLock, pc: Pc, holds: bool): Pc {
    match pc
    case ReadEnter(f) => ReadCount(f)
    case ReadCount(f) => ReadTest(f)
    case ReadTest(f) => if l.readers == 1 then ReadBlock(f) else ReadPost(f)
    case ReadBlock(f) => ReadPost(f)
    case ReadPost(f) => Reading(f)
    case Reading(f) => LeaveEnter(f)
    case LeaveEnter(f) => LeaveCount(f)
    case LeaveCount(f) => LeaveTest(f)
    case LeaveTest(f) => if l.readers == 0 then LeaveUnblock(f) else LeavePost(f)
    case LeaveUnblock(f) => LeavePost(f)
    case LeavePost(_) => AfterSection(holds)
    case WriteEnter(f) => Writing(f)
    case Writing(_) => AfterSection(holds)
    case _ => pc
  }

  function Step(s: State, i: nat): State
    requires Shaped(s) && Enabled(s, i)
  {
    match s.pcs[i]
    case Idle =>
      var op := s.work[i][0];
      s.(pcs := s.pcs[i := Started(op, s.nested[i])], work := s.work[i := s.work[i][1..]],
         serving := s.serving[i := op])
    case WaitMutex(op) =>
      s.(mutex := s.mutex - 1, holds := s.holds[i := true], pcs := s.pcs[i := Entered(op)])
    case Exclusive =>
      s.(pcs := s.pcs[i := AfterSection(s.holds[i])])
    case PostMutex =>
      s.(mutex := s.mutex + 1, holds := s.holds[i := false], pcs := s.pcs[i := Idle])
    case pc =>
      s.(locks := s.locks[pc.f := LockAfter(s.locks[pc.f], pc)],
         pcs := s.pcs[i := PcAfter(s.locks[pc.f], pc, s.holds[i])])
  }

  ghost predicate Next(s: State, s': State) {
    Shaped(s) && exists i :: Enabled(s, i) && s' == Step(s, i)
  }

  ghost predicate IsRun(run: seq<State>) {
    run != [] && forall j, k {:trigger Next(run[j], run[k])} :: 0 <= j && k == j + 1 < |run| ==> Next(run[j], run[k])
  }

  // ---------- The invariant ----------

  type Counts = multiset<Pc>

  /** Threads between a wait on `lock` and the matching post. */
  function InLock(m: Counts, f: nat): nat {
    m[ReadCount(f)] + m[ReadTest(f)] + m[ReadBlock(f)] + m[ReadPost(f)]
    + m[LeaveCount(f)] + m[LeaveTest(f)] + m[LeaveUnblock(f)] + m[LeavePost(f)]
  }

  /** Threads between the increment and the decrement of `readers`. */
  function Counted(m: Counts, f: nat): nat {
    m[ReadTest(f)] + m[ReadBlock(f)] + m[ReadPost(f)] + m[Reading(f)] + m[LeaveEnter(f)] + m[LeaveCount(f)]
  }

  /** 1 when the readers as a group hold `writeLock`, else 0. */
  function ReadersHold(m: Counts, f: nat, readers: int): nat {
    if m[ReadBlock(f)] > 0 || (m[ReadTest(f)] > 0 && readers == 1) then 0
    else if readers > 0 || m[LeaveTest(f)] > 0 || m[LeaveUnblock(f)] > 0 then 1
    else 0
  }

  ghost predicate LockInv(l: RwLock, m: Counts, f: nat) {
    && l.lock + InLock(m, f) == 1
    && l.readers == Counted(m, f)
    && l.writeLock + m[Writing(f)] + ReadersHold(m, f, l.readers) == 1
    && (m[ReadBlock(f)] > 0 ==> l.readers == 1)
    && (m[LeaveUnblock(f)] > 0 ==> l.readers == 0)
  }

  /** A thread holds the mutex in every section it wraps, and only there. */
  predicate HoldsFit(pc: Pc, holds: bool, nested: bool) {
    && (pc.Idle? || pc.WaitMutex? ==> !holds)
    && (pc.Exclusive? || pc.PostMutex? ==> holds)
    && (nested && !pc.Idle? && !pc.WaitMutex? ==> holds)
  }

  ghost predicate MutexInv(s: State)
    requires Shaped(s)
  {
    && s.mutex + multiset(s.holds)[true] == 1
    && forall i :: 0 <= i < |s.pcs| ==> HoldsFit(s.pcs[i], s.holds[i], s.nested[i])
  }

  ghost predicate Inv(s: State) {
    && Shaped(s)
    && MutexInv(s)
    && forall f :: 0 <= f < |s.locks| ==> LockInv(s.locks[f], multiset(s.pcs), f)
  }

  lemma {:induction false} NoneAmong(pcs: seq<Pc>, pc: Pc)
    requires forall i :: 0 <= i < |pcs| ==> pcs[i] != pc
    ensures multiset(pcs)[pc] == 0
  {
    assert pc !in pcs;
  }

  lemma {:induction false} InitInv(s: State)
    requires Init(s)
    ensures Inv(s)
  {
    assert true !in s.holds;
    assert multiset(s.holds)[true] == 0;
    forall f: nat, pc | f < |s.locks| && pc in AllAt(f) ensures multiset(s.pcs)[pc] == 0 {
      NoneAmong(s.pcs, pc);
    }
  }

  /** The positions that the invariant of lock `f` counts. */
  function AllAt(f: nat): set<Pc> {
    {ReadCount(f), ReadTest(f), ReadBlock(f), ReadPost(f), Reading(f), LeaveEnter(f), LeaveCount(f),
     LeaveTest(f), LeaveUnblock(f), LeavePost(f), Writing(f)}
  }

  /** The semaphore that `pc` is about to wait on, if any, is free. */
  predicate Free(l: RwLock, pc: Pc) {
    && (pc.ReadEnter? || pc.LeaveEnter? ==> l.lock > 0)
    && (pc.ReadBlock? || pc.WriteEnter? ==> l.writeLock > 0)
  }

  predicate UsesLock(pc: Pc) {
    !pc.Idle? && !pc.WaitMutex? && !pc.Exclusive? && !pc.PostMutex?
  }

  lemma {:induction false} AcquireStep(l: RwLock, m: Counts, pc: Pc, holds: bool)
    requires pc.ReadEnter? || pc.ReadCount? || pc.ReadTest? || pc.ReadBlock? || pc.ReadPost?
    requires m[pc] > 0 && Free(l, pc) && LockInv(l, m, pc.f)
    ensures LockInv(LockAfter(l, pc), m - multiset{pc} + multiset{PcAfter(l, pc, holds)}, pc.f)
  {
  }

  lemma {:induction false} ReleaseStep(l: RwLock, m: Counts, pc: Pc, holds: bool)
    requires pc.LeaveEnter? || pc.LeaveCount? || pc.LeaveTest? || pc.LeaveUnblock? || pc.LeavePost?
    requires m[pc] > 0 && Free(l, pc) && LockInv(l, m, pc.f)
    ensures LockInv(LockAfter(l, pc), m - multiset{pc} + multiset{PcAfter(l, pc, holds)}, pc.f)
  {
  }

  /** One step at the lock itself. */
  lemma {:induction false} LockStep(l: RwLock, m: Counts, pc: Pc, holds: bool)
    requires UsesLock(pc) && m[pc] > 0 && Free(l, pc)
    requires LockInv(l, m, pc.f)
    ensures LockInv(LockAfter(l, pc), m - multiset{pc} + multiset{PcAfter(l, pc, holds)}, pc.f)
  {
    match pc {
      case ReadEnter(_) => AcquireStep(l, m, pc, holds);
      case ReadCount(_) => AcquireStep(l, m, pc, holds);
      case ReadTest(_) => AcquireStep(l, m, pc, holds);
      case ReadBlock(_) => AcquireStep(l, m, pc, holds);
      case ReadPost(_) => AcquireStep(l, m, pc, holds);
      case LeaveEnter(_) => ReleaseStep(l, m, pc, holds);
      case LeaveCount(_) => ReleaseStep(l, m, pc, holds);
      case LeaveTest(_) => ReleaseStep(l, m, pc, holds);
      case LeaveUnblock(_) => ReleaseStep(l, m, pc, holds);
      case LeavePost(_) => ReleaseStep(l, m, pc, holds);
      case _ =>
    }
  }

  /** Moves between positions that the lock does not count. */
  lemma {:induction false} OtherStep(l: RwLock, m: Counts, f: nat, pc: Pc, pc': Pc)
    requires LockInv(l, m, f) && pc !in AllAt(f) && pc' !in AllAt(f)
    ensures LockInv(l, m - multiset{pc} + multiset{pc'}, f)
  {
  }

  lemma {:induction false} Moved<T>(s: seq<T>, i: nat, x: T)
    requires i < |s|
    ensures multiset(s[i := x]) == multiset(s) - multiset{s[i]} + multiset{x}
    ensures multiset(s)[s[i]] > 0
  {
  }

  lemma {:induction false} StepKeepsShape(s: State, i: nat)
    requires Shaped(s) && Enabled(s, i)
    ensures Shaped(Step(s, i))
    ensures |Step(s, i).pcs| == |s.pcs| && |Step(s, i).locks| == |s.locks|
    ensures Step(s, i).nested == s.nested
  {
  }

  lemma {:induction false} StepKeepsFit(s: State, i: nat)
    requires Inv(s) && Enabled(s, i)
    ensures HoldsFit(Step(s, i).pcs[i], Step(s, i).holds[i], s.nested[i])
    ensures Step(s, i).pcs == s.pcs[i := Step(s, i).pcs[i]]
    ensures Step(s, i).holds == s.holds[i := Step(s, i).holds[i]]
    ensures s.mutex + (if s.holds[i] then 1 else 0) == Step(s, i).mutex + (if Step(s, i).holds[i] then 1 else 0)
  {
    assert HoldsFit(s.pcs[i], s.holds[i], s.nested[i]);
  }

  lemma {:induction false} StepKeepsMutex(s: State, i: nat)
    requires Inv(s) && Enabled(s, i)
    ensures Shaped(Step(s, i)) && MutexInv(Step(s, i))
  {
    StepKeepsShape(s, i);
    StepKeepsFit(s, i);
    MovedHolder(s.holds, i, Step(s, i).holds[i]);
  }

  lemma {:induction false} MovedHolder(holds: seq<bool>, i: nat, h: bool)
    requires i < |holds|
    ensures multiset(holds[i := h])[true] + (if holds[i] then 1 else 0) == multiset(holds)[true] + if h then 1 else 0
  {
    Moved(holds, i, h);
  }

  /** What a step does as seen from lock `f`. */
  lemma {:induction false} StepSeenFrom(s: State, i: nat, f: nat)
    requires Shaped(s) && Enabled(s, i) && f < |s.locks|
    ensures var pc, s' := s.pcs[i], Step(s, i);
      && |s'.pcs| == |s.pcs| && |s'.locks| == |s.locks|
      && s'.pcs == s.pcs[i := s'.pcs[i]]
      && (if UsesLock(pc) && pc.f == f then
            Free(s.locks[f], pc) && s'.locks[f] == LockAfter(s.locks[f], pc)
            && s'.pcs[i] == PcAfter(s.locks[f], pc, s.holds[i])
          else s'.locks[f] == s.locks[f] && pc !in AllAt(f) && s'.pcs[i] !in AllAt(f))
  {
  }

  lemma {:induction false} StepKeepsLock(s: State, i: nat, f: nat)
    requires Inv(s) && Enabled(s, i) && f < |s.locks|
    ensures |Step(s, i).locks| == |s.locks|
    ensures LockInv(Step(s, i).locks[f], multiset(Step(s, i).pcs), f)
  {
    var pc, pc' := s.pcs[i], Step(s, i).pcs[i];
    StepSeenFrom(s, i, f);
    Moved(s.pcs, i, pc');
    if UsesLock(pc) && pc.f == f {
      LockStep(s.locks[f], multiset(s.pcs), pc, s.holds[i]);
    } else {
      OtherStep(s.locks[f], multiset(s.pcs), f, pc, pc');
    }
  }

  lemma {:induction false} StepInv(s: State, i: nat)
    requires Inv(s) && Enabled(s, i)
    ensures Inv(Step(s, i))
  {
    StepKeepsShape(s, i);
    StepKeepsMutex(s, i);
    forall f | 0 <= f < |s.locks| ensures LockInv(Step(s, i).locks[f], multiset(Step(s, i).pcs), f) {
      StepKeepsLock(s, i, f);
    }
  }

  lemma {:induction false} NextInv(s: State, s': State)
    requires Inv(s) && Next(s, s')
    ensures Inv(s')
  {
    var i :| Enabled(s, i) && s' == Step(s, i);
    StepInv(s, i);
  }

  lemma {:induction false} StepOfRun(run: seq<State>, k: nat)
    requires IsRun(run) && k + 1 < |run|
    ensures Next(run[k], run[k + 1])
  {
  }

  /** Every state of every run satisfies the invariant. */
  lemma {:induction false} RunInv(run: seq<State>, k: nat)
    requires IsRun(run) && Init(run[0]) && k < |run|
    ensures Inv(run[k])
  {
    if k == 0 {
      InitInv(run[0]);
    } else {
      RunInv(run, k - 1);
      StepOfRun(run, k - 1);
      NextInv(run[k - 1], run[k]);
    }
  }

  // ---------- Exclusion ----------

  lemma {:induction false} TwoThere(pcs: seq<Pc>, i: nat, j: nat)
    requires i < |pcs| && j < |pcs| && i != j && pcs[i] != Idle
    ensures multiset(pcs)[pcs[i]] > 0 && multiset(pcs)[pcs[j]] > 0
    ensures pcs[i] == pcs[j] ==> multiset(pcs)[pcs[i]] >= 2
  {
    Moved(pcs, i, Idle);
    Moved(pcs[i := Idle], j, Idle);
  }

  /** In no state of any run is a lock's writer inside together with a reader or another writer. */
  lemma {:induction false} Exclusion(run: seq<State>, k: nat, f: nat, i: nat, j: nat)
    requires IsRun(run) && Init(run[0]) && k < |run|
    requires f < |run[k].locks| && i < |run[k].pcs| && j < |run[k].pcs| && i != j
    requires run[k].pcs[i] == Writing(f)
    ensures run[k].pcs[j] != Reading(f) && run[k].pcs[j] != Writing(f)
  {
    RunInv(run, k);
    TwoThere(run[k].pcs, i, j);
    assert LockInv(run[k].locks[f], multiset(run[k].pcs), f);
  }

  // ---------- Requests and their locks ----------

  predicate TakesLock(op: Op) {
    op.ReadFile? || op.GetInfo? || op.WriteFile?
  }

  /** A thread at `pc` is on its way through the section of the request `op`, with the lock it names. */
  predicate Serves(pc: Pc, op: Op) {
    match pc
    case Idle => true
    case WaitMutex(waiting) => waiting == op
    case WriteEnter(f) => op.WriteFile? && op.lock == f
    case Writing(f) => op.WriteFile? && op.lock == f
    case Exclusive => !TakesLock(op)
    case PostMutex => true
    case _ => (op.ReadFile? || op.GetInfo?) && op.lock == pc.f
  }

  /** Only a nested thread, and a request without a lock, waits for the mutex. */
  predicate MayWait(pc: Pc, nested: bool) {
    pc.WaitMutex? ==> nested || !TakesLock(pc.op)
  }

  ghost predicate AllServe(s: State) {
    && |s.nested| == |s.pcs|
    && (forall i :: 0 <= i < |s.pcs| ==> MayWait(s.pcs[i], s.nested[i]))
    && (forall i :: 0 <= i < |s.pcs| && !s.pcs[i].Idle? ==> i in s.serving && Serves(s.pcs[i], s.serving[i]))
  }

  /** The thread that moves still serves its request, and nothing changes for the others. */
  lemma {:induction false} MoverServes(s: State, i: nat)
    requires Shaped(s) && AllServe(s) && Enabled(s, i)
    ensures var s' := Step(s, i);
      && |s'.pcs| == |s.pcs| && s'.nested == s.nested && MayWait(s'.pcs[i], s.nested[i])
      && (!s'.pcs[i].Idle? ==> i in s'.serving && Serves(s'.pcs[i], s'.serving[i]))
      && (forall j :: 0 <= j < |s.pcs| && j != i ==> s'.pcs[j] == s.pcs[j])
      && (forall j :: j in s.serving && j != i ==> j in s'.serving && s'.serving[j] == s.serving[j])
  {
    assert !s.pcs[i].Idle? ==> Serves(s.pcs[i], s.serving[i]);
  }

  lemma {:induction false} StepServes(s: State, i: nat)
    requires Shaped(s) && AllServe(s) && Enabled(s, i)
    ensures |Step(s, i).pcs| == |s.pcs| && AllServe(Step(s, i))
  {
    MoverServes(s, i);
  }

  lemma {:induction false} RunServes(run: seq<State>, k: nat)
    requires IsRun(run) && Init(run[0]) && k < |run|
    ensures AllServe(run[k])
  {
    if k > 0 {
      RunServes(run, k - 1);
      StepOfRun(run, k - 1);
      var i :| Enabled(run[k - 1], i) && run[k] == Step(run[k - 1], i);
      StepServes(run[k - 1], i);
    }
  }

  /** A thread that is not nested uses a lock without the mutex. */
  lemma {:induction false} LockWithoutMutex(run: seq<State>, k: nat, i: nat)
    requires IsRun(run) && Init(run[0]) && k < |run| && i < |run[k].pcs|
    ensures |run[k].nested| == |run[k].pcs|
    ensures run[k].pcs[i].WaitMutex? && !run[k].nested[i] ==> !TakesLock(run[k].pcs[i].op)
  {
    RunServes(run, k);
    assert MayWait(run[k].pcs[i], run[k].nested[i]);
  }

  /** Thread `i` is between its acquisition and its release, or under the mutex alone. */
  predicate Inside(s: State, i: nat) {
    i < |s.pcs| && (s.pcs[i].Reading? || s.pcs[i].Writing? || s.pcs[i].Exclusive?)
  }

  /** While a request to write under a lock is inside, no other request under that lock is. */
  lemma {:induction false} ExclusionByRequest(run: seq<State>, k: nat, i: nat, j: nat)
    requires IsRun(run) && Init(run[0]) && k < |run| && i != j
    requires Inside(run[k], i) && Inside(run[k], j)
    ensures i in run[k].serving && j in run[k].serving
    ensures var op, other := run[k].serving[i], run[k].serving[j];
      !(op.WriteFile? && TakesLock(other) && other.lock == op.lock)
  {
    var s := run[k];
    RunServes(run, k);
    RunInv(run, k);
    assert Serves(s.pcs[i], s.serving[i]) && Serves(s.pcs[j], s.serving[j]);
    assert PcInRange(s.pcs[i], |s.locks|);
    if s.pcs[i].Writing? {
      Exclusion(run, k, s.pcs[i].f, i, j);
    }
  }

  /** Thread `i` alone takes `n` steps. */
  ghost predicate Leads(s: State, i: nat, n: nat, s': State)
    decreases n
  {
    if n == 0 then s == s' else Shaped(s) && Enabled(s, i) && Leads(Step(s, i), i, n - 1, s')
  }

  /** The system as it starts, with any workload under the locks there are. */
  lemma {:induction false} AnyWorkloadStarts(locks: nat, nested: seq<bool>, work: seq<seq<Op>>) returns (s: State)
    requires |nested| == |work|
    requires forall i, k :: 0 <= i < |work| && 0 <= k < |work[i]| && TakesLock(work[i][k]) ==> work[i][k].lock < locks
    ensures Init(s) && s.work == work && s.nested == nested && |s.locks| == locks && s.mutex == 1
    ensures forall f :: 0 <= f < locks ==> s.locks[f] == RwLock(0, 1, 1)
  {
    var n := |work|;
    s := State(1, seq(locks, _ => RwLock(0, 1, 1)), seq(n, _ => Idle), seq(n, _ => false), nested, work, map[]);
    forall i, k | 0 <= i < n && 0 <= k < |work[i]| ensures OpInRange(work[i][k], locks) {
      assert TakesLock(work[i][k]) ==> work[i][k].lock < locks;
    }
  }

  lemma {:induction false} OneMore(s: State, i: nat, n: nat, s': State)
    requires Shaped(s) && Enabled(s, i) && Leads(Step(s, i), i, n, s')
    ensures Leads(s, i, n + 1, s')
  {
  }

  /** A thread is held up by nothing but a semaphore at 0, the one it is about to wait on. */
  lemma {:induction false} HeldUpExactly(s: State, i: nat)
    requires Shaped(s) && i < |s.pcs|
    ensures !Enabled(s, i) <==>
            || (s.pcs[i].Idle? && s.work[i] == [])
            || (s.pcs[i].WaitMutex? && s.mutex == 0)
            || ((s.pcs[i].ReadEnter? || s.pcs[i].LeaveEnter?) && s.locks[s.pcs[i].f].lock == 0)
            || ((s.pcs[i].ReadBlock? || s.pcs[i].WriteEnter?) && s.locks[s.pcs[i].f].writeLock == 0)
  {
    assert PcInRange(s.pcs[i], |s.locks|);
  }

  /** Some thread is between the increment and the decrement of `readers`. */
  predicate ReadersIn(s: State, f: nat) {
    f < |s.locks| && s.locks[f].readers > 0
  }

  lemma {:induction false} ReaderJoins(s: State, i: nat, f: nat) returns (s': State)
    requires Inv(s) && i < |s.pcs| && s.pcs[i] == ReadEnter(f)
    requires s.locks[f].lock > 0 && ReadersIn(s, f)
    ensures Leads(s, i, 4, s') && s'.pcs == s.pcs[i := Reading(f)]
  {
    var s1 := Step(s, i);
    var s2 := Step(s1, i);
    var s3 := Step(s2, i);
    s' := Step(s3, i);
    OneMore(s3, i, 0, s');
    OneMore(s2, i, 1, s');
    OneMore(s1, i, 2, s');
    OneMore(s, i, 3, s');
  }

  lemma {:induction false} FirstReaderComesIn(s: State, i: nat, f: nat) returns (s': State)
    requires Inv(s) && i < |s.pcs| && s.pcs[i] == ReadEnter(f)
    requires s.locks[f].lock > 0 && s.locks[f].readers == 0 && s.locks[f].writeLock > 0
    ensures Leads(s, i, 5, s') && s'.pcs == s.pcs[i := Reading(f)]
  {
    var s1 := Step(s, i);
    var s2 := Step(s1, i);
    var s3 := Step(s2, i);
    var s4 := Step(s3, i);
    s' := Step(s4, i);
    OneMore(s4, i, 0, s');
    OneMore(s3, i, 1, s');
    OneMore(s2, i, 2, s');
    OneMore(s1, i, 3, s');
    OneMore(s, i, 4, s');
  }

  /**
   Readers share: one that finds `lock` free comes in beside those that are in, whoever they are, and
   alone it comes in when `writeLock` is free.
   */
  lemma {:induction false} ReaderComesIn(s: State, i: nat, f: nat) returns (n: nat, s': State)
    requires Inv(s) && i < |s.pcs| && s.pcs[i] == ReadEnter(f)
    requires s.locks[f].lock > 0 && (ReadersIn(s, f) || s.locks[f].writeLock > 0)
    ensures Leads(s, i, n, s') && s'.pcs == s.pcs[i := Reading(f)]
  {
    assert LockInv(s.locks[f], multiset(s.pcs), f);
    if ReadersIn(s, f) {
      s' := ReaderJoins(s, i, f);
      n := 4;
    } else {
      s' := FirstReaderComesIn(s, i, f);
      n := 5;
    }
  }

  /** `readers` counts the readers, and both semaphores stay binary. */
  lemma {:induction false} Bookkeeping(run: seq<State>, k: nat, f: nat)
    requires IsRun(run) && Init(run[0]) && k < |run| && f < |run[k].locks|
    ensures run[k].locks[f].readers == Counted(multiset(run[k].pcs), f)
    ensures run[k].locks[f].lock <= 1 && run[k].locks[f].writeLock <= 1
    ensures run[k].mutex <= 1
  {
    RunInv(run, k);
    assert LockInv(run[k].locks[f], multiset(run[k].pcs), f);
  }

  // ---------- Progress ----------

  ghost predicate Unfinished(s: State, i: nat)
    requires Shaped(s)
  {
    i < |s.pcs| && (s.pcs[i] != Idle || s.work[i] != [])
  }

  lemma {:induction false} SomeoneAt(pcs: seq<Pc>, pc: Pc) returns (i: nat)
    requires multiset(pcs)[pc] > 0
    ensures i < |pcs| && pcs[i] == pc
  {
    assert pc in multiset(pcs) && pc in pcs;
    i :| 0 <= i < |pcs| && pcs[i] == pc;
  }

  /** The positions at which a thread that uses lock `f` can always move. */
  function Moving(f: nat): seq<Pc> {
    [ReadCount(f), ReadTest(f), ReadPost(f), Reading(f), LeaveCount(f), LeaveTest(f), LeaveUnblock(f),
     LeavePost(f), Writing(f)]
  }

  /** With nobody at those positions, either the reader that waits on `writeLock` or those leaving can move. */
  lemma {:induction false} NobodyMoving(l: RwLock, m: Counts, f: nat)
    requires LockInv(l, m, f) && forall k :: 0 <= k < |Moving(f)| ==> m[Moving(f)[k]] == 0
    ensures m[ReadBlock(f)] > 0 ==> l.writeLock > 0
    ensures m[ReadBlock(f)] == 0 ==> l.lock > 0 && (l.writeLock > 0 || m[LeaveEnter(f)] > 0)
  {
    var v := Moving(f);
    assert m[v[0]] == m[v[1]] == m[v[2]] == m[v[3]] == m[v[4]] == m[v[5]] == m[v[6]] == m[v[7]] == m[v[8]] == 0;
  }

  /** Whoever waits on a lock, someone using that lock can move. */
  lemma {:induction false} LockProgress(s: State, i: nat) returns (j: nat)
    requires Inv(s) && i < |s.pcs| && UsesLock(s.pcs[i])
    ensures Enabled(s, j)
  {
    if Enabled(s, i) {
      j := i;
    } else {
      var f, m := s.pcs[i].f, multiset(s.pcs);
      assert m[s.pcs[i]] > 0;
      assert LockInv(s.locks[f], m, f);
      if pc :| pc in Moving(f) && m[pc] > 0 {
        j := SomeoneAt(s.pcs, pc);
      } else {
        forall k | 0 <= k < |Moving(f)| ensures m[Moving(f)[k]] == 0 {
          assert Moving(f)[k] in Moving(f);
        }
        NobodyMoving(s.locks[f], m, f);
        var waiter := if m[ReadBlock(f)] > 0 then ReadBlock(f) else LeaveEnter(f);
        assert m[waiter] > 0;
        j := SomeoneAt(s.pcs, waiter);
      }
    }
  }

  /** As long as some thread has not finished, some thread can move. */
  lemma {:induction false} DeadlockFree(s: State, i: nat) returns (j: nat)
    requires Inv(s) && Unfinished(s, i)
    ensures Enabled(s, j)
  {
    if Enabled(s, i) {
      j := i;
    } else if s.pcs[i].WaitMutex? {
      assert true in multiset(s.holds);
      var h :| 0 <= h < |s.holds| && s.holds[h];
      assert HoldsFit(s.pcs[h], s.holds[h], s.nested[h]);
      if UsesLock(s.pcs[h]) {
        j := LockProgress(s, h);
      } else {
        j := h;
      }
    } else {
      j := LockProgress(s, i);
    }
  }

  // ---------- Every schedule finishes ----------

  /** At most this many steps remain in the section that a thread is in. */
  function Remaining(pc: Pc): nat {
    match pc
    case Idle => 0
    case PostMutex => 1
    case LeavePost(_) => 2
    case LeaveUnblock(_) => 3
    case LeaveTest(_) => 4
    case LeaveCount(_) => 5
    case LeaveEnter(_) => 6
    case Reading(_) => 7
    case ReadPost(_) => 8
    case ReadBlock(_) => 9
    case ReadTest(_) => 10
    case ReadCount(_) => 11
    case ReadEnter(_) => 12
    case Writing(_) => 2
    case WriteEnter(_) => 3
    case Exclusive => 2
    case WaitMutex(_) => 13
  }

  const STEPS_PER_REQUEST := 14

  function Measure(pcs: seq<Pc>, work: seq<seq<Op>>): nat
    requires |pcs| == |work|
  {
    if pcs == [] then 0
    else
      var last := |pcs| - 1;
      Measure(pcs[..last], work[..last]) + Remaining(pcs[last]) + STEPS_PER_REQUEST * |work[last]|
  }

  lemma {:induction false} MeasureUpdate(pcs: seq<Pc>, work: seq<seq<Op>>, i: nat, pc: Pc, w: seq<Op>)
    requires i < |pcs| == |work|
    ensures Measure(pcs[i := pc], work[i := w]) ==
            Measure(pcs, work) - Remaining(pcs[i]) - STEPS_PER_REQUEST * |work[i]|
            + Remaining(pc) + STEPS_PER_REQUEST * |w|
  {
    var last := |pcs| - 1;
    if i == last {
      assert pcs[i := pc][..last] == pcs[..last] && work[i := w][..last] == work[..last];
    } else {
      assert pcs[i := pc][..last] == pcs[..last][i := pc];
      assert work[i := w][..last] == work[..last][i := w];
      MeasureUpdate(pcs[..last], work[..last], i, pc, w);
    }
  }

  lemma {:induction false} StepDecreases(s: State, i: nat)
    requires Shaped(s) && Enabled(s, i)
    ensures Shaped(Step(s, i))
    ensures Measure(Step(s, i).pcs, Step(s, i).work) < Measure(s.pcs, s.work)
  {
    StepKeepsShape(s, i);
    var s' := Step(s, i);
    MeasureUpdate(s.pcs, s.work, i, s'.pcs[i], s'.work[i]);
    assert s'.pcs == s.pcs[i := s'.pcs[i]] && s'.work == s.work[i := s'.work[i]];
  }

  /** Whatever the schedule, the workload is served in a number of steps known at the start. */
  lemma {:induction false} RunsAreBounded(run: seq<State>, k: nat)
    requires IsRun(run) && Init(run[0]) && k < |run|
    ensures Shaped(run[k])
    ensures k + Measure(run[k].pcs, run[k].work) <= Measure(run[0].pcs, run[0].work)
  {
    if k > 0 {
      RunsAreBounded(run, k - 1);
      StepOfRun(run, k - 1);
      var i :| Enabled(run[k - 1], i) && run[k] == Step(run[k - 1], i);
      StepDecreases(run[k - 1], i);
    }
  }

  /** No thread can move. */
  ghost predicate Stuck(s: State) {
    Shaped(s) ==> forall i :: !Enabled(s, i)
  }

  /** A run that cannot go on has served every request and left every lock as it began. */
  lemma {:induction false} MaximalRunFinishes(run: seq<State>)
    requires IsRun(run) && Init(run[0])
    requires Stuck(run[|run| - 1])
    ensures var s := run[|run| - 1];
      && Shaped(s)
      && s.mutex == 1
      && (forall i :: 0 <= i < |s.pcs| ==> s.pcs[i] == Idle && s.work[i] == [] && !s.holds[i])
      && (forall f :: 0 <= f < |s.locks| ==> s.locks[f] == RwLock(0, 1, 1))
  {
    var s := run[|run| - 1];
    RunInv(run, |run| - 1);
    forall i | 0 <= i < |s.pcs| ensures s.pcs[i] == Idle && s.work[i] == [] && !s.holds[i] {
      assert HoldsFit(s.pcs[i], s.holds[i], s.nested[i]);
      if Unfinished(s, i) {
        var j := DeadlockFree(s, i);
        assert false;
      }
    }
    assert multiset(s.holds)[true] == 0 by {
      assert true !in s.holds;
    }
    forall f | 0 <= f < |s.locks| ensures s.locks[f] == RwLock(0, 1, 1) {
      forall pc | pc in AllAt(f) ensures multiset(s.pcs)[pc] == 0 {
        NoneAmong(s.pcs, pc);
      }
    }
  }
}
