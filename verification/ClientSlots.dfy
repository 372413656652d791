/**
 The naming server's table of client connections: one listener that fills free slots, one handler
 per accepted connection that clears its slot at the end and then exits, interleaved at every access
 to the table.
 A file descriptor that has been closed may be handed out again.
 */
module ClientSlots {
  const FREE := -1

  datatype Listener =
    | Scanning(i: nat)     // looking at slot `i` for a free one
    | Accepting(i: nat)    // waiting for a connection for slot `i`
    | Spawning(i: nat)     // about to create the handler of slot `i`
    | Unwinding(i: nat)    // the handler could not be created: connection closed, slot to be cleared

  /** `slot` is the place in the table that the handler was given. */
  datatype Handler =
    | Starting(slot: nat)                // has not read its descriptor yet
    | Serving(slot: nat, fd: int)
    | Closed(slot: nat, fd: int)         // connection closed, slot not yet cleared

  /**
   `handlers` holds the handlers that have not cleared their slot, by thread; `exiting` the threads
   that have and still run to their exit, with the slots they had; `open` the open connections.
   */
  datatype State = State(
    table: seq<int>, listener: Listener, handlers: map<nat, Handler>, exiting: map<nat, nat>, open: set<int>)

  datatype Action =
    | Scan
    | Accept(fd: int)
    | SpawnHandler(id: nat)
    | SpawnFails
    | Unwind
    | ReadSlot(id: nat)
    | Close(id: nat)
    | Clear(id: nat)
    | Exit(id: nat)

  ghost predicate Init(s: State) {
    && (forall i :: 0 <= i < |s.table| ==> s.table[i] == FREE)
    && s.listener == Scanning(0) && s.handlers == map[] && s.exiting == map[] && s.open == {}
  }

  /** `accept` returns a descriptor that is not open, or a negative number when it fails. */
  predicate Enabled(s: State, a: Action) {
    match a
    case Scan => s.listener.Scanning?
    case Accept(fd) => s.listener.Accepting? && s.listener.i < |s.table| && fd !in s.open
    case SpawnHandler(id) => s.listener.Spawning? && s.listener.i < |s.table| && id !in s.handlers && id !in s.exiting
    case SpawnFails => s.listener.Spawning? && s.listener.i < |s.table|
    case Unwind => s.listener.Unwinding? && s.listener.i < |s.table|
    case ReadSlot(id) => id in s.handlers && s.handlers[id].Starting? && s.handlers[id].slot < |s.table|
    case Close(id) => id in s.handlers && s.handlers[id].Serving?
    case Clear(id) => id in s.handlers && s.handlers[id].Closed? && s.handlers[id].slot < |s.table|
    case Exit(id) => id in s.exiting
  }

  function Step(s: State, a: Action): State
    requires Enabled(s, a)
  {
    match a
    case Scan =>
      var i := s.listener.i;
      if i >= |s.table| then s.(listener := Scanning(0))
      else if s.table[i] < 0 then s.(listener := Accepting(i))
      else s.(listener := Scanning(i + 1))
    case Accept(fd) =>
      var i := s.listener.i;
      if fd < 0 then s.(table := s.table[i := fd], listener := Scanning(0))
      else s.(table := s.table[i := fd], open := s.open + {fd}, listener := Spawning(i))
    case SpawnHandler(id) =>
      s.(handlers := s.handlers[id := Starting(s.listener.i)], listener := Scanning(0))
    case SpawnFails =>
      s.(open := s.open - {s.table[s.listener.i]}, listener := Unwinding(s.listener.i))
    case Unwind =>
      s.(table := s.table[s.listener.i := FREE], listener := Scanning(0))
    case ReadSlot(id) =>
      var slot := s.handlers[id].slot;
      s.(handlers := s.handlers[id := Serving(slot, s.table[slot])])
    case Close(id) =>
      var h := s.handlers[id];
      s.(open := s.open - {h.fd}, handlers := s.handlers[id := Closed(h.slot, h.fd)])
    case Clear(id) =>
      var slot := s.handlers[id].slot;
      s.(table := s.table[slot := FREE], handlers := s.handlers - {id}, exiting := s.exiting[id := slot])
    case Exit(id) => s.(exiting := s.exiting - {id})
  }

  ghost predicate Next(s: State, s': State) {
    exists a :: Enabled(s, a) && s' == Step(s, a)
  }

  ghost predicate IsRun(run: seq<State>) {
    && run != [] && Init(run[0])
    && forall j, k {:trigger Next(run[j], run[k])} :: 0 <= j && k == j + 1 < |run| ==> Next(run[j], run[k])
  }

  // ---------- The invariant ----------

  /** The listener has filled slot `i` and not yet passed it on or cleared it. */
  predicate ListenerOwns(s: State, i: nat) {
    (s.listener.Spawning? || s.listener.Unwinding?) && s.listener.i == i
  }

  ghost predicate HandlerOwns(s: State, id: nat, i: nat) {
    id in s.handlers && s.handlers[id].slot == i
  }

  /** The handler's view of its slot is right, and its connection is open until it closes it. */
  predicate HandlerFits(s: State, h: Handler) {
    && h.slot < |s.table| && s.table[h.slot] >= 0
    && match h
       case Starting(slot) => s.table[slot] in s.open
       case Serving(slot, fd) => s.table[slot] == fd && fd in s.open
       case Closed(slot, fd) => s.table[slot] == fd
  }

  predicate ListenerFits(s: State) {
    match s.listener
    case Scanning(_) => true
    case Accepting(i) => i < |s.table| && s.table[i] < 0
    case Spawning(i) => i < |s.table| && s.table[i] >= 0 && s.table[i] in s.open
    case Unwinding(i) => i < |s.table| && s.table[i] >= 0
  }

  /** Handler `id` has its slot's connection open. */
  predicate KeepsOpen(s: State, id: nat, fd: int) {
    && id in s.handlers && !s.handlers[id].Closed?
    && s.handlers[id].slot < |s.table| && s.table[s.handlers[id].slot] == fd
  }

  /** The listener has `fd` open, in the slot it is about to hand over. */
  predicate ListenerKeepsOpen(s: State, fd: int) {
    s.listener.Spawning? && s.listener.i < |s.table| && s.table[s.listener.i] == fd
  }

  /** Every handler has a slot of its own, which the listener has let go of. */
  ghost predicate SlotsFit(s: State) {
    && ListenerFits(s)
    && (forall id :: id in s.handlers ==> HandlerFits(s, s.handlers[id]))
    && (forall id, id' :: id in s.handlers && id' in s.handlers && s.handlers[id].slot == s.handlers[id'].slot
          ==> id == id')
    && (forall id :: id in s.handlers ==> !ListenerOwns(s, s.handlers[id].slot))
  }

  /** Every taken slot has an owner. */
  ghost predicate SlotsOwned(s: State) {
    forall i :: 0 <= i < |s.table| && s.table[i] >= 0 && !ListenerOwns(s, i) ==> exists id :: HandlerOwns(s, id, i)
  }

  /** No two owners have the same connection open. */
  ghost predicate OpensDistinct(s: State) {
    && (forall id, id', fd :: KeepsOpen(s, id, fd) && KeepsOpen(s, id', fd) ==> id == id')
    && (forall id, fd :: KeepsOpen(s, id, fd) ==> !ListenerKeepsOpen(s, fd))
  }

  /** Every open connection has an owner. */
  ghost predicate OpensOwned(s: State) {
    forall fd :: fd in s.open ==> ListenerKeepsOpen(s, fd) || exists id :: KeepsOpen(s, id, fd)
  }

  ghost predicate Inv(s: State) {
    SlotsFit(s) && SlotsOwned(s) && OpensDistinct(s) && OpensOwned(s)
  }

  /** Closing a connection leaves another handler's open. */
  lemma {:induction false} CloseSparesOthers(s: State, id: nat, other: nat)
    requires SlotsFit(s) && OpensDistinct(s) && Enabled(s, Close(id))
    requires other in s.handlers && other != id && !s.handlers[other].Closed?
    ensures s.handlers[other].slot < |s.table| && s.table[s.handlers[other].slot] in s.open - {s.handlers[id].fd}
  {
    assert HandlerFits(s, s.handlers[id]) && HandlerFits(s, s.handlers[other]);
    assert KeepsOpen(s, id, s.handlers[id].fd);
    assert KeepsOpen(s, other, s.table[s.handlers[other].slot]);
  }

  /** So does closing the connection of a handler that could not be created. */
  lemma {:induction false} FailureSparesHandlers(s: State, other: nat)
    requires SlotsFit(s) && OpensDistinct(s) && Enabled(s, SpawnFails)
    requires other in s.handlers && !s.handlers[other].Closed?
    ensures s.handlers[other].slot < |s.table|
    ensures s.table[s.handlers[other].slot] in s.open - {s.table[s.listener.i]}
  {
    assert HandlerFits(s, s.handlers[other]);
    assert KeepsOpen(s, other, s.table[s.handlers[other].slot]);
    assert ListenerKeepsOpen(s, s.table[s.listener.i]);
  }

  lemma {:induction false} StepKeepsHandler(s: State, a: Action, id: nat)
    requires SlotsFit(s) && OpensDistinct(s) && Enabled(s, a) && id in Step(s, a).handlers
    ensures HandlerFits(Step(s, a), Step(s, a).handlers[id])
  {
    if id in s.handlers {
      assert HandlerFits(s, s.handlers[id]) && !ListenerOwns(s, s.handlers[id].slot);
      if !s.handlers[id].Closed? {
        if a.Close? && a.id != id {
          CloseSparesOthers(s, a.id, id);
        } else if a.SpawnFails? {
          FailureSparesHandlers(s, id);
        }
      }
    }
  }

  lemma {:induction false} StepKeepsListener(s: State, a: Action)
    requires SlotsFit(s) && OpensDistinct(s) && Enabled(s, a)
    ensures ListenerFits(Step(s, a))
  {
    if a.Close? {
      assert HandlerFits(s, s.handlers[a.id]);
      assert KeepsOpen(s, a.id, s.handlers[a.id].fd);
    }
  }

  lemma {:induction false} StepKeepsSlotsFit(s: State, a: Action)
    requires SlotsFit(s) && OpensDistinct(s) && Enabled(s, a)
    ensures SlotsFit(Step(s, a))
  {
    var s' := Step(s, a);
    StepKeepsListener(s, a);
    forall id | id in s'.handlers ensures HandlerFits(s', s'.handlers[id]) {
      StepKeepsHandler(s, a, id);
    }
    forall id | id in s'.handlers ensures !ListenerOwns(s', s'.handlers[id].slot) {
      if id in s.handlers {
        assert HandlerFits(s, s.handlers[id]);
      }
    }
  }

  lemma {:induction false} StepKeepsSlotsOwned(s: State, a: Action)
    requires SlotsFit(s) && SlotsOwned(s) && Enabled(s, a)
    ensures SlotsOwned(Step(s, a))
  {
    var s' := Step(s, a);
    forall i | 0 <= i < |s'.table| && s'.table[i] >= 0 && !ListenerOwns(s', i)
      ensures exists id :: HandlerOwns(s', id, i)
    {
      if a.SpawnHandler? && i == s.listener.i {
        assert HandlerOwns(s', a.id, i);
      } else {
        assert s.table[i] >= 0 && !ListenerOwns(s, i);
        var id :| HandlerOwns(s, id, i);
        assert HandlerOwns(s', id, i);
      }
    }
  }

  /** A step opens a connection for the listener, passes it to a handler, or closes one. */
  lemma {:induction false} OpenAfter(s: State, a: Action, id: nat, fd: int)
    requires SlotsFit(s) && Enabled(s, a)
    ensures KeepsOpen(Step(s, a), id, fd) <==>
            if a == SpawnHandler(id) then ListenerKeepsOpen(s, fd)
            else KeepsOpen(s, id, fd) && a != Close(id)
    ensures ListenerKeepsOpen(Step(s, a), fd) <==>
            if a.Accept? then a.fd == fd >= 0
            else ListenerKeepsOpen(s, fd) && !a.SpawnHandler? && !a.SpawnFails?
  {
    if id in s.handlers {
      assert HandlerFits(s, s.handlers[id]);
    }
  }

  lemma {:induction false} StepKeepsOpensDistinct(s: State, a: Action)
    requires SlotsFit(s) && OpensDistinct(s) && Enabled(s, a)
    ensures OpensDistinct(Step(s, a))
  {
    var s' := Step(s, a);
    forall id, id', fd | KeepsOpen(s', id, fd) && KeepsOpen(s', id', fd) ensures id == id' {
      OpenAfter(s, a, id, fd);
      OpenAfter(s, a, id', fd);
    }
    forall id, fd | KeepsOpen(s', id, fd) ensures !ListenerKeepsOpen(s', fd) {
      OpenAfter(s, a, id, fd);
      if id in s.handlers {
        assert HandlerFits(s, s.handlers[id]);
      }
    }
  }

  lemma {:induction false} StepKeepsOpensOwned(s: State, a: Action)
    requires SlotsFit(s) && OpensDistinct(s) && OpensOwned(s) && Enabled(s, a)
    ensures OpensOwned(Step(s, a))
  {
    var s' := Step(s, a);
    forall fd | fd in s'.open ensures ListenerKeepsOpen(s', fd) || exists id :: KeepsOpen(s', id, fd) {
      OpenAfter(s, a, 0, fd);
      if fd in s.open {
        if ListenerKeepsOpen(s, fd) {
          if a.SpawnHandler? {
            OpenAfter(s, a, a.id, fd);
          }
        } else {
          var id :| KeepsOpen(s, id, fd);
          assert HandlerFits(s, s.handlers[id]);
          OpenAfter(s, a, id, fd);
        }
      }
    }
  }

  lemma {:induction false} NextInv(s: State, s': State)
    requires Inv(s) && Next(s, s')
    ensures Inv(s')
  {
    var a :| Enabled(s, a) && s' == Step(s, a);
    StepKeepsSlotsFit(s, a);
    StepKeepsSlotsOwned(s, a);
    StepKeepsOpensDistinct(s, a);
    StepKeepsOpensOwned(s, a);
  }

  lemma {:induction false} StepOfRun(run: seq<State>, k: nat)
    requires IsRun(run) && k + 1 < |run|
    ensures Next(run[k], run[k + 1])
  {
  }

  lemma {:induction false} InitInv(s: State)
    requires Init(s)
    ensures Inv(s)
  {
  }

  lemma {:induction false} TableKeepsSize(run: seq<State>, k: nat)
    requires IsRun(run) && k < |run|
    ensures |run[k].table| == |run[0].table|
  {
    if k > 0 {
      TableKeepsSize(run, k - 1);
      StepOfRun(run, k - 1);
    }
  }

  lemma {:induction false} RunInv(run: seq<State>, k: nat)
    requires IsRun(run) && k < |run|
    ensures Inv(run[k])
  {
    if k == 0 {
      InitInv(run[0]);
    } else {
      RunInv(run, k - 1);
      StepOfRun(run, k - 1);
      NextInv(run[k - 1], run[k]);
    }
  }

  // ---------- Ownership ----------

  /**
   At every point of every run an open connection has exactly one owner: the listener while it
   hands it over, or one handler, whose slot holds the connection.
   */
  lemma {:induction false} OpenConnectionHasOneOwner(run: seq<State>, k: nat, fd: int)
    requires IsRun(run) && k < |run| && fd in run[k].open
    ensures ListenerKeepsOpen(run[k], fd) <==> !exists id :: KeepsOpen(run[k], id, fd)
    ensures forall id, id' :: KeepsOpen(run[k], id, fd) && KeepsOpen(run[k], id', fd) ==> id == id'
  {
    RunInv(run, k);
  }

  /** A handler serves the very connection that its slot holds, and nobody else closes it. */
  lemma {:induction false} HandlerServesItsSlot(run: seq<State>, k: nat, id: nat)
    requires IsRun(run) && k < |run| && id in run[k].handlers
    ensures run[k].handlers[id].slot < |run[k].table|
    ensures run[k].handlers[id].Serving? ==>
              run[k].table[run[k].handlers[id].slot] == run[k].handlers[id].fd && run[k].handlers[id].fd in run[k].open
  {
    RunInv(run, k);
    assert HandlerFits(run[k], run[k].handlers[id]);
  }

  /** The listener reuses a slot only when no handler is alive on it. */
  lemma {:induction false} ReuseAfterClear(run: seq<State>, k: nat, id: nat)
    requires IsRun(run) && k < |run| && run[k].listener.Accepting? && id in run[k].handlers
    ensures run[k].handlers[id].slot != run[k].listener.i
  {
    RunInv(run, k);
    assert HandlerFits(run[k], run[k].handlers[id]);
  }

  lemma {:induction false} Pigeonhole(slots: map<nat, nat>, n: nat)
    requires forall id :: id in slots ==> slots[id] < n
    requires forall id, id' :: id in slots && id' in slots && slots[id] == slots[id'] ==> id == id'
    ensures |slots| <= n
  {
    if n == 0 {
      assert slots == map[];
    } else if id :| id in slots && slots[id] == n - 1 {
      var rest := slots - {id};
      assert slots.Keys == rest.Keys + {id};
      Pigeonhole(rest, n - 1);
    } else {
      Pigeonhole(slots, n - 1);
    }
  }

  /** There are never more handlers than slots, not counting threads that have cleared their slot. */
  lemma {:induction false} HandlersAreBounded(run: seq<State>, k: nat)
    requires IsRun(run) && k < |run|
    ensures |run[k].handlers| <= |run[0].table|
  {
    RunInv(run, k);
    TableKeepsSize(run, k);
    var slots := map id | id in run[k].handlers :: run[k].handlers[id].slot;
    forall id | id in slots ensures slots[id] < |run[0].table| {
      assert HandlerFits(run[k], run[k].handlers[id]);
    }
    assert slots.Keys == run[k].handlers.Keys;
    Pigeonhole(slots, |run[0].table|);
  }

  /** A taken slot is the listener's or a handler's. */
  lemma {:induction false} NoSlotIsLost(run: seq<State>, k: nat, i: nat)
    requires IsRun(run) && k < |run| && i < |run[k].table|
    requires run[k].table[i] >= 0
    ensures ListenerOwns(run[k], i) || exists id :: HandlerOwns(run[k], id, i)
  {
    RunInv(run, k);
  }

  ghost predicate Leads(s: State, actions: seq<Action>, s': State)
    decreases |actions|
  {
    if actions == [] then s == s' else Enabled(s, actions[0]) && Leads(Step(s, actions[0]), actions[1..], s')
  }

  lemma {:induction false} FromEnd(s: State, a: Action, actions: seq<Action>, s': State)
    requires Enabled(s, a) && Leads(Step(s, a), actions, s')
    ensures Leads(s, [a] + actions, s')
  {
    assert ([a] + actions)[1..] == actions;
  }

  /** The listener can clear the slot it holds. */
  lemma {:induction false} ListenerCanClear(s: State, i: nat) returns (actions: seq<Action>, s': State)
    requires Inv(s) && ListenerOwns(s, i)
    ensures Leads(s, actions, s') && i < |s'.table| && s'.table[i] == FREE
  {
    if s.listener.Spawning? {
      var s1 := Step(s, SpawnFails);
      actions, s' := [SpawnFails, Unwind], Step(s1, Unwind);
      FromEnd(s1, Unwind, [], s');
      FromEnd(s, SpawnFails, [Unwind], s');
    } else {
      actions, s' := [Unwind], Step(s, Unwind);
      FromEnd(s, Unwind, [], s');
    }
  }

  /** A handler can clear its slot, from wherever it stands. */
  lemma {:induction false} HandlerCanClear(s: State, id: nat) returns (actions: seq<Action>, s': State)
    requires id in s.handlers && HandlerFits(s, s.handlers[id])
    ensures Leads(s, actions, s')
    ensures s.handlers[id].slot < |s'.table| && s'.table[s.handlers[id].slot] == FREE
    decreases match s.handlers[id] case Starting(_) => 2 case Serving(_, _) => 1 case Closed(_, _) => 0
  {
    var h := s.handlers[id];
    var a := if h.Starting? then ReadSlot(id) else if h.Serving? then Close(id) else Clear(id);
    var next := Step(s, a);
    var more := [];
    s' := next;
    if !h.Closed? {
      more, s' := HandlerCanClear(next, id);
    }
    actions := [a] + more;
    FromEnd(s, a, more, s');
  }

  /** Whoever owns a taken slot can go on, alone, until it is free. */
  lemma {:induction false} SlotCanBeFreed(run: seq<State>, k: nat, i: nat) returns (actions: seq<Action>, s': State)
    requires IsRun(run) && k < |run| && i < |run[k].table|
    requires run[k].table[i] >= 0
    ensures Leads(run[k], actions, s') && i < |s'.table| && s'.table[i] == FREE
  {
    RunInv(run, k);
    NoSlotIsLost(run, k, i);
    if ListenerOwns(run[k], i) {
      actions, s' := ListenerCanClear(run[k], i);
    } else {
      var id :| HandlerOwns(run[k], id, i);
      actions, s' := HandlerCanClear(run[k], id);
    }
  }

  // ---------- Every connection can be served ----------

  /** From slot `i` on, the listener comes to the first free slot. */
  lemma {:induction false} ScanFinds(s: State, i: nat, j: nat)
    requires s.listener == Scanning(i) && i <= j < |s.table| && s.table[j] < 0
    requires forall k :: i <= k < j ==> s.table[k] >= 0
    ensures Leads(s, seq(j - i + 1, _ => Scan), s.(listener := Accepting(j)))
    decreases j - i
  {
    var rest: seq<Action> := seq(j - i, _ => Scan);
    assert seq(j - i + 1, _ => Scan) == [Scan] + rest;
    if i == j {
      FromEnd(s, Scan, rest, s.(listener := Accepting(j)));
    } else {
      ScanFinds(s.(listener := Scanning(i + 1)), i + 1, j);
      FromEnd(s, Scan, rest, s.(listener := Accepting(j)));
    }
  }

  /** With no free slot from `i` on it starts over. */
  lemma {:induction false} ScanStartsOver(s: State, i: nat) returns (actions: seq<Action>)
    requires s.listener == Scanning(i)
    requires forall k :: i <= k < |s.table| ==> s.table[k] >= 0
    ensures Leads(s, actions, s.(listener := Scanning(0)))
    decreases |s.table| - i
  {
    actions := [];
    if i < |s.table| {
      actions := ScanStartsOver(s.(listener := Scanning(i + 1)), i + 1);
    }
    FromEnd(s, Scan, actions, s.(listener := Scanning(0)));
    actions := [Scan] + actions;
  }

  lemma {:induction false} Joined(s: State, a: seq<Action>, between: State, b: seq<Action>, s': State)
    requires Leads(s, a, between) && Leads(between, b, s')
    ensures Leads(s, a + b, s')
    decreases |a|
  {
    if a == [] {
      assert a + b == b;
    } else {
      Joined(Step(s, a[0]), a[1..], between, b, s');
      assert (a + b)[1..] == a[1..] + b;
    }
  }

  /** A connection accepted in slot `j` gets a handler that serves it. */
  lemma {:induction false} AcceptedIsServed(s: State, j: nat, fd: nat, id: nat)
    requires s.listener == Accepting(j) && j < |s.table| && fd !in s.open
    requires id !in s.handlers && id !in s.exiting
    ensures Leads(s, [Accept(fd), SpawnHandler(id), ReadSlot(id)],
                  s.(table := s.table[j := fd], open := s.open + {fd}, listener := Scanning(0),
                     handlers := s.handlers[id := Serving(j, fd)]))
  {
    var s1 := Step(s, Accept(fd));
    var s2 := Step(s1, SpawnHandler(id));
    var s3 := Step(s2, ReadSlot(id));
    assert s.handlers[id := Starting(j)][id := Serving(j, fd)] == s.handlers[id := Serving(j, fd)];
    FromEnd(s2, ReadSlot(id), [], s3);
    FromEnd(s1, SpawnHandler(id), [ReadSlot(id)], s3);
    FromEnd(s, Accept(fd), [SpawnHandler(id), ReadSlot(id)], s3);
  }

  /** A failed `accept` or a failed creation of the handler leaves the slot free for the next connection. */
  lemma {:induction false} FailureLeavesFree(s: State, j: nat, fd: int)
    requires s.listener == Accepting(j) && j < |s.table| && s.table[j] < 0 && fd !in s.open
    ensures fd < 0 ==> Leads(s, [Accept(fd)], s.(table := s.table[j := fd], listener := Scanning(0)))
    ensures fd >= 0 ==>
              Leads(s, [Accept(fd), SpawnFails, Unwind], s.(table := s.table[j := FREE], listener := Scanning(0)))
  {
    var s1 := Step(s, Accept(fd));
    if fd < 0 {
      FromEnd(s, Accept(fd), [], s1);
    } else {
      var s2 := Step(s1, SpawnFails);
      var s3 := Step(s2, Unwind);
      assert s.open + {fd} - {fd} == s.open && s.table[j := fd][j := FREE] == s.table[j := FREE];
      FromEnd(s2, Unwind, [], s3);
      FromEnd(s1, SpawnFails, [Unwind], s3);
      FromEnd(s, Accept(fd), [SpawnFails, Unwind], s3);
    }
  }

  /**
   Whatever has happened, when the listener starts looking for a slot a new connection can be accepted
   in the first free one and is then served there.
   */
  lemma {:induction false} ConnectionCanBeServed(s: State, j: nat, fd: nat, id: nat) returns (actions: seq<Action>)
    requires s.listener == Scanning(0) && j < |s.table| && s.table[j] < 0
    requires forall k :: 0 <= k < j ==> s.table[k] >= 0
    requires fd !in s.open && id !in s.handlers && id !in s.exiting
    ensures Leads(s, actions, s.(table := s.table[j := fd], open := s.open + {fd}, listener := Scanning(0),
                                 handlers := s.handlers[id := Serving(j, fd)]))
  {
    var accepting := s.(listener := Accepting(j));
    var scans: seq<Action> := seq(j + 1, _ => Scan);
    ScanFinds(s, 0, j);
    AcceptedIsServed(accepting, j, fd, id);
    var served := accepting.(table := s.table[j := fd], open := s.open + {fd}, listener := Scanning(0),
                             handlers := s.handlers[id := Serving(j, fd)]);
    Joined(s, scans, accepting, [Accept(fd), SpawnHandler(id), ReadSlot(id)], served);
    actions := scans + [Accept(fd), SpawnHandler(id), ReadSlot(id)];
  }

  /**
   Nobody waits for anybody: in every state of every run the listener can go on, with any descriptor
   that is not open and any new thread, and so can every handler and every thread on its way out.
   */
  lemma {:induction false} EveryoneCanGoOn(run: seq<State>, k: nat, fd: int, id: nat)
    requires IsRun(run) && k < |run| && fd !in run[k].open && id !in run[k].handlers && id !in run[k].exiting
    ensures match run[k].listener
      case Scanning(_) => Enabled(run[k], Scan)
      case Accepting(_) => Enabled(run[k], Accept(fd))
      case Spawning(_) => Enabled(run[k], SpawnHandler(id)) && Enabled(run[k], SpawnFails)
      case Unwinding(_) => Enabled(run[k], Unwind)
    ensures forall t :: t in run[k].handlers ==>
      match run[k].handlers[t]
      case Starting(_) => Enabled(run[k], ReadSlot(t))
      case Serving(_, _) => Enabled(run[k], Close(t))
      case Closed(_, _) => Enabled(run[k], Clear(t))
    ensures forall t :: t in run[k].exiting ==> Enabled(run[k], Exit(t))
  {
    RunInv(run, k);
    forall t | t in run[k].handlers ensures HandlerFits(run[k], run[k].handlers[t]) {
    }
  }

  /** A thread on its way out exits, and its identity may be given to a new one. */
  lemma {:induction false} ExitLeads(s: State, id: nat)
    requires id in s.exiting
    ensures Leads(s, [Exit(id)], s.(exiting := s.exiting - {id}))
  {
    FromEnd(s, Exit(id), [], s.(exiting := s.exiting - {id}));
  }

  // ---------- Threads on their way out ----------

  /** The listener has filled a slot again whose last thread has not exited. */
  ghost predicate RefilledEarly(s: State) {
    s.listener.Spawning? && exists id :: id in s.exiting && s.exiting[id] == s.listener.i
  }

  /** The threads that have cleared their slot had slots of their own, which nobody has since. */
  ghost predicate ExitsFit(s: State) {
    && (forall id :: id in s.exiting ==> s.exiting[id] < |s.table| && id !in s.handlers)
    && (forall id, id' :: id in s.exiting && id' in s.exiting && s.exiting[id] == s.exiting[id'] ==> id == id')
    && (forall id, id' :: id in s.exiting && id' in s.handlers ==> s.exiting[id] != s.handlers[id'].slot)
  }

  lemma {:induction false} ClearKeepsExits(s: State, id: nat)
    requires SlotsFit(s) && ExitsFit(s) && Enabled(s, Clear(id))
    ensures ExitsFit(Step(s, Clear(id)))
  {
    assert HandlerFits(s, s.handlers[id]);
  }

  lemma {:induction false} SpawnKeepsExits(s: State, id: nat)
    requires ExitsFit(s) && !RefilledEarly(s) && Enabled(s, SpawnHandler(id))
    ensures ExitsFit(Step(s, SpawnHandler(id)))
  {
  }

  /** `s'` has the handlers of `s` on the same slots, and no more exiting threads. */
  ghost predicate SameSlots(s: State, s': State) {
    && |s'.table| == |s.table|
    && (forall id :: id in s'.handlers ==> id in s.handlers && s'.handlers[id].slot == s.handlers[id].slot)
    && (forall id :: id in s'.exiting ==> id in s.exiting && s'.exiting[id] == s.exiting[id])
  }

  lemma {:induction false} OtherStepsKeepSlots(s: State, a: Action)
    requires Enabled(s, a) && !a.Clear? && !a.SpawnHandler?
    ensures SameSlots(s, Step(s, a))
  {
  }

  lemma {:induction false} SameSlotsKeepExits(s: State, s': State)
    requires ExitsFit(s) && SameSlots(s, s')
    ensures ExitsFit(s')
  {
  }

  lemma {:induction false} StepKeepsExits(s: State, a: Action)
    requires SlotsFit(s) && ExitsFit(s) && !RefilledEarly(s) && Enabled(s, a)
    ensures ExitsFit(Step(s, a))
  {
    if a.Clear? {
      ClearKeepsExits(s, a.id);
    } else if a.SpawnHandler? {
      SpawnKeepsExits(s, a.id);
    } else {
      OtherStepsKeepSlots(s, a);
      SameSlotsKeepExits(s, Step(s, a));
    }
  }

  lemma {:induction false} RunKeepsExits(run: seq<State>, k: nat)
    requires IsRun(run) && k < |run|
    requires forall j :: 0 <= j < k ==> !RefilledEarly(run[j])
    ensures ExitsFit(run[k])
  {
    if k > 0 {
      RunKeepsExits(run, k - 1);
      RunInv(run, k - 1);
      StepOfRun(run, k - 1);
      var a :| Enabled(run[k - 1], a) && run[k] == Step(run[k - 1], a);
      StepKeepsExits(run[k - 1], a);
    }
  }

  /** The slot that each thread has or had last. */
  function Threads(s: State): map<nat, nat> {
    map id | id in s.handlers.Keys + s.exiting.Keys :: if id in s.handlers then s.handlers[id].slot else s.exiting[id]
  }

  /**
   All threads together, those on their way out included, stay within the table as long as no slot
   is filled again while its last thread has not exited.
   */
  lemma {:induction false} ThreadsAreBounded(run: seq<State>, k: nat)
    requires IsRun(run) && k < |run|
    requires forall j, id :: 0 <= j < k && id in run[j].exiting && run[j].listener.Spawning? ==>
               run[j].exiting[id] != run[j].listener.i
    ensures |run[k].handlers| + |run[k].exiting| <= |run[0].table|
  {
    var s := run[k];
    var threads := Threads(s);
    RunInv(run, k);
    RunKeepsExits(run, k);
    TableKeepsSize(run, k);
    forall id | id in threads ensures threads[id] < |run[0].table| {
      assert id in s.handlers ==> HandlerFits(s, s.handlers[id]);
    }
    Pigeonhole(threads, |run[0].table|);
    assert threads.Keys == s.handlers.Keys + s.exiting.Keys && s.handlers.Keys !! s.exiting.Keys;
  }

  function FirstIds(m: nat): (ids: set<nat>)
    ensures |ids| == m && forall id :: id in ids ==> id < m
  {
    if m == 0 then {} else FirstIds(m - 1) + {m - 1}
  }

  /** All slots free, no connection open, and `m` threads that have cleared their slot and not exited. */
  ghost function Quiet(n: nat, m: nat): State {
    State(seq(n, _ => FREE), Scanning(0), map[], map id | id in FirstIds(m) :: 0, {})
  }

  lemma {:induction false} Extended(run: seq<State>, actions: seq<Action>, s': State) returns (longer: seq<State>)
    requires IsRun(run) && Leads(run[|run| - 1], actions, s')
    ensures IsRun(longer) && run <= longer && longer[|longer| - 1] == s'
    decreases |actions|
  {
    if actions == [] {
      longer := run;
    } else {
      var s := run[|run| - 1];
      var next := run + [Step(s, actions[0])];
      assert Next(s, Step(s, actions[0]));
      forall j, k {:trigger Next(next[j], next[k])} | 0 <= j && k == j + 1 < |next| ensures Next(next[j], next[k]) {
        if k < |run| {
          StepOfRun(run, j);
        }
      }
      longer := Extended(next, actions[1..], s');
    }
  }

  /** The same with a connection in slot 0 and thread `m` started on it. */
  ghost function Occupied(n: nat, m: nat, fd: nat): State
    requires n > 0
  {
    var s := Quiet(n, m);
    s.(table := s.table[0 := fd], handlers := map[m := Starting(0)], open := {fd})
  }

  lemma {:induction false} OneAccepted(n: nat, m: nat, fd: nat) returns (actions: seq<Action>)
    requires n > 0
    ensures Leads(Quiet(n, m), actions, Occupied(n, m, fd))
  {
    var s0, s3 := Quiet(n, m), Occupied(n, m, fd);
    var s1 := Step(s0, Scan);
    var s2 := Step(s1, Accept(fd));
    assert Step(s2, SpawnHandler(m)) == s3 by {
      assert {} + {fd} == {fd};
    }
    actions := [Scan, Accept(fd), SpawnHandler(m)];
    FromEnd(s2, SpawnHandler(m), [], s3);
    FromEnd(s1, Accept(fd), [SpawnHandler(m)], s3);
    FromEnd(s0, Scan, [Accept(fd), SpawnHandler(m)], s3);
  }

  /** A handler that serves its connection to the end. */
  lemma {:induction false} Served(s: State, id: nat) returns (s': State)
    requires id in s.handlers && s.handlers[id].Starting? && s.handlers[id].slot < |s.table|
    ensures Leads(s, [ReadSlot(id), Close(id), Clear(id)], s')
    ensures var slot := s.handlers[id].slot;
      s' == State(s.table[slot := FREE], s.listener, s.handlers - {id}, s.exiting[id := slot], s.open - {s.table[slot]})
  {
    var slot := s.handlers[id].slot;
    var s1 := Step(s, ReadSlot(id));
    var s2 := Step(s1, Close(id));
    s' := Step(s2, Clear(id));
    assert s'.handlers == s.handlers - {id};
    FromEnd(s2, Clear(id), [], s');
    FromEnd(s1, Close(id), [Clear(id)], s');
    FromEnd(s, ReadSlot(id), [Close(id), Clear(id)], s');
  }

  lemma {:induction false} OneCleared(n: nat, m: nat, fd: nat) returns (actions: seq<Action>)
    requires n > 0
    ensures Leads(Occupied(n, m, fd), actions, Quiet(n, m + 1))
  {
    var s := Served(Occupied(n, m, fd), m);
    var last := Quiet(n, m + 1);
    assert s.table == last.table && s.handlers == last.handlers && s.open == last.open;
    assert s.exiting == last.exiting;
    actions := [ReadSlot(m), Close(m), Clear(m)];
  }

  /**
   Threads that have cleared their slot are not bounded by the table: a slot is reused while its last
   handler is still on its way out.  Any number of them can pile up in a table of any size.
   */
  lemma {:induction false} ExitingIsUnbounded(n: nat, m: nat) returns (run: seq<State>)
    requires n > 0
    ensures IsRun(run) && |run[0].table| == n
    ensures |run[|run| - 1].exiting| == m && run[|run| - 1].handlers == map[]
  {
    QuietStart(n);
    run := QuietRun(n, m);
    assert Quiet(n, m).exiting.Keys == FirstIds(m);
  }

  lemma {:induction false} QuietStart(n: nat)
    ensures IsRun([Quiet(n, 0)]) && |Quiet(n, 0).table| == n
  {
    assert Init(Quiet(n, 0));
  }

  lemma {:induction false} QuietRun(n: nat, m: nat) returns (run: seq<State>)
    requires n > 0
    ensures IsRun(run) && run[0] == Quiet(n, 0) && run[|run| - 1] == Quiet(n, m)
  {
    if m == 0 {
      QuietStart(n);
      run := [Quiet(n, 0)];
    } else {
      var before := QuietRun(n, m - 1);
      var accepting := OneAccepted(n, m - 1, 0);
      var clearing := OneCleared(n, m - 1, 0);
      var between := Extended(before, accepting, Occupied(n, m - 1, 0));
      run := Extended(between, clearing, Quiet(n, m));
      assert run[0] == before[0];
    }
  }
}
