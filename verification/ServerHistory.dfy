/**
 The naming server's index and cache as one history: the insertions, deletions and lookups of the
 steps of a run, whatever their interleaving, and what that history says of the answers found.
 */
module ServerHistory {
  import opened Bytes
  import opened PathIndex
  import opened RollingHash
  import opened LruCache
  import opened NamingServer
  import C = CacheAgreement
  import D = DirectoryListing
  import R = Registration
  import T = LruTheory

  // ---------- Runs with their actions ----------

  ghost predicate TakenAt(run: seq<State>, acts: seq<Action>, k: nat) {
    k < |acts| && k + 1 < |run| && Enabled(run[k], acts[k]) && run[k + 1] == Step(run[k], acts[k])
  }

  ghost predicate IsTrace(run: seq<State>, acts: seq<Action>) {
    |run| == |acts| + 1 && Init(run[0]) && forall k :: 0 <= k < |acts| ==> TakenAt(run, acts, k)
  }

  lemma {:induction false} TraceIsRun(run: seq<State>, acts: seq<Action>)
    requires IsTrace(run, acts)
    ensures IsRun(run)
  {
    forall j, k {:trigger Next(run[j], run[k])} | 0 <= j && k == j + 1 < |run| ensures Next(run[j], run[k]) {
      assert TakenAt(run, acts, j);
    }
  }

  lemma {:induction false} RunHasTrace(run: seq<State>) returns (acts: seq<Action>)
    requires IsRun(run)
    ensures IsTrace(run, acts)
  {
    acts := TraceTo(run, |run| - 1);
    assert run[..|run|] == run;
  }

  lemma {:induction false} ActionOf(run: seq<State>, k: nat) returns (a: Action)
    requires IsRun(run) && k + 1 < |run|
    ensures Enabled(run[k], a) && run[k + 1] == Step(run[k], a)
  {
    StepOfRun(run, k);
    a :| Enabled(run[k], a) && run[k + 1] == Step(run[k], a);
  }

  lemma {:induction false} TraceTo(run: seq<State>, n: nat) returns (acts: seq<Action>)
    requires IsRun(run) && n < |run|
    ensures IsTrace(run[..n + 1], acts)
  {
    if n == 0 {
      acts := [];
    } else {
      var before := TraceTo(run, n - 1);
      var a := ActionOf(run, n - 1);
      TraceNext(run[..n], before, a);
      acts := before + [a];
      assert run[..n + 1] == run[..n] + [run[n]];
    }
  }

  lemma {:induction false} TraceNext(run: seq<State>, acts: seq<Action>, a: Action)
    requires IsTrace(run, acts) && Enabled(run[|acts|], a)
    ensures IsTrace(run + [Step(run[|acts|], a)], acts + [a])
  {
    var run', acts' := run + [Step(run[|acts|], a)], acts + [a];
    forall k | 0 <= k < |acts'| ensures TakenAt(run', acts', k) {
      assert k < |acts| ==> TakenAt(run, acts, k);
    }
  }

  lemma {:induction false} Extended(run: seq<State>, acts: seq<Action>, actions: seq<Action>, s': State)
    returns (run': seq<State>)
    requires IsTrace(run, acts) && Leads(run[|acts|], actions, s')
    ensures IsTrace(run', acts + actions) && run <= run' && run'[|acts + actions|] == s'
    decreases |actions|
  {
    if actions == [] {
      run' := run;
      assert acts + actions == acts;
    } else {
      var next := Step(run[|acts|], actions[0]);
      TraceNext(run, acts, actions[0]);
      run' := Extended(run + [next], acts + [actions[0]], actions[1..], s');
      assert acts + [actions[0]] + actions[1..] == acts + actions;
    }
  }

  // ---------- Clients are served ----------

  /**
   From every run in which enough servers run and the server listener is free, a new client can be let
   in and gets a handler of its own.
   */
  lemma {:induction false} ClientsCanBeServed(run: seq<State>, acts: seq<Action>)
    returns (run': seq<State>, acts': seq<Action>)
    requires IsTrace(run, acts)
    requires run[|acts|].running >= NUM_INIT_SERVERS && run[|acts|].listener.Accepting?
    ensures IsTrace(run', acts') && run <= run' && acts <= acts'
    ensures run'[|acts'|] == run[|acts|].(started := true, handlers := run[|acts|].handlers + [Receiving])
  {
    TraceIsRun(run, acts);
    RunInv(run, |acts|);
    var actions := ClientLeads(run[|acts|]);
    run' := Extended(run, acts, actions, run[|acts|].(started := true, handlers := run[|acts|].handlers + [Receiving]));
    acts' := acts + actions;
  }

  /** The naming server as it starts. */
  function FirstState(): State {
    State(seq(MAX_SERVERS, _ => false), 0, 0, 0, false, false, map[], InitialSlots(MAX_CACHE_SIZE),
          Accepting, [], false)
  }

  /** One server has registered, and one client has been let in. */
  ghost function Registered(id: nat, paths: seq<Path>): State
    requires id < MAX_SERVERS
  {
    var s := FirstState();
    s.(online := s.online[id := true], index := Run(map[], R.Insertions(paths, id)), hasRoot := paths != [],
       running := 1, posts := 1, started := true, handlers := [Receiving])
  }

  lemma {:induction false} RegisteredReached(id: nat, paths: seq<Path>)
    returns (run: seq<State>, acts: seq<Action>)
    requires id < MAX_SERVERS && [] !in paths
    ensures IsTrace(run, acts) && run[|acts|] == Registered(id, paths)
  {
    var s := FirstState();
    assert Enabled(s, Register(id, paths));
    var registering := RegistrationLeads(s, id, paths);
    RegistrationRoundIsRegister(s, id, paths, true);
    var run1 := Extended([s], [], registering, RegistrationRound(s, id, paths, true));
    run, acts := ClientsCanBeServed(run1, [] + registering);
  }

  /**
   From start to answer: a storage server registers its tree, a client is let in and asks for a path.
   Its handler finds the server exactly for the files and directories of the tree, but for paths of
   hash 0, which no first lookup finds.
   */
  lemma {:induction false} FirstClientFinds(es: seq<D.Entry>, id: nat, request: Request)
    returns (run: seq<State>, acts: seq<Action>)
    requires D.WellFormed(es) && id < MAX_SERVERS
    ensures IsTrace(run, acts)
    ensures var p := request.arg1;
      run[|acts|].handlers == [Found(request, if R.IsTreePath(es, p) && Hash(p) != 0 then id else NO_SERVER)]
  {
    var paths, receive := D.Listing([], es), Receive(0, request);
    D.NoEmptyListed(es);
    var run1, acts1 := RegisteredReached(id, paths);
    TraceNext(run1, acts1, receive);
    R.RegisteredTreeResolves(es, id, request.arg1);
    run, acts := run1 + [Step(run1[|acts1|], receive)], acts1 + [receive];
  }

  lemma {:induction false} InvAlong(run: seq<State>, acts: seq<Action>, k: nat)
    requires IsTrace(run, acts) && k <= |acts|
    ensures Inv(run[k])
  {
    TraceIsRun(run, acts);
    RunInv(run, k);
  }

  // ---------- The history of a run ----------

  /** What a step does to the index and the cache. */
  ghost function EventsOf(s: State, a: Action): seq<C.Event>
    requires Enabled(s, a)
  {
    match a
    case InsertNext =>
      var l := s.listener;
      if l.rest == [] then [] else [C.Change(Insert(l.rest[0], l.id))]
    case Receive(_, request) => [C.Lookup(request.arg1)]
    case UpdateNext(h) => [C.Change(Insert(s.handlers[h].rest[0], s.handlers[h].server))]
    case Finish(h, ackSent) =>
      var request := s.handlers[h].request;
      if ackSent && request.kind.Delete? then [C.Change(PathIndex.Delete(request.arg1))] else []
    case _ => []
  }

  /** The events have led to the index and the cache of this state. */
  ghost predicate Explains(events: seq<C.Event>, s: State) {
    C.IndexAfter(events) == s.index && C.CacheAfter(MAX_CACHE_SIZE, events) == s.cache
  }

  /** A step without an event leaves the index and the cache alone. */
  lemma {:induction false} NoEvent(s: State, a: Action)
    requires Inv(s) && Enabled(s, a) && EventsOf(s, a) == []
    ensures Step(s, a).index == s.index && Step(s, a).cache == s.cache
  {
    if a.Finish? {
      assert HandlerKnown(s.online, s.hasRoot, s.handlers[a.h]);
    }
  }

  /** A step with an event does to the index and the cache what the event says. */
  lemma {:induction false} OneEvent(s: State, a: Action)
    requires Inv(s) && Enabled(s, a) && EventsOf(s, a) != []
    ensures |EventsOf(s, a)| == 1
    ensures match EventsOf(s, a)[0]
            case Change(op) => Step(s, a).index == Apply(s.index, op) && Step(s, a).cache == s.cache
            case Lookup(p) => Step(s, a).index == s.index
                              && Step(s, a).cache == LookupStep(s.cache, Hash(p), Search(s.index, p))
  {
    if a.Receive? {
      SearchKnown(s.online, s.index, a.request.arg1);
    } else if a.UpdateNext? || a.Finish? {
      assert HandlerKnown(s.online, s.hasRoot, s.handlers[a.h]);
    }
  }

  lemma {:induction false} StepExplained(s: State, a: Action, s': State, events: seq<C.Event>,
                                         events': seq<C.Event>)
    requires Inv(s) && Enabled(s, a) && s' == Step(s, a) && events' == events + EventsOf(s, a)
    ensures Explains(events, s) ==> Explains(events', s')
  {
    var more := EventsOf(s, a);
    if more == [] {
      NoEvent(s, a);
      assert events + more == events;
    } else {
      OneEvent(s, a);
      C.AfterOneMore(MAX_CACHE_SIZE, events, more[0]);
      assert more == [more[0]];
    }
  }

  /** The insertions, deletions and lookups of the first `k` steps of a run. */
  ghost function EventsAlong(run: seq<State>, acts: seq<Action>, k: nat): seq<C.Event>
    requires IsTrace(run, acts) && k <= |acts|
  {
    if k == 0 then []
    else
      assert TakenAt(run, acts, k - 1);
      EventsAlong(run, acts, k - 1) + EventsOf(run[k - 1], acts[k - 1])
  }

  lemma {:induction false} EventsStep(run: seq<State>, acts: seq<Action>, k: nat)
    requires IsTrace(run, acts) && k < |acts|
    ensures Enabled(run[k], acts[k]) && run[k + 1] == Step(run[k], acts[k])
    ensures EventsAlong(run, acts, k + 1) == EventsAlong(run, acts, k) + EventsOf(run[k], acts[k])
  {
    assert TakenAt(run, acts, k);
  }

  lemma {:induction false} FirstExplained(s: State)
    requires Init(s)
    ensures Explains([], s)
  {
  }

  lemma {:induction false} NextExplained(run: seq<State>, acts: seq<Action>, k: nat)
    requires IsTrace(run, acts) && 0 < k <= |acts|
    ensures Explains(EventsAlong(run, acts, k - 1), run[k - 1]) ==> Explains(EventsAlong(run, acts, k), run[k])
  {
    InvAlong(run, acts, k - 1);
    EventsStep(run, acts, k - 1);
    StepExplained(run[k - 1], acts[k - 1], run[k], EventsAlong(run, acts, k - 1), EventsAlong(run, acts, k));
  }

  /**
   Whatever the interleaving, the index and the cache are those of the run's own insertions,
   deletions and lookups, so all that `CacheAgreement` says of such sequences holds of the server.
   */
  lemma {:induction false} RunExplained(run: seq<State>, acts: seq<Action>, k: nat)
    requires IsTrace(run, acts) && k <= |acts|
    ensures Explains(EventsAlong(run, acts, k), run[k])
  {
    if k == 0 {
      FirstExplained(run[0]);
    } else {
      RunExplained(run, acts, k - 1);
      NextExplained(run, acts, k);
    }
  }

  /**
   The server that a handler finds for a request, in any interleaving: the one loaded last under the
   address's hash if that is still cached, else the index's.  It is the index's answer exactly when
   nothing is cached or what is cached was loaded with that answer.
   */
  lemma {:induction false} LookupExact(run: seq<State>, acts: seq<Action>, k: nat, h: nat, request: Request)
    requires IsTrace(run, acts) && k <= |acts| && Enabled(run[k], Receive(h, request))
    ensures var events := EventsAlong(run, acts, k);
      var answer := Search(run[k].index, request.arg1);
      var found := Step(run[k], Receive(h, request)).handlers[h].server;
      var hash := Hash(request.arg1);
      var cached := C.Remembered(MAX_CACHE_SIZE, events, hash);
      && |run[k].cache| == 5
      && found == (if cached then C.LoadedAnswer(MAX_CACHE_SIZE, events, hash) else answer)
      && (found == answer <==> (cached ==> C.LoadedAnswer(MAX_CACHE_SIZE, events, hash) == answer))
  {
    TraceIsRun(run, acts);
    RunExplained(run, acts, k);
    RunInv(run, k);
    SearchKnown(run[k].online, run[k].index, request.arg1);
    C.AgreementExact(MAX_CACHE_SIZE, EventsAlong(run, acts, k), request.arg1);
  }

  /** The insertions and deletions among the events. */
  ghost function OpsOf(events: seq<C.Event>): seq<Op> {
    if events == [] then []
    else
      var last := events[|events| - 1];
      OpsOf(events[..|events| - 1]) + if last.Change? then [last.op] else []
  }

  lemma {:induction false} IndexIsRunOfOps(events: seq<C.Event>)
    ensures C.IndexAfter(events) == Run(map[], OpsOf(events))
  {
    if events != [] {
      var rest := events[..|events| - 1];
      IndexIsRunOfOps(rest);
      if events[|events| - 1].Change? {
        assert OpsOf(events)[..|OpsOf(rest)|] == OpsOf(rest);
      } else {
        assert OpsOf(events) == OpsOf(rest);
      }
    }
  }

  lemma {:induction false} OpsOfSum(events: seq<C.Event>, e: C.Event)
    ensures OpsOf(events + [e]) == OpsOf(events) + if e.Change? then [e.op] else []
  {
    assert (events + [e])[..|events|] == events;
  }

  /** The servers inserted along a run are online ones, so real ones. */
  lemma {:induction false} OpsAreReal(run: seq<State>, acts: seq<Action>, k: nat)
    requires IsTrace(run, acts) && k <= |acts|
    ensures RealIds(OpsOf(EventsAlong(run, acts, k)))
  {
    if k == 0 {
      assert OpsOf([]) == [];
    } else {
      OpsAreReal(run, acts, k - 1);
      NextOpsAreReal(run, acts, k);
    }
  }

  lemma {:induction false} NextOpsAreReal(run: seq<State>, acts: seq<Action>, k: nat)
    requires IsTrace(run, acts) && 0 < k <= |acts|
    ensures RealIds(OpsOf(EventsAlong(run, acts, k - 1))) ==> RealIds(OpsOf(EventsAlong(run, acts, k)))
  {
    InvAlong(run, acts, k - 1);
    EventsStep(run, acts, k - 1);
    StepIsReal(run[k - 1], acts[k - 1], EventsAlong(run, acts, k - 1), EventsAlong(run, acts, k));
  }

  lemma {:induction false} StepIsReal(s: State, a: Action, events: seq<C.Event>, events': seq<C.Event>)
    requires Inv(s) && Enabled(s, a) && events' == events + EventsOf(s, a)
    ensures RealIds(OpsOf(events)) ==> RealIds(OpsOf(events'))
  {
    var more := EventsOf(s, a);
    if more == [] {
      assert events + more == events;
    } else {
      assert more == [more[0]];
      OpsOfSum(events, more[0]);
      RealEvent(s, a);
    }
  }

  lemma {:induction false} RealEvent(s: State, a: Action)
    requires Inv(s) && Enabled(s, a) && EventsOf(s, a) != []
    ensures var e := EventsOf(s, a)[0]; e.Change? && e.op.Insert? ==> e.op.id >= 0
  {
    if a.UpdateNext? || a.Finish? {
      assert HandlerKnown(s.online, s.hasRoot, s.handlers[a.h]);
    }
  }

  /**
   What the index answers in every state of every run, from the insertions and deletions of the run
   alone.
   */
  lemma {:induction false} IndexFromHistory(run: seq<State>, acts: seq<Action>, k: nat, p: Path)
    requires IsTrace(run, acts) && k <= |acts|
    ensures Search(run[k].index, p) == AnswerFromHistory(OpsOf(EventsAlong(run, acts, k)), p)
  {
    RunExplained(run, acts, k);
    IndexIsRunOfOps(EventsAlong(run, acts, k));
    OpsAreReal(run, acts, k);
    AnswerAfterAnyRun(OpsOf(EventsAlong(run, acts, k)), p);
  }

  // ---------- Stale answers after a deletion ----------

  /** The handler's step `k` ends the serving of a deletion of `p`. */
  ghost predicate EndsDeletion(run: seq<State>, acts: seq<Action>, k: nat, h: nat, p: Path) {
    && TakenAt(run, acts, k) && acts[k] == Finish(h, true)
    && run[k].handlers[h].request == Request(RequestType.Delete, p)
  }

  lemma {:induction false} FinishBuries(s: State, h: nat, p: Path)
    requires Inv(s) && Enabled(s, Finish(h, true)) && [] !in s.index
    requires s.handlers[h].request == Request(RequestType.Delete, p)
    ensures Step(s, Finish(h, true)).cache != [] && Search(Step(s, Finish(h, true)).index, p) == NO_SERVER
  {
    assert HandlerKnown(s.online, s.hasRoot, s.handlers[h]);
    Buried(s.index, p);
  }

  /**
   What a served deletion leaves behind, in any interleaving: the path resolves no more, and a
   lookup answers a server all the same exactly when the hash is still cached and was last loaded
   with a server; it answers that one.
   */
  lemma {:induction false} DeletionExact(run: seq<State>, acts: seq<Action>, k: nat, h: nat, p: Path)
    requires IsTrace(run, acts) && EndsDeletion(run, acts, k, h, p)
    ensures run[k + 1].cache != [] && Search(run[k + 1].index, p) == NO_SERVER
    ensures var events := EventsAlong(run, acts, k + 1);
      var cached := C.Remembered(MAX_CACHE_SIZE, events, Hash(p));
      var loaded := C.LoadedAnswer(MAX_CACHE_SIZE, events, Hash(p));
      var answer := LookupAnswer(run[k + 1].cache, Hash(p), NO_SERVER);
      && answer == (if cached then loaded else NO_SERVER)
      && (answer != NO_SERVER <==> cached && loaded != NO_SERVER)
  {
    TraceIsRun(run, acts);
    RunInv(run, k);
    RunExplained(run, acts, k);
    C.EmptyPathStaysOut(EventsAlong(run, acts, k));
    FinishBuries(run[k], h, p);
    RunExplained(run, acts, k + 1);
    C.AgreementExact(MAX_CACHE_SIZE, EventsAlong(run, acts, k + 1), p);
  }

  lemma {:induction false} Buried(m: Index, p: Path)
    requires [] !in m
    ensures Search(Deleted(m, p), p) == NO_SERVER
  {
    if Search(m, p) != NO_SERVER {
      DeleteExact(m, p, p);
    }
  }

  /**
   A deletion whose round is not interrupted always leaves a stale answer: the path resolves no more,
   and a lookup still answers the server that deleted it.
   */
  lemma {:induction false} DeletionLeavesStaleAnswer(run: seq<State>, k: nat, h: nat, request: Request,
                                                     paths: seq<Path>)
    requires IsRun(run) && k < |run| && Enabled(run[k], Receive(h, request))
    requires request.kind.Delete? && [] !in paths
    requires Step(run[k], Receive(h, request)).handlers[h].server != NO_SERVER
    ensures var found := Step(run[k], Receive(h, request)).handlers[h].server;
      var s' := HandlerRound(run[k], h, request, true, paths, true);
      && s'.cache != [] && Search(s'.index, request.arg1) == NO_SERVER
      && LookupAnswer(s'.cache, Hash(request.arg1), NO_SERVER) == found
  {
    var s, p := run[k], request.arg1;
    RunInv(run, k);
    SearchKnown(s.online, s.index, p);
    HandlerRoundIsServe(s, h, request, true, paths, true);
    C.AnswerAgain(s.cache, Hash(p), Search(s.index, p), NO_SERVER);
    var acts := RunHasTrace(run);
    RunExplained(run, acts, k);
    C.EmptyPathStaysOut(EventsAlong(run, acts, k));
    var found := Step(s, Receive(h, request)).handlers[h].server;
    LookupKnown(s.online, s.hasRoot, s.cache, Hash(p), Search(s.index, p));
    BuriedAfterUpdate(s.index, paths, found, p);
  }

  lemma {:induction false} BuriedAfterUpdate(m: Index, paths: seq<Path>, id: int, p: Path)
    requires [] !in m && id >= 0
    ensures Search(Deleted(Run(m, R.Insertions(paths, id)), p), p) == NO_SERVER
  {
    EntryAfterInserts(m, R.Insertions(paths, id), []);
    Buried(Run(m, R.Insertions(paths, id)), p);
  }

  // ---------- Lookups in between can evict the stale answer ----------

  function Numbers(first: nat, n: nat): (r: set<nat>)
    ensures |r| == n && forall x :: x in r <==> first <= x < first + n
  {
    if n == 0 then {} else Numbers(first, n - 1) + {first + n - 1}
  }

  /** The address of the one letter `n` places after 'a', and its hash. */
  function Letter(n: nat): Path
    requires n < 26
  {
    [LOWER_A + n]
  }

  lemma {:induction false} HashOfLetter(n: nat)
    requires n < 26
    ensures Hash(Letter(n)) == n
  {
    assert Letter(n)[..0] == [];
    assert Hash(Letter(n)) == HashStep(0, LOWER_A + n);
    HashStepExact(0, LOWER_A + n);
  }

  lemma {:induction false} EventsAlongPrefix(run: seq<State>, acts: seq<Action>, run': seq<State>, acts': seq<Action>,
                                             k: nat)
    requires IsTrace(run, acts) && IsTrace(run', acts') && run <= run' && acts <= acts' && k <= |acts|
    ensures EventsAlong(run', acts', k) == EventsAlong(run, acts, k)
  {
    if k > 0 {
      EventsAlongPrefix(run, acts, run', acts', k - 1);
    }
  }

  lemma {:induction false} EventsNext(run: seq<State>, acts: seq<Action>, a: Action)
    requires IsTrace(run, acts) && Enabled(run[|acts|], a)
    ensures var run', acts' := run + [Step(run[|acts|], a)], acts + [a];
      && IsTrace(run', acts')
      && EventsAlong(run', acts', |acts'|) == EventsAlong(run, acts, |acts|) + EventsOf(run[|acts|], a)
  {
    TraceNext(run, acts, a);
    EventsAlongPrefix(run, acts, run + [Step(run[|acts|], a)], acts + [a], |acts|);
  }

  /** A free handler looks an address up and is free again; nothing but the cache has changed. */
  lemma {:induction false} OneLookup(run: seq<State>, acts: seq<Action>, g: nat, address: Path)
    returns (run': seq<State>, acts': seq<Action>)
    requires IsTrace(run, acts)
    requires g < |run[|acts|].handlers| && run[|acts|].handlers[g] == Receiving
    ensures IsTrace(run', acts') && run <= run' && acts <= acts'
    ensures run'[|acts'|] == run[|acts|].(cache := run'[|acts'|].cache)
    ensures EventsAlong(run', acts', |acts'|) == EventsAlong(run, acts, |acts|) + [C.Lookup(address)]
  {
    var s, receive := run[|acts|], Receive(g, Request(Connect, address));
    TraceIsRun(run, acts);
    RunInv(run, |acts|);
    EventsNext(run, acts, receive);
    var s1 := Step(s, receive);
    StepKeepsIds(s, receive);
    DispatchKeepsIds(s1, g);
    EventsNext(run + [s1], acts + [receive], Dispatch(g));
    run', acts' := run + [s1] + [Step(s1, Dispatch(g))], acts + [receive] + [Dispatch(g)];
    assert Step(s1, Dispatch(g)).handlers == s.handlers;
  }

  /** One lookup more, as seen from another hash. */
  lemma {:induction false} SinceNext(events: seq<C.Event>, address: Path, hash: nat)
    requires Hash(address) != hash
    ensures T.Since(C.TraceOf(events + [C.Lookup(address)]), hash) == T.Since(C.TraceOf(events), hash) + {Hash(address)}
  {
    var t := C.TraceOf(events + [C.Lookup(address)]);
    assert (events + [C.Lookup(address)])[..|events|] == events;
    assert t[..|t| - 1] == C.TraceOf(events);
  }

  /** It can look up `n` addresses, none of which has this hash. */
  lemma {:induction false} OtherLookups(run: seq<State>, acts: seq<Action>, g: nat, hash: nat, first: nat, n: nat)
    returns (run': seq<State>, acts': seq<Action>)
    requires IsTrace(run, acts)
    requires g < |run[|acts|].handlers| && run[|acts|].handlers[g] == Receiving
    requires first + n <= 26 && hash !in Numbers(first, n)
    ensures IsTrace(run', acts') && run <= run' && acts <= acts'
    ensures run'[|acts'|] == run[|acts|].(cache := run'[|acts'|].cache)
    ensures Numbers(first, n) <= T.Since(C.TraceOf(EventsAlong(run', acts', |acts'|)), hash)
  {
    if n == 0 {
      run', acts' := run, acts;
    } else {
      var letter := first + n - 1;
      var run1, acts1 := OtherLookups(run, acts, g, hash, first, n - 1);
      run', acts' := OneLookup(run1, acts1, g, Letter(letter));
      HashOfLetter(letter);
      SinceNext(EventsAlong(run1, acts1, |acts1|), Letter(letter), hash);
    }
  }

  lemma {:induction false} SubsetSize(a: set<nat>, b: set<nat>)
    requires a <= b
    ensures |a| <= |b|
  {
    assert b == a + (b - a);
  }

  /** As many other hashes since the last lookup as there are slots: the hash is not cached. */
  lemma {:induction false} Forgotten(events: seq<C.Event>, hash: nat)
    requires |T.Since(C.TraceOf(events), hash)| >= MAX_CACHE_SIZE
    ensures !C.Remembered(MAX_CACHE_SIZE, events, hash)
  {
    var t := C.TraceOf(events);
    T.SinceIsRecent(t, hash);
    SubsetSize(T.Since(t, hash), T.Elements(T.Recent(t)));
    T.RecentIsByAge(t);
    T.DistinctSize(T.Recent(t));
  }

  lemma {:induction false} Evicted(run: seq<State>, acts: seq<Action>, hash: nat)
    requires IsTrace(run, acts)
    ensures |T.Since(C.TraceOf(EventsAlong(run, acts, |acts|)), hash)| >= MAX_CACHE_SIZE ==>
              !Holds(run[|acts|].cache, hash)
  {
    var events := EventsAlong(run, acts, |acts|);
    if |T.Since(C.TraceOf(events), hash)| >= MAX_CACHE_SIZE {
      Forgotten(events, hash);
      RunExplained(run, acts, |acts|);
      C.RememberedIsHeld(MAX_CACHE_SIZE, events, hash);
    }
  }

  /** Some new handler looks up as many other addresses as there are slots. */
  lemma {:induction false} EvictedByAnother(run: seq<State>, acts: seq<Action>, hash: nat)
    returns (run': seq<State>, acts': seq<Action>)
    requires IsTrace(run, acts) && Enabled(run[|acts|], Spawn)
    ensures IsTrace(run', acts') && run <= run' && acts <= acts'
    ensures run'[|acts'|].handlers == run[|acts|].handlers + [Receiving]
    ensures !Holds(run'[|acts'|].cache, hash)
  {
    var spawned := Step(run[|acts|], Spawn);
    TraceNext(run, acts, Spawn);
    var first := if hash < MAX_CACHE_SIZE then MAX_CACHE_SIZE else 0;
    run', acts' := OtherLookups(run + [spawned], acts + [Spawn], |run[|acts|].handlers|, hash, first, MAX_CACHE_SIZE);
    SubsetSize(Numbers(first, MAX_CACHE_SIZE), T.Since(C.TraceOf(EventsAlong(run', acts', |acts'|)), hash));
    Evicted(run', acts', hash);
  }

  /**
   Whatever a run has come to, a deletion about to end can still leave nothing stale behind: it does
   if enough other addresses are looked up before it ends.
   */
  lemma {:induction false} DeletionCanLeaveNothing(run: seq<State>, acts: seq<Action>, h: nat, p: Path)
    returns (run': seq<State>, acts': seq<Action>)
    requires IsTrace(run, acts) && Enabled(run[|acts|], Finish(h, true))
    requires run[|acts|].handlers[h].request == Request(RequestType.Delete, p)
    ensures IsTrace(run', acts') && run <= run' && acts < acts'
    ensures EndsDeletion(run', acts', |acts'| - 1, h, p)
    ensures !Holds(run'[|acts'|].cache, Hash(p))
    ensures LookupAnswer(run'[|acts'|].cache, Hash(p), NO_SERVER) == NO_SERVER
  {
    TraceIsRun(run, acts);
    RunInv(run, |acts|);
    var run1, acts1 := EvictedByAnother(run, acts, Hash(p));
    var finish := Finish(h, true);
    TraceNext(run1, acts1, finish);
    run', acts' := run1 + [Step(run1[|acts1|], finish)], acts1 + [finish];
    assert TakenAt(run', acts', |acts1|);
  }
}
