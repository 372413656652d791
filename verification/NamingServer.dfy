/**
 The naming server as a whole: registration by the server listener, lookups and dispatch by any
 number of client handlers, one trie call, cache call or counter access per step.
 */
module NamingServer {
  import opened Bytes
  import opened PathIndex
  import opened RollingHash
  import opened LruCache
  import R = Registration
  import Trie

  const MAX_SERVERS := 10
  const NUM_INIT_SERVERS := 1

  function CountOnline(online: seq<bool>): nat {
    if online == [] then 0
    else CountOnline(online[..|online| - 1]) + if online[|online| - 1] then 1 else 0
  }

  lemma {:induction false} CountOneMore(online: seq<bool>, id: nat)
    requires id < |online| && !online[id]
    ensures CountOnline(online[id := true]) == CountOnline(online) + 1
  {
    var last := |online| - 1;
    if id == last {
      assert online[id := true][..last] == online[..last];
    } else {
      assert online[id := true][..last] == online[..last][id := true];
      CountOneMore(online[..last], id);
    }
  }

  lemma {:induction false} CountNone(online: seq<bool>)
    requires forall i :: 0 <= i < |online| ==> !online[i]
    ensures CountOnline(online) == 0
  {
    if online != [] {
      CountNone(online[..|online| - 1]);
    }
  }

  /** No server, or one that is online. */
  predicate Known(online: seq<bool>, id: int) {
    id == NO_SERVER || (0 <= id < |online| && online[id])
  }

  ghost predicate IndexKnown(online: seq<bool>, m: Index) {
    forall p :: p in m ==> Known(online, m[p])
  }

  lemma {:induction false} SearchKnown(online: seq<bool>, m: Index, p: Path)
    requires IndexKnown(online, m)
    ensures Known(online, Search(m, p))
    ensures Search(m, p) != NO_SERVER ==> m != map[]
  {
  }

  datatype RequestType = Connect | ListAll | Create | Delete

  datatype Request = Request(kind: RequestType, arg1: Path)

  /** How a request ends: refused, sent on to the server's own port, listed, or forwarded. */
  datatype Outcome = Refused | Connected | Listed | ForwardFailed | Forwarded

  /**
   What one round of a client handler leaves of the index: the paths that come back from a forwarded
   request are inserted for the server that served it, then a deleted path is buried.
   */
  ghost function RoundIndex(m: Index, request: Request, server: int, received: bool, paths: seq<Path>, ackSent: bool)
    : Index
  {
    var updated := Run(m, R.Insertions(paths, server));
    if server == NO_SERVER || request.kind.Connect? || request.kind.ListAll? || !received then m
    else if ackSent && request.kind.Delete? then Deleted(updated, request.arg1)
    else updated
  }

  // ---------- Registration and dispatch in place, one call at a time ----------

  class Registry {
    const online: array<bool>
    const index: Trie.Trie
    const lru: array<Slot>
    var numServersRunning: nat
    var posts: nat            // how often the start semaphore has been posted
    ghost var unacknowledged: nat  // servers online whose acknowledgment has not been sent

    /** The objects of the naming server are distinct from each other and from the trie's. */
    ghost predicate Apart()
      reads index
    {
      && online !in index.owner && lru !in index.owner && this !in index.owner
      && online as object != index && lru as object != index && this as object != index
      && online as object != lru
    }

    ghost predicate Valid()
      reads this, online, lru, index, index.owner.Keys
    {
      && index.Valid() && Apart() && online.Length == MAX_SERVERS && lru.Length == MAX_CACHE_SIZE
      && (forall i :: 0 <= i < lru.Length ==> SlotKnown(online[..], index.root != null, lru[i]))
      && IndexKnown(online[..], index.contents)
      && numServersRunning + unacknowledged == CountOnline(online[..])
      && posts == (if numServersRunning >= NUM_INIT_SERVERS then 1 else 0)
    }

    /** The initialisations of `main` and `initializeServerDetails`; the trie has no root yet. */
    constructor ()
      ensures Valid() && fresh(online) && fresh(lru) && fresh(index)
      ensures numServersRunning == 0 && posts == 0 && index.root == null
      ensures lru[..] == InitialSlots(MAX_CACHE_SIZE)
    {
      online := new bool[MAX_SERVERS](_ => false);
      lru := new Slot[MAX_CACHE_SIZE](_ => Slot(0, NO_SERVER, 0));
      index := new Trie.Trie();
      numServersRunning, posts, unacknowledged := 0, 0, 0;
      new;
      Initialise(lru);
      assert forall i :: 0 <= i < lru.Length ==> lru[i] == lru[..][i];
      CountNone(online[..]);
    }

    method RegisterNewServer(serverID: nat, paths: seq<Path>, ackSent: bool) returns (ok: bool)
      requires Valid() && serverID < MAX_SERVERS && [] !in paths
      modifies this, online, index, index.owner.Keys
      ensures Valid() && fresh(index.owner.Keys - old(index.owner.Keys))
      ensures ok == (!old(online[serverID]) && ackSent)
      ensures old(online[serverID]) ==>
                online[..] == old(online[..]) && index.contents == old(index.contents)
                && numServersRunning == old(numServersRunning) && posts == old(posts)
      ensures !old(online[serverID]) ==>
                online[..] == old(online[..])[serverID := true]
                && index.contents == Run(old(index.contents), R.Insertions(paths, serverID))
      ensures ok ==> numServersRunning == old(numServersRunning) + 1
      ensures ok ==> posts == old(posts) + if numServersRunning == NUM_INIT_SERVERS then 1 else 0
      ensures !ok ==> numServersRunning == old(numServersRunning) && posts == old(posts)
    {
      if online[serverID] {
        return false;
      }
      MarkOnline(serverID);
      Update(paths, serverID);
      if !ackSent {
        return false;
      }
      CountServer();
      return true;
    }

    /** An acknowledged server runs; the first NUM_INIT_SERVERS of them open the client listener. */
    method CountServer()
      requires Valid() && unacknowledged > 0
      modifies this`unacknowledged, this`numServersRunning, this`posts
      ensures Valid() && numServersRunning == old(numServersRunning) + 1
      ensures posts == old(posts) + if numServersRunning == NUM_INIT_SERVERS then 1 else 0
    {
      unacknowledged := unacknowledged - 1;
      numServersRunning := numServersRunning + 1;
      if numServersRunning == NUM_INIT_SERVERS {
        posts := posts + 1;
      }
    }

    method MarkOnline(serverID: nat)
      requires Valid() && serverID < MAX_SERVERS && !online[serverID]
      modifies online, this`unacknowledged
      ensures Valid() && online[..] == old(online[..])[serverID := true]
      ensures unacknowledged == old(unacknowledged) + 1
    {
      CountOneMore(online[..], serverID);
      online[serverID] := true;
      unacknowledged := unacknowledged + 1;
      assert online[..] == old(online[..])[serverID := true];
    }

    /**
     One round of a client handler: look the path up, then dispatch.  `received` and `newPaths` are
     what the storage server sends back to a forwarded request, `ackSent` whether its
     acknowledgment reached the client.
     */
    method ServeRequest(request: Request, received: bool, newPaths: seq<Path>, ackSent: bool)
      returns (server: int, outcome: Outcome)
      requires Valid() && [] !in newPaths
      modifies lru, index, index.owner.Keys
      ensures Valid() && fresh(index.owner.Keys - old(index.owner.Keys))
      ensures server == LookupAnswer(old(lru[..]), Hash(request.arg1), Search(old(index.contents), request.arg1))
      ensures lru[..] == LookupStep(old(lru[..]), Hash(request.arg1), Search(old(index.contents), request.arg1))
      ensures outcome == Refused <==> server == NO_SERVER
      ensures outcome != Refused ==> 0 <= server < MAX_SERVERS && online[server]
      ensures index.contents == RoundIndex(old(index.contents), request, server, received, newPaths, ackSent)
      ensures outcome != Refused ==>
                && (outcome == Connected <==> request.kind.Connect?) && (outcome == Listed <==> request.kind.ListAll?)
                && (outcome == Forwarded <==> (request.kind.Create? || request.kind.Delete?) && received && ackSent)
    {
      server := Find(request.arg1);
      if server < 0 {
        return server, Refused;
      }
      // The range check, the online check and the null root of the source cannot fail here.
      assert server < MAX_SERVERS && online[server] && index.root != null;
      if request.kind.Connect? {
        return server, Connected;
      }
      if request.kind.ListAll? {
        return server, Listed;
      }
      if !received {
        return server, ForwardFailed;
      }
      Update(newPaths, server);
      if !ackSent {
        return server, ForwardFailed;
      }
      if request.kind.Delete? {
        Bury(request.arg1);
      }
      return server, Forwarded;
    }

    /** The lookup: its answer is no server or one that is online, and then there is a root. */
    method Find(address: Path) returns (server: int)
      requires Valid()
      modifies lru
      ensures Valid() && Known(online[..], server) && (server != NO_SERVER ==> index.root != null)
      ensures server == LookupAnswer(old(lru[..]), Hash(address), Search(index.contents, address))
      ensures lru[..] == LookupStep(old(lru[..]), Hash(address), Search(index.contents, address))
    {
      SearchKnown(online[..], index.contents, address);
      ghost var slots := lru[..];
      assert forall i :: 0 <= i < |slots| ==> SlotKnown(online[..], index.root != null, slots[i]);
      LookupKnown(online[..], index.root != null, slots, Hash(address), Search(index.contents, address));
      server := FindStorageServer(address, index, lru);
      assert forall i :: 0 <= i < lru.Length ==> lru[i] == lru[..][i];
    }

    /** The paths of a new server, or those that come back from a forwarded request. */
    method Update(newPaths: seq<Path>, server: nat)
      requires Valid() && [] !in newPaths && server < MAX_SERVERS && online[server]
      modifies index, index.owner.Keys
      ensures Valid() && fresh(index.owner.Keys - old(index.owner.Keys))
      ensures index.contents == Run(old(index.contents), R.Insertions(newPaths, server))
    {
      InsertionsKnown(online[..], index.contents, newPaths, server);
      R.PopulateTrie(index, newPaths, server);
    }

    method Bury(path: Path)
      requires Valid()
      modifies index, index.owner.Keys
      ensures Valid() && index.root == old(index.root) && index.owner == old(index.owner)
      ensures index.contents == Deleted(old(index.contents), path)
    {
      index.Delete(path);
    }
  }

  lemma {:induction false} LookupKnown(online: seq<bool>, hasRoot: bool, s: Slots, hash: nat, answer: int)
    requires s != [] && forall i :: 0 <= i < |s| ==> SlotKnown(online, hasRoot, s[i])
    requires Known(online, answer) && (answer != NO_SERVER ==> hasRoot)
    ensures forall i :: 0 <= i < |s| ==> SlotKnown(online, hasRoot, LookupStep(s, hash, answer)[i])
    ensures Known(online, LookupAnswer(s, hash, answer))
    ensures LookupAnswer(s, hash, answer) != NO_SERVER ==> hasRoot
  {
    forall i | 0 <= i < |s| ensures SlotKnown(online, hasRoot, LookupStep(s, hash, answer)[i]) {
      assert SlotKnown(online, hasRoot, s[i]);
    }
  }

  predicate SlotKnown(online: seq<bool>, hasRoot: bool, slot: Slot) {
    Known(online, slot.serverID) && (slot.serverID != NO_SERVER ==> hasRoot)
  }

  lemma {:induction false} InsertionsKnown(online: seq<bool>, m: Index, paths: seq<Path>, id: int)
    requires Known(online, id)
    requires forall p :: p in m ==> Known(online, m[p])
    ensures IndexKnown(online, Run(m, R.Insertions(paths, id)))
  {
    if paths != [] {
      var before := paths[..|paths| - 1];
      assert R.Insertions(paths, id)[..|paths| - 1] == R.Insertions(before, id);
      InsertionsKnown(online, m, before, id);
    }
  }

  // ---------- Listener and handlers interleaved ----------

  datatype Listener =
    | Accepting
    | Inserting(id: nat, rest: seq<Path>)   // marked online, paths still to insert
    | Acking(id: nat)
    | Counting(id: nat)
    | Testing                               // about to compare the number of running servers

  datatype Handler =
    | Receiving
    | Found(request: Request, server: int)
    | Forwarding(request: Request, server: int, hasRoot: bool)
    | Updating(request: Request, server: int, hasRoot: bool, rest: seq<Path>)

  datatype State = State(
    online: seq<bool>,
    running: nat,
    unacknowledged: nat,
    posts: nat,
    started: bool,
    hasRoot: bool,          // whether the trie has a root
    index: Index,
    cache: Slots,
    listener: Listener,
    handlers: seq<Handler>,
    deadBranch: bool        // whether the offline or wrong-path branch, or a null root, was met
  )

  datatype Action =
    | Register(id: nat, paths: seq<Path>)
    | InsertNext
    | SendAck(ok: bool)
    | Count
    | Test
    | Start
    | Spawn
    | Receive(h: nat, request: Request)
    | Dispatch(h: nat)
    | Reply(h: nat, received: bool, paths: seq<Path>)
    | UpdateNext(h: nat)
    | Finish(h: nat, ackSent: bool)

  predicate Enabled(s: State, a: Action) {
    match a
    case Register(id, paths) => s.listener.Accepting? && id < |s.online| && [] !in paths
    case InsertNext => s.listener.Inserting?
    case SendAck(_) => s.listener.Acking?
    case Count => s.listener.Counting?
    case Test => s.listener.Testing?
    case Start => !s.started && s.posts > 0
    case Spawn => s.started
    case Receive(h, _) => h < |s.handlers| && s.handlers[h].Receiving? && s.cache != []
    case Dispatch(h) => h < |s.handlers| && s.handlers[h].Found?
    case Reply(h, _, paths) => h < |s.handlers| && s.handlers[h].Forwarding? && [] !in paths
    case UpdateNext(h) => h < |s.handlers| && s.handlers[h].Updating? && s.handlers[h].rest != []
    case Finish(h, _) => h < |s.handlers| && s.handlers[h].Updating? && s.handlers[h].rest == []
  }

  /** Where `handleClientRequest` sends a looked-up request, and whether it met a dead branch on the way. */
  function Routed(s: State, request: Request, server: int): (r: (Handler, bool)) {
    if server < 0 then (Receiving, false)
    else if server >= |s.online| || !s.online[server] then (Receiving, true)
    else if request.kind.Connect? || request.kind.ListAll? then (Receiving, !s.hasRoot)
    else (Forwarding(request, server, s.hasRoot), !s.hasRoot)
  }

  ghost function Step(s: State, a: Action): State
    requires Enabled(s, a)
  {
    match a
    case Register(id, paths) =>
      if s.online[id] then s else s.(online := s.online[id := true], listener := Inserting(id, paths))
    case InsertNext =>
      var l := s.listener;
      if l.rest == [] then s.(listener := Acking(l.id))
      else s.(index := Inserted(s.index, l.rest[0], l.id), hasRoot := true, listener := Inserting(l.id, l.rest[1..]))
    case SendAck(ok) =>
      if ok then s.(listener := Counting(s.listener.id))
      else s.(listener := Accepting, unacknowledged := s.unacknowledged + 1)
    case Count => s.(running := s.running + 1, listener := Testing)
    case Test =>
      s.(posts := s.posts + (if s.running == NUM_INIT_SERVERS then 1 else 0), listener := Accepting)
    case Start => s.(started := true)
    case Spawn => s.(handlers := s.handlers + [Receiving])
    case Receive(h, request) =>
      var answer := if s.hasRoot then Search(s.index, request.arg1) else NO_SERVER;
      s.(cache := LookupStep(s.cache, Hash(request.arg1), answer),
         handlers := s.handlers[h := Found(request, LookupAnswer(s.cache, Hash(request.arg1), answer))])
    case Dispatch(h) =>
      var (next, dead) := Routed(s, s.handlers[h].request, s.handlers[h].server);
      s.(handlers := s.handlers[h := next], deadBranch := s.deadBranch || dead)
    case Reply(h, received, paths) =>
      var f := s.handlers[h];
      s.(handlers := s.handlers[h := if received then Updating(f.request, f.server, f.hasRoot, paths) else Receiving])
    case UpdateNext(h) =>
      // Without a root the handler would insert into a trie of its own.
      var f := s.handlers[h];
      s.(index := if f.hasRoot then Inserted(s.index, f.rest[0], f.server) else s.index,
         handlers := s.handlers[h := f.(rest := f.rest[1..])])
    case Finish(h, ackSent) =>
      var f := s.handlers[h];
      s.(index := if ackSent && f.hasRoot && f.request.kind.Delete? then Deleted(s.index, f.request.arg1) else s.index,
         handlers := s.handlers[h := Receiving])
  }

  ghost predicate Init(s: State) {
    && |s.online| == MAX_SERVERS && (forall i :: 0 <= i < |s.online| ==> !s.online[i])
    && s.running == s.unacknowledged == s.posts == 0
    && !s.started && !s.hasRoot && s.index == map[]
    && s.cache == InitialSlots(MAX_CACHE_SIZE)
    && s.listener == Accepting && s.handlers == [] && !s.deadBranch
  }

  ghost predicate Next(s: State, s': State) {
    exists a :: Enabled(s, a) && s' == Step(s, a)
  }

  ghost predicate IsRun(run: seq<State>) {
    && run != [] && Init(run[0])
    && forall j, k {:trigger Next(run[j], run[k])} :: 0 <= j && k == j + 1 < |run| ==> Next(run[j], run[k])
  }

  // ---------- The invariant ----------

  /** Registrations that have marked their server online and are not yet counted. */
  function Pending(l: Listener): nat {
    if l.Inserting? || l.Acking? || l.Counting? then 1 else 0
  }

  ghost predicate CountsFit(s: State) {
    && |s.online| == MAX_SERVERS
    && s.running + s.unacknowledged + Pending(s.listener) == CountOnline(s.online)
    && (s.listener.Testing? ==> s.running >= 1)
    && s.posts == (if s.running >= NUM_INIT_SERVERS && !(s.listener.Testing? && s.running == NUM_INIT_SERVERS)
                   then 1 else 0)
    && (s.started ==> s.posts == 1)
    && (s.handlers != [] ==> s.started)
  }

  predicate ListenerKnown(online: seq<bool>, l: Listener) {
    match l
    case Inserting(id, _) => id < |online| && online[id]
    case Acking(id) => id < |online| && online[id]
    case Counting(id) => id < |online| && online[id]
    case _ => true
  }

  /** A handler is past the lookup only with a known server, and past dispatch only with a root. */
  predicate HandlerKnown(online: seq<bool>, hasRoot: bool, h: Handler) {
    match h
    case Receiving => true
    case Found(_, id) => Known(online, id) && (id != NO_SERVER ==> hasRoot)
    case Forwarding(_, id, root) => id != NO_SERVER && Known(online, id) && root && hasRoot
    case Updating(_, id, root, _) => id != NO_SERVER && Known(online, id) && root && hasRoot
  }

  ghost predicate IdsKnown(s: State) {
    && IndexKnown(s.online, s.index) && (s.index != map[] ==> s.hasRoot)
    && (forall i :: 0 <= i < |s.cache| ==> SlotKnown(s.online, s.hasRoot, s.cache[i]))
    && ListenerKnown(s.online, s.listener)
    && (forall h :: 0 <= h < |s.handlers| ==> HandlerKnown(s.online, s.hasRoot, s.handlers[h]))
  }

  ghost predicate Inv(s: State) {
    CountsFit(s) && IdsKnown(s) && s.cache != [] && !s.deadBranch
  }

  lemma {:induction false} InitInv(s: State)
    requires Init(s)
    ensures Inv(s)
  {
    CountNone(s.online);
  }

  /** A handler's step leaves all that is counted alone. */
  lemma {:induction false} HandlerKeepsCounts(s: State, a: Action)
    requires CountsFit(s) && Enabled(s, a)
    requires a.Receive? || a.Dispatch? || a.Reply? || a.UpdateNext? || a.Finish?
    ensures CountsFit(Step(s, a))
  {
    assert Step(s, a).listener == s.listener && |Step(s, a).handlers| == |s.handlers|;
  }

  lemma {:induction false} StepKeepsCounts(s: State, a: Action)
    requires CountsFit(s) && Enabled(s, a)
    ensures CountsFit(Step(s, a))
  {
    if a.Register? {
      RegisterKeepsCounts(s, a.id, a.paths);
    } else if a.Receive? || a.Dispatch? || a.Reply? || a.UpdateNext? || a.Finish? {
      HandlerKeepsCounts(s, a);
    } else {
      assert Step(s, a).online == s.online;
    }
  }

  lemma {:induction false} RegisterKeepsCounts(s: State, id: nat, paths: seq<Path>)
    requires CountsFit(s) && Enabled(s, Register(id, paths))
    ensures CountsFit(Step(s, Register(id, paths)))
  {
    if !s.online[id] {
      CountOneMore(s.online, id);
    }
  }

  lemma {:induction false} ReceiveKeepsIds(s: State, h: nat, request: Request)
    requires IdsKnown(s) && Enabled(s, Receive(h, request))
    ensures IdsKnown(Step(s, Receive(h, request)))
  {
    SearchKnown(s.online, s.index, request.arg1);
    var answer := if s.hasRoot then Search(s.index, request.arg1) else NO_SERVER;
    LookupKnown(s.online, s.hasRoot, s.cache, Hash(request.arg1), answer);
  }

  lemma {:induction false} DispatchKeepsIds(s: State, h: nat)
    requires IdsKnown(s) && Enabled(s, Dispatch(h))
    ensures IdsKnown(Step(s, Dispatch(h))) && Step(s, Dispatch(h)).deadBranch == s.deadBranch
  {
    assert HandlerKnown(s.online, s.hasRoot, s.handlers[h]);
  }

  lemma {:induction false} UpdateKeepsIds(s: State, a: Action)
    requires IdsKnown(s) && Enabled(s, a) && (a.Reply? || a.UpdateNext? || a.Finish?)
    ensures IdsKnown(Step(s, a))
  {
    assert HandlerKnown(s.online, s.hasRoot, s.handlers[a.h]);
  }

  lemma {:induction false} ListenerKeepsIds(s: State, a: Action)
    requires IdsKnown(s) && Enabled(s, a)
    requires a.Register? || a.InsertNext? || a.SendAck? || a.Count? || a.Test? || a.Start? || a.Spawn?
    ensures IdsKnown(Step(s, a))
  {
    var s' := Step(s, a);
    forall id | Known(s.online, id) ensures Known(s'.online, id) {
    }
    forall h | 0 <= h < |s.handlers| ensures HandlerKnown(s'.online, s'.hasRoot, s.handlers[h]) {
      assert HandlerKnown(s.online, s.hasRoot, s.handlers[h]);
    }
    forall i | 0 <= i < |s.cache| ensures SlotKnown(s'.online, s'.hasRoot, s.cache[i]) {
      assert SlotKnown(s.online, s.hasRoot, s.cache[i]);
    }
  }

  lemma {:induction false} NextInv(s: State, s': State)
    requires Inv(s) && Next(s, s')
    ensures Inv(s')
  {
    var a :| Enabled(s, a) && s' == Step(s, a);
    StepKeepsCounts(s, a);
    StepKeepsIds(s, a);
  }

  lemma {:induction false} StepKeepsIds(s: State, a: Action)
    requires IdsKnown(s) && Enabled(s, a)
    ensures IdsKnown(Step(s, a)) && Step(s, a).deadBranch == s.deadBranch && |Step(s, a).cache| == |s.cache|
  {
    match a {
      case Receive(h, request) => ReceiveKeepsIds(s, h, request);
      case Dispatch(h) => DispatchKeepsIds(s, h);
      case Reply(_, _, _) => UpdateKeepsIds(s, a);
      case UpdateNext(_) => UpdateKeepsIds(s, a);
      case Finish(_, _) => UpdateKeepsIds(s, a);
      case _ => ListenerKeepsIds(s, a);
    }
  }

  lemma {:induction false} StepOfRun(run: seq<State>, k: nat)
    requires IsRun(run) && k + 1 < |run|
    ensures Next(run[k], run[k + 1])
  {
  }

  lemma {:induction false} RunInv(run: seq<State>, k: nat)
    requires IsRun(run) && k < |run|
    ensures Inv(run[k])
  {
    if k == 0 {
      InitInv(run[0]);
    } else {
      RunInv(run, k - 1);
      StepOfRun(run, k - 1);
      NextInv(run[k - 1], run[k]);
    }
  }

  // ---------- Safety over whole runs ----------

  /**
   In every state of every run: the running servers are the online ones, save those whose
   registration is under way or could not be acknowledged; the start semaphore has been posted
   once, exactly if enough servers run; clients are served only after that.
   */
  lemma {:induction false} RegistrationSafety(run: seq<State>, k: nat)
    requires IsRun(run) && k < |run|
    ensures var s := run[k];
      && s.running + s.unacknowledged + Pending(s.listener) == CountOnline(s.online)
      && s.posts <= 1
      && (s.listener.Accepting? ==> (s.posts == 1 <==> s.running >= NUM_INIT_SERVERS))
      && (s.handlers != [] ==> s.posts == 1 && s.running >= NUM_INIT_SERVERS)
  {
    RunInv(run, k);
  }

  predicate IsOnline(s: State, id: int) {
    0 <= id < |s.online| && s.online[id]
  }

  /** The server ids that the naming server holds anywhere are those of online servers. */
  lemma {:induction false} IdsAreOnline(run: seq<State>, k: nat, p: Path, i: nat)
    requires IsRun(run) && k < |run|
    ensures |run[k].online| == 10
    ensures p in run[k].index && run[k].index[p] != NO_SERVER ==> IsOnline(run[k], run[k].index[p])
    ensures i < |run[k].cache| && run[k].cache[i].serverID != NO_SERVER ==> IsOnline(run[k], run[k].cache[i].serverID)
  {
    RunInv(run, k);
    assert i < |run[k].cache| ==> SlotKnown(run[k].online, run[k].hasRoot, run[k].cache[i]);
  }

  /**
   Dispatch never meets an offline server, an id out of range or a missing root: a request whose
   lookup answered a server is served by it, whatever ran in between.
   */
  lemma {:induction false} DispatchSafety(run: seq<State>, k: nat, h: nat)
    requires IsRun(run) && k < |run|
    ensures !run[k].deadBranch
    ensures h < |run[k].handlers| && run[k].handlers[h].Found? && run[k].handlers[h].server != NO_SERVER ==>
              IsOnline(run[k], run[k].handlers[h].server) && run[k].hasRoot
  {
    RunInv(run, k);
    assert h < |run[k].handlers| ==> HandlerKnown(run[k].online, run[k].hasRoot, run[k].handlers[h]);
  }

  lemma {:induction false} OnlineAfter(s: State, a: Action)
    requires Enabled(s, a)
    ensures Step(s, a).online == if a.Register? && !s.online[a.id] then s.online[a.id := true] else s.online
  {
  }

  lemma {:induction false} NextKeepsOnline(s: State, s': State, id: int)
    requires Next(s, s') && IsOnline(s, id)
    ensures IsOnline(s', id)
  {
    var a :| Enabled(s, a) && s' == Step(s, a);
    OnlineAfter(s, a);
  }

  lemma {:induction false} OnlineSize(run: seq<State>, k: nat)
    requires IsRun(run) && k < |run|
    ensures |run[k].online| == MAX_SERVERS
  {
    RunInv(run, k);
  }

  /** A registered server stays online for the rest of the run. */
  lemma {:induction false} OnlineForGood(run: seq<State>, j: nat, k: nat, id: nat)
    requires IsRun(run) && j <= k < |run| && id < MAX_SERVERS
    ensures |run[j].online| == |run[k].online| == MAX_SERVERS
    ensures run[j].online[id] ==> run[k].online[id]
    decreases k
  {
    OnlineSize(run, j);
    OnlineSize(run, k);
    if j < k {
      OnlineForGood(run, j, k - 1, id);
      StepOfRun(run, k - 1);
      if IsOnline(run[k - 1], id) {
        NextKeepsOnline(run[k - 1], run[k], id);
      }
    }
  }

  // ---------- Nobody waits for anybody ----------

  /**
   In every state of every run the server listener can go on, with whatever server and paths come in
   and whatever becomes of its acknowledgment; clients are let in from the first post on.
   */
  lemma {:induction false} ListenerCanGoOn(run: seq<State>, k: nat, id: nat, paths: seq<Path>, ok: bool)
    requires IsRun(run) && k < |run| && id < 10 && [] !in paths
    ensures match run[k].listener
      case Accepting => Enabled(run[k], Register(id, paths))
      case Inserting(_, _) => Enabled(run[k], InsertNext)
      case Acking(_) => Enabled(run[k], SendAck(ok))
      case Counting(_) => Enabled(run[k], Count)
      case Testing => Enabled(run[k], Test)
    ensures run[k].posts > 0 ==> Enabled(run[k], if run[k].started then Spawn else Start)
  {
    RunInv(run, k);
  }

  /** So can every handler, whatever its client asks, whatever is replied and whatever is acknowledged. */
  lemma {:induction false} HandlerCanGoOn(run: seq<State>, k: nat, h: nat, request: Request, paths: seq<Path>, ok: bool)
    requires IsRun(run) && k < |run| && h < |run[k].handlers| && [] !in paths
    ensures match run[k].handlers[h]
      case Receiving => Enabled(run[k], Receive(h, request))
      case Found(_, _) => Enabled(run[k], Dispatch(h))
      case Forwarding(_, _, _) => Enabled(run[k], Reply(h, ok, paths))
      case Updating(_, _, _, rest) => Enabled(run[k], if rest == [] then Finish(h, ok) else UpdateNext(h))
  {
    RunInv(run, k);
  }

  // ---------- Steps without interruption are the methods of `Registry` ----------

  lemma {:induction false} InsertionsFromFront(m: Index, paths: seq<Path>, id: int)
    requires paths != []
    ensures Run(m, R.Insertions(paths, id)) == Run(Inserted(m, paths[0], id), R.Insertions(paths[1..], id))
  {
    var ops := R.Insertions(paths, id);
    assert ops[1..] == R.Insertions(paths[1..], id);
    RunFromFront(m, ops);
  }

  /** The listener inserting all its paths. */
  ghost function InsertAll(s: State): (s': State)
    requires s.listener.Inserting?
    ensures s'.listener == Acking(s.listener.id)
    decreases |s.listener.rest|
  {
    if s.listener.rest == [] then Step(s, InsertNext) else InsertAll(Step(s, InsertNext))
  }

  lemma {:induction false} InsertAllInserts(s: State)
    requires s.listener.Inserting?
    ensures InsertAll(s).index == Run(s.index, R.Insertions(s.listener.rest, s.listener.id))
    ensures InsertAll(s) == s.(index := InsertAll(s).index, hasRoot := s.hasRoot || s.listener.rest != [],
                               listener := Acking(s.listener.id))
    decreases |s.listener.rest|
  {
    if s.listener.rest != [] {
      InsertionsFromFront(s.index, s.listener.rest, s.listener.id);
      InsertAllInserts(Step(s, InsertNext));
    }
  }

  /** A whole registration of a server not yet online, step by step. */
  ghost function RegistrationRound(s: State, id: nat, paths: seq<Path>, ackSent: bool): State
    requires Enabled(s, Register(id, paths)) && !s.online[id]
  {
    var acked := Step(InsertAll(Step(s, Register(id, paths))), SendAck(ackSent));
    if ackSent then Step(Step(acked, Count), Test) else acked
  }

  /** It has the effect that `Registry.RegisterNewServer` promises. */
  lemma {:induction false} RegistrationRoundIsRegister(s: State, id: nat, paths: seq<Path>, ackSent: bool)
    requires Enabled(s, Register(id, paths)) && !s.online[id]
    ensures var acks := if ackSent then 1 else 0;
      RegistrationRound(s, id, paths, ackSent) == s.(
        online := s.online[id := true],
        index := Run(s.index, R.Insertions(paths, id)),
        hasRoot := s.hasRoot || paths != [],
        running := s.running + acks,
        unacknowledged := s.unacknowledged + 1 - acks,
        posts := s.posts + if ackSent && s.running + 1 == NUM_INIT_SERVERS then 1 else 0)
  {
    InsertAllInserts(Step(s, Register(id, paths)));
  }

  /** A server that is online already is refused. */
  lemma {:induction false} KnownServerIsRefused(s: State, id: nat, paths: seq<Path>)
    requires Enabled(s, Register(id, paths)) && s.online[id]
    ensures Step(s, Register(id, paths)) == s
  {
  }

  /** A handler inserting all the paths of a reply. */
  ghost function UpdateAll(s: State, h: nat): (s': State)
    requires h < |s.handlers| && s.handlers[h].Updating?
    ensures |s'.handlers| == |s.handlers| && s'.handlers[h] == s.handlers[h].(rest := [])
    decreases |s.handlers[h].rest|
  {
    if s.handlers[h].rest == [] then s else UpdateAll(Step(s, UpdateNext(h)), h)
  }

  lemma {:induction false} UpdateAllInserts(s: State, h: nat)
    requires h < |s.handlers| && s.handlers[h].Updating? && s.handlers[h].hasRoot
    ensures var f := s.handlers[h];
      UpdateAll(s, h) == s.(index := Run(s.index, R.Insertions(f.rest, f.server)),
                            handlers := s.handlers[h := f.(rest := [])])
    decreases |s.handlers[h].rest|
  {
    if s.handlers[h].rest != [] {
      InsertionsFromFront(s.index, s.handlers[h].rest, s.handlers[h].server);
      UpdateAllInserts(Step(s, UpdateNext(h)), h);
    }
  }

  /** A whole round of a handler, step by step. */
  ghost function HandlerRound(s: State, h: nat, request: Request, received: bool, paths: seq<Path>, ackSent: bool)
    : State
    requires Enabled(s, Receive(h, request)) && [] !in paths
  {
    var dispatched := Step(Step(s, Receive(h, request)), Dispatch(h));
    if !dispatched.handlers[h].Forwarding? then dispatched
    else
      var replied := Step(dispatched, Reply(h, received, paths));
      if !received then replied else Step(UpdateAll(replied, h), Finish(h, ackSent))
  }

  lemma {:induction false} ForwardedRound(s: State, h: nat, received: bool, paths: seq<Path>, ackSent: bool)
    requires h < |s.handlers| && s.handlers[h].Forwarding? && s.handlers[h].hasRoot && [] !in paths
    ensures var f, replied := s.handlers[h], Step(s, Reply(h, received, paths));
      received ==>
        var s' := Step(UpdateAll(replied, h), Finish(h, ackSent));
        var updated := Run(s.index, R.Insertions(paths, f.server));
        s' == s.(index := if ackSent && f.request.kind.Delete? then Deleted(updated, f.request.arg1) else updated,
                 handlers := s.handlers[h := Receiving])
  {
    if received {
      UpdateAllInserts(Step(s, Reply(h, received, paths)), h);
    }
  }

  /** It has the effect that `Registry.ServeRequest` promises. */
  lemma {:induction false} HandlerRoundIsServe(s: State, h: nat, request: Request, received: bool, paths: seq<Path>,
                                               ackSent: bool)
    requires Inv(s) && Enabled(s, Receive(h, request)) && [] !in paths
    ensures var s' := HandlerRound(s, h, request, received, paths, ackSent);
      var answer := Search(s.index, request.arg1);
      var server := LookupAnswer(s.cache, Hash(request.arg1), answer);
      s' == s.(cache := LookupStep(s.cache, Hash(request.arg1), answer),
               index := RoundIndex(s.index, request, server, received, paths, ackSent))
  {
    SearchKnown(s.online, s.index, request.arg1);
    var looked := Step(s, Receive(h, request));
    StepKeepsIds(s, Receive(h, request));
    assert HandlerKnown(looked.online, looked.hasRoot, looked.handlers[h]);
    var dispatched := Step(looked, Dispatch(h));
    assert s.handlers[h := Receiving] == s.handlers;
    if dispatched.handlers[h].Forwarding? {
      ForwardedRound(dispatched, h, received, paths, ackSent);
    }
  }

  // ---------- The rounds as runs ----------

  ghost predicate Leads(s: State, actions: seq<Action>, s': State)
    decreases |actions|
  {
    if actions == [] then s == s' else Enabled(s, actions[0]) && Leads(Step(s, actions[0]), actions[1..], s')
  }

  lemma {:induction false} FromEnd(s: State, a: Action, actions: seq<Action>, s': State)
    requires Enabled(s, a) && Leads(Step(s, a), actions, s')
    ensures Leads(s, [a] + actions, s')
  {
    assert ([a] + actions)[1..] == actions;
  }

  lemma {:induction false} Joined(s: State, a: seq<Action>, between: State, b: seq<Action>, s': State)
    requires Leads(s, a, between) && Leads(between, b, s')
    ensures Leads(s, a + b, s')
    decreases |a|
  {
    if a == [] {
      assert a + b == b;
    } else {
      Joined(Step(s, a[0]), a[1..], between, b, s');
      assert (a + b)[1..] == a[1..] + b;
    }
  }

  lemma {:induction false} InsertAllLeads(s: State) returns (actions: seq<Action>)
    requires s.listener.Inserting?
    ensures Leads(s, actions, InsertAll(s))
    decreases |s.listener.rest|
  {
    actions := [];
    if s.listener.rest != [] {
      actions := InsertAllLeads(Step(s, InsertNext));
    }
    FromEnd(s, InsertNext, actions, InsertAll(s));
    actions := [InsertNext] + actions;
  }

  /** The listener can register a server whenever it is free. */
  lemma {:induction false} RegistrationLeads(s: State, id: nat, paths: seq<Path>) returns (actions: seq<Action>)
    requires Enabled(s, Register(id, paths)) && !s.online[id]
    ensures Leads(s, actions, RegistrationRound(s, id, paths, true))
  {
    var s1 := Step(s, Register(id, paths));
    var s2 := InsertAll(s1);
    var s3 := Step(s2, SendAck(true));
    var s4 := Step(s3, Count);
    var s5 := Step(s4, Test);
    var inserting := InsertAllLeads(s1);
    FromEnd(s4, Test, [], s5);
    FromEnd(s3, Count, [Test], s5);
    FromEnd(s2, SendAck(true), [Count, Test], s5);
    Joined(s1, inserting, s2, [SendAck(true), Count, Test], s5);
    FromEnd(s, Register(id, paths), inserting + [SendAck(true), Count, Test], s5);
    actions := [Register(id, paths)] + (inserting + [SendAck(true), Count, Test]);
  }

  /** Once enough servers run, clients are let in and a new one gets its handler. */
  lemma {:induction false} ClientLeads(s: State) returns (actions: seq<Action>)
    requires Inv(s) && s.running >= NUM_INIT_SERVERS && s.listener.Accepting?
    ensures Leads(s, actions, s.(started := true, handlers := s.handlers + [Receiving]))
  {
    var begun := s.(started := true);
    var s' := Step(begun, Spawn);
    FromEnd(begun, Spawn, [], s');
    if s.started {
      actions := [Spawn];
      assert begun == s;
    } else {
      actions := [Start] + [Spawn];
      FromEnd(s, Start, [Spawn], s');
    }
  }
}
