/**
 The cache in front of a path index that changes: what a cached answer is worth after any run of
 insertions, deletions and lookups.  Nothing tells the cache of a change to the index; when the two
 agree is read off the history.
 */
module CacheAgreement {
  import opened Bytes
  import opened PathIndex
  import opened RollingHash
  import opened LruCache
  import opened DirectoryListing
  import T = LruTheory

  datatype Event = Change(op: Op) | Lookup(address: Path)

  ghost function IndexAfter(events: seq<Event>): Index {
    if events == [] then map[]
    else
      var before := IndexAfter(events[..|events| - 1]);
      match events[|events| - 1]
      case Change(op) => Apply(before, op)
      case Lookup(_) => before
  }

  ghost function CacheAfter(capacity: nat, events: seq<Event>): (s: Slots)
    requires capacity > 0
    ensures |s| == capacity
  {
    if events == [] then InitialSlots(capacity)
    else
      var rest := events[..|events| - 1];
      match events[|events| - 1]
      case Change(_) => CacheAfter(capacity, rest)
      case Lookup(a) => LookupStep(CacheAfter(capacity, rest), Hash(a), Search(IndexAfter(rest), a))
  }

  /** What `findStorageServer` answers after these events. */
  ghost function Answer(capacity: nat, events: seq<Event>, address: Path): int
    requires capacity > 0
  {
    LookupAnswer(CacheAfter(capacity, events), Hash(address), Search(IndexAfter(events), address))
  }

  /** The lookups of a run, as `LruTheory` sees them. */
  ghost function TraceOf(events: seq<Event>): T.Trace {
    if events == [] then []
    else
      var rest := events[..|events| - 1];
      match events[|events| - 1]
      case Change(_) => TraceOf(rest)
      case Lookup(a) => TraceOf(rest) + [T.Query(Hash(a), Search(IndexAfter(rest), a))]
  }

  /** So everything `LruTheory` says of traces holds of runs. */
  lemma {:induction false} CacheIsRunOfTrace(capacity: nat, events: seq<Event>)
    requires capacity > 0
    ensures CacheAfter(capacity, events) == T.Run(capacity, TraceOf(events))
  {
    if events != [] {
      var rest := events[..|events| - 1];
      CacheIsRunOfTrace(capacity, rest);
      if events[|events| - 1].Lookup? {
        var t := TraceOf(events);
        assert t[..|t| - 1] == TraceOf(rest);
      }
    }
  }

  lemma {:induction false} AfterOneMore(capacity: nat, events: seq<Event>, e: Event)
    requires capacity > 0
    ensures var m, s := IndexAfter(events), CacheAfter(capacity, events);
      match e
      case Change(op) => IndexAfter(events + [e]) == Apply(m, op) && CacheAfter(capacity, events + [e]) == s
      case Lookup(a) => IndexAfter(events + [e]) == m
                        && CacheAfter(capacity, events + [e]) == LookupStep(s, Hash(a), Search(m, a))
  {
    assert (events + [e])[..|events|] == events;
  }

  // ---------- What the history says of hits and loads ----------

  /**
   The cache still has this hash: fewer than `capacity` distinct other hashes were looked up since
   its last lookup.  A hash 0 never looked up is there while fewer than `capacity` hashes were.
   */
  predicate StillCached(capacity: nat, t: T.Trace, hash: nat) {
    if T.LookedUp(t, hash) then |T.Since(t, hash)| < capacity else hash == 0 && |T.Recent(t)| < capacity
  }

  ghost predicate Remembered(capacity: nat, events: seq<Event>, hash: nat) {
    StillCached(capacity, TraceOf(events), hash)
  }

  lemma {:induction false} RememberedIsHeld(capacity: nat, events: seq<Event>, hash: nat)
    requires capacity > 0
    ensures Remembered(capacity, events, hash) <==> Holds(CacheAfter(capacity, events), hash)
  {
    var t := TraceOf(events);
    CacheIsRunOfTrace(capacity, events);
    if T.LookedUp(t, hash) {
      T.RepeatedLookupHits(capacity, t, hash);
    } else {
      T.FirstLookupMisses(capacity, t, hash);
    }
  }

  /** Event `j` looked up an address of this hash when the cache did not have it. */
  ghost predicate Loads(capacity: nat, events: seq<Event>, j: nat, hash: nat) {
    && j < |events| && events[j].Lookup? && Hash(events[j].address) == hash
    && !Remembered(capacity, events[..j], hash)
  }

  ghost predicate LastLoad(capacity: nat, events: seq<Event>, j: nat, hash: nat) {
    Loads(capacity, events, j, hash) && forall k :: j < k < |events| ==> !Loads(capacity, events, k, hash)
  }

  ghost predicate NeverLoaded(capacity: nat, events: seq<Event>, hash: nat) {
    forall k :: 0 <= k < |events| ==> !Loads(capacity, events, k, hash)
  }

  // ---------- Provenance ----------

  /** A slot's answer is what the index said at the miss that loaded its hash last. */
  ghost predicate Sourced(capacity: nat, events: seq<Event>, slot: Slot) {
    || (NeverLoaded(capacity, events, slot.pathHash) && slot.pathHash == 0 && slot.serverID == NO_SERVER)
    || (exists j: nat :: LastLoad(capacity, events, j, slot.pathHash)
         && slot.serverID == Search(IndexAfter(events[..j]), events[j].address))
  }

  lemma {:induction false} LoadsBefore(capacity: nat, events: seq<Event>, n: nat, k: nat, hash: nat)
    requires k < n <= |events|
    ensures Loads(capacity, events, k, hash) <==> Loads(capacity, events[..n], k, hash)
  {
    assert events[..n][..k] == events[..k];
  }

  lemma {:induction false} LastLoadNext(capacity: nat, events: seq<Event>, n: nat, j: nat, hash: nat)
    requires |events| == n + 1 && !Loads(capacity, events, n, hash)
    requires LastLoad(capacity, events[..n], j, hash)
    ensures LastLoad(capacity, events, j, hash)
    ensures events[..n][..j] == events[..j] && events[..n][j] == events[j]
  {
    LoadsBefore(capacity, events, n, j, hash);
    forall k | j < k < n ensures !Loads(capacity, events, k, hash) {
      LoadsBefore(capacity, events, n, k, hash);
    }
  }

  /** One event more changes the last load of a hash only if it loads that hash. */
  lemma {:induction false} SourcedNext(capacity: nat, events: seq<Event>, slot: Slot)
    requires events != [] && Sourced(capacity, events[..|events| - 1], slot)
    requires !Loads(capacity, events, |events| - 1, slot.pathHash)
    ensures Sourced(capacity, events, slot)
  {
    var n, h := |events| - 1, slot.pathHash;
    var rest := events[..n];
    if NeverLoaded(capacity, rest, h) {
      forall k | 0 <= k < n ensures !Loads(capacity, events, k, h) {
        LoadsBefore(capacity, events, n, k, h);
      }
    } else {
      var j: nat :| LastLoad(capacity, rest, j, h) && slot.serverID == Search(IndexAfter(rest[..j]), rest[j].address);
      LastLoadNext(capacity, events, n, j, h);
    }
  }

  /** Every slot, in every reachable state: a cached answer was once the answer of the index. */
  lemma {:induction false} Provenance(capacity: nat, events: seq<Event>, i: nat)
    requires i < capacity
    ensures Sourced(capacity, events, CacheAfter(capacity, events)[i])
  {
    if events != [] {
      var n := |events| - 1;
      var rest, last := events[..n], events[n];
      var before, slot := CacheAfter(capacity, rest), CacheAfter(capacity, events)[i];
      Provenance(capacity, rest, i);
      if last.Change? {
        SourcedNext(capacity, events, slot);
      } else {
        var h := Hash(last.address);
        RememberedIsHeld(capacity, rest, h);
        if !Holds(before, h) && i == Victim(before) {
          assert LastLoad(capacity, events, n, h);
        } else {
          assert before[i].pathHash == slot.pathHash && before[i].serverID == slot.serverID;
          assert Sourced(capacity, rest, slot) by {
            SourcedIgnoresRank(capacity, rest, before[i], slot);
          }
          SourcedNext(capacity, events, slot);
        }
      }
    }
  }

  lemma {:induction false} SourcedIgnoresRank(capacity: nat, events: seq<Event>, a: Slot, b: Slot)
    requires Sourced(capacity, events, a)
    requires a.pathHash == b.pathHash && a.serverID == b.serverID
    ensures Sourced(capacity, events, b)
  {
  }

  // ---------- Agreement ----------

  /** What the index said at the last load of this hash; no server if it was never loaded. */
  ghost function LoadedAnswer(capacity: nat, events: seq<Event>, hash: nat): int {
    if exists j: nat :: LastLoad(capacity, events, j, hash) then
      var j: nat :| LastLoad(capacity, events, j, hash);
      Search(IndexAfter(events[..j]), events[j].address)
    else NO_SERVER
  }

  lemma {:induction false} LastLoadIsUnique(capacity: nat, events: seq<Event>, j: nat, k: nat, hash: nat)
    requires LastLoad(capacity, events, j, hash) && LastLoad(capacity, events, k, hash)
    ensures j == k
  {
    assert Loads(capacity, events, j, hash) && Loads(capacity, events, k, hash);
  }

  /** A slot that holds a hash holds its loaded answer. */
  lemma {:induction false} SourcedIsLoaded(capacity: nat, events: seq<Event>, slot: Slot)
    requires Sourced(capacity, events, slot)
    ensures slot.serverID == LoadedAnswer(capacity, events, slot.pathHash)
    ensures slot.pathHash != 0 ==> exists j: nat :: LastLoad(capacity, events, j, slot.pathHash)
  {
    if j: nat, k: nat :| LastLoad(capacity, events, j, slot.pathHash) && LastLoad(capacity, events, k, slot.pathHash)
                         && slot.serverID == Search(IndexAfter(events[..j]), events[j].address)
                         && LoadedAnswer(capacity, events, slot.pathHash)
                            == Search(IndexAfter(events[..k]), events[k].address)
    {
      LastLoadIsUnique(capacity, events, j, k, slot.pathHash);
    }
  }

  /**
   The answer of the cached lookup after any run, for every address, from the history alone; and
   exactly when it is the index's.
   */
  lemma {:induction false} AgreementExact(capacity: nat, events: seq<Event>, address: Path)
    requires capacity > 0
    ensures Answer(capacity, events, address) ==
            if Remembered(capacity, events, Hash(address)) then LoadedAnswer(capacity, events, Hash(address))
            else Search(IndexAfter(events), address)
    ensures Answer(capacity, events, address) == Search(IndexAfter(events), address) <==>
            (Remembered(capacity, events, Hash(address)) ==>
               LoadedAnswer(capacity, events, Hash(address)) == Search(IndexAfter(events), address))
  {
    var s, h := CacheAfter(capacity, events), Hash(address);
    RememberedIsHeld(capacity, events, h);
    if Holds(s, h) {
      Provenance(capacity, events, HitIndex(s, h));
      SourcedIsLoaded(capacity, events, s[HitIndex(s, h)]);
    }
  }

  /** The same with the last load named: it decides whether a remembered address is answered right. */
  lemma {:induction false} AgreementAtLoad(capacity: nat, events: seq<Event>, address: Path, j: nat)
    requires capacity > 0 && LastLoad(capacity, events, j, Hash(address))
    ensures Answer(capacity, events, address) == Search(IndexAfter(events), address) <==>
            (Remembered(capacity, events, Hash(address)) ==>
               Search(IndexAfter(events[..j]), events[j].address) == Search(IndexAfter(events), address))
  {
    AgreementExact(capacity, events, address);
    var k: nat :| LastLoad(capacity, events, k, Hash(address))
                  && LoadedAnswer(capacity, events, Hash(address))
                     == Search(IndexAfter(events[..k]), events[k].address);
    LastLoadIsUnique(capacity, events, j, k, Hash(address));
  }

  /** Only `address` itself was looked up under its hash. */
  ghost predicate NoCollision(events: seq<Event>, address: Path) {
    forall k :: 0 <= k < |events| && events[k].Lookup? && Hash(events[k].address) == Hash(address)
      ==> events[k].address == address
  }

  /** A hit answers what the index said at the miss that loaded the address last. */
  lemma {:induction false} HitAnswersAsLoaded(capacity: nat, events: seq<Event>, address: Path) returns (j: nat)
    requires capacity > 0 && Hash(address) != 0 && NoCollision(events, address)
    requires Holds(CacheAfter(capacity, events), Hash(address))
    ensures LastLoad(capacity, events, j, Hash(address))
    ensures Answer(capacity, events, address) == Search(IndexAfter(events[..j]), address)
  {
    var s, h := CacheAfter(capacity, events), Hash(address);
    var i := HitIndex(s, h);
    Provenance(capacity, events, i);
    j :| LastLoad(capacity, events, j, h) && s[i].serverID == Search(IndexAfter(events[..j]), events[j].address);
  }

  /**
   The cached lookup agrees with the index, given a non-zero hash that no other looked-up address
   shares and an answer that is what it was when the address was last loaded.
   */
  lemma {:induction false} Agreement(capacity: nat, events: seq<Event>, address: Path)
    requires capacity > 0 && Hash(address) != 0 && NoCollision(events, address)
    requires forall j: nat :: LastLoad(capacity, events, j, Hash(address)) ==>
               Search(IndexAfter(events[..j]), address) == Search(IndexAfter(events), address)
    ensures Answer(capacity, events, address) == Search(IndexAfter(events), address)
  {
    AgreementExact(capacity, events, address);
    RememberedIsHeld(capacity, events, Hash(address));
    if Remembered(capacity, events, Hash(address)) {
      var j := HitAnswersAsLoaded(capacity, events, address);
      AgreementAtLoad(capacity, events, address, j);
    }
  }

  /** After event `j` only insertions of other paths, and lookups. */
  ghost predicate OnlyOtherInserts(events: seq<Event>, j: nat, address: Path) {
    forall k :: j <= k < |events| && events[k].Change? ==>
      events[k].op.Insert? && events[k].op.id >= 0 && events[k].op.path != address
  }

  lemma {:induction false} FileAnswerUnchanged(events: seq<Event>, j: nat, k: nat, address: Path)
    requires j <= k <= |events| && !EndsInSlash(address) && OnlyOtherInserts(events, j, address)
    requires Search(IndexAfter(events[..j]), address) != NO_SERVER
    ensures Search(IndexAfter(events[..k]), address) == Search(IndexAfter(events[..j]), address)
    decreases k
  {
    if j < k {
      FileAnswerUnchanged(events, j, k - 1, address);
      assert events[..k][..k - 1] == events[..k - 1];
      if events[k - 1].Change? {
        var op := events[k - 1].op;
        UnhidingExact(IndexAfter(events[..k - 1]), op.path, op.id, address);
      }
    }
  }

  /** A file path found when it was last loaded is answered right from then on, while only other paths are inserted. */
  lemma {:induction false} FoundFileStaysRight(capacity: nat, events: seq<Event>, j: nat, address: Path)
    requires capacity > 0 && !EndsInSlash(address) && OnlyOtherInserts(events, j, address)
    requires LastLoad(capacity, events, j, Hash(address)) && events[j].address == address
    requires Search(IndexAfter(events[..j]), address) != NO_SERVER
    ensures Answer(capacity, events, address) == Search(IndexAfter(events), address)
                                              == Search(IndexAfter(events[..j]), address)
  {
    FileAnswerUnchanged(events, j, |events|, address);
    assert events[..|events|] == events;
    AgreementAtLoad(capacity, events, address, j);
  }

  // ---------- Where agreement fails ----------

  lemma {:induction false} RecentGrows(t: T.Trace, q: T.Query)
    ensures |T.Recent(t)| <= |T.Recent(t + [q])|
  {
    T.NextTrace(t, q);
  }

  /** Earlier on no more hashes had been looked up. */
  lemma {:induction false} FewerHashesBefore(events: seq<Event>, k: nat)
    requires k <= |events|
    ensures |T.Recent(TraceOf(events[..k]))| <= |T.Recent(TraceOf(events))|
  {
    if k == |events| {
      assert events[..k] == events;
    } else {
      var rest := events[..|events| - 1];
      FewerHashesBefore(rest, k);
      assert rest[..k] == events[..k];
      if events[|events| - 1].Lookup? {
        var a := events[|events| - 1].address;
        RecentGrows(TraceOf(rest), T.Query(Hash(a), Search(IndexAfter(rest), a)));
      }
    }
  }

  /** Until as many hashes as slots have been looked up, an address of hash 0 matches a free slot. */
  lemma {:induction false} ZeroHashRemembered(capacity: nat, events: seq<Event>)
    requires |T.Recent(TraceOf(events))| < capacity
    ensures Remembered(capacity, events, 0)
  {
    RememberedIsHeld(capacity, events, 0);
    CacheIsRunOfTrace(capacity, events);
    T.HitExactly(capacity, TraceOf(events), 0);
  }

  /**
   So it is not found, whatever the index says of it, as long as fewer hashes than slots have been
   looked up.
   */
  lemma {:induction false} ZeroHashNotFound(capacity: nat, events: seq<Event>, p: Path)
    requires Hash(p) == 0 && |T.Recent(TraceOf(events))| < capacity
    ensures Answer(capacity, events, p) == NO_SERVER
  {
    AgreementExact(capacity, events, p);
    ZeroHashRemembered(capacity, events);
    forall k | 0 <= k < |events| ensures !Loads(capacity, events, k, 0) {
      FewerHashesBefore(events, k);
      ZeroHashRemembered(capacity, events[..k]);
    }
  }

  /** A path that a storage server can list has hash 0. */
  lemma {:induction false} ZeroHashListed()
    ensures Hash(ZERO_HASH_PATH) == 0
    ensures var tree := [File(ZERO_HASH_PATH[1..])]; WellFormed(tree) && Listing([], tree) == [ZERO_HASH_PATH]
  {
    var e := File(ZERO_HASH_PATH[1..]);
    HashCollision(ZERO_HASH_PATH + [LOWER_A]);
    assert (ZERO_HASH_PATH + [LOWER_A])[..8] == ZERO_HASH_PATH;
    assert Listing([], [e][1..]) == [];
    assert [] + [SLASH] + e.name == ZERO_HASH_PATH;
  }

  /** Such a path is registered, and the first lookup does not find it. */
  lemma {:induction false} RegisteredNotFound(capacity: nat, p: Path, id: int)
    requires capacity > 0 && id >= 0 && p != [] && Hash(p) == 0
    ensures Search(IndexAfter([Change(Insert(p, id))]), p) == id
    ensures Answer(capacity, [Change(Insert(p, id))], p) == NO_SERVER
  {
    AfterOneMore(capacity, [], Change(Insert(p, id)));
    assert [] + [Change(Insert(p, id))] == [Change(Insert(p, id))];
    assert [Change(Insert(p, id))][..0] == [];
    InsertExact(map[], p, id, p);
    ZeroHashNotFound(capacity, [Change(Insert(p, id))], p);
  }

  lemma {:induction false} EmptyPathStaysOut(events: seq<Event>)
    ensures [] !in IndexAfter(events)
  {
    if events != [] {
      EmptyPathStaysOut(events[..|events| - 1]);
    }
  }

  /** Looking an address up again answers the same, whatever the index says by then. */
  lemma {:induction false} AnswerAgain(s: Slots, hash: nat, answer: int, later: int)
    requires s != []
    ensures LookupAnswer(LookupStep(s, hash, answer), hash, later) == LookupAnswer(s, hash, answer)
  {
    var s' := LookupStep(s, hash, answer);
    if Holds(s, hash) {
      var i := HitIndex(s, hash);
      assert forall j :: 0 <= j < |s| ==> s'[j].pathHash == s[j].pathHash;
      assert HitIndex(s', hash) == i;
    } else {
      assert s'[Victim(s)] == Slot(hash, answer, 0);
      forall i | 0 <= i < |s| && s'[i].pathHash == hash ensures i == Victim(s) {
        assert i != Victim(s) ==> s'[i].pathHash == s[i].pathHash;
      }
    }
  }

  /**
   A deletion does not reach the cache.  A path is looked up before it is deleted, so after the
   deletion it resolves no more, and is still answered as it was.
   */
  lemma {:induction false} DeletedPathStillAnswered(capacity: nat, events: seq<Event>, p: Path)
    requires capacity > 0
    ensures var later := events + [Lookup(p)] + [Change(Delete(p))];
      && Search(IndexAfter(later), p) == NO_SERVER
      && Answer(capacity, later, p) == Answer(capacity, events, p)
  {
    var m := IndexAfter(events);
    AfterOneMore(capacity, events, Lookup(p));
    AfterOneMore(capacity, events + [Lookup(p)], Change(Delete(p)));
    EmptyPathStaysOut(events);
    if Search(m, p) != NO_SERVER {
      DeleteExact(m, p, p);
    }
    AnswerAgain(CacheAfter(capacity, events), Hash(p), Search(m, p), Search(Deleted(m, p), p));
  }
}
