/**
 The lookup cache in front of the path index: an array of slots whose ranks age by one at every
 lookup.  A hit resets its slot's rank; a miss replaces the first slot of greatest rank.
 */
module LruCache {
  import opened Bytes
  import opened PathIndex
  import opened RollingHash
  import Trie

  const MAX_CACHE_SIZE := 5
  const INITIAL_RANK := 1_000_000_000
  const INT_MAX := 0x7FFF_FFFF

  datatype Slot = Slot(pathHash: nat, serverID: int, rank: nat)

  type Slots = seq<Slot>

  /** The cache as `main` initialises it, for any capacity. */
  function InitialSlots(capacity: nat): Slots {
    seq(capacity, _ => Slot(0, NO_SERVER, INITIAL_RANK))
  }

  /** The initialisation loop of `main`. */
  method Initialise(lru: array<Slot>)
    modifies lru
    ensures lru[..] == InitialSlots(lru.Length)
  {
    for i := 0 to lru.Length
      invariant forall j :: 0 <= j < i ==> lru[j] == Slot(0, NO_SERVER, INITIAL_RANK)
    {
      lru[i] := Slot(0, NO_SERVER, INITIAL_RANK);
    }
  }

  function Aged(s: Slots): (r: Slots)
    ensures |r| == |s|
  {
    seq(|s|, i requires 0 <= i < |s| => s[i].(rank := s[i].rank + 1))
  }

  predicate Holds(s: Slots, hash: nat) {
    exists i :: 0 <= i < |s| && s[i].pathHash == hash
  }

  /** The first slot holding `hash`. */
  function HitIndex(s: Slots, hash: nat): (i: nat)
    requires Holds(s, hash)
    ensures i < |s| && s[i].pathHash == hash
    ensures forall j :: 0 <= j < i ==> s[j].pathHash != hash
  {
    if s[0].pathHash == hash then 0
    else
      assert forall i :: 0 < i < |s| ==> s[1..][i - 1] == s[i];
      1 + HitIndex(s[1..], hash)
  }

  ghost predicate IsVictim(s: Slots, v: nat) {
    && v < |s|
    && (forall j :: 0 <= j < |s| ==> s[j].rank <= s[v].rank)
    && (forall j :: 0 <= j < v ==> s[j].rank < s[v].rank)
  }

  /** The first slot of greatest rank. */
  function Victim(s: Slots): (v: nat)
    requires s != []
    ensures IsVictim(s, v)
  {
    var last := |s| - 1;
    if last == 0 then 0
    else
      var v := Victim(s[..last]);
      if s[v].rank < s[last].rank then last else v
  }

  /** One lookup of `hash`, where `answer` is what the path index says of the address. */
  function LookupStep(s: Slots, hash: nat, answer: int): Slots
    requires s != []
  {
    var a := Aged(s);
    if Holds(s, hash) then
      var i := HitIndex(s, hash);
      a[i := a[i].(rank := 0)]
    else
      a[Victim(s) := Slot(hash, answer, 0)]
  }

  function LookupAnswer(s: Slots, hash: nat, answer: int): int {
    if Holds(s, hash) then s[HitIndex(s, hash)].serverID else answer
  }

  /** The cached lookup, in place on the array of slots. */
  method FindStorageServer(address: Path, index: Trie.Trie, lru: array<Slot>) returns (server: int)
    requires lru.Length > 0
    requires index.Valid() && lru !in index.owner && lru as object != index
    modifies lru
    ensures lru[..] == LookupStep(old(lru[..]), Hash(address), Search(index.contents, address))
    ensures server == LookupAnswer(old(lru[..]), Hash(address), Search(index.contents, address))
    ensures index.Valid() && index.contents == old(index.contents)
  {
    var hash := ComputeHash(address);
    var hit, i := Scan(lru, hash);
    if hit {
      return lru[i].serverID;
    }
    var answer := index.Search(address);
    lru[i] := Slot(hash, answer, 0);
    return answer;
  }

  /** The loops over the slots: on a hit the slot's place, else that of the slot to replace. */
  method Scan(lru: array<Slot>, hash: nat) returns (hit: bool, place: nat)
    requires lru.Length > 0
    modifies lru
    ensures hit == Holds(old(lru[..]), hash) && place < lru.Length
    ensures var before := old(lru[..]);
      var aged := Aged(before);
      if hit then place == HitIndex(before, hash) && lru[..] == aged[place := aged[place].(rank := 0)]
      else place == Victim(before) && lru[..] == aged
  {
    ghost var before := lru[..];
    ghost var aged := Aged(before);
    AgeAll(lru);
    var maxRank, maxRankIdx := -1, -1;
    for i := 0 to lru.Length
      invariant lru[..] == aged
      invariant forall j :: 0 <= j < i ==> before[j].pathHash != hash
      invariant if i == 0 then maxRank == -1 else
                  0 <= maxRankIdx < i && maxRank == aged[maxRankIdx].rank && IsVictim(aged[..i], maxRankIdx)
    {
      VictimNext(aged, i, maxRankIdx);
      if maxRank < lru[i].rank {
        maxRank, maxRankIdx := lru[i].rank, i;
      }
      if lru[i].pathHash == hash {
        HitIsFirst(before, hash, i);
        lru[i] := lru[i].(rank := 0);
        return true, i;
      }
    }
    assert aged[..lru.Length] == aged;
    VictimAged(before, maxRankIdx);
    return false, maxRankIdx;
  }

  /** The decay loop. */
  method AgeAll(lru: array<Slot>)
    modifies lru
    ensures lru[..] == Aged(old(lru[..]))
  {
    for i := 0 to lru.Length
      invariant forall j :: 0 <= j < i ==> lru[j] == old(lru[j]).(rank := old(lru[j]).rank + 1)
      invariant forall j :: i <= j < lru.Length ==> lru[j] == old(lru[j])
    {
      lru[i] := lru[i].(rank := lru[i].rank + 1);
    }
  }

  lemma {:induction false} VictimNext(s: Slots, i: nat, v: int)
    requires i < |s| && (i == 0 || (v >= 0 && IsVictim(s[..i], v)))
    ensures IsVictim(s[..i + 1], if i == 0 || s[v].rank < s[i].rank then i else v)
  {
    if i > 0 {
      assert forall j :: 0 <= j < i ==> s[..i][j] == s[j];
    }
  }

  lemma {:induction false} HitIsFirst(s: Slots, hash: nat, i: nat)
    requires i < |s| && s[i].pathHash == hash && forall j :: 0 <= j < i ==> s[j].pathHash != hash
    ensures Holds(s, hash) && HitIndex(s, hash) == i
  {
  }

  lemma {:induction false} VictimIsUnique(s: Slots, v: nat, w: nat)
    requires IsVictim(s, v) && IsVictim(s, w)
    ensures v == w
  {
    assert s[v].rank <= s[w].rank <= s[v].rank;
  }

  lemma {:induction false} VictimAged(s: Slots, v: nat)
    requires s != [] && IsVictim(Aged(s), v)
    ensures v == Victim(s)
  {
    forall j | 0 <= j < |s| ensures Aged(s)[j].rank == s[j].rank + 1 {
    }
    VictimIsUnique(s, v, Victim(s));
  }
}
