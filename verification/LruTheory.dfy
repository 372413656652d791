/**
 What the lookup cache holds after any trace of lookups, for any capacity: the most recently
 used hashes.  `Recent` is the reference: the distinct hashes of the trace, latest use first.
 */
module LruTheory {
  import opened PathIndex
  import opened LruCache

  /** One lookup: the hash of the address and what the path index answers at that moment. */
  datatype Query = Query(hash: nat, answer: int)

  type Trace = seq<Query>

  function Run(capacity: nat, t: Trace): (s: Slots)
    requires capacity > 0
    ensures |s| == capacity
  {
    if t == [] then InitialSlots(capacity)
    else
      var q := t[|t| - 1];
      LookupStep(Run(capacity, t[..|t| - 1]), q.hash, q.answer)
  }

  // ---------- The reference: recency order ----------

  function Position(s: seq<nat>, h: nat): (k: nat)
    requires h in s
    ensures k < |s| && s[k] == h
    ensures forall j :: 0 <= j < k ==> s[j] != h
  {
    if s[0] == h then 0 else 1 + Position(s[1..], h)
  }

  function Without(s: seq<nat>, h: nat): seq<nat> {
    if h in s then s[..Position(s, h)] + s[Position(s, h) + 1..] else s
  }

  function MovedToFront(s: seq<nat>, h: nat): seq<nat> {
    [h] + Without(s, h)
  }

  function Recent(t: Trace): seq<nat> {
    if t == [] then [] else MovedToFront(Recent(t[..|t| - 1]), t[|t| - 1].hash)
  }

  ghost predicate Distinct(s: seq<nat>) {
    forall i, j :: 0 <= i < j < |s| ==> s[i] != s[j]
  }

  predicate LookedUp(t: Trace, h: nat) {
    exists k :: 0 <= k < |t| && t[k].hash == h
  }

  /** The number of lookups since the last one of `h`. */
  function Age(t: Trace, h: nat): nat {
    if t == [] || t[|t| - 1].hash == h then 0 else 1 + Age(t[..|t| - 1], h)
  }

  /** Where the entry at place `i > 0` of `MovedToFront(s, h)` stood in `s`. */
  function OldPlace(s: seq<nat>, h: nat, i: nat): int {
    if h in s && Position(s, h) < i then i else i - 1
  }

  lemma {:induction false} MovedToFrontAt(s: seq<nat>, h: nat, i: nat)
    requires Distinct(s) && 0 < i < |MovedToFront(s, h)|
    ensures 0 <= OldPlace(s, h, i) < |s|
    ensures MovedToFront(s, h)[i] == s[OldPlace(s, h, i)] != h
  {
    var w := Without(s, h);
    assert MovedToFront(s, h)[i] == w[i - 1];
    if h in s {
      var p := Position(s, h);
      assert w[i - 1] == if i - 1 < p then s[i - 1] else s[i];
      assert s[p] == h;
    }
  }

  lemma {:induction false} MovedToFrontMembers(s: seq<nat>, h: nat)
    ensures forall x :: x in MovedToFront(s, h) <==> x == h || x in s
  {
    var w := Without(s, h);
    forall x | x in s && x != h ensures x in w {
      var k :| 0 <= k < |s| && s[k] == x;
      if h in s {
        var p := Position(s, h);
        assert w[if p < k then k - 1 else k] == x;
      }
    }
  }

  lemma {:induction false} MovedToFrontIsDistinct(s: seq<nat>, h: nat)
    requires Distinct(s)
    ensures Distinct(MovedToFront(s, h))
    ensures forall x :: x in MovedToFront(s, h) <==> x == h || x in s
  {
    var r := MovedToFront(s, h);
    MovedToFrontMembers(s, h);
    forall i, j | 0 <= i < j < |r| ensures r[i] != r[j] {
      MovedToFrontAt(s, h, j);
      if i > 0 {
        MovedToFrontAt(s, h, i);
      }
    }
  }

  lemma {:induction false} LookedUpNext(t: Trace, x: nat)
    requires t != []
    ensures LookedUp(t, x) <==> x == t[|t| - 1].hash || LookedUp(t[..|t| - 1], x)
  {
    assert forall k :: 0 <= k < |t| - 1 ==> t[k] == t[..|t| - 1][k];
  }

  /** An entry that is not at the front is one lookup older than it was. */
  lemma {:induction false} OlderByOne(t: Trace, i: nat)
    requires t != [] && Distinct(Recent(t[..|t| - 1])) && 0 < i < |Recent(t)|
    ensures var before, h := t[..|t| - 1], t[|t| - 1].hash;
      var k := OldPlace(Recent(before), h, i);
      0 <= k < |Recent(before)| && Age(t, Recent(t)[i]) == 1 + Age(before, Recent(before)[k])
  {
    MovedToFrontAt(Recent(t[..|t| - 1]), t[|t| - 1].hash, i);
  }

  /** `Recent` lists each looked-up hash once, in strictly increasing age. */
  lemma {:induction false} RecentIsByAge(t: Trace)
    ensures Distinct(Recent(t))
    ensures forall h :: h in Recent(t) <==> LookedUp(t, h)
    ensures forall i, j :: 0 <= i < j < |Recent(t)| ==> Age(t, Recent(t)[i]) < Age(t, Recent(t)[j])
  {
    if t != [] {
      var before, h := t[..|t| - 1], t[|t| - 1].hash;
      var r := Recent(t);
      RecentIsByAge(before);
      MovedToFrontIsDistinct(Recent(before), h);
      forall x ensures LookedUp(t, x) <==> x == h || LookedUp(before, x) {
        LookedUpNext(t, x);
      }
      forall i, j | 0 <= i < j < |r| ensures Age(t, r[i]) < Age(t, r[j]) {
        OlderByOne(t, j);
        if i > 0 {
          OlderByOne(t, i);
        }
      }
    }
  }

  /** The hashes looked up after the last lookup of `h`. */
  function Since(t: Trace, h: nat): set<nat> {
    if t == [] || t[|t| - 1].hash == h then {} else Since(t[..|t| - 1], h) + {t[|t| - 1].hash}
  }

  function Elements(s: seq<nat>): set<nat> {
    set x | x in s
  }

  lemma {:induction false} SinceIsRecent(t: Trace, h: nat)
    ensures Since(t, h) <= Elements(Recent(t))
  {
    if t != [] && t[|t| - 1].hash != h {
      SinceIsRecent(t[..|t| - 1], h);
      MovedToFrontMembers(Recent(t[..|t| - 1]), t[|t| - 1].hash);
    }
  }

  /** Stack distance: the place of `h` in the recency order counts the distinct hashes used since. */
  lemma {:induction false} StackDistance(t: Trace, k: nat)
    requires k < |Recent(t)|
    ensures Since(t, Recent(t)[k]) == Elements(Recent(t)[..k])
    ensures |Since(t, Recent(t)[k])| == k
  {
    RecentIsByAge(t);
    if k > 0 {
      var before, x := t[..|t| - 1], t[|t| - 1].hash;
      RecentIsByAge(before);
      MovedToFrontAt(Recent(before), x, k);
      StackDistance(before, OldPlace(Recent(before), x, k));
      PassedOver(Recent(before), x, k);
    }
    DistinctSize(Recent(t)[..k]);
  }

  /** What stands before an entry after a move to the front: what stood there, and the moved one. */
  lemma {:induction false} PassedOver(s: seq<nat>, x: nat, k: nat)
    requires Distinct(s) && 0 < k < |MovedToFront(s, x)|
    ensures 0 <= OldPlace(s, x, k) < |s|
    ensures Elements(MovedToFront(s, x)[..k]) == Elements(s[..OldPlace(s, x, k)]) + {x}
  {
    var m := OldPlace(s, x, k);
    if m == k {
      assert s[..k][Position(s, x)] == x;
      FrontOfHit(s, x, k);
    } else {
      assert MovedToFront(s, x)[..k] == [x] + s[..m];
      ElementsOfSum([x], s[..m]);
    }
  }

  lemma {:induction false} DistinctSize(s: seq<nat>)
    requires Distinct(s)
    ensures |Elements(s)| == |s|
  {
    if s != [] {
      var last := |s| - 1;
      DistinctSize(s[..last]);
      assert Elements(s) == Elements(s[..last]) + {s[last]};
    }
  }

  // ---------- The cache holds the most recent hashes ----------

  function Hashes(s: Slots): (r: seq<nat>)
    ensures |r| == |s|
  {
    seq(|s|, i requires 0 <= i < |s| => s[i].pathHash)
  }

  /** How many slots of a cache of this capacity have been loaded. */
  function Loaded(capacity: nat, t: Trace): nat {
    if |Recent(t)| < capacity then |Recent(t)| else capacity
  }

  /**
   The loaded slots come first; they hold the most recent distinct hashes, each exactly once, at
   ranks equal to their ages.  The other slots are as initialised, but for their growing rank.
   */
  ghost predicate HoldsMostRecent(s: Slots, t: Trace) {
    var c := Loaded(|s|, t);
    && Distinct(Hashes(s[..c]))
    && Elements(Hashes(s[..c])) == Elements(Recent(t)[..c])
    && (forall i :: 0 <= i < c ==> s[i].rank == Age(t, s[i].pathHash))
    && (forall i :: c <= i < |s| ==> s[i] == Slot(0, NO_SERVER, INITIAL_RANK + |t|))
  }

  lemma {:induction false} LoadedSlot(s: Slots, t: Trace, i: nat)
    requires HoldsMostRecent(s, t) && i < Loaded(|s|, t)
    ensures s[i].pathHash in Recent(t)[..Loaded(|s|, t)] && s[i].rank < |t|
    ensures forall j :: 0 <= j < Loaded(|s|, t) && s[j].pathHash == s[i].pathHash ==> j == i
  {
    var hs := Hashes(s[..Loaded(|s|, t)]);
    assert hs[i] == s[i].pathHash && hs[i] in Elements(hs);
    forall j | 0 <= j < Loaded(|s|, t) && s[j].pathHash == s[i].pathHash ensures j == i {
      assert hs[j] == s[j].pathHash;
    }
    RecentIsByAge(t);
    AgeIsBounded(t, s[i].pathHash);
  }

  /** Each of the most recent hashes has its slot. */
  lemma {:induction false} SlotOf(s: Slots, t: Trace, h: nat) returns (i: nat)
    requires HoldsMostRecent(s, t) && h in Recent(t)[..Loaded(|s|, t)]
    ensures i < Loaded(|s|, t) && s[i].pathHash == h
  {
    var hs := Hashes(s[..Loaded(|s|, t)]);
    assert h in Elements(hs);
    i :| 0 <= i < |hs| && hs[i] == h;
  }

  lemma {:induction false} NotLoaded(s: Slots, t: Trace, h: nat)
    requires HoldsMostRecent(s, t)
    requires forall i :: 0 <= i < Loaded(|s|, t) ==> s[i].pathHash != h
    ensures h !in Recent(t)[..Loaded(|s|, t)] && h !in Hashes(s[..Loaded(|s|, t)])
  {
    if h in Recent(t)[..Loaded(|s|, t)] {
      var i := SlotOf(s, t, h);
      assert false;
    }
  }

  lemma {:induction false} AgeIsBounded(t: Trace, h: nat)
    requires LookedUp(t, h)
    ensures Age(t, h) < |t|
  {
    var before := t[..|t| - 1];
    if t[|t| - 1].hash != h {
      var k :| 0 <= k < |t| && t[k].hash == h;
      assert before[k].hash == h;
      AgeIsBounded(before, h);
    }
  }

  /** How one more lookup moves the reference on. */
  lemma {:induction false} NextTrace(t: Trace, q: Query)
    ensures Recent(t + [q]) == MovedToFront(Recent(t), q.hash)
  {
    assert (t + [q])[..|t|] == t;
  }

  lemma {:induction false} NextAge(t: Trace, q: Query, h: nat)
    ensures Age(t + [q], h) == if h == q.hash then 0 else 1 + Age(t, h)
  {
    assert (t + [q])[..|t|] == t;
  }

  lemma {:induction false} FrontOfHit(r: seq<nat>, x: nat, c: nat)
    requires Distinct(r) && c <= |r| && x in r[..c]
    ensures |MovedToFront(r, x)| == |r|
    ensures Elements(MovedToFront(r, x)[..c]) == Elements(r[..c])
  {
    var m, p := MovedToFront(r, x), Position(r, x);
    assert p < c by {
      assert exists j :: 0 <= j < c && r[j] == x;
    }
    forall i | 0 < i < c ensures m[i] in r[..c] {
      MovedToFrontAt(r, x, i);
      assert r[..c][OldPlace(r, x, i)] == m[i];
    }
    forall j | 0 <= j < c ensures r[j] in m[..c] {
      var i := if j == p then 0 else if j < p then j + 1 else j;
      if i > 0 {
        MovedToFrontAt(r, x, i);
      }
      assert m[..c][i] == r[j];
    }
  }

  lemma {:induction false} ElementsOfSum(a: seq<nat>, b: seq<nat>)
    ensures Elements(a + b) == Elements(a) + Elements(b)
  {
  }

  lemma {:induction false} FrontOfMiss(r: seq<nat>, x: nat, c: nat)
    requires Distinct(r) && 0 < c <= |r| && x !in r[..c]
    ensures |MovedToFront(r, x)| >= |r|
    ensures MovedToFront(r, x)[..c] == [x] + r[..c - 1]
    ensures Elements(MovedToFront(r, x)[..c]) == Elements(r[..c]) - {r[c - 1]} + {x}
  {
    if x in r {
      assert Position(r, x) >= c;
    }
    assert r[..c] == r[..c - 1] + [r[c - 1]];
  }

  lemma {:induction false} ReplacedElement(s: seq<nat>, v: nat, x: nat)
    requires Distinct(s) && v < |s| && x !in s
    ensures Distinct(s[v := x])
    ensures Elements(s[v := x]) == Elements(s) - {s[v]} + {x}
  {
    var r := s[v := x];
    forall y ensures y in r <==> y in Elements(s) - {s[v]} + {x} {
      if y in r {
        var k :| 0 <= k < |r| && r[k] == y;
        assert k == v || y == s[k];
      }
      if y in s && y != s[v] {
        var k :| 0 <= k < |s| && s[k] == y;
        assert r[k] == y;
      }
      assert r[v] == x;
    }
  }

  lemma {:induction false} AddedElement(s: seq<nat>, x: nat)
    requires x !in s
    ensures Distinct(s) ==> Distinct(s + [x])
    ensures Elements(s + [x]) == Elements([x] + s) == Elements(s) + {x}
  {
  }

  lemma {:induction false} HashesAgree(s: Slots, s': Slots, c: nat)
    requires c <= |s| && c <= |s'| && forall j :: 0 <= j < c ==> s[j].pathHash == s'[j].pathHash
    ensures Hashes(s[..c]) == Hashes(s'[..c])
  {
  }

  lemma {:induction false} HashesExtended(s: Slots, s': Slots, c: nat)
    requires c < |s| == |s'| && forall j :: 0 <= j < c ==> s[j].pathHash == s'[j].pathHash
    ensures Hashes(s'[..c + 1]) == Hashes(s[..c]) + [s'[c].pathHash]
  {
  }

  lemma {:induction false} HashesReplaced(s: Slots, s': Slots, v: nat)
    requires v < |s| == |s'| && forall j :: 0 <= j < |s| && j != v ==> s[j].pathHash == s'[j].pathHash
    ensures s'[..|s|] == s' && Hashes(s') == Hashes(s)[v := s'[v].pathHash]
  {
  }

  /** How the parts of `HoldsMostRecent` come together. */
  lemma {:induction false} Assemble(s: Slots, t: Trace, hs: seq<nat>, rs: seq<nat>)
    requires hs == Hashes(s[..Loaded(|s|, t)]) && Distinct(hs)
    requires rs == Recent(t)[..Loaded(|s|, t)] && Elements(hs) == Elements(rs)
    requires forall i :: 0 <= i < Loaded(|s|, t) ==> s[i].rank == Age(t, s[i].pathHash)
    requires forall i :: Loaded(|s|, t) <= i < |s| ==> s[i] == Slot(0, NO_SERVER, INITIAL_RANK + |t|)
    ensures HoldsMostRecent(s, t)
  {
  }

  lemma {:induction false} HitHashes(s: Slots, t: Trace, i: nat)
    requires HoldsMostRecent(s, t) && i < Loaded(|s|, t)
    ensures |MovedToFront(Recent(t), s[i].pathHash)| == |Recent(t)|
    ensures Elements(Hashes(s[..Loaded(|s|, t)])) == Elements(MovedToFront(Recent(t), s[i].pathHash)[..Loaded(|s|, t)])
  {
    LoadedSlot(s, t, i);
    RecentIsByAge(t);
    FrontOfHit(Recent(t), s[i].pathHash, Loaded(|s|, t));
  }

  lemma {:induction false} HitRank(s: Slots, t: Trace, q: Query, i: nat, j: nat)
    requires HoldsMostRecent(s, t) && i < Loaded(|s|, t) && s[i].pathHash == q.hash && j < Loaded(|s|, t)
    ensures (if j == i then 0 else s[j].rank + 1) == Age(t + [q], s[j].pathHash)
  {
    LoadedSlot(s, t, i);
    NextAge(t, q, s[j].pathHash);
  }

  /** A hit on a loaded slot. */
  lemma {:induction false} HitStep(s: Slots, t: Trace, q: Query, i: nat)
    requires HoldsMostRecent(s, t) && i < Loaded(|s|, t) && s[i].pathHash == q.hash
    ensures HoldsMostRecent(Aged(s)[i := Aged(s)[i].(rank := 0)], t + [q])
  {
    var s', c := Aged(s)[i := Aged(s)[i].(rank := 0)], Loaded(|s|, t);
    NextTrace(t, q);
    HitHashes(s, t, i);
    forall j | 0 <= j < c ensures s'[j].rank == Age(t + [q], s'[j].pathHash) {
      HitRank(s, t, q, i, j);
    }
    HashesAgree(s, s', c);
    Assemble(s', t + [q], Hashes(s[..c]), MovedToFront(Recent(t), q.hash)[..c]);
  }

  lemma {:induction false} FilledHashes(s: Slots, t: Trace, h: nat)
    requires HoldsMostRecent(s, t) && Loaded(|s|, t) < |s|
    requires forall i :: 0 <= i < Loaded(|s|, t) ==> s[i].pathHash != h
    ensures MovedToFront(Recent(t), h) == [h] + Recent(t)
    ensures Distinct(Hashes(s[..Loaded(|s|, t)]) + [h])
    ensures Elements(Hashes(s[..Loaded(|s|, t)]) + [h]) == Elements([h] + Recent(t))
  {
    assert Recent(t)[..Loaded(|s|, t)] == Recent(t);
    NotLoaded(s, t, h);
    AddedElement(Hashes(s[..Loaded(|s|, t)]), h);
    AddedElement(Recent(t), h);
  }

  /** A hash not among the loaded ones goes into the first slot that is not loaded. */
  lemma {:induction false} FillStep(s: Slots, t: Trace, q: Query, server: int)
    requires HoldsMostRecent(s, t) && Loaded(|s|, t) < |s|
    requires forall i :: 0 <= i < Loaded(|s|, t) ==> s[i].pathHash != q.hash
    ensures HoldsMostRecent(Aged(s)[Loaded(|s|, t) := Slot(q.hash, server, 0)], t + [q])
  {
    var c, r, hs := Loaded(|s|, t), Recent(t), Hashes(s[..Loaded(|s|, t)]);
    var s' := Aged(s)[c := Slot(q.hash, server, 0)];
    NextTrace(t, q);
    FilledHashes(s, t, q.hash);
    forall j | 0 <= j < c + 1 ensures s'[j].rank == Age(t + [q], s'[j].pathHash) {
      NextAge(t, q, s'[j].pathHash);
    }
    HashesExtended(s, s', c);
    Assemble(s', t + [q], hs + [q.hash], [q.hash] + r);
  }

  /** With every slot loaded, the victim holds the least recently used hash. */
  lemma {:induction false} VictimIsLeastRecent(s: Slots, t: Trace)
    requires HoldsMostRecent(s, t) && 0 < |s| == Loaded(|s|, t)
    ensures s[Victim(s)].pathHash == Recent(t)[|s| - 1]
  {
    var r, v := Recent(t), Victim(s);
    RecentIsByAge(t);
    assert r[|s| - 1] in r[..|s|];
    var i := SlotOf(s, t, r[|s| - 1]);
    LoadedSlot(s, t, v);
    var k :| 0 <= k < |s| && r[k] == s[v].pathHash;
    assert Age(t, r[|s| - 1]) <= Age(t, r[k]);
  }

  lemma {:induction false} EvictedHashes(s: Slots, t: Trace, h: nat)
    requires HoldsMostRecent(s, t) && 0 < |s| == Loaded(|s|, t) && !Holds(s, h)
    ensures |MovedToFront(Recent(t), h)| >= |s|
    ensures Distinct(Hashes(s)[Victim(s) := h])
    ensures Elements(Hashes(s)[Victim(s) := h]) == Elements(MovedToFront(Recent(t), h)[..|s|])
  {
    assert s[..|s|] == s;
    VictimIsLeastRecent(s, t);
    NotLoaded(s, t, h);
    RecentIsByAge(t);
    FrontOfMiss(Recent(t), h, |s|);
    ReplacedElement(Hashes(s), Victim(s), h);
  }

  lemma {:induction false} EvictStep(s: Slots, t: Trace, q: Query, server: int)
    requires HoldsMostRecent(s, t) && 0 < |s| == Loaded(|s|, t)
    requires !Holds(s, q.hash)
    ensures HoldsMostRecent(Aged(s)[Victim(s) := Slot(q.hash, server, 0)], t + [q])
  {
    var n, v, r := |s|, Victim(s), Recent(t);
    var s' := Aged(s)[v := Slot(q.hash, server, 0)];
    NextTrace(t, q);
    VictimIsLeastRecent(s, t);
    EvictedHashes(s, t, q.hash);
    forall j | 0 <= j < n ensures s'[j].rank == Age(t + [q], s'[j].pathHash) {
      NextAge(t, q, s'[j].pathHash);
    }
    HashesReplaced(s, s', v);
    Assemble(s', t + [q], Hashes(s)[v := q.hash], MovedToFront(r, q.hash)[..n]);
  }

  /** The victim is the first slot not yet loaded, as long as there is one. */
  lemma {:induction false} VictimIsUnloaded(s: Slots, t: Trace)
    requires HoldsMostRecent(s, t) && Loaded(|s|, t) < |s|
    ensures Victim(s) == Loaded(|s|, t)
  {
    forall i | 0 <= i < Loaded(|s|, t) ensures s[i].rank < |t| {
      LoadedSlot(s, t, i);
    }
    VictimIsUnique(s, Victim(s), Loaded(|s|, t));
  }

  /** After any trace of lookups, whatever the hashes and answers, and for any capacity. */
  lemma {:induction false} CacheHoldsMostRecent(capacity: nat, t: Trace)
    requires capacity > 0
    ensures HoldsMostRecent(Run(capacity, t), t)
  {
    if t != [] {
      var before, q := t[..|t| - 1], t[|t| - 1];
      var s := Run(capacity, before);
      CacheHoldsMostRecent(capacity, before);
      var c := Loaded(capacity, before);
      assert t == before + [q];
      if Holds(s, q.hash) {
        var i := HitIndex(s, q.hash);
        if i < c {
          HitStep(s, before, q, i);
        } else {
          assert s[i].pathHash == 0 == s[c].pathHash && i == c && s[c].serverID == NO_SERVER;
          FillStep(s, before, q, NO_SERVER);
        }
      } else if c < capacity {
        VictimIsUnloaded(s, before);
        FillStep(s, before, q, q.answer);
      } else {
        EvictStep(s, before, q, q.answer);
      }
    }
  }

  /** Exactly when a lookup hits; address hash 0 also matches a slot that was never loaded. */
  lemma {:induction false} HitExactly(capacity: nat, t: Trace, h: nat)
    requires capacity > 0
    ensures Holds(Run(capacity, t), h) <==>
            h in Recent(t)[..Loaded(capacity, t)] || (h == 0 && |Recent(t)| < capacity)
  {
    var s, c := Run(capacity, t), Loaded(capacity, t);
    CacheHoldsMostRecent(capacity, t);
    if h in Recent(t)[..c] {
      var i := SlotOf(s, t, h);
    } else if h == 0 && |Recent(t)| < capacity {
      assert s[c].pathHash == 0;
    } else if Holds(s, h) {
      var i := HitIndex(s, h);
      if i < c {
        LoadedSlot(s, t, i);
      }
      assert false;
    }
  }

  /** A repeated lookup hits exactly when fewer than `capacity` other hashes came in between. */
  lemma {:induction false} RepeatedLookupHits(capacity: nat, t: Trace, h: nat)
    requires capacity > 0 && LookedUp(t, h)
    ensures Holds(Run(capacity, t), h) <==> |Since(t, h)| < capacity
  {
    HitExactly(capacity, t, h);
    RecentIsByAge(t);
    var r := Recent(t);
    var k :| 0 <= k < |r| && r[k] == h;
    StackDistance(t, k);
    assert h in r[..Loaded(capacity, t)] <==> k < Loaded(capacity, t) by {
      if k < Loaded(capacity, t) {
        assert r[..Loaded(capacity, t)][k] == h;
      }
    }
  }

  /** A lookup of a hash for the first time misses, unless the hash is 0 and a slot is still free. */
  lemma {:induction false} FirstLookupMisses(capacity: nat, t: Trace, h: nat)
    requires capacity > 0 && !LookedUp(t, h)
    ensures Holds(Run(capacity, t), h) <==> h == 0 && |Recent(t)| < capacity
  {
    HitExactly(capacity, t, h);
    RecentIsByAge(t);
    assert h !in Recent(t);
  }

  /** Inclusion: a larger cache holds everything a smaller one does on the same trace. */
  lemma {:induction false} Inclusion(small: nat, large: nat, t: Trace, h: nat)
    requires 0 < small <= large && Holds(Run(small, t), h)
    ensures Holds(Run(large, t), h)
  {
    HitExactly(small, t, h);
    HitExactly(large, t, h);
  }

  /** What a miss evicts from a full cache is the hash whose last use lies furthest back. */
  lemma {:induction false} EvictsLeastRecent(capacity: nat, t: Trace, q: Query, h: nat)
    requires 0 < capacity <= |Recent(t)|
    requires Holds(Run(capacity, t), h) && !Holds(Run(capacity, t), q.hash)
    ensures Holds(Run(capacity, t + [q]), h) <==> h != Recent(t)[capacity - 1]
    ensures Age(t, h) <= Age(t, Recent(t)[capacity - 1])
  {
    var r := Recent(t);
    RecentIsByAge(t);
    NextTrace(t, q);
    HitExactly(capacity, t, h);
    HitExactly(capacity, t, q.hash);
    HitExactly(capacity, t + [q], h);
    FrontOfMiss(r, q.hash, capacity);
    var k :| 0 <= k < capacity && r[k] == h;
    assert h in r[..capacity - 1] <==> k < capacity - 1 by {
      if k < capacity - 1 {
        assert r[..capacity - 1][k] == h;
      }
    }
  }

  /** Ranks fit the source's `int` for the first 1147483647 lookups, at any capacity. */
  lemma {:induction false} RanksFitInt(capacity: nat, t: Trace, i: nat)
    requires i < capacity
    ensures Run(capacity, t)[i].rank <= INITIAL_RANK + |t|
    ensures |t| <= 1147483647 ==> Run(capacity, t)[i].rank <= INT_MAX
    ensures i >= Loaded(capacity, t) ==> Run(capacity, t)[i].rank == 1000000000 + |t|
  {
    CacheHoldsMostRecent(capacity, t);
    if i < Loaded(capacity, t) {
      LoadedSlot(Run(capacity, t), t, i);
    }
  }
}
