/**
 The meaning of the naming server's path index: a map from non-empty paths to the server that
 holds them, or to a tombstone.  The heap trie in `Trie` is proved to implement these functions.
 */
module PathIndex {
  import opened Bytes

  const NO_SERVER := -1

  type Index = map<Path, int>

  predicate EndsInSlash(p: Path) {
    p != [] && p[|p| - 1] == SLASH
  }

  /** Inserting `q` writes the entry at `r`: either `q` itself or a '/'-terminated prefix of it. */
  predicate Touches(q: Path, r: Path) {
    r != [] && r <= q && (r == q || EndsInSlash(r))
  }

  function TouchedBy(q: Path): (s: set<Path>)
    ensures forall r :: r in s <==> Touches(q, r)
  {
    var s := set k: nat | k <= |q| && Touches(q, q[..k]) :: q[..k];
    assert forall r :: Touches(q, r) ==> r == q[..|r|];
    s
  }

  function Inserted(m: Index, q: Path, id: int): Index {
    m + map r | r in TouchedBy(q) :: id
  }

  /** `r` carries a deletion mark. */
  predicate Tombstoned(m: Index, r: Path) {
    r in m && m[r] == NO_SERVER
  }

  /** Some non-empty prefix of `p` (possibly `p`) carries a deletion mark. */
  ghost predicate Hidden(m: Index, p: Path) {
    exists r :: r != [] && r <= p && Tombstoned(m, r)
  }

  ghost function Search(m: Index, p: Path): int {
    if Hidden(m, p) then NO_SERVER else if p in m then m[p] else NO_SERVER
  }

  ghost function Deleted(m: Index, p: Path): Index {
    if Search(m, p) == NO_SERVER then m else m[p := NO_SERVER]
  }

  // ---------- The exact effect of one operation ----------

  /** Deleting a resolvable path hides exactly the strings that extend it, '/' or not. */
  lemma {:induction false} DeleteExact(m: Index, p: Path, s: Path)
    requires [] !in m && Search(m, p) != NO_SERVER
    ensures Search(Deleted(m, p), s) == if p <= s then NO_SERVER else Search(m, s)
  {
    var d := Deleted(m, p);
    if p <= s {
      assert Tombstoned(d, p);
    } else {
      assert forall r :: r <= s ==> (Tombstoned(d, r) <==> Tombstoned(m, r));
    }
  }

  /** A deletion mark on `s` or above it survives the insertion of `q`. */
  ghost predicate StillHidden(m: Index, q: Path, s: Path) {
    exists r :: r != [] && r <= s && Tombstoned(m, r) && !Touches(q, r)
  }

  /** Every answer after an insertion, from the index before it. */
  lemma {:induction false} InsertExact(m: Index, q: Path, id: int, s: Path)
    requires id >= 0
    ensures Search(Inserted(m, q, id), s) ==
            if StillHidden(m, q, s) then NO_SERVER
            else if Touches(q, s) then id
            else if s in m then m[s] else NO_SERVER
  {
    var m' := Inserted(m, q, id);
    assert forall r :: Tombstoned(m', r) <==> Tombstoned(m, r) && !Touches(q, r);
    assert Hidden(m', s) <==> StillHidden(m, q, s);
  }

  /** An inserted path resolves exactly when no file-like proper prefix of it is tombstoned. */
  lemma {:induction false} RevivalExact(m: Index, q: Path, id: int)
    requires id >= 0 && q != []
    ensures Search(Inserted(m, q, id), q) == id <==>
            forall r :: r != [] && r < q && !EndsInSlash(r) ==> !Tombstoned(m, r)
    ensures Search(Inserted(m, q, id), q) in {id, NO_SERVER}
  {
    InsertExact(m, q, id, q);
    if StillHidden(m, q, q) {
      var r :| r != [] && r <= q && Tombstoned(m, r) && !Touches(q, r);
      assert r < q && !EndsInSlash(r);
    } else {
      forall r | r != [] && r < q && !EndsInSlash(r) ensures !Tombstoned(m, r) {
        assert !Touches(q, r);
      }
    }
  }

  /**
   Any other path changes its answer only by being un-hidden: it was live under tombstones
   that the insertion of `q` revived, all of them.
   */
  lemma {:induction false} UnhidingExact(m: Index, q: Path, id: int, s: Path)
    requires id >= 0 && !Touches(q, s)
    ensures Search(Inserted(m, q, id), s) != Search(m, s) <==>
            s in m && m[s] != NO_SERVER && Hidden(m, s) && !StillHidden(m, q, s)
    ensures Search(Inserted(m, q, id), s) != Search(m, s) ==> Search(Inserted(m, q, id), s) == m[s]
  {
    InsertExact(m, q, id, s);
    if StillHidden(m, q, s) {
      assert Hidden(m, s);
    }
  }

  // ---------- Whole runs ----------

  datatype Op = Insert(path: Path, id: int) | Delete(path: Path)

  ghost function Apply(m: Index, op: Op): Index {
    match op
    case Insert(q, id) => Inserted(m, q, id)
    case Delete(p) => Deleted(m, p)
  }

  ghost function Run(m: Index, ops: seq<Op>): Index {
    if ops == [] then m else Apply(Run(m, ops[..|ops| - 1]), ops[|ops| - 1])
  }

  lemma {:induction false} RunFromFront(m: Index, ops: seq<Op>)
    requires ops != []
    ensures Run(m, ops) == Run(Apply(m, ops[0]), ops[1..])
  {
    var last, tail, next := |ops| - 1, ops[1..], Apply(m, ops[0]);
    if last == 0 {
      assert ops[..0] == [];
    } else {
      RunFromFront(m, ops[..last]);
      assert tail[..last - 1] == ops[..last][1..];
      assert Run(next, tail) == Apply(Run(next, tail[..last - 1]), tail[last - 1]);
    }
  }

  /** Insertions only, each with a real server id. */
  ghost predicate OnlyInserts(ops: seq<Op>) {
    forall k :: 0 <= k < |ops| ==> ops[k].Insert? && ops[k].id >= 0
  }

  ghost predicate PathInserted(ops: seq<Op>, p: Path) {
    exists k :: 0 <= k < |ops| && ops[k].Insert? && ops[k].path == p
  }

  /** A resolvable file path keeps its answer under any further insertions of other paths. */
  lemma {:induction false} FileAnswerIsStable(m: Index, ops: seq<Op>, p: Path)
    requires OnlyInserts(ops) && !PathInserted(ops, p)
    requires !EndsInSlash(p) && Search(m, p) != NO_SERVER
    ensures Search(Run(m, ops), p) == Search(m, p)
  {
    if ops != [] {
      var before := ops[..|ops| - 1];
      var op := ops[|ops| - 1];
      forall k | 0 <= k < |before| ensures before[k].Insert? ==> before[k].path != p {
        assert ops[k] == before[k];
      }
      FileAnswerIsStable(m, before, p);
      assert !Touches(op.path, p);
      UnhidingExact(Run(m, before), op.path, op.id, p);
    }
  }

  /** The server given by the latest insertion that wrote the entry at `p`. */
  function LastToucher(ops: seq<Op>, p: Path): int {
    if ops == [] then NO_SERVER
    else
      var op := ops[|ops| - 1];
      if op.Insert? && Touches(op.path, p) then op.id else LastToucher(ops[..|ops| - 1], p)
  }

  /** One of the insertions wrote the entry at `r`. */
  ghost predicate Written(ops: seq<Op>, r: Path) {
    exists k :: 0 <= k < |ops| && ops[k].Insert? && Touches(ops[k].path, r)
  }

  lemma {:induction false} WrittenNext(ops: seq<Op>, r: Path)
    requires ops != []
    ensures var op := ops[|ops| - 1];
      Written(ops, r) <==> Written(ops[..|ops| - 1], r) || (op.Insert? && Touches(op.path, r))
  {
    assert forall k :: 0 <= k < |ops| - 1 ==> ops[..|ops| - 1][k] == ops[k];
  }

  /** What insertions make of the entry at `r`. */
  lemma {:induction false} EntryAfterInserts(m: Index, ops: seq<Op>, r: Path)
    requires OnlyInserts(ops)
    ensures Written(ops, r) ==> r in Run(m, ops) && Run(m, ops)[r] == LastToucher(ops, r) >= 0
    ensures !Written(ops, r) ==> LastToucher(ops, r) == NO_SERVER
    ensures !Written(ops, r) ==> (r in Run(m, ops) <==> r in m) && (r in m ==> Run(m, ops)[r] == m[r])
  {
    if ops != [] {
      var op := ops[|ops| - 1];
      assert op.Insert? && op.id >= 0;
      EntryAfterInserts(m, ops[..|ops| - 1], r);
      WrittenNext(ops, r);
    }
  }

  /**
   Every answer after any insertions into any index: nothing under a tombstone that none of them
   wrote over, else the server of the latest one that wrote the entry, else the entry as it was.
   */
  lemma {:induction false} InsertsExact(m: Index, ops: seq<Op>, p: Path)
    requires OnlyInserts(ops)
    ensures Search(Run(m, ops), p) ==
            if exists r :: r != [] && r <= p && Tombstoned(m, r) && !Written(ops, r) then NO_SERVER
            else if Written(ops, p) then LastToucher(ops, p)
            else if p in m then m[p] else NO_SERVER
  {
    forall r ensures Tombstoned(Run(m, ops), r) <==> Tombstoned(m, r) && !Written(ops, r) {
      EntryAfterInserts(m, ops, r);
    }
    EntryAfterInserts(m, ops, p);
  }

  /**
   Without deletions a path answers with the server of the latest insertion at it or, for a
   '/'-terminated directory, of the latest insertion anywhere beneath it.
   */
  lemma {:induction false} LatestInsertWins(ops: seq<Op>, p: Path)
    requires OnlyInserts(ops)
    ensures Search(Run(map[], ops), p) == LastToucher(ops, p)
  {
    InsertsExact(map[], ops, p);
    EntryAfterInserts(map[], ops, p);
  }

  /** Every reachable index leaves the empty path out and holds only ids that were inserted. */
  lemma {:induction false} ReachableIndex(ops: seq<Op>, p: Path)
    ensures [] !in Run(map[], ops)
    ensures p in Run(map[], ops) ==>
            Run(map[], ops)[p] == NO_SERVER ||
            exists k :: 0 <= k < |ops| && ops[k].Insert? && Touches(ops[k].path, p) && ops[k].id == Run(map[], ops)[p]
    ensures p in Run(map[], ops) <==> Written(ops, p)
  {
    if ops != [] {
      var before := ops[..|ops| - 1];
      ReachableIndex(before, p);
      assert forall k :: 0 <= k < |before| ==> before[k] == ops[k];
      var m := Run(map[], before);
      if ops[|ops| - 1].Delete? && Search(m, ops[|ops| - 1].path) != NO_SERVER {
        assert ops[|ops| - 1].path in m;
      }
    }
  }

  /** The insertions carry real server ids. */
  ghost predicate RealIds(ops: seq<Op>) {
    forall k :: 0 <= k < |ops| && ops[k].Insert? ==> ops[k].id >= 0
  }

  /** Operation `k` is a deletion of `r`, and no later insertion wrote the entry at `r`. */
  ghost predicate LastBuried(ops: seq<Op>, k: nat, r: Path) {
    k < |ops| && ops[k] == Delete(r) && forall j :: k < j < |ops| && ops[j].Insert? ==> !Touches(ops[j].path, r)
  }

  /** `r` was deleted while it resolved, and has not been written since. */
  ghost predicate Erased(ops: seq<Op>, r: Path)
    decreases |ops|, 0
  {
    exists k: nat :: LastBuried(ops, k, r) && AnswerFromHistory(ops[..k], r) != NO_SERVER
  }

  /**
   The answer as the history gives it: nothing under an erased non-empty prefix, else the server of
   the latest insertion that wrote the entry.
   */
  ghost function AnswerFromHistory(ops: seq<Op>, p: Path): int
    decreases |ops|, 1
  {
    if exists r :: r != [] && r <= p && Erased(ops, r) then NO_SERVER else LastToucher(ops, p)
  }

  lemma {:induction false} LastBuriedNext(ops: seq<Op>, k: nat, r: Path)
    requires k < |ops| - 1
    ensures var op, before := ops[|ops| - 1], ops[..|ops| - 1];
      LastBuried(ops, k, r) <==> LastBuried(before, k, r) && !(op.Insert? && Touches(op.path, r))
    ensures ops[..|ops| - 1][..k] == ops[..k]
  {
  }

  /** One operation more erases or un-erases `r`, or leaves it as it was. */
  lemma {:induction false} ErasedNext(ops: seq<Op>, r: Path)
    requires ops != []
    ensures var op, before := ops[|ops| - 1], ops[..|ops| - 1];
      Erased(ops, r) <==>
        (op == Delete(r) && AnswerFromHistory(before, r) != NO_SERVER)
        || (Erased(before, r) && !(op.Insert? && Touches(op.path, r)))
  {
    var n := |ops| - 1;
    var before := ops[..n];
    if Erased(ops, r) {
      var k: nat :| LastBuried(ops, k, r) && AnswerFromHistory(ops[..k], r) != NO_SERVER;
      if k < n {
        LastBuriedNext(ops, k, r);
      }
    }
    if ops[n] == Delete(r) && AnswerFromHistory(before, r) != NO_SERVER {
      assert LastBuried(ops, n, r);
    }
    if Erased(before, r) {
      var k: nat :| LastBuried(before, k, r) && AnswerFromHistory(before[..k], r) != NO_SERVER;
      LastBuriedNext(ops, k, r);
    }
  }

  lemma {:induction false} EntryAfterRun(ops: seq<Op>, r: Path)
    requires RealIds(ops)
    ensures var m := Run(map[], ops);
      && (Tombstoned(m, r) <==> Erased(ops, r))
      && (if r in m then m[r] == NO_SERVER || m[r] == LastToucher(ops, r) else LastToucher(ops, r) == NO_SERVER)
    decreases |ops|, 0
  {
    if ops != [] {
      var before, op := ops[..|ops| - 1], ops[|ops| - 1];
      EntryAfterRun(before, r);
      ErasedNext(ops, r);
      assert op.Insert? ==> op.id >= 0;
      if op.Delete? {
        AnswerAfterAnyRun(before, op.path);
        assert Search(Run(map[], before), op.path) != NO_SERVER ==> op.path in Run(map[], before);
      }
    }
  }

  /** Every answer after every run is the one that the history gives. */
  lemma {:induction false} AnswerAfterAnyRun(ops: seq<Op>, p: Path)
    requires RealIds(ops)
    ensures Search(Run(map[], ops), p) == AnswerFromHistory(ops, p)
    decreases |ops|, 1
  {
    var m := Run(map[], ops);
    forall r ensures Tombstoned(m, r) <==> Erased(ops, r) {
      EntryAfterRun(ops, r);
    }
    EntryAfterRun(ops, p);
    ReachableIndex(ops, p);
    assert Hidden(m, p) <==> exists r :: r != [] && r <= p && Erased(ops, r);
    if p in m && !Hidden(m, p) {
      assert !Tombstoned(m, p);
    }
  }
}
