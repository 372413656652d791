/**
 Registration end to end: a storage server lists its tree, the naming server inserts the listed
 paths, and from then on exactly the tree's files and directories resolve.
 */
module Registration {
  import opened Bytes
  import opened PathIndex
  import opened DirectoryListing
  import Trie

  /** The insertions that registering these paths for a server makes. */
  function Insertions(paths: seq<Path>, id: int): seq<Op> {
    seq(|paths|, k requires 0 <= k < |paths| => Insert(paths[k], id))
  }

  lemma {:induction false} InsertionsNext(m: Index, paths: seq<Path>, i: nat, id: int)
    requires i < |paths|
    ensures Run(m, Insertions(paths[..i + 1], id)) == Inserted(Run(m, Insertions(paths[..i], id)), paths[i], id)
  {
    assert Insertions(paths[..i + 1], id)[..i] == Insertions(paths[..i], id);
  }

  /** The registration loop. */
  method PopulateTrie(index: Trie.Trie, paths: seq<Path>, id: int)
    requires index.Valid() && [] !in paths
    modifies index, index.owner.Keys
    ensures index.Valid() && fresh(index.owner.Keys - old(index.owner.Keys))
    ensures index.contents == Run(old(index.contents), Insertions(paths, id))
    ensures paths != [] ==> index.root != null
    ensures old(index.root) != null ==> index.root != null
  {
    for i := 0 to |paths|
      invariant index.Valid() && fresh(index.owner.Keys - old(index.owner.Keys))
      invariant index.contents == Run(old(index.contents), Insertions(paths[..i], id))
      invariant i > 0 || old(index.root) != null ==> index.root != null
    {
      InsertionsNext(old(index.contents), paths, i, id);
      index.Insert(paths[i], id);
    }
    assert paths[..|paths|] == paths;
  }

  // ---------- The paths of a tree, walked name by name ----------

  /** `p` is the path of a file of the tree. */
  ghost predicate IsFilePath(es: seq<Entry>, p: Path)
    decreases es
  {
    exists i :: 0 <= i < |es| && FilePathUnder(es[i], p)
  }

  ghost predicate FilePathUnder(e: Entry, p: Path)
    decreases e
  {
    && !IsDot(e.name) && Starts(e.name, p)
    && if e.File? then Rest(e.name, p) == [] else IsFilePath(e.entries, Rest(e.name, p))
  }

  /** `p` is the path of a directory below the root of the tree, with a '/' at its end. */
  ghost predicate IsDirPath(es: seq<Entry>, p: Path)
    decreases es
  {
    exists i :: 0 <= i < |es| && DirPathUnder(es[i], p)
  }

  ghost predicate DirPathUnder(e: Entry, p: Path)
    decreases e
  {
    && !IsDot(e.name) && Starts(e.name, p)
    && e.Dir?
    && (Rest(e.name, p) == [SLASH] || IsDirPath(e.entries, Rest(e.name, p)))
  }

  ghost predicate IsTreePath(es: seq<Entry>, p: Path) {
    IsFilePath(es, p) || IsDirPath(es, p) || (p == [SLASH] && !IsEmpty(es))
  }

  // ---------- What the listing touches ----------

  /** Inserting the listing of the tree writes the entry at `p`. */
  ghost predicate Reached(es: seq<Entry>, p: Path) {
    exists q :: Listed(es, q) && Touches(q, p)
  }

  ghost predicate ReachedUnder(e: Entry, p: Path) {
    exists q :: ListedUnder(e, q) && Touches(q, p)
  }

  /** The same below an entry, at the tail `t` that follows its name. */
  ghost predicate TailReached(e: Entry, t: Path) {
    if t == [] then TailListed(e, []) else exists s :: TailListed(e, s) && Touches(s, t)
  }

  lemma {:induction false} ReachedByEntry(es: seq<Entry>, p: Path)
    ensures Reached(es, p) <==> exists i :: 0 <= i < |es| && ReachedUnder(es[i], p)
  {
    if Reached(es, p) {
      var q :| Listed(es, q) && Touches(q, p);
      var i :| 0 <= i < |es| && ListedUnder(es[i], q);
      assert ReachedUnder(es[i], p);
    }
    if i :| 0 <= i < |es| && ReachedUnder(es[i], p) {
      var q :| ListedUnder(es[i], q) && Touches(q, p);
      assert Listed(es, q);
    }
  }

  lemma {:induction false} ReachedBelow(e: Entry, p: Path)
    requires !IsDot(e.name) && e.name != [] && SLASH !in e.name
    requires ReachedUnder(e, p) && p != [SLASH]
    ensures Starts(e.name, p) && TailReached(e, Rest(e.name, p))
  {
    var head := [SLASH] + e.name;
    var q :| ListedUnder(e, q) && Touches(q, p);
    var s := Rest(e.name, q);
    assert q == head + s;
    assert |p| >= |head|;
    assert head == p[..|head|] && p == head + Rest(e.name, p);
    if Rest(e.name, p) == [] {
      assert p == head && p[|p| - 1] == e.name[|e.name| - 1];
      assert p == q && s == [];
    } else {
      assert Rest(e.name, p) == q[|head|..|p|] == s[..|p| - |head|];
      assert Touches(s, Rest(e.name, p));
    }
  }

  lemma {:induction false} ReachedAbove(e: Entry, p: Path)
    requires !IsDot(e.name)
    requires p == [SLASH] || (Starts(e.name, p) && TailReached(e, Rest(e.name, p)))
    ensures ReachedUnder(e, p)
  {
    var head := [SLASH] + e.name;
    var s: Path;
    if p == [SLASH] {
      s := SomethingListed(e);
    } else {
      var t := Rest(e.name, p);
      s :| TailListed(e, s) && if t == [] then s == [] else Touches(s, t);
      assert p == head + t;
      assert t != [] ==> p[|p| - 1] == t[|t| - 1];
    }
    var q := head + s;
    assert Rest(e.name, q) == s && ListedUnder(e, q);
    assert Touches(q, p);
  }

  lemma {:induction false} ReachedIsTreePath(es: seq<Entry>, p: Path)
    requires WellFormed(es)
    ensures Reached(es, p) <==> IsTreePath(es, p)
    decreases es, 1
  {
    ReachedByEntry(es, p);
    forall i | 0 <= i < |es| && !IsDot(es[i].name)
      ensures ReachedUnder(es[i], p) <==> p == [SLASH] || FilePathUnder(es[i], p) || DirPathUnder(es[i], p)
    {
      ReachedUnderIsPath(es[i], p);
    }
    forall i | 0 <= i < |es| && IsDot(es[i].name)
      ensures !ReachedUnder(es[i], p) && !FilePathUnder(es[i], p) && !DirPathUnder(es[i], p)
    {
    }
    if p == [SLASH] && !IsEmpty(es) {
      var i :| 0 <= i < |es| && !IsDot(es[i].name);
      assert ReachedUnder(es[i], p);
    }
  }

  lemma {:induction false} ReachedUnderIsPath(e: Entry, p: Path)
    requires !IsDot(e.name) && e.name != [] && SLASH !in e.name
    requires e.Dir? ==> WellFormed(e.entries)
    ensures ReachedUnder(e, p) <==> p == [SLASH] || FilePathUnder(e, p) || DirPathUnder(e, p)
    decreases e, 0
  {
    if ReachedUnder(e, p) && p != [SLASH] {
      ReachedBelow(e, p);
    }
    if p == [SLASH] || (Starts(e.name, p) && TailReached(e, Rest(e.name, p))) {
      ReachedAbove(e, p);
    }
    if Starts(e.name, p) && e.Dir? {
      TailReachedInDir(e, Rest(e.name, p));
    }
  }

  lemma {:induction false} TailReachedInDir(e: Entry, t: Path)
    requires e.Dir? && WellFormed(e.entries)
    ensures TailReached(e, t) <==> t == [SLASH] || IsFilePath(e.entries, t) || IsDirPath(e.entries, t)
    decreases e.entries, 2
  {
    NoEmptyPath(e.entries);
    if IsEmpty(e.entries) {
      assert TailListed(e, [SLASH]) && Touches([SLASH], [SLASH]);
    } else {
      ReachedIsTreePath(e.entries, t);
    }
  }

  lemma {:induction false} NoEmptyPath(es: seq<Entry>)
    ensures !IsFilePath(es, []) && !IsDirPath(es, []) && !Listed(es, [])
    ensures IsEmpty(es) ==> forall p :: !IsFilePath(es, p) && !IsDirPath(es, p)
  {
    assert forall name: Name :: |[SLASH] + name| > 0;
    assert forall name: Name :: !Starts(name, []);
  }

  lemma {:induction false} LastOfInsertions(paths: seq<Path>, id: int, p: Path)
    ensures LastToucher(Insertions(paths, id), p) == if Written(Insertions(paths, id), p) then id else NO_SERVER
  {
    if paths != [] {
      var ops := Insertions(paths, id);
      assert ops[..|paths| - 1] == Insertions(paths[..|paths| - 1], id);
      LastOfInsertions(paths[..|paths| - 1], id, p);
      WrittenNext(ops, p);
    }
  }

  /** Inserting a listing writes the entries of the tree's paths and no others. */
  lemma {:induction false} WrittenIsTreePath(es: seq<Entry>, id: int, p: Path)
    requires WellFormed(es)
    ensures Written(Insertions(Listing([], es), id), p) <==> IsTreePath(es, p)
  {
    var paths := Listing([], es);
    var ops := Insertions(paths, id);
    ReachedIsTreePath(es, p);
    if Written(ops, p) {
      var k :| 0 <= k < |ops| && ops[k].Insert? && Touches(ops[k].path, p);
      InRootListing(es, paths[k]);
    }
    if Reached(es, p) {
      var q :| Listed(es, q) && Touches(q, p);
      InRootListing(es, q);
      var k :| 0 <= k < |paths| && paths[k] == q;
      assert Touches(ops[k].path, p);
    }
  }

  /**
   Inserting the listing of a tree into any index, as after every forwarded request: a tombstone
   keeps hiding unless it stands on a path of the tree, the tree's own paths resolve to the server
   if nothing hides them, and every other entry stays.
   */
  lemma {:induction false} ListedTreeResolves(m: Index, es: seq<Entry>, id: int, p: Path)
    requires WellFormed(es) && id >= 0
    ensures Search(Run(m, Insertions(Listing([], es), id)), p) ==
            if exists r :: r != [] && r <= p && Tombstoned(m, r) && !IsTreePath(es, r) then NO_SERVER
            else if IsTreePath(es, p) then id
            else if p in m then m[p] else NO_SERVER
  {
    var ops := Insertions(Listing([], es), id);
    InsertsExact(m, ops, p);
    LastOfInsertions(Listing([], es), id, p);
    forall r ensures Written(ops, r) <==> IsTreePath(es, r) {
      WrittenIsTreePath(es, id, r);
    }
  }

  /**
   A deleted path that the storage server still lists, as it does every directory, comes back with
   the next listing: exactly if no tombstone is left on a prefix of it outside the tree, so always
   if it resolved when it was deleted.
   */
  lemma {:induction false} DeletedPathReturns(m: Index, es: seq<Entry>, id: int, p: Path)
    requires WellFormed(es) && id >= 0 && IsTreePath(es, p)
    ensures var later := Run(Deleted(m, p), Insertions(Listing([], es), id));
      && (Search(later, p) == id <==> forall r :: r != [] && r <= p && Tombstoned(m, r) ==> IsTreePath(es, r))
      && (Search(m, p) != NO_SERVER ==> Search(later, p) == id)
  {
    var d := Deleted(m, p);
    ListedTreeResolves(d, es, id, p);
    assert forall r :: r != p ==> (Tombstoned(d, r) <==> Tombstoned(m, r));
  }

  /**
   Registering a tree in an empty index: its files, its directories with a final '/', and '/'
   itself when the tree is not empty resolve to the server; no other string resolves.
   */
  lemma {:induction false} RegisteredTreeResolves(es: seq<Entry>, id: int, p: Path)
    requires WellFormed(es) && id >= 0
    ensures Search(Run(map[], Insertions(Listing([], es), id)), p) ==
            if IsTreePath(es, p) then id else -1
  {
    ListedTreeResolves(map[], es, id, p);
  }

  // ---------- Several servers ----------

  /** A server and the tree it registers with. */
  datatype Member = Member(id: int, tree: seq<Entry>)

  function AllInsertions(members: seq<Member>): seq<Op> {
    if members == [] then []
    else
      var last := members[|members| - 1];
      AllInsertions(members[..|members| - 1]) + Insertions(Listing([], last.tree), last.id)
  }

  /** The last server registered whose tree has the path. */
  ghost function LastWith(members: seq<Member>, p: Path): int {
    if members == [] then NO_SERVER
    else
      var last := members[|members| - 1];
      if IsTreePath(last.tree, p) then last.id else LastWith(members[..|members| - 1], p)
  }

  lemma {:induction false} LastToucherOfSum(a: seq<Op>, b: seq<Op>, p: Path)
    requires OnlyInserts(b)
    ensures LastToucher(a + b, p) == if LastToucher(b, p) != NO_SERVER then LastToucher(b, p) else LastToucher(a, p)
  {
    if b == [] {
      assert a + b == a;
    } else {
      var op := b[|b| - 1];
      assert op.Insert? && op.id >= 0;
      assert (a + b)[..|a + b| - 1] == a + b[..|b| - 1];
      LastToucherOfSum(a, b[..|b| - 1], p);
    }
  }

  lemma {:induction false} TreeInsertions(es: seq<Entry>, id: int, p: Path)
    requires WellFormed(es) && id >= 0
    ensures OnlyInserts(Insertions(Listing([], es), id))
    ensures LastToucher(Insertions(Listing([], es), id), p) == if IsTreePath(es, p) then id else NO_SERVER
  {
    LatestInsertWins(Insertions(Listing([], es), id), p);
    RegisteredTreeResolves(es, id, p);
  }

  lemma {:induction false} AllInsertionsLast(members: seq<Member>, p: Path)
    requires forall k :: 0 <= k < |members| ==> members[k].id >= 0 && WellFormed(members[k].tree)
    ensures OnlyInserts(AllInsertions(members))
    ensures LastToucher(AllInsertions(members), p) == LastWith(members, p)
  {
    if members != [] {
      var before, last := members[..|members| - 1], members[|members| - 1];
      assert last.id >= 0 && WellFormed(last.tree);
      AllInsertionsLast(before, p);
      TreeInsertions(last.tree, last.id, p);
      LastToucherOfSum(AllInsertions(before), Insertions(Listing([], last.tree), last.id), p);
    }
  }

  /**
   Any number of servers registering one after another: a path resolves to the last of them whose
   tree has it, and a path of none of the trees does not resolve.
   */
  lemma {:induction false} RegisteredServersResolve(members: seq<Member>, p: Path)
    requires forall k :: 0 <= k < |members| ==> members[k].id >= 0 && WellFormed(members[k].tree)
    ensures Search(Run(map[], AllInsertions(members)), p) == LastWith(members, p)
  {
    AllInsertionsLast(members, p);
    LatestInsertWins(AllInsertions(members), p);
  }
}
