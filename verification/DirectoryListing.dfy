/**
 The storage server's listing of its directory tree: one path per file and per empty directory,
 the latter ending in '/'.
 */
module DirectoryListing {
  import opened Bytes
  import opened PathIndex

  const DOT: Byte := 46

  type Name = seq<Byte>

  /** A directory entry in the order `readdir` gives it; "." and ".." may be among them. */
  datatype Entry = File(name: Name) | Dir(name: Name, entries: seq<Entry>)

  predicate IsDot(name: Name) {
    name == [DOT] || name == [DOT, DOT]
  }

  predicate IsEmpty(es: seq<Entry>) {
    forall i :: 0 <= i < |es| ==> IsDot(es[i].name)
  }

  /** Visible names are non-empty, contain no '/' and differ from their siblings. */
  ghost predicate WellFormed(es: seq<Entry>) {
    && (forall i :: 0 <= i < |es| && !IsDot(es[i].name) ==>
          && es[i].name != [] && SLASH !in es[i].name
          && (es[i].Dir? ==> WellFormed(es[i].entries)))
    && (forall i, j :: 0 <= i < j < |es| && !IsDot(es[i].name) ==> es[i].name != es[j].name)
  }

  // ---------- What the recursion appends ----------

  function Listing(prefix: Path, es: seq<Entry>): seq<Path>
    decreases es
  {
    if es == [] then [] else ListOne(prefix, es[0]) + Listing(prefix, es[1..])
  }

  function ListOne(prefix: Path, e: Entry): seq<Path>
    decreases e
  {
    var full := prefix + [SLASH] + e.name;
    if IsDot(e.name) then []
    else if e.File? then [full]
    else if IsEmpty(e.entries) then [full + [SLASH]]
    else Listing(full, e.entries)
  }

  class ServerDetails {
    var numPaths: nat
    const accessiblePaths: array<Path>

    constructor (maxPaths: nat)
      ensures numPaths == 0 && accessiblePaths.Length == maxPaths && fresh(accessiblePaths)
    {
      numPaths := 0;
      accessiblePaths := new Path[maxPaths](_ => []);
    }

    ghost predicate Valid()
      reads this
    {
      numPaths <= accessiblePaths.Length
    }

    function Paths(): seq<Path>
      requires Valid()
      reads this, accessiblePaths
    {
      accessiblePaths[..numPaths]
    }

    method Append(p: Path)
      requires Valid() && numPaths < accessiblePaths.Length
      modifies this, accessiblePaths
      ensures Valid() && Paths() == old(Paths()) + [p]
    {
      accessiblePaths[numPaths] := p;
      numPaths := numPaths + 1;
    }
  }

  /** `path` starts with the '.' that the listed paths leave out. */
  method ListFilesAndEmptyFolders(path: Path, entries: seq<Entry>, details: ServerDetails)
    requires path != [] && details.Valid()
    requires details.numPaths + |Listing(path[1..], entries)| <= details.accessiblePaths.Length
    modifies details, details.accessiblePaths
    ensures details.Valid() && details.Paths() == old(details.Paths()) + Listing(path[1..], entries)
    decreases entries
  {
    for i := 0 to |entries|
      invariant details.Valid()
      invariant details.Paths() == old(details.Paths()) + Listing(path[1..], entries[..i])
    {
      var entry := entries[i];
      var fullPath := path + [SLASH] + entry.name;
      assert fullPath[1..] == path[1..] + [SLASH] + entry.name;
      ListingPrefix(path[1..], entries, i);
      if !IsDot(entry.name) {
        if entry.Dir? {
          var isEmpty := HasNoEntries(entry.entries);
          if isEmpty {
            details.Append(fullPath[1..] + [SLASH]);
          } else {
            ListFilesAndEmptyFolders(fullPath, entry.entries, details);
          }
        } else {
          details.Append(fullPath[1..]);
        }
      }
    }
    assert entries[..|entries|] == entries;
  }

  /** The emptiness test, which stops at the first visible entry. */
  method HasNoEntries(entries: seq<Entry>) returns (isEmpty: bool)
    ensures isEmpty == IsEmpty(entries)
  {
    isEmpty := true;
    for i := 0 to |entries|
      invariant isEmpty && forall j :: 0 <= j < i ==> IsDot(entries[j].name)
    {
      if !IsDot(entries[i].name) {
        isEmpty := false;
        break;
      }
    }
  }

  lemma {:induction false} ListingSplit(prefix: Path, a: seq<Entry>, b: seq<Entry>)
    ensures Listing(prefix, a + b) == Listing(prefix, a) + Listing(prefix, b)
  {
    if a == [] {
      assert a + b == b;
    } else {
      ListingSplit(prefix, a[1..], b);
      assert (a + b)[0] == a[0] && (a + b)[1..] == a[1..] + b;
      var x, y, z := ListOne(prefix, a[0]), Listing(prefix, a[1..]), Listing(prefix, b);
      assert x + (y + z) == (x + y) + z;
    }
  }

  /** The listing so far, with the next entry, and the room the rest still needs. */
  lemma {:induction false} ListingPrefix(prefix: Path, es: seq<Entry>, i: nat)
    requires i < |es|
    ensures Listing(prefix, es[..i + 1]) == Listing(prefix, es[..i]) + ListOne(prefix, es[i])
    ensures |Listing(prefix, es[..i])| + |ListOne(prefix, es[i])| <= |Listing(prefix, es)|
  {
    assert es[..i + 1] == es[..i] + [es[i]];
    ListingSplit(prefix, es[..i], [es[i]]);
    assert es == es[..i + 1] + es[i + 1..];
    ListingSplit(prefix, es[..i + 1], es[i + 1..]);
  }

  // ---------- Membership, without the prefix ----------

  /** `q` is listed for the tree `es`, as seen from the tree's own root. */
  ghost predicate Listed(es: seq<Entry>, q: Path)
    decreases es
  {
    exists i :: 0 <= i < |es| && ListedUnder(es[i], q)
  }

  ghost predicate ListedUnder(e: Entry, q: Path)
    decreases e, 1
  {
    && !IsDot(e.name)
    && Starts(e.name, q)
    && TailListed(e, Rest(e.name, q))
  }

  /** `q` is '/', then `name`, then a rest. */
  predicate Starts(name: Name, q: Path) {
    [SLASH] + name <= q
  }

  function Rest(name: Name, q: Path): Path
    requires Starts(name, q)
  {
    q[1 + |name|..]
  }

  ghost predicate TailListed(e: Entry, s: Path)
    decreases e, 0
  {
    match e
    case File(_) => s == []
    case Dir(_, entries) => if IsEmpty(entries) then s == [SLASH] else Listed(entries, s)
  }

  lemma {:induction false} ListingIsListed(prefix: Path, es: seq<Entry>, q: Path)
    ensures q in Listing(prefix, es) <==> prefix <= q && Listed(es, q[|prefix|..])
    decreases es
  {
    if es != [] {
      ListOneIsListed(prefix, es[0], q);
      ListingIsListed(prefix, es[1..], q);
      if prefix <= q {
        var r := q[|prefix|..];
        assert Listed(es, r) <==> ListedUnder(es[0], r) || Listed(es[1..], r) by {
          if Listed(es, r) && !ListedUnder(es[0], r) {
            var i :| 0 <= i < |es| && ListedUnder(es[i], r);
            assert es[1..][i - 1] == es[i];
          }
          if Listed(es[1..], r) {
            var i :| 0 <= i < |es[1..]| && ListedUnder(es[1..][i], r);
            assert es[1..][i] == es[i + 1];
          }
        }
      }
    }
  }

  lemma {:induction false} ListOneIsListed(prefix: Path, e: Entry, q: Path)
    ensures q in ListOne(prefix, e) <==> prefix <= q && ListedUnder(e, q[|prefix|..])
    decreases e
  {
    if !IsDot(e.name) {
      var full := prefix + [SLASH] + e.name;
      assert full <= q <==> prefix <= q && Starts(e.name, q[|prefix|..]) by {
        if prefix <= q && Starts(e.name, q[|prefix|..]) {
          assert q == prefix + q[|prefix|..];
          assert q[|prefix|..] == [SLASH] + e.name + Rest(e.name, q[|prefix|..]);
          assert q == full + Rest(e.name, q[|prefix|..]);
        }
        if full <= q {
          assert q[|prefix|..][..1 + |e.name|] == q[|prefix|..|full|] == [SLASH] + e.name;
        }
      }
      if full <= q {
        assert Rest(e.name, q[|prefix|..]) == q[|full|..];
        assert q == full + q[|full|..];
        assert (full + [SLASH])[|full|..] == [SLASH];
      }
      if e.Dir? && !IsEmpty(e.entries) {
        ListingIsListed(full, e.entries, q);
        assert q in ListOne(prefix, e) <==> full <= q && Listed(e.entries, q[|full|..]);
      } else if e.Dir? {
        assert q in ListOne(prefix, e) <==> q == full + [SLASH];
      } else {
        assert q in ListOne(prefix, e) <==> q == full;
      }
    }
  }

  // ---------- The listing loses nothing ----------

  /** The files and the empty directories of a tree. */
  function Leaves(es: seq<Entry>): nat
    decreases es
  {
    if es == [] then 0 else LeavesOf(es[0]) + Leaves(es[1..])
  }

  function LeavesOf(e: Entry): nat
    decreases e
  {
    if IsDot(e.name) then 0 else if e.File? || IsEmpty(e.entries) then 1 else Leaves(e.entries)
  }

  lemma {:induction false} ListingCountsLeaves(prefix: Path, es: seq<Entry>)
    ensures |Listing(prefix, es)| == Leaves(es)
    decreases es
  {
    if es != [] {
      var e := es[0];
      if e.Dir? {
        ListingCountsLeaves(prefix + [SLASH] + e.name, e.entries);
      }
      ListingCountsLeaves(prefix, es[1..]);
    }
  }

  /** A listed path starts with '/'. */
  lemma {:induction false} ListedShape(es: seq<Entry>, q: Path)
    requires Listed(es, q)
    ensures q != [] && q[0] == SLASH
  {
    var i :| 0 <= i < |es| && ListedUnder(es[i], q);
    assert q[0] == ([SLASH] + es[i].name)[0];
  }

  /** A listed tail is empty or starts with '/'. */
  lemma {:induction false} TailShape(e: Entry, s: Path)
    requires TailListed(e, s)
    ensures e.File? <==> s == []
    ensures e.Dir? ==> s != [] && s[0] == SLASH
  {
    if e.Dir? && !IsEmpty(e.entries) {
      ListedShape(e.entries, s);
    }
  }

  /** The name at the head of a path is determined by the path. */
  lemma {:induction false} NameIsUnique(m: Name, n: Name, q: Path)
    requires SLASH !in m && SLASH !in n
    requires Starts(m, q) && (Rest(m, q) == [] || Rest(m, q)[0] == SLASH)
    requires Starts(n, q) && (Rest(n, q) == [] || Rest(n, q)[0] == SLASH)
    ensures m == n
  {
    assert forall k :: 0 <= k < |m| ==> m[k] == ([SLASH] + m)[1 + k] == q[1 + k];
    assert forall k :: 0 <= k < |n| ==> n[k] == ([SLASH] + n)[1 + k] == q[1 + k];
    assert Rest(m, q) != [] ==> q[1 + |m|] == SLASH;
    assert Rest(n, q) != [] ==> q[1 + |n|] == SLASH;
    assert |m| == |n|;
  }

  /** So is the entry that lists it. */
  lemma {:induction false} ListerIsUnique(es: seq<Entry>, i: nat, j: nat, q: Path)
    requires WellFormed(es) && i < |es| && j < |es|
    requires ListedUnder(es[i], q) && ListedUnder(es[j], q)
    ensures i == j
  {
    TailShape(es[i], Rest(es[i].name, q));
    TailShape(es[j], Rest(es[j].name, q));
    NameIsUnique(es[i].name, es[j].name, q);
  }

  ghost predicate NoDuplicates(ps: seq<Path>) {
    forall i, j :: 0 <= i < j < |ps| ==> ps[i] != ps[j]
  }

  lemma {:induction false} WellFormedRest(es: seq<Entry>)
    requires WellFormed(es) && es != []
    ensures WellFormed(es[1..])
  {
    var r := es[1..];
    forall i, j | 0 <= i < j < |r| && !IsDot(r[i].name) ensures r[i].name != r[j].name {
      assert r[i] == es[i + 1] && r[j] == es[j + 1];
    }
  }

  lemma {:induction false} ListingHasNoDuplicates(prefix: Path, es: seq<Entry>)
    requires WellFormed(es)
    ensures NoDuplicates(Listing(prefix, es))
    ensures var ps := Listing(prefix, es); forall i, j :: 0 <= i < j < |ps| ==> ps[i] != ps[j]
    decreases es
  {
    if es != [] {
      var e, rest := es[0], es[1..];
      var a, b := ListOne(prefix, e), Listing(prefix, rest);
      if !IsDot(e.name) && e.Dir? {
        ListingHasNoDuplicates(prefix + [SLASH] + e.name, e.entries);
      }
      WellFormedRest(es);
      ListingHasNoDuplicates(prefix, rest);
      forall i, j | 0 <= i < |a| && 0 <= j < |b| ensures a[i] != b[j] {
        ListOneIsListed(prefix, e, a[i]);
        ListingIsListed(prefix, rest, b[j]);
        if a[i] == b[j] {
          var q := a[i][|prefix|..];
          var k :| 0 <= k < |rest| && ListedUnder(rest[k], q);
          assert es[k + 1] == rest[k];
          ListerIsUnique(es, 0, k + 1, q);
          assert false;
        }
      }
    }
  }

  /** Equal up to the order of siblings. */
  ghost predicate SameTree(a: seq<Entry>, b: seq<Entry>)
    decreases a
  {
    && (forall i :: 0 <= i < |a| && !IsDot(a[i].name) ==>
          exists j :: 0 <= j < |b| && SameEntry(a[i], b[j]))
    && (forall j :: 0 <= j < |b| && !IsDot(b[j].name) ==>
          exists i :: 0 <= i < |a| && SameEntry(a[i], b[j]))
  }

  ghost predicate SameEntry(e: Entry, f: Entry)
    decreases e
  {
    && e.name == f.name
    && (e.File? <==> f.File?)
    && (e.Dir? && f.Dir? ==> SameTree(e.entries, f.entries))
  }

  /** Every visible entry accounts for some listed path. */
  lemma {:induction false} SomethingListed(e: Entry) returns (s: Path)
    ensures TailListed(e, s)
    decreases e
  {
    if e.File? {
      s := [];
    } else if IsEmpty(e.entries) {
      s := [SLASH];
    } else {
      var i :| 0 <= i < |e.entries| && !IsDot(e.entries[i].name);
      var t := SomethingListed(e.entries[i]);
      s := [SLASH] + e.entries[i].name + t;
      assert Rest(e.entries[i].name, s) == t;
      assert ListedUnder(e.entries[i], s);
    }
  }

  ghost predicate SameListing(a: seq<Entry>, b: seq<Entry>) {
    forall q :: Listed(a, q) <==> Listed(b, q)
  }

  /** In a tree without duplicate names, the tails of an entry are those of its name. */
  lemma {:induction false} TailsOfName(es: seq<Entry>, i: nat, s: Path)
    requires WellFormed(es) && i < |es| && !IsDot(es[i].name)
    requires s == [] || s[0] == SLASH
    ensures TailListed(es[i], s) <==> Listed(es, [SLASH] + es[i].name + s)
  {
    var q := [SLASH] + es[i].name + s;
    assert Rest(es[i].name, q) == s;
    if Listed(es, q) {
      var j :| 0 <= j < |es| && ListedUnder(es[j], q);
      TailShape(es[j], Rest(es[j].name, q));
      NameIsUnique(es[i].name, es[j].name, q);
      assert i == j;
    }
  }

  /** Trees with the same listing have the same names, of entries with the same listed tails. */
  lemma {:induction false} Counterpart(a: seq<Entry>, b: seq<Entry>, i: nat) returns (j: nat)
    requires WellFormed(a) && WellFormed(b) && SameListing(a, b)
    requires i < |a| && !IsDot(a[i].name)
    ensures j < |b| && a[i].name == b[j].name && (a[i].File? <==> b[j].File?)
    ensures forall t :: t == [] || t[0] == SLASH ==> (TailListed(a[i], t) <==> TailListed(b[j], t))
  {
    var e := a[i];
    var s := SomethingListed(e);
    TailShape(e, s);
    var q := [SLASH] + e.name + s;
    TailsOfName(a, i, s);
    assert Listed(b, q);
    j :| 0 <= j < |b| && ListedUnder(b[j], q);
    var f := b[j];
    TailShape(f, Rest(f.name, q));
    assert Rest(e.name, q) == s;
    NameIsUnique(e.name, f.name, q);
    forall t | t == [] || t[0] == SLASH ensures TailListed(e, t) <==> TailListed(f, t) {
      TailsOfName(a, i, t);
      TailsOfName(b, j, t);
    }
  }

  /** Directories with the same listed tails have the same listing beneath them. */
  lemma {:induction false} SameTails(e: Entry, f: Entry)
    requires e.Dir? && f.Dir? && WellFormed(e.entries) && WellFormed(f.entries)
    requires forall t :: t == [] || t[0] == SLASH ==> (TailListed(e, t) <==> TailListed(f, t))
    ensures SameListing(e.entries, f.entries)
  {
    NeverBareSlash(e.entries);
    NeverBareSlash(f.entries);
    assert IsEmpty(e.entries) <==> TailListed(e, [SLASH]);
    assert IsEmpty(f.entries) <==> TailListed(f, [SLASH]);
    forall q ensures Listed(e.entries, q) <==> Listed(f.entries, q) {
      if Listed(e.entries, q) {
        ListedShape(e.entries, q);
        assert TailListed(e, q) <==> TailListed(f, q);
      }
      if Listed(f.entries, q) {
        ListedShape(f.entries, q);
        assert TailListed(e, q) <==> TailListed(f, q);
      }
    }
  }

  lemma {:induction false} NeverBareSlash(es: seq<Entry>)
    requires WellFormed(es)
    ensures !Listed(es, [SLASH])
  {
  }

  /** Two trees that list the same paths are equal up to the order of siblings. */
  lemma {:induction false} ListingDeterminesTree(a: seq<Entry>, b: seq<Entry>)
    requires WellFormed(a) && WellFormed(b) && SameListing(a, b)
    ensures SameTree(a, b)
    decreases a
  {
    forall i | 0 <= i < |a| && !IsDot(a[i].name) ensures exists j :: 0 <= j < |b| && SameEntry(a[i], b[j]) {
      var j := Counterpart(a, b, i);
      SameEntries(a[i], b[j]);
    }
    forall j | 0 <= j < |b| && !IsDot(b[j].name) ensures exists i :: 0 <= i < |a| && SameEntry(a[i], b[j]) {
      var i := Counterpart(b, a, j);
      SameEntries(a[i], b[j]);
    }
  }

  lemma {:induction false} SameEntries(e: Entry, f: Entry)
    requires e.name == f.name && (e.File? <==> f.File?)
    requires e.Dir? ==> WellFormed(e.entries) && WellFormed(f.entries)
    requires forall t :: t == [] || t[0] == SLASH ==> (TailListed(e, t) <==> TailListed(f, t))
    ensures SameEntry(e, f)
    decreases e
  {
    if e.Dir? {
      SameTails(e, f);
      ListingDeterminesTree(e.entries, f.entries);
    }
  }

  /** Conversely the order of siblings does not matter to what is listed. */
  lemma {:induction false} ListingIgnoresOrder(a: seq<Entry>, b: seq<Entry>, q: Path)
    requires SameTree(a, b)
    ensures Listed(a, q) <==> Listed(b, q)
    decreases a
  {
    if Listed(a, q) {
      var i :| 0 <= i < |a| && ListedUnder(a[i], q);
      var j :| 0 <= j < |b| && SameEntry(a[i], b[j]);
      TailIgnoresOrder(a[i], b[j], Rest(a[i].name, q));
    }
    if Listed(b, q) {
      var j :| 0 <= j < |b| && ListedUnder(b[j], q);
      var i :| 0 <= i < |a| && SameEntry(a[i], b[j]);
      TailIgnoresOrder(a[i], b[j], Rest(b[j].name, q));
    }
  }

  lemma {:induction false} SameEmptiness(a: seq<Entry>, b: seq<Entry>)
    requires SameTree(a, b)
    ensures IsEmpty(a) <==> IsEmpty(b)
  {
    assert forall i, j :: 0 <= i < |a| && 0 <= j < |b| && SameEntry(a[i], b[j]) ==> a[i].name == b[j].name;
  }

  lemma {:induction false} TailIgnoresOrder(e: Entry, f: Entry, s: Path)
    requires SameEntry(e, f)
    ensures TailListed(e, s) <==> TailListed(f, s)
    decreases e
  {
    if e.Dir? {
      SameEmptiness(e.entries, f.entries);
      ListingIgnoresOrder(e.entries, f.entries, s);
    }
  }

  lemma {:induction false} InRootListing(es: seq<Entry>, q: Path)
    ensures q in Listing([], es) <==> Listed(es, q)
  {
    ListingIsListed([], es, q);
    assert q[0..] == q;
  }

  ghost predicate SamePaths(ps: seq<Path>, qs: seq<Path>) {
    forall p :: p in ps <==> p in qs
  }

  lemma {:induction false} SamePathsIsSameListing(a: seq<Entry>, b: seq<Entry>)
    ensures SamePaths(Listing([], a), Listing([], b)) <==> SameListing(a, b)
  {
    var ps, qs := Listing([], a), Listing([], b);
    forall q ensures (q in ps <==> Listed(a, q)) && (q in qs <==> Listed(b, q)) {
      InRootListing(a, q);
      InRootListing(b, q);
    }
  }

  /** The set of listed paths and the tree up to sibling order determine each other. */
  lemma {:induction false} ListingLosesNothing(a: seq<Entry>, b: seq<Entry>)
    requires WellFormed(a) && WellFormed(b)
    ensures SamePaths(Listing([], a), Listing([], b)) <==> SameTree(a, b)
  {
    SamePathsIsSameListing(a, b);
    if SameListing(a, b) {
      ListingDeterminesTree(a, b);
    }
    if SameTree(a, b) {
      forall q ensures Listed(a, q) <==> Listed(b, q) {
        ListingIgnoresOrder(a, b, q);
      }
    }
  }

  lemma {:induction false} NoEmptyListed(es: seq<Entry>)
    ensures [] !in Listing([], es)
  {
    InRootListing(es, []);
    if Listed(es, []) {
      ListedShape(es, []);
    }
  }

  // ---------- The listing, name by name ----------

  /** The names that a directory lists for itself and its parent, "." and "..". */
  predicate SelfOrParent(name: Name) {
    name == [46] || name == [46, 46]
  }

  /** What an entry adds to the listing of the directory `prefix`. */
  ghost predicate Adds(prefix: Path, e: Entry, q: Path) {
    var full := prefix + [47] + e.name;
    && !SelfOrParent(e.name)
    && match e
       case File(_) => q == full
       case Dir(_, entries) =>
         if forall k :: 0 <= k < |entries| ==> SelfOrParent(entries[k].name) then q == full + [47]
         else q in Listing(full, entries)
  }

  /**
   Name by name: the listing holds '/' and the name for every file, the same and '/' for a directory
   with nothing in it, the listing below it for any other directory; it passes over "." and "..", and
   over no other name.
   */
  lemma {:induction false} ListingByName(prefix: Path, es: seq<Entry>, q: Path)
    ensures q in Listing(prefix, es) <==> exists i :: 0 <= i < |es| && Adds(prefix, es[i], q)
  {
    if es != [] {
      var rest := es[1..];
      ListingByName(prefix, rest, q);
      assert q in ListOne(prefix, es[0]) <==> Adds(prefix, es[0], q);
      assert forall i :: 0 <= i < |rest| ==> rest[i] == es[i + 1];
      if i :| 0 <= i < |es| && Adds(prefix, es[i], q) {
        assert i > 0 ==> Adds(prefix, rest[i - 1], q);
      }
    }
  }
}
