/**
 The naming server's path index on the heap: a 256-way trie updated in place, in which a
 deletion only marks its node.  The ghost map `nodes` names each node by the path that leads to
 it; `Valid` makes that naming one-to-one, so the nodes form an unshared tree, and ties the
 ghost index `contents` that `PathIndex` specifies to the entries found on the nodes.
 */
module Trie {
  import opened Bytes
  import opened PathIndex

  const NUM_CHARS := 256

  lemma {:induction false} AppendIsInjective(p: Path, c: Byte, q: Path, b: Byte)
    ensures q + [b] == p + [c] ==> q == p && b == c
  {
    if q + [b] == p + [c] {
      assert q == (q + [b])[..|q|] && p == (p + [c])[..|p|];
      assert b == (q + [b])[|q|];
    }
  }

  /** The index after the insertion loop has gone through the first `i` bytes of `text`. */
  function WithDirs(m: Index, text: Path, i: nat, id: int): Index
    requires i <= |text|
  {
    if i == 0 then m
    else
      var w := WithDirs(m, text, i - 1, id);
      if text[i - 1] == SLASH then w[text[..i - 1] + [text[i - 1]] := id] else w
  }

  lemma {:induction false} WithDirsAt(m: Index, text: Path, i: nat, id: int, r: Path)
    requires i <= |text|
    ensures r in WithDirs(m, text, i, id) <==> r in m || (EndsInSlash(r) && r <= text[..i])
    ensures r in WithDirs(m, text, i, id) ==>
            WithDirs(m, text, i, id)[r] == if EndsInSlash(r) && r <= text[..i] then id else m[r]
  {
    if i > 0 {
      WithDirsAt(m, text, i - 1, id, r);
      assert text[..i] == text[..i - 1] + [text[i - 1]];
      assert r <= text[..i] <==> r <= text[..i - 1] || r == text[..i];
    }
  }

  /** The index after the whole insertion. */
  function WithDirsAndEnd(m: Index, text: Path, id: int): Index
    requires text != []
  {
    var w := WithDirs(m, text, |text|, id);
    if text[|text| - 1] != SLASH then w[text := id] else w
  }

  lemma {:induction false} WithDirsAllAt(m: Index, text: Path, id: int, r: Path)
    requires text != []
    ensures r in WithDirsAndEnd(m, text, id) <==> r in m || Touches(text, r)
    ensures r in WithDirsAndEnd(m, text, id) ==>
            WithDirsAndEnd(m, text, id)[r] == if Touches(text, r) then id else m[r]
  {
    WithDirsAt(m, text, |text|, id, r);
    assert text[..|text|] == text;
  }

  lemma {:induction false} WithDirsAll(m: Index, text: Path, id: int)
    requires text != []
    ensures Inserted(m, text, id) == WithDirsAndEnd(m, text, id)
  {
    forall r
      ensures r in WithDirsAndEnd(m, text, id) <==> r in m || Touches(text, r)
      ensures r in WithDirsAndEnd(m, text, id) ==>
              WithDirsAndEnd(m, text, id)[r] == if Touches(text, r) then id else m[r]
    {
      WithDirsAllAt(m, text, id, r);
    }
  }

  class TrieNode {
    const children: array<TrieNode?>
    var storageServer: int
    var isFile: bool
    var isEndOfWord: bool

    constructor ()
      ensures fresh(children) && children.Length == NUM_CHARS
      ensures forall b :: 0 <= b < NUM_CHARS ==> children[b] == null
      ensures storageServer == NO_SERVER && !isFile && !isEndOfWord
    {
      children := new TrieNode?[NUM_CHARS];
      storageServer := NO_SERVER;
      isFile := false;
      isEndOfWord := false;
      new;
      for i := 0 to NUM_CHARS
        invariant forall b :: 0 <= b < i ==> children[b] == null
        modifies children
      {
        children[i] := null;
      }
    }
  }

  type Naming = map<Path, TrieNode>

  class Trie {
    var root: TrieNode?
    ghost var nodes: Naming
    ghost var contents: Index
    ghost var owner: map<object, Path>  // the path that each node object and child array serves

    /** Each node and each child array serves one path only. */
    ghost predicate Owned()
      reads this
    {
      forall p :: p in nodes ==>
        && nodes[p] in owner && owner[nodes[p]] == p
        && nodes[p].children in owner && owner[nodes[p].children] == p
        && nodes[p].children.Length == NUM_CHARS
    }

    /** The named nodes are exactly those reachable from the root, each along its own path. */
    ghost predicate Linked()
      reads this, owner.Keys
      requires Owned()
    {
      && (root == null ==> nodes == map[])
      && (root != null ==> [] in nodes && nodes[[]] == root)
      && (forall p, b: Byte :: p + [b] in nodes ==> p in nodes)
      && (forall p, b: Byte :: p in nodes ==>
            nodes[p].children[b] == if p + [b] in nodes then nodes[p + [b]] else null)
    }

    /** The marked nodes are the entries of `contents`, and their flags follow from the path. */
    ghost predicate Recorded()
      reads this, owner.Keys
      requires Owned()
    {
      && contents.Keys <= nodes.Keys
      && (forall p :: p in nodes ==>
            && nodes[p].isEndOfWord == (p in contents)
            && nodes[p].storageServer == (if p in contents then contents[p] else NO_SERVER)
            && nodes[p].isFile == (p in contents && !EndsInSlash(p)))
    }

    ghost predicate Valid()
      reads this, owner.Keys
    {
      Owned() && Linked() && Recorded() && [] !in contents && this !in owner
    }

    /**
     The nodes form an unshared tree: a node is reached along one path only, has one parent slot
     pointing at it, and the root has none.
     */
    lemma {:induction false} NodesFormATree(p: Path, b: Byte, q: Path, c: Byte)
      requires Valid() && p in nodes && q in nodes
      ensures p != q ==> nodes[p] != nodes[q] && nodes[p].children != nodes[q].children
      ensures nodes[p].children[b] != root
      ensures nodes[p].children[b] != null && nodes[p].children[b] == nodes[q].children[c] ==> p == q && b == c
    {
      AppendIsInjective(p, b, q, c);
      if nodes[p].children[b] != null && nodes[p].children[b] == nodes[q].children[c] {
        assert owner[nodes[p + [b]]] == p + [b] && owner[nodes[q + [c]]] == q + [c];
      }
    }

    constructor ()
      ensures Valid() && root == null && contents == map[] && owner == map[]
    {
      root := null;
      nodes, contents := map[], map[];
      owner := map[];
    }

    /** `*root = createnode()`. */
    method CreateRoot()
      requires Valid() && root == null
      modifies this
      ensures Valid() && root != null && contents == old(contents)
      ensures fresh(owner.Keys)
    {
      root := new TrieNode();
      nodes := map[[] := root];
      owner := map[root := [], root.children := []];
    }

    /** Names a new node below `curr`. */
    method Attach(ghost p: Path, curr: TrieNode, c: Byte, node: TrieNode)
      requires Owned() && Linked() && p in nodes && nodes[p] == curr && p + [c] !in nodes
      requires node !in owner && node.children !in owner && node.children.Length == NUM_CHARS
      requires forall b :: 0 <= b < NUM_CHARS ==> node.children[b] == null
      modifies this`nodes, this`owner, curr.children
      ensures Owned() && Linked() && nodes == old(nodes)[p + [c] := node]
      ensures owner.Keys == old(owner.Keys) + {node, node.children}
    {
      ghost var q := p + [c];
      curr.children[c] := node;
      nodes := nodes[q := node];
      owner := owner[node := q][node.children := q];
      forall r, b: Byte | r in nodes
        ensures nodes[r].children[b] == if r + [b] in nodes then nodes[r + [b]] else null
      {
        AppendIsInjective(p, c, r, b);
        if r != q && (r != p || b != c) {
          assert nodes[r].children[b] == old(nodes[r].children[b]);
        }
      }
      forall r, b: Byte | r + [b] in nodes ensures r in nodes {
        AppendIsInjective(p, c, r, b);
      }
    }

    method AttachBlank(ghost p: Path, curr: TrieNode, c: Byte, node: TrieNode)
      requires Valid() && p in nodes && nodes[p] == curr && p + [c] !in nodes
      requires node != this as object && node !in owner && node.children !in owner
      requires node.children.Length == NUM_CHARS
      requires forall b :: 0 <= b < NUM_CHARS ==> node.children[b] == null
      requires node.storageServer == NO_SERVER && !node.isFile && !node.isEndOfWord
      modifies this`nodes, this`owner, curr.children
      ensures Valid() && nodes == old(nodes)[p + [c] := node]
      ensures owner.Keys == old(owner.Keys) + {node, node.children}
    {
      Attach(p, curr, c, node);
    }

    /** `curr->children[c] = createnode()`. */
    method CreateChild(ghost p: Path, curr: TrieNode, c: Byte)
      requires Valid() && p in nodes && nodes[p] == curr && p + [c] !in nodes
      modifies this`nodes, this`owner, curr.children
      ensures Valid() && p in nodes && nodes[p] == curr && p + [c] in nodes
      ensures fresh(owner.Keys - old(owner.Keys))
    {
      var node := new TrieNode();
      AttachBlank(p, curr, c, node);
    }

    /** The three assignments that make a node an entry. */
    method Mark(ghost p: Path, curr: TrieNode, file: bool, serverID: int)
      requires Valid() && p in nodes && nodes[p] == curr
      requires p != [] && file == !EndsInSlash(p)
      modifies curr, this`contents
      ensures root == old(root) && nodes == old(nodes) && owner == old(owner)
      ensures Valid() && contents == old(contents)[p := serverID]
    {
      curr.isFile := file;
      curr.storageServer := serverID;
      curr.isEndOfWord := true;
      contents := contents[p := serverID];
    }

    /** One round of the insertion loop: step down by `c`, and mark a directory at '/'. */
    method Descend(ghost p: Path, curr: TrieNode, c: Byte, serverID: int) returns (next: TrieNode)
      requires Valid() && p in nodes && nodes[p] == curr
      modifies this`nodes, this`contents, this`owner, owner.Keys
      ensures Valid() && root == old(root) && fresh(owner.Keys - old(owner.Keys))
      ensures p + [c] in nodes && nodes[p + [c]] == next
      ensures contents == if c == SLASH then old(contents)[p + [c] := serverID] else old(contents)
    {
      if curr.children[c] == null {
        CreateChild(p, curr, c);
      }
      next := curr.children[c];
      if c == SLASH {
        Mark(p + [c], next, false, serverID);
      }
    }

    /** The insertion loop. */
    method WalkDown(text: Path, serverID: int) returns (curr: TrieNode)
      requires Valid() && root != null
      modifies this`nodes, this`contents, this`owner, owner.Keys
      ensures Valid() && root == old(root) && fresh(owner.Keys - old(owner.Keys))
      ensures text in nodes && nodes[text] == curr
      ensures contents == WithDirs(old(contents), text, |text|, serverID)
    {
      curr := root;
      for i := 0 to |text|
        invariant Valid() && root == old(root) && fresh(owner.Keys - old(owner.Keys))
        invariant text[..i] in nodes && nodes[text[..i]] == curr
        invariant contents == WithDirs(old(contents), text, i, serverID)
      {
        assert text[..i + 1] == text[..i] + [text[i]];
        curr := Descend(text[..i], curr, text[i], serverID);
      }
      assert text[..|text|] == text;
    }

    method Insert(text: Path, serverID: int)
      requires Valid() && text != []
      modifies this, owner.Keys
      ensures Valid() && root != null && fresh(owner.Keys - old(owner.Keys))
      ensures contents == Inserted(old(contents), text, serverID)
    {
      if root == null {
        CreateRoot();
      }
      var curr := WalkDown(text, serverID);
      WithDirsAll(old(contents), text, serverID);
      if text[|text| - 1] != SLASH {
        Mark(text, curr, true, serverID);
      }
    }

    lemma {:induction false} AncestorMissing(p: Path, k: nat)
      requires Valid() && k <= |p| && p[..k] !in nodes
      ensures p !in nodes
      decreases |p|
    {
      if k < |p| {
        var parent := p[..|p| - 1];
        assert parent[..k] == p[..k] && p == parent + [p[|p| - 1]];
        AncestorMissing(parent, k);
      } else {
        assert p[..k] == p;
      }
    }

    method Search(text: Path) returns (server: int)
      requires Valid()
      ensures server == PathIndex.Search(contents, text)
    {
      if root == null {
        return NO_SERVER;
      }
      var curr: TrieNode := root;
      for i := 0 to |text|
        invariant text[..i] in nodes && nodes[text[..i]] == curr
        invariant forall r :: r != [] && r <= text[..i] ==> !Tombstoned(contents, r)
      {
        assert text[..i + 1] == text[..i] + [text[i]];
        if curr.children[text[i]] == null {
          AncestorMissing(text, i + 1);
          return NO_SERVER;
        }
        curr := curr.children[text[i]];
        if curr.isEndOfWord && curr.storageServer == NO_SERVER {
          assert Tombstoned(contents, text[..i + 1]);
          return NO_SERVER;
        }
        forall r | r != [] && r <= text[..i + 1] ensures !Tombstoned(contents, r) {
          assert r == text[..i + 1] || r <= text[..i];
        }
      }
      assert text[..|text|] == text;
      return if curr.isEndOfWord then curr.storageServer else NO_SERVER;
    }

    /** The one assignment a deletion makes. */
    method Bury(ghost p: Path, curr: TrieNode)
      requires Valid() && p in contents && nodes[p] == curr
      modifies curr, this`contents
      ensures Valid() && contents == old(contents)[p := NO_SERVER]
      ensures root == old(root) && nodes == old(nodes) && owner == old(owner)
    {
      curr.storageServer := NO_SERVER;
      contents := contents[p := NO_SERVER];
    }

    method Delete(text: Path)
      requires Valid()
      modifies this`contents, owner.Keys
      ensures Valid() && root == old(root) && nodes == old(nodes) && owner == old(owner)
      ensures contents == Deleted(old(contents), text)
    {
      if root == null {
        return;
      }
      var found := Search(text);
      if found == NO_SERVER {
        return;
      }
      var curr: TrieNode := root;
      for i := 0 to |text|
        invariant text[..i] in nodes && nodes[text[..i]] == curr
        modifies {}
      {
        assert text[..i + 1] == text[..i] + [text[i]];
        if text[..i + 1] !in nodes {
          AncestorMissing(text, i + 1);
          assert false;  // where the source returns, but its own search has found the path
        }
        curr := curr.children[text[i]];
      }
      assert text[..|text|] == text;
      Bury(text, curr);
    }
  }
}
