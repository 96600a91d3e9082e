/**
 * The model tree as an arena: nodes live in a map keyed by `NodeId`, each
 * with a non-owning parent id and a `children` map from simple name to id.
 * The project node is the root; namespaces and types hang below it, nested
 * types below their containing type.
 */
module ModelTree {
  import opened Results
  import opened Language

  datatype NodeBody =
    | Project
    | Namespace
    | Type(kind: TypeKind, access: Access, members: Members)

  datatype Node = Node(name: string, parent: Option<NodeId>, children: map<string, NodeId>, body: NodeBody)

  /** The arena; `next` is the id the next allocated node receives. */
  datatype Tree = Tree(nodes: map<NodeId, Node>, next: NodeId)

  const Root: NodeId := 0

  /**
   * The tree invariant: one root without a parent, every other node's parent
   * allocated before it, every child entry pointing at a node whose parent is
   * the map's owner, and `next` above every allocated id.
   */
  ghost predicate Valid(t: Tree)
  {
    && Root in t.nodes
    && t.nodes[Root].parent == None
    && (forall id :: id in t.nodes ==> id < t.next)
    && (forall id :: id in t.nodes && id != Root ==>
          t.nodes[id].parent.Some? && t.nodes[id].parent.value in t.nodes && t.nodes[id].parent.value < id)
    && (forall id, k :: id in t.nodes && k in t.nodes[id].children ==>
          var c := t.nodes[id].children[k];
          c in t.nodes && id < c && t.nodes[c].parent == Some(id))
  }

  /** The tree holding only the project node (`new ModelTree(projectName, null)`). */
  function NewTree(projectName: string): (t: Tree)
    ensures Valid(t)
    ensures t.nodes.Keys == {Root}
    ensures t.nodes[Root].name == projectName && t.nodes[Root].children == map[]
  {
    Tree(map[Root := Node(projectName, None, map[], Project)], Root + 1)
  }

  /**
   * `node.parent = at; at.children.set(node.name, node)` for a freshly
   * created node: returns the grown tree and the new node's id.
   */
  function Attach(t: Tree, at: NodeId, name: string, body: NodeBody): (r: (Tree, NodeId))
    requires Valid(t) && at in t.nodes
    ensures Valid(r.0)
    ensures r.1 !in t.nodes && r.0.nodes.Keys == t.nodes.Keys + {r.1}
    ensures r.0.next == r.1 + 1
    ensures r.0.nodes[r.1] == Node(name, Some(at), map[], body)
    // exactly one key of exactly one children map changes
    ensures r.0.nodes[at].children.Keys == t.nodes[at].children.Keys + {name}
    ensures r.0.nodes[at].children[name] == r.1
    ensures r.0.nodes[at].children == t.nodes[at].children[name := r.1]
    ensures forall k :: k in t.nodes[at].children && k != name ==>
              r.0.nodes[at].children[k] == t.nodes[at].children[k]
    ensures r.0.nodes[at].(children := t.nodes[at].children) == t.nodes[at]
    ensures forall id :: id in t.nodes && id != at ==> r.0.nodes[id] == t.nodes[id]
  {
    var n := Node(name, Some(at), map[], body);
    GrowFrame(t, at, name, n);
    GrowFacts(t, at, name, n);
    (Grow(t, at, name, n), t.next)
  }

  /** The arena with `n` stored as node `t.next` and entered under `name` in `at`'s children. */
  function Grow(t: Tree, at: NodeId, name: string, n: Node): Tree
    requires at in t.nodes
  {
    var host := t.nodes[at];
    Tree(t.nodes[at := host.(children := host.children[name := t.next])][t.next := n], t.next + 1)
  }

  /** Growing adds exactly the node `t.next`, holding `n`. */
  lemma GrowAdds(t: Tree, at: NodeId, name: string, n: Node)
    requires Valid(t) && at in t.nodes
    ensures t.next !in t.nodes && at < t.next
    ensures Grow(t, at, name, n).nodes.Keys == t.nodes.Keys + {t.next}
    ensures Grow(t, at, name, n).next == t.next + 1
    ensures Grow(t, at, name, n).nodes[t.next] == n
  {
  }

  /** Growing by a fresh leaf touches only the host's children. */
  lemma GrowFrame(t: Tree, at: NodeId, name: string, n: Node)
    requires Valid(t) && at in t.nodes
    ensures t.next !in t.nodes && at < t.next
    ensures Grow(t, at, name, n).nodes.Keys == t.nodes.Keys + {t.next}
    ensures Grow(t, at, name, n).next == t.next + 1
    ensures Grow(t, at, name, n).nodes[t.next] == n
    ensures Grow(t, at, name, n).nodes[at].children.Keys == t.nodes[at].children.Keys + {name}
    ensures Grow(t, at, name, n).nodes[at].children[name] == t.next
    ensures Grow(t, at, name, n).nodes[at].children == t.nodes[at].children[name := t.next]
    ensures forall k :: k in t.nodes[at].children && k != name ==>
              Grow(t, at, name, n).nodes[at].children[k] == t.nodes[at].children[k]
    ensures Grow(t, at, name, n).nodes[at].(children := t.nodes[at].children) == t.nodes[at]
    ensures forall id :: id in t.nodes && id != at ==> Grow(t, at, name, n).nodes[id] == t.nodes[id]
  {
    GrowAdds(t, at, name, n);
    var host := t.nodes[at];
    assert Grow(t, at, name, n).nodes[at] == host.(children := host.children[name := t.next]);
  }

  /** Growing by a fresh leaf keeps every parent link pointing at an older node. */
  lemma GrowParents(t: Tree, at: NodeId, name: string, n: Node)
    requires Valid(t) && at in t.nodes && n.parent == Some(at)
    ensures var u := Grow(t, at, name, n);
      forall i :: i in u.nodes && i != Root ==>
        u.nodes[i].parent.Some? && u.nodes[i].parent.value in u.nodes && u.nodes[i].parent.value < i
  {
    GrowFrame(t, at, name, n);
    var u := Grow(t, at, name, n);
    forall i | i in u.nodes && i != Root
      ensures u.nodes[i].parent.Some? && u.nodes[i].parent.value in u.nodes && u.nodes[i].parent.value < i
    {
      if i != t.next {
        assert u.nodes[i].parent == t.nodes[i].parent;
      }
    }
  }

  /** Growing by a fresh leaf keeps every child entry pointing at a younger node that names its owner. */
  lemma GrowChildren(t: Tree, at: NodeId, name: string, n: Node)
    requires Valid(t) && at in t.nodes && n.parent == Some(at) && n.children == map[]
    ensures var u := Grow(t, at, name, n);
      forall i, k :: i in u.nodes && k in u.nodes[i].children ==>
        var ch := u.nodes[i].children[k];
        ch in u.nodes && i < ch && u.nodes[ch].parent == Some(i)
  {
    GrowFrame(t, at, name, n);
    var u := Grow(t, at, name, n);
    forall i, k | i in u.nodes && k in u.nodes[i].children
      ensures var ch := u.nodes[i].children[k]; ch in u.nodes && i < ch && u.nodes[ch].parent == Some(i)
    {
      if i == at && k == name {
      } else if i != t.next {
        var ch := t.nodes[i].children[k];
        assert u.nodes[i].children[k] == ch;
        assert ch != t.next;
      }
    }
  }

  /** Growing by a fresh leaf keeps the tree invariant. */
  lemma GrowFacts(t: Tree, at: NodeId, name: string, n: Node)
    requires Valid(t) && at in t.nodes && n.parent == Some(at) && n.children == map[]
    ensures Valid(Grow(t, at, name, n))
  {
    GrowFrame(t, at, name, n);
    GrowParents(t, at, name, n);
    GrowChildren(t, at, name, n);
  }

  /**
   * Follows `path` from `from` through successive `children` maps; fails
   * with the first name that is missing.
   */
  function Walk(t: Tree, from: NodeId, path: seq<string>): (r: Result<NodeId, string>)
    requires Valid(t) && from in t.nodes
    ensures r.Ok? ==> r.value in t.nodes && from <= r.value
    ensures r.Err? ==> r.error in path
    decreases |path|
  {
    if |path| == 0 then Ok(from)
    else if path[0] !in t.nodes[from].children then Err(path[0])
    else
      var r := Walk(t, t.nodes[from].children[path[0]], path[1..]);
      if r.Err? then (assert r.error in path[1..]; r) else r
  }

  /**
   * Reference meaning of a walk: some chain of nodes starts at `from`, ends
   * at `to`, and each step is the child entry named by the path.
   */
  ghost predicate Reaches(t: Tree, from: NodeId, path: seq<string>, to: NodeId)
  {
    exists chain: seq<NodeId> :: IsChain(t, chain, from, path, to)
  }

  ghost predicate IsChain(t: Tree, chain: seq<NodeId>, from: NodeId, path: seq<string>, to: NodeId)
  {
    && |chain| == |path| + 1
    && chain[0] == from
    && chain[|path|] == to
    && forall i :: 0 <= i < |path| ==>
         chain[i] in t.nodes && path[i] in t.nodes[chain[i]].children
         && t.nodes[chain[i]].children[path[i]] == chain[i + 1]
  }

  lemma {:induction false} WalkFindsChain(t: Tree, from: NodeId, path: seq<string>)
    requires Valid(t) && from in t.nodes
    requires Walk(t, from, path).Ok?
    ensures Reaches(t, from, path, Walk(t, from, path).value)
    decreases |path|
  {
    var to := Walk(t, from, path).value;
    if |path| == 0 {
      assert IsChain(t, [from], from, path, to);
    } else {
      var c := t.nodes[from].children[path[0]];
      WalkFindsChain(t, c, path[1..]);
      var chain :| IsChain(t, chain, c, path[1..], to);
      var longer := [from] + chain;
      assert forall i :: 0 < i <= |path| ==> longer[i] == chain[i - 1];
      assert IsChain(t, longer, from, path, to);
    }
  }

  lemma {:induction false} ChainFindsWalk(t: Tree, from: NodeId, path: seq<string>, to: NodeId, chain: seq<NodeId>)
    requires Valid(t) && from in t.nodes
    requires IsChain(t, chain, from, path, to)
    ensures Walk(t, from, path) == Ok(to)
    decreases |path|
  {
    if |path| > 0 {
      assert chain[0] == from && path[0] in t.nodes[from].children;
      var c := t.nodes[from].children[path[0]];
      assert c == chain[1];
      var shorter, rest := chain[1..], path[1..];
      assert IsChain(t, shorter, c, rest, to) by {
        forall i | 0 <= i < |rest|
          ensures shorter[i] in t.nodes && rest[i] in t.nodes[shorter[i]].children
          ensures t.nodes[shorter[i]].children[rest[i]] == shorter[i + 1]
        {
          assert shorter[i] == chain[i + 1] && rest[i] == path[i + 1] && shorter[i + 1] == chain[i + 2];
        }
      }
      ChainFindsWalk(t, c, rest, to, shorter);
    }
  }

  /** A walk succeeds exactly at the node the path reaches, and fails when none is reached. */
  lemma WalkReaches(t: Tree, from: NodeId, path: seq<string>, to: NodeId)
    requires Valid(t) && from in t.nodes
    ensures Walk(t, from, path) == Ok(to) <==> Reaches(t, from, path, to)
  {
    if Walk(t, from, path) == Ok(to) {
      WalkFindsChain(t, from, path);
    }
    if Reaches(t, from, path, to) {
      var chain :| IsChain(t, chain, from, path, to);
      ChainFindsWalk(t, from, path, to, chain);
    }
  }

  /** At most one node is reached along a path. */
  lemma ReachesUnique(t: Tree, from: NodeId, path: seq<string>, a: NodeId, b: NodeId)
    requires Valid(t) && from in t.nodes
    requires Reaches(t, from, path, a) && Reaches(t, from, path, b)
    ensures a == b
  {
    WalkReaches(t, from, path, a);
    WalkReaches(t, from, path, b);
  }
}
