/** The address tree as it is allocated, pruned in place and freed. */
module BloomHeap {
  import opened Options
  import opened Bloom
  import opened BloomThreads

  datatype Kind = Unset | IsAddress | IsAnd | IsOr

  class TreeNode {
    var kind: Kind
    var addr: Address
    var left: TreeNode?
    var right: TreeNode?
    ghost var tree: Tree
    ghost var repr: set<TreeNode>

    /** The node is the root of a tree whose nodes are `repr`, each reached on one path only. */
    ghost predicate Valid()
      reads this, repr
      decreases repr
    {
      && this in repr
      && (kind.IsAddress? ==> repr == {this} && tree == Leaf(addr))
      && (kind.IsAnd? || kind.IsOr? ==>
        && left != null && right != null && left in repr && right in repr
        && left.repr !! right.repr && this !in left.repr + right.repr
        && repr == {this} + left.repr + right.repr
        && left.Valid() && right.Valid()
        && tree == Oper(kind.IsAnd?, left.tree, right.tree))
      && !kind.Unset?
    }

    constructor ()
      ensures kind == Unset && left == null && right == null
    {
      kind, left, right := Unset, null, null;
      addr := V4(0);
      repr := {};
      tree := Leaf(V4(0));
    }
  }

  /** The static variables of the module, and the nodes that are allocated and not freed yet. */
  class Builder {
    var ipCount: nat
    var code: Code
    ghost var live: set<TreeNode>

    ghost function Shared(): State
      reads this
    {
      State(ipCount, code)
    }

    method Malloc() returns (n: TreeNode)
      modifies this`live
      ensures fresh(n) && live == old(live) + {n}
    {
      n := new TreeNode();
      live := live + {n};
    }

    /** Only a live node may be freed, so none is freed twice. */
    method Free(n: TreeNode)
      requires n in live
      modifies this`live
      ensures live == old(live) - {n}
    {
      live := live - {n};
    }

    /** The result of building `f`: the specified tree or null, and the specified shared state. The
        nodes of the returned tree are exactly the ones allocated on balance. */
    ghost predicate Built(f: Filter, s: State, before: set<TreeNode>, n: TreeNode?)
      reads this, n, if n != null then n.repr else {}
    {
      && Shared() == Build(f, s).1
      && (n == null <==> Build(f, s).0.None?)
      && (n == null ==> live == before)
      && (n != null ==> n.Valid() && n.tree == Build(f, s).0.value && n.repr !! before && live == before + n.repr)
    }

    method BuildAddrNode(f: Filter) returns (n: TreeNode?)
      requires f.Addr?
      modifies this
      ensures Built(f, old(Shared()), old(live), n) && (n != null ==> fresh(n.repr))
    {
      if !f.equality {
        code := NoEquality;
        return null;
      }
      ipCount := ipCount + 1;
      if ipCount > MAX_IP_ADDRESSES {
        code := Limit;
        return null;
      }
      if f.masked {
        code := Masked;
        return null;
      }
      n := Malloc();
      n.kind, n.addr := IsAddress, f.addr;
      n.tree, n.repr := Leaf(f.addr), {n};
    }

    /** The node to be used instead of an operator node; the node itself is left to the caller. */
    method PruneOperSubtree(node: TreeNode) returns (r: TreeNode?)
      requires node.kind.IsAnd? || node.kind.IsOr?
      requires node in live
      requires node.left != null ==> node.left.Valid() && node.left.repr <= live && node !in node.left.repr
      requires node.right != null ==> node.right.Valid() && node.right.repr <= live && node !in node.right.repr
      requires node.left != null && node.right != null ==> node.left.repr !! node.right.repr
      modifies this`live, node`tree, node`repr
      ensures var l := if old(node.left) == null then None else Some(old(node.left.tree));
        var t := Prune(node.kind.IsAnd?, l, if old(node.right) == null then None else Some(old(node.right.tree)));
        && (r == null <==> t.None?)
        && (r != null ==> r.Valid() && r.tree == t.value)
      ensures r != node && r != null ==> node !in r.repr && r.repr <= TreeNodesBelow(old(node.left), old(node.right))
      ensures r == node ==> node.repr == {node} + TreeNodesBelow(old(node.left), old(node.right))
      ensures live == old(live) - TreeNodesBelow(old(node.left), old(node.right)) + (if r == null then {} else r.repr)
    {
      if node.left == null && node.right == null {
        return null;
      } else if node.left == null {
        return node.right;
      } else if node.right == null {
        return node.left;
      } else if node.left.kind.IsAddress? && node.right.kind.IsAddress? && node.left.addr == node.right.addr {
        Free(node.right);
        return node.left;
      }
      node.tree := Oper(node.kind.IsAnd?, node.left.tree, node.right.tree);
      node.repr := {node} + node.left.repr + node.right.repr;
      return node;
    }

    method BuildOperNode(f: Filter) returns (n: TreeNode?)
      requires f.And? || f.Or? || f.Not?
      modifies this
      ensures Built(f, old(Shared()), old(live), n) && (n != null ==> fresh(n.repr))
      decreases f, 1
    {
      if f.Not? {
        code := Ok;
        return null;
      }
      var node := Malloc();
      node.kind := if f.And? then IsAnd else IsOr;
      BuildChildren(f, node);
      ghost var (l, s1) := Build(f.left, old(Shared()));
      ghost var (r, s2) := Build(f.right, s1);
      n := Reduce(node, l, r, old(live));
    }

    /** The pruned tree; the operator node is freed if it is not the root of it. */
    method Reduce(node: TreeNode, ghost l: Option<Tree>, ghost r: Option<Tree>, ghost before: set<TreeNode>)
      returns (n: TreeNode?)
      requires node.kind.IsAnd? || node.kind.IsOr?
      requires (node.left == null <==> l.None?) && (node.right == null <==> r.None?)
      requires node.left != null ==> node.left.Valid() && node.left.tree == l.value && node !in node.left.repr
      requires node.right != null ==> node.right.Valid() && node.right.tree == r.value && node !in node.right.repr
      requires node.left != null && node.right != null ==> node.left.repr !! node.right.repr
      requires TreeNodesBelow(node.left, node.right) !! before && node !in before
      requires live == before + {node} + TreeNodesBelow(node.left, node.right)
      modifies this`live, node`tree, node`repr
      ensures n == null <==> Prune(node.kind.IsAnd?, l, r).None?
      ensures n == null ==> live == before
      ensures n != null ==>
        && n.Valid() && n.tree == Prune(node.kind.IsAnd?, l, r).value
        && n.repr <= {node} + TreeNodesBelow(node.left, node.right)
        && live == before + n.repr
    {
      ghost var below := TreeNodesBelow(node.left, node.right);
      n := PruneOperSubtree(node);
      WhatStays(before, below, node, if n == null then {} else n.repr);
      if n != node {
        Free(node);
      }
    }

    method BuildChildren(f: Filter, node: TreeNode)
      requires f.And? || f.Or?
      requires node in live
      modifies this, node`left, node`right
      ensures var (l, s1) := Build(f.left, old(Shared()));
        var (r, s2) := Build(f.right, s1);
        && Shared() == s2
        && (node.left == null <==> l.None?) && (node.right == null <==> r.None?)
        && (node.left != null ==> node.left.Valid() && node.left.tree == l.value && fresh(node.left.repr))
        && (node.right != null ==> node.right.Valid() && node.right.tree == r.value && fresh(node.right.repr))
      ensures node.left != null && node.right != null ==> node.left.repr !! node.right.repr
      ensures live == old(live) + TreeNodesBelow(node.left, node.right)
      decreases f, 0
    {
      var l := BuildNode(f.left);
      label Between:
      var r := BuildNode(f.right);
      assert l != null ==> l.Valid() && l.repr == old@Between(l.repr) && l.tree == old@Between(l.tree);
      node.left, node.right := l, r;
      assert l != null ==> node !in l.repr && l.Valid();
      assert r != null ==> node !in r.repr && r.Valid();
    }

    method BuildNode(f: Filter) returns (n: TreeNode?)
      modifies this
      ensures Built(f, old(Shared()), old(live), n) && (n != null ==> fresh(n.repr))
      decreases f, 2
    {
      match f
      case Addr(_, _, _, _, _) => n := BuildAddrNode(f);
      case Other(_) => code := Ok; n := null;
      case _ => n := BuildOperNode(f);
    }

    /** Frees every node of the tree, once, and nothing else. */
    method FreeTree(n: TreeNode?)
      requires n != null ==> n.Valid() && n.repr <= live
      modifies this`live
      ensures live == old(live) - if n == null then {} else n.repr
      decreases if n == null then {} else n.repr
    {
      if n != null {
        if n.kind.IsAnd? || n.kind.IsOr? {
          FreeTree(n.left);
          FreeTree(n.right);
        }
        Free(n);
      }
    }

    /** The tree to be used, if any; if none is returned, nothing stays allocated. */
    method BfindexInit(f: Filter) returns (n: TreeNode?)
      modifies this
      ensures Shared() == Build(f, old(Shared())).1
      ensures n == null <==> Init(f, old(Shared())).None?
      ensures n == null ==> live == old(live)
      ensures n != null ==>
        n.Valid() && n.tree == Init(f, old(Shared())).value && fresh(n.repr) && live == old(live) + n.repr
    {
      n := BuildNode(f);
      if n != null && code != Ok {
        FreeTree(n);
        n := null;
      }
    }
  }

  /** The root of a thread's tree, or null if that build yields no tree. */
  ghost predicate Root(f: Filter, i: nat, n: TreeNode?)
    reads n, if n != null then n.repr else {}
  {
    && (n == null <==> Init(f, After(f, i)).None?)
    && (n != null ==> n.Valid() && n.tree == Init(f, After(f, i)).value)
  }

  ghost function NodesOf(roots: seq<TreeNode?>): set<TreeNode>
    reads set n | n in roots && n != null
  {
    set n, m | n in roots && n != null && m in n.repr :: m
  }

  /** The threads of a process build their trees one after another from the shared variables. */
  method InitThreads(builder: Builder, f: Filter, k: nat) returns (roots: seq<TreeNode?>)
    requires builder.Shared() == State(0, Ok)
    modifies builder
    ensures |roots| == k && AllRoots(f, roots)
    ensures builder.Shared() == After(f, k)
    ensures builder.live == old(builder.live) + NodesOf(roots)
  {
    roots := [];
    while |roots| < k
      invariant |roots| <= k && builder.Shared() == After(f, |roots|)
      invariant AllRoots(f, roots)
      invariant builder.live == old(builder.live) + NodesOf(roots)
    {
      var n := InitThread(builder, f, roots);
      NodesOfNext(roots, n);
      AllRootsNext(f, roots, n);
      roots := roots + [n];
    }
  }

  /** The build of one more thread, which leaves the trees of the others alone. */
  method InitThread(builder: Builder, f: Filter, ghost roots: seq<TreeNode?>) returns (n: TreeNode?)
    requires builder.Shared() == After(f, |roots|) && AllRoots(f, roots)
    modifies builder
    ensures builder.Shared() == After(f, |roots| + 1) && Root(f, |roots|, n)
    ensures AllRoots(f, roots)
    ensures NodesOf(roots) == old(NodesOf(roots))
    ensures builder.live == old(builder.live) + if n == null then {} else n.repr
  {
    n := builder.BfindexInit(f);
  }

  /** Each thread has the root of its own build. */
  ghost predicate AllRoots(f: Filter, roots: seq<TreeNode?>)
    reads NodesAndBelow(roots)
  {
    forall i | 0 <= i < |roots| :: Root(f, i, roots[i])
  }

  ghost function NodesAndBelow(roots: seq<TreeNode?>): set<TreeNode>
    reads set n | n in roots && n != null
  {
    (set n: TreeNode | n in roots) + NodesOf(roots)
  }

  lemma AllRootsNext(f: Filter, roots: seq<TreeNode?>, n: TreeNode?)
    requires AllRoots(f, roots) && Root(f, |roots|, n)
    ensures AllRoots(f, roots + [n])
  {
    forall i | 0 <= i < |roots + [n]|
      ensures Root(f, i, (roots + [n])[i])
    {
      assert i < |roots| ==> Root(f, i, roots[i]);
    }
  }

  lemma NodesOfNext(roots: seq<TreeNode?>, n: TreeNode?)
    ensures NodesOf(roots + [n]) == NodesOf(roots) + if n == null then {} else n.repr
  {
  }

  /** The nodes left if all below an operator node are given up but the ones of one tree. */
  lemma WhatStays<T>(before: set<T>, below: set<T>, node: T, kept: set<T>)
    requires below !! before && node !in before && node !in below
    ensures kept <= below ==> before + {node} + below - below + kept - {node} == before + kept
    ensures kept == {node} + below ==> before + {node} + below - below + kept == before + kept
  {
  }

  ghost function TreeNodesBelow(l: TreeNode?, r: TreeNode?): set<TreeNode>
    reads l, r
  {
    (if l == null then {} else l.repr) + (if r == null then {} else r.repr)
  }

  /** The lookup on the allocated tree. */
  method TreeContains(n: TreeNode, index: Address -> bool) returns (r: bool)
    requires n.Valid()
    ensures r == Contains(index, n.tree)
    decreases n.repr
  {
    match n.kind
    case IsAnd =>
      r := TreeContains(n.left, index);
      if r {
        r := TreeContains(n.right, index);
      }
    case IsOr =>
      r := TreeContains(n.left, index);
      if !r {
        r := TreeContains(n.right, index);
      }
    case IsAddress =>
      r := index(n.addr);
  }

  /** Whether a slave may skip a file: with a tree of a sound filter, never one with a match. */
  method MayMatch(f: Filter, s: State, n: TreeNode, index: Option<Address -> bool>, ghost file: seq<Flow>)
    returns (r: bool)
    requires n.Valid() && Init(f, s) == Some(n.tree) && !HalfOr(f, s)
    requires index.Some? ==> IndexOf(index.value, file)
    ensures r == FileMayMatch(index, n.tree)
    ensures !r ==> forall flow | flow in file :: !Match(f, flow)
  {
    SoundWithoutHalfOr(f, s);
    if index.None? {
      return true;
    }
    r := TreeContains(n, index.value);
  }
}
