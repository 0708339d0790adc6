/**
 * `Tree::assemble_tree` (src/fs/erdtree/tree/mod.rs): turns the root and the buckets the
 * aggregator produced into a tree. A node with a bucket takes the bucket as its children
 * (removing it from the map), assembles its child directories in order, becomes as large
 * as the sum of its children's sizes when that sum is positive, and finally sorts its
 * children when an order is configured. The buckets are threaded through the recursion,
 * so a bucket is used at most once.
 */
module Assembler {
  import opened Wrappers
  import opened ErdNode
  import opened Sorting
  import opened Aggregator

  /** The configured order: `None` keeps arrival order, `Some(le)` sorts stably by `le`. */
  type Order = Option<(Node, Node) -> bool>

  lemma SubsetCard<T>(a: set<T>, b: set<T>)
    requires a <= b
    ensures |a| <= |b|
  {
    assert b == a + (b - a);
  }

  /** `dir_size`: the sizes of `cs`, a missing size counting as zero. */
  function SumSizes(cs: seq<Node>): nat
  {
    if |cs| == 0 then 0 else SumSizes(cs[..|cs| - 1]) + cs[|cs| - 1].fileSize.GetOr(0)
  }

  /** Attaches `n`'s bucket, if it has one, and assembles below it. The result is the
      assembled node and the buckets left over. */
  function Assemble(n: Node, b: Branches, order: Order): (r: (Node, Branches))
    ensures forall p :: p in r.1 ==> p in b && r.1[p] == b[p]
    ensures n.path !in b ==> r == (n, b)
    ensures n.path in b ==>
      && n.path !in r.1
      && r.0.children.Set?
      && |r.0.children.nodes| == |b[n.path]|
    ensures r.0.(children := n.children, fileSize := n.fileSize) == n
    decreases |b.Keys|, 0
  {
    if n.path !in b then (n, b)
    else
      var rest := b - {n.path};
      var (cs, left) := AssembleChildren(b[n.path], rest, order);
      var withChildren := n.SetChildren(cs);
      var dirSize := SumSizes(cs);
      var sized := if dirSize > 0 then withChildren.SetFileSize(dirSize) else withChildren;
      match order
      case None => (sized, left)
      case Some(le) => (sized.SetChildren(Sort(le, cs)), left)
  }

  /** Assembles every directory among `cs`, first to last, each seeing the buckets the
      earlier ones left. Non-directories are kept as they are. */
  function AssembleChildren(cs: seq<Node>, b: Branches, order: Order): (r: (seq<Node>, Branches))
    ensures forall p :: p in r.1 ==> p in b && r.1[p] == b[p]
    ensures |r.0| == |cs|
    ensures forall i :: 0 <= i < |cs| ==> r.0[i].(children := cs[i].children, fileSize := cs[i].fileSize) == cs[i]
    ensures forall i :: 0 <= i < |cs| && !cs[i].IsDir() ==> r.0[i] == cs[i]
    decreases |b.Keys|, |cs|
  {
    if |cs| == 0 then ([], b)
    else
      var (init, b1) := AssembleChildren(cs[..|cs| - 1], b, order);
      var last := cs[|cs| - 1];
      SubsetCard(b1.Keys, b.Keys);
      var (last', b2) := if last.IsDir() then Assemble(last, b1, order) else (last, b1);
      (init + [last'], b2)
  }

  // ---------------------------------------------------------------------------------
  // Directory sizes are the totals of the files beneath them.

  /** A node as it leaves the aggregator: no children yet, and no size for a directory. */
  predicate Fresh(n: Node)
  {
    n.children.Unset? && (n.IsDir() ==> n.fileSize.None?)
  }

  predicate FreshBranches(b: Branches)
  {
    forall p, c :: p in b && c in b[p] ==> Fresh(c)
  }

  /** Reference definition: the sizes of the childless nodes of a tree, added up. */
  function LeafTotal(n: Node): nat
    decreases n
  {
    match n.children
    case Unset => n.fileSize.GetOr(0)
    case Set(cs) => LeafTotalAll(cs)
  }

  function LeafTotalAll(cs: seq<Node>): nat
    decreases cs
  {
    if |cs| == 0 then 0 else LeafTotalAll(cs[..|cs| - 1]) + LeafTotal(cs[|cs| - 1])
  }

  /** Every node of the tree is exactly as large as the files beneath it. */
  predicate SizesAreTotals(n: Node)
    decreases n
  {
    && n.fileSize.GetOr(0) == LeafTotal(n)
    && match n.children
       case Unset => true
       case Set(cs) => AllSizesAreTotals(cs)
  }

  predicate AllSizesAreTotals(cs: seq<Node>)
    decreases cs
  {
    forall i :: 0 <= i < |cs| ==> SizesAreTotals(cs[i])
  }

  lemma {:induction false} LeafTotalAllAppend(a: seq<Node>, x: Node)
    ensures LeafTotalAll(a + [x]) == LeafTotalAll(a) + LeafTotal(x)
  {
    assert (a + [x])[..|a + [x]| - 1] == a;
  }

  lemma {:induction false} LeafTotalInsertBack(le: (Node, Node) -> bool, s: seq<Node>, x: Node)
    ensures LeafTotalAll(InsertBack(le, s, x)) == LeafTotalAll(s) + LeafTotal(x)
    decreases |s|
  {
    if |s| == 0 || le(s[|s| - 1], x) {
      LeafTotalAllAppend(s, x);
    } else {
      var init := s[..|s| - 1];
      LeafTotalInsertBack(le, init, x);
      LeafTotalAllAppend(InsertBack(le, init, x), s[|s| - 1]);
    }
  }

  /** Sorting does not change the total. */
  lemma {:induction false} LeafTotalSort(le: (Node, Node) -> bool, s: seq<Node>)
    ensures LeafTotalAll(Sort(le, s)) == LeafTotalAll(s)
    decreases |s|
  {
    if |s| > 0 {
      LeafTotalSort(le, s[..|s| - 1]);
      LeafTotalInsertBack(le, Sort(le, s[..|s| - 1]), s[|s| - 1]);
    }
  }

  /** Once each child's size is its total, the directory's sum is the total below it. */
  lemma {:induction false} SumSizesIsTotal(cs: seq<Node>)
    requires AllSizesAreTotals(cs)
    ensures SumSizes(cs) == LeafTotalAll(cs)
    decreases |cs|
  {
    if |cs| > 0 {
      assert SizesAreTotals(cs[|cs| - 1]);
      SumSizesIsTotal(cs[..|cs| - 1]);
    }
  }

  lemma SortKeepsTotals(le: (Node, Node) -> bool, cs: seq<Node>)
    requires AllSizesAreTotals(cs)
    ensures AllSizesAreTotals(Sort(le, cs))
  {
    var s := Sort(le, cs);
    forall i | 0 <= i < |s|
      ensures SizesAreTotals(s[i])
    {
      assert s[i] in multiset(cs);
      var j :| 0 <= j < |cs| && cs[j] == s[i];
    }
  }

  /** Assembling a fresh directory makes every node of its tree as large as the files
      beneath it. */
  lemma {:induction false} AssembleSizes(n: Node, b: Branches, order: Order)
    requires Fresh(n) && n.IsDir() && FreshBranches(b)
    ensures SizesAreTotals(Assemble(n, b, order).0)
    decreases |b.Keys|, 0
  {
    if n.path in b {
      var rest := b - {n.path};
      var (cs, left) := AssembleChildren(b[n.path], rest, order);
      forall i | 0 <= i < |b[n.path]|
        ensures Fresh(b[n.path][i])
      {
        assert b[n.path][i] in b[n.path];
      }
      AssembleChildrenSizes(b[n.path], rest, order);
      SumSizesIsTotal(cs);
      match order {
        case None =>
        case Some(le) =>
          LeafTotalSort(le, cs);
          SortKeepsTotals(le, cs);
      }
    }
  }

  lemma {:induction false} AssembleChildrenSizes(cs: seq<Node>, b: Branches, order: Order)
    requires forall i :: 0 <= i < |cs| ==> Fresh(cs[i])
    requires FreshBranches(b)
    ensures AllSizesAreTotals(AssembleChildren(cs, b, order).0)
    decreases |b.Keys|, |cs|
  {
    if |cs| > 0 {
      var init := cs[..|cs| - 1];
      var (done, b1) := AssembleChildren(init, b, order);
      var last := cs[|cs| - 1];
      AssembleChildrenSizes(init, b, order);
      SubsetCard(b1.Keys, b.Keys);
      if last.IsDir() {
        AssembleSizes(last, b1, order);
      }
      var r := AssembleChildren(cs, b, order).0;
      forall i | 0 <= i < |r|
        ensures SizesAreTotals(r[i])
      {
        if i < |done| {
          assert r[i] == done[i];
        }
      }
    }
  }

  /** The root's size is the total of every file in the tree. */
  lemma RootSizeIsTotal(root: Node, b: Branches, order: Order)
    requires Fresh(root) && root.IsDir() && FreshBranches(b)
    ensures Assemble(root, b, order).0.fileSize.GetOr(0) == LeafTotal(Assemble(root, b, order).0)
  {
    AssembleSizes(root, b, order);
  }

  lemma {:induction false} SumSizesInsertBack(le: (Node, Node) -> bool, s: seq<Node>, x: Node)
    ensures SumSizes(InsertBack(le, s, x)) == SumSizes(s) + x.fileSize.GetOr(0)
    decreases |s|
  {
    if |s| == 0 || le(s[|s| - 1], x) {
      assert (s + [x])[..|s|] == s;
    } else {
      var init := s[..|s| - 1];
      var ins := InsertBack(le, init, x);
      SumSizesInsertBack(le, init, x);
      assert (ins + [s[|s| - 1]])[..|ins|] == ins;
    }
  }

  /** Sorting does not change the sum of the children's sizes. */
  lemma {:induction false} SumSizesSort(le: (Node, Node) -> bool, s: seq<Node>)
    ensures SumSizes(Sort(le, s)) == SumSizes(s)
    decreases |s|
  {
    if |s| > 0 {
      SumSizesSort(le, s[..|s| - 1]);
      SumSizesInsertBack(le, Sort(le, s[..|s| - 1]), s[|s| - 1]);
    }
  }

  /** The size rule of one directory: it takes the sum of its assembled children's sizes
      when that sum is positive and keeps the size it had otherwise; either way the sum is
      also that of its children as finally ordered. */
  lemma AssembleSizeRule(n: Node, b: Branches, order: Order)
    requires n.path in b
    ensures
      var cs := AssembleChildren(b[n.path], b - {n.path}, order).0;
      var r := Assemble(n, b, order).0;
      && r.children.Set?
      && SumSizes(r.children.nodes) == SumSizes(cs)
      && (SumSizes(cs) > 0 ==> r.fileSize == Some(SumSizes(cs)))
      && (SumSizes(cs) == 0 ==> r.fileSize == n.fileSize)
  {
    if order.Some? {
      SumSizesSort(order.value, AssembleChildren(b[n.path], b - {n.path}, order).0);
    }
  }

  // ---------------------------------------------------------------------------------
  // Buckets are used once.

  /** Every directory of the tree that `n` heads has had its bucket taken out of `left`. */
  predicate Drained(n: Node, left: Branches)
    decreases n
  {
    && (n.IsDir() ==> n.path !in left)
    && match n.children
       case Unset => true
       case Set(cs) => AllDrained(cs, left)
  }

  predicate AllDrained(cs: seq<Node>, left: Branches)
    decreases cs
  {
    forall i :: 0 <= i < |cs| ==> Drained(cs[i], left)
  }

  /** Removing more buckets keeps a drained tree drained. */
  lemma {:induction false} DrainedShrink(n: Node, l1: Branches, l2: Branches)
    requires Drained(n, l1) && l2.Keys <= l1.Keys
    ensures Drained(n, l2)
    decreases n
  {
    match n.children {
      case Unset =>
      case Set(cs) =>
        forall i | 0 <= i < |cs|
          ensures Drained(cs[i], l2)
        {
          DrainedShrink(cs[i], l1, l2);
        }
    }
  }

  lemma SortKeepsDrained(le: (Node, Node) -> bool, cs: seq<Node>, left: Branches)
    requires AllDrained(cs, left)
    ensures AllDrained(Sort(le, cs), left)
  {
    var s := Sort(le, cs);
    forall i | 0 <= i < |s|
      ensures Drained(s[i], left)
    {
      assert s[i] in multiset(cs);
      var j :| 0 <= j < |cs| && cs[j] == s[i];
    }
  }

  /** Assembling a fresh directory leaves no bucket behind for any directory of the tree it
      builds: the buckets it attached are gone, and so are those it never had. */
  lemma {:induction false} AssembleDrains(n: Node, b: Branches, order: Order)
    requires Fresh(n) && n.IsDir() && FreshBranches(b)
    ensures Drained(Assemble(n, b, order).0, Assemble(n, b, order).1)
    decreases |b.Keys|, 0
  {
    if n.path in b {
      var rest := b - {n.path};
      var (cs, left) := AssembleChildren(b[n.path], rest, order);
      forall i | 0 <= i < |b[n.path]|
        ensures Fresh(b[n.path][i])
      {
        assert b[n.path][i] in b[n.path];
      }
      AssembleChildrenDrains(b[n.path], rest, order);
      match order {
        case None =>
        case Some(le) => SortKeepsDrained(le, cs, left);
      }
    }
  }

  lemma {:induction false} AssembleChildrenDrains(cs: seq<Node>, b: Branches, order: Order)
    requires forall i :: 0 <= i < |cs| ==> Fresh(cs[i])
    requires FreshBranches(b)
    ensures AllDrained(AssembleChildren(cs, b, order).0, AssembleChildren(cs, b, order).1)
    decreases |b.Keys|, |cs|
  {
    if |cs| > 0 {
      var init := cs[..|cs| - 1];
      var (done, b1) := AssembleChildren(init, b, order);
      var last := cs[|cs| - 1];
      AssembleChildrenDrains(init, b, order);
      SubsetCard(b1.Keys, b.Keys);
      var (last', b2) := if last.IsDir() then Assemble(last, b1, order) else (last, b1);
      if last.IsDir() {
        AssembleDrains(last, b1, order);
      }
      var r := AssembleChildren(cs, b, order);
      assert r == (done + [last'], b2);
      forall i | 0 <= i < |r.0|
        ensures Drained(r.0[i], b2)
      {
        if i < |done| {
          assert r.0[i] == done[i];
          DrainedShrink(done[i], b1, b2);
        }
      }
    }
  }

  // ---------------------------------------------------------------------------------
  // Ordering.

  /** With an order, the children of an assembled directory come out sorted, and
      children that tie keep their arrival order. */
  lemma AssembleSorted(n: Node, b: Branches, le: (Node, Node) -> bool)
    requires TotalPreorder(le)
    requires n.path in b
    ensures
      var r := Assemble(n, b, Some(le)).0;
      var cs := AssembleChildren(b[n.path], b - {n.path}, Some(le)).0;
      && r.children == Set(Sort(le, cs))
      && Sorted(le, r.children.nodes)
      && multiset(r.children.nodes) == multiset(cs)
      && forall k :: Ties(le, r.children.nodes, k) == Ties(le, cs, k)
  {
    var cs := AssembleChildren(b[n.path], b - {n.path}, Some(le)).0;
    SortSorted(le, cs);
    forall k
      ensures Ties(le, Sort(le, cs), k) == Ties(le, cs, k)
    {
      SortStable(le, cs, k);
    }
  }

  /** Without an order, the children keep the order their bucket received them in. */
  lemma AssembleUnsorted(n: Node, b: Branches)
    requires n.path in b
    ensures
      var r := Assemble(n, b, None).0;
      && r.children.Set?
      && |r.children.nodes| == |b[n.path]|
      && forall i :: 0 <= i < |b[n.path]| ==>
        r.children.nodes[i].(children := b[n.path][i].children, fileSize := b[n.path][i].fileSize) == b[n.path][i]
  {
  }
}
