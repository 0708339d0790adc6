/**
 * The consumer side of `Tree::traverse` (src/fs/erdtree/tree/mod.rs): the loop that
 * receives nodes from the walker and sorts them into per-directory buckets. The channel
 * is replaced by the sequence of nodes in the order they were received.
 *
 * The loop does not hold back an entry whose parent bucket does not exist yet: it
 * creates an empty bucket for the parent and drops the entry. So the buckets are exact
 * only when every entry's parent directory was received before it (`ParentsFirst`), and
 * the result then depends on arrival order only through the order inside each bucket.
 */
module Aggregator {
  import opened Wrappers
  import opened Paths
  import opened ErdNode

  /** Directory path to the children collected for it. */
  type Branches = map<Path, seq<Node>>

  /** The aggregation failures: a non-root entry with no parent path, or no root. */
  datatype Error = ExpectedParent | MissingRoot

  /** The loop's variables: the buckets and the root seen last. */
  datatype State = State(branches: Branches, root: Option<Node>)

  const Initial: State := State(map[], None)

  /** A directory at depth 0 is taken as the root. */
  predicate IsRootEntry(n: Node)
  {
    n.IsDir() && n.depth == 0
  }

  /** One iteration of the receive loop. */
  function Step(st: State, n: Node): (r: Result<State, Error>)
    // A directory gets a bucket, and a bucket that exists is never replaced.
    ensures r.Success? && n.IsDir() ==> n.path in r.value.branches
    ensures r.Success? && n.IsDir() && n.path in st.branches ==>
      r.value.branches[n.path] == st.branches[n.path]
    ensures r.Success? && n.IsDir() && n.path !in st.branches ==> r.value.branches[n.path] == []
    // A root directory is kept aside and goes into no bucket.
    ensures IsRootEntry(n) ==>
      && r.Success?
      && r.value.root == Some(n)
      && r.value.branches.Keys == st.branches.Keys + {n.path}
      && forall q :: q in st.branches ==> r.value.branches[q] == st.branches[q]
    // Any other entry needs a parent path.
    ensures !IsRootEntry(n) && Parent(n.path).None? ==> r == Failure(ExpectedParent)
    ensures !IsRootEntry(n) && Parent(n.path).Some? ==>
      var p := Parent(n.path).value;
      && r.Success?
      && r.value.root == st.root
      && r.value.branches.Keys == st.branches.Keys + {p} + (if n.IsDir() then {n.path} else {})
      && (p in st.branches ==> r.value.branches[p] == st.branches[p] + [n])
      && (p !in st.branches ==> r.value.branches[p] == [])
      && forall q :: q in st.branches && q != p ==> r.value.branches[q] == st.branches[q]
  {
    var b := if n.IsDir() && n.path !in st.branches then st.branches[n.path := []] else st.branches;
    if IsRootEntry(n) then Success(State(b, Some(n)))
    else
      match n.ParentPathBuf()
      case None => Failure(ExpectedParent)
      case Some(p) =>
        ParentShorter(n.path);
        if p in b then Success(State(b[p := b[p] + [n]], st.root))
        else Success(State(b[p := []], st.root))
  }

  /** The loop over everything received, stopping at the first failure. */
  function Receive(s: seq<Node>): Result<State, Error>
  {
    if |s| == 0 then Success(Initial)
    else
      match Receive(s[..|s| - 1])
      case Failure(e) => Failure(e)
      case Success(st) => Step(st, s[|s| - 1])
  }

  /** The aggregation thread's result: the root and the buckets. */
  function Traverse(s: seq<Node>): Result<(Node, Branches), Error>
  {
    match Receive(s)
    case Failure(e) => Failure(e)
    case Success(st) =>
      if st.root.None? then Failure(MissingRoot) else Success((st.root.value, st.branches))
  }

  /** The last root entry received, if any. */
  function LastRoot(s: seq<Node>): (r: Option<Node>)
    ensures r.Some? ==> r.value in s && IsRootEntry(r.value)
  {
    if |s| == 0 then None
    else if IsRootEntry(s[|s| - 1]) then Some(s[|s| - 1])
    else LastRoot(s[..|s| - 1])
  }

  lemma {:induction false} LastRootExists(s: seq<Node>, i: nat)
    requires i < |s| && IsRootEntry(s[i])
    ensures LastRoot(s).Some?
    decreases |s|
  {
    if !IsRootEntry(s[|s| - 1]) {
      assert s[..|s| - 1][i] == s[i];
      LastRootExists(s[..|s| - 1], i);
    }
  }

  /** The root is the last depth-0 directory received: a later one replaces an earlier one. */
  lemma {:induction false} ReceiveRoot(s: seq<Node>)
    ensures Receive(s).Success? ==> Receive(s).value.root == LastRoot(s)
    decreases |s|
  {
    if |s| > 0 {
      ReceiveRoot(s[..|s| - 1]);
    }
  }

  /** A failure stops the loop: every longer stream fails in the same way. */
  lemma {:induction false} ReceiveFailureSticks(s: seq<Node>, k: nat)
    requires k <= |s| && Receive(s[..k]).Failure?
    ensures Receive(s) == Receive(s[..k])
    decreases |s| - k
  {
    if k < |s| {
      assert s[..k + 1][..k] == s[..k];
      ReceiveFailureSticks(s, k + 1);
    } else {
      assert s[..k] == s;
    }
  }

  /** The outcome of aggregation: `MissingRoot` exactly when the loop ran through without
      meeting a depth-0 directory, otherwise the last such directory as the root. */
  lemma TraverseOutcome(s: seq<Node>)
    ensures Traverse(s).Success? <==> Receive(s).Success? && LastRoot(s).Some?
    ensures Receive(s).Success? && LastRoot(s).None? ==> Traverse(s) == Failure(MissingRoot)
    ensures Receive(s).Failure? ==> Traverse(s) == Failure(ExpectedParent)
    ensures Traverse(s).Success? ==> Traverse(s).value.0 == LastRoot(s).value
  {
    ReceiveRoot(s);
    ReceiveErrorIsExpectedParent(s);
  }

  lemma {:induction false} ReceiveErrorIsExpectedParent(s: seq<Node>)
    ensures Receive(s).Failure? ==> Receive(s).error == ExpectedParent
    decreases |s|
  {
    if |s| > 0 {
      ReceiveErrorIsExpectedParent(s[..|s| - 1]);
    }
  }

  /** A stream with no depth-0 directory fails. */
  lemma NoRootFails(s: seq<Node>)
    requires forall i :: 0 <= i < |s| ==> !IsRootEntry(s[i])
    ensures Traverse(s).Failure?
  {
    TraverseOutcome(s);
  }

  // ---------------------------------------------------------------------------------
  // Streams in which every entry's parent directory arrives before the entry.

  /** Paths of the directories received. */
  function DirPaths(s: seq<Node>): set<Path>
  {
    if |s| == 0 then {}
    else DirPaths(s[..|s| - 1]) + (if s[|s| - 1].IsDir() then {s[|s| - 1].path} else {})
  }

  /** The non-root entries whose parent path is `p`, in arrival order. */
  function ChildrenOf(s: seq<Node>, p: Path): seq<Node>
  {
    if |s| == 0 then []
    else
      var n := s[|s| - 1];
      ChildrenOf(s[..|s| - 1], p) + (if BelongsTo(n, p) then [n] else [])
  }

  predicate BelongsTo(n: Node, p: Path)
  {
    !IsRootEntry(n) && Parent(n.path) == Some(p)
  }

  /** Every non-root entry's parent directory was received before it. */
  predicate ParentsFirst(s: seq<Node>)
  {
    |s| == 0 ||
      var n := s[|s| - 1];
      && ParentsFirst(s[..|s| - 1])
      && (!IsRootEntry(n) ==> Parent(n.path).Some? && Parent(n.path).value in DirPaths(s[..|s| - 1]))
  }

  /** Without its directory, a path has collected no children. */
  lemma {:induction false} NoChildrenBeforeParent(s: seq<Node>, p: Path)
    requires ParentsFirst(s)
    requires p !in DirPaths(s)
    ensures ChildrenOf(s, p) == []
    decreases |s|
  {
    if |s| > 0 {
      NoChildrenBeforeParent(s[..|s| - 1], p);
    }
  }

  /** The buckets describe the stream received so far: one per directory, each holding the
      entry's children in arrival order. */
  predicate Describes(st: State, s: seq<Node>)
  {
    && st.branches.Keys == DirPaths(s)
    && forall p :: p in st.branches ==> st.branches[p] == ChildrenOf(s, p)
  }

  /** The bookkeeping of one more entry. */
  lemma GrowStream(s: seq<Node>, p: Path)
    requires |s| > 0
    ensures var n := s[|s| - 1];
      DirPaths(s) == DirPaths(s[..|s| - 1]) + (if n.IsDir() then {n.path} else {})
    ensures var n := s[|s| - 1];
      ChildrenOf(s, p) == ChildrenOf(s[..|s| - 1], p) + (if BelongsTo(n, p) then [n] else [])
  {
  }

  /** The facts about the last entry of a parents-first stream that one step relies on. */
  lemma LastEntryFacts(s: seq<Node>)
    requires |s| > 0 && ParentsFirst(s)
    ensures ParentsFirst(s[..|s| - 1])
    ensures var n := s[|s| - 1];
      !IsRootEntry(n) ==> Parent(n.path).Some? && Parent(n.path).value in DirPaths(s[..|s| - 1])
  {
  }

  /** One step adds exactly the bucket of a new directory. */
  lemma StepKeys(st: State, s: seq<Node>)
    requires |s| > 0 && ParentsFirst(s) && Describes(st, s[..|s| - 1])
    ensures Step(st, s[|s| - 1]).Success? && Step(st, s[|s| - 1]).value.branches.Keys == DirPaths(s)
  {
    LastEntryFacts(s);
    GrowStream(s, s[|s| - 1].path);
  }

  /** One step puts the entry in its parent's bucket and nowhere else. */
  lemma StepChildren(st: State, s: seq<Node>, p: Path)
    requires |s| > 0 && ParentsFirst(s) && Describes(st, s[..|s| - 1])
    requires Step(st, s[|s| - 1]).Success? && p in Step(st, s[|s| - 1]).value.branches
    ensures Step(st, s[|s| - 1]).value.branches[p] == ChildrenOf(s, p)
  {
    var init := s[..|s| - 1];
    var n := s[|s| - 1];
    LastEntryFacts(s);
    GrowStream(s, p);
    if p !in st.branches {
      NoChildrenBeforeParent(init, p);
    }
    if !IsRootEntry(n) {
      ParentShorter(n.path);
    }
  }

  /** One step keeps the buckets describing the stream when the entry's parent is known. */
  lemma StepDescribes(st: State, s: seq<Node>)
    requires |s| > 0 && ParentsFirst(s) && Describes(st, s[..|s| - 1])
    ensures Step(st, s[|s| - 1]).Success? && Describes(Step(st, s[|s| - 1]).value, s)
  {
    StepKeys(st, s);
    forall p | p in Step(st, s[|s| - 1]).value.branches
      ensures Step(st, s[|s| - 1]).value.branches[p] == ChildrenOf(s, p)
    {
      StepChildren(st, s, p);
    }
  }

  lemma {:induction false} ReceiveParentsFirst(s: seq<Node>)
    requires ParentsFirst(s)
    ensures Receive(s).Success? && Describes(Receive(s).value, s)
    decreases |s|
  {
    if |s| > 0 {
      ReceiveParentsFirst(s[..|s| - 1]);
      StepDescribes(Receive(s[..|s| - 1]).value, s);
    }
  }

  /** The first entry of such a stream is a root directory. */
  lemma ParentsFirstStartsAtRoot(s: seq<Node>)
    requires ParentsFirst(s) && |s| > 0
    ensures IsRootEntry(s[0])
  {
    if |s| == 1 {
      assert s[..0] == [];
    } else {
      assert s[..|s| - 1][0] == s[0];
      ParentsFirstStartsAtRoot(s[..|s| - 1]);
    }
  }

  /** When every entry's parent directory arrives before it, aggregation succeeds, there
      is one bucket per directory received, and every non-root entry is in exactly the
      bucket of its parent, in arrival order. */
  lemma TraverseParentsFirst(s: seq<Node>)
    requires ParentsFirst(s) && |s| > 0
    ensures Traverse(s).Success? && LastRoot(s).Some?
    ensures Traverse(s).value.0 == LastRoot(s).value
    ensures Traverse(s).value.1.Keys == DirPaths(s)
    ensures forall p :: p in Traverse(s).value.1 ==> Traverse(s).value.1[p] == ChildrenOf(s, p)
  {
    ParentsFirstStartsAtRoot(s);
    LastRootExists(s, 0);
    ReceiveParentsFirst(s);
    TraverseOutcome(s);
  }

  lemma {:induction false} DirPathsMembers(s: seq<Node>, p: Path)
    ensures p in DirPaths(s) <==> exists x :: x in s && x.IsDir() && x.path == p
    decreases |s|
  {
    if |s| > 0 {
      var init := s[..|s| - 1];
      DirPathsMembers(init, p);
      assert s == init + [s[|s| - 1]];
      assert forall x :: x in s <==> x in init || x == s[|s| - 1];
    }
  }

  lemma {:induction false} ChildrenOfCount(s: seq<Node>, p: Path, x: Node)
    ensures multiset(ChildrenOf(s, p))[x] == if BelongsTo(x, p) then multiset(s)[x] else 0
    decreases |s|
  {
    if |s| > 0 {
      var init := s[..|s| - 1];
      var n := s[|s| - 1];
      ChildrenOfCount(init, p, x);
      assert s == init + [n];
      assert multiset(s) == multiset(init) + multiset{n};
      var added := if BelongsTo(n, p) then [n] else [];
      assert ChildrenOf(s, p) == ChildrenOf(init, p) + added;
      assert multiset(ChildrenOf(s, p)) == multiset(ChildrenOf(init, p)) + multiset(added);
    }
  }

  /** With the same entries and a single root value, the last root is the same. */
  lemma SameLastRoot(s1: seq<Node>, s2: seq<Node>)
    requires multiset(s1) == multiset(s2)
    requires LastRoot(s1).Some? && LastRoot(s2).Some?
    requires forall i, j :: 0 <= i < |s1| && 0 <= j < |s1| && IsRootEntry(s1[i]) && IsRootEntry(s1[j]) ==> s1[i] == s1[j]
    ensures LastRoot(s1) == LastRoot(s2)
  {
    var r1 := LastRoot(s1).value;
    var r2 := LastRoot(s2).value;
    assert r2 in multiset(s1);
    var i :| 0 <= i < |s1| && s1[i] == r1;
    var j :| 0 <= j < |s1| && s1[j] == r2;
  }

  lemma SameDirPaths(s1: seq<Node>, s2: seq<Node>)
    requires multiset(s1) == multiset(s2)
    ensures DirPaths(s1) == DirPaths(s2)
  {
    forall p
      ensures p in DirPaths(s1) <==> p in DirPaths(s2)
    {
      DirPathsMembers(s1, p);
      DirPathsMembers(s2, p);
      forall x
        ensures x in s1 <==> x in s2
      {
        assert x in s1 <==> x in multiset(s1);
        assert x in s2 <==> x in multiset(s2);
      }
    }
  }

  lemma SameChildren(s1: seq<Node>, s2: seq<Node>, p: Path)
    requires multiset(s1) == multiset(s2)
    ensures multiset(ChildrenOf(s1, p)) == multiset(ChildrenOf(s2, p))
  {
    forall x
      ensures multiset(ChildrenOf(s1, p))[x] == multiset(ChildrenOf(s2, p))[x]
    {
      ChildrenOfCount(s1, p, x);
      ChildrenOfCount(s2, p, x);
    }
  }

  /** For streams in which parents come first, arrival order does not matter beyond the
      order inside each bucket: two such streams with the same entries (and one root)
      give the same root, the same buckets, and the same entries in each bucket. */
  lemma OrderIndependent(s1: seq<Node>, s2: seq<Node>)
    requires ParentsFirst(s1) && ParentsFirst(s2) && |s1| > 0
    requires multiset(s1) == multiset(s2)
    requires forall i, j :: 0 <= i < |s1| && 0 <= j < |s1| && IsRootEntry(s1[i]) && IsRootEntry(s1[j]) ==> s1[i] == s1[j]
    ensures Traverse(s1).Success? && Traverse(s2).Success?
    ensures Traverse(s1).value.0 == Traverse(s2).value.0
    ensures Traverse(s1).value.1.Keys == Traverse(s2).value.1.Keys
    ensures forall p :: p in Traverse(s1).value.1 ==>
      multiset(Traverse(s1).value.1[p]) == multiset(Traverse(s2).value.1[p])
  {
    assert |s2| > 0 by {
      assert |multiset(s2)| == |multiset(s1)|;
    }
    TraverseParentsFirst(s1);
    TraverseParentsFirst(s2);
    SameLastRoot(s1, s2);
    SameDirPaths(s1, s2);
    forall p | p in Traverse(s1).value.1
      ensures multiset(Traverse(s1).value.1[p]) == multiset(Traverse(s2).value.1[p])
    {
      SameChildren(s1, s2, p);
    }
  }

  /** The receive loop written as the source writes it: a loop with early return. */
  method TraverseLoop(s: seq<Node>) returns (r: Result<(Node, Branches), Error>)
    ensures r == Traverse(s)
  {
    var branches: Branches := map[];
    var root: Option<Node> := None;
    var i := 0;
    while i < |s|
      invariant 0 <= i <= |s|
      invariant Receive(s[..i]) == Success(State(branches, root))
    {
      var node := s[i];
      assert s[..i + 1][..i] == s[..i] && s[..i + 1][i] == node;
      if node.IsDir() {
        if node.path !in branches {
          branches := branches[node.path := []];
        }
        if node.depth == 0 {
          root := Some(node);
          i := i + 1;
          continue;
        }
      }
      var parent := node.ParentPathBuf();
      if parent.None? {
        ReceiveFailureSticks(s, i + 1);
        return Failure(ExpectedParent);
      }
      if parent.value in branches {
        branches := branches[parent.value := branches[parent.value] + [node]];
      } else {
        branches := branches[parent.value := []];
      }
      i := i + 1;
    }
    assert s[..i] == s;
    if root.None? {
      return Failure(MissingRoot);
    }
    return Success((root.value, branches));
  }

  // ---------------------------------------------------------------------------------
  // A child that arrives before its directory is lost.

  function ExampleNode(components: seq<string>, depth: nat, ft: Entries.FileType): Node
  {
    Node(depth, None, Unset, "", Some(ft), None, Path(true, components), false, Ansi.Plain, None, Ansi.Plain)
  }

  /** With root `/r`, directory `/r/d` and file `/r/d/f`: received parents first, the file
      lands in the bucket of `/r/d`; received before `/r/d`, it is dropped and that bucket
      stays empty. */
  lemma OrphanDropped()
    ensures
      var root := ExampleNode(["r"], 0, Entries.Dir);
      var dir := ExampleNode(["r", "d"], 1, Entries.Dir);
      var file := ExampleNode(["r", "d", "f"], 2, Entries.File);
      && Traverse([root, dir, file]).Success?
      && Traverse([root, file, dir]).Success?
      && Traverse([root, dir, file]).value.1[dir.path] == [file]
      && Traverse([root, file, dir]).value.1[dir.path] == []
  {
    var root := ExampleNode(["r"], 0, Entries.Dir);
    var dir := ExampleNode(["r", "d"], 1, Entries.Dir);
    var file := ExampleNode(["r", "d", "f"], 2, Entries.File);
    var s1 := [root, dir, file];
    var s2 := [root, file, dir];
    assert s1[..2][..1] == [root] && s1[..2] == [root, dir] && s2[..2] == [root, file];
    assert s2[..2][..1] == [root];
    assert [root][..0] == [];
    assert file.path.components[..2] == dir.path.components;
    assert dir.path.components[..1] == root.path.components;
    assert Parent(file.path) == Some(dir.path);
    assert Parent(dir.path) == Some(root.path);
    assert dir.path != root.path && file.path != dir.path;
    var st1 := State(map[root.path := []], Some(root));
    assert Receive([root]) == Success(st1);
    var r12 := Receive(s1[..2]);
    assert r12 == Step(st1, dir);
    assert r12.Success? && r12.value.root == Some(root) && r12.value.branches[dir.path] == [];
    assert Receive(s1) == Step(r12.value, file);
    var r21 := Receive(s2[..2]);
    assert r21 == Step(st1, file);
    assert r21.Success? && r21.value.root == Some(root) && r21.value.branches[dir.path] == [];
    assert Receive(s2) == Step(r21.value, dir);
  }
}
