/**
 * `Display for Tree` (src/fs/erdtree/tree/mod.rs): the root on the first line, then a
 * pre-order walk of the children. Each line is a prefix of branch segments followed by
 * the node's own text. A child gets `├─` unless it is the last of its siblings (`└─`);
 * below it, its own children are indented by a continuation segment, a vertical bar when
 * more siblings follow and blank space after the last one. A child is only expanded when
 * it is a directory with `depth + 1 <= level`; the root's children are always printed.
 */
module TreeDisplay {
  import opened Wrappers
  import Text
  import opened ErdNode

  const SEP: string := "   "
  const VT: string := "\U{1B}[35m\U{2502}\U{1B}[0m  "
  const UPRT: string := "\U{1B}[35m\U{2514}\U{2500}\U{1B}[0m "
  const VTRT: string := "\U{1B}[35m\U{251C}\U{2500}\U{1B}[0m "

  /** The default depth limit, `usize::MAX`. */
  const USIZE_MAX: nat := 0xFFFF_FFFF_FFFF_FFFF

  /** A branch segment: the continuations `Sep` and `Vt`, the connectors `UpRt` and `VtRt`. */
  datatype Segment = Sep | Vt | UpRt | VtRt
  {
    predicate IsConnector()
    {
      this == UpRt || this == VtRt
    }

    function Text(): (r: string)
      ensures '\n' !in r
    {
      match this
      case Sep => SEP
      case Vt => VT
      case UpRt => UPRT
      case VtRt => VTRT
    }
  }

  /** One output line before it is turned into text. */
  datatype Line = Line(prefix: seq<Segment>, node: Node)

  /** A root line has no prefix; any other line ends in exactly one connector. */
  predicate WellFormedPrefix(p: seq<Segment>)
  {
    |p| > 0 ==>
      && p[|p| - 1].IsConnector()
      && forall k :: 0 <= k < |p| - 1 ==> !p[k].IsConnector()
  }

  /** The walk descends into `c` below a depth limit of `level`. */
  predicate Expands(c: Node, level: nat)
  {
    c.IsDir() && c.depth + 1 <= level && c.children.Set?
  }

  /** Every line starts with `base` and continues with a well-formed branch. */
  predicate Under(lines: seq<Line>, base: seq<Segment>)
  {
    forall i :: 0 <= i < |lines| ==>
      && |lines[i].prefix| > |base|
      && lines[i].prefix[..|base|] == base
      && WellFormedPrefix(lines[i].prefix[|base|..])
  }

  /** Lines under `base` followed by a continuation are also under `base`. */
  lemma UnderContinuation(lines: seq<Line>, base: seq<Segment>, cont: Segment)
    requires !cont.IsConnector()
    requires Under(lines, base + [cont])
    ensures Under(lines, base)
  {
    var b1 := base + [cont];
    forall i | 0 <= i < |lines|
      ensures |lines[i].prefix| > |base| && lines[i].prefix[..|base|] == base
      ensures WellFormedPrefix(lines[i].prefix[|base|..])
    {
      var p := lines[i].prefix;
      assert p[..|b1|] == b1;
      assert p[..|base|] == b1[..|base|];
      assert p[|base|..] == [cont] + p[|b1|..];
    }
  }

  lemma UnderConcat(a: seq<Line>, b: seq<Line>, base: seq<Segment>)
    requires Under(a, base) && Under(b, base)
    ensures Under(a + b, base)
  {
    forall i | 0 <= i < |a + b|
      ensures (a + b)[i] == if i < |a| then a[i] else b[i - |a|]
    {
    }
  }

  /** The inner `traverse`: the lines of the siblings `cs` under the prefix `base`. */
  function ChildLines(cs: seq<Node>, base: seq<Segment>, level: nat): (r: seq<Line>)
    ensures |r| >= |cs|
    ensures |cs| > 0 ==> r[0] == Line(base + [if |cs| == 1 then UpRt else VtRt], cs[0])
    ensures Under(r, base)
    decreases cs
  {
    if |cs| == 0 then []
    else
      var c := cs[0];
      var last := |cs| == 1;
      var head := Line(base + [if last then UpRt else VtRt], c);
      var cont := if last then Sep else Vt;
      var below := if Expands(c, level) then ChildLines(c.children.nodes, base + [cont], level) else [];
      var rest := ChildLines(cs[1..], base, level);
      assert Under([head], base) by {
        assert head.prefix[|base|..] == [if last then UpRt else VtRt];
      }
      UnderContinuation(below, base, cont);
      UnderConcat([head], below, base);
      UnderConcat([head] + below, rest, base);
      [head] + below + rest
  }

  /** The connector of sibling `i` of `n`: `└─` for the last, `├─` for the others. */
  function Connector(i: nat, n: nat): Segment
  {
    if i == n - 1 then UpRt else VtRt
  }

  /** The continuation below sibling `i` of `n`: blank after the last, a bar otherwise. */
  function Continuation(i: nat, n: nat): Segment
  {
    if i == n - 1 then Sep else Vt
  }

  /** Every sibling gets its own line, ending in `└─` for the last sibling and `├─` for the
      others. */
  lemma {:induction false} SiblingConnectors(cs: seq<Node>, base: seq<Segment>, level: nat)
    ensures forall i :: 0 <= i < |cs| ==> Line(base + [Connector(i, |cs|)], cs[i]) in ChildLines(cs, base, level)
    decreases |cs|
  {
    if |cs| > 0 {
      var r := ChildLines(cs, base, level);
      var rest := ChildLines(cs[1..], base, level);
      ChildLinesSplit(cs, base, level);
      SiblingConnectors(cs[1..], base, level);
      forall i | 0 <= i < |cs|
        ensures Line(base + [Connector(i, |cs|)], cs[i]) in r
      {
        if i > 0 {
          assert cs[1..][i - 1] == cs[i];
          assert Line(base + [Connector(i - 1, |cs| - 1)], cs[1..][i - 1]) in rest;
        }
      }
    }
  }

  /** An expanded sibling's children follow under its continuation segment. */
  lemma {:induction false} ExpandedUnderContinuation(cs: seq<Node>, base: seq<Segment>, level: nat)
    ensures forall i, l ::
      (0 <= i < |cs| && Expands(cs[i], level) && l in ChildLines(cs[i].children.nodes, base + [Continuation(i, |cs|)], level))
        ==> l in ChildLines(cs, base, level)
    decreases |cs|
  {
    if |cs| > 0 {
      var r := ChildLines(cs, base, level);
      var rest := ChildLines(cs[1..], base, level);
      ChildLinesSplit(cs, base, level);
      ExpandedUnderContinuation(cs[1..], base, level);
      forall i, l | 0 <= i < |cs| && Expands(cs[i], level) &&
        l in ChildLines(cs[i].children.nodes, base + [Continuation(i, |cs|)], level)
        ensures l in r
      {
        if i > 0 {
          assert cs[1..][i - 1] == cs[i];
          assert Continuation(i - 1, |cs| - 1) == Continuation(i, |cs|);
          assert l in rest;
        }
      }
    }
  }

  /** The lines of the first sibling, those below it, then those of the others. */
  lemma ChildLinesSplit(cs: seq<Node>, base: seq<Segment>, level: nat)
    requires |cs| > 0
    ensures ChildLines(cs, base, level) ==
      [Line(base + [Connector(0, |cs|)], cs[0])]
      + (if Expands(cs[0], level) then ChildLines(cs[0].children.nodes, base + [Continuation(0, |cs|)], level) else [])
      + ChildLines(cs[1..], base, level)
  {
  }

  /** The lines of the tree: the root, then its children at the given depth limit
      (`usize::MAX` when none is given). */
  function Render(root: Node, level: Option<nat>): (r: seq<Line>)
    ensures |r| >= 1 && r[0] == Line([], root)
    ensures forall i :: 0 <= i < |r| ==> WellFormedPrefix(r[i].prefix)
    ensures forall i :: 1 <= i < |r| ==> |r[i].prefix| >= 1
  {
    var lines := if root.children.Set? then ChildLines(root.children.nodes, [], level.GetOr(USIZE_MAX)) else [];
    assert forall i :: 0 <= i < |lines| ==> lines[i].prefix[0..] == lines[i].prefix;
    var r := [Line([], root)] + lines;
    assert forall i :: 1 <= i < |r| ==> r[i] == lines[i - 1];
    r
  }

  function PrefixText(p: seq<Segment>): (r: string)
    ensures '\n' !in r
  {
    if |p| == 0 then "" else PrefixText(p[..|p| - 1]) + p[|p| - 1].Text()
  }

  /** `extend_output` for every line: the prefix, the node's text, a newline. */
  function Output(lines: seq<Line>, show: Node -> string): string
  {
    if |lines| == 0 then ""
    else Output(lines[..|lines| - 1], show) + PrefixText(lines[|lines| - 1].prefix) + show(lines[|lines| - 1].node) + "\n"
  }

  /** The tree is printed one line per entry: as long as no node's own text contains a
      newline, the output has exactly one newline per line. */
  lemma {:induction false} OutputLineCount(lines: seq<Line>, show: Node -> string)
    requires forall i :: 0 <= i < |lines| ==> '\n' !in show(lines[i].node)
    ensures Text.Count(Output(lines, show), '\n') == |lines|
    decreases |lines|
  {
    if |lines| > 0 {
      var init := lines[..|lines| - 1];
      var l := lines[|lines| - 1];
      OutputLineCount(init, show);
      var a := Output(init, show);
      var p := PrefixText(l.prefix);
      var t := show(l.node);
      Text.CountAppend(a + p + t, "\n", '\n');
      Text.CountAppend(a + p, t, '\n');
      Text.CountAppend(a, p, '\n');
      Text.CountAbsent(p, '\n');
      Text.CountAbsent(t, '\n');
      assert Text.Count("\n", '\n') == 1 by {
        assert "\n"[..0] == "";
      }
    }
  }

  // ---------------------------------------------------------------------------------
  // The walk is a pre-order traversal, and the prefix width is the depth.

  function NodesOf(lines: seq<Line>): (r: seq<Node>)
    ensures |r| == |lines|
    ensures forall i :: 0 <= i < |lines| ==> r[i] == lines[i].node
  {
    if |lines| == 0 then [] else [lines[0].node] + NodesOf(lines[1..])
  }

  lemma {:induction false} NodesOfAppend(a: seq<Line>, b: seq<Line>)
    ensures NodesOf(a + b) == NodesOf(a) + NodesOf(b)
  {
    assert NodesOf(a + b) == NodesOf(a) + NodesOf(b);
  }

  /** Reference definition: every node, then the nodes below each directory, in order. */
  function PreOrder(n: Node): seq<Node>
    decreases n
  {
    [n] + (if n.IsDir() && n.children.Set? then PreOrderAll(n.children.nodes) else [])
  }

  function PreOrderAll(cs: seq<Node>): seq<Node>
    decreases cs
  {
    if |cs| == 0 then [] else PreOrder(cs[0]) + PreOrderAll(cs[1..])
  }

  /** No directory of the tree is deep enough to hit the limit `level`. */
  predicate Shallow(n: Node, level: nat)
    decreases n
  {
    && (n.IsDir() ==> n.depth + 1 <= level)
    && match n.children
       case Unset => true
       case Set(cs) => ShallowAll(cs, level)
  }

  predicate ShallowAll(cs: seq<Node>, level: nat)
    decreases cs
  {
    forall i :: 0 <= i < |cs| ==> Shallow(cs[i], level)
  }

  lemma {:induction false} ChildLinesPreOrder(cs: seq<Node>, base: seq<Segment>, level: nat)
    requires ShallowAll(cs, level)
    ensures NodesOf(ChildLines(cs, base, level)) == PreOrderAll(cs)
    decreases cs
  {
    if |cs| > 0 {
      var c := cs[0];
      var last := |cs| == 1;
      assert Shallow(c, level);
      assert ShallowAll(cs[1..], level) by {
        forall i | 0 <= i < |cs[1..]|
          ensures Shallow(cs[1..][i], level)
        {
          assert cs[1..][i] == cs[1 + i];
        }
      }
      var below := if Expands(c, level) then ChildLines(c.children.nodes, base + [if last then Sep else Vt], level) else [];
      if Expands(c, level) {
        ChildLinesPreOrder(c.children.nodes, base + [if last then Sep else Vt], level);
      }
      ChildLinesPreOrder(cs[1..], base, level);
      var head := Line(base + [if last then UpRt else VtRt], c);
      var rest := ChildLines(cs[1..], base, level);
      NodesOfAppend([head] + below, rest);
      NodesOfAppend([head], below);
    }
  }

  /** Below the depth limit the walk prints every node once, in pre-order. */
  lemma RenderPreOrder(root: Node, level: nat)
    requires root.IsDir() && Shallow(root, level)
    ensures NodesOf(Render(root, Some(level))) == PreOrder(root)
  {
    var lines := if root.children.Set? then ChildLines(root.children.nodes, [], level) else [];
    if root.children.Set? {
      ChildLinesPreOrder(root.children.nodes, [], level);
    }
    NodesOfAppend([Line([], root)], lines);
  }

  /** Every child is exactly one level deeper than its parent. */
  predicate DepthsConsistent(n: Node)
    decreases n
  {
    match n.children
    case Unset => true
    case Set(cs) => forall i :: 0 <= i < |cs| ==> cs[i].depth == n.depth + 1 && DepthsConsistent(cs[i])
  }

  lemma {:induction false} ChildLinesDepth(cs: seq<Node>, base: seq<Segment>, level: nat)
    requires forall i :: 0 <= i < |cs| ==> cs[i].depth == |base| + 1 && DepthsConsistent(cs[i])
    ensures forall l :: l in ChildLines(cs, base, level) ==>
      |l.prefix| == l.node.depth && (l.node.depth == |base| + 1 || l.node.depth <= level)
    decreases cs
  {
    if |cs| > 0 {
      var c := cs[0];
      var last := |cs| == 1;
      var b1 := base + [if last then Sep else Vt];
      if Expands(c, level) {
        ChildLinesDepth(c.children.nodes, b1, level);
      }
      ChildLinesDepth(cs[1..], base, level);
    }
  }

  /** Indentation follows depth: in a tree rooted at depth 0 whose children sit one level
      below their parents, each line's prefix has one segment per level of depth, and
      nothing deeper than the limit is printed except the root's own children. */
  lemma RenderDepth(root: Node, level: Option<nat>)
    requires root.depth == 0 && DepthsConsistent(root)
    ensures forall l :: l in Render(root, level) ==>
      |l.prefix| == l.node.depth && l.node.depth <= if level.GetOr(USIZE_MAX) < 1 then 1 else level.GetOr(USIZE_MAX)
  {
    if root.children.Set? {
      ChildLinesDepth(root.children.nodes, [], level.GetOr(USIZE_MAX));
    }
  }

  /** At depth limit zero only the root and its children are printed, in order. */
  lemma LevelZero(root: Node)
    requires root.children.Set?
    ensures NodesOf(Render(root, Some(0))) == [root] + root.children.nodes
  {
    var lines := ChildLines(root.children.nodes, [], 0);
    LevelZeroLines(root.children.nodes, []);
    NodesOfAppend([Line([], root)], lines);
  }

  lemma {:induction false} LevelZeroLines(cs: seq<Node>, base: seq<Segment>)
    ensures NodesOf(ChildLines(cs, base, 0)) == cs
    decreases |cs|
  {
    if |cs| > 0 {
      var head := Line(base + [if |cs| == 1 then UpRt else VtRt], cs[0]);
      var rest := ChildLines(cs[1..], base, 0);
      LevelZeroLines(cs[1..], base);
      assert ChildLines(cs, base, 0) == [head] + rest;
      NodesOfAppend([head], rest);
      assert cs == [cs[0]] + cs[1..];
    }
  }
}
