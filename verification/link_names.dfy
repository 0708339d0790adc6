/**
 * The symlink names of the three `Node` generations (src/fs/erdtree/node.rs,
 * src/render/tree/node.rs and src/render/tree/node/mod.rs), compared with each other and
 * with the `stylize_link_name` helper of src/render/tree/node/style.rs. All three write
 * `name -> target`, each half in its own style; the first shows the whole target path,
 * the later two only its final component.
 */
module LinkNames {
  import opened Wrappers
  import opened Ansi
  import Paths
  import Text
  import NodeStyle
  import ErdNode
  import TreeNode
  import ArenaNode

  /** The text `name -> target` shows once its two halves are painted. */
  function Painted(st: Style, name: string, ts: Style, target: string): string
  {
    Paint(st, name) + " -> " + Paint(ts, target)
  }

  /** Both names can be read back from a painted link name: the painted link name has a
      known length, and the arrow separates it from the painted target. */
  lemma PaintedReadsBack(st: Style, name: string, ts: Style, target: string)
    ensures
      var r := Painted(st, name, ts, target);
      var k := |Paint(st, name)|;
      && |r| >= k + 4
      && Unpaint(st, r[..k]) == name
      && r[k..k + 4] == " -> "
      && Unpaint(ts, r[k + 4..]) == target
  {
  }

  /** With plain styles a link name is the bare text `name -> target`. */
  lemma PaintedPlain(st: Style, name: string, ts: Style, target: string)
    requires IsPlain(st) && IsPlain(ts)
    ensures Painted(st, name, ts, target) == name + " -> " + target
  {
  }

  /** The first generation's link name is the style helper's, given both styles, applied
      to the whole target text; the link name and the target text read back from it. */
  lemma ErdLinkName(n: ErdNode.Node)
    ensures n.StylizeLinkName().Some? <==> n.IsSymlink()
    ensures n.IsSymlink() ==>
      var target := Paths.Display(n.symlinkTarget.value);
      && n.StylizeLinkName().value ==
           NodeStyle.StylizeLinkName(n.fileName, target, Some(n.style), Some(n.symlinkTargetStyle))
      && n.StylizeLinkName().value == Painted(n.style, n.fileName, n.symlinkTargetStyle, target)
  {
  }

  /** The second generation's link name is the style helper's applied to the target's file
      name, and exists exactly when the target has one. */
  lemma TreeLinkName(n: TreeNode.Node)
    ensures n.StylizeLinkName().Some? <==> n.IsSymlink() && Paths.FileName(n.symlinkTarget.value).Some?
    ensures n.StylizeLinkName().Some? ==>
      var target := Paths.FileName(n.symlinkTarget.value).value;
      && n.StylizeLinkName().value ==
           NodeStyle.StylizeLinkName(n.fileName, target, Some(n.style), Some(n.symlinkTargetStyle))
      && n.StylizeLinkName().value == Painted(n.style, n.fileName, n.symlinkTargetStyle, target)
  {
  }

  /** The fields the link name reads, equal across the three generations. */
  predicate SameLinkFields(e: ErdNode.Node, t: TreeNode.Node, a: ArenaNode.Node)
  {
    && e.fileName == t.fileName == a.fileName
    && e.style == t.style == a.style
    && e.symlinkTarget == t.symlinkTarget == a.symlinkTarget
    && e.symlinkTargetStyle == t.symlinkTargetStyle == a.symlinkTargetStyle
  }

  /** The second and third generations write the same link name. The first writes one for
      every symlink; the later ones drop it when the target has no file name (it is empty
      or ends in `..`), and otherwise show the final component where the first shows the
      whole target. */
  lemma GenerationsLinkNames(e: ErdNode.Node, t: TreeNode.Node, a: ArenaNode.Node)
    requires SameLinkFields(e, t, a)
    ensures t.StylizeLinkName() == a.StylizeLinkName()
    ensures t.StylizeLinkName().Some? ==> e.StylizeLinkName().Some?
    ensures e.StylizeLinkName().Some? && t.StylizeLinkName().None? <==>
      e.IsSymlink() && Paths.FileName(e.symlinkTarget.value).None?
    ensures t.StylizeLinkName().Some? ==>
      var cs := e.symlinkTarget.value.components;
      && e.StylizeLinkName().value == Painted(e.style, e.fileName, e.symlinkTargetStyle, Paths.Display(e.symlinkTarget.value))
      && t.StylizeLinkName().value == Painted(e.style, e.fileName, e.symlinkTargetStyle, cs[|cs| - 1])
  {
  }

  /** For a target that is a single relative name, all three generations agree. */
  lemma {:induction false} GenerationsAgreeOnBareTarget(e: ErdNode.Node, t: TreeNode.Node, a: ArenaNode.Node)
    requires SameLinkFields(e, t, a)
    requires e.IsSymlink() && !e.symlinkTarget.value.absolute
    requires |e.symlinkTarget.value.components| == 1 && e.symlinkTarget.value.components[0] != ".."
    ensures e.StylizeLinkName().Some?
    ensures e.StylizeLinkName() == t.StylizeLinkName() == a.StylizeLinkName()
  {
    var target := e.symlinkTarget.value;
    assert Paths.Display(target) == target.components[0];
    GenerationsLinkNames(e, t, a);
  }

  lemma DisplayEtcHosts()
    ensures Paths.Display(Paths.Path(true, ["etc", "hosts"])) == "/etc/hosts"
  {
    assert ["etc", "hosts"][1..] == ["hosts"];
    assert Text.JoinWith(["etc", "hosts"], "/") == "etc" + "/" + "hosts";
  }

  /** A link `h` to `/etc/hosts`, unstyled: the first generation shows the whole target,
      the later two only `hosts`. */
  lemma GenerationsDiffer(e: ErdNode.Node, t: TreeNode.Node, a: ArenaNode.Node)
    requires SameLinkFields(e, t, a)
    requires e.fileName == "h" && e.style == Plain && e.symlinkTargetStyle == Plain
    requires e.symlinkTarget == Some(Paths.Path(true, ["etc", "hosts"]))
    ensures e.StylizeLinkName() == Some("h -> /etc/hosts")
    ensures t.StylizeLinkName() == a.StylizeLinkName() == Some("h -> hosts")
  {
    DisplayEtcHosts();
    assert Paths.FileName(t.symlinkTarget.value) == Some("hosts");
    assert "h" + " -> " + "/etc/hosts" == "h -> /etc/hosts";
    assert "h" + " -> " + "hosts" == "h -> hosts";
  }
}
