/** The editor's tree edits: adding, deleting and dragging nodes
    (src/web/editor.html). */
module Editor {
  import opened JsonTree
  import opened Sequences
  import opened Trees

  /** Where new content goes, given what is selected: into the first child slot
      of a control-flow block, else behind the selected node, else at the end. */
  function InsertionPoint(nodes: seq<Node>, sel: Option<NodePath>, childSlots: map<string, seq<string>>): NodePath
    requires sel.Some? ==> Selectable(nodes, sel.value, childSlots)
  {
    match sel
    case None => NodePath([], |nodes|)
    case Some(p) =>
      var ty := GetNode(nodes, p).ty;
      if ty in childSlots && childSlots[ty] != [] then
        var parent := p.parent + [Into(p.index, childSlots[ty][0])];
        NodePath(parent, |GetList(nodes, parent)|)
      else NodePath(p.parent, p.index + 1)
  }

  /** The path leads to a node, and that node has the slots of its type. */
  predicate Selectable(nodes: seq<Node>, p: NodePath, childSlots: map<string, seq<string>>) {
    && HasNode(nodes, p)
    && var ty := GetNode(nodes, p).ty;
       ty in childSlots && childSlots[ty] != [] ==>
         HasList(nodes, p.parent + [Into(p.index, childSlots[ty][0])])
  }

  /** Without a selection new content goes to the end of the root list. */
  lemma AddedAtRootEnd(nodes: seq<Node>, childSlots: map<string, seq<string>>, n: Node)
    ensures Insert(nodes, InsertionPoint(nodes, None, childSlots), n) == nodes + [n]
  {
    assert nodes[..|nodes|] == nodes && nodes[|nodes|..] == [];
    assert nodes + [n] + [] == nodes + [n];
  }

  /** With a block selected that has child slots, it goes to the end of the first
      of them. */
  lemma AddedToFirstSlot(
    nodes: seq<Node>, p: NodePath, slot: string, more: seq<string>, childSlots: map<string, seq<string>>, n: Node)
    requires Selectable(nodes, p, childSlots)
    requires GetNode(nodes, p).ty in childSlots && childSlots[GetNode(nodes, p).ty] == [slot] + more
    ensures var parent := p.parent + [Into(p.index, slot)];
            && HasList(nodes, parent)
            && Insert(nodes, InsertionPoint(nodes, Some(p), childSlots), n) ==
               WithList(nodes, parent, GetList(nodes, parent) + [n])
  {
    var parent := p.parent + [Into(p.index, slot)];
    var list := GetList(nodes, parent);
    assert list[..|list|] == list && list[|list|..] == [];
    assert list + [n] + [] == list + [n];
  }

  /** With any other node selected, it goes right behind that node. */
  lemma AddedBehindSelected(nodes: seq<Node>, p: NodePath, childSlots: map<string, seq<string>>, n: Node)
    requires HasNode(nodes, p)
    requires GetNode(nodes, p).ty !in childSlots || childSlots[GetNode(nodes, p).ty] == []
    ensures var list := GetList(nodes, p.parent);
            Insert(nodes, InsertionPoint(nodes, Some(p), childSlots), n) ==
            WithList(nodes, p.parent, list[..p.index] + [GetNode(nodes, p), n] + list[p.index + 1..])
  {
    var list := GetList(nodes, p.parent);
    assert list[..p.index + 1] + [n] + list[p.index + 1..] ==
           list[..p.index] + [list[p.index], n] + list[p.index + 1..];
  }

  /** Compares the paths element by element. */
  method IsAncestor(ancestor: NodePath, descendant: ListPath) returns (b: bool)
    ensures b <==> Through(ancestor, descendant)
  {
    if |ancestor.parent| >= |descendant| {
      return false;
    }
    for i := 0 to |ancestor.parent|
      invariant descendant[..i] == ancestor.parent[..i]
    {
      if ancestor.parent[i] != descendant[i] {
        assert descendant[..|ancestor.parent|][i] != ancestor.parent[i];
        return false;
      }
    }
    assert ancestor.parent[..|ancestor.parent|] == ancestor.parent;
    return ancestor.index == descendant[|ancestor.parent|].index;
  }

  method AdjustAfterSrcSplice(dstParent: ListPath, srcParent: ListPath, srcIdx: nat) returns (out: ListPath)
    ensures out == Shifted(dstParent, NodePath(srcParent, srcIdx))
  {
    if |srcParent| >= |dstParent| {
      return dstParent;
    }
    for i := 0 to |srcParent|
      invariant dstParent[..i] == srcParent[..i]
    {
      if srcParent[i] != dstParent[i] {
        assert dstParent[..|srcParent|][i] != srcParent[i];
        return dstParent;
      }
    }
    assert srcParent[..|srcParent|] == srcParent;
    out := dstParent;
    var st := out[|srcParent|];
    if st.index > srcIdx {
      out := out[|srcParent| := Into(st.index - 1, st.slot)];
    }
  }

  /** What a move leaves of the tree around the moved node, and where the node
      is: taking it out again gives the tree it was taken out of. */
  ghost predicate Moved(before: seq<Node>, src: NodePath, after: seq<Node>, dst: NodePath)
    requires HasNode(before, src)
  {
    && HasNode(after, dst)
    && GetNode(after, dst) == GetNode(before, src)
    && Remove(after, dst) == Remove(before, src)
  }

  class Editor {
    /** The first child slots of the control-flow block types. */
    const childSlots: map<string, seq<string>>
    var nodes: seq<Node>
    var selPath: Option<NodePath>
    var dirty: bool

    constructor (nodes: seq<Node>, childSlots: map<string, seq<string>>)
      ensures this.nodes == nodes && this.childSlots == childSlots && selPath == None && !dirty
    {
      this.nodes, this.childSlots, selPath, dirty := nodes, childSlots, None, false;
    }

    /** The walk down from the root list. */
    method ListAt(path: ListPath) returns (cur: seq<Node>)
      requires HasList(nodes, path)
      ensures cur == GetList(nodes, path)
    {
      cur := nodes;
      assert path[0..] == path;
      for i := 0 to |path|
        invariant HasList(cur, path[i..]) && GetList(cur, path[i..]) == GetList(nodes, path)
      {
        assert path[i..][0] == path[i] && path[i..][1..] == path[i + 1..];
        cur := Child(cur, path[i]);
      }
    }

    method AddNode(n: Node)
      requires selPath.Some? ==> Selectable(nodes, selPath.value, childSlots)
      modifies this
      ensures dirty && selPath == Some(InsertionPoint(old(nodes), old(selPath), childSlots))
      ensures HasGap(old(nodes), selPath.value) && nodes == Insert(old(nodes), selPath.value, n)
      ensures HasNode(nodes, selPath.value) && GetNode(nodes, selPath.value) == n
      ensures Remove(nodes, selPath.value) == old(nodes)
    {
      var p := InsertionPoint(nodes, selPath, childSlots);
      var list := ListAt(p.parent);
      RemoveUndoesInsert(nodes, p, n);
      nodes := WithList(nodes, p.parent, Inserted(list, p.index, n));
      selPath := Some(p);
      dirty := true;
    }

    method DeleteNode(p: NodePath)
      requires HasNode(nodes, p)
      modifies this
      ensures dirty && selPath == None
      ensures nodes == Remove(old(nodes), p)
      ensures HasGap(nodes, p) && Insert(nodes, p, GetNode(old(nodes), p)) == old(nodes)
    {
      InsertUndoesRemove(nodes, p);
      var list := ListAt(p.parent);
      nodes := WithList(nodes, p.parent, Without(list, p.index));
      selPath := None;
      dirty := true;
    }

    /** Moves the node at src into another list, or within its own. */
    method MoveAcross(src: NodePath, dstParent: ListPath, dstIdx: nat)
      requires HasNode(nodes, src) && HasGap(nodes, NodePath(dstParent, dstIdx)) && !Through(src, dstParent)
      modifies this
      ensures dstParent == src.parent && (dstIdx == src.index || dstIdx == src.index + 1) ==>
                nodes == old(nodes) && selPath == old(selPath) && dirty == old(dirty)
      ensures !(dstParent == src.parent && (dstIdx == src.index || dstIdx == src.index + 1)) ==>
                && dirty
                && selPath == Some(Landing(src, dstParent, dstIdx))
                && Moved(old(nodes), src, nodes, selPath.value)
    {
      var sameParent := src.parent == dstParent;
      ghost var dst := Landing(src, dstParent, dstIdx);
      ghost var moving := GetNode(nodes, src);
      if sameParent {
        var to := dstIdx;
        if to > src.index {
          to := to - 1;
        }
        if to == src.index {
          return;
        }
        PrefixReachesCutList(nodes, src, src.parent);
        LandsInGap(nodes, src, dstParent, dstIdx);
        RemoveUndoesInsert(Remove(nodes, src), dst, moving);
        var list := ListAt(src.parent);
        var moved := list[src.index];
        list := Without(list, src.index);
        GetAfterWith(nodes, src.parent, list);
        WithTwice(nodes, src.parent, list, Inserted(list, to, moved));
        list := Inserted(list, to, moved);
        nodes := WithList(nodes, src.parent, list);
        selPath := Some(NodePath(src.parent, to));
      } else {
        LandsInGap(nodes, src, dstParent, dstIdx);
        RemoveUndoesInsert(Remove(nodes, src), dst, moving);
        var fromList := ListAt(src.parent);
        var moved := fromList[src.index];
        nodes := WithList(nodes, src.parent, Without(fromList, src.index));
        var fixedDstParent := AdjustAfterSrcSplice(dstParent, src.parent, src.index);
        var toList := ListAt(fixedDstParent);
        nodes := WithList(nodes, fixedDstParent, Inserted(toList, dstIdx, moved));
        selPath := Some(NodePath(fixedDstParent, dstIdx));
      }
      dirty := true;
    }

    /** Dropping onto a node puts the dragged one before or behind it. */
    method OnNodeDrop(dragSrc: NodePath, tgt: NodePath, before: bool)
      requires HasNode(nodes, dragSrc) && HasNode(nodes, tgt)
      modifies this
      ensures Through(dragSrc, tgt.parent) || tgt == dragSrc ==>
                nodes == old(nodes) && selPath == old(selPath) && dirty == old(dirty)
      ensures !Through(dragSrc, tgt.parent) && tgt != dragSrc ==>
                var dstIdx := DropIndex(tgt, before);
                if tgt.parent == dragSrc.parent && (dstIdx == dragSrc.index || dstIdx == dragSrc.index + 1)
                then nodes == old(nodes) && selPath == old(selPath) && dirty == old(dirty)
                else selPath == Some(Landing(dragSrc, tgt.parent, dstIdx))
                     && Moved(old(nodes), dragSrc, nodes, selPath.value)
    {
      var inside := IsAncestor(dragSrc, tgt.parent);
      if tgt == dragSrc || inside {
        return;
      }
      MoveAcross(dragSrc, tgt.parent, DropIndex(tgt, before));
    }

    /** Dropping onto an empty slot puts the dragged node into it. */
    method OnSlotDrop(dragSrc: NodePath, slotPath: ListPath)
      requires HasNode(nodes, dragSrc) && HasList(nodes, slotPath) && GetList(nodes, slotPath) == []
      modifies this
      ensures Through(dragSrc, slotPath) ==>
                nodes == old(nodes) && selPath == old(selPath) && dirty == old(dirty)
      ensures !Through(dragSrc, slotPath) ==>
                && selPath == Some(NodePath(Shifted(slotPath, dragSrc), 0))
                && Moved(old(nodes), dragSrc, nodes, selPath.value)
    {
      var inside := IsAncestor(dragSrc, slotPath);
      if inside {
        return;
      }
      MoveAcross(dragSrc, slotPath, 0);
    }
  }

  function DropIndex(tgt: NodePath, before: bool): nat {
    if before then tgt.index else tgt.index + 1
  }

  /** Where a moved node ends up: in the destination list, at the index asked
      for, less one if the node itself stood before it there. */
  function Landing(src: NodePath, dstParent: ListPath, dstIdx: nat): NodePath {
    NodePath(
      Shifted(dstParent, src),
      if dstParent == src.parent && dstIdx > src.index then dstIdx - 1 else dstIdx)
  }

  lemma LandsInGap(nodes: seq<Node>, src: NodePath, dstParent: ListPath, dstIdx: nat)
    requires HasNode(nodes, src) && HasGap(nodes, NodePath(dstParent, dstIdx)) && !Through(src, dstParent)
    requires !(dstParent == src.parent && dstIdx == src.index)
    ensures HasGap(Remove(nodes, src), Landing(src, dstParent, dstIdx))
  {
    if dstParent <= src.parent {
      PrefixReachesCutList(nodes, src, dstParent);
      if dstParent == src.parent {
        assert src.parent[|dstParent|..] == [];
      } else {
        RemoveBelowKeepsNodes(GetList(nodes, dstParent), NodePath(src.parent[|dstParent|..], src.index));
      }
    } else {
      ShiftedReachesSame(nodes, src, dstParent, []);
    }
  }

  /** The same node but perhaps for what is below it. */
  predicate Alike(x: Node, y: Node) {
    x.ty == y.ty && x.params == y.params
  }

  lemma RemoveBelowKeepsNodes(nodes: seq<Node>, p: NodePath)
    requires HasNode(nodes, p) && p.parent != []
    ensures |Remove(nodes, p)| == |nodes|
    ensures forall i :: 0 <= i < |nodes| ==> Alike(Remove(nodes, p)[i], nodes[i])
  {
  }

  /** Where a node that stays is found once another is removed. */
  function Remaining(src: NodePath, p: NodePath): NodePath {
    NodePath(
      Shifted(p.parent, src),
      if p.parent == src.parent && p.index > src.index then p.index - 1 else p.index)
  }

  /** A node outside the removed subtree remains, at its shifted path. */
  lemma OthersRemain(nodes: seq<Node>, src: NodePath, p: NodePath)
    requires HasNode(nodes, src) && HasNode(nodes, p) && !Through(src, p.parent) && p != src
    ensures HasNode(Remove(nodes, src), Remaining(src, p))
    ensures Alike(GetNode(Remove(nodes, src), Remaining(src, p)), GetNode(nodes, p))
  {
    if p.parent <= src.parent {
      PrefixReachesCutList(nodes, src, p.parent);
      var below := NodePath(src.parent[|p.parent|..], src.index);
      if below.parent != [] { RemoveBelowKeepsNodes(GetList(nodes, p.parent), below); }
    } else {
      ShiftedReachesSame(nodes, src, p.parent, []);
    }
  }

  /** A node dropped onto another stands next to it, on the side it was dropped. */
  lemma DropLandsBesideTarget(nodes: seq<Node>, src: NodePath, after: seq<Node>, tgt: NodePath, before: bool)
    requires HasNode(nodes, src) && HasNode(nodes, tgt) && !Through(src, tgt.parent) && tgt != src
    requires Moved(nodes, src, after, Landing(src, tgt.parent, DropIndex(tgt, before)))
    ensures var dst := Landing(src, tgt.parent, DropIndex(tgt, before));
            var k := if before then dst.index + 1 else dst.index - 1;
            k >= 0 && HasNode(after, NodePath(dst.parent, k))
            && Alike(GetNode(after, NodePath(dst.parent, k)), GetNode(nodes, tgt))
  {
    var dst := Landing(src, tgt.parent, DropIndex(tgt, before));
    OthersRemain(nodes, src, tgt);
    var at := Remaining(src, tgt);
    assert at.parent == dst.parent && dst.index == if before then at.index else at.index + 1;
    GetAfterWith(after, dst.parent, Without(GetList(after, dst.parent), dst.index));
    assert GetList(Remove(nodes, src), dst.parent) == Without(GetList(after, dst.parent), dst.index);
  }

  // ----- what a move keeps -----

  /** A move conserves all nodes. */
  lemma MoveConserves(before: seq<Node>, src: NodePath, after: seq<Node>, dst: NodePath, ty: string, params: Json)
    requires HasNode(before, src) && Moved(before, src, after, dst)
    ensures Count(after, ty, params) == Count(before, ty, params)
  {
    InsertUndoesRemove(before, src);
    InsertUndoesRemove(after, dst);
    CountInsert(Remove(before, src), src, GetNode(before, src), ty, params);
    CountInsert(Remove(after, dst), dst, GetNode(after, dst), ty, params);
  }

  /** What a move does is determined by where the node comes from and goes to. */
  lemma MoveIsDetermined(before: seq<Node>, src: NodePath, after: seq<Node>, after': seq<Node>, dst: NodePath)
    requires HasNode(before, src) && Moved(before, src, after, dst) && Moved(before, src, after', dst)
    ensures after == after'
  {
    InsertUndoesRemove(after, dst);
    InsertUndoesRemove(after', dst);
  }
}
