/** Reaching and replacing lists inside a node tree. */
module Trees {
  import opened JsonTree
  import opened Sequences

  /** One step down: into a named child list of the node at an index. The path
      [i, slot, j, slot', ...] of the editor is such a series of steps. */
  datatype Step = Into(index: nat, slot: string)

  type ListPath = seq<Step>

  datatype NodePath = NodePath(parent: ListPath, index: nat)

  // ----- one step -----

  predicate HasChild(nodes: seq<Node>, st: Step) {
    st.index < |nodes| && FindSlot(nodes[st.index].children, st.slot).Some?
  }

  function Child(nodes: seq<Node>, st: Step): seq<Node>
    requires HasChild(nodes, st)
  {
    nodes[st.index].children[FindSlot(nodes[st.index].children, st.slot).value].nodes
  }

  function SetChild(nodes: seq<Node>, st: Step, list: seq<Node>): seq<Node>
    requires HasChild(nodes, st)
  {
    var n := nodes[st.index];
    var i := FindSlot(n.children, st.slot).value;
    nodes[st.index := n.(children := n.children[i := Slot(st.slot, list)])]
  }

  lemma {:induction false} FindSlotAfterWrite(children: seq<Slot>, i: nat, list: seq<Node>, name: string)
    requires i < |children|
    ensures FindSlot(children[i := Slot(children[i].name, list)], name) == FindSlot(children, name)
  {
    if i > 0 {
      FindSlotAfterWrite(children[1..], i - 1, list, name);
      assert children[i := Slot(children[i].name, list)][1..] ==
             children[1..][i - 1 := Slot(children[1..][i - 1].name, list)];
    }
  }

  /** A written child list is read back, every other is as before. */
  lemma ChildAfterSet(nodes: seq<Node>, st: Step, list: seq<Node>, other: Step)
    requires HasChild(nodes, st)
    ensures HasChild(SetChild(nodes, st, list), other) <==> HasChild(nodes, other)
    ensures HasChild(nodes, other) ==>
              Child(SetChild(nodes, st, list), other) == if other == st then list else Child(nodes, other)
  {
    if other.index == st.index {
      var children := nodes[st.index].children;
      FindSlotAfterWrite(children, FindSlot(children, st.slot).value, list, other.slot);
    }
  }

  lemma SetSameChild(nodes: seq<Node>, st: Step, list: seq<Node>, list': seq<Node>)
    requires HasChild(nodes, st)
    ensures HasChild(SetChild(nodes, st, list), st)
    ensures SetChild(SetChild(nodes, st, list), st, list') == SetChild(nodes, st, list')
    ensures SetChild(nodes, st, Child(nodes, st)) == nodes
  {
    var n := nodes[st.index];
    var i := FindSlot(n.children, st.slot).value;
    FindSlotAfterWrite(n.children, i, list, st.slot);
    var a, b := Slot(st.slot, list), Slot(st.slot, list');
    assert n.children[i := a][i := b] == n.children[i := b];
    assert SetChild(SetChild(nodes, st, list), st, list') == nodes[st.index := n.(children := n.children[i := b])];
    assert n.children[i := Slot(st.slot, n.children[i].nodes)] == n.children;
  }

  lemma SetOtherChild(nodes: seq<Node>, st: Step, list: seq<Node>, other: Step, list': seq<Node>)
    requires HasChild(nodes, st) && HasChild(nodes, other) && other != st
    ensures HasChild(SetChild(nodes, st, list), other) && HasChild(SetChild(nodes, other, list'), st)
    ensures SetChild(SetChild(nodes, st, list), other, list') == SetChild(SetChild(nodes, other, list'), st, list)
  {
    ChildAfterSet(nodes, st, list, other);
    ChildAfterSet(nodes, other, list', st);
    if other.index == st.index {
      var n := nodes[st.index];
      var i, j := FindSlot(n.children, st.slot).value, FindSlot(n.children, other.slot).value;
      FindSlotAfterWrite(n.children, i, list, other.slot);
      FindSlotAfterWrite(n.children, j, list', st.slot);
      var a, b := Slot(st.slot, list), Slot(other.slot, list');
      assert n.children[i := a][j := b] == n.children[j := b][i := a];
      var both := n.(children := n.children[i := a][j := b]);
      assert SetChild(SetChild(nodes, st, list), other, list') == nodes[st.index := both];
    }
  }

  // ----- lists at a path -----

  predicate HasList(nodes: seq<Node>, path: ListPath) {
    path == [] || (HasChild(nodes, path[0]) && HasList(Child(nodes, path[0]), path[1..]))
  }

  function GetList(nodes: seq<Node>, path: ListPath): seq<Node>
    requires HasList(nodes, path)
  {
    if path == [] then nodes else GetList(Child(nodes, path[0]), path[1..])
  }

  /** The tree with another list at the path. */
  function WithList(nodes: seq<Node>, path: ListPath, list: seq<Node>): seq<Node>
    requires HasList(nodes, path)
  {
    if path == [] then list
    else SetChild(nodes, path[0], WithList(Child(nodes, path[0]), path[1..], list))
  }

  lemma {:induction false} GetAfterWith(nodes: seq<Node>, path: ListPath, list: seq<Node>)
    requires HasList(nodes, path)
    ensures HasList(WithList(nodes, path, list), path)
    ensures GetList(WithList(nodes, path, list), path) == list
  {
    if path != [] {
      GetAfterWith(Child(nodes, path[0]), path[1..], list);
      ChildAfterSet(nodes, path[0], WithList(Child(nodes, path[0]), path[1..], list), path[0]);
    }
  }

  lemma {:induction false} WithTwice(nodes: seq<Node>, path: ListPath, list: seq<Node>, list': seq<Node>)
    requires HasList(nodes, path)
    ensures HasList(WithList(nodes, path, list), path)
    ensures WithList(WithList(nodes, path, list), path, list') == WithList(nodes, path, list')
    ensures WithList(nodes, path, GetList(nodes, path)) == nodes
  {
    GetAfterWith(nodes, path, list);
    if path != [] {
      var c := Child(nodes, path[0]);
      WithTwice(c, path[1..], list, list');
      ChildAfterSet(nodes, path[0], WithList(c, path[1..], list), path[0]);
      SetSameChild(nodes, path[0], WithList(c, path[1..], list), WithList(c, path[1..], list'));
    }
  }

  // ----- removing and inserting -----

  function Without(list: seq<Node>, i: nat): seq<Node>
    requires i < |list|
  {
    list[..i] + list[i + 1..]
  }

  function Inserted(list: seq<Node>, i: nat, n: Node): seq<Node>
    requires i <= |list|
  {
    list[..i] + [n] + list[i..]
  }

  predicate HasNode(nodes: seq<Node>, p: NodePath) {
    HasList(nodes, p.parent) && p.index < |GetList(nodes, p.parent)|
  }

  function GetNode(nodes: seq<Node>, p: NodePath): Node
    requires HasNode(nodes, p)
  {
    GetList(nodes, p.parent)[p.index]
  }

  predicate HasGap(nodes: seq<Node>, p: NodePath) {
    HasList(nodes, p.parent) && p.index <= |GetList(nodes, p.parent)|
  }

  function Remove(nodes: seq<Node>, p: NodePath): seq<Node>
    requires HasNode(nodes, p)
  {
    WithList(nodes, p.parent, Without(GetList(nodes, p.parent), p.index))
  }

  function Insert(nodes: seq<Node>, p: NodePath, n: Node): seq<Node>
    requires HasGap(nodes, p)
  {
    WithList(nodes, p.parent, Inserted(GetList(nodes, p.parent), p.index, n))
  }

  /** An inserted node is found where it was put, and removing it again gives
      the tree from before. */
  lemma RemoveUndoesInsert(nodes: seq<Node>, p: NodePath, n: Node)
    requires HasGap(nodes, p)
    ensures HasNode(Insert(nodes, p, n), p)
    ensures GetNode(Insert(nodes, p, n), p) == n
    ensures Remove(Insert(nodes, p, n), p) == nodes
  {
    var list := GetList(nodes, p.parent);
    var longer := Inserted(list, p.index, n);
    GetAfterWith(nodes, p.parent, longer);
    assert Without(longer, p.index) == list;
    WithTwice(nodes, p.parent, longer, list);
  }

  /** Putting a removed node back where it was gives the tree from before. */
  lemma InsertUndoesRemove(nodes: seq<Node>, p: NodePath)
    requires HasNode(nodes, p)
    ensures HasGap(Remove(nodes, p), p)
    ensures Insert(Remove(nodes, p), p, GetNode(nodes, p)) == nodes
  {
    var list := GetList(nodes, p.parent);
    var shorter := Without(list, p.index);
    GetAfterWith(nodes, p.parent, shorter);
    assert Inserted(shorter, p.index, list[p.index]) == list;
    WithTwice(nodes, p.parent, shorter, list);
  }

  // ----- a path after a removal -----

  /** The path leads into the node or below it. */
  predicate Through(p: NodePath, path: ListPath) {
    |p.parent| < |path| && path[..|p.parent|] == p.parent && path[|p.parent|].index == p.index
  }

  /** The path with the index shifted that the removal of a node shifts. */
  function Shifted(path: ListPath, p: NodePath): ListPath {
    if |p.parent| < |path| && path[..|p.parent|] == p.parent && path[|p.parent|].index > p.index
    then path[|p.parent| := Into(path[|p.parent|].index - 1, path[|p.parent|].slot)]
    else path
  }

  lemma ShiftedTail(path: ListPath, p: NodePath)
    requires p.parent != [] && path != [] && path[0] == p.parent[0]
    ensures var p' := NodePath(p.parent[1..], p.index);
            && (Through(p, path) <==> Through(p', path[1..]))
            && Shifted(path, p) == [path[0]] + Shifted(path[1..], p')
    ensures path <= p.parent <==> path[1..] <= p.parent[1..]
  {
    var k := |p.parent|;
    if k < |path| {
      assert path[..k] == [path[0]] + path[1..][..k - 1] && p.parent == [path[0]] + p.parent[1..];
      assert path[..k] == p.parent <==> path[1..][..k - 1] == p.parent[1..];
    }
    assert path == [path[0]] + path[1..] && p.parent == [path[0]] + p.parent[1..];
  }

  /** Taking a node out of a list moves the child lists of the later nodes. */
  lemma ChildAfterWithout(nodes: seq<Node>, i: nat, st: Step, list: seq<Node>)
    requires i < |nodes| && HasChild(nodes, st) && st.index != i
    ensures var st' := Into(if st.index > i then st.index - 1 else st.index, st.slot);
            && HasChild(Without(nodes, i), st')
            && Child(Without(nodes, i), st') == Child(nodes, st)
            && SetChild(Without(nodes, i), st', list) == Without(SetChild(nodes, st, list), i)
  {
  }

  /** `path` reaches in `after` the list it reached before p was removed, as
      `path'`: the same list, and writing there before or after the removal
      comes to the same tree. */
  ghost predicate ReachesSame(nodes: seq<Node>, p: NodePath, path: ListPath, path': ListPath, list: seq<Node>)
    requires HasNode(nodes, p) && HasList(nodes, path)
  {
    && HasList(Remove(nodes, p), path')
    && GetList(Remove(nodes, p), path') == GetList(nodes, path)
    && HasNode(WithList(nodes, path, list), p)
    && Remove(WithList(nodes, path, list), p) == WithList(Remove(nodes, p), path', list)
  }

  lemma ReachesSameBesideRoot(nodes: seq<Node>, p: NodePath, path: ListPath, list: seq<Node>)
    requires HasNode(nodes, p) && HasList(nodes, path) && !Through(p, path)
    requires p.parent == [] && path != []
    ensures ReachesSame(nodes, p, path, Shifted(path, p), list)
  {
    ChildAfterWithout(nodes, p.index, path[0], WithList(Child(nodes, path[0]), path[1..], list));
    assert Shifted(path, p)[1..] == path[1..];
  }

  lemma ReachesSameBelow(nodes: seq<Node>, p: NodePath, path: ListPath, tail: ListPath, list: seq<Node>)
    requires HasNode(nodes, p) && HasList(nodes, path)
    requires p.parent != [] && path != [] && path[0] == p.parent[0]
    requires ReachesSame(Child(nodes, path[0]), NodePath(p.parent[1..], p.index), path[1..], tail, list)
    ensures ReachesSame(nodes, p, path, [path[0]] + tail, list)
  {
    var st, c := path[0], Child(nodes, path[0]);
    var p' := NodePath(p.parent[1..], p.index);
    var cut, inner := Remove(c, p'), WithList(c, path[1..], list);
    ChildAfterSet(nodes, st, cut, st);
    ChildAfterSet(nodes, st, inner, st);
    SetSameChild(nodes, st, cut, WithList(cut, tail, list));
    SetSameChild(nodes, st, inner, Remove(inner, p'));
    assert ([st] + tail)[1..] == tail;
  }

  lemma ReachesSameAside(nodes: seq<Node>, p: NodePath, path: ListPath, list: seq<Node>)
    requires HasNode(nodes, p) && HasList(nodes, path)
    requires p.parent != [] && path != [] && path[0] != p.parent[0]
    ensures ReachesSame(nodes, p, path, path, list)
  {
    var st, st' := path[0], p.parent[0];
    var cut := Remove(Child(nodes, st'), NodePath(p.parent[1..], p.index));
    var inner := WithList(Child(nodes, st), path[1..], list);
    ChildAfterSet(nodes, st', cut, st);
    ChildAfterSet(nodes, st, inner, st');
    SetOtherChild(nodes, st', cut, st, inner);
  }

  /** A path that does not lead into a removed node, once shifted, reaches after
      the removal the list it reached before. */
  lemma {:induction false} ShiftedReachesSame(nodes: seq<Node>, p: NodePath, path: ListPath, list: seq<Node>)
    requires HasNode(nodes, p) && HasList(nodes, path) && !Through(p, path) && !(path <= p.parent)
    ensures ReachesSame(nodes, p, path, Shifted(path, p), list)
    decreases |path|
  {
    if p.parent == [] {
      ReachesSameBesideRoot(nodes, p, path, list);
    } else if path[0] == p.parent[0] {
      var p' := NodePath(p.parent[1..], p.index);
      ShiftedTail(path, p);
      ShiftedReachesSame(Child(nodes, path[0]), p', path[1..], list);
      ReachesSameBelow(nodes, p, path, Shifted(path[1..], p'), list);
    } else {
      assert |p.parent| < |path| ==> path[..|p.parent|][0] == path[0];
      ReachesSameAside(nodes, p, path, list);
    }
  }

  /** A path to a list above the removed node, or to its own list, is not
      shifted, and reaches that list with the node removed below. */
  lemma {:induction false} PrefixReachesCutList(nodes: seq<Node>, p: NodePath, path: ListPath)
    requires HasNode(nodes, p) && path <= p.parent
    ensures Shifted(path, p) == path && HasList(nodes, path) && HasList(Remove(nodes, p), path)
    ensures var below := NodePath(p.parent[|path|..], p.index);
            && HasNode(GetList(nodes, path), below)
            && GetList(Remove(nodes, p), path) == Remove(GetList(nodes, path), below)
            && Remove(nodes, p) == WithList(nodes, path, Remove(GetList(nodes, path), below))
    decreases |path|
  {
    if path != [] {
      var p' := NodePath(p.parent[1..], p.index);
      PrefixReachesCutList(Child(nodes, path[0]), p', path[1..]);
      assert p.parent[|path|..] == p'.parent[|path[1..]|..];
      ChildAfterSet(nodes, path[0], Remove(Child(nodes, path[0]), p'), path[0]);
    } else {
      assert p.parent[0..] == p.parent;
    }
  }

  // ----- counting nodes -----

  /** How often a node with this type and these parameters occurs in the tree. */
  function Count(nodes: seq<Node>, ty: string, params: Json): nat {
    if nodes == [] then 0
    else
      (if nodes[0].ty == ty && nodes[0].params == params then 1 else 0)
      + CountBelow(nodes[0].children, ty, params) + Count(nodes[1..], ty, params)
  }

  function CountBelow(slots: seq<Slot>, ty: string, params: Json): nat {
    if slots == [] then 0 else Count(slots[0].nodes, ty, params) + CountBelow(slots[1..], ty, params)
  }

  lemma {:induction false} CountAppend(a: seq<Node>, b: seq<Node>, ty: string, params: Json)
    ensures Count(a + b, ty, params) == Count(a, ty, params) + Count(b, ty, params)
  {
    if a == [] {
      assert a + b == b;
    } else {
      CountAppend(a[1..], b, ty, params);
      assert (a + b)[1..] == a[1..] + b;
    }
  }

  lemma {:induction false} CountSlotWrite(slots: seq<Slot>, i: nat, list: seq<Node>, ty: string, params: Json)
    requires i < |slots|
    ensures CountBelow(slots[i := Slot(slots[i].name, list)], ty, params) ==
            CountBelow(slots, ty, params) - Count(slots[i].nodes, ty, params) + Count(list, ty, params)
  {
    var r := slots[i := Slot(slots[i].name, list)];
    if i == 0 {
      assert r[1..] == slots[1..];
    } else {
      CountSlotWrite(slots[1..], i - 1, list, ty, params);
      assert r[1..] == slots[1..][i - 1 := Slot(slots[1..][i - 1].name, list)];
    }
  }

  /** Overwriting one node changes the count by what is below it. */
  lemma {:induction false} CountNodeWrite(nodes: seq<Node>, i: nat, n: Node, ty: string, params: Json)
    requires i < |nodes| && n.ty == nodes[i].ty && n.params == nodes[i].params
    ensures Count(nodes[i := n], ty, params) ==
            Count(nodes, ty, params) - CountBelow(nodes[i].children, ty, params) + CountBelow(n.children, ty, params)
  {
    if i == 0 {
      assert nodes[0 := n][1..] == nodes[1..];
    } else {
      CountNodeWrite(nodes[1..], i - 1, n, ty, params);
      assert nodes[i := n][1..] == nodes[1..][i - 1 := n];
    }
  }

  lemma CountSetChild(nodes: seq<Node>, st: Step, list: seq<Node>, ty: string, params: Json)
    requires HasChild(nodes, st)
    ensures Count(SetChild(nodes, st, list), ty, params) ==
            Count(nodes, ty, params) - Count(Child(nodes, st), ty, params) + Count(list, ty, params)
  {
    var n := nodes[st.index];
    var i := FindSlot(n.children, st.slot).value;
    CountSlotWrite(n.children, i, list, ty, params);
    CountNodeWrite(nodes, st.index, n.(children := n.children[i := Slot(st.slot, list)]), ty, params);
  }

  lemma {:induction false} CountWithList(nodes: seq<Node>, path: ListPath, list: seq<Node>, ty: string, params: Json)
    requires HasList(nodes, path)
    ensures Count(WithList(nodes, path, list), ty, params) ==
            Count(nodes, ty, params) - Count(GetList(nodes, path), ty, params) + Count(list, ty, params)
  {
    if path != [] {
      var c := Child(nodes, path[0]);
      CountWithList(c, path[1..], list, ty, params);
      CountSetChild(nodes, path[0], WithList(c, path[1..], list), ty, params);
    }
  }

  /** Inserting adds exactly the nodes of the inserted subtree. */
  lemma CountInsert(nodes: seq<Node>, p: NodePath, n: Node, ty: string, params: Json)
    requires HasGap(nodes, p)
    ensures Count(Insert(nodes, p, n), ty, params) == Count(nodes, ty, params) + Count([n], ty, params)
  {
    var list := GetList(nodes, p.parent);
    CountWithList(nodes, p.parent, Inserted(list, p.index, n), ty, params);
    assert list == list[..p.index] + list[p.index..];
    CountAppend(list[..p.index], list[p.index..], ty, params);
    CountAppend(list[..p.index] + [n], list[p.index..], ty, params);
    CountAppend(list[..p.index], [n], ty, params);
  }
}
