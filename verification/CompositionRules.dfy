/**
 Well-formed compositions: unique ids, every occupied slot declared, every child accepted, every
 collection within its bounds; and how pruning and inserting keep the tree so.
 */
module CompositionRules {
  import opened Wrappers
  import opened Composition
  import opened CompositionLaws

  /** A collection against its definition; with `slack` it may still be short of its minimum. */
  ghost predicate CollectionOk(definition: Option<SlotDefinition>, children: seq<Node>, slack: bool) {
    if definition.None? then children == []
    else
      && (slack || definition.value.min <= |children|)
      && (definition.value.max.Some? ==> |children| <= definition.value.max.value)
      && forall i :: 0 <= i < |children| ==> Accepts(definition.value.accepts, children[i].component)
  }

  ghost predicate SlotOk(rules: Rules, slack: Option<Place>, node: Node, name: string) {
    CollectionOk(SlotDefinitionFor(rules, node.component, name), ChildrenOf(node.slots, name),
                 slack == Some(In(node.id, name)))
  }

  ghost predicate NodeOk(rules: Rules, slack: Option<Place>, node: Node) {
    DistinctNames(node.slots) && forall name :: SlotOk(rules, slack, node, name)
  }

  ghost predicate TreeOk(rules: Rules, slack: Option<Place>, nodes: seq<Node>)
    decreases nodes
  {
    nodes == []
    || (NodeOk(rules, slack, nodes[0]) && SlotsOk(rules, slack, nodes[0].slots) && TreeOk(rules, slack, nodes[1..]))
  }

  ghost predicate SlotsOk(rules: Rules, slack: Option<Place>, slots: seq<Slot>)
    decreases slots
  {
    slots == [] || (TreeOk(rules, slack, slots[0].children) && SlotsOk(rules, slack, slots[1..]))
  }

  ghost predicate RootOk(rules: Rules, nodes: seq<Node>) {
    && (rules.rootMinimum.Some? ==> rules.rootMinimum.value <= |nodes|)
    && (rules.rootMaximum.Some? ==> |nodes| <= rules.rootMaximum.value)
    && (rules.rootAccepts.Some? ==> forall i :: 0 <= i < |nodes| ==> Accepts(rules.rootAccepts.value, nodes[i].component))
  }

  ghost predicate WellFormed(rules: Rules, nodes: seq<Node>) {
    Unique(nodes) && TreeOk(rules, None, nodes) && RootOk(rules, nodes)
  }

  lemma {:induction false} TreeIsRecords(rules: Rules, slack: Option<Place>, nodes: seq<Node>)
    requires TreeOk(rules, slack, nodes)
    ensures Records(nodes)
    decreases nodes
  {
    if nodes != [] {
      SlotsAreRecords(rules, slack, nodes[0].slots);
      TreeIsRecords(rules, slack, nodes[1..]);
    }
  }

  lemma {:induction false} SlotsAreRecords(rules: Rules, slack: Option<Place>, slots: seq<Slot>)
    requires SlotsOk(rules, slack, slots)
    ensures RecordSlots(slots)
    decreases slots
  {
    if slots != [] {
      TreeIsRecords(rules, slack, slots[0].children);
      SlotsAreRecords(rules, slack, slots[1..]);
    }
  }

  lemma {:induction false} TreeConcat(rules: Rules, slack: Option<Place>, a: seq<Node>, b: seq<Node>)
    ensures TreeOk(rules, slack, a + b) <==> TreeOk(rules, slack, a) && TreeOk(rules, slack, b)
    decreases |a|
  {
    if a == [] {
      assert a + b == b;
    } else {
      assert (a + b)[0] == a[0] && (a + b)[1..] == a[1..] + b;
      TreeConcat(rules, slack, a[1..], b);
    }
  }

  lemma {:induction false} Loosen(rules: Rules, slack: Option<Place>, nodes: seq<Node>)
    requires TreeOk(rules, None, nodes)
    ensures TreeOk(rules, slack, nodes)
    decreases nodes
  {
    if nodes != [] {
      LoosenSlots(rules, slack, nodes[0].slots);
      Loosen(rules, slack, nodes[1..]);
      forall name ensures SlotOk(rules, slack, nodes[0], name) {
        assert SlotOk(rules, None, nodes[0], name);
      }
    }
  }

  lemma {:induction false} LoosenSlots(rules: Rules, slack: Option<Place>, slots: seq<Slot>)
    requires SlotsOk(rules, None, slots)
    ensures SlotsOk(rules, slack, slots)
    decreases slots
  {
    if slots != [] {
      Loosen(rules, slack, slots[0].children);
      LoosenSlots(rules, slack, slots[1..]);
    }
  }

  /** Slack at a collection that is not short, or at no collection at all, is no slack. */
  lemma {:induction false} Tighten(rules: Rules, parentId: string, name: string, nodes: seq<Node>)
    requires TreeOk(rules, Some(In(parentId, name)), nodes)
    requires Count(nodes, parentId) <= 1
    requires var parent := FindNode(nodes, parentId);
      parent.Some? ==> SlotOk(rules, None, parent.value, name)
    ensures TreeOk(rules, None, nodes)
    decreases nodes
  {
    if nodes != [] {
      FindCountsInSlots(nodes[0].slots, parentId);
      FindCounts(nodes[1..], parentId);
      forall other ensures SlotOk(rules, None, nodes[0], other) {
        assert SlotOk(rules, Some(In(parentId, name)), nodes[0], other);
      }
      TightenSlots(rules, parentId, name, nodes[0].slots);
      Tighten(rules, parentId, name, nodes[1..]);
    }
  }

  lemma {:induction false} TightenSlots(rules: Rules, parentId: string, name: string, slots: seq<Slot>)
    requires SlotsOk(rules, Some(In(parentId, name)), slots)
    requires CountSlots(slots, parentId) <= 1
    requires var parent := FindInSlots(slots, parentId);
      parent.Some? ==> SlotOk(rules, None, parent.value, name)
    ensures SlotsOk(rules, None, slots)
    decreases slots
  {
    if slots != [] {
      FindCounts(slots[0].children, parentId);
      FindCountsInSlots(slots[1..], parentId);
      Tighten(rules, parentId, name, slots[0].children);
      TightenSlots(rules, parentId, name, slots[1..]);
    }
  }

  // Shallow views

  ghost predicate SameKinds(a: seq<Node>, b: seq<Node>) {
    |a| == |b| && forall i :: 0 <= i < |a| ==> a[i].id == b[i].id && a[i].component == b[i].component
  }

  lemma {:induction false} PruneShallow(nodes: seq<Node>, id: string)
    requires !HasTop(nodes, id)
    ensures SameKinds(Prune(nodes, id), nodes)
    decreases |nodes|
  {
    if nodes != [] {
      PruneShallow(nodes[1..], id);
      var rest := Prune(nodes[1..], id);
      assert Prune(nodes, id) == [nodes[0].(slots := PruneSlots(nodes[0].slots, id))] + rest;
    }
  }

  lemma {:induction false} UpdateShallow(nodes: seq<Node>, parentId: string, name: string, updater: Updater)
    ensures SameKinds(Update(nodes, parentId, name, updater), nodes)
    decreases |nodes|
  {
    if nodes != [] { UpdateShallow(nodes[1..], parentId, name, updater); }
  }

  lemma {:induction false} ChildrenPruned(slots: seq<Slot>, name: string, id: string)
    ensures ChildrenOf(PruneSlots(slots, id), name) == Prune(ChildrenOf(slots, name), id)
    decreases |slots|
  {
    if slots != [] && slots[0].name != name { ChildrenPruned(slots[1..], name, id); }
  }

  lemma {:induction false} ChildrenUpdated(slots: seq<Slot>, other: string, parentId: string, name: string, updater: Updater)
    ensures ChildrenOf(UpdateSlots(slots, parentId, name, updater), other)
      == Update(ChildrenOf(slots, other), parentId, name, updater)
    decreases |slots|
  {
    if slots != [] && slots[0].name != other { ChildrenUpdated(slots[1..], other, parentId, name, updater); }
  }

  lemma {:induction false} ChildrenSet(slots: seq<Slot>, name: string, children: seq<Node>, other: string)
    ensures ChildrenOf(SetSlot(slots, name, children), other) == if other == name then children else ChildrenOf(slots, other)
    decreases |slots|
  {
    if slots != [] && slots[0].name != name {
      ChildrenSet(slots[1..], name, children, other);
    }
  }

  lemma {:induction false} SetSlotNames(slots: seq<Slot>, name: string, children: seq<Node>)
    requires DistinctNames(slots)
    ensures DistinctNames(SetSlot(slots, name, children))
    ensures |slots| <= |SetSlot(slots, name, children)| <= |slots| + 1
    ensures forall i :: 0 <= i < |SetSlot(slots, name, children)| ==>
      SetSlot(slots, name, children)[i].name == if i < |slots| then slots[i].name else name
    ensures |SetSlot(slots, name, children)| > |slots| ==> forall i :: 0 <= i < |slots| ==> slots[i].name != name
    decreases |slots|
  {
    if slots != [] && slots[0].name != name { SetSlotNames(slots[1..], name, children); }
  }

  lemma {:induction false} PruneSlotNames(slots: seq<Slot>, id: string)
    ensures |PruneSlots(slots, id)| == |slots|
    ensures forall i :: 0 <= i < |slots| ==> PruneSlots(slots, id)[i].name == slots[i].name
    decreases |slots|
  {
    if slots != [] { PruneSlotNames(slots[1..], id); }
  }

  lemma {:induction false} UpdateSlotNames(slots: seq<Slot>, parentId: string, name: string, updater: Updater)
    ensures |UpdateSlots(slots, parentId, name, updater)| == |slots|
    ensures forall i :: 0 <= i < |slots| ==> UpdateSlots(slots, parentId, name, updater)[i].name == slots[i].name
    decreases |slots|
  {
    if slots != [] { UpdateSlotNames(slots[1..], parentId, name, updater); }
  }

  // Pruning keeps the tree, with slack where the node was

  lemma {:induction false} LocateInNamed(slots: seq<Slot>, name: string, id: string, owner: string)
    requires CountSlots(slots, id) == 1 && HasTop(ChildrenOf(slots, name), id)
    ensures LocateInSlots(slots, id, owner).Some? && LocateInSlots(slots, id, owner).value.place == In(owner, name)
    ensures Count(ChildrenOf(slots, name), id) == 1
    decreases |slots|
  {
    var head, rest := slots[0], slots[1..];
    LocateCounts(head.children, id, In(owner, head.name), 0);
    if head.name == name {
      TopCounts(head.children, id);
      var k := TopNode(head.children, id, In(owner, head.name), 0);
    } else {
      TopCounts(ChildrenOf(rest, name), id);
      NamedCounts(rest, name, id);
      LocateInNamed(rest, name, id, owner);
    }
  }

  lemma {:induction false} NamedCounts(slots: seq<Slot>, name: string, id: string)
    ensures Count(ChildrenOf(slots, name), id) <= CountSlots(slots, id)
    decreases |slots|
  {
    if slots != [] && slots[0].name != name { NamedCounts(slots[1..], name, id); }
  }

  lemma {:induction false} PruneNodeOk(rules: Rules, node: Node, id: string)
    requires NodeOk(rules, None, node) && CountSlots(node.slots, id) == 1
    ensures LocateInSlots(node.slots, id, node.id).Some?
    ensures NodeOk(rules, Some(LocateInSlots(node.slots, id, node.id).value.place),
                   node.(slots := PruneSlots(node.slots, id)))
  {
    LocateCountsInSlots(node.slots, id, node.id);
    var slack := Some(LocateInSlots(node.slots, id, node.id).value.place);
    var pruned := node.(slots := PruneSlots(node.slots, id));
    PruneSlotNames(node.slots, id);
    forall name ensures SlotOk(rules, slack, pruned, name) {
      assert SlotOk(rules, None, node, name);
      ChildrenPruned(node.slots, name, id);
      var children := ChildrenOf(node.slots, name);
      if HasTop(children, id) {
        LocateInNamed(node.slots, name, id, node.id);
        var k := TopNode(children, id, In(node.id, name), 0);
      } else {
        PruneShallow(children, id);
      }
    }
  }

  lemma {:induction false} PruneKeepsTree(rules: Rules, nodes: seq<Node>, id: string, place: Place, index: nat)
    requires TreeOk(rules, None, nodes) && Count(nodes, id) == 1
    ensures LocateFrom(nodes, id, place, index).Some?
    ensures TreeOk(rules, Some(LocateFrom(nodes, id, place, index).value.place), Prune(nodes, id))
    decreases nodes
  {
    var head, rest := nodes[0], nodes[1..];
    LocateCounts(nodes, id, place, index);
    LocateCountsInSlots(head.slots, id, head.id);
    var slack := Some(LocateFrom(nodes, id, place, index).value.place);
    if head.id == id {
      PruneAbsent(rest, id);
      assert Prune(nodes, id) == rest;
      Loosen(rules, slack, rest);
    } else if CountSlots(head.slots, id) > 0 {
      PruneAbsent(rest, id);
      Loosen(rules, slack, rest);
      PruneNodeOk(rules, head, id);
      PruneKeepsSlots(rules, head.slots, id, head.id);
    } else {
      PruneAbsentSlots(head.slots, id);
      Loosen(rules, slack, [head]);
      assert [head][1..] == [];
      PruneKeepsTree(rules, rest, id, place, index + 1);
    }
  }

  lemma {:induction false} PruneKeepsSlots(rules: Rules, slots: seq<Slot>, id: string, owner: string)
    requires SlotsOk(rules, None, slots) && CountSlots(slots, id) == 1
    ensures LocateInSlots(slots, id, owner).Some?
    ensures SlotsOk(rules, Some(LocateInSlots(slots, id, owner).value.place), PruneSlots(slots, id))
    decreases slots
  {
    var head, rest := slots[0], slots[1..];
    LocateCountsInSlots(slots, id, owner);
    LocateCounts(head.children, id, In(owner, head.name), 0);
    var slack := Some(LocateInSlots(slots, id, owner).value.place);
    if Count(head.children, id) > 0 {
      PruneAbsentSlots(rest, id);
      LoosenSlots(rules, slack, rest);
      PruneKeepsTree(rules, head.children, id, In(owner, head.name), 0);
    } else {
      PruneAbsent(head.children, id);
      Loosen(rules, slack, head.children);
      PruneKeepsSlots(rules, rest, id, owner);
    }
  }

  // Inserting an acceptable node keeps the tree

  /** The parent declares the slot, accepts the node there and has room for it. */
  ghost predicate Welcomes(rules: Rules, parent: Node, name: string, node: Node) {
    var definition := SlotDefinitionFor(rules, parent.component, name);
    && definition.Some?
    && Accepts(definition.value.accepts, node.component)
    && (definition.value.max.Some? ==> |ChildrenOf(parent.slots, name)| < definition.value.max.value)
  }

  lemma InsertedShallow(children: seq<Node>, index: nat, node: Node)
    ensures |Inserted(children, index, node)| == |children| + 1
    ensures forall i :: 0 <= i <= |children| ==>
      Inserted(children, index, node)[i] == node || Inserted(children, index, node)[i] in children
  {
  }

  lemma {:induction false} ParentOk(rules: Rules, parent: Node, name: string, index: nat, node: Node)
    requires NodeOk(rules, Some(In(parent.id, name)), parent)
    requires Welcomes(rules, parent, name, node)
    ensures
      var children := Inserted(ChildrenOf(parent.slots, name), index, node);
      var updated := parent.(slots := SetSlot(parent.slots, name, children));
      NodeOk(rules, Some(In(parent.id, name)), updated)
  {
    var slack := Some(In(parent.id, name));
    var children := Inserted(ChildrenOf(parent.slots, name), index, node);
    var updated := parent.(slots := SetSlot(parent.slots, name, children));
    SetSlotNames(parent.slots, name, children);
    InsertedShallow(ChildrenOf(parent.slots, name), index, node);
    forall other ensures SlotOk(rules, slack, updated, other) {
      assert SlotOk(rules, slack, parent, other);
      ChildrenSet(parent.slots, name, children, other);
    }
  }

  lemma {:induction false} AncestorOk(rules: Rules, slack: Option<Place>, ancestor: Node, parentId: string,
                                      name: string, updater: Updater)
    requires NodeOk(rules, slack, ancestor)
    ensures NodeOk(rules, slack, ancestor.(slots := UpdateSlots(ancestor.slots, parentId, name, updater)))
  {
    var updated := ancestor.(slots := UpdateSlots(ancestor.slots, parentId, name, updater));
    UpdateSlotNames(ancestor.slots, parentId, name, updater);
    forall other ensures SlotOk(rules, slack, updated, other) {
      assert SlotOk(rules, slack, ancestor, other);
      ChildrenUpdated(ancestor.slots, other, parentId, name, updater);
      UpdateShallow(ChildrenOf(ancestor.slots, other), parentId, name, updater);
    }
  }

  lemma {:induction false} InsertKeepsTree(rules: Rules, nodes: seq<Node>, parentId: string, name: string, index: nat,
                                           node: Node)
    requires TreeOk(rules, Some(In(parentId, name)), nodes) && Count(nodes, parentId) == 1
    requires TreeOk(rules, Some(In(parentId, name)), [node])
    requires FindNode(nodes, parentId).Some? && Welcomes(rules, FindNode(nodes, parentId).value, name, node)
    ensures TreeOk(rules, Some(In(parentId, name)), Update(nodes, parentId, name, Inserter(index, node)))
    decreases nodes
  {
    var head, rest := nodes[0], nodes[1..];
    FindCountsInSlots(head.slots, parentId);
    if head.id == parentId {
      UpdateAbsent(rest, parentId, name, Inserter(index, node));
      ParentOk(rules, head, name, index, node);
      SetSlotKeepsSlots(rules, Some(In(parentId, name)), head.slots, name, index, node);
    } else if CountSlots(head.slots, parentId) > 0 {
      UpdateAbsent(rest, parentId, name, Inserter(index, node));
      AncestorOk(rules, Some(In(parentId, name)), head, parentId, name, Inserter(index, node));
      InsertKeepsSlots(rules, head.slots, parentId, name, index, node);
    } else {
      UpdateAbsentSlots(head.slots, parentId, name, Inserter(index, node));
      InsertKeepsTree(rules, rest, parentId, name, index, node);
    }
  }

  lemma {:induction false} InsertKeepsSlots(rules: Rules, slots: seq<Slot>, parentId: string, name: string,
                                            index: nat, node: Node)
    requires SlotsOk(rules, Some(In(parentId, name)), slots) && CountSlots(slots, parentId) == 1
    requires TreeOk(rules, Some(In(parentId, name)), [node])
    requires FindInSlots(slots, parentId).Some? && Welcomes(rules, FindInSlots(slots, parentId).value, name, node)
    ensures SlotsOk(rules, Some(In(parentId, name)), UpdateSlots(slots, parentId, name, Inserter(index, node)))
    decreases slots
  {
    var head, rest := slots[0], slots[1..];
    FindCounts(head.children, parentId);
    if Count(head.children, parentId) > 0 {
      UpdateAbsentSlots(rest, parentId, name, Inserter(index, node));
      InsertKeepsTree(rules, head.children, parentId, name, index, node);
    } else {
      UpdateAbsent(head.children, parentId, name, Inserter(index, node));
      InsertKeepsSlots(rules, rest, parentId, name, index, node);
    }
  }

  lemma {:induction false} InsertedTree(rules: Rules, slack: Option<Place>, nodes: seq<Node>, index: nat, node: Node)
    requires TreeOk(rules, slack, nodes) && TreeOk(rules, slack, [node])
    ensures TreeOk(rules, slack, Inserted(nodes, index, node))
  {
    var k := if index <= |nodes| then index else |nodes|;
    assert Inserted(nodes, index, node) == nodes[..k] + [node] + nodes[k..];
    TreeConcat(rules, slack, nodes[..k] + [node], nodes[k..]);
    TreeConcat(rules, slack, nodes[..k], [node]);
    TreeConcat(rules, slack, nodes[..k], nodes[k..]);
    assert nodes == nodes[..k] + nodes[k..];
  }

  lemma {:induction false} SetSlotKeepsSlots(rules: Rules, slack: Option<Place>, slots: seq<Slot>, name: string,
                                             index: nat, node: Node)
    requires SlotsOk(rules, slack, slots) && TreeOk(rules, slack, [node])
    ensures SlotsOk(rules, slack, SetSlot(slots, name, Inserted(ChildrenOf(slots, name), index, node)))
    decreases |slots|
  {
    if slots == [] {
      assert Inserted([], index, node) == [node];
      assert [Slot(name, [node])][1..] == [];
    } else if slots[0].name == name {
      InsertedTree(rules, slack, slots[0].children, index, node);
      assert SetSlot(slots, name, Inserted(slots[0].children, index, node))[1..] == slots[1..];
    } else {
      SetSlotKeepsSlots(rules, slack, slots[1..], name, index, node);
      var updated := SetSlot(slots[1..], name, Inserted(ChildrenOf(slots, name), index, node));
      assert ([slots[0]] + updated)[1..] == updated;
    }
  }
}
