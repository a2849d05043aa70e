/** What adding, removing and moving do to a whole composition. */
module CompositionEdits {
  import opened Wrappers
  import opened Composition
  import opened CompositionLaws
  import opened CompositionRules

  // Finding after an edit

  lemma {:induction false} PruneFewer(nodes: seq<Node>, id: string, other: string)
    ensures Count(Prune(nodes, id), other) <= Count(nodes, other)
    decreases nodes
  {
    if nodes != [] {
      PruneFewerInSlots(nodes[0].slots, id, other);
      PruneFewer(nodes[1..], id, other);
      if nodes[0].id == id { assert Prune(nodes, id) == Prune(nodes[1..], id); }
    }
  }

  lemma {:induction false} PruneFewerInSlots(slots: seq<Slot>, id: string, other: string)
    ensures CountSlots(PruneSlots(slots, id), other) <= CountSlots(slots, other)
    decreases slots
  {
    if slots != [] {
      PruneFewer(slots[0].children, id, other);
      PruneFewerInSlots(slots[1..], id, other);
    }
  }

  function Pruned(node: Node, id: string): Node {
    node.(slots := PruneSlots(node.slots, id))
  }

  lemma {:induction false} FindPruned(nodes: seq<Node>, id: string, other: string)
    requires other != id && Count(nodes, other) == 1 && Count(Prune(nodes, id), other) == 1
    ensures FindNode(nodes, other).Some?
    ensures FindNode(Prune(nodes, id), other) == Some(Pruned(FindNode(nodes, other).value, id))
    decreases nodes
  {
    var head, rest := nodes[0], nodes[1..];
    FindCounts(nodes, other);
    PruneFewer(rest, id, other);
    PruneFewerInSlots(head.slots, id, other);
    FindCountsInSlots(head.slots, other);
    FindCountsInSlots(PruneSlots(head.slots, id), other);
    if head.id == id {
      assert Prune(nodes, id) == Prune(rest, id);
      FindPruned(rest, id, other);
    } else if head.id != other {
      assert Prune(nodes, id)[1..] == Prune(rest, id);
      if CountSlots(PruneSlots(head.slots, id), other) == 1 {
        FindPrunedInSlots(head.slots, id, other);
      } else {
        FindPruned(rest, id, other);
      }
    }
  }

  lemma {:induction false} FindPrunedInSlots(slots: seq<Slot>, id: string, other: string)
    requires other != id && CountSlots(slots, other) == 1 && CountSlots(PruneSlots(slots, id), other) == 1
    ensures FindInSlots(slots, other).Some?
    ensures FindInSlots(PruneSlots(slots, id), other) == Some(Pruned(FindInSlots(slots, other).value, id))
    decreases slots
  {
    var head, rest := slots[0], slots[1..];
    FindCountsInSlots(slots, other);
    PruneFewer(head.children, id, other);
    PruneFewerInSlots(rest, id, other);
    FindCounts(head.children, other);
    FindCounts(Prune(head.children, id), other);
    assert PruneSlots(slots, id)[1..] == PruneSlots(rest, id);
    if Count(Prune(head.children, id), other) == 1 {
      FindPruned(head.children, id, other);
    } else {
      FindPrunedInSlots(rest, id, other);
    }
  }

  lemma {:induction false} FindUpdated(nodes: seq<Node>, parentId: string, name: string, updater: Updater)
    requires Count(nodes, parentId) > 0
    ensures FindNode(nodes, parentId).Some?
    ensures var parent := FindNode(nodes, parentId).value;
      FindNode(Update(nodes, parentId, name, updater), parentId)
        == Some(parent.(slots := SetSlot(parent.slots, name, updater(ChildrenOf(parent.slots, name)))))
    decreases nodes
  {
    var head, rest := nodes[0], nodes[1..];
    FindCounts(nodes, parentId);
    FindCountsInSlots(head.slots, parentId);
    assert Update(nodes, parentId, name, updater)[1..] == Update(rest, parentId, name, updater);
    if head.id != parentId {
      if CountSlots(head.slots, parentId) > 0 {
        FindUpdatedInSlots(head.slots, parentId, name, updater);
      } else {
        UpdateAbsentSlots(head.slots, parentId, name, updater);
        FindUpdated(rest, parentId, name, updater);
      }
    }
  }

  lemma {:induction false} FindUpdatedInSlots(slots: seq<Slot>, parentId: string, name: string, updater: Updater)
    requires CountSlots(slots, parentId) > 0
    ensures FindInSlots(slots, parentId).Some?
    ensures var parent := FindInSlots(slots, parentId).value;
      FindInSlots(UpdateSlots(slots, parentId, name, updater), parentId)
        == Some(parent.(slots := SetSlot(parent.slots, name, updater(ChildrenOf(parent.slots, name)))))
    decreases slots
  {
    var head, rest := slots[0], slots[1..];
    FindCountsInSlots(slots, parentId);
    FindCounts(head.children, parentId);
    assert UpdateSlots(slots, parentId, name, updater)[1..] == UpdateSlots(rest, parentId, name, updater);
    if Count(head.children, parentId) > 0 {
      FindUpdated(head.children, parentId, name, updater);
    } else {
      UpdateAbsent(head.children, parentId, name, updater);
      FindUpdatedInSlots(rest, parentId, name, updater);
    }
  }

  lemma {:induction false} FoundOk(rules: Rules, slack: Option<Place>, nodes: seq<Node>, id: string)
    requires TreeOk(rules, slack, nodes) && FindNode(nodes, id).Some?
    ensures NodeOk(rules, slack, FindNode(nodes, id).value)
    decreases nodes
  {
    if nodes[0].id != id {
      if FindInSlots(nodes[0].slots, id).Some? {
        FoundInSlotsOk(rules, slack, nodes[0].slots, id);
      } else {
        FoundOk(rules, slack, nodes[1..], id);
      }
    }
  }

  lemma {:induction false} FoundInSlotsOk(rules: Rules, slack: Option<Place>, slots: seq<Slot>, id: string)
    requires SlotsOk(rules, slack, slots) && FindInSlots(slots, id).Some?
    ensures NodeOk(rules, slack, FindInSlots(slots, id).value)
    decreases slots
  {
    if FindNode(slots[0].children, id).Some? {
      FoundOk(rules, slack, slots[0].children, id);
    } else {
      FoundInSlotsOk(rules, slack, slots[1..], id);
    }
  }

  lemma {:induction false} FoundTreeOk(rules: Rules, slack: Option<Place>, nodes: seq<Node>, id: string)
    requires TreeOk(rules, slack, nodes) && FindNode(nodes, id).Some?
    ensures TreeOk(rules, slack, [FindNode(nodes, id).value])
    decreases nodes
  {
    if nodes[0].id == id {
      assert [nodes[0]][1..] == [];
    } else if FindInSlots(nodes[0].slots, id).Some? {
      FoundTreeInSlotsOk(rules, slack, nodes[0].slots, id);
    } else {
      FoundTreeOk(rules, slack, nodes[1..], id);
    }
  }

  lemma {:induction false} FoundTreeInSlotsOk(rules: Rules, slack: Option<Place>, slots: seq<Slot>, id: string)
    requires SlotsOk(rules, slack, slots) && FindInSlots(slots, id).Some?
    ensures TreeOk(rules, slack, [FindInSlots(slots, id).value])
    decreases slots
  {
    if FindNode(slots[0].children, id).Some? {
      FoundTreeOk(rules, slack, slots[0].children, id);
    } else {
      FoundTreeInSlotsOk(rules, slack, slots[1..], id);
    }
  }

  lemma {:induction false} RootIsNoSlack(rules: Rules, nodes: seq<Node>)
    requires TreeOk(rules, Some(ROOT), nodes)
    ensures TreeOk(rules, None, nodes)
    decreases nodes
  {
    if nodes != [] {
      forall name ensures SlotOk(rules, None, nodes[0], name) {
        assert SlotOk(rules, Some(ROOT), nodes[0], name);
      }
      RootIsNoSlackInSlots(rules, nodes[0].slots);
      RootIsNoSlack(rules, nodes[1..]);
    }
  }

  lemma {:induction false} RootIsNoSlackInSlots(rules: Rules, slots: seq<Slot>)
    requires SlotsOk(rules, Some(ROOT), slots)
    ensures SlotsOk(rules, None, slots)
    decreases slots
  {
    if slots != [] {
      RootIsNoSlack(rules, slots[0].children);
      RootIsNoSlackInSlots(rules, slots[1..]);
    }
  }

  // Removing

  /** The collection an edit is about: the source, located, and its siblings. */
  ghost predicate Regular(place: Place) {
    place.parentId.Some? || place.slotName.None?
  }

  /**
   The collection a node was located in is found again, has it at the located index, and removing
   it there is pruning it.
   */
  lemma Removal(rules: Rules, nodes: seq<Node>, id: string) returns (source: Location, siblings: seq<Node>)
    requires Unique(nodes) && TreeOk(rules, None, nodes) && Count(nodes, id) == 1
    ensures LocateNode(nodes, id) == Some(source) && Regular(source.place)
    ensures source.place.parentId.Some? ==> source.place.slotName.Some? && Count(nodes, source.place.parentId.value) == 1
    ensures ChildrenAt(nodes, source.place) == Some(siblings)
    ensures source.index < |siblings| && Some(siblings[source.index]) == FindNode(nodes, id)
    ensures Without(siblings, id) == siblings[..source.index] + siblings[source.index + 1..]
    ensures UpdatedChildren(nodes, source.place, Remover(id)) == Some(Prune(nodes, id))
    ensures source.place == ROOT <==> HasTop(nodes, id)
  {
    TreeIsRecords(rules, None, nodes);
    LocateCounts(nodes, id, ROOT, 0);
    source := LocateNode(nodes, id).value;
    if HasTop(nodes, id) {
      var k := TopNode(nodes, id, ROOT, 0);
      siblings := nodes;
    } else {
      RemovalPrunes(nodes, id, ROOT, 0);
      siblings := NestedSiblings(nodes, id, ROOT, 0);
    }
  }

  /** The located index of a nested node, in the slot of the parent that is found by its id. */
  lemma {:induction false} NestedSiblings(nodes: seq<Node>, id: string, place: Place, index: nat)
    returns (siblings: seq<Node>)
    requires Unique(nodes) && Records(nodes) && Count(nodes, id) == 1 && !HasTop(nodes, id)
    ensures var location := LocateFrom(nodes, id, place, index);
      && location.Some? && location.value.place.parentId.Some? && location.value.place.slotName.Some?
      && var parent := FindNode(nodes, location.value.place.parentId.value);
      && parent.Some?
      && siblings == ChildrenOf(parent.value.slots, location.value.place.slotName.value)
      && location.value.index < |siblings|
      && FindNode(nodes, id) == Some(siblings[location.value.index])
      && Without(siblings, id) == siblings[..location.value.index] + siblings[location.value.index + 1..]
    decreases nodes
  {
    var head, rest := nodes[0], nodes[1..];
    UniqueParts(nodes);
    LocateCountsInSlots(head.slots, id, head.id);
    FindCountsInSlots(head.slots, id);
    if CountSlots(head.slots, id) > 0 {
      siblings := NestedInSlots(head.slots, id, head.id);
      var parentId := LocateInSlots(head.slots, id, head.id).value.place.parentId.value;
      FindCountsInSlots(head.slots, parentId);
    } else {
      RemovalPrunes(rest, id, place, index + 1);
      siblings := NestedSiblings(rest, id, place, index + 1);
      var parentId := LocateFrom(rest, id, place, index + 1).value.place.parentId.value;
      assert Count(nodes, parentId) <= 1;
      FindCountsInSlots(head.slots, parentId);
    }
  }

  lemma {:induction false} NestedInSlots(slots: seq<Slot>, id: string, owner: string) returns (siblings: seq<Node>)
    requires UniqueSlots(slots) && DistinctNames(slots) && RecordSlots(slots)
    requires CountSlots(slots, id) == 1 && CountSlots(slots, owner) == 0
    ensures var location := LocateInSlots(slots, id, owner);
      && location.Some? && location.value.place.parentId.Some? && location.value.place.slotName.Some?
      && var parentId, name := location.value.place.parentId.value, location.value.place.slotName.value;
      && (if parentId == owner
          then siblings == ChildrenOf(slots, name) && exists j :: 0 <= j < |slots| && slots[j].name == name
          else FindInSlots(slots, parentId).Some? && siblings == ChildrenOf(FindInSlots(slots, parentId).value.slots, name))
      && location.value.index < |siblings|
      && FindInSlots(slots, id) == Some(siblings[location.value.index])
      && Without(siblings, id) == siblings[..location.value.index] + siblings[location.value.index + 1..]
    decreases slots
  {
    var head, rest := slots[0], slots[1..];
    UniqueSlotParts(slots);
    LocateCounts(head.children, id, In(owner, head.name), 0);
    FindCounts(head.children, id);
    if Count(head.children, id) == 0 {
      siblings := NestedInSlots(rest, id, owner);
      var place := LocateInSlots(rest, id, owner).value.place;
      if place.parentId.value == owner {
        var j :| 0 <= j < |rest| && rest[j].name == place.slotName.value;
        assert slots[j + 1].name == place.slotName.value;
      } else {
        RemovalPrunesSlots(rest, id, owner);
        assert CountSlots(slots, place.parentId.value) <= 1;
        FindCounts(head.children, place.parentId.value);
      }
    } else if HasTop(head.children, id) {
      var k := TopNode(head.children, id, In(owner, head.name), 0);
      siblings := head.children;
    } else {
      RemovalPrunes(head.children, id, In(owner, head.name), 0);
      siblings := NestedSiblings(head.children, id, In(owner, head.name), 0);
    }
  }

  // Splices

  ghost predicate SplicedAt(before: seq<Entry>, after: seq<Entry>, run: seq<Entry>, k: nat) {
    k <= |before| && after == before[..k] + run + before[k..]
  }

  /** `after` is `before` with the run of entries put in somewhere: all others keep place and order. */
  ghost predicate Spliced(before: seq<Entry>, after: seq<Entry>, run: seq<Entry>) {
    exists k :: SplicedAt(before, after, run, k)
  }

  lemma SplicedHere(a: seq<Entry>, b: seq<Entry>, run: seq<Entry>)
    ensures Spliced(a + b, a + run + b, run)
  {
    assert (a + b)[..|a|] == a && (a + b)[|a|..] == b;
    assert SplicedAt(a + b, a + run + b, run, |a|);
  }

  /** An insertion, at the root or below: what it does to counts, entries and the collection. */
  lemma Insertion(nodes: seq<Node>, place: Place, index: nat, node: Node) returns (result: seq<Node>)
    requires place.parentId.Some? ==> place.slotName.Some? && Count(nodes, place.parentId.value) == 1
    requires Regular(place)
    ensures UpdatedChildren(nodes, place, Inserter(index, node)) == Some(result)
    ensures forall other :: Count(result, other) == Count(nodes, other) + Count([node], other)
    ensures Spliced(Entries(nodes, ROOT), Entries(result, ROOT), Entries([node], place))
    ensures ChildrenAt(nodes, place).Some?
    ensures ChildrenAt(result, place) == Some(Inserted(ChildrenAt(nodes, place).value, index, node))
  {
    if place.parentId.None? {
      result := Inserted(nodes, index, node);
      forall other ensures Count(result, other) == Count(nodes, other) + Count([node], other) {
        InsertedCounts(nodes, index, node, other);
      }
      var a, b := InsertedEntries(nodes, index, node, ROOT);
      SplicedHere(a, b, Entries([node], ROOT));
    } else {
      var parentId, name := place.parentId.value, place.slotName.value;
      result := Update(nodes, parentId, name, Inserter(index, node));
      forall other ensures Count(result, other) == Count(nodes, other) + Count([node], other) {
        InsertCounts(nodes, parentId, name, index, node, other);
      }
      var a, b := InsertEntries(nodes, parentId, name, index, node, ROOT);
      SplicedHere(a, b, Entries([node], place));
      FindUpdated(nodes, parentId, name, Inserter(index, node));
      var parent := FindNode(nodes, parentId).value;
      var children := Inserted(ChildrenOf(parent.slots, name), index, node);
      ChildrenSet(parent.slots, name, children, name);
    }
  }

  lemma {:induction false} PruneUnique(nodes: seq<Node>, id: string)
    requires Unique(nodes) && Count(nodes, id) == 1
    ensures Unique(Prune(nodes, id)) && FindNode(nodes, id).Some?
    ensures forall other :: Count(Prune(nodes, id), other) == Count(nodes, other) - Count([FindNode(nodes, id).value], other)
    ensures Unique([FindNode(nodes, id).value])
  {
    FindCounts(nodes, id);
    forall other
      ensures Count(Prune(nodes, id), other) == Count(nodes, other) - Count([FindNode(nodes, id).value], other)
      ensures Count(Prune(nodes, id), other) <= 1 && Count([FindNode(nodes, id).value], other) <= 1
    {
      PruneCounts(nodes, id, other);
      assert Count(nodes, other) <= 1;
    }
  }
}
