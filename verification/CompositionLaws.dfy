/** How searching, pruning and inserting act on a forest with unique ids. */
module CompositionLaws {
  import opened Wrappers
  import opened Composition

  // Search and count agree

  lemma {:induction false} FindCounts(nodes: seq<Node>, id: string)
    ensures FindNode(nodes, id).Some? <==> Count(nodes, id) > 0
    ensures FindNode(nodes, id).Some? ==> FindNode(nodes, id).value.id == id
    decreases nodes
  {
    if nodes != [] {
      FindCountsInSlots(nodes[0].slots, id);
      FindCounts(nodes[1..], id);
    }
  }

  lemma {:induction false} FindCountsInSlots(slots: seq<Slot>, id: string)
    ensures FindInSlots(slots, id).Some? <==> CountSlots(slots, id) > 0
    ensures FindInSlots(slots, id).Some? ==> FindInSlots(slots, id).value.id == id
    decreases slots
  {
    if slots != [] {
      FindCounts(slots[0].children, id);
      FindCountsInSlots(slots[1..], id);
    }
  }

  lemma {:induction false} LocateCounts(nodes: seq<Node>, id: string, place: Place, index: nat)
    ensures LocateFrom(nodes, id, place, index).Some? <==> Count(nodes, id) > 0
    decreases nodes
  {
    if nodes != [] {
      LocateCountsInSlots(nodes[0].slots, id, nodes[0].id);
      LocateCounts(nodes[1..], id, place, index + 1);
    }
  }

  lemma {:induction false} LocateCountsInSlots(slots: seq<Slot>, id: string, parentId: string)
    ensures LocateInSlots(slots, id, parentId).Some? <==> CountSlots(slots, id) > 0
    decreases slots
  {
    if slots != [] {
      LocateCounts(slots[0].children, id, In(parentId, slots[0].name), 0);
      LocateCountsInSlots(slots[1..], id, parentId);
    }
  }

  lemma {:induction false} CountConcat(a: seq<Node>, b: seq<Node>, id: string)
    ensures Count(a + b, id) == Count(a, id) + Count(b, id)
    decreases |a|
  {
    if a == [] {
      assert a + b == b;
    } else {
      assert (a + b)[0] == a[0] && (a + b)[1..] == a[1..] + b;
      CountConcat(a[1..], b, id);
    }
  }

  lemma {:induction false} CountNode(node: Node, id: string)
    ensures Count([node], id) == (if node.id == id then 1 else 0) + CountSlots(node.slots, id)
    ensures ContainsNode(node, id) <==> Count([node], id) > 0
  {
    assert [node][1..] == [];
  }

  // Records: no node names a slot twice

  ghost predicate DistinctNames(slots: seq<Slot>) {
    forall i, j :: 0 <= i < j < |slots| ==> slots[i].name != slots[j].name
  }

  ghost predicate Records(nodes: seq<Node>)
    decreases nodes
  {
    nodes == [] || (DistinctNames(nodes[0].slots) && RecordSlots(nodes[0].slots) && Records(nodes[1..]))
  }

  ghost predicate RecordSlots(slots: seq<Slot>)
    decreases slots
  {
    slots == [] || (Records(slots[0].children) && RecordSlots(slots[1..]))
  }

  // A target that is not there changes nothing

  lemma {:induction false} UpdateAbsent(nodes: seq<Node>, parentId: string, name: string, updater: Updater)
    requires Count(nodes, parentId) == 0
    ensures Update(nodes, parentId, name, updater) == nodes
    decreases nodes
  {
    if nodes != [] {
      UpdateAbsentSlots(nodes[0].slots, parentId, name, updater);
      UpdateAbsent(nodes[1..], parentId, name, updater);
    }
  }

  lemma {:induction false} UpdateAbsentSlots(slots: seq<Slot>, parentId: string, name: string, updater: Updater)
    requires CountSlots(slots, parentId) == 0
    ensures UpdateSlots(slots, parentId, name, updater) == slots
    decreases slots
  {
    if slots != [] {
      UpdateAbsent(slots[0].children, parentId, name, updater);
      UpdateAbsentSlots(slots[1..], parentId, name, updater);
    }
  }

  // Pruning

  /** The forest without any node of that id, wherever it is. */
  function Prune(nodes: seq<Node>, id: string): seq<Node>
    decreases nodes
  {
    if nodes == [] then []
    else (if nodes[0].id == id then [] else [nodes[0].(slots := PruneSlots(nodes[0].slots, id))]) + Prune(nodes[1..], id)
  }

  function PruneSlots(slots: seq<Slot>, id: string): seq<Slot>
    decreases slots
  {
    if slots == [] then []
    else [slots[0].(children := Prune(slots[0].children, id))] + PruneSlots(slots[1..], id)
  }

  lemma {:induction false} PruneAbsent(nodes: seq<Node>, id: string)
    requires Count(nodes, id) == 0
    ensures Prune(nodes, id) == nodes
    decreases nodes
  {
    if nodes != [] {
      PruneAbsentSlots(nodes[0].slots, id);
      PruneAbsent(nodes[1..], id);
    }
  }

  lemma {:induction false} PruneAbsentSlots(slots: seq<Slot>, id: string)
    requires CountSlots(slots, id) == 0
    ensures PruneSlots(slots, id) == slots
    decreases slots
  {
    if slots != [] {
      PruneAbsent(slots[0].children, id);
      PruneAbsentSlots(slots[1..], id);
    }
  }

  predicate HasTop(nodes: seq<Node>, id: string) {
    nodes != [] && (nodes[0].id == id || HasTop(nodes[1..], id))
  }

  /** A node among the siblings: its location, and pruning as removal from the collection. */
  lemma {:induction false} TopNode(nodes: seq<Node>, id: string, place: Place, index: nat) returns (k: nat)
    requires Count(nodes, id) == 1 && HasTop(nodes, id)
    ensures k < |nodes| && nodes[k].id == id
    ensures LocateFrom(nodes, id, place, index) == Some(Location(place, index + k))
    ensures FindNode(nodes, id) == Some(nodes[k])
    ensures Without(nodes, id) == Prune(nodes, id) == nodes[..k] + nodes[k + 1..]
    decreases nodes
  {
    if nodes[0].id == id {
      k := 0;
      PruneAbsent(nodes[1..], id);
      WithoutAbsent(nodes[1..], id);
    } else {
      TopCounts(nodes[1..], id);
      assert CountSlots(nodes[0].slots, id) == 0;
      FindCountsInSlots(nodes[0].slots, id);
      LocateCountsInSlots(nodes[0].slots, id, nodes[0].id);
      PruneAbsentSlots(nodes[0].slots, id);
      var j := TopNode(nodes[1..], id, place, index + 1);
      k := j + 1;
      assert nodes[..k] == [nodes[0]] + nodes[1..][..j];
      assert nodes[k + 1..] == nodes[1..][j + 1..];
    }
  }

  lemma {:induction false} TopCounts(nodes: seq<Node>, id: string)
    requires HasTop(nodes, id)
    ensures Count(nodes, id) > 0
    decreases |nodes|
  {
    if nodes[0].id != id { TopCounts(nodes[1..], id); }
  }

  lemma {:induction false} WithoutAbsent(nodes: seq<Node>, id: string)
    requires Count(nodes, id) == 0
    ensures Without(nodes, id) == nodes
    decreases |nodes|
  {
    if nodes != [] { WithoutAbsent(nodes[1..], id); }
  }

  lemma {:induction false} SlotSet(slots: seq<Slot>, j: nat, children: seq<Node>)
    requires DistinctNames(slots) && j < |slots|
    ensures ChildrenOf(slots, slots[j].name) == slots[j].children
    ensures SetSlot(slots, slots[j].name, children) == slots[j := Slot(slots[j].name, children)]
    decreases j
  {
    if j > 0 { SlotSet(slots[1..], j - 1, children); }
  }

  /** Removing a nested node from the collection it was located in prunes it. */
  lemma {:induction false} RemovalPrunes(nodes: seq<Node>, id: string, place: Place, index: nat)
    requires Unique(nodes) && Records(nodes)
    requires Count(nodes, id) == 1 && !HasTop(nodes, id)
    ensures var location := LocateFrom(nodes, id, place, index);
      && location.Some? && location.value.place.parentId.Some? && location.value.place.slotName.Some?
      && Count(nodes, location.value.place.parentId.value) == 1
      && Update(nodes, location.value.place.parentId.value, location.value.place.slotName.value,
                Remover(id)) == Prune(nodes, id)
    decreases nodes
  {
    var head, rest := nodes[0], nodes[1..];
    UniqueParts(nodes);
    LocateCountsInSlots(head.slots, id, head.id);
    if CountSlots(head.slots, id) > 0 {
      RemovalPrunesSlots(head.slots, id, head.id);
      var found := LocateInSlots(head.slots, id, head.id).value;
      var parentId, name := found.place.parentId.value, found.place.slotName.value;
      assert Count(nodes, parentId) <= 1;
      UpdateAbsent(rest, parentId, name, Remover(id));
      PruneAbsent(rest, id);
    } else {
      RemovalPrunes(rest, id, place, index + 1);
      var found := LocateFrom(rest, id, place, index + 1).value;
      var parentId, name := found.place.parentId.value, found.place.slotName.value;
      assert Count(nodes, parentId) <= 1;
      UpdateAbsentSlots(head.slots, parentId, name, Remover(id));
      PruneAbsentSlots(head.slots, id);
    }
  }

  ghost predicate UniqueSlots(slots: seq<Slot>) {
    forall id :: CountSlots(slots, id) <= 1
  }

  lemma UniqueParts(nodes: seq<Node>)
    requires Unique(nodes) && nodes != []
    ensures UniqueSlots(nodes[0].slots) && Unique(nodes[1..])
    ensures CountSlots(nodes[0].slots, nodes[0].id) == 0 && Count(nodes[1..], nodes[0].id) == 0
  {
    forall id ensures CountSlots(nodes[0].slots, id) <= 1 && Count(nodes[1..], id) <= 1 {
      assert Count(nodes, id) <= 1;
    }
    assert Count(nodes, nodes[0].id) <= 1;
  }

  lemma UniqueSlotParts(slots: seq<Slot>)
    requires UniqueSlots(slots) && slots != []
    ensures Unique(slots[0].children) && UniqueSlots(slots[1..])
  {
    forall id ensures Count(slots[0].children, id) <= 1 && CountSlots(slots[1..], id) <= 1 {
      assert CountSlots(slots, id) <= 1;
    }
  }

  /** The same inside one node's slots, where the collection may be one of these very slots. */
  lemma {:induction false} RemovalPrunesSlots(slots: seq<Slot>, id: string, owner: string)
    requires UniqueSlots(slots) && DistinctNames(slots) && RecordSlots(slots)
    requires CountSlots(slots, id) == 1 && CountSlots(slots, owner) == 0
    ensures var location := LocateInSlots(slots, id, owner);
      && location.Some? && location.value.place.parentId.Some? && location.value.place.slotName.Some?
      && var parentId, name := location.value.place.parentId.value, location.value.place.slotName.value;
      && (if parentId == owner
          then SetSlot(slots, name, Without(ChildrenOf(slots, name), id)) == PruneSlots(slots, id)
               && exists j :: 0 <= j < |slots| && slots[j].name == name
          else CountSlots(slots, parentId) == 1
               && UpdateSlots(slots, parentId, name, Remover(id)) == PruneSlots(slots, id))
    decreases slots
  {
    var head, rest := slots[0], slots[1..];
    UniqueSlotParts(slots);
    LocateCounts(head.children, id, In(owner, head.name), 0);
    if Count(head.children, id) == 0 {
      RemovalPrunesSlots(rest, id, owner);
      var found := LocateInSlots(rest, id, owner).value;
      var parentId, name := found.place.parentId.value, found.place.slotName.value;
      PruneAbsent(head.children, id);
      if parentId == owner {
        var j :| 0 <= j < |rest| && rest[j].name == name;
        assert slots[j + 1].name == name;
      } else {
        assert CountSlots(slots, parentId) <= 1;
        UpdateAbsent(head.children, parentId, name, Remover(id));
      }
    } else {
      PruneAbsentSlots(rest, id);
      if HasTop(head.children, id) {
        var k := TopNode(head.children, id, In(owner, head.name), 0);
        SlotSet(slots, 0, Prune(head.children, id));
      } else {
        RemovalPrunes(head.children, id, In(owner, head.name), 0);
        var found := LocateFrom(head.children, id, In(owner, head.name), 0).value;
        var parentId, name := found.place.parentId.value, found.place.slotName.value;
        assert CountSlots(slots, parentId) <= 1;
        UpdateAbsentSlots(rest, parentId, name, Remover(id));
      }
    }
  }

  // The forest as a list: every node once, in pre-order, with the collection it is in

  datatype Entry = Entry(id: string, component: string, payload: string, place: Place)

  function Entries(nodes: seq<Node>, place: Place): seq<Entry>
    decreases nodes
  {
    if nodes == [] then []
    else [Entry(nodes[0].id, nodes[0].component, nodes[0].payload, place)]
         + SlotEntries(nodes[0].slots, nodes[0].id) + Entries(nodes[1..], place)
  }

  function SlotEntries(slots: seq<Slot>, owner: string): seq<Entry>
    decreases slots
  {
    if slots == [] then []
    else Entries(slots[0].children, In(owner, slots[0].name)) + SlotEntries(slots[1..], owner)
  }

  lemma {:induction false} EntriesConcat(a: seq<Node>, b: seq<Node>, place: Place)
    ensures Entries(a + b, place) == Entries(a, place) + Entries(b, place)
    decreases |a|
  {
    if a == [] {
      assert a + b == b;
    } else {
      assert (a + b)[0] == a[0] && (a + b)[1..] == a[1..] + b;
      EntriesConcat(a[1..], b, place);
    }
  }

  lemma {:induction false} EntriesSplit(nodes: seq<Node>, k: nat, node: Node, place: Place)
    requires k <= |nodes|
    ensures Entries(nodes[..k] + [node] + nodes[k..], place)
         == Entries(nodes[..k], place) + Entries([node], place) + Entries(nodes[k..], place)
    ensures Entries(nodes, place) == Entries(nodes[..k], place) + Entries(nodes[k..], place)
  {
    EntriesOfThree(nodes[..k], node, nodes[k..], place);
    EntriesConcat(nodes[..k], nodes[k..], place);
    assert nodes == nodes[..k] + nodes[k..];
  }

  lemma {:induction false} EntriesOfThree(front: seq<Node>, node: Node, back: seq<Node>, place: Place)
    ensures Entries(front + [node] + back, place)
         == Entries(front, place) + Entries([node], place) + Entries(back, place)
  {
    EntriesConcat(front + [node], back, place);
    EntriesConcat(front, [node], place);
  }

  lemma {:induction false} EntriesOfOne(node: Node, place: Place)
    ensures Entries([node], place) == [Entry(node.id, node.component, node.payload, place)] + SlotEntries(node.slots, node.id)
  {
    assert [node][1..] == [];
  }

  lemma Regroup<T>(x: seq<T>, a: seq<T>, run: seq<T>, b: seq<T>, y: seq<T>)
    ensures x + (a + run + b) + y == (x + a) + run + (b + y)
    ensures x + (a + run + b) == (x + a) + run + b
    ensures (a + run + b) + y == a + run + (b + y)
    ensures x + (a + b) + y == (x + a) + (b + y)
    ensures x + (a + b) == (x + a) + b
    ensures (a + b) + y == a + (b + y)
  {
  }

  /** Pruning takes out the located subtree's run of entries and nothing else. */
  lemma {:induction false} PruneEntries(nodes: seq<Node>, id: string, place: Place, index: nat)
    returns (a: seq<Entry>, b: seq<Entry>)
    requires Count(nodes, id) == 1
    ensures FindNode(nodes, id).Some? && LocateFrom(nodes, id, place, index).Some?
    ensures Entries(nodes, place)
         == a + Entries([FindNode(nodes, id).value], LocateFrom(nodes, id, place, index).value.place) + b
    ensures Entries(Prune(nodes, id), place) == a + b
    decreases nodes
  {
    var head, rest := nodes[0], nodes[1..];
    var own := [Entry(head.id, head.component, head.payload, place)];
    FindCountsInSlots(head.slots, id);
    LocateCountsInSlots(head.slots, id, head.id);
    if head.id == id {
      PruneAbsent(rest, id);
      assert Prune(nodes, id) == rest;
      EntriesOfOne(head, place);
      a, b := [], Entries(rest, place);
    } else if CountSlots(head.slots, id) > 0 {
      var c, d := PruneSlotEntries(head.slots, id, head.id);
      PruneAbsent(rest, id);
      a, b := own + c, d + Entries(rest, place);
      Regroup(own, c,
              Entries([FindInSlots(head.slots, id).value], LocateInSlots(head.slots, id, head.id).value.place), d,
              Entries(rest, place));
    } else {
      PruneAbsentSlots(head.slots, id);
      var c, d := PruneEntries(rest, id, place, index + 1);
      var x := own + SlotEntries(head.slots, head.id);
      a, b := x + c, d;
      Regroup(x, c, Entries([FindNode(rest, id).value], LocateFrom(rest, id, place, index + 1).value.place), d, []);
    }
  }

  lemma {:induction false} PruneSlotEntries(slots: seq<Slot>, id: string, owner: string)
    returns (a: seq<Entry>, b: seq<Entry>)
    requires CountSlots(slots, id) == 1
    ensures FindInSlots(slots, id).Some? && LocateInSlots(slots, id, owner).Some?
    ensures SlotEntries(slots, owner)
         == a + Entries([FindInSlots(slots, id).value], LocateInSlots(slots, id, owner).value.place) + b
    ensures SlotEntries(PruneSlots(slots, id), owner) == a + b
    decreases slots
  {
    var head, rest := slots[0], slots[1..];
    var place := In(owner, head.name);
    FindCounts(head.children, id);
    LocateCounts(head.children, id, place, 0);
    if Count(head.children, id) > 0 {
      var c, d := PruneEntries(head.children, id, place, 0);
      PruneAbsentSlots(rest, id);
      a, b := c, d + SlotEntries(rest, owner);
      Regroup([], c,
              Entries([FindNode(head.children, id).value], LocateFrom(head.children, id, place, 0).value.place), d,
              SlotEntries(rest, owner));
    } else {
      PruneAbsent(head.children, id);
      var c, d := PruneSlotEntries(rest, id, owner);
      a, b := Entries(head.children, place) + c, d;
      Regroup(Entries(head.children, place), c,
              Entries([FindInSlots(rest, id).value], LocateInSlots(rest, id, owner).value.place), d, []);
    }
  }

  /** Inserting into a slot puts the subtree's run of entries between two others. */
  lemma {:induction false} InsertEntries(nodes: seq<Node>, parentId: string, name: string, index: nat, node: Node,
                                         place: Place)
    returns (a: seq<Entry>, b: seq<Entry>)
    requires Count(nodes, parentId) == 1
    ensures Entries(nodes, place) == a + b
    ensures Entries(Update(nodes, parentId, name, Inserter(index, node)), place)
         == a + Entries([node], In(parentId, name)) + b
    decreases nodes
  {
    var head, rest := nodes[0], nodes[1..];
    var own := [Entry(head.id, head.component, head.payload, place)];
    var run := Entries([node], In(parentId, name));
    if head.id == parentId {
      UpdateAbsent(rest, parentId, name, Inserter(index, node));
      var c, d := SetSlotEntries(head.slots, name, index, node, head.id);
      a, b := own + c, d + Entries(rest, place);
      Regroup(own, c, run, d, Entries(rest, place));
    } else if CountSlots(head.slots, parentId) > 0 {
      UpdateAbsent(rest, parentId, name, Inserter(index, node));
      var c, d := InsertSlotEntries(head.slots, parentId, name, index, node, head.id);
      a, b := own + c, d + Entries(rest, place);
      Regroup(own, c, run, d, Entries(rest, place));
    } else {
      UpdateAbsentSlots(head.slots, parentId, name, Inserter(index, node));
      var c, d := InsertEntries(rest, parentId, name, index, node, place);
      var x := own + SlotEntries(head.slots, head.id);
      a, b := x + c, d;
      Regroup(x, c, run, d, []);
    }
  }

  lemma {:induction false} InsertSlotEntries(slots: seq<Slot>, parentId: string, name: string, index: nat, node: Node,
                                             owner: string)
    returns (a: seq<Entry>, b: seq<Entry>)
    requires CountSlots(slots, parentId) == 1
    ensures SlotEntries(slots, owner) == a + b
    ensures SlotEntries(UpdateSlots(slots, parentId, name, Inserter(index, node)), owner)
         == a + Entries([node], In(parentId, name)) + b
    decreases slots
  {
    var head, rest := slots[0], slots[1..];
    var place := In(owner, head.name);
    var run := Entries([node], In(parentId, name));
    if Count(head.children, parentId) > 0 {
      UpdateAbsentSlots(rest, parentId, name, Inserter(index, node));
      var c, d := InsertEntries(head.children, parentId, name, index, node, place);
      a, b := c, d + SlotEntries(rest, owner);
      Regroup([], c, run, d, SlotEntries(rest, owner));
    } else {
      UpdateAbsent(head.children, parentId, name, Inserter(index, node));
      var c, d := InsertSlotEntries(rest, parentId, name, index, node, owner);
      a, b := Entries(head.children, place) + c, d;
      Regroup(Entries(head.children, place), c, run, d, []);
    }
  }

  /** The same inside the parent's own slots, where the slot may be a new one. */
  lemma {:induction false} SetSlotEntries(slots: seq<Slot>, name: string, index: nat, node: Node, owner: string)
    returns (a: seq<Entry>, b: seq<Entry>)
    ensures SlotEntries(slots, owner) == a + b
    ensures SlotEntries(SetSlot(slots, name, Inserted(ChildrenOf(slots, name), index, node)), owner)
         == a + Entries([node], In(owner, name)) + b
    decreases |slots|
  {
    var run := Entries([node], In(owner, name));
    if slots == [] {
      assert Inserted([], index, node) == [node];
      assert [Slot(name, [node])][1..] == [];
      a, b := [], [];
    } else if slots[0].name == name {
      var c, d := InsertedEntries(slots[0].children, index, node, In(owner, name));
      a, b := c, d + SlotEntries(slots[1..], owner);
      assert SetSlot(slots, name, Inserted(slots[0].children, index, node))[1..] == slots[1..];
      Regroup([], c, run, d, SlotEntries(slots[1..], owner));
    } else {
      var c, d := SetSlotEntries(slots[1..], name, index, node, owner);
      var updated := SetSlot(slots[1..], name, Inserted(ChildrenOf(slots, name), index, node));
      assert ([slots[0]] + updated)[1..] == updated;
      a, b := Entries(slots[0].children, In(owner, slots[0].name)) + c, d;
      Regroup(Entries(slots[0].children, In(owner, slots[0].name)), c, run, d, []);
    }
  }

  lemma InsertedEntries(nodes: seq<Node>, index: nat, node: Node, place: Place) returns (a: seq<Entry>, b: seq<Entry>)
    ensures Entries(nodes, place) == a + b
    ensures Entries(Inserted(nodes, index, node), place) == a + Entries([node], place) + b
  {
    var k := if index <= |nodes| then index else |nodes|;
    assert Inserted(nodes, index, node) == nodes[..k] + [node] + nodes[k..];
    EntriesSplit(nodes, k, node, place);
    a, b := Entries(nodes[..k], place), Entries(nodes[k..], place);
  }

  // Counting after an edit

  lemma {:induction false} PruneCounts(nodes: seq<Node>, id: string, other: string)
    requires Count(nodes, id) == 1
    ensures FindNode(nodes, id).Some?
    ensures Count(Prune(nodes, id), other) == Count(nodes, other) - Count([FindNode(nodes, id).value], other)
    decreases nodes
  {
    var head, rest := nodes[0], nodes[1..];
    FindCountsInSlots(head.slots, id);
    if head.id == id {
      PruneAbsent(rest, id);
      assert Prune(nodes, id) == rest;
      CountNode(head, other);
    } else if CountSlots(head.slots, id) > 0 {
      PruneCountsInSlots(head.slots, id, other);
      PruneAbsent(rest, id);
    } else {
      PruneAbsentSlots(head.slots, id);
      PruneCounts(rest, id, other);
    }
  }

  lemma {:induction false} PruneCountsInSlots(slots: seq<Slot>, id: string, other: string)
    requires CountSlots(slots, id) == 1
    ensures FindInSlots(slots, id).Some?
    ensures CountSlots(PruneSlots(slots, id), other)
      == CountSlots(slots, other) - Count([FindInSlots(slots, id).value], other)
    decreases slots
  {
    var head, rest := slots[0], slots[1..];
    FindCounts(head.children, id);
    if Count(head.children, id) > 0 {
      PruneCounts(head.children, id, other);
      PruneAbsentSlots(rest, id);
    } else {
      PruneAbsent(head.children, id);
      PruneCountsInSlots(rest, id, other);
    }
  }

  lemma {:induction false} InsertCounts(nodes: seq<Node>, parentId: string, name: string, index: nat, node: Node,
                                        other: string)
    requires Count(nodes, parentId) == 1
    ensures Count(Update(nodes, parentId, name, Inserter(index, node)), other) == Count(nodes, other) + Count([node], other)
    decreases nodes
  {
    var head, rest := nodes[0], nodes[1..];
    if head.id == parentId {
      UpdateAbsent(rest, parentId, name, Inserter(index, node));
      SetSlotCounts(head.slots, name, index, node, other);
    } else if CountSlots(head.slots, parentId) > 0 {
      UpdateAbsent(rest, parentId, name, Inserter(index, node));
      InsertCountsInSlots(head.slots, parentId, name, index, node, other);
    } else {
      UpdateAbsentSlots(head.slots, parentId, name, Inserter(index, node));
      InsertCounts(rest, parentId, name, index, node, other);
    }
  }

  lemma {:induction false} InsertCountsInSlots(slots: seq<Slot>, parentId: string, name: string, index: nat,
                                               node: Node, other: string)
    requires CountSlots(slots, parentId) == 1
    ensures CountSlots(UpdateSlots(slots, parentId, name, Inserter(index, node)), other)
         == CountSlots(slots, other) + Count([node], other)
    decreases slots
  {
    var head, rest := slots[0], slots[1..];
    if Count(head.children, parentId) > 0 {
      UpdateAbsentSlots(rest, parentId, name, Inserter(index, node));
      InsertCounts(head.children, parentId, name, index, node, other);
    } else {
      UpdateAbsent(head.children, parentId, name, Inserter(index, node));
      InsertCountsInSlots(rest, parentId, name, index, node, other);
    }
  }

  lemma {:induction false} InsertedCounts(nodes: seq<Node>, index: nat, node: Node, other: string)
    ensures Count(Inserted(nodes, index, node), other) == Count(nodes, other) + Count([node], other)
  {
    var k := if index <= |nodes| then index else |nodes|;
    assert Inserted(nodes, index, node) == nodes[..k] + [node] + nodes[k..];
    CountConcat(nodes[..k] + [node], nodes[k..], other);
    CountConcat(nodes[..k], [node], other);
    CountConcat(nodes[..k], nodes[k..], other);
    assert nodes == nodes[..k] + nodes[k..];
  }

  lemma {:induction false} SetSlotCounts(slots: seq<Slot>, name: string, index: nat, node: Node, other: string)
    ensures CountSlots(SetSlot(slots, name, Inserted(ChildrenOf(slots, name), index, node)), other)
         == CountSlots(slots, other) + Count([node], other)
    decreases |slots|
  {
    if slots == [] {
      assert Inserted([], index, node) == [node];
      assert [Slot(name, [node])][1..] == [];
    } else if slots[0].name == name {
      InsertedCounts(slots[0].children, index, node, other);
    } else {
      SetSlotCounts(slots[1..], name, index, node, other);
    }
  }
}
