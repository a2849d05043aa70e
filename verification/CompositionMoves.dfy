/** The laws of adding, removing and moving, over one edit and over any run of edits. */
module CompositionMoves {
  import opened Wrappers
  import opened Composition
  import opened CompositionLaws
  import opened CompositionRules
  import opened CompositionEdits

  // A child in a collection is located in that collection

  lemma {:induction false} TopLocated(nodes: seq<Node>, k: nat, id: string, place: Place, index: nat)
    requires Unique(nodes) && k < |nodes| && nodes[k].id == id
    ensures LocateFrom(nodes, id, place, index) == Some(Location(place, index + k))
    ensures FindNode(nodes, id) == Some(nodes[k])
    ensures Count(nodes, id) == 1
    decreases k
  {
    UniqueParts(nodes);
    if k > 0 {
      TopLocated(nodes[1..], k - 1, id, place, index + 1);
      assert Count(nodes, id) <= 1;
      LocateCountsInSlots(nodes[0].slots, id, nodes[0].id);
      FindCountsInSlots(nodes[0].slots, id);
    }
  }

  lemma {:induction false} OwnChildLocated(slots: seq<Slot>, name: string, k: nat, id: string, owner: string)
    requires UniqueSlots(slots) && k < |ChildrenOf(slots, name)| && ChildrenOf(slots, name)[k].id == id
    ensures LocateInSlots(slots, id, owner) == Some(Location(In(owner, name), k))
    ensures FindInSlots(slots, id) == Some(ChildrenOf(slots, name)[k])
    ensures CountSlots(slots, id) == 1
    decreases |slots|
  {
    UniqueSlotParts(slots);
    if slots[0].name == name {
      TopLocated(slots[0].children, k, id, In(owner, name), 0);
    } else {
      OwnChildLocated(slots[1..], name, k, id, owner);
      LocateCounts(slots[0].children, id, In(owner, slots[0].name), 0);
      FindCounts(slots[0].children, id);
    }
    assert CountSlots(slots, id) <= 1;
  }

  lemma {:induction false} ChildLocated(nodes: seq<Node>, parentId: string, name: string, k: nat, id: string,
                                        place: Place, index: nat)
    requires Unique(nodes) && FindNode(nodes, parentId).Some?
    requires var children := ChildrenOf(FindNode(nodes, parentId).value.slots, name); k < |children| && children[k].id == id
    ensures LocateFrom(nodes, id, place, index) == Some(Location(In(parentId, name), k))
    ensures FindNode(nodes, id) == Some(ChildrenOf(FindNode(nodes, parentId).value.slots, name)[k])
    ensures Count(nodes, id) == 1
    decreases nodes
  {
    var head, rest := nodes[0], nodes[1..];
    UniqueParts(nodes);
    assert Count(nodes, id) <= 1;
    if head.id == parentId {
      OwnChildLocated(head.slots, name, k, id, head.id);
    } else if FindInSlots(head.slots, parentId).Some? {
      ChildLocatedInSlots(head.slots, parentId, name, k, id, head.id);
    } else {
      ChildLocated(rest, parentId, name, k, id, place, index + 1);
      LocateCountsInSlots(head.slots, id, head.id);
      FindCountsInSlots(head.slots, id);
    }
  }

  lemma {:induction false} ChildLocatedInSlots(slots: seq<Slot>, parentId: string, name: string, k: nat, id: string,
                                               owner: string)
    requires UniqueSlots(slots) && FindInSlots(slots, parentId).Some?
    requires var children := ChildrenOf(FindInSlots(slots, parentId).value.slots, name);
      k < |children| && children[k].id == id
    ensures LocateInSlots(slots, id, owner) == Some(Location(In(parentId, name), k))
    ensures FindInSlots(slots, id) == Some(ChildrenOf(FindInSlots(slots, parentId).value.slots, name)[k])
    ensures CountSlots(slots, id) == 1
    decreases slots
  {
    var head, rest := slots[0], slots[1..];
    UniqueSlotParts(slots);
    assert CountSlots(slots, id) <= 1;
    if FindNode(head.children, parentId).Some? {
      ChildLocated(head.children, parentId, name, k, id, In(owner, head.name), 0);
    } else {
      ChildLocatedInSlots(rest, parentId, name, k, id, owner);
      LocateCounts(head.children, id, In(owner, head.name), 0);
      FindCounts(head.children, id);
    }
  }

  /** The located place and index of a node, from its being a child there: the search is exact. */
  lemma {:induction false} LocatedWhereItIs(nodes: seq<Node>, place: Place, k: nat, id: string)
    requires Unique(nodes) && Regular(place) && ChildrenAt(nodes, place).Some?
    requires k < |ChildrenAt(nodes, place).value| && ChildrenAt(nodes, place).value[k].id == id
    ensures LocateNode(nodes, id) == Some(Location(place, k))
    ensures FindNode(nodes, id) == Some(ChildrenAt(nodes, place).value[k])
  {
    if place.parentId.None? {
      TopLocated(nodes, k, id, ROOT, 0);
    } else {
      ChildLocated(nodes, place.parentId.value, place.slotName.value, k, id, ROOT, 0);
    }
  }

  // Inserting into a collection with room

  /** The new children join none of the present ids, and every one of them is well-formed. */
  ghost predicate Fits(rules: Rules, nodes: seq<Node>, node: Node) {
    TreeOk(rules, None, [node]) && forall other :: Count(nodes, other) + Count([node], other) <= 1
  }

  /** The collection takes the node, and with it has its minimum. */
  ghost predicate RoomFor(rules: Rules, nodes: seq<Node>, place: Place, node: Node) {
    && Regular(place)
    && (place.parentId.Some? ==>
          && place.slotName.Some? && FindNode(nodes, place.parentId.value).Some?
          && var parent := FindNode(nodes, place.parentId.value).value;
          && Welcomes(rules, parent, place.slotName.value, node)
          && SlotDefinitionFor(rules, parent.component, place.slotName.value).value.min
             <= |ChildrenOf(parent.slots, place.slotName.value)| + 1)
  }

  lemma InsertionOk(rules: Rules, nodes: seq<Node>, place: Place, index: nat, node: Node) returns (result: seq<Node>)
    requires Unique(nodes) && TreeOk(rules, Some(place), nodes)
    requires Fits(rules, nodes, node) && RoomFor(rules, nodes, place, node)
    ensures UpdatedChildren(nodes, place, Inserter(index, node)) == Some(result)
    ensures Unique(result) && TreeOk(rules, None, result)
    ensures Spliced(Entries(nodes, ROOT), Entries(result, ROOT), Entries([node], place))
    ensures ChildrenAt(nodes, place).Some?
    ensures ChildrenAt(result, place) == Some(Inserted(ChildrenAt(nodes, place).value, index, node))
  {
    if place.parentId.None? {
      RootIsNoSlack(rules, nodes);
      InsertedTree(rules, None, nodes, index, node);
      result := Insertion(nodes, place, index, node);
    } else {
      var parentId, name := place.parentId.value, place.slotName.value;
      FindCounts(nodes, parentId);
      assert Count(nodes, parentId) <= 1;
      result := Insertion(nodes, place, index, node);
      Loosen(rules, Some(place), [node]);
      InsertKeepsTree(rules, nodes, parentId, name, index, node);
      InsertedFull(rules, nodes, parentId, name, index, node);
      assert Count(result, parentId) <= 1;
      Tighten(rules, parentId, name, result);
    }
  }

  lemma {:induction false} InsertedFull(rules: Rules, nodes: seq<Node>, parentId: string, name: string, index: nat,
                                        node: Node)
    requires TreeOk(rules, Some(In(parentId, name)), nodes) && Count(nodes, parentId) == 1
    requires RoomFor(rules, nodes, In(parentId, name), node)
    ensures var parent := FindNode(Update(nodes, parentId, name, Inserter(index, node)), parentId);
      parent.Some? && SlotOk(rules, None, parent.value, name)
  {
    FindUpdated(nodes, parentId, name, Inserter(index, node));
    var parent := FindNode(nodes, parentId).value;
    FindCounts(nodes, parentId);
    FoundOk(rules, Some(In(parentId, name)), nodes, parentId);
    assert SlotOk(rules, Some(In(parentId, name)), parent, name);
    var children := ChildrenOf(parent.slots, name);
    InsertedShallow(children, index, node);
    ChildrenSet(parent.slots, name, Inserted(children, index, node), name);
  }

  // Taking a node out

  lemma TakenOut(rules: Rules, nodes: seq<Node>, id: string)
    returns (source: Location, siblings: seq<Node>, rest: seq<Node>, node: Node)
    requires Unique(nodes) && TreeOk(rules, None, nodes) && Count(nodes, id) == 1
    ensures LocateNode(nodes, id) == Some(source) && Regular(source.place) && FindNode(nodes, id) == Some(node)
    ensures source.place.parentId.Some? ==> source.place.slotName.Some?
    ensures ChildrenAt(nodes, source.place) == Some(siblings)
    ensures source.index < |siblings| && siblings[source.index] == node && node.id == id
    ensures UpdatedChildren(nodes, source.place, Remover(id)) == Some(rest)
    ensures rest == Prune(nodes, id) && Unique(rest) && TreeOk(rules, Some(source.place), rest)
    ensures Fits(rules, rest, node)
    ensures ChildrenAt(rest, source.place) == Some(siblings[..source.index] + siblings[source.index + 1..])
    ensures source.place.parentId.Some? ==>
      var parentId := source.place.parentId.value;
      && Count(nodes, parentId) == 1 && Count(rest, parentId) == 1
      && FindNode(nodes, parentId).Some? && FindNode(rest, parentId).Some?
      && FindNode(rest, parentId).value.component == FindNode(nodes, parentId).value.component
    ensures Spliced(Entries(rest, ROOT), Entries(nodes, ROOT), Entries([node], source.place))
  {
    source, siblings := Removal(rules, nodes, id);
    rest := Prune(nodes, id);
    FindCounts(nodes, id);
    node := FindNode(nodes, id).value;
    PruneUnique(nodes, id);
    PruneKeepsTree(rules, nodes, id, ROOT, 0);
    FoundTreeOk(rules, None, nodes, id);
    forall other ensures Count(rest, other) + Count([node], other) <= 1 {
      assert Count(nodes, other) <= 1;
    }
    var a, b := PruneEntries(nodes, id, ROOT, 0);
    SplicedHere(a, b, Entries([node], source.place));
    if source.place.parentId.Some? {
      var parentId, name := source.place.parentId.value, source.place.slotName.value;
      FindUpdated(nodes, parentId, name, Remover(id));
      FindCounts(rest, parentId);
      assert Count(rest, parentId) <= 1;
      var parent := FindNode(nodes, parentId).value;
      ChildrenSet(parent.slots, name, Without(siblings, id), name);
    } else {
      assert Without(siblings, id) == rest;
    }
  }

  /** A collection that may lose a node without falling below its minimum. */
  lemma SourceKept(rules: Rules, nodes: seq<Node>, id: string, target: Option<Place>)
    returns (source: Location, siblings: seq<Node>, rest: seq<Node>, node: Node)
    requires Unique(nodes) && TreeOk(rules, None, nodes) && Count(nodes, id) == 1
    requires LocateNode(nodes, id).Some? && SourceError(nodes, LocateNode(nodes, id).value, target, rules).None?
    requires target != Some(LocateNode(nodes, id).value.place)
    ensures LocateNode(nodes, id) == Some(source) && FindNode(nodes, id) == Some(node) && node.id == id
    ensures ChildrenAt(nodes, source.place) == Some(siblings) && source.index < |siblings|
    ensures UpdatedChildren(nodes, source.place, Remover(id)) == Some(rest)
    ensures rest == Prune(nodes, id) && Unique(rest) && TreeOk(rules, None, rest) && Fits(rules, rest, node)
    ensures ChildrenAt(rest, source.place) == Some(siblings[..source.index] + siblings[source.index + 1..])
    ensures Spliced(Entries(rest, ROOT), Entries(nodes, ROOT), Entries([node], source.place))
  {
    source, siblings, rest, node := TakenOut(rules, nodes, id);
    if source.place.parentId.None? {
      RootIsNoSlack(rules, rest);
    } else {
      var parentId, name := source.place.parentId.value, source.place.slotName.value;
      FoundOk(rules, None, nodes, parentId);
      assert SlotOk(rules, None, FindNode(nodes, parentId).value, name);
      FoundOk(rules, Some(source.place), rest, parentId);
      FindCounts(rest, parentId);
      assert SlotOk(rules, Some(source.place), FindNode(rest, parentId).value, name);
      Tighten(rules, parentId, name, rest);
    }
  }

  /** An insertion keeps the root collection's rules when it is elsewhere, or when the root has room. */
  lemma RootInserted(rules: Rules, nodes: seq<Node>, place: Place, index: nat, node: Node)
    requires Regular(place) && UpdatedChildren(nodes, place, Inserter(index, node)).Some?
    requires rules.rootAccepts.Some? ==> forall i :: 0 <= i < |nodes| ==> Accepts(rules.rootAccepts.value, nodes[i].component)
    requires var size := if place == ROOT then |nodes| + 1 else |nodes|;
      && (rules.rootMinimum.Some? ==> rules.rootMinimum.value <= size)
      && (rules.rootMaximum.Some? ==> size <= rules.rootMaximum.value)
    requires place == ROOT && rules.rootAccepts.Some? ==> Accepts(rules.rootAccepts.value, node.component)
    ensures RootOk(rules, UpdatedChildren(nodes, place, Inserter(index, node)).value)
  {
    if place.parentId.None? {
      InsertedShallow(nodes, index, node);
    } else {
      UpdateShallow(nodes, place.parentId.value, place.slotName.value, Inserter(index, node));
    }
  }

  // The three edits

  /** Adding: the new children stand at the clamped index, everything else as it was. */
  lemma {:induction false} AddLaw(rules: Rules, nodes: seq<Node>, node: Node, target: Target)
    requires WellFormed(rules, nodes) && Regular(target.place) && Fits(rules, nodes, node)
    ensures var edit := AddNode(nodes, node, target, rules);
      && (edit.Failed? ==> edit.problem in {NoTarget, RootRefuses, RootFull, SlotUndeclared, SlotRefuses, SlotFull})
      && (edit.Done? ==>
            && WellFormed(rules, edit.nodes)
            && Spliced(Entries(nodes, ROOT), Entries(edit.nodes, ROOT), Entries([node], target.place))
            && var children := ChildrenAt(nodes, target.place);
            && children.Some?
            && var index := if target.index.Some? then target.index.value else |children.value|;
            && ChildrenAt(edit.nodes, target.place) == Some(Inserted(children.value, Clamp(index, |children.value|), node)))
  {
    CountNode(node, node.id);
    FindCounts(nodes, node.id);
    assert Count(nodes, node.id) + Count([node], node.id) <= 1;
    if TargetError(nodes, node, target.place, rules, None).None? {
      var place := target.place;
      if place.parentId.Some? {
        FoundOk(rules, None, nodes, place.parentId.value);
        FindCounts(nodes, place.parentId.value);
        assert SlotOk(rules, None, FindNode(nodes, place.parentId.value).value, place.slotName.value);
      }
      Loosen(rules, Some(place), nodes);
      var children := ChildrenAt(nodes, place).value;
      var index := Clamp(if target.index.Some? then target.index.value else |children|, |children|);
      var result := InsertionOk(rules, nodes, place, index, node);
      RootInserted(rules, nodes, place, index, node);
    }
  }

  /** Removing: the subtree leaves, everything else stays as it was. */
  lemma {:induction false} RemoveLaw(rules: Rules, nodes: seq<Node>, id: string)
    requires WellFormed(rules, nodes)
    ensures var edit := RemoveNode(nodes, id, rules);
      && (edit.Failed? ==> edit.problem in {NotFound, RootMinimum, SlotMinimum})
      && (edit == Failed(NotFound) <==> Count(nodes, id) == 0)
      && (edit.Done? ==>
            && WellFormed(rules, edit.nodes)
            && Count(edit.nodes, id) == 0
            && FindNode(nodes, id).Some? && LocateNode(nodes, id).Some?
            && Spliced(Entries(edit.nodes, ROOT), Entries(nodes, ROOT),
                       Entries([FindNode(nodes, id).value], LocateNode(nodes, id).value.place)))
  {
    LocateCounts(nodes, id, ROOT, 0);
    if Count(nodes, id) > 0 {
      assert Count(nodes, id) <= 1;
      if SourceError(nodes, LocateNode(nodes, id).value, None, rules).None? {
        RemoveDone(rules, nodes, id);
      } else {
        var source, siblings, rest, node := TakenOut(rules, nodes, id);
      }
    }
  }

  lemma {:induction false} RemoveDone(rules: Rules, nodes: seq<Node>, id: string)
    requires WellFormed(rules, nodes) && Count(nodes, id) == 1
    requires LocateNode(nodes, id).Some? && SourceError(nodes, LocateNode(nodes, id).value, None, rules).None?
    ensures var rest := Prune(nodes, id);
      && RemoveNode(nodes, id, rules) == Done(rest)
      && WellFormed(rules, rest) && Count(rest, id) == 0
      && FindNode(nodes, id).Some?
      && Spliced(Entries(rest, ROOT), Entries(nodes, ROOT),
                 Entries([FindNode(nodes, id).value], LocateNode(nodes, id).value.place))
  {
    var source, siblings, rest, node := SourceKept(rules, nodes, id, None);
    CountNode(node, id);
    RestRoot(rules, nodes, id);
  }

  /** The root collection without a node: the same kinds, or one fewer. */
  lemma {:induction false} RestRoot(rules: Rules, nodes: seq<Node>, id: string)
    requires Unique(nodes) && TreeOk(rules, None, nodes) && Count(nodes, id) == 1 && LocateNode(nodes, id).Some?
    ensures var rest := Prune(nodes, id);
      && (forall i :: 0 <= i < |rest| ==> exists j :: 0 <= j < |nodes| && nodes[j].component == rest[i].component)
      && |rest| == if LocateNode(nodes, id).value.place == ROOT then |nodes| - 1 else |nodes|
  {
    var source, siblings := Removal(rules, nodes, id);
    var rest := Prune(nodes, id);
    if HasTop(nodes, id) {
      var k := TopNode(nodes, id, ROOT, 0);
      forall i | 0 <= i < |rest| ensures exists j :: 0 <= j < |nodes| && nodes[j].component == rest[i].component {
        assert rest[i].component == nodes[if i < k then i else i + 1].component;
      }
    } else {
      PruneShallow(nodes, id);
    }
  }

  /** Another collection, when a node is taken out: its members stay, and so does its parent. */
  lemma {:induction false} TargetKept(rules: Rules, nodes: seq<Node>, id: string, place: Place)
    requires Unique(nodes) && TreeOk(rules, None, nodes) && Count(nodes, id) == 1 && FindNode(nodes, id).Some?
    requires Regular(place) && ChildrenAt(nodes, place).Some?
    requires LocateNode(nodes, id).Some? && LocateNode(nodes, id).value.place != place
    requires place.parentId.Some? ==>
      Count(nodes, place.parentId.value) == 1 && Count([FindNode(nodes, id).value], place.parentId.value) == 0
    ensures var rest := Prune(nodes, id);
      && ChildrenAt(rest, place).Some?
      && SameKinds(ChildrenAt(rest, place).value, ChildrenAt(nodes, place).value)
      && (place.parentId.Some? ==>
            && Count(rest, place.parentId.value) == 1
            && FindNode(nodes, place.parentId.value).Some? && FindNode(rest, place.parentId.value).Some?
            && FindNode(rest, place.parentId.value).value.component == FindNode(nodes, place.parentId.value).value.component)
  {
    var children := ChildrenAt(nodes, place).value;
    if HasTop(children, id) {
      var k := TopIndex(children, id);
      LocatedWhereItIs(nodes, place, k, id);
    }
    PruneShallow(children, id);
    PruneUnique(nodes, id);
    if place.parentId.Some? {
      var parentId, name := place.parentId.value, place.slotName.value;
      CountNode(FindNode(nodes, id).value, id);
      FindCounts(nodes, id);
      FindPruned(nodes, id, parentId);
      ChildrenPruned(FindNode(nodes, parentId).value.slots, name, id);
    }
  }

  lemma {:induction false} TopIndex(nodes: seq<Node>, id: string) returns (k: nat)
    requires HasTop(nodes, id)
    ensures k < |nodes| && nodes[k].id == id
    decreases |nodes|
  {
    if nodes[0].id == id {
      k := 0;
    } else {
      k := TopIndex(nodes[1..], id);
      k := k + 1;
    }
  }

  /** What a move that went through has done. */
  ghost predicate Moved(nodes: seq<Node>, id: string, target: Target, result: seq<Node>, rest: seq<Node>) {
    var node, source := FindNode(nodes, id), LocateNode(nodes, id);
    var destination, arrived := ChildrenAt(rest, target.place), ChildrenAt(result, target.place);
    && node.Some? && source.Some? && destination.Some? && arrived.Some?
    // the moved subtree is the run that left and arrived; every other entry kept its place and order
    && Spliced(Entries(rest, ROOT), Entries(nodes, ROOT), Entries([node.value], source.value.place))
    && Spliced(Entries(rest, ROOT), Entries(result, ROOT), Entries([node.value], target.place))
    // and in the target collection it stands at the adjusted index
    && var index := MoveIndex(source.value, target, |destination.value|);
    && index <= |destination.value|
    && arrived.value == Inserted(destination.value, index, node.value)
    && LocateNode(result, id) == Some(Location(target.place, index))
    && FindNode(result, id) == node
  }

  /** The target collection as it was before, apart from the moved node itself. */
  ghost predicate SameOthers(nodes: seq<Node>, id: string, place: Place, rest: seq<Node>) {
    var source, children, destination := LocateNode(nodes, id), ChildrenAt(nodes, place), ChildrenAt(rest, place);
    && source.Some? && children.Some? && destination.Some?
    && if source.value.place == place
       then && source.value.index < |children.value|
            && destination.value == children.value[..source.value.index] + children.value[source.value.index + 1..]
       else SameKinds(destination.value, children.value)
  }

  /** The list a move ends with: the given one when nothing moves, the rest with the node put in otherwise. */
  ghost predicate MoveEnds(nodes: seq<Node>, id: string, target: Target, rest: seq<Node>, result: seq<Node>) {
    var node, source, destination := FindNode(nodes, id), LocateNode(nodes, id), ChildrenAt(rest, target.place);
    && node.Some? && source.Some? && destination.Some?
    && UpdatedChildren(nodes, source.value.place, Remover(id)) == Some(rest)
    && var index := MoveIndex(source.value, target, |destination.value|);
    && if source.value.place == target.place && index == source.value.index then result == nodes
       else UpdatedChildren(rest, target.place, Inserter(index, node.value)) == Some(result)
  }

  lemma RoomAgain(rules: Rules, nodes: seq<Node>, id: string, place: Place) returns (rest: seq<Node>, node: Node)
    requires WellFormed(rules, nodes) && Regular(place) && Count(nodes, id) == 1
    requires LocateNode(nodes, id).Some? && LocateNode(nodes, id).value.place == place
    requires FindNode(nodes, id).Some?
    requires TargetError(nodes, FindNode(nodes, id).value, place, rules, LocateNode(nodes, id)).None?
    ensures rest == Prune(nodes, id) && FindNode(nodes, id) == Some(node)
    ensures RoomFor(rules, rest, place, node)
  {
    var source, siblings;
    source, siblings, rest, node := TakenOut(rules, nodes, id);
    if place.parentId.Some? {
      FoundOk(rules, None, nodes, place.parentId.value);
      assert SlotOk(rules, None, FindNode(nodes, place.parentId.value).value, place.slotName.value);
    }
  }

  lemma {:induction false} TogetherRoot(rules: Rules, nodes: seq<Node>, id: string, index: nat)
    requires WellFormed(rules, nodes) && Count(nodes, id) == 1
    requires LocateNode(nodes, id).Some? && FindNode(nodes, id).Some?
    requires Regular(LocateNode(nodes, id).value.place)
    requires TargetError(nodes, FindNode(nodes, id).value, LocateNode(nodes, id).value.place, rules,
                         LocateNode(nodes, id)).None?
    requires UpdatedChildren(Prune(nodes, id), LocateNode(nodes, id).value.place,
                             Inserter(index, FindNode(nodes, id).value)).Some?
    ensures RootOk(rules, UpdatedChildren(Prune(nodes, id), LocateNode(nodes, id).value.place,
                                          Inserter(index, FindNode(nodes, id).value)).value)
  {
    RestRoot(rules, nodes, id);
    RootInserted(rules, Prune(nodes, id), LocateNode(nodes, id).value.place, index, FindNode(nodes, id).value);
  }

  lemma MoveTogether(rules: Rules, nodes: seq<Node>, id: string, target: Target) returns (rest: seq<Node>, result: seq<Node>)
    requires WellFormed(rules, nodes) && Regular(target.place) && Count(nodes, id) == 1
    requires LocateNode(nodes, id).Some? && LocateNode(nodes, id).value.place == target.place
    requires FindNode(nodes, id).Some?
    requires TargetError(nodes, FindNode(nodes, id).value, target.place, rules, LocateNode(nodes, id)).None?
    ensures MoveEnds(nodes, id, target, rest, result)
    ensures WellFormed(rules, result) && Moved(nodes, id, target, result, rest) && SameOthers(nodes, id, target.place, rest)
  {
    var source, siblings, taken, node := TakenOut(rules, nodes, id);
    if MoveIndex(source, target, |siblings| - 1) == source.index {
      rest := MoveInPlace(rules, nodes, id, target);
      result := nodes;
    } else {
      rest, result := MoveAlong(rules, nodes, id, target);
    }
  }

  lemma MoveInPlace(rules: Rules, nodes: seq<Node>, id: string, target: Target) returns (rest: seq<Node>)
    requires WellFormed(rules, nodes) && Regular(target.place) && Count(nodes, id) == 1
    requires LocateNode(nodes, id).Some? && LocateNode(nodes, id).value.place == target.place
    requires ChildrenAt(nodes, target.place).Some? && |ChildrenAt(nodes, target.place).value| > 0
    requires MoveIndex(LocateNode(nodes, id).value, target, |ChildrenAt(nodes, target.place).value| - 1)
             == LocateNode(nodes, id).value.index
    ensures MoveEnds(nodes, id, target, rest, nodes)
    ensures Moved(nodes, id, target, nodes, rest) && SameOthers(nodes, id, target.place, rest)
  {
    var source, siblings, taken, node := TakenOut(rules, nodes, id);
    rest := taken;
    assert Inserted(siblings[..source.index] + siblings[source.index + 1..], source.index, node) == siblings;
  }

  lemma MoveAlong(rules: Rules, nodes: seq<Node>, id: string, target: Target) returns (rest: seq<Node>, result: seq<Node>)
    requires WellFormed(rules, nodes) && Regular(target.place) && Count(nodes, id) == 1
    requires LocateNode(nodes, id).Some? && LocateNode(nodes, id).value.place == target.place
    requires FindNode(nodes, id).Some?
    requires TargetError(nodes, FindNode(nodes, id).value, target.place, rules, LocateNode(nodes, id)).None?
    requires ChildrenAt(nodes, target.place).Some? && |ChildrenAt(nodes, target.place).value| > 0
    requires MoveIndex(LocateNode(nodes, id).value, target, |ChildrenAt(nodes, target.place).value| - 1)
             != LocateNode(nodes, id).value.index
    ensures MoveEnds(nodes, id, target, rest, result)
    ensures WellFormed(rules, result) && Moved(nodes, id, target, result, rest) && SameOthers(nodes, id, target.place, rest)
  {
    var source, siblings, taken, node := TakenOut(rules, nodes, id);
    rest := taken;
    var index := MoveIndex(source, target, |siblings| - 1);
    var _, _ := RoomAgain(rules, nodes, id, target.place);
    result := InsertionOk(rules, rest, target.place, index, node);
    var destination := ChildrenAt(rest, target.place).value;
    assert index <= |destination| && Inserted(destination, index, node)[index] == node;
    LocatedWhereItIs(result, target.place, index, id);
    TogetherRoot(rules, nodes, id, index);
  }

  lemma MoveAway(rules: Rules, nodes: seq<Node>, id: string, target: Target) returns (rest: seq<Node>, result: seq<Node>)
    requires WellFormed(rules, nodes) && Regular(target.place) && Count(nodes, id) == 1
    requires LocateNode(nodes, id).Some? && LocateNode(nodes, id).value.place != target.place
    requires FindNode(nodes, id).Some?
    requires target.place.parentId.Some? ==> !ContainsNode(FindNode(nodes, id).value, target.place.parentId.value)
    requires SourceError(nodes, LocateNode(nodes, id).value, Some(target.place), rules).None?
    requires TargetError(nodes, FindNode(nodes, id).value, target.place, rules, LocateNode(nodes, id)).None?
    ensures MoveEnds(nodes, id, target, rest, result)
    ensures WellFormed(rules, result) && Moved(nodes, id, target, result, rest) && SameOthers(nodes, id, target.place, rest)
  {
    var source, siblings, taken, node := SourceKept(rules, nodes, id, Some(target.place));
    rest := taken;
    var place := target.place;
    if place.parentId.Some? {
      CountNode(node, place.parentId.value);
      FindCounts(nodes, place.parentId.value);
      assert Count(nodes, place.parentId.value) <= 1;
      FoundOk(rules, None, nodes, place.parentId.value);
      assert SlotOk(rules, None, FindNode(nodes, place.parentId.value).value, place.slotName.value);
    }
    TargetKept(rules, nodes, id, place);
    Loosen(rules, Some(place), rest);
    var destination := ChildrenAt(rest, place).value;
    var index := MoveIndex(source, target, |destination|);
    result := InsertionOk(rules, rest, place, index, node);
    AwayRoot(rules, nodes, id, target.place, index, node);
    assert Inserted(destination, index, node)[index] == node;
    LocatedWhereItIs(result, place, index, id);
  }

  lemma {:induction false} AwayRoot(rules: Rules, nodes: seq<Node>, id: string, place: Place, index: nat, node: Node)
    requires WellFormed(rules, nodes) && Regular(place) && Count(nodes, id) == 1
    requires LocateNode(nodes, id).Some? && LocateNode(nodes, id).value.place != place
    requires SourceError(nodes, LocateNode(nodes, id).value, Some(place), rules).None?
    requires TargetError(nodes, node, place, rules, LocateNode(nodes, id)).None?
    requires UpdatedChildren(Prune(nodes, id), place, Inserter(index, node)).Some?
    ensures RootOk(rules, UpdatedChildren(Prune(nodes, id), place, Inserter(index, node)).value)
  {
    var source, siblings := Removal(rules, nodes, id);
    RestRoot(rules, nodes, id);
    RootInserted(rules, Prune(nodes, id), place, index, node);
  }

  /**
   Moving: a move either fails for one of the stated reasons, never for losing its own source or
   target, or keeps the composition well-formed and carries the whole subtree to its index.
   */
  lemma MoveLaw(rules: Rules, nodes: seq<Node>, id: string, target: Target) returns (rest: seq<Node>)
    requires WellFormed(rules, nodes) && Regular(target.place)
    ensures var edit := MoveNode(nodes, id, target, rules);
      && (edit == Failed(NotFound) <==> Count(nodes, id) == 0)
      && (edit.Failed? ==> edit.problem != TargetMissing && edit.problem != SourceMissing)
      && (edit.Done? ==>
            && WellFormed(rules, edit.nodes)
            && Moved(nodes, id, target, edit.nodes, rest)
            && SameOthers(nodes, id, target.place, rest))
  {
    rest := [];
    LocateCounts(nodes, id, ROOT, 0);
    FindCounts(nodes, id);
    var problem := MoveProblem(nodes, id, target, rules);
    if Count(nodes, id) > 0 && problem.None? {
      assert Count(nodes, id) <= 1;
      var result: seq<Node>;
      if LocateNode(nodes, id).value.place == target.place {
        rest, result := MoveTogether(rules, nodes, id, target);
      } else {
        rest, result := MoveAway(rules, nodes, id, target);
      }
      MoveReaches(nodes, id, target, rules, rest, result);
    } else if Count(nodes, id) > 0 {
      MoveStops(rules, nodes, id, target);
    }
  }

  /** The first of the checks a move makes that fails. */
  function MoveProblem(nodes: seq<Node>, id: string, target: Target, rules: Rules): Option<Problem> {
    var node, source := FindNode(nodes, id), LocateNode(nodes, id);
    if node.None? || source.None? then Some(NotFound)
    else if target.place.parentId.Some? && ContainsNode(node.value, target.place.parentId.value) then Some(NestedInItself)
    else
      var problem := SourceError(nodes, source.value, Some(target.place), rules);
      if problem.Some? then problem else TargetError(nodes, node.value, target.place, rules, source)
  }

  lemma MoveReaches(nodes: seq<Node>, id: string, target: Target, rules: Rules, rest: seq<Node>, result: seq<Node>)
    requires MoveProblem(nodes, id, target, rules).None? && MoveEnds(nodes, id, target, rest, result)
    ensures MoveNode(nodes, id, target, rules) == Done(result)
  {
  }

  lemma {:induction false} MoveStops(rules: Rules, nodes: seq<Node>, id: string, target: Target)
    requires WellFormed(rules, nodes) && Count(nodes, id) > 0
    requires MoveProblem(nodes, id, target, rules).Some?
    ensures MoveNode(nodes, id, target, rules) == Failed(MoveProblem(nodes, id, target, rules).value)
    ensures MoveProblem(nodes, id, target, rules).value !in {NotFound, SourceMissing, TargetMissing}
  {
    assert Count(nodes, id) <= 1;
    FindCounts(nodes, id);
    var source, siblings := Removal(rules, nodes, id);
  }

  // Indices within one collection

  /** The requested indices, in the numbering before the move, that leave a child where it is. */
  predicate StaysPut(position: nat, requested: Option<int>, count: nat) {
    match requested
    case None => position + 1 == count
    case Some(k) =>
      || k == position || k == position + 1
      || (k < 0 && position == 0) || (k > count && position + 1 == count)
  }

  /** Where a child requested at an index lands: first, last, or just before the child that was there. */
  ghost predicate LandsAt(before: seq<Node>, position: nat, requested: Option<int>, after: seq<Node>, index: nat)
    requires position < |before| && index < |after|
  {
    && (requested.None? ==> index + 1 == |after|)
    && (requested.Some? ==>
          var k := requested.value;
          && (0 <= k < |before| && k != position && k != position + 1 ==>
                index + 1 < |after| && after[index + 1] == before[k])
          && (k >= |before| ==> index + 1 == |after|)
          && (k <= 0 ==> index == 0))
  }

  lemma WhereItStays(children: seq<Node>, source: Location, target: Target, others: seq<Node>, index: nat)
    requires source.place == target.place && source.index < |children| && |others| == |children| - 1
    requires index == MoveIndex(source, target, |others|)
    ensures index <= |others|
    ensures index == source.index <==> StaysPut(source.index, target.index, |children|)
  {
  }

  lemma IndexWithin(children: seq<Node>, source: Location, target: Target, others: seq<Node>, index: nat, result: seq<Node>)
    requires source.place == target.place && source.index < |children|
    requires others == children[..source.index] + children[source.index + 1..]
    requires index == MoveIndex(source, target, |children| - 1)
    requires index <= |others| && result == Inserted(others, index, children[source.index])
    ensures index < |result| && result[index] == children[source.index]
    ensures result[..index] + result[index + 1..] == others
    ensures index == source.index <==> StaysPut(source.index, target.index, |children|)
    ensures LandsAt(children, source.index, target.index, result, index)
  {
    assert result == others[..index] + [children[source.index]] + others[index..];
    assert result[..index] == others[..index] && result[index + 1..] == others[index..];
    assert others == others[..index] + others[index..];
    WhereItStays(children, source, target, others, index);
    WhereItLands(children, source, target, others, index, result);
  }

  lemma WhereItLands(children: seq<Node>, source: Location, target: Target, others: seq<Node>, index: nat, result: seq<Node>)
    requires source.place == target.place && source.index < |children|
    requires others == children[..source.index] + children[source.index + 1..]
    requires index == MoveIndex(source, target, |others|)
    requires index <= |others| && result == others[..index] + [children[source.index]] + others[index..]
    ensures LandsAt(children, source.index, target.index, result, index)
  {
    if target.index.Some? && 0 <= target.index.value < |children| && index < |others| {
      assert result[index + 1] == others[index];
    }
  }

  /** A move within one collection, in terms of its siblings: what it makes of them, and when of all else nothing. */
  lemma MoveAmongSiblings(rules: Rules, nodes: seq<Node>, id: string, target: Target)
    returns (source: Location, siblings: seq<Node>)
    requires WellFormed(rules, nodes) && Regular(target.place)
    requires LocateNode(nodes, id).Some? && LocateNode(nodes, id).value.place == target.place
    requires MoveNode(nodes, id, target, rules).Done?
    ensures LocateNode(nodes, id) == Some(source) && source.index < |siblings|
    ensures ChildrenAt(nodes, target.place) == Some(siblings)
    ensures var result := MoveNode(nodes, id, target, rules).nodes;
      var index := MoveIndex(source, target, |siblings| - 1);
      && LocateNode(result, id) == Some(Location(target.place, index))
      && ChildrenAt(result, target.place)
         == Some(Inserted(siblings[..source.index] + siblings[source.index + 1..], index, siblings[source.index]))
      && (index == source.index ==> result == nodes)
  {
    LocateCounts(nodes, id, ROOT, 0);
    assert Count(nodes, id) <= 1;
    var taken, node;
    source, siblings, taken, node := TakenOut(rules, nodes, id);
    var rest := MoveLaw(rules, nodes, id, target);
    ArrivesAmong(nodes, id, target, MoveNode(nodes, id, target, rules).nodes, rest, source, siblings);
  }

  lemma {:induction false} ArrivesAmong(nodes: seq<Node>, id: string, target: Target, result: seq<Node>,
                                        rest: seq<Node>, source: Location, siblings: seq<Node>)
    requires Moved(nodes, id, target, result, rest) && SameOthers(nodes, id, target.place, rest)
    requires LocateNode(nodes, id) == Some(source) && source.place == target.place && source.index < |siblings|
    requires ChildrenAt(nodes, target.place) == Some(siblings) && FindNode(nodes, id) == Some(siblings[source.index])
    ensures var index := MoveIndex(source, target, |siblings| - 1);
      && LocateNode(result, id) == Some(Location(target.place, index))
      && ChildrenAt(result, target.place)
         == Some(Inserted(siblings[..source.index] + siblings[source.index + 1..], index, siblings[source.index]))
  {
    assert |siblings[..source.index] + siblings[source.index + 1..]| == |siblings| - 1;
  }

  /** What a move within one collection asks for and does, in the collection's own terms. */
  ghost predicate Within(nodes: seq<Node>, id: string, target: Target, result: seq<Node>, source: nat, index: nat) {
    var before, after := ChildrenAt(nodes, target.place), ChildrenAt(result, target.place);
    && before.Some? && after.Some? && source < |before.value| && index < |after.value|
    && LocateNode(nodes, id) == Some(Location(target.place, source))
    && LocateNode(result, id) == Some(Location(target.place, index))
    && after.value[index] == before.value[source]
    && after.value[..index] + after.value[index + 1..] == before.value[..source] + before.value[source + 1..]
    && (result == nodes <==> StaysPut(source, target.index, |before.value|))
    && LandsAt(before.value, source, target.index, after.value, index)
  }

  /**
   Moving within one collection: the whole composition is unchanged exactly for the listed indices,
   and for any other the node stands just before the child that was at the requested index, first
   or last, among its siblings in their order.
   */
  lemma MoveWithinLaw(rules: Rules, nodes: seq<Node>, id: string, target: Target)
    returns (result: seq<Node>, source: nat, index: nat)
    requires WellFormed(rules, nodes) && Regular(target.place)
    requires LocateNode(nodes, id).Some? && LocateNode(nodes, id).value.place == target.place
    requires MoveNode(nodes, id, target, rules).Done?
    ensures MoveNode(nodes, id, target, rules) == Done(result)
    ensures Within(nodes, id, target, result, source, index)
  {
    result := MoveNode(nodes, id, target, rules).nodes;
    var at, siblings := MoveAmongSiblings(rules, nodes, id, target);
    source, index := at.index, MoveIndex(at, target, |siblings| - 1);
    WithinSiblings(nodes, id, target, result, at, siblings);
  }

  lemma WithinSiblings(nodes: seq<Node>, id: string, target: Target, result: seq<Node>, at: Location, siblings: seq<Node>)
    requires at.place == target.place && at.index < |siblings|
    requires LocateNode(nodes, id) == Some(at) && ChildrenAt(nodes, target.place) == Some(siblings)
    requires var index := MoveIndex(at, target, |siblings| - 1);
      && LocateNode(result, id) == Some(Location(target.place, index))
      && ChildrenAt(result, target.place)
         == Some(Inserted(siblings[..at.index] + siblings[at.index + 1..], index, siblings[at.index]))
      && (index == at.index ==> result == nodes)
    ensures Within(nodes, id, target, result, at.index, MoveIndex(at, target, |siblings| - 1))
  {
    var index := MoveIndex(at, target, |siblings| - 1);
    var others, after := siblings[..at.index] + siblings[at.index + 1..], ChildrenAt(result, target.place).value;
    IndexWithin(siblings, at, target, others, index, after);
  }

  // Runs of edits

  datatype Operation = Add(node: Node, target: Target) | Remove(id: string) | Move(id: string, target: Target)

  function Apply(nodes: seq<Node>, operation: Operation, rules: Rules): Edit {
    match operation
    case Add(node, target) => AddNode(nodes, node, target, rules)
    case Remove(id) => RemoveNode(nodes, id, rules)
    case Move(id, target) => MoveNode(nodes, id, target, rules)
  }

  /** A failed edit leaves the composition as it is. */
  function Edited(nodes: seq<Node>, operations: seq<Operation>, rules: Rules): seq<Node>
    decreases |operations|
  {
    if operations == [] then nodes
    else
      var edit := Apply(nodes, operations[0], rules);
      Edited(if edit.Done? then edit.nodes else nodes, operations[1..], rules)
  }

  /** Targets name a slot only below a parent; an added subtree is well-formed, with ids not in use. */
  ghost predicate Proper(nodes: seq<Node>, operation: Operation, rules: Rules) {
    match operation
    case Add(node, target) => Regular(target.place) && Fits(rules, nodes, node)
    case Remove(_) => true
    case Move(_, target) => Regular(target.place)
  }

  ghost predicate AllProper(nodes: seq<Node>, operations: seq<Operation>, rules: Rules)
    decreases |operations|
  {
    operations == [] || (
      && Proper(nodes, operations[0], rules)
      && var edit := Apply(nodes, operations[0], rules);
      AllProper(if edit.Done? then edit.nodes else nodes, operations[1..], rules))
  }

  lemma EditKeeps(rules: Rules, nodes: seq<Node>, operation: Operation)
    requires WellFormed(rules, nodes) && Proper(nodes, operation, rules)
    ensures Apply(nodes, operation, rules).Done? ==> WellFormed(rules, Apply(nodes, operation, rules).nodes)
  {
    match operation
    case Add(node, target) => AddLaw(rules, nodes, node, target);
    case Remove(id) => RemoveLaw(rules, nodes, id);
    case Move(id, target) => var _ := MoveLaw(rules, nodes, id, target);
  }

  lemma {:induction false} EveryRunKeeps(rules: Rules, nodes: seq<Node>, operations: seq<Operation>)
    requires WellFormed(rules, nodes) && AllProper(nodes, operations, rules)
    ensures WellFormed(rules, Edited(nodes, operations, rules))
    decreases |operations|
  {
    if operations != [] {
      EditKeeps(rules, nodes, operations[0]);
      var edit := Apply(nodes, operations[0], rules);
      EveryRunKeeps(rules, if edit.Done? then edit.nodes else nodes, operations[1..]);
    }
  }
}
