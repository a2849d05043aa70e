/**
 Which edits of a composition are accepted, in terms of the composition they would leave, and where
 a node moved into another collection lands.
 */
module CompositionAcceptance {
  import opened Wrappers
  import opened Composition
  import opened CompositionLaws
  import opened CompositionRules
  import opened CompositionEdits
  import opened CompositionMoves

  // Adding

  /** The slot of a well-formed composition that an inserted node was put into takes that node. */
  lemma {:induction false} InsertedIsWelcome(rules: Rules, nodes: seq<Node>, parentId: string, name: string, index: nat,
                                             node: Node)
    requires Unique(nodes) && Count(nodes, parentId) == 1
    requires TreeOk(rules, None, Update(nodes, parentId, name, Inserter(index, node)))
    ensures FindNode(nodes, parentId).Some? && Welcomes(rules, FindNode(nodes, parentId).value, name, node)
  {
    var result := Update(nodes, parentId, name, Inserter(index, node));
    FindCounts(nodes, parentId);
    FindUpdated(nodes, parentId, name, Inserter(index, node));
    FindCounts(result, parentId);
    FoundOk(rules, None, result, parentId);
    var before, after := FindNode(nodes, parentId).value, FindNode(result, parentId).value;
    assert SlotOk(rules, None, after, name);
    var children := ChildrenOf(before.slots, name);
    ChildrenSet(before.slots, name, Inserted(children, index, node), name);
    var filled := Inserted(children, index, node);
    assert filled[if index <= |children| then index else |children|] == node;
  }

  /**
   An addition of a fitting node is accepted exactly when there is such a collection and the
   composition with the node in it keeps every rule; whatever the index asked for.
   */
  lemma AddedExactly(rules: Rules, nodes: seq<Node>, node: Node, target: Target, index: nat)
    requires WellFormed(rules, nodes) && Regular(target.place) && Fits(rules, nodes, node)
    ensures var with := UpdatedChildren(nodes, target.place, Inserter(index, node));
      AddNode(nodes, node, target, rules).Done? <==> with.Some? && WellFormed(rules, with.value)
  {
    AddLaw(rules, nodes, node, target);
    CountNode(node, node.id);
    FindCounts(nodes, node.id);
    assert Count(nodes, node.id) + Count([node], node.id) <= 1;
    var place := target.place;
    if TargetError(nodes, node, place, rules, None).None? {
      AcceptedKeeps(rules, nodes, node, place, index);
      var at := Clamp(if target.index.Some? then target.index.value else |ChildrenAt(nodes, place).value|,
                      |ChildrenAt(nodes, place).value|);
      AcceptedKeeps(rules, nodes, node, place, at);
    } else {
      RefusedBreaks(rules, nodes, node, place, index);
    }
  }

  lemma AcceptedKeeps(rules: Rules, nodes: seq<Node>, node: Node, place: Place, index: nat)
    requires WellFormed(rules, nodes) && Regular(place) && Fits(rules, nodes, node)
    requires TargetError(nodes, node, place, rules, None).None?
    ensures var with := UpdatedChildren(nodes, place, Inserter(index, node));
      with.Some? && WellFormed(rules, with.value)
  {
    if place.parentId.Some? {
      FoundOk(rules, None, nodes, place.parentId.value);
      FindCounts(nodes, place.parentId.value);
      assert SlotOk(rules, None, FindNode(nodes, place.parentId.value).value, place.slotName.value);
    }
    Loosen(rules, Some(place), nodes);
    var result := InsertionOk(rules, nodes, place, index, node);
    RootInserted(rules, nodes, place, index, node);
  }

  lemma RootTakes(rules: Rules, nodes: seq<Node>, index: nat, node: Node)
    requires RootOk(rules, Inserted(nodes, index, node))
    ensures rules.rootMaximum.Some? ==> |nodes| < rules.rootMaximum.value
    ensures rules.rootAccepts.Some? ==> Accepts(rules.rootAccepts.value, node.component)
  {
    assert Inserted(nodes, index, node)[if index <= |nodes| then index else |nodes|] == node;
  }

  lemma RefusedBreaks(rules: Rules, nodes: seq<Node>, node: Node, place: Place, index: nat)
    requires WellFormed(rules, nodes) && Regular(place)
    requires TargetError(nodes, node, place, rules, None).Some?
    ensures var with := UpdatedChildren(nodes, place, Inserter(index, node));
      !(with.Some? && WellFormed(rules, with.value))
  {
    var with := UpdatedChildren(nodes, place, Inserter(index, node));
    if with.Some? && WellFormed(rules, with.value) {
      if place.parentId.None? {
        RootTakes(rules, nodes, index, node);
      } else {
        assert Count(nodes, place.parentId.value) <= 1;
        InsertedIsWelcome(rules, nodes, place.parentId.value, place.slotName.value, index, node);
      }
    }
  }

  // The rules themselves

  /** The manifest that counts for a component: the first with its id. */
  ghost predicate IsManifestOf(manifests: seq<Manifest>, component: string, i: int) {
    && 0 <= i < |manifests| && manifests[i].id == component
    && forall j :: 0 <= j < i ==> manifests[j].id != component
  }

  /** The definition that counts for a slot: the first with its name. */
  ghost predicate IsDefinitionOf(slots: seq<SlotDefinition>, name: string, k: int) {
    && 0 <= k < |slots| && slots[k].name == name
    && forall j :: 0 <= j < k ==> slots[j].name != name
  }

  ghost predicate Declared(rules: Rules, component: string, name: string, definition: SlotDefinition) {
    exists i, k ::
      && IsManifestOf(rules.manifests, component, i)
      && IsDefinitionOf(rules.manifests[i].slots, name, k) && rules.manifests[i].slots[k] == definition
  }

  lemma {:induction false} ManifestExactly(manifests: seq<Manifest>, component: string)
    ensures forall i :: IsManifestOf(manifests, component, i) ==> ManifestFor(manifests, component) == Some(manifests[i])
    ensures ManifestFor(manifests, component).Some? ==> exists i :: IsManifestOf(manifests, component, i)
    decreases |manifests|
  {
    if manifests != [] {
      ManifestExactly(manifests[1..], component);
      forall i | IsManifestOf(manifests, component, i) ensures ManifestFor(manifests, component) == Some(manifests[i]) {
        if i > 0 {
          assert manifests[0].id != component;
          assert IsManifestOf(manifests[1..], component, i - 1);
        }
      }
      if manifests[0].id == component {
        assert IsManifestOf(manifests, component, 0);
      } else if ManifestFor(manifests, component).Some? {
        var i :| IsManifestOf(manifests[1..], component, i);
        assert IsManifestOf(manifests, component, i + 1);
      }
    }
  }

  lemma {:induction false} DefinitionExactly(slots: seq<SlotDefinition>, name: string)
    ensures forall k :: IsDefinitionOf(slots, name, k) ==> DefinitionOf(slots, name) == Some(slots[k])
    ensures DefinitionOf(slots, name).Some? ==> exists k :: IsDefinitionOf(slots, name, k)
    decreases |slots|
  {
    if slots != [] {
      DefinitionExactly(slots[1..], name);
      forall k | IsDefinitionOf(slots, name, k) ensures DefinitionOf(slots, name) == Some(slots[k]) {
        if k > 0 {
          assert slots[0].name != name;
          assert IsDefinitionOf(slots[1..], name, k - 1);
        }
      }
      if slots[0].name == name {
        assert IsDefinitionOf(slots, name, 0);
      } else if DefinitionOf(slots, name).Some? {
        var k :| IsDefinitionOf(slots[1..], name, k);
        assert IsDefinitionOf(slots, name, k + 1);
      }
    }
  }

  lemma DeclaredExactly(rules: Rules, component: string, name: string, definition: SlotDefinition)
    ensures SlotDefinitionFor(rules, component, name) == Some(definition) <==> Declared(rules, component, name, definition)
  {
    ManifestExactly(rules.manifests, component);
    if SlotDefinitionFor(rules, component, name) == Some(definition) {
      var i :| IsManifestOf(rules.manifests, component, i);
      DefinitionExactly(rules.manifests[i].slots, name);
      var k :| IsDefinitionOf(rules.manifests[i].slots, name, k);
    }
    if Declared(rules, component, name, definition) {
      var i, k :| && IsManifestOf(rules.manifests, component, i)
                  && IsDefinitionOf(rules.manifests[i].slots, name, k) && rules.manifests[i].slots[k] == definition;
      DefinitionExactly(rules.manifests[i].slots, name);
    }
  }

  /** An empty list accepts everything. */
  ghost predicate Admits(accepted: seq<string>, component: string) {
    accepted == [] || exists i :: 0 <= i < |accepted| && accepted[i] == component
  }

  /** The collection's own rules for one more child. */
  ghost predicate Takes(rules: Rules, nodes: seq<Node>, place: Place, component: string) {
    if place.parentId.None? then
      && (rules.rootAccepts.Some? ==> Admits(rules.rootAccepts.value, component))
      && (rules.rootMaximum.Some? ==> |nodes| + 1 <= rules.rootMaximum.value)
    else
      && place.slotName.Some? && FindNode(nodes, place.parentId.value).Some?
      && var parent := FindNode(nodes, place.parentId.value).value;
      exists definition ::
        && Declared(rules, parent.component, place.slotName.value, definition)
        && Admits(definition.accepts, component)
        && (definition.max.Some? ==> |ChildrenOf(parent.slots, place.slotName.value)| + 1 <= definition.max.value)
  }

  lemma AdmitsExactly(accepted: seq<string>, component: string)
    ensures Accepts(accepted, component) <==> Admits(accepted, component)
  {
  }

  /** A new node is accepted exactly where the collection takes its component, one more than it has. */
  lemma TakenExactly(rules: Rules, nodes: seq<Node>, node: Node, target: Target)
    requires WellFormed(rules, nodes) && Regular(target.place) && Fits(rules, nodes, node)
    ensures AddNode(nodes, node, target, rules).Done? <==> Takes(rules, nodes, target.place, node.component)
  {
    AddLaw(rules, nodes, node, target);
    CountNode(node, node.id);
    FindCounts(nodes, node.id);
    assert Count(nodes, node.id) + Count([node], node.id) <= 1;
    NoErrorTakes(rules, nodes, node, target.place);
    if TargetError(nodes, node, target.place, rules, None).None? {
      AcceptedKeeps(rules, nodes, node, target.place, 0);
      if target.place.parentId.Some? { FindCounts(nodes, target.place.parentId.value); }
    }
  }

  lemma NoErrorTakes(rules: Rules, nodes: seq<Node>, node: Node, place: Place)
    requires Regular(place)
    ensures TargetError(nodes, node, place, rules, None).None? <==> Takes(rules, nodes, place, node.component)
  {
    if place.parentId.None? {
      if rules.rootAccepts.Some? { AdmitsExactly(rules.rootAccepts.value, node.component); }
    } else if place.slotName.Some? && FindNode(nodes, place.parentId.value).Some? {
      var parent, name := FindNode(nodes, place.parentId.value).value, place.slotName.value;
      forall definition
        ensures SlotDefinitionFor(rules, parent.component, name) == Some(definition)
           <==> Declared(rules, parent.component, name, definition)
        ensures Accepts(definition.accepts, node.component) <==> Admits(definition.accepts, node.component)
      {
        DeclaredExactly(rules, parent.component, name, definition);
        AdmitsExactly(definition.accepts, node.component);
      }
    }
  }

  // Removing

  /** A removal is accepted exactly when the node is there and the composition without it keeps every rule. */
  lemma {:induction false} RemovedExactly(rules: Rules, nodes: seq<Node>, id: string)
    requires WellFormed(rules, nodes)
    ensures RemoveNode(nodes, id, rules).Done? <==> Count(nodes, id) > 0 && WellFormed(rules, Prune(nodes, id))
  {
    LocateCounts(nodes, id, ROOT, 0);
    if Count(nodes, id) > 0 {
      assert Count(nodes, id) <= 1;
      if SourceError(nodes, LocateNode(nodes, id).value, None, rules).None? {
        RemoveDone(rules, nodes, id);
      } else {
        NeededHere(rules, nodes, id);
      }
    }
  }

  lemma {:induction false} NeededHere(rules: Rules, nodes: seq<Node>, id: string)
    requires WellFormed(rules, nodes) && Count(nodes, id) == 1 && LocateNode(nodes, id).Some?
    requires SourceError(nodes, LocateNode(nodes, id).value, None, rules).Some?
    ensures RemoveNode(nodes, id, rules).Failed? && !WellFormed(rules, Prune(nodes, id))
  {
    var source, siblings, rest, node := TakenOut(rules, nodes, id);
    if WellFormed(rules, rest) {
      if source.place.parentId.None? {
        RestRoot(rules, nodes, id);
      } else {
        SlotHasMinimum(rules, rest, source.place.parentId.value, source.place.slotName.value);
      }
    }
  }

  lemma {:induction false} SlotHasMinimum(rules: Rules, nodes: seq<Node>, parentId: string, name: string)
    requires TreeOk(rules, None, nodes) && FindNode(nodes, parentId).Some?
    ensures var parent := FindNode(nodes, parentId).value;
      var definition := SlotDefinitionFor(rules, parent.component, name);
      definition.Some? ==> definition.value.min <= |ChildrenOf(parent.slots, name)|
  {
    FoundOk(rules, None, nodes, parentId);
    assert SlotOk(rules, None, FindNode(nodes, parentId).value, name);
  }

  // Moving

  /** An id in use is refused whatever the target, and so is a move of a node below itself. */
  lemma {:induction false} RefusedAtOnce(rules: Rules, nodes: seq<Node>, node: Node, target: Target)
    requires Count(nodes, node.id) > 0
    ensures AddNode(nodes, node, target, rules) == Failed(NotUnique)
    ensures var inside := target.place.parentId.Some? && Count([node], target.place.parentId.value) > 0;
      FindNode(nodes, node.id) == Some(node) && inside ==>
        MoveNode(nodes, node.id, target, rules) == Failed(NestedInItself)
  {
    FindCounts(nodes, node.id);
    LocateCounts(nodes, node.id, ROOT, 0);
    if target.place.parentId.Some? { CountNode(node, target.place.parentId.value); }
  }

  /** A move within one collection is always accepted. */
  lemma MovedWithin(rules: Rules, nodes: seq<Node>, id: string, target: Target)
    requires WellFormed(rules, nodes) && Regular(target.place)
    requires LocateNode(nodes, id).Some? && LocateNode(nodes, id).value.place == target.place
    ensures MoveNode(nodes, id, target, rules).Done?
  {
    LocateCounts(nodes, id, ROOT, 0);
    assert Count(nodes, id) <= 1;
    FindCounts(nodes, id);
    var source, siblings, taken, node := TakenOut(rules, nodes, id);
    NoProblemWithin(rules, nodes, id, target, source, siblings, taken, node);
    var rest, result := MoveTogether(rules, nodes, id, target);
    MoveReaches(nodes, id, target, rules, rest, result);
  }

  lemma {:induction false} NoProblemWithin(rules: Rules, nodes: seq<Node>, id: string, target: Target, source: Location,
                                           siblings: seq<Node>, rest: seq<Node>, node: Node)
    requires WellFormed(rules, nodes) && source.place == target.place
    requires LocateNode(nodes, id) == Some(source) && FindNode(nodes, id) == Some(node)
    requires source.place.parentId.Some? ==> source.place.slotName.Some?
    requires ChildrenAt(nodes, source.place) == Some(siblings)
    requires source.index < |siblings| && siblings[source.index] == node
    requires Fits(rules, rest, node)
    requires source.place.parentId.Some? ==>
      && Count(rest, source.place.parentId.value) == 1
      && FindNode(nodes, source.place.parentId.value).Some?
    ensures MoveProblem(nodes, id, target, rules).None?
  {
    if target.place.parentId.Some? {
      var parentId, name := target.place.parentId.value, target.place.slotName.value;
      CountNode(node, parentId);
      assert Count(rest, parentId) + Count([node], parentId) <= 1;
      FoundOk(rules, None, nodes, parentId);
      assert SlotOk(rules, None, FindNode(nodes, parentId).value, name);
    }
  }

  /** Outside the moved subtree, the target takes a node the same before the node was taken out as after. */
  lemma {:induction false} TargetAgrees(rules: Rules, nodes: seq<Node>, node: Node, source: Location, place: Place,
                                        rest: seq<Node>)
    requires WellFormed(rules, nodes) && Count(nodes, node.id) == 1 && FindNode(nodes, node.id) == Some(node)
    requires LocateNode(nodes, node.id) == Some(source) && source.place != place && Regular(place)
    requires rest == Prune(nodes, node.id)
    requires place.parentId.Some? ==> Count([node], place.parentId.value) == 0
    requires forall other :: Count(nodes, other) == Count(rest, other) + Count([node], other)
    ensures TargetError(nodes, node, place, rules, Some(source)) == TargetError(rest, node, place, rules, None)
  {
    if place.parentId.Some? {
      var parentId := place.parentId.value;
      FindCounts(nodes, parentId);
      FindCounts(rest, parentId);
      assert Count(nodes, parentId) <= 1 && Count(nodes, parentId) == Count(rest, parentId);
    }
    if place.parentId.None? || (place.slotName.Some? && Count(nodes, place.parentId.value) == 1) {
      TargetKept(rules, nodes, node.id, place);
    }
  }

  /**
   A move into another collection is the removal of the node followed by its addition there: it is
   accepted exactly when both are, and leaves the same composition.
   */
  lemma {:induction false} MoveIsRemovalThenAddition(rules: Rules, nodes: seq<Node>, id: string, target: Target)
    requires WellFormed(rules, nodes) && Regular(target.place)
    requires LocateNode(nodes, id).Some? && LocateNode(nodes, id).value.place != target.place
    ensures FindNode(nodes, id).Some?
    ensures var move, removal := MoveNode(nodes, id, target, rules), RemoveNode(nodes, id, rules);
      if removal.Done? && AddNode(removal.nodes, FindNode(nodes, id).value, target, rules).Done?
      then move == AddNode(removal.nodes, FindNode(nodes, id).value, target, rules)
      else move.Failed?
  {
    LocateCounts(nodes, id, ROOT, 0);
    assert Count(nodes, id) <= 1;
    FindCounts(nodes, id);
    if SourceError(nodes, LocateNode(nodes, id).value, Some(target.place), rules).None? {
      MoveByParts(rules, nodes, id, target);
    }
  }

  lemma {:induction false} MoveByParts(rules: Rules, nodes: seq<Node>, id: string, target: Target)
    requires WellFormed(rules, nodes) && Regular(target.place)
    requires Count(nodes, id) == 1 && FindNode(nodes, id).Some?
    requires LocateNode(nodes, id).Some? && LocateNode(nodes, id).value.place != target.place
    requires SourceError(nodes, LocateNode(nodes, id).value, Some(target.place), rules).None?
    ensures var move, removal := MoveNode(nodes, id, target, rules), RemoveNode(nodes, id, rules);
      && removal.Done?
      && if AddNode(removal.nodes, FindNode(nodes, id).value, target, rules).Done?
         then move == AddNode(removal.nodes, FindNode(nodes, id).value, target, rules)
         else move.Failed?
  {
    var source, siblings, rest, node := SourceKept(rules, nodes, id, Some(target.place));
    var place := target.place;
    RemoveDone(rules, nodes, id);
    FindCounts(rest, id);
    PruneUnique(nodes, id);
    CountNode(node, id);
    if place.parentId.Some? {
      CountNode(node, place.parentId.value);
      FindCounts(rest, place.parentId.value);
      assert Count(rest, place.parentId.value) + Count([node], place.parentId.value) <= 1;
    }
    if place.parentId.None? || Count([node], place.parentId.value) == 0 {
      TargetAgrees(rules, nodes, node, source, place, rest);
    }
    SameParts(rules, nodes, node, source, rest, target);
  }

  /** The two ways put the same node into the same rest. */
  lemma {:induction false} SameParts(rules: Rules, nodes: seq<Node>, node: Node, source: Location, rest: seq<Node>,
                                     target: Target)
    requires FindNode(nodes, node.id) == Some(node) && LocateNode(nodes, node.id) == Some(source)
    requires source.place != target.place && SourceError(nodes, source, Some(target.place), rules).None?
    requires UpdatedChildren(nodes, source.place, Remover(node.id)) == Some(rest)
    requires FindNode(rest, node.id).None?
    requires var parentId := target.place.parentId;
      if parentId.Some? && ContainsNode(node, parentId.value) then FindNode(rest, parentId.value).None?
      else TargetError(nodes, node, target.place, rules, Some(source)) == TargetError(rest, node, target.place, rules, None)
    ensures var move, addition := MoveNode(nodes, node.id, target, rules), AddNode(rest, node, target, rules);
      if addition.Done? then move == addition else move.Failed?
  {
  }

  /** How a node moved into another collection stands among those that were there. */
  ghost predicate Across(before: seq<Node>, requested: Option<int>, node: Node, after: seq<Node>, index: nat) {
    && |after| == |before| + 1 && index <= |before| && after[index] == node
    && SameKinds(after[..index] + after[index + 1..], before)
    && (requested.None? ==> index == |before|)
    && (requested.Some? ==>
          var k := requested.value;
          && (k <= 0 ==> index == 0)
          && (k >= |before| ==> index == |before|)
          && (0 <= k < |before| ==> after[k] == node && after[k + 1].id == before[k].id))
  }

  /**
   Moving into another collection: the children that were there keep their order, and the node, with
   its whole subtree, stands just before the child that was at the requested index, last when the
   index is beyond them or none is asked for, and first when it is not positive.
   */
  lemma MoveAcrossLaw(rules: Rules, nodes: seq<Node>, id: string, target: Target) returns (result: seq<Node>, index: nat)
    requires WellFormed(rules, nodes) && Regular(target.place)
    requires LocateNode(nodes, id).Some? && LocateNode(nodes, id).value.place != target.place
    requires MoveNode(nodes, id, target, rules).Done?
    ensures MoveNode(nodes, id, target, rules) == Done(result)
    ensures LocateNode(result, id) == Some(Location(target.place, index))
    ensures ChildrenAt(nodes, target.place).Some? && ChildrenAt(result, target.place).Some? && FindNode(nodes, id).Some?
    ensures Across(ChildrenAt(nodes, target.place).value, target.index, FindNode(nodes, id).value,
                   ChildrenAt(result, target.place).value, index)
  {
    LocateCounts(nodes, id, ROOT, 0);
    var rest := MoveLaw(rules, nodes, id, target);
    result := MoveNode(nodes, id, target, rules).nodes;
    var destination := ChildrenAt(rest, target.place).value;
    index := MoveIndex(LocateNode(nodes, id).value, target, |destination|);
    Arrives(ChildrenAt(nodes, target.place).value, destination, LocateNode(nodes, id).value, target,
            FindNode(nodes, id).value, index);
  }

  lemma Arrives(before: seq<Node>, destination: seq<Node>, source: Location, target: Target, node: Node, index: nat)
    requires SameKinds(destination, before) && source.place != target.place
    requires index == MoveIndex(source, target, |destination|) <= |destination|
    ensures Across(before, target.index, node, Inserted(destination, index, node), index)
  {
    var after := Inserted(destination, index, node);
    assert after[..index] + after[index + 1..] == destination;
  }
}
