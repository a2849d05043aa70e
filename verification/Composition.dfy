/**
 A composition: a forest of component nodes with named slots, and the functions that search it
 and edit it. A node without slots and one with an empty record of slots are the same here.
 */
module Composition {
  import opened Wrappers

  datatype Node = Node(id: string, component: string, payload: string, slots: seq<Slot>)
  datatype Slot = Slot(name: string, children: seq<Node>)

  /** A collection of siblings: the root, or one slot of one parent. */
  datatype Place = Place(parentId: Option<string>, slotName: Option<string>)
  datatype Location = Location(place: Place, index: nat)
  datatype Target = Target(place: Place, index: Option<int>)

  const ROOT := Place(None, None)

  function In(parentId: string, slotName: string): Place {
    Place(Some(parentId), Some(slotName))
  }

  // Searching

  function FindNode(nodes: seq<Node>, id: string): (found: Option<Node>)
    decreases nodes
  {
    if nodes == [] then None
    else if nodes[0].id == id then Some(nodes[0])
    else
      var below := FindInSlots(nodes[0].slots, id);
      if below.Some? then below else FindNode(nodes[1..], id)
  }

  function FindInSlots(slots: seq<Slot>, id: string): Option<Node>
    decreases slots
  {
    if slots == [] then None
    else
      var found := FindNode(slots[0].children, id);
      if found.Some? then found else FindInSlots(slots[1..], id)
  }

  function LocateFrom(nodes: seq<Node>, id: string, place: Place, index: nat): Option<Location>
    decreases nodes
  {
    if nodes == [] then None
    else if nodes[0].id == id then Some(Location(place, index))
    else
      var below := LocateInSlots(nodes[0].slots, id, nodes[0].id);
      if below.Some? then below else LocateFrom(nodes[1..], id, place, index + 1)
  }

  function LocateInSlots(slots: seq<Slot>, id: string, parentId: string): Option<Location>
    decreases slots
  {
    if slots == [] then None
    else
      var found := LocateFrom(slots[0].children, id, In(parentId, slots[0].name), 0);
      if found.Some? then found else LocateInSlots(slots[1..], id, parentId)
  }

  function LocateNode(nodes: seq<Node>, id: string): Option<Location> {
    LocateFrom(nodes, id, ROOT, 0)
  }

  /** How many nodes carry an id. */
  function Count(nodes: seq<Node>, id: string): nat
    decreases nodes
  {
    if nodes == [] then 0
    else (if nodes[0].id == id then 1 else 0) + CountSlots(nodes[0].slots, id) + Count(nodes[1..], id)
  }

  function CountSlots(slots: seq<Slot>, id: string): nat
    decreases slots
  {
    if slots == [] then 0 else Count(slots[0].children, id) + CountSlots(slots[1..], id)
  }

  ghost predicate Unique(nodes: seq<Node>) {
    forall id :: Count(nodes, id) <= 1
  }

  function ContainsNode(node: Node, id: string): bool {
    node.id == id || CountSlots(node.slots, id) > 0
  }

  function ChildrenOf(slots: seq<Slot>, name: string): seq<Node> {
    if slots == [] then []
    else if slots[0].name == name then slots[0].children
    else ChildrenOf(slots[1..], name)
  }

  function ChildrenAt(nodes: seq<Node>, place: Place): Option<seq<Node>> {
    if place.parentId.None? then Some(nodes)
    else if place.slotName.None? then None
    else
      var parent := FindNode(nodes, place.parentId.value);
      Some(if parent.Some? then ChildrenOf(parent.value.slots, place.slotName.value) else [])
  }

  // Updating

  type Updater = seq<Node> -> seq<Node>

  function SetSlot(slots: seq<Slot>, name: string, children: seq<Node>): seq<Slot> {
    if slots == [] then [Slot(name, children)]
    else if slots[0].name == name then [Slot(name, children)] + slots[1..]
    else [slots[0]] + SetSlot(slots[1..], name, children)
  }

  function Update(nodes: seq<Node>, parentId: string, name: string, updater: Updater): (updated: seq<Node>)
    ensures |updated| == |nodes|
    decreases nodes
  {
    if nodes == [] then []
    else
      var node := nodes[0];
      var slots := if node.id == parentId
                   then SetSlot(node.slots, name, updater(ChildrenOf(node.slots, name)))
                   else UpdateSlots(node.slots, parentId, name, updater);
      [node.(slots := slots)] + Update(nodes[1..], parentId, name, updater)
  }

  function UpdateSlots(slots: seq<Slot>, parentId: string, name: string, updater: Updater): seq<Slot>
    decreases slots
  {
    if slots == [] then []
    else [slots[0].(children := Update(slots[0].children, parentId, name, updater))]
         + UpdateSlots(slots[1..], parentId, name, updater)
  }

  /** `None` when the target names no node or no slot. */
  function UpdatedChildren(nodes: seq<Node>, place: Place, updater: Updater): Option<seq<Node>> {
    if place.parentId.None? then Some(updater(nodes))
    else if place.slotName.None? then None
    else if Count(nodes, place.parentId.value) == 0 then None
    else Some(Update(nodes, place.parentId.value, place.slotName.value, updater))
  }

  function Without(nodes: seq<Node>, id: string): (kept: seq<Node>)
    ensures |kept| <= |nodes|
  {
    if nodes == [] then []
    else if nodes[0].id == id then Without(nodes[1..], id)
    else [nodes[0]] + Without(nodes[1..], id)
  }

  function Inserted(nodes: seq<Node>, index: nat, node: Node): seq<Node> {
    if index <= |nodes| then nodes[..index] + [node] + nodes[index..] else nodes + [node]
  }

  function Remover(id: string): Updater {
    children => Without(children, id)
  }

  function Inserter(index: nat, node: Node): Updater {
    children => Inserted(children, index, node)
  }

  // Rules

  datatype SlotDefinition = SlotDefinition(name: string, accepts: seq<string>, min: nat, max: Option<nat>)
  datatype Manifest = Manifest(id: string, slots: seq<SlotDefinition>)
  datatype Rules = Rules(
    manifests: seq<Manifest>, rootAccepts: Option<seq<string>>, rootMinimum: Option<nat>, rootMaximum: Option<nat>)

  function ManifestFor(manifests: seq<Manifest>, component: string): Option<Manifest> {
    if manifests == [] then None
    else if manifests[0].id == component then Some(manifests[0])
    else ManifestFor(manifests[1..], component)
  }

  function DefinitionOf(slots: seq<SlotDefinition>, name: string): Option<SlotDefinition> {
    if slots == [] then None
    else if slots[0].name == name then Some(slots[0])
    else DefinitionOf(slots[1..], name)
  }

  function SlotDefinitionFor(rules: Rules, component: string, name: string): Option<SlotDefinition> {
    var manifest := ManifestFor(rules.manifests, component);
    if manifest.Some? then DefinitionOf(manifest.value.slots, name) else None
  }

  function SlotFor(nodes: seq<Node>, place: Place, rules: Rules): Option<SlotDefinition> {
    if place.parentId.None? || place.slotName.None? then None
    else
      var parent := FindNode(nodes, place.parentId.value);
      if parent.Some? then SlotDefinitionFor(rules, parent.value.component, place.slotName.value) else None
  }

  predicate Accepts(accepted: seq<string>, component: string) {
    |accepted| > 0 ==> component in accepted
  }

  datatype Problem =
    | NotUnique | NotFound | NestedInItself | NoTarget | RootRefuses | RootFull | SlotUndeclared
    | SlotRefuses | SlotFull | RootMinimum | SlotMinimum | TargetMissing | SourceMissing

  function TargetError(nodes: seq<Node>, node: Node, place: Place, rules: Rules,
                       movingFrom: Option<Location>): Option<Problem> {
    var children := ChildrenAt(nodes, place);
    if children.None? then Some(NoTarget)
    else
      var retained := if movingFrom.Some? && movingFrom.value.place == place then |children.value| - 1 else |children.value|;
      if place.parentId.None? then
        if rules.rootAccepts.Some? && !Accepts(rules.rootAccepts.value, node.component) then Some(RootRefuses)
        else if rules.rootMaximum.Some? && retained >= rules.rootMaximum.value then Some(RootFull)
        else None
      else
        var slot := SlotFor(nodes, place, rules);
        if slot.None? then Some(SlotUndeclared)
        else if !Accepts(slot.value.accepts, node.component) then Some(SlotRefuses)
        else if slot.value.max.Some? && retained >= slot.value.max.value then Some(SlotFull)
        else None
  }

  function SourceError(nodes: seq<Node>, location: Location, target: Option<Place>, rules: Rules): Option<Problem> {
    if target == Some(location.place) then None
    else
      var children := ChildrenAt(nodes, location.place);
      if children.None? then Some(SourceMissing)
      else if location.place.parentId.None? then
        if |children.value| <= (if rules.rootMinimum.Some? then rules.rootMinimum.value else 0)
        then Some(RootMinimum) else None
      else
        var slot := SlotFor(nodes, location.place, rules);
        if slot.Some? && |children.value| <= slot.value.min then Some(SlotMinimum) else None
  }

  datatype Edit = Done(nodes: seq<Node>) | Failed(problem: Problem)

  function Clamp(index: int, count: nat): nat {
    if index < 0 then 0 else if index > count then count else index
  }

  function AddNode(nodes: seq<Node>, node: Node, target: Target, rules: Rules): Edit {
    if FindNode(nodes, node.id).Some? then Failed(NotUnique)
    else
      var error := TargetError(nodes, node, target.place, rules, None);
      if error.Some? then Failed(error.value)
      else
        var children := ChildrenAt(nodes, target.place).value;
        var index := Clamp(if target.index.Some? then target.index.value else |children|, |children|);
        var updated := UpdatedChildren(nodes, target.place, Inserter(index, node));
        if updated.Some? then Done(updated.value) else Failed(TargetMissing)
  }

  function RemoveNode(nodes: seq<Node>, id: string, rules: Rules): Edit {
    var location := LocateNode(nodes, id);
    if location.None? then Failed(NotFound)
    else
      var error := SourceError(nodes, location.value, None, rules);
      if error.Some? then Failed(error.value)
      else
        var updated := UpdatedChildren(nodes, location.value.place, Remover(id));
        if updated.Some? then Done(updated.value) else Failed(SourceMissing)
  }

  /** Where in the collection without the node it goes. */
  function MoveIndex(source: Location, target: Target, count: nat): nat {
    var together := source.place == target.place;
    var requested := if target.index.Some? then target.index.value else if together then count + 1 else count;
    var adjusted := if together && source.index < requested then requested - 1 else requested;
    Clamp(adjusted, count)
  }

  function MoveNode(nodes: seq<Node>, id: string, target: Target, rules: Rules): Edit {
    var node := FindNode(nodes, id);
    var source := LocateNode(nodes, id);
    if node.None? || source.None? then Failed(NotFound)
    else if target.place.parentId.Some? && ContainsNode(node.value, target.place.parentId.value) then Failed(NestedInItself)
    else
      var sourceProblem := SourceError(nodes, source.value, Some(target.place), rules);
      if sourceProblem.Some? then Failed(sourceProblem.value)
      else
        var targetProblem := TargetError(nodes, node.value, target.place, rules, source);
        if targetProblem.Some? then Failed(targetProblem.value)
        else
          var removed := UpdatedChildren(nodes, source.value.place, Remover(id));
          if removed.None? then Failed(SourceMissing)
          else
            var destination := ChildrenAt(removed.value, target.place);
            if destination.None? then Failed(TargetMissing)
            else
              var index := MoveIndex(source.value, target, |destination.value|);
              if source.value.place == target.place && index == source.value.index then Done(nodes)
              else
                var updated := UpdatedChildren(removed.value, target.place, Inserter(index, node.value));
                if updated.Some? then Done(updated.value) else Failed(TargetMissing)
  }
}
