/** The two traversals with mutable state: `updateChildren` and its flag, `flattenLayers` and its list. */
module CompositionLayers {
  import opened Wrappers
  import opened Composition
  import opened CompositionLaws

  // updateChildren

  lemma {:induction false} UpdateConcat(a: seq<Node>, b: seq<Node>, parentId: string, name: string, updater: Updater)
    ensures Update(a + b, parentId, name, updater) == Update(a, parentId, name, updater) + Update(b, parentId, name, updater)
    decreases |a|
  {
    if a == [] {
      assert a + b == b;
    } else {
      assert (a + b)[0] == a[0] && (a + b)[1..] == a[1..] + b;
      UpdateConcat(a[1..], b, parentId, name, updater);
    }
  }

  lemma {:induction false} UpdateSlotsConcat(a: seq<Slot>, b: seq<Slot>, parentId: string, name: string, updater: Updater)
    ensures UpdateSlots(a + b, parentId, name, updater)
      == UpdateSlots(a, parentId, name, updater) + UpdateSlots(b, parentId, name, updater)
    ensures CountSlots(a + b, parentId) == CountSlots(a, parentId) + CountSlots(b, parentId)
    decreases |a|
  {
    if a == [] {
      assert a + b == b;
    } else {
      assert (a + b)[0] == a[0] && (a + b)[1..] == a[1..] + b;
      UpdateSlotsConcat(a[1..], b, parentId, name, updater);
    }
  }

  lemma {:induction false} UpdatedPrefix(nodes: seq<Node>, i: nat, parentId: string, name: string, updater: Updater)
    requires i < |nodes|
    ensures Update(nodes[..i + 1], parentId, name, updater)
         == Update(nodes[..i], parentId, name, updater) + Update([nodes[i]], parentId, name, updater)
    ensures Count(nodes[..i + 1], parentId) == Count(nodes[..i], parentId) + Count([nodes[i]], parentId)
  {
    assert nodes[..i + 1] == nodes[..i] + [nodes[i]];
    UpdateConcat(nodes[..i], [nodes[i]], parentId, name, updater);
    CountConcat(nodes[..i], [nodes[i]], parentId);
  }

  lemma {:induction false} UpdatedSlotPrefix(slots: seq<Slot>, j: nat, parentId: string, name: string, updater: Updater)
    requires j < |slots|
    ensures UpdateSlots(slots[..j + 1], parentId, name, updater)
         == UpdateSlots(slots[..j], parentId, name, updater)
            + [Slot(slots[j].name, Update(slots[j].children, parentId, name, updater))]
    ensures CountSlots(slots[..j + 1], parentId) == CountSlots(slots[..j], parentId) + Count(slots[j].children, parentId)
  {
    assert slots[..j + 1] == slots[..j] + [slots[j]];
    assert [slots[j]][1..] == [];
    UpdateSlotsConcat(slots[..j], [slots[j]], parentId, name, updater);
  }

  /** The flag is shared by all siblings: it is set for good once a target was seen, and decides the result. */
  method UpdateChildren(nodes: seq<Node>, place: Place, updater: Updater) returns (updated: Option<seq<Node>>)
    ensures updated == UpdatedChildren(nodes, place, updater)
    decreases nodes
  {
    if place.parentId.None? { return Some(updater(nodes)); }
    if place.slotName.None? { return None; }
    var parentId, name := place.parentId.value, place.slotName.value;
    var found, next := false, [];
    for i := 0 to |nodes|
      invariant next == Update(nodes[..i], parentId, name, updater)
      invariant found == (Count(nodes[..i], parentId) > 0)
    {
      var node := nodes[i];
      UpdatedPrefix(nodes, i, parentId, name, updater);
      UpdatedOne(node, parentId, name, updater);
      if node.id == parentId {
        found := true;
        next := next + [node.(slots := SetSlot(node.slots, name, updater(ChildrenOf(node.slots, name))))];
      } else {
        var slots, inside := UpdateEntries(node.slots, place, updater);
        if inside { found := true; }
        next := next + [if found then node.(slots := slots) else node];
      }
    }
    assert nodes[..|nodes|] == nodes;
    updated := if found then Some(next) else None;
  }

  lemma {:induction false} UpdatedOne(node: Node, parentId: string, name: string, updater: Updater)
    ensures Count([node], parentId) == (if node.id == parentId then 1 else 0) + CountSlots(node.slots, parentId)
    ensures node.id == parentId ==>
      Update([node], parentId, name, updater)
        == [node.(slots := SetSlot(node.slots, name, updater(ChildrenOf(node.slots, name))))]
    ensures node.id != parentId ==>
      Update([node], parentId, name, updater) == [node.(slots := UpdateSlots(node.slots, parentId, name, updater))]
    ensures CountSlots(node.slots, parentId) == 0 ==> UpdateSlots(node.slots, parentId, name, updater) == node.slots
  {
    CountNode(node, parentId);
    assert [node][1..] == [];
    if CountSlots(node.slots, parentId) == 0 { UpdateAbsentSlots(node.slots, parentId, name, updater); }
  }

  /** The slots of one node, each updated where the target is below it and kept where it is not. */
  method UpdateEntries(slots: seq<Slot>, place: Place, updater: Updater) returns (updated: seq<Slot>, found: bool)
    requires place.parentId.Some? && place.slotName.Some?
    ensures updated == UpdateSlots(slots, place.parentId.value, place.slotName.value, updater)
    ensures found == (CountSlots(slots, place.parentId.value) > 0)
    decreases slots
  {
    var parentId, name := place.parentId.value, place.slotName.value;
    updated, found := [], false;
    for j := 0 to |slots|
      invariant updated == UpdateSlots(slots[..j], parentId, name, updater)
      invariant found == (CountSlots(slots[..j], parentId) > 0)
    {
      var children := slots[j].children;
      UpdatedSlotPrefix(slots, j, parentId, name, updater);
      var inner := UpdateChildren(children, place, updater);
      if inner.Some? {
        found := true;
      } else {
        UpdateAbsent(children, parentId, name, updater);
      }
      updated := updated + [Slot(slots[j].name, if inner.Some? then inner.value else children)];
    }
    assert slots[..|slots|] == slots;
  }

  // flattenLayers

  datatype Layer = Layer(node: Node, location: Location, depth: nat)

  function Layers(nodes: seq<Node>, place: Place, index: nat, depth: nat): seq<Layer>
    decreases nodes
  {
    if nodes == [] then []
    else [Layer(nodes[0], Location(place, index), depth)]
         + SlotLayers(nodes[0].slots, nodes[0].id, depth + 1)
         + Layers(nodes[1..], place, index + 1, depth)
  }

  function SlotLayers(slots: seq<Slot>, owner: string, depth: nat): seq<Layer>
    decreases slots
  {
    if slots == [] then []
    else Layers(slots[0].children, In(owner, slots[0].name), 0, depth) + SlotLayers(slots[1..], owner, depth)
  }

  function Relocated(layer: Layer, depth: nat, place: Place): Layer {
    if layer.depth == depth then layer.(location := Location(place, layer.location.index)) else layer
  }

  function AllRelocated(layers: seq<Layer>, depth: nat, place: Place): (moved: seq<Layer>)
    ensures |moved| == |layers|
    ensures forall i :: 0 <= i < |layers| ==> moved[i] == Relocated(layers[i], depth, place)
  {
    seq(|layers|, i requires 0 <= i < |layers| => Relocated(layers[i], depth, place))
  }

  lemma {:induction false} LayersConcat(a: seq<Node>, b: seq<Node>, place: Place, index: nat, depth: nat)
    ensures Layers(a + b, place, index, depth) == Layers(a, place, index, depth) + Layers(b, place, index + |a|, depth)
    decreases |a|
  {
    if a == [] {
      assert a + b == b;
    } else {
      assert (a + b)[0] == a[0] && (a + b)[1..] == a[1..] + b;
      LayersConcat(a[1..], b, place, index + 1, depth);
      var head := [Layer(a[0], Location(place, index), depth)] + SlotLayers(a[0].slots, a[0].id, depth + 1);
      Regroup(head, Layers(a[1..], place, index + 1, depth), [], Layers(b, place, index + |a|, depth), []);
    }
  }

  lemma {:induction false} SlotLayersConcat(a: seq<Slot>, b: seq<Slot>, owner: string, depth: nat)
    ensures SlotLayers(a + b, owner, depth) == SlotLayers(a, owner, depth) + SlotLayers(b, owner, depth)
    decreases |a|
  {
    if a == [] {
      assert a + b == b;
    } else {
      assert (a + b)[0] == a[0] && (a + b)[1..] == a[1..] + b;
      SlotLayersConcat(a[1..], b, owner, depth);
      Regroup(Layers(a[0].children, In(owner, a[0].name), 0, depth), SlotLayers(a[1..], owner, depth), [],
              SlotLayers(b, owner, depth), []);
    }
  }

  /** Layers below the first level lie deeper, so relocating one level leaves them alone. */
  lemma {:induction false} LayersDeep(nodes: seq<Node>, place: Place, index: nat, depth: nat, other: Place)
    ensures forall i :: 0 <= i < |Layers(nodes, place, index, depth)| ==> Layers(nodes, place, index, depth)[i].depth >= depth
    ensures AllRelocated(Layers(nodes, place, index, depth), depth, other) == Layers(nodes, other, index, depth)
    decreases nodes
  {
    if nodes != [] {
      SlotLayersDeep(nodes[0].slots, nodes[0].id, depth + 1);
      LayersDeep(nodes[1..], place, index + 1, depth, other);
      var below, rest := SlotLayers(nodes[0].slots, nodes[0].id, depth + 1), Layers(nodes[1..], place, index + 1, depth);
      assert AllRelocated(below, depth, other) == below;
      RelocatedParts(Layer(nodes[0], Location(place, index), depth), below, rest, depth, other);
    }
  }

  lemma RelocatedParts(head: Layer, below: seq<Layer>, rest: seq<Layer>, depth: nat, place: Place)
    ensures AllRelocated([head] + below + rest, depth, place)
         == [Relocated(head, depth, place)] + AllRelocated(below, depth, place) + AllRelocated(rest, depth, place)
  {
  }

  lemma {:induction false} SlotLayersDeep(slots: seq<Slot>, owner: string, depth: nat)
    ensures forall i :: 0 <= i < |SlotLayers(slots, owner, depth)| ==> SlotLayers(slots, owner, depth)[i].depth >= depth
    decreases slots
  {
    if slots != [] {
      LayersDeep(slots[0].children, In(owner, slots[0].name), 0, depth, ROOT);
      SlotLayersDeep(slots[1..], owner, depth);
    }
  }

  lemma RelocatedPrefix(layers: seq<Layer>, k: nat, depth: nat, place: Place)
    requires k < |layers|
    ensures AllRelocated(layers[..k + 1], depth, place)
         == AllRelocated(layers[..k], depth, place) + [Relocated(layers[k], depth, place)]
  {
  }

  method FlattenLayers(nodes: seq<Node>, depth: nat) returns (layers: seq<Layer>)
    ensures layers == Layers(nodes, ROOT, 0, depth)
    decreases nodes
  {
    layers := [];
    for index := 0 to |nodes|
      invariant layers == Layers(nodes[..index], ROOT, 0, depth)
    {
      var node := nodes[index];
      ghost var before := layers + [Layer(node, Location(ROOT, index), depth)];
      layers := layers + [Layer(node, Location(ROOT, index), depth)];
      for j := 0 to |node.slots|
        invariant layers == before + SlotLayers(node.slots[..j], node.id, depth + 1)
      {
        var inner := FlattenLayers(node.slots[j].children, depth + 1);
        var place := In(node.id, node.slots[j].name);
        ghost var outer := layers;
        for k := 0 to |inner|
          invariant layers == outer + AllRelocated(inner[..k], depth + 1, place)
        {
          RelocatedPrefix(inner, k, depth + 1, place);
          layers := layers + [Relocated(inner[k], depth + 1, place)];
        }
        assert inner[..|inner|] == inner;
        SlotPrefix(node.slots, j, node.id, depth + 1);
        Regroup(before, SlotLayers(node.slots[..j], node.id, depth + 1), [], AllRelocated(inner, depth + 1, place), []);
      }
      assert node.slots[..|node.slots|] == node.slots;
      LayerPrefix(nodes, index, depth);
    }
    assert nodes[..|nodes|] == nodes;
  }

  lemma {:induction false} LayerPrefix(nodes: seq<Node>, index: nat, depth: nat)
    requires index < |nodes|
    ensures Layers(nodes[..index + 1], ROOT, 0, depth)
         == Layers(nodes[..index], ROOT, 0, depth) + [Layer(nodes[index], Location(ROOT, index), depth)]
            + SlotLayers(nodes[index].slots, nodes[index].id, depth + 1)
  {
    assert nodes[..index + 1] == nodes[..index] + [nodes[index]];
    assert [nodes[index]][1..] == [];
    LayersConcat(nodes[..index], [nodes[index]], ROOT, 0, depth);
  }

  lemma {:induction false} SlotPrefix(slots: seq<Slot>, j: nat, owner: string, depth: nat)
    requires j < |slots|
    ensures SlotLayers(slots[..j + 1], owner, depth)
         == SlotLayers(slots[..j], owner, depth)
            + AllRelocated(Layers(slots[j].children, ROOT, 0, depth), depth, In(owner, slots[j].name))
  {
    LayersDeep(slots[j].children, ROOT, 0, depth, In(owner, slots[j].name));
    assert slots[..j + 1] == slots[..j] + [slots[j]];
    assert [slots[j]][1..] == [];
    SlotLayersConcat(slots[..j], [slots[j]], owner, depth);
  }

  // What the list of layers says

  function Listed(layers: seq<Layer>): seq<Entry> {
    seq(|layers|, i requires 0 <= i < |layers| =>
      Entry(layers[i].node.id, layers[i].node.component, layers[i].node.payload, layers[i].location.place))
  }

  lemma ListedConcat(a: seq<Layer>, b: seq<Layer>)
    ensures Listed(a + b) == Listed(a) + Listed(b)
  {
  }

  /** Every node once, in pre-order, with its collection. */
  lemma {:induction false} LayersListAll(nodes: seq<Node>, place: Place, index: nat, depth: nat)
    ensures Listed(Layers(nodes, place, index, depth)) == Entries(nodes, place)
    decreases nodes
  {
    if nodes != [] {
      SlotLayersListAll(nodes[0].slots, nodes[0].id, depth + 1);
      LayersListAll(nodes[1..], place, index + 1, depth);
      var head := [Layer(nodes[0], Location(place, index), depth)];
      var below, rest := SlotLayers(nodes[0].slots, nodes[0].id, depth + 1), Layers(nodes[1..], place, index + 1, depth);
      ListedConcat(head + below, rest);
      ListedConcat(head, below);
      assert Listed(head) == [Entry(nodes[0].id, nodes[0].component, nodes[0].payload, place)];
    }
  }

  lemma {:induction false} SlotLayersListAll(slots: seq<Slot>, owner: string, depth: nat)
    ensures Listed(SlotLayers(slots, owner, depth)) == SlotEntries(slots, owner)
    decreases slots
  {
    if slots != [] {
      LayersListAll(slots[0].children, In(owner, slots[0].name), 0, depth);
      SlotLayersListAll(slots[1..], owner, depth);
      ListedConcat(Layers(slots[0].children, In(owner, slots[0].name), 0, depth), SlotLayers(slots[1..], owner, depth));
    }
  }

  /** A layer stands where its node is: at its index among the roots, or in a slot of a parent one level up. */
  ghost predicate Placed(layers: seq<Layer>, i: nat, nodes: seq<Node>, place: Place, index: nat, depth: nat)
    requires i < |layers|
  {
    var layer := layers[i];
    || (layer.location.place == place && layer.depth == depth
        && 0 <= layer.location.index - index < |nodes| && nodes[layer.location.index - index] == layer.node)
    || exists j :: 0 <= j < i && ChildOf(layers[j], layer)
  }

  ghost predicate ChildOf(parent: Layer, child: Layer) {
    && child.depth == parent.depth + 1
    && exists k :: 0 <= k < |parent.node.slots| && InSlot(parent.node.id, parent.node.slots[k], child)
  }

  ghost predicate InSlot(owner: string, slot: Slot, child: Layer) {
    && child.location.place == In(owner, slot.name)
    && child.location.index < |slot.children| && slot.children[child.location.index] == child.node
  }

  lemma {:induction false} TrueDepth(nodes: seq<Node>, place: Place, index: nat, depth: nat, i: nat)
    requires i < |Layers(nodes, place, index, depth)|
    ensures Placed(Layers(nodes, place, index, depth), i, nodes, place, index, depth)
    decreases nodes
  {
    var layers := Layers(nodes, place, index, depth);
    var head, rest := nodes[0], nodes[1..];
    var below, after := SlotLayers(head.slots, head.id, depth + 1), Layers(rest, place, index + 1, depth);
    if 0 < i <= |below| {
      TrueSlotDepth(head.slots, head.id, depth + 1, i - 1);
      assert layers[i] == below[i - 1];
      if k :| 0 <= k < |head.slots| && InSlot(head.id, head.slots[k], below[i - 1]) && layers[i].depth == depth + 1 {
        assert ChildOf(layers[0], layers[i]);
      } else {
        var j :| 0 <= j < i - 1 && ChildOf(below[j], below[i - 1]);
        assert layers[j + 1] == below[j];
      }
    } else if i > |below| {
      var m := i - 1 - |below|;
      TrueDepth(rest, place, index + 1, depth, m);
      assert layers[i] == after[m];
      if j :| 0 <= j < m && ChildOf(after[j], after[m]) {
        assert layers[j + 1 + |below|] == after[j];
      }
    }
  }

  lemma {:induction false} TrueSlotDepth(slots: seq<Slot>, owner: string, depth: nat, i: nat)
    requires i < |SlotLayers(slots, owner, depth)|
    ensures var layers := SlotLayers(slots, owner, depth);
      || (layers[i].depth == depth && exists k :: 0 <= k < |slots| && InSlot(owner, slots[k], layers[i]))
      || exists j :: 0 <= j < i && ChildOf(layers[j], layers[i])
    decreases slots
  {
    var layers := SlotLayers(slots, owner, depth);
    var first, rest := Layers(slots[0].children, In(owner, slots[0].name), 0, depth), SlotLayers(slots[1..], owner, depth);
    if i < |first| {
      TrueDepth(slots[0].children, In(owner, slots[0].name), 0, depth, i);
      assert layers[i] == first[i];
      if j :| 0 <= j < i && ChildOf(first[j], first[i]) {
        assert layers[j] == first[j];
      } else {
        assert InSlot(owner, slots[0], layers[i]);
      }
    } else {
      var m := i - |first|;
      TrueSlotDepth(slots[1..], owner, depth, m);
      assert layers[i] == rest[m];
      if j :| 0 <= j < m && ChildOf(rest[j], rest[m]) {
        assert layers[j + |first|] == rest[j];
      } else {
        var k :| 0 <= k < |slots| - 1 && InSlot(owner, slots[1..][k], rest[m]);
        assert InSlot(owner, slots[k + 1], layers[i]);
      }
    }
  }

  // The two traversals agree

  lemma {:induction false} LayerCounts(nodes: seq<Node>, place: Place, index: nat, depth: nat, layer: Layer)
    requires layer in Layers(nodes, place, index, depth)
    ensures Count(nodes, layer.node.id) > 0
    decreases nodes
  {
    if layer in SlotLayers(nodes[0].slots, nodes[0].id, depth + 1) {
      LayerCountsInSlots(nodes[0].slots, nodes[0].id, depth + 1, layer);
    } else if layer in Layers(nodes[1..], place, index + 1, depth) {
      LayerCounts(nodes[1..], place, index + 1, depth, layer);
    }
  }

  lemma {:induction false} LayerCountsInSlots(slots: seq<Slot>, owner: string, depth: nat, layer: Layer)
    requires layer in SlotLayers(slots, owner, depth)
    ensures CountSlots(slots, layer.node.id) > 0
    decreases slots
  {
    if layer in Layers(slots[0].children, In(owner, slots[0].name), 0, depth) {
      LayerCounts(slots[0].children, In(owner, slots[0].name), 0, depth, layer);
    } else {
      LayerCountsInSlots(slots[1..], owner, depth, layer);
    }
  }

  /** On unique ids, a layer's location is what the search by id returns. */
  lemma {:induction false} LayersAreLocated(nodes: seq<Node>, place: Place, index: nat, depth: nat, layer: Layer)
    requires Unique(nodes) && layer in Layers(nodes, place, index, depth)
    ensures LocateFrom(nodes, layer.node.id, place, index) == Some(layer.location)
    ensures FindNode(nodes, layer.node.id) == Some(layer.node)
    decreases nodes
  {
    var head, rest, id := nodes[0], nodes[1..], layer.node.id;
    UniqueParts(nodes);
    assert Count(nodes, id) <= 1;
    if layer in SlotLayers(head.slots, head.id, depth + 1) {
      LayerCountsInSlots(head.slots, head.id, depth + 1, layer);
      SlotLayersAreLocated(head.slots, head.id, depth + 1, layer);
    } else if layer in Layers(rest, place, index + 1, depth) {
      LayerCounts(rest, place, index + 1, depth, layer);
      LayersAreLocated(rest, place, index + 1, depth, layer);
      LocateCountsInSlots(head.slots, id, head.id);
      FindCountsInSlots(head.slots, id);
    }
  }

  lemma {:induction false} SlotLayersAreLocated(slots: seq<Slot>, owner: string, depth: nat, layer: Layer)
    requires UniqueSlots(slots) && layer in SlotLayers(slots, owner, depth)
    ensures LocateInSlots(slots, layer.node.id, owner) == Some(layer.location)
    ensures FindInSlots(slots, layer.node.id) == Some(layer.node)
    decreases slots
  {
    var head, rest, id := slots[0], slots[1..], layer.node.id;
    UniqueSlotParts(slots);
    assert CountSlots(slots, id) <= 1;
    if layer in Layers(head.children, In(owner, head.name), 0, depth) {
      LayersAreLocated(head.children, In(owner, head.name), 0, depth, layer);
    } else {
      LayerCountsInSlots(rest, owner, depth, layer);
      SlotLayersAreLocated(rest, owner, depth, layer);
      LocateCounts(head.children, id, In(owner, head.name), 0);
      FindCounts(head.children, id);
    }
  }

  /** And every node the search finds is a layer, at the location the search returns. */
  lemma {:induction false} LocatedIsLayer(nodes: seq<Node>, place: Place, index: nat, depth: nat, id: string)
    returns (layer: Layer)
    requires Count(nodes, id) > 0
    ensures layer in Layers(nodes, place, index, depth)
    ensures LocateFrom(nodes, id, place, index) == Some(layer.location) && FindNode(nodes, id) == Some(layer.node)
    decreases nodes
  {
    var head, rest := nodes[0], nodes[1..];
    LocateCountsInSlots(head.slots, id, head.id);
    FindCountsInSlots(head.slots, id);
    if head.id == id {
      layer := Layer(head, Location(place, index), depth);
    } else if CountSlots(head.slots, id) > 0 {
      layer := LocatedIsSlotLayer(head.slots, head.id, depth + 1, id);
    } else {
      layer := LocatedIsLayer(rest, place, index + 1, depth, id);
    }
  }

  lemma {:induction false} LocatedIsSlotLayer(slots: seq<Slot>, owner: string, depth: nat, id: string) returns (layer: Layer)
    requires CountSlots(slots, id) > 0
    ensures layer in SlotLayers(slots, owner, depth)
    ensures LocateInSlots(slots, id, owner) == Some(layer.location) && FindInSlots(slots, id) == Some(layer.node)
    decreases slots
  {
    var head, rest := slots[0], slots[1..];
    LocateCounts(head.children, id, In(owner, head.name), 0);
    FindCounts(head.children, id);
    if Count(head.children, id) > 0 {
      layer := LocatedIsLayer(head.children, In(owner, head.name), 0, depth, id);
    } else {
      layer := LocatedIsSlotLayer(rest, owner, depth, id);
    }
  }
}
