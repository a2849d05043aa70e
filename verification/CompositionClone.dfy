/**
 Cloning a subtree with new ids. The ids come from a supply, drawn in pre-order, one for each node;
 `from` is the position of the next draw.
 */
module CompositionClone {
  import opened Wrappers
  import opened Composition
  import opened CompositionRules
  import opened CompositionMoves

  type Supply = nat -> string

  function Size(nodes: seq<Node>): nat
    decreases nodes
  {
    if nodes == [] then 0 else 1 + SlotSize(nodes[0].slots) + Size(nodes[1..])
  }

  function SlotSize(slots: seq<Slot>): nat
    decreases slots
  {
    if slots == [] then 0 else Size(slots[0].children) + SlotSize(slots[1..])
  }

  function Cloned(nodes: seq<Node>, ids: Supply, from: nat): (clones: seq<Node>)
    ensures |clones| == |nodes|
    decreases nodes
  {
    if nodes == [] then []
    else
      var head := Node(ids(from), nodes[0].component, nodes[0].payload, ClonedSlots(nodes[0].slots, ids, from + 1));
      [head] + Cloned(nodes[1..], ids, from + 1 + SlotSize(nodes[0].slots))
  }

  function ClonedSlots(slots: seq<Slot>, ids: Supply, from: nat): (clones: seq<Slot>)
    ensures |clones| == |slots|
    decreases slots
  {
    if slots == [] then []
    else [Slot(slots[0].name, Cloned(slots[0].children, ids, from))]
         + ClonedSlots(slots[1..], ids, from + Size(slots[0].children))
  }

  // Which ids a clone has

  /** How many of the draws from a position on gave an id. */
  function Drawn(ids: Supply, from: nat, count: nat, id: string): nat {
    if count == 0 then 0 else Drawn(ids, from, count - 1, id) + if ids(from + count - 1) == id then 1 else 0
  }

  lemma {:induction false} DrawnSplits(ids: Supply, from: nat, a: nat, b: nat, id: string)
    ensures Drawn(ids, from, a + b, id) == Drawn(ids, from, a, id) + Drawn(ids, from + a, b, id)
    decreases b
  {
    if b > 0 { DrawnSplits(ids, from, a, b - 1, id); }
  }

  lemma {:induction false} CountHead(head: Node, tail: seq<Node>, id: string)
    ensures Count([head] + tail, id) == (if head.id == id then 1 else 0) + CountSlots(head.slots, id) + Count(tail, id)
  {
    assert ([head] + tail)[1..] == tail;
  }

  lemma {:induction false} CountSlotHead(head: Slot, tail: seq<Slot>, id: string)
    ensures CountSlots([head] + tail, id) == Count(head.children, id) + CountSlots(tail, id)
  {
    assert ([head] + tail)[1..] == tail;
  }

  lemma CloneHead(nodes: seq<Node>, ids: Supply, from: nat, id: string)
    requires nodes != []
    ensures Count(Cloned(nodes, ids, from), id)
         == (if ids(from) == id then 1 else 0) + CountSlots(ClonedSlots(nodes[0].slots, ids, from + 1), id)
            + Count(Cloned(nodes[1..], ids, from + 1 + SlotSize(nodes[0].slots)), id)
  {
    CountHead(Node(ids(from), nodes[0].component, nodes[0].payload, ClonedSlots(nodes[0].slots, ids, from + 1)),
              Cloned(nodes[1..], ids, from + 1 + SlotSize(nodes[0].slots)), id);
  }

  lemma CloneSlotHead(slots: seq<Slot>, ids: Supply, from: nat, id: string)
    requires slots != []
    ensures CountSlots(ClonedSlots(slots, ids, from), id)
         == Count(Cloned(slots[0].children, ids, from), id)
            + CountSlots(ClonedSlots(slots[1..], ids, from + Size(slots[0].children)), id)
  {
    CountSlotHead(Slot(slots[0].name, Cloned(slots[0].children, ids, from)),
                  ClonedSlots(slots[1..], ids, from + Size(slots[0].children)), id);
  }

  lemma {:induction false} CloneCounts(nodes: seq<Node>, ids: Supply, from: nat, id: string)
    ensures Count(Cloned(nodes, ids, from), id) == Drawn(ids, from, Size(nodes), id)
    decreases nodes
  {
    if nodes != [] {
      CloneSlotCounts(nodes[0].slots, ids, from + 1, id);
      CloneCounts(nodes[1..], ids, from + 1 + SlotSize(nodes[0].slots), id);
      CountsJoin(nodes, ids, from, id, Size(nodes));
    }
  }

  lemma {:induction false} CountsJoin(nodes: seq<Node>, ids: Supply, from: nat, id: string, size: nat)
    requires nodes != [] && size == Size(nodes)
    requires var slots, below := nodes[0].slots, SlotSize(nodes[0].slots);
      && CountSlots(ClonedSlots(slots, ids, from + 1), id) == Drawn(ids, from + 1, below, id)
      && Count(Cloned(nodes[1..], ids, from + 1 + below), id) == Drawn(ids, from + 1 + below, Size(nodes[1..]), id)
    ensures Count(Cloned(nodes, ids, from), id) == Drawn(ids, from, size, id)
  {
    CloneHead(nodes, ids, from, id);
    DrawnNode(ids, from, SlotSize(nodes[0].slots), Size(nodes[1..]), id);
  }

  lemma DrawnNode(ids: Supply, from: nat, below: nat, after: nat, id: string)
    ensures Drawn(ids, from, 1 + below + after, id)
         == (if ids(from) == id then 1 else 0) + Drawn(ids, from + 1, below, id) + Drawn(ids, from + 1 + below, after, id)
  {
    DrawnSplits(ids, from, 1, below, id);
    DrawnSplits(ids, from, 1 + below, after, id);
    assert Drawn(ids, from, 1, id) == if ids(from) == id then 1 else 0;
  }

  lemma {:induction false} CloneSlotCounts(slots: seq<Slot>, ids: Supply, from: nat, id: string)
    ensures CountSlots(ClonedSlots(slots, ids, from), id) == Drawn(ids, from, SlotSize(slots), id)
    decreases slots
  {
    if slots != [] {
      var first := Size(slots[0].children);
      CloneCounts(slots[0].children, ids, from, id);
      CloneSlotCounts(slots[1..], ids, from + first, id);
      DrawnSplits(ids, from, first, SlotSize(slots[1..]), id);
      CloneSlotHead(slots, ids, from, id);
    }
  }

  // A clone has the shape of the original

  ghost predicate SameComponents(a: seq<Node>, b: seq<Node>) {
    |a| == |b| && forall i :: 0 <= i < |a| ==> a[i].component == b[i].component
  }

  lemma {:induction false} CloneComponents(nodes: seq<Node>, ids: Supply, from: nat)
    ensures SameComponents(Cloned(nodes, ids, from), nodes)
    decreases |nodes|
  {
    if nodes != [] { CloneComponents(nodes[1..], ids, from + 1 + SlotSize(nodes[0].slots)); }
  }

  lemma {:induction false} CloneChildren(slots: seq<Slot>, ids: Supply, from: nat, name: string)
    ensures SameComponents(ChildrenOf(ClonedSlots(slots, ids, from), name), ChildrenOf(slots, name))
    ensures forall i :: 0 <= i < |slots| ==> ClonedSlots(slots, ids, from)[i].name == slots[i].name
    decreases |slots|
  {
    if slots != [] {
      CloneComponents(slots[0].children, ids, from);
      CloneChildren(slots[1..], ids, from + Size(slots[0].children), name);
    }
  }

  lemma {:induction false} CloneKeepsTree(rules: Rules, nodes: seq<Node>, ids: Supply, from: nat)
    requires TreeOk(rules, None, nodes)
    ensures TreeOk(rules, None, Cloned(nodes, ids, from))
    decreases nodes
  {
    if nodes != [] {
      var head := Cloned(nodes, ids, from)[0];
      CloneChildren(nodes[0].slots, ids, from + 1, "");
      forall name ensures SlotOk(rules, None, head, name) {
        assert SlotOk(rules, None, nodes[0], name);
        CloneChildren(nodes[0].slots, ids, from + 1, name);
      }
      CloneKeepsSlots(rules, nodes[0].slots, ids, from + 1);
      CloneKeepsTree(rules, nodes[1..], ids, from + 1 + SlotSize(nodes[0].slots));
    }
  }

  lemma {:induction false} CloneKeepsSlots(rules: Rules, slots: seq<Slot>, ids: Supply, from: nat)
    requires SlotsOk(rules, None, slots)
    ensures SlotsOk(rules, None, ClonedSlots(slots, ids, from))
    decreases slots
  {
    if slots != [] {
      CloneKeepsTree(rules, slots[0].children, ids, from);
      CloneKeepsSlots(rules, slots[1..], ids, from + Size(slots[0].children));
    }
  }

  // A clone with fresh ids may be added

  ghost predicate Fresh(nodes: seq<Node>, ids: Supply, from: nat, count: nat) {
    && (forall i, j :: from <= i < j < from + count ==> ids(i) != ids(j))
    && (forall i :: from <= i < from + count ==> Count(nodes, ids(i)) == 0)
  }

  lemma {:induction false} DrawnOnce(ids: Supply, from: nat, count: nat, id: string)
    requires forall i, j :: from <= i < j < from + count ==> ids(i) != ids(j)
    ensures Drawn(ids, from, count, id) <= 1
    ensures Drawn(ids, from, count, id) > 0 ==> exists i :: from <= i < from + count && ids(i) == id
    decreases count
  {
    if count > 0 { DrawnOnce(ids, from, count - 1, id); }
  }

  /** A clone of a well-formed subtree, with ids not in use, is one that every edit may add. */
  lemma {:induction false} CloneFits(rules: Rules, nodes: seq<Node>, node: Node, ids: Supply, from: nat)
    requires Unique(nodes) && TreeOk(rules, None, [node]) && Fresh(nodes, ids, from, Size([node]))
    ensures Fits(rules, nodes, Cloned([node], ids, from)[0])
  {
    var clone := Cloned([node], ids, from)[0];
    CloneKeepsTree(rules, [node], ids, from);
    assert Cloned([node], ids, from) == [clone];
    forall other ensures Count(nodes, other) + Count([clone], other) <= 1 {
      CloneCounts([node], ids, from, other);
      DrawnOnce(ids, from, Size([node]), other);
      assert Count(nodes, other) <= 1;
    }
  }

  // A clone differs from its original in ids only

  /** A composition with every id blanked. */
  function Anonymous(nodes: seq<Node>): seq<Node>
    decreases nodes
  {
    if nodes == [] then []
    else [Node("", nodes[0].component, nodes[0].payload, AnonymousSlots(nodes[0].slots))] + Anonymous(nodes[1..])
  }

  function AnonymousSlots(slots: seq<Slot>): seq<Slot>
    decreases slots
  {
    if slots == [] then [] else [Slot(slots[0].name, Anonymous(slots[0].children))] + AnonymousSlots(slots[1..])
  }

  /** The ids of a composition, each node before what is below it and before its later siblings. */
  function PreOrder(nodes: seq<Node>): seq<string>
    decreases nodes
  {
    if nodes == [] then [] else [nodes[0].id] + PreOrderSlots(nodes[0].slots) + PreOrder(nodes[1..])
  }

  function PreOrderSlots(slots: seq<Slot>): seq<string>
    decreases slots
  {
    if slots == [] then [] else PreOrder(slots[0].children) + PreOrderSlots(slots[1..])
  }

  function Draws(ids: Supply, from: nat, count: nat): (drawn: seq<string>)
    ensures |drawn| == count && forall i :: 0 <= i < count ==> drawn[i] == ids(from + i)
  {
    seq(count, i requires 0 <= i < count => ids(from + i))
  }

  lemma DrawsJoin(ids: Supply, from: nat, a: nat, b: nat)
    ensures Draws(ids, from, a + b) == Draws(ids, from, a) + Draws(ids, from + a, b)
  {
  }

  lemma {:induction false} CloneIsAlike(nodes: seq<Node>, ids: Supply, from: nat)
    ensures Anonymous(Cloned(nodes, ids, from)) == Anonymous(nodes)
    decreases nodes
  {
    if nodes != [] {
      var rest := from + 1 + SlotSize(nodes[0].slots);
      assert Cloned(nodes, ids, from)[1..] == Cloned(nodes[1..], ids, rest);
      SlotsAreAlike(nodes[0].slots, ids, from + 1);
      CloneIsAlike(nodes[1..], ids, rest);
    }
  }

  lemma {:induction false} SlotsAreAlike(slots: seq<Slot>, ids: Supply, from: nat)
    ensures AnonymousSlots(ClonedSlots(slots, ids, from)) == AnonymousSlots(slots)
    decreases slots
  {
    if slots != [] {
      var rest := from + Size(slots[0].children);
      assert ClonedSlots(slots, ids, from)[1..] == ClonedSlots(slots[1..], ids, rest);
      CloneIsAlike(slots[0].children, ids, from);
      SlotsAreAlike(slots[1..], ids, rest);
    }
  }

  lemma {:induction false} CloneDraws(nodes: seq<Node>, ids: Supply, from: nat)
    ensures PreOrder(Cloned(nodes, ids, from)) == Draws(ids, from, Size(nodes))
    decreases nodes
  {
    if nodes != [] {
      SlotsDraw(nodes[0].slots, ids, from + 1);
      CloneDraws(nodes[1..], ids, from + 1 + SlotSize(nodes[0].slots));
      DrawsOfNode(ids, from, SlotSize(nodes[0].slots), Size(nodes[1..]), Size(nodes));
      PreOrderOfClone(nodes, ids, from);
    }
  }

  lemma DrawsOfNode(ids: Supply, from: nat, below: nat, after: nat, size: nat)
    requires size == 1 + below + after
    ensures Draws(ids, from, size) == [ids(from)] + Draws(ids, from + 1, below) + Draws(ids, from + 1 + below, after)
  {
  }

  lemma {:induction false} PreOrderOfClone(nodes: seq<Node>, ids: Supply, from: nat)
    requires nodes != []
    ensures PreOrder(Cloned(nodes, ids, from))
         == [ids(from)] + PreOrderSlots(ClonedSlots(nodes[0].slots, ids, from + 1))
            + PreOrder(Cloned(nodes[1..], ids, from + 1 + SlotSize(nodes[0].slots)))
  {
    assert Cloned(nodes, ids, from)[1..] == Cloned(nodes[1..], ids, from + 1 + SlotSize(nodes[0].slots));
  }

  lemma {:induction false} SlotsDraw(slots: seq<Slot>, ids: Supply, from: nat)
    ensures PreOrderSlots(ClonedSlots(slots, ids, from)) == Draws(ids, from, SlotSize(slots))
    decreases slots
  {
    if slots != [] {
      var first := Size(slots[0].children);
      assert ClonedSlots(slots, ids, from)[1..] == ClonedSlots(slots[1..], ids, from + first);
      CloneDraws(slots[0].children, ids, from);
      SlotsDraw(slots[1..], ids, from + first);
      DrawsJoin(ids, from, first, SlotSize(slots[1..]));
    }
  }

  /**
   A clone is its original in every component, payload, slot and order, with as many ids as it has
   nodes taken one by one from the supply.
   */
  lemma {:induction false} CloneDiffersInIdsOnly(nodes: seq<Node>, ids: Supply, from: nat)
    ensures Anonymous(Cloned(nodes, ids, from)) == Anonymous(nodes)
    ensures PreOrder(Cloned(nodes, ids, from)) == Draws(ids, from, Size(nodes))
  {
    CloneIsAlike(nodes, ids, from);
    CloneDraws(nodes, ids, from);
  }
}
