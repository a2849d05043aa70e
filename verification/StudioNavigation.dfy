/**
 The Studio history adapter over a browser's session history, as values: one tab, one step per
 browser change, adapter call or answered navigation request.
 */
module StudioNavigation {
  import opened Wrappers

  /** `history.state` as far as the adapter reads it. Owners number its random identifiers. */
  datatype Mark = Mark(owner: nat, index: int)
  datatype Slot = Slot(hash: string, mark: Option<Mark>)
  datatype Place = Place(hash: string, index: int)
  datatype Key = Key(index: Option<int>, hash: string)
  datatype Request = Request(id: nat, external: bool)

  datatype Tab = Tab(
    // the browser
    slots: seq<Slot>, position: nat, traversals: seq<int>,
    // the adapter
    owner: nat, known: map<int, string>, accepted: Place, observed: Option<Key>, disposed: bool,
    pending: Option<Request>, requests: nat, compensation: Option<Place>)

  ghost predicate InHistory(t: Tab) { t.position < |t.slots| }

  function Hash(t: Tab): string
    requires InHistory(t)
  {
    t.slots[t.position].hash
  }

  function Marker(t: Tab): Option<int>
    requires InHistory(t)
  {
    match t.slots[t.position].mark
    case Some(mark) =>
      if mark.owner == t.owner && mark.index in t.known && t.known[mark.index] == Hash(t)
      then Some(mark.index) else None
    case None => None
  }

  function CurrentKey(t: Tab): Key
    requires InHistory(t)
  {
    Key(Marker(t), Hash(t))
  }

  function NewEpoch(t: Tab): Tab {
    t.(owner := t.owner + 1, known := map[], accepted := t.accepted.(index := 0))
  }

  /** `pushState` drops the forward entries; `replaceState` rewrites the current one. */
  function Written(t: Tab, hash: string, index: int, push: bool): (w: Tab)
    requires InHistory(t)
    ensures InHistory(w)
  {
    var slot := Slot(hash, Some(Mark(t.owner, index)));
    var w := t.(
      slots := if push then t.slots[..t.position + 1] + [slot] else t.slots[t.position := slot],
      position := if push then t.position + 1 else t.position,
      known := t.known[index := hash],
      accepted := Place(hash, index));
    w.(observed := Some(CurrentKey(w)))
  }

  function Restored(t: Tab): (w: Tab)
    requires InHistory(t)
    ensures InHistory(w)
  {
    var current := Marker(t);
    if current.Some? && current.value != t.accepted.index
    then t.(compensation := Some(t.accepted), traversals := t.traversals + [t.accepted.index - current.value])
    else
      var t := if current.None? then NewEpoch(t) else t;
      Written(t, t.accepted.hash, t.accepted.index, false)
  }

  function Pushed(t: Tab, hash: string): (w: Tab)
    requires InHistory(t)
    ensures InHistory(w)
  {
    var current := Marker(t);
    var t := if current.None? then NewEpoch(t) else t;
    Written(t, hash, (if current.Some? then current.value else t.accepted.index) + 1, true)
  }

  function Requested(t: Tab, external: bool): Tab {
    t.(pending := Some(Request(t.requests, external)), requests := t.requests + 1)
  }

  /** The rest of a transition: `None` refuses it, `Some` is the address of the granted location. */
  function Answered(t: Tab, id: nat, granted: Option<string>): (w: Tab)
    requires InHistory(t)
    ensures InHistory(w)
  {
    if t.disposed || t.pending.None? || t.pending.value.id != id then t
    else
      var external := t.pending.value.external;
      var t := t.(pending := None);
      match granted
      case None => if external || Hash(t) != t.accepted.hash then Restored(t) else t
      case Some(canonical) =>
        if external then
          var current := Marker(t);
          var t := if current.None? then NewEpoch(t) else t;
          Written(t, canonical, if current.Some? then current.value else t.accepted.index, false)
        else if canonical != t.accepted.hash then Pushed(t, canonical)
        else if Hash(t) != t.accepted.hash then Restored(t)
        else t
  }

  /** Both `popstate` and `hashchange`. */
  function Changed(t: Tab): (w: Tab)
    requires InHistory(t)
    ensures InHistory(w)
  {
    if t.disposed || t.observed == Some(CurrentKey(t)) then t
    else
      var compensated := t.compensation.Some? && Marker(t) == Some(t.compensation.value.index)
                         && Hash(t) == t.compensation.value.hash;
      var t := t.(observed := Some(CurrentKey(t)), compensation := None);
      if compensated then t else Requested(t, true)
  }

  datatype Event =
    | Traverse(delta: int)              // back, forward or a jump by the user
    | Land                              // the oldest `history.go` takes effect
    | Visit(hash: string, push: bool)   // a link or an edited address
    | Answer(id: nat, granted: Option<string>)
    | Replace(hash: string)
    | Push(hash: string)
    | Reset(hash: string)
    | Navigate
    | Dispose

  function Moved(t: Tab, delta: int): (w: Tab)
    requires InHistory(t)
    ensures InHistory(w)
  {
    if 0 <= t.position + delta < |t.slots| && delta != 0
    then Changed(t.(position := t.position + delta)) else t
  }

  function Step(t: Tab, event: Event): (w: Tab)
    requires InHistory(t)
    ensures InHistory(w)
  {
    match event
    case Traverse(delta) => Moved(t, delta)
    case Land =>
      if t.traversals == [] then t
      else Moved(t.(traversals := t.traversals[1..]), t.traversals[0])
    case Visit(hash, push) =>
      if push
      then Changed(t.(slots := t.slots[..t.position + 1] + [Slot(hash, None)], position := t.position + 1))
      else Changed(t.(slots := t.slots[t.position := Slot(hash, None)]))
    case Answer(id, granted) => Answered(t, id, granted)
    case Replace(hash) => Written(t, hash, t.accepted.index, false)
    case Push(hash) => if hash != t.accepted.hash then Pushed(t, hash) else t
    case Reset(hash) => Written(NewEpoch(t.(pending := None, compensation := None)), hash, 0, false)
    case Navigate => if t.compensation.Some? then t else Requested(t, false)
    case Dispose => t.(disposed := true, pending := None)
  }

  function Run(t: Tab, events: seq<Event>): (w: Tab)
    requires InHistory(t)
    ensures InHistory(w)
    decreases |events|
  {
    if events == [] then t else Run(Step(t, events[0]), events[1..])
  }

  /** A tab as the adapter finds it: nothing in its history carries the new owner. */
  ghost predicate Created(t: Tab) {
    && InHistory(t)
    && t.known == map[] && t.accepted == Place(Hash(t), 0) && t.observed.None? && !t.disposed
    && t.pending.None? && t.compensation.None?
    && forall p :: 0 <= p < |t.slots| && t.slots[p].mark.Some? ==> t.slots[p].mark.value.owner < t.owner
  }

  // The address settles

  predicate Settled(t: Tab) {
    !t.disposed && t.pending.None? && t.compensation.None?
  }

  /** The accepted slot is on record, and the last observation was of the current entry. */
  ghost predicate Tracked(t: Tab) {
    && InHistory(t)
    && (t.known == map[] || (t.accepted.index in t.known && t.known[t.accepted.index] == t.accepted.hash))
    && (t.known != map[] ==> t.observed.Some?)
    && (!t.disposed && t.observed.Some? ==> t.observed.value == CurrentKey(t))
  }

  /** An entry at which `onChange` takes the outstanding compensation to be done. */
  ghost predicate Answers(t: Tab, q: int) {
    && t.compensation.Some? && 0 <= q < |t.slots|
    && t.slots[q] == Slot(t.compensation.value.hash, Some(Mark(t.owner, t.compensation.value.index)))
    && t.compensation.value.index in t.known && t.known[t.compensation.value.index] == t.compensation.value.hash
  }

  ghost predicate Answerable(t: Tab) {
    exists q :: Answers(t, q)
  }

  ghost predicate SettlesOk(t: Tab) {
    && Tracked(t)
    && (t.compensation.Some? ==>
          && t.pending.None? && t.known != map[]
          && (t.compensation.value.index == t.accepted.index || !Answerable(t)))
    && (Settled(t) ==> Hash(t) == t.accepted.hash)
  }

  /** A push would leave the entry behind that the outstanding compensation leads back to. */
  ghost predicate LeavesBehind(t: Tab)
    requires InHistory(t)
  {
    && t.compensation.Some? && Marker(t).Some? && t.compensation.value.index != Marker(t).value + 1
    && exists q :: q <= t.position && Answers(t, q)
  }

  /** The guard `navigate` has and `push` lacks, as far as it is needed. */
  ghost predicate Guarded(t: Tab, event: Event)
    requires InHistory(t)
  {
    event.Push? ==> event.hash == t.accepted.hash || !LeavesBehind(t)
  }

  ghost predicate AllGuarded(t: Tab, events: seq<Event>)
    requires InHistory(t)
    decreases |events|
  {
    events == [] || (Guarded(t, events[0]) && AllGuarded(Step(t, events[0]), events[1..]))
  }

  lemma WrittenSettles(t: Tab, hash: string, index: int, push: bool)
    requires InHistory(t)
    requires t.compensation.Some? ==>
      && t.pending.None?
      && (t.compensation.value.index == index || !Answerable(Written(t, hash, index, push)))
    ensures SettlesOk(Written(t, hash, index, push))
  {
  }

  lemma ReplacedSettles(t: Tab, hash: string)
    requires SettlesOk(t)
    ensures SettlesOk(Written(t, hash, t.accepted.index, false))
  {
    var w := Written(t, hash, t.accepted.index, false);
    if t.compensation.Some? && t.compensation.value.index != t.accepted.index {
      forall q ensures !Answers(w, q) { assert !Answers(t, q); }
    }
    WrittenSettles(t, hash, t.accepted.index, false);
  }

  /** A push while a compensation is outstanding, when it leaves no answering entry behind. */
  lemma PushedOver(t: Tab, hash: string)
    requires SettlesOk(t) && t.compensation.Some? && !LeavesBehind(t)
    ensures SettlesOk(Pushed(t, hash))
  {
    var u, w := if Marker(t).None? then NewEpoch(t) else t, Pushed(t, hash);
    var index := (if Marker(t).Some? then Marker(t).value else 0) + 1;
    assert w == Written(u, hash, index, true);
    if t.compensation.value.index != index && Marker(t).Some? {
      forall q ensures !Answers(w, q) {
        assert !(q <= t.position && Answers(t, q));
      }
    }
    WrittenSettles(u, hash, index, true);
  }

  lemma PushedSettles(t: Tab, hash: string)
    requires InHistory(t) && t.compensation.None?
    ensures SettlesOk(Pushed(t, hash))
  {
    var current := Marker(t);
    if current.None? {
      WrittenSettles(NewEpoch(t), hash, 1, true);
    } else {
      WrittenSettles(t, hash, current.value + 1, true);
    }
  }

  lemma RestoredSettles(t: Tab)
    requires Tracked(t) && t.pending.None? && t.compensation.None?
    ensures SettlesOk(Restored(t))
  {
    var current := Marker(t);
    if current.None? {
      WrittenSettles(NewEpoch(t), t.accepted.hash, 0, false);
    } else if current.value == t.accepted.index {
      WrittenSettles(t, t.accepted.hash, t.accepted.index, false);
    }
  }

  lemma GrantedSettles(t: Tab, hash: string)
    requires InHistory(t) && t.compensation.None?
    ensures var current := Marker(t);
      SettlesOk(Written(if current.None? then NewEpoch(t) else t, hash,
                        if current.Some? then current.value else 0, false))
  {
    if Marker(t).None? {
      WrittenSettles(NewEpoch(t), hash, 0, false);
    } else {
      WrittenSettles(t, hash, Marker(t).value, false);
    }
  }

  lemma AnsweredSettles(t: Tab, id: nat, granted: Option<string>)
    requires SettlesOk(t)
    ensures SettlesOk(Answered(t, id, granted))
  {
    if !t.disposed && t.pending.Some? && t.pending.value.id == id {
      var u := t.(pending := None);
      assert Tracked(u) && u.compensation.None?;
      RestoredSettles(u);
      if granted.Some? {
        PushedSettles(u, granted.value);
        GrantedSettles(u, granted.value);
      }
    }
  }

  /** Any change of the browser's own part, handled as one step. */
  lemma ChangedSettles(t: Tab, u: Tab)
    requires SettlesOk(t) && InHistory(u)
    requires u == t.(slots := u.slots, position := u.position, traversals := u.traversals)
    requires forall q :: Answers(u, q) ==> Answers(t, q)
    ensures SettlesOk(Changed(u))
  {
    if t.compensation.Some? && Marker(u) == Some(t.compensation.value.index) && Hash(u) == t.compensation.value.hash {
      assert Answers(u, u.position);
    }
    SameAnswers(u, u.(observed := Some(CurrentKey(u))));
  }

  lemma SameAnswers(t: Tab, u: Tab)
    requires u.slots == t.slots && u.owner == t.owner && u.known == t.known && u.compensation == t.compensation
    ensures Answerable(u) <==> Answerable(t)
  {
    assert forall q :: Answers(u, q) <==> Answers(t, q);
  }

  lemma MovedSettles(t: Tab, traversals: seq<int>, delta: int)
    requires SettlesOk(t)
    ensures SettlesOk(Moved(t.(traversals := traversals), delta))
  {
    var u := t.(traversals := traversals);
    SameAnswers(t, u);
    assert SettlesOk(u);
    if 0 <= t.position + delta < |t.slots| && delta != 0 {
      var there := u.(position := t.position + delta);
      assert forall q :: Answers(there, q) ==> Answers(u, q);
      ChangedSettles(u, there);
    }
  }

  lemma VisitSettles(t: Tab, hash: string, push: bool)
    requires SettlesOk(t)
    ensures SettlesOk(Step(t, Visit(hash, push)))
  {
    if push {
      ChangedSettles(t, t.(slots := t.slots[..t.position + 1] + [Slot(hash, None)], position := t.position + 1));
    } else {
      ChangedSettles(t, t.(slots := t.slots[t.position := Slot(hash, None)]));
    }
  }

  lemma StepSettles(t: Tab, event: Event)
    requires SettlesOk(t) && Guarded(t, event)
    ensures SettlesOk(Step(t, event))
  {
    match event
    case Traverse(delta) => MovedSettles(t, t.traversals, delta);
    case Land => if t.traversals != [] { MovedSettles(t, t.traversals[1..], t.traversals[0]); }
    case Visit(hash, push) => VisitSettles(t, hash, push);
    case Answer(id, granted) => AnsweredSettles(t, id, granted);
    case Replace(hash) => ReplacedSettles(t, hash);
    case Push(hash) =>
      if hash != t.accepted.hash {
        if t.compensation.Some? { PushedOver(t, hash); } else { PushedSettles(t, hash); }
      }
    case Reset(hash) => WrittenSettles(NewEpoch(t.(pending := None, compensation := None)), hash, 0, false);
    case Navigate =>
    case Dispose => SameAnswers(t, Step(t, event));
  }

  /**
   In every run whose pushes leave no entry behind that an outstanding compensation leads back to,
   whenever no request is pending and no compensation outstanding the address is the last accepted one.
   */
  lemma {:induction false} HistorySettles(t: Tab, events: seq<Event>)
    requires SettlesOk(t) && AllGuarded(t, events)
    ensures SettlesOk(Run(t, events))
    decreases |events|
  {
    if events != [] {
      StepSettles(t, events[0]);
      HistorySettles(Step(t, events[0]), events[1..]);
    }
  }

  lemma {:induction false} CreatedSettles(t: Tab, events: seq<Event>)
    requires Created(t) && AllGuarded(t, events)
    ensures var w := Run(t, events); Settled(w) ==> Hash(w) == w.accepted.hash
  {
    HistorySettles(t, events);
  }

  /** Whatever follows: each settled state shows the accepted address. */
  ghost predicate NeverStrands(t: Tab)
    requires InHistory(t)
  {
    forall events :: AllGuarded(t, events) ==> var w := Run(t, events); Settled(w) ==> Hash(w) == w.accepted.hash
  }

  /**
   Exactly the guard is needed. A push while a compensation is outstanding lets no later run settle
   on another address than the accepted one if and only if it leaves no answering entry behind:
   otherwise a jump straight to that entry does.
   */
  lemma PushIsSafeExactly(t: Tab, hash: string)
    requires SettlesOk(t) && !t.disposed
    ensures Guarded(t, Push(hash)) <==> NeverStrands(Step(t, Push(hash)))
  {
    var w := Step(t, Push(hash));
    if Guarded(t, Push(hash)) {
      StepSettles(t, Push(hash));
      forall events | AllGuarded(w, events)
        ensures Settled(Run(w, events)) ==> Hash(Run(w, events)) == Run(w, events).accepted.hash
      {
        HistorySettles(w, events);
      }
    } else {
      var events := StrandedBy(t, hash);
      assert !NeverStrands(w);
    }
  }

  /** The run that strands the address after an unguarded push. */
  lemma StrandedBy(t: Tab, hash: string) returns (events: seq<Event>)
    requires SettlesOk(t) && !t.disposed && !Guarded(t, Push(hash))
    ensures var w := Step(t, Push(hash));
      AllGuarded(w, events) && Settled(Run(w, events)) && Hash(Run(w, events)) != Run(w, events).accepted.hash
  {
    var w, led := Step(t, Push(hash)), t.compensation.value;
    var q :| q <= t.position && Answers(t, q);
    assert w.slots[q] == t.slots[q] && Answers(w, q);
    JumpAnswers(w, q);
    events := [Traverse(q - w.position)];
    OneStep(w, Traverse(q - w.position));
  }

  lemma {:induction false} OneStep(t: Tab, event: Event)
    requires InHistory(t) && !event.Push?
    ensures AllGuarded(t, [event]) && Run(t, [event]) == Step(t, event)
  {
    assert [event][1..] == [];
  }

  /** A jump to an answering entry, when the last observation was of another index. */
  lemma JumpAnswers(t: Tab, q: int)
    requires InHistory(t) && Answers(t, q) && !t.disposed && t.pending.None?
    requires t.observed.Some? && t.observed.value.index != Some(t.compensation.value.index)
    requires q != t.position
    ensures var w := Step(t, Traverse(q - t.position));
      Settled(w) && Hash(w) == t.compensation.value.hash && w.accepted == t.accepted
  {
    var there := t.(position := q);
    assert Marker(there) == Some(t.compensation.value.index) && Hash(there) == t.compensation.value.hash;
    assert Step(t, Traverse(q - t.position)) == Changed(there);
  }

  // A fresh tab that has marked its first entry a and pushed b.

  function Marked(t: Tab, hash: string, index: int): Slot {
    Slot(hash, Some(Mark(t.owner, index)))
  }

  lemma TwoVisited(t: Tab)
    requires Created(t) && t.slots == [Slot("#a", None)] && t.requests == 0 && t.traversals == []
    ensures Step(Step(t, Replace("#a")), Push("#b"))
         == Tab([Marked(t, "#a", 0), Marked(t, "#b", 1)], 1, [], t.owner, map[0 := "#a", 1 := "#b"],
                Place("#b", 1), Some(Key(Some(1), "#b")), false, None, 0, None)
  {
    var t1 := Step(t, Replace("#a"));
    assert t1.slots == [Marked(t, "#a", 0)];
    assert t1.known == map[0 := "#a"];
    var t2 := Step(t1, Push("#b"));
    assert t2.slots == [Marked(t, "#a", 0), Marked(t, "#b", 1)];
    assert t2.known == map[0 := "#a", 1 := "#b"];
  }

  /** After going back to a, which is requested but not yet answered. */
  function BackAtFirst(t: Tab): Tab {
    Tab([Marked(t, "#a", 0), Marked(t, "#b", 1)], 0, [], t.owner, map[0 := "#a", 1 := "#b"],
        Place("#b", 1), Some(Key(Some(0), "#a")), false, Some(Request(0, true)), 1, None)
  }

  lemma WentBack(t: Tab)
    requires Created(t) && t.slots == [Slot("#a", None)] && t.requests == 0 && t.traversals == []
    ensures Step(Step(Step(t, Replace("#a")), Push("#b")), Traverse(-1)) == BackAtFirst(t)
  {
    TwoVisited(t);
  }

  const GO_BACK_THEN_REFUSED := [Replace("#a"), Push("#b"), Traverse(-1), Answer(0, Some("#a")), Traverse(1), Answer(1, None)]

  function Compensating(t: Tab): Tab {
    Tab([Marked(t, "#a", 0), Marked(t, "#b", 1)], 1, [-1], t.owner, map[0 := "#a", 1 := "#b"],
        Place("#a", 0), Some(Key(Some(1), "#b")), false, None, 2, Some(Place("#a", 0)))
  }

  /** Going back to a was granted. */
  function BackAccepted(t: Tab): Tab {
    Tab([Marked(t, "#a", 0), Marked(t, "#b", 1)], 0, [], t.owner, map[0 := "#a", 1 := "#b"],
        Place("#a", 0), Some(Key(Some(0), "#a")), false, None, 1, None)
  }

  lemma BackGranted(t: Tab)
    ensures Step(BackAtFirst(t), Answer(0, Some("#a"))) == BackAccepted(t)
  {
    var w := Step(BackAtFirst(t), Answer(0, Some("#a")));
    assert w.slots == BackAccepted(t).slots && w.known == BackAccepted(t).known;
  }

  lemma ForwardRefused(t: Tab)
    ensures Step(Step(BackAccepted(t), Traverse(1)), Answer(1, None)) == Compensating(t)
  {
    var there := BackAccepted(t).(position := 1, observed := Some(Key(Some(1), "#b")),
                                  pending := Some(Request(1, true)), requests := 2);
    assert Step(BackAccepted(t), Traverse(1)) == there;
  }

  /** Going back is granted, going forward refused: a compensation leads back to a. */
  lemma {:induction false} CompensationOutstanding(t: Tab)
    requires Created(t) && t.slots == [Slot("#a", None)] && t.requests == 0 && t.traversals == []
    ensures Run(t, GO_BACK_THEN_REFUSED) == Compensating(t)
  {
    WentBack(t);
    BackGranted(t);
    ForwardRefused(t);
    RunSix(t, Replace("#a"), Push("#b"), Traverse(-1), Answer(0, Some("#a")), Traverse(1), Answer(1, None));
  }

  lemma CompensatingStranded(t: Tab)
    requires InHistory(t)
    ensures var w := Run(Compensating(t), [Push("#c"), Traverse(-2)]);
      Settled(w) && Hash(w) == "#a" && w.accepted.hash == "#c"
  {
    var pushed := Step(Compensating(t), Push("#c"));
    assert pushed.slots == [Marked(t, "#a", 0), Marked(t, "#b", 1), Marked(t, "#c", 2)];
    RunOne(Compensating(t), Push("#c"), [Traverse(-2)]);
    RunOne(pushed, Traverse(-2), []);
    assert [Push("#c")] + [Traverse(-2)] == [Push("#c"), Traverse(-2)];
    assert [Traverse(-2)] + [] == [Traverse(-2)];
  }

  /**
   Such a run from a fresh tab: visit a and b, accept going back to a, refuse going forward again,
   and push c before the refusal's traversal takes effect.
   */
  lemma {:induction false} UnguardedRun(t: Tab)
    requires Created(t) && t.slots == [Slot("#a", None)] && t.requests == 0 && t.traversals == []
    ensures var w := Run(t, GO_BACK_THEN_REFUSED + [Push("#c"), Traverse(-2)]);
      Settled(w) && Hash(w) == "#a" && w.accepted.hash == "#c"
  {
    CompensationOutstanding(t);
    RunConcat(t, GO_BACK_THEN_REFUSED, [Push("#c"), Traverse(-2)]);
    CompensatingStranded(t);
  }

  lemma {:induction false} RunConcat(t: Tab, first: seq<Event>, rest: seq<Event>)
    requires InHistory(t)
    ensures Run(t, first + rest) == Run(Run(t, first), rest)
    decreases |first|
  {
    if first == [] {
      assert first + rest == rest;
    } else {
      var all := first + rest;
      assert all[0] == first[0] && all[1..] == first[1..] + rest;
      var next := Step(t, first[0]);
      assert Run(t, all) == Run(next, first[1..] + rest) && Run(t, first) == Run(next, first[1..]);
      RunConcat(next, first[1..], rest);
    }
  }

  lemma {:induction false} RunOne(t: Tab, e: Event, rest: seq<Event>)
    requires InHistory(t)
    ensures Run(t, [e] + rest) == Run(Step(t, e), rest)
  {
    assert ([e] + rest)[1..] == rest;
  }

  lemma {:induction false} RunSix(t: Tab, e1: Event, e2: Event, e3: Event, e4: Event, e5: Event, e6: Event)
    requires InHistory(t)
    ensures Run(t, [e1, e2, e3, e4, e5, e6]) == Step(Step(Step(Step(Step(Step(t, e1), e2), e3), e4), e5), e6)
  {
    assert [e1, e2, e3, e4, e5, e6] == [e1] + ([e2] + ([e3] + ([e4] + ([e5] + ([e6] + [])))));
    RunOne(t, e1, [e2] + ([e3] + ([e4] + ([e5] + ([e6] + [])))));
    RunOne(Step(t, e1), e2, [e3] + ([e4] + ([e5] + ([e6] + []))));
    RunOne(Step(Step(t, e1), e2), e3, [e4] + ([e5] + ([e6] + [])));
    RunOne(Step(Step(Step(t, e1), e2), e3), e4, [e5] + ([e6] + []));
    RunOne(Step(Step(Step(Step(t, e1), e2), e3), e4), e5, [e6] + []);
    RunOne(Step(Step(Step(Step(Step(t, e1), e2), e3), e4), e5), e6, []);
  }

  // A superseded request

  /** A request that was made and is pending no more. */
  ghost predicate Gone(t: Tab, id: nat) {
    id < t.requests && (t.pending.Some? ==> t.pending.value.id != id)
  }

  lemma {:induction false} SupersededStays(t: Tab, events: seq<Event>, id: nat)
    requires InHistory(t) && Gone(t, id)
    ensures Gone(Run(t, events), id)
    decreases |events|
  {
    if events != [] {
      SupersededStep(t, events[0], id);
      SupersededStays(Step(t, events[0]), events[1..], id);
    }
  }

  lemma SupersededStep(t: Tab, event: Event, id: nat)
    requires InHistory(t) && Gone(t, id)
    ensures Gone(Step(t, event), id)
  {
    match event
    case Answer(other, granted) => GoneAnswered(t, other, granted, id);
    case Visit(hash, push) =>
      if push {
        GoneChanged(t.(slots := t.slots[..t.position + 1] + [Slot(hash, None)], position := t.position + 1), id);
      } else {
        GoneChanged(t.(slots := t.slots[t.position := Slot(hash, None)]), id);
      }
    case Traverse(delta) => GoneMoved(t, delta, id);
    case Land => if t.traversals != [] { GoneMoved(t.(traversals := t.traversals[1..]), t.traversals[0], id); }
    case _ =>
  }

  lemma GoneChanged(t: Tab, id: nat)
    requires InHistory(t) && Gone(t, id)
    ensures Gone(Changed(t), id)
  {
  }

  lemma GoneMoved(t: Tab, delta: int, id: nat)
    requires InHistory(t) && Gone(t, id)
    ensures Gone(Moved(t, delta), id)
  {
    if 0 <= t.position + delta < |t.slots| { GoneChanged(t.(position := t.position + delta), id); }
  }

  lemma GoneAnswered(t: Tab, other: nat, granted: Option<string>, id: nat)
    requires InHistory(t) && Gone(t, id)
    ensures Gone(Answered(t, other, granted), id)
  {
  }

  /** Once another navigation replaced it, a request's answer changes nothing, whenever it comes. */
  lemma {:induction false} SupersededNeverTakesEffect(t: Tab, external: bool, events: seq<Event>, id: nat,
                                                      granted: Option<string>)
    requires InHistory(t) && t.pending.Some? && t.pending.value.id == id < t.requests
    ensures var w := Run(Requested(t, external), events);
      Step(w, Answer(id, granted)) == w
  {
    SupersededStays(Requested(t, external), events, id);
  }

  // Distances

  predicate Owned(t: Tab, p: int) {
    0 <= p < |t.slots| && t.slots[p].mark.Some? && t.slots[p].mark.value.owner == t.owner
  }

  function IndexAt(t: Tab, p: int): int
    requires Owned(t, p)
  {
    t.slots[p].mark.value.index
  }

  /** Differences between this epoch's indices are distances in the stack, and its markers hold. */
  ghost predicate Aligned(t: Tab) {
    && InHistory(t)
    && (forall p :: 0 <= p < |t.slots| && t.slots[p].mark.Some? ==> t.slots[p].mark.value.owner <= t.owner)
    && (forall p, q :: Owned(t, p) && Owned(t, q) ==> IndexAt(t, q) - IndexAt(t, p) == q - p)
    && (forall p :: Owned(t, p) ==> IndexAt(t, p) in t.known && t.known[IndexAt(t, p)] == t.slots[p].hash)
  }

  /** The index is as far from every other marked slot's as the position is. */
  ghost predicate Fits(t: Tab, index: int, position: int) {
    forall q :: Owned(t, q) && q != position ==> index - IndexAt(t, q) == position - q
  }

  /** What a caller of `replace` can see: the current entry is the accepted one, or nothing was written yet. */
  predicate InPlace(t: Tab, event: Event)
    requires InHistory(t)
  {
    event.Replace? ==> Marker(t) == Some(t.accepted.index) || t.known == map[]
  }

  ghost predicate AllInPlace(t: Tab, events: seq<Event>)
    requires InHistory(t)
    decreases |events|
  {
    events == [] || (InPlace(t, events[0]) && AllInPlace(Step(t, events[0]), events[1..]))
  }

  lemma EpochAligns(t: Tab)
    requires Aligned(t)
    ensures Aligned(NewEpoch(t)) && forall p :: !Owned(NewEpoch(t), p)
  {
  }

  /** Writing keeps alignment exactly when the index fits where it is written. */
  lemma WrittenAligns(t: Tab, hash: string, index: int, push: bool)
    requires Aligned(t)
    requires push ==> forall q :: Owned(t, q) && q <= t.position ==> index - IndexAt(t, q) == t.position + 1 - q
    requires !push ==> Fits(t, index, t.position)
    ensures Aligned(Written(t, hash, index, push))
  {
    var w := Written(t, hash, index, push);
    forall p | Owned(w, p) && p != w.position
      ensures Owned(t, p) && IndexAt(t, p) == IndexAt(w, p) == index + p - w.position
    {
      assert Owned(t, p) && IndexAt(t, p) == IndexAt(w, p);
    }
  }

  lemma ReplaceFits(t: Tab, hash: string)
    requires Aligned(t)
    ensures Aligned(Step(t, Replace(hash))) <==> Fits(t, t.accepted.index, t.position)
  {
    var w := Step(t, Replace(hash));
    if Fits(t, t.accepted.index, t.position) { WrittenAligns(t, hash, t.accepted.index, false); }
    if Aligned(w) {
      assert Owned(w, t.position) && IndexAt(w, t.position) == t.accepted.index;
      forall q | Owned(t, q) && q != t.position
        ensures t.accepted.index - IndexAt(t, q) == t.position - q
      {
        assert Owned(w, q) && IndexAt(w, q) == IndexAt(t, q);
      }
    }
  }

  /** At a marked entry `replace` keeps alignment exactly when it is the accepted one, or the only one. */
  lemma ReplaceAlignsExactly(t: Tab, hash: string)
    requires Aligned(t) && Marker(t).Some?
    ensures Aligned(Step(t, Replace(hash)))
      <==> (Marker(t).value == t.accepted.index || forall q :: Owned(t, q) ==> q == t.position)
  {
    ReplaceFits(t, hash);
    OwnIndexFits(t);
  }

  /** At an unmarked entry: always when no entry is marked, else exactly when the accepted index belongs there. */
  lemma UnmarkedReplaceAlignsExactly(t: Tab, hash: string, q: int)
    requires Aligned(t) && Marker(t).None?
    ensures (forall p :: !Owned(t, p)) ==> Aligned(Step(t, Replace(hash)))
    ensures Owned(t, q) ==>
      && q != t.position
      && (Aligned(Step(t, Replace(hash))) <==> t.position == q + t.accepted.index - IndexAt(t, q))
  {
    ReplaceFits(t, hash);
  }

  /** The current slot's own index fits there, and its successor fits a pushed slot. */
  lemma OwnIndexFits(t: Tab)
    requires Aligned(t) && Marker(t).Some?
    ensures Fits(t, Marker(t).value, t.position)
    ensures forall q :: Owned(t, q) && q <= t.position ==>
      Marker(t).value + 1 - IndexAt(t, q) == t.position + 1 - q
  {
    assert Owned(t, t.position) && IndexAt(t, t.position) == Marker(t).value;
  }

  lemma RestoredAligns(t: Tab)
    requires Aligned(t)
    ensures Aligned(Restored(t))
  {
    var current := Marker(t);
    if current.None? {
      EpochAligns(t);
      WrittenAligns(NewEpoch(t), t.accepted.hash, 0, false);
    } else if current.value == t.accepted.index {
      OwnIndexFits(t);
      WrittenAligns(t, t.accepted.hash, t.accepted.index, false);
    }
  }

  lemma PushedAligns(t: Tab, hash: string)
    requires Aligned(t)
    ensures Aligned(Pushed(t, hash))
  {
    var current := Marker(t);
    if current.None? {
      EpochAligns(t);
      WrittenAligns(NewEpoch(t), hash, 1, true);
    } else {
      OwnIndexFits(t);
      WrittenAligns(t, hash, current.value + 1, true);
    }
  }

  lemma GrantedAligns(t: Tab, hash: string)
    requires Aligned(t)
    ensures var current := Marker(t);
      Aligned(Written(if current.None? then NewEpoch(t) else t, hash,
                      if current.Some? then current.value else 0, false))
  {
    if Marker(t).None? {
      EpochAligns(t);
      WrittenAligns(NewEpoch(t), hash, 0, false);
    } else {
      OwnIndexFits(t);
      WrittenAligns(t, hash, Marker(t).value, false);
    }
  }

  lemma AnsweredAligns(t: Tab, id: nat, granted: Option<string>)
    requires Aligned(t)
    ensures Aligned(Answered(t, id, granted))
  {
    if !t.disposed && t.pending.Some? && t.pending.value.id == id {
      var u := t.(pending := None);
      if granted.Some? {
        AcceptedAligns(t, granted.value);
      } else {
        RestoredAligns(u);
      }
    }
  }

  lemma AcceptedAligns(t: Tab, hash: string)
    requires Aligned(t) && !t.disposed && t.pending.Some?
    ensures Aligned(Answered(t, t.pending.value.id, Some(hash)))
  {
    var u := t.(pending := None);
    HandlingAligns(t, u);
    RestoredAligns(u);
    PushedAligns(u, hash);
    GrantedAligns(u, hash);
  }

  lemma StepAligns(t: Tab, event: Event)
    requires Aligned(t) && InPlace(t, event)
    ensures Aligned(Step(t, event))
  {
    match event
    case Answer(id, granted) => AnsweredAligns(t, id, granted);
    case Push(hash) => PushedAligns(t, hash);
    case Replace(hash) => if Marker(t).Some? { ReplaceAlignsExactly(t, hash); } else { ReplaceFits(t, hash); }
    case Reset(hash) =>
      var u := t.(pending := None, compensation := None);
      EpochAligns(u);
      WrittenAligns(NewEpoch(u), hash, 0, false);
    case Visit(hash, push) => VisitStepAligns(t, hash, push);
    case Traverse(delta) => MovedAligns(t, t.traversals, delta);
    case Land => if t.traversals != [] { MovedAligns(t, t.traversals[1..], t.traversals[0]); }
    case _ =>
  }

  lemma MovedAligns(t: Tab, traversals: seq<int>, delta: int)
    requires Aligned(t)
    ensures Aligned(Moved(t.(traversals := traversals), delta))
  {
    var w := Moved(t.(traversals := traversals), delta);
    assert w.slots == t.slots && w.owner == t.owner && w.known == t.known;
    HandlingAligns(t, w);
  }

  lemma VisitStepAligns(t: Tab, hash: string, push: bool)
    requires Aligned(t)
    ensures Aligned(Step(t, Visit(hash, push)))
  {
    if push { VisitPushAligns(t, hash); } else { VisitReplaceAligns(t, hash); }
  }

  lemma VisitPushAligns(t: Tab, hash: string)
    requires Aligned(t)
    ensures Aligned(Step(t, Visit(hash, true)))
  {
    var u := t.(slots := t.slots[..t.position + 1] + [Slot(hash, None)], position := t.position + 1);
    VisitAligns(t, u);
    assert Step(t, Visit(hash, true)) == Changed(u);
  }

  lemma VisitReplaceAligns(t: Tab, hash: string)
    requires Aligned(t)
    ensures Aligned(Step(t, Visit(hash, false)))
  {
    var u := t.(slots := t.slots[t.position := Slot(hash, None)]);
    VisitAligns(t, u);
    assert Step(t, Visit(hash, false)) == Changed(u);
  }

  /** Unmarked entries and other positions change nothing, nor does handling the change. */
  lemma VisitAligns(t: Tab, u: Tab)
    requires Aligned(t) && InHistory(u)
    requires u.owner == t.owner && u.known == t.known
    requires forall p :: 0 <= p < |u.slots| && u.slots[p].mark.Some? ==> p < |t.slots| && u.slots[p] == t.slots[p]
    ensures Aligned(Changed(u))
  {
    forall p | Owned(u, p) ensures Owned(t, p) && IndexAt(u, p) == IndexAt(t, p) {
    }
    assert Aligned(u);
    HandlingAligns(u, Changed(u));
  }

  lemma HandlingAligns(u: Tab, w: Tab)
    requires Aligned(u)
    requires w.slots == u.slots && InHistory(w) && w.owner == u.owner && w.known == u.known
    ensures Aligned(w)
  {
    assert forall p :: Owned(w, p) ==> Owned(u, p) && IndexAt(w, p) == IndexAt(u, p);
  }

  /** Whatever else happens, runs that replace only the accepted entry keep index differences equal to distances. */
  lemma {:induction false} DistancesHold(t: Tab, events: seq<Event>)
    requires Aligned(t) && AllInPlace(t, events)
    ensures Aligned(Run(t, events))
    decreases |events|
  {
    if events != [] {
      StepAligns(t, events[0]);
      DistancesHold(Step(t, events[0]), events[1..]);
    }
  }

  const LEAVE_FOR_THE_FIRST := [Replace("#a"), Push("#b"), Push("#a"), Traverse(-2), Navigate, Answer(1, None)]

  function Hidden(t: Tab): Tab {
    Tab([Marked(t, "#a", 0), Marked(t, "#b", 1), Marked(t, "#a", 2)], 0, [], t.owner,
        map[0 := "#a", 1 := "#b", 2 := "#a"], Place("#a", 2), Some(Key(Some(0), "#a")), false, None, 2, None)
  }

  lemma ThreeVisited(t: Tab)
    requires Created(t) && t.slots == [Slot("#a", None)] && t.requests == 0 && t.traversals == []
    ensures Step(Step(Step(t, Replace("#a")), Push("#b")), Push("#a"))
         == Hidden(t).(position := 2, observed := Some(Key(Some(2), "#a")), requests := 0)
  {
    TwoVisited(t);
    var t3 := Step(Step(Step(t, Replace("#a")), Push("#b")), Push("#a"));
    assert t3.slots == [Marked(t, "#a", 0), Marked(t, "#b", 1), Marked(t, "#a", 2)];
    assert t3.known == map[0 := "#a", 1 := "#b", 2 := "#a"];
  }

  lemma HiddenFromThree(t: Tab)
    ensures var t3 := Hidden(t).(position := 2, observed := Some(Key(Some(2), "#a")), requests := 0);
      Step(Step(Step(t3, Traverse(-2)), Navigate), Answer(1, None)) == Hidden(t)
  {
    var t3 := Hidden(t).(position := 2, observed := Some(Key(Some(2), "#a")), requests := 0);
    var t4 := t3.(position := 0, observed := Some(Key(Some(0), "#a")), pending := Some(Request(0, true)), requests := 1);
    assert Step(t3, Traverse(-2)) == t4;
    assert Step(t4, Navigate) == t4.(pending := Some(Request(1, false)), requests := 2);
  }

  lemma {:induction false} FirstEntryHidden(t: Tab)
    requires Created(t) && t.slots == [Slot("#a", None)] && t.requests == 0 && t.traversals == []
    ensures Run(t, LEAVE_FOR_THE_FIRST) == Hidden(t)
  {
    ThreeVisited(t);
    HiddenFromThree(t);
    RunSix(t, Replace("#a"), Push("#b"), Push("#a"), Traverse(-2), Navigate, Answer(1, None));
  }

  lemma HiddenIsOutOfPlace(t: Tab)
    ensures var before := Hidden(t);
      && Settled(before) && Aligned(before) && Marker(before) == Some(0) && before.accepted.index == 2
      && !Aligned(Step(before, Replace("#e")))
  {
    var before := Hidden(t);
    assert Owned(before, 1) && IndexAt(before, 1) == 1;
    var after := Step(before, Replace("#e"));
    assert Owned(after, 0) && IndexAt(after, 0) == 2 && Owned(after, 1) && IndexAt(after, 1) == 1;
  }

  /**
   Replacing merely when settled is not enough. The last address of a, b, a is left for the first
   one, which the same hash hides, when another navigation supersedes the request; the replacement
   then gives the first entry the index of the last.
   */
  lemma {:induction false} SettledReplaceBreaksDistances(t: Tab)
    requires Created(t) && t.slots == [Slot("#a", None)] && t.requests == 0 && t.traversals == []
    ensures var before := Run(t, LEAVE_FOR_THE_FIRST);
      && Settled(before) && Aligned(before) && Marker(before) == Some(0) && before.accepted.index == 2
      && !Aligned(Step(before, Replace("#e")))
  {
    FirstEntryHidden(t);
    HiddenIsOutOfPlace(t);
  }

  predicate AcceptedAt(t: Tab, p: int) {
    Owned(t, p) && IndexAt(t, p) == t.accepted.index && t.slots[p].hash == t.accepted.hash
  }

  /** The slot of the last accepted place is still in the stack. */
  ghost predicate AcceptedLives(t: Tab) {
    exists p :: AcceptedAt(t, p)
  }

  /**
   Where a compensating traversal lands. From an aligned tab it settles on the accepted slot, absent
   other navigation, exactly when that slot still is in the stack; when it is not, the traversal
   leaves the compensation outstanding or asks for another request.
   */
  lemma CompensationLands(t: Tab)
    requires Aligned(t) && Tracked(t) && !t.disposed && t.pending.None? && t.traversals == []
    requires Marker(t).Some? && Marker(t).value != t.accepted.index
    ensures var w := Step(Restored(t), Land);
      && (AcceptedLives(t) <==> Settled(w))
      && (Settled(w) ==> Hash(w) == t.accepted.hash && Marker(w) == Some(t.accepted.index))
  {
    var delta := t.accepted.index - Marker(t).value;
    var target := t.position + delta;
    var r := Restored(t);
    assert r.traversals == [delta];
    assert Owned(t, t.position) && IndexAt(t, t.position) == Marker(t).value;
    if AcceptedLives(t) {
      var p :| AcceptedAt(t, p);
      assert IndexAt(t, p) - IndexAt(t, t.position) == p - t.position;
      assert p == target;
    } else if 0 <= target < |t.slots| {
      var there := r.(traversals := [], position := target);
      assert Step(r, Land) == Changed(there);
      assert !AcceptedAt(t, target);
    }
  }

  /**
   From a new tab, in every run with guarded pushes and replacements in place: index differences are
   stack distances, and a compensating traversal asked for now lands on the accepted entry exactly
   when that still is in the stack.
   */
  lemma {:induction false} EveryRunLands(t: Tab, events: seq<Event>)
    requires Created(t) && AllGuarded(t, events) && AllInPlace(t, events)
    ensures var s := Run(t, events);
      && Aligned(s)
      && (!s.disposed && s.pending.None? && s.traversals == []
          && Marker(s).Some? && Marker(s).value != s.accepted.index ==>
            var w := Step(Restored(s), Land);
            && (AcceptedLives(s) <==> Settled(w))
            && (Settled(w) ==> Hash(w) == s.accepted.hash && Marker(w) == Some(s.accepted.index)))
  {
    HistorySettles(t, events);
    DistancesHold(t, events);
    var s := Run(t, events);
    if !s.disposed && s.pending.None? && s.traversals == []
       && Marker(s).Some? && Marker(s).value != s.accepted.index {
      CompensationLands(s);
    }
  }

  const DROP_THE_ACCEPTED := [Replace("#a"), Push("#b"), Traverse(-1), Visit("#c", true), Traverse(-1), Answer(2, None)]

  /** The tab in which b/1 is still accepted, though a link from a has dropped it. */
  function Dropped(t: Tab): Tab {
    Tab([Marked(t, "#a", 0), Slot("#c", None)], 0, [], t.owner, map[0 := "#a", 1 := "#b"],
        Place("#b", 1), Some(Key(Some(0), "#a")), false, None, 3, None)
  }

  lemma LinkFollowed(t: Tab)
    ensures Step(Step(BackAtFirst(t), Visit("#c", true)), Traverse(-1)) == Dropped(t).(pending := Some(Request(2, true)))
  {
    var u := BackAtFirst(t);
    var v := Dropped(t).(position := 1, observed := Some(Key(None, "#c")), pending := Some(Request(1, true)), requests := 2);
    assert u.slots[..1] + [Slot("#c", None)] == v.slots;
    assert Step(u, Visit("#c", true)) == v;
  }

  lemma DroppedRefused(t: Tab)
    ensures Step(Dropped(t).(pending := Some(Request(2, true))), Answer(2, None)) == Restored(Dropped(t))
  {
  }

  lemma {:induction false} AcceptedDropped(t: Tab)
    requires Created(t) && t.slots == [Slot("#a", None)] && t.requests == 0 && t.traversals == []
    ensures Run(t, DROP_THE_ACCEPTED) == Restored(Dropped(t))
  {
    WentBack(t);
    LinkFollowed(t);
    DroppedRefused(t);
    RunSix(t, Replace("#a"), Push("#b"), Traverse(-1), Visit("#c", true), Traverse(-1), Answer(2, None));
  }

  lemma DroppedMisses(t: Tab)
    ensures var r := Restored(Dropped(t));
      var w := Step(r, Land);
      && r.compensation == Some(Place("#b", 1)) && !AcceptedLives(r)
      && !Settled(w) && Hash(w) == "#c" && w.pending.Some?
  {
    var r := Restored(Dropped(t));
    assert r == Dropped(t).(compensation := Some(Place("#b", 1)), traversals := [1]);
    assert forall p :: !AcceptedAt(r, p);
  }

  /**
   A run in which a compensating traversal misses: go back from b to a, follow a link to c, which
   drops b, go back again and have that refused. The traversal meant for b lands on c, and the
   adapter asks for another request.
   */
  lemma {:induction false} CompensationMisses(t: Tab)
    requires Created(t) && t.slots == [Slot("#a", None)] && t.requests == 0 && t.traversals == []
    ensures var before := Run(t, DROP_THE_ACCEPTED);
      var w := Run(t, DROP_THE_ACCEPTED + [Land]);
      && before.compensation == Some(Place("#b", 1)) && !AcceptedLives(before)
      && !Settled(w) && Hash(w) == "#c" && w.pending.Some?
  {
    AcceptedDropped(t);
    DroppedMisses(t);
    RunConcat(t, DROP_THE_ACCEPTED, [Land]);
    OneStep(Restored(Dropped(t)), Land);
  }
}
