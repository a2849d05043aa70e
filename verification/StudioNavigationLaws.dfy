/**
 What each event of a tab brings about: which entry a granted or refused navigation leaves, where it
 stands, which marker it carries, and which changes of the browser start a request of their own.
 */
module StudioNavigationLaws {
  import opened Wrappers
  import opened StudioNavigation

  // Reading a tab

  /** The current entry carries this index of the adapter's, for the address recorded under it. */
  ghost predicate Marked(t: Tab, index: int)
    requires InHistory(t)
  {
    && t.slots[t.position].mark == Some(Mark(t.owner, index))
    && index in t.known && t.known[index] == t.slots[t.position].hash
  }

  /** The index the current entry carries, if any. */
  ghost predicate Stands(t: Tab, index: Option<int>)
    requires InHistory(t)
  {
    if index.Some? then Marked(t, index.value) else forall i :: !Marked(t, i)
  }

  lemma MarkerIs(t: Tab, index: Option<int>)
    requires InHistory(t) && Stands(t, index)
    ensures Marker(t) == index
  {
    if Marker(t).Some? { assert Marked(t, Marker(t).value); }
  }

  /** The current entry is the accepted place, on record, marked and observed. */
  ghost predicate Shown(t: Tab, hash: string, index: int)
    requires InHistory(t)
  {
    && t.slots[t.position] == StudioNavigation.Slot(hash, Some(Mark(t.owner, index)))
    && t.accepted == StudioNavigation.Place(hash, index)
    && index in t.known && t.known[index] == hash
    && t.observed == Some(Key(Some(index), hash))
  }

  /** What the tab recorded stays, unless the entry left carried no index: then a new owner starts over. */
  ghost predicate Records(t: Tab, from: Option<int>, w: Tab) {
    && (from.Some? ==>
          && w.owner == t.owner
          && forall i :: i != w.accepted.index ==>
               (i in w.known <==> i in t.known) && (i in t.known ==> w.known[i] == t.known[i]))
    && (from.None? ==> w.owner == t.owner + 1 && w.known.Keys == {w.accepted.index})
  }

  /** The current entry is rewritten and the stack otherwise left alone. */
  ghost predicate InPlace(t: Tab, w: Tab)
    requires InHistory(t)
  {
    && w.position == t.position && |w.slots| == |t.slots|
    && forall q :: 0 <= q < |t.slots| && q != t.position ==> w.slots[q] == t.slots[q]
  }

  /** One entry follows the one that was current, and nothing follows it. */
  ghost predicate Behind(t: Tab, w: Tab)
    requires InHistory(t)
  {
    w.position == t.position + 1 && |w.slots| == t.position + 2 && w.slots[..t.position + 1] == t.slots[..t.position + 1]
  }

  /** The adapter's doings outside the stack and its records. */
  ghost predicate Undisturbed(t: Tab, w: Tab) {
    && w.traversals == t.traversals && w.disposed == t.disposed && w.requests == t.requests
    && w.compensation == t.compensation
  }

  ghost predicate Awaits(t: Tab, id: nat, external: bool) {
    !t.disposed && t.pending == Some(Request(id, external))
  }

  // Navigations

  /** A granted request that the browser started rewrites the entry the browser is at. */
  lemma GrantedChange(t: Tab, id: nat, hash: string, from: Option<int>)
    requires InHistory(t) && Awaits(t, id, true) && Stands(t, from)
    ensures var w := Step(t, Answer(id, Some(hash)));
      && Shown(w, hash, if from.Some? then from.value else 0)
      && InPlace(t, w) && Records(t, from, w) && Undisturbed(t, w) && w.pending.None?
  {
    MarkerIs(t, from);
  }

  /** A granted navigation to another address is pushed behind the current entry, one index further. */
  lemma GrantedNavigation(t: Tab, id: nat, hash: string, from: Option<int>)
    requires InHistory(t) && Awaits(t, id, false) && hash != t.accepted.hash && Stands(t, from)
    ensures var w := Step(t, Answer(id, Some(hash)));
      && Shown(w, hash, if from.Some? then from.value + 1 else 1)
      && Behind(t, w) && Records(t, from, w) && Undisturbed(t, w) && w.pending.None?
  {
    MarkerIs(t, from);
  }

  /** What leads back to the accepted place: a traversal where the way is known, else the entry is rewritten. */
  ghost predicate LeadsBack(t: Tab, from: Option<int>, w: Tab)
    requires InHistory(t)
  {
    && w.accepted.hash == t.accepted.hash && w.pending.None?
    && if from.Some? && from.value != t.accepted.index
       then w == t.(pending := None, compensation := Some(t.accepted),
                    traversals := t.traversals + [t.accepted.index - from.value])
       else
         && InHistory(w) && Shown(w, t.accepted.hash, if from.Some? then t.accepted.index else 0)
         && InPlace(t, w) && Records(t, from, w) && Undisturbed(t, w)
  }

  /** A navigation granted to where the tab already is: nothing, or the way back if the address has left. */
  lemma GrantedHere(t: Tab, id: nat, from: Option<int>)
    requires InHistory(t) && Awaits(t, id, false) && Stands(t, from)
    ensures var w := Step(t, Answer(id, Some(t.accepted.hash)));
      if t.slots[t.position].hash == t.accepted.hash then w == t.(pending := None) else LeadsBack(t, from, w)
  {
    MarkerIs(t, from);
  }

  /** A refused request leaves the accepted address as it was and leads back to it where the browser has left it. */
  lemma RefusedLeadsBack(t: Tab, id: nat, external: bool, from: Option<int>)
    requires InHistory(t) && Awaits(t, id, external) && Stands(t, from)
    ensures var w := Step(t, Answer(id, None));
      if !external && t.slots[t.position].hash == t.accepted.hash then w == t.(pending := None)
      else LeadsBack(t, from, w)
  {
    MarkerIs(t, from);
  }

  /** In every case a granted address is the accepted one afterwards, and a refused one is not. */
  lemma AnswerDecides(t: Tab, id: nat, external: bool, granted: Option<string>)
    requires InHistory(t) && Awaits(t, id, external)
    ensures var w := Step(t, Answer(id, granted));
      w.pending.None? && w.accepted.hash == if granted.Some? then granted.value else t.accepted.hash
  {
    var from := Marker(t);
    assert Stands(t, from);
    if granted.None? {
      RefusedLeadsBack(t, id, external, from);
    } else if external {
      GrantedChange(t, id, granted.value, from);
    } else if granted.value != t.accepted.hash {
      GrantedNavigation(t, id, granted.value, from);
    } else {
      GrantedHere(t, id, from);
    }
  }

  /** A navigation asks for permission, in place of what was asked before, unless the tab is on its way back. */
  lemma NavigateAsks(t: Tab)
    requires InHistory(t)
    ensures var w := Step(t, Navigate);
      if t.compensation.Some? then w == t
      else w == t.(pending := Some(Request(t.requests, false)), requests := t.requests + 1)
  {
  }

  /** From request to entry: a navigation that is granted undisturbed takes effect. */
  lemma {:induction false} NavigationTakesEffect(t: Tab, hash: string)
    requires InHistory(t) && !t.disposed && t.compensation.None?
    ensures var w := Run(t, [Navigate, Answer(t.requests, Some(hash))]);
      && w.accepted.hash == hash && w.pending.None?
      && (hash != t.accepted.hash ==> Hash(w) == hash && Behind(t, w))
      && (hash == t.accepted.hash && Hash(t) == hash ==> w.slots == t.slots && w.position == t.position)
  {
    var asked := Step(t, Navigate);
    NavigateAsks(t);
    var answer := Answer(t.requests, Some(hash));
    assert [Navigate, answer][1..] == [answer];
    assert Run(asked, [answer]) == Run(Step(asked, answer), [answer][1..]);
    assert Run(t, [Navigate, answer]) == Step(asked, answer);
    var from := Marker(asked);
    assert Stands(asked, from);
    AnswerDecides(asked, t.requests, false, Some(hash));
    if hash != t.accepted.hash {
      GrantedNavigation(asked, t.requests, hash, from);
    } else {
      GrantedHere(asked, t.requests, from);
    }
  }

  // Calls that ask nobody

  lemma ReplaceRewrites(t: Tab, hash: string)
    requires InHistory(t)
    ensures var w := Step(t, Replace(hash));
      && Shown(w, hash, t.accepted.index) && InPlace(t, w) && Records(t, Some(t.accepted.index), w)
      && Undisturbed(t, w) && w.pending == t.pending
  {
  }

  lemma PushAppends(t: Tab, hash: string, from: Option<int>)
    requires InHistory(t) && Stands(t, from)
    ensures var w := Step(t, Push(hash));
      if hash == t.accepted.hash then w == t
      else
        && Shown(w, hash, if from.Some? then from.value + 1 else 1) && Behind(t, w) && Records(t, from, w)
        && Undisturbed(t, w) && w.pending == t.pending
  {
    MarkerIs(t, from);
  }

  lemma ResetStartsOver(t: Tab, hash: string)
    requires InHistory(t)
    ensures var w := Step(t, Reset(hash));
      && Shown(w, hash, 0) && InPlace(t, w) && Records(t, None, w)
      && Undisturbed(t.(compensation := None), w) && w.pending.None?
  {
  }

  lemma DisposeStops(t: Tab)
    requires InHistory(t)
    ensures Step(t, Dispose) == t.(disposed := true, pending := None)
  {
  }

  // Changes of the browser

  /** The browser has moved on to another stack or position; the adapter has not looked yet. */
  ghost predicate Browsed(t: Tab, u: Tab) {
    InHistory(u) && u == t.(slots := u.slots, position := u.position, traversals := u.traversals)
  }

  /** The outstanding compensation leads to just this entry. */
  ghost predicate Arrived(u: Tab)
    requires InHistory(u)
  {
    && u.compensation.Some? && Marked(u, u.compensation.value.index)
    && u.slots[u.position].hash == u.compensation.value.hash
  }

  /**
   What the adapter makes of a change: nothing once disposed or where it has looked before; the end of
   a compensation that arrived; otherwise a request of its own, in place of any other.
   */
  ghost predicate Noticed(u: Tab, at: Option<int>, w: Tab)
    requires InHistory(u)
  {
    var key := Key(at, u.slots[u.position].hash);
    if u.disposed || u.observed == Some(key) then w == u
    else if Arrived(u) then w == u.(observed := Some(key), compensation := None)
    else w == u.(observed := Some(key), compensation := None,
                 pending := Some(Request(u.requests, true)), requests := u.requests + 1)
  }

  /** A traversal within the stack moves there and is noticed; one beyond it does nothing. */
  lemma TraverseNoticed(t: Tab, delta: int, at: Option<int>)
    requires InHistory(t)
    requires var p := t.position + delta; 0 <= p < |t.slots| ==> Stands(t.(position := p), at)
    ensures var w, p := Step(t, Traverse(delta)), t.position + delta;
      if delta == 0 || p < 0 || p >= |t.slots| then w == t else Noticed(t.(position := p), at, w)
  {
    var p := t.position + delta;
    if 0 <= p < |t.slots| { MarkerIs(t.(position := p), at); }
  }

  /** The traversals asked for take effect one by one, oldest first. */
  lemma LandIsTraverse(t: Tab)
    requires InHistory(t)
    ensures Step(t, Land)
         == if t.traversals == [] then t
            else Step(t.(traversals := t.traversals[1..]), Traverse(t.traversals[0]))
  {
  }

  /** A link or an edited address makes an entry that carries no index, and is noticed. */
  lemma VisitNoticed(t: Tab, hash: string, push: bool) returns (u: Tab)
    requires InHistory(t)
    ensures Browsed(t, u) && u.traversals == t.traversals
    ensures u.slots[u.position] == StudioNavigation.Slot(hash, None)
    ensures if push then Behind(t, u) else InPlace(t, u)
    ensures Noticed(u, None, Step(t, Visit(hash, push)))
  {
    var slot := StudioNavigation.Slot(hash, None);
    u := if push then t.(slots := t.slots[..t.position + 1] + [slot], position := t.position + 1)
         else t.(slots := t.slots[t.position := slot]);
    assert Stands(u, None);
    MarkerIs(u, None);
  }
}
