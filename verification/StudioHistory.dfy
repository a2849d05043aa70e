/** The history adapter as it runs: a closure over mutable state, driving a browser. */
module StudioHistory {
  import opened Wrappers
  import opened StudioNavigation

  /** One tab's session history. `Go` only queues its traversal. */
  class Browser {
    var slots: seq<Slot>
    var position: nat
    var traversals: seq<int>

    ghost predicate Valid()
      reads this
    {
      position < |slots|
    }

    constructor (hash: string)
      ensures Valid() && slots == [Slot(hash, None)] && position == 0 && traversals == []
    {
      slots, position, traversals := [Slot(hash, None)], 0, [];
    }

    method PushState(slot: Slot)
      requires Valid()
      modifies this
      ensures Valid() && traversals == old(traversals)
      ensures slots == old(slots)[..old(position) + 1] + [slot] && position == old(position) + 1
    {
      slots := slots[..position + 1] + [slot];
      position := position + 1;
    }

    method ReplaceState(slot: Slot)
      requires Valid()
      modifies this`slots
      ensures slots == old(slots)[position := slot]
    {
      slots := slots[position := slot];
    }

    method Go(delta: int)
      modifies this`traversals
      ensures traversals == old(traversals) + [delta]
    {
      traversals := traversals + [delta];
    }

    /** A jump by the user, or a queued traversal taking effect; out of range it does nothing. */
    method Jump(delta: int) returns (moved: bool)
      requires Valid()
      modifies this`position
      ensures moved <==> 0 <= old(position) + delta < |slots| && delta != 0
      ensures position == if moved then old(position) + delta else old(position)
    {
      moved := 0 <= position + delta < |slots| && delta != 0;
      if moved { position := position + delta; }
    }

    method TakeTraversal() returns (delta: int)
      requires traversals != []
      modifies this`traversals
      ensures delta == old(traversals)[0] && traversals == old(traversals)[1..]
    {
      delta := traversals[0];
      traversals := traversals[1..];
    }
  }

  class StudioHistory {
    const browser: Browser
    var owner: nat
    var known: map<int, string>
    var accepted: Place
    var observed: Option<Key>
    var disposed: bool
    var pending: Option<Request>
    var requests: nat
    var compensation: Option<Place>

    function State(): Tab
      reads this, browser
    {
      Tab(browser.slots, browser.position, browser.traversals,
          owner, known, accepted, observed, disposed, pending, requests, compensation)
    }

    /** The invariant of every guarded run: whenever the adapter is settled it shows what it accepted. */
    ghost predicate Valid()
      reads this, browser
    {
      browser.Valid() && SettlesOk(State())
    }

    constructor (browser: Browser, owner: nat)
      requires browser.Valid()
      requires forall p :: 0 <= p < |browser.slots| && browser.slots[p].mark.Some? ==>
        browser.slots[p].mark.value.owner < owner
      ensures Valid() && this.browser == browser && Created(State())
    {
      this.browser, this.owner, known := browser, owner, map[];
      accepted, observed, disposed := Place(browser.slots[browser.position].hash, 0), None, false;
      pending, requests, compensation := None, 0, None;
    }

    method ReadMarker() returns (index: Option<int>)
      requires browser.Valid()
      ensures index == Marker(State())
    {
      var current := browser.slots[browser.position];
      index := None;
      if current.mark.Some? {
        var mark := current.mark.value;
        if mark.owner == owner && mark.index in known && known[mark.index] == current.hash {
          index := Some(mark.index);
        }
      }
    }

    method ReadKey() returns (key: Key)
      requires browser.Valid()
      ensures key == CurrentKey(State())
    {
      var index := ReadMarker();
      key := Key(index, browser.slots[browser.position].hash);
    }

    method StartEpoch()
      modifies this
      ensures State() == NewEpoch(old(State()))
    {
      owner := owner + 1;
      known := map[];
      accepted := accepted.(index := 0);
    }

    method Write(hash: string, index: int, push: bool)
      requires browser.Valid()
      modifies this, browser
      ensures browser.Valid() && State() == Written(old(State()), hash, index, push)
    {
      var slot := Slot(hash, Some(Mark(owner, index)));
      if push { browser.PushState(slot); } else { browser.ReplaceState(slot); }
      known := known[index := hash];
      accepted := Place(hash, index);
      var key := ReadKey();
      observed := Some(key);
    }

    method Restore()
      requires browser.Valid()
      modifies this, browser
      ensures browser.Valid() && State() == Restored(old(State()))
    {
      var current := ReadMarker();
      if current.Some? && current.value != accepted.index {
        compensation := Some(accepted);
        browser.Go(accepted.index - current.value);
      } else {
        if current.None? { StartEpoch(); }
        Write(accepted.hash, accepted.index, false);
      }
    }

    method PushSlot(hash: string)
      requires browser.Valid()
      modifies this, browser
      ensures browser.Valid() && State() == Pushed(old(State()), hash)
    {
      var current := ReadMarker();
      if current.None? { StartEpoch(); }
      Write(hash, (if current.Some? then current.value else accepted.index) + 1, true);
    }

    /** A transition up to its request; a newer one aborts the pending one. */
    method BeginTransition(external: bool)
      modifies this
      ensures State() == Requested(old(State()), external)
    {
      pending := Some(Request(requests, external));
      requests := requests + 1;
    }

    /** The rest of the transition, after the request was granted or refused. */
    method FinishTransition(id: nat, granted: Option<string>)
      requires browser.Valid()
      modifies this, browser
      ensures browser.Valid() && State() == Answered(old(State()), id, granted)
    {
      if disposed || pending.None? || pending.value.id != id { return; }
      var external := pending.value.external;
      pending := None;
      var address := browser.slots[browser.position].hash;
      match granted {
        case None =>
          if external || address != accepted.hash { Restore(); }
        case Some(canonical) =>
          if external {
            var current := ReadMarker();
            if current.None? { StartEpoch(); }
            Write(canonical, if current.Some? then current.value else accepted.index, false);
          } else if canonical != accepted.hash {
            PushSlot(canonical);
          } else if address != accepted.hash {
            Restore();
          }
      }
    }

    method OnChange()
      requires browser.Valid()
      modifies this
      ensures browser.Valid() && State() == Changed(old(State()))
    {
      if disposed { return; }
      var currentKey := ReadKey();
      if observed == Some(currentKey) { return; }
      observed := Some(currentKey);
      if compensation.Some? && currentKey.index == Some(compensation.value.index)
         && currentKey.hash == compensation.value.hash {
        compensation := None;
        return;
      }
      compensation := None;
      BeginTransition(true);
    }

    method Replace(hash: string)
      requires browser.Valid()
      modifies this, browser
      ensures browser.Valid() && State() == Step(old(State()), Event.Replace(hash))
    {
      Write(hash, accepted.index, false);
    }

    method Push(hash: string)
      requires browser.Valid()
      modifies this, browser
      ensures browser.Valid() && State() == Step(old(State()), Event.Push(hash))
    {
      if hash != accepted.hash { PushSlot(hash); }
    }

    method Reset(hash: string)
      requires browser.Valid()
      modifies this, browser
      ensures browser.Valid() && State() == Step(old(State()), Event.Reset(hash))
    {
      pending := None;
      compensation := None;
      StartEpoch();
      Write(hash, 0, false);
    }

    method Navigate()
      requires browser.Valid()
      modifies this
      ensures browser.Valid() && State() == Step(old(State()), Event.Navigate)
    {
      if compensation.None? { BeginTransition(false); }
    }

    method Dispose()
      requires browser.Valid()
      modifies this
      ensures browser.Valid() && State() == Step(old(State()), Event.Dispose)
    {
      disposed := true;
      pending := None;
    }

    /** A jump of the user's and the adapter's handling of it, as one step. */
    method Traverse(delta: int)
      requires browser.Valid()
      modifies this, browser
      ensures browser.Valid() && State() == Moved(old(State()), delta)
    {
      var moved := browser.Jump(delta);
      if moved { OnChange(); }
    }

    /** The oldest traversal the adapter asked for takes effect. */
    method Land()
      requires browser.Valid()
      modifies this, browser
      ensures browser.Valid() && State() == Step(old(State()), Event.Land)
    {
      if browser.traversals != [] {
        var delta := browser.TakeTraversal();
        Traverse(delta);
      }
    }

    /** A followed link or an edited address, whose entry carries no marker. */
    method Visit(hash: string, push: bool)
      requires browser.Valid()
      modifies this, browser
      ensures browser.Valid() && State() == Step(old(State()), Event.Visit(hash, push))
    {
      if push { browser.PushState(Slot(hash, None)); } else { browser.ReplaceState(Slot(hash, None)); }
      OnChange();
    }

    /**
     Whatever happens next. Everything but an unguarded push keeps the invariant, and with it the
     promise that a settled adapter shows the address it accepted last.
     */
    method Happen(event: Event)
      requires Valid()
      modifies this, browser
      ensures browser.Valid() && State() == Step(old(State()), event)
      ensures old(Guarded(State(), event)) ==> Valid()
      ensures old(Guarded(State(), event)) && Settled(State()) ==> browser.slots[browser.position].hash == accepted.hash
    {
      ghost var before := State();
      if Guarded(before, event) { StepSettles(before, event); }
      match event {
        case Traverse(delta) => Traverse(delta);
        case Land => Land();
        case Visit(hash, push) => Visit(hash, push);
        case Answer(id, granted) => FinishTransition(id, granted);
        case Replace(hash) => Replace(hash);
        case Push(hash) => Push(hash);
        case Reset(hash) => Reset(hash);
        case Navigate => Navigate();
        case Dispose => Dispose();
      }
    }
  }
}
