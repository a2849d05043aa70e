/**
 The undo history of the composition editor. Snapshots are compared as the source compares
 them, by reference, so their type is left open; `has` is the search for a selected id in one.
 */
module CompositionHistory {
  import opened Wrappers

  datatype History<S> = History(past: seq<S>, present: S, future: seq<S>, selected: Option<string>)

  type Search<!S> = (S, string) -> bool

  /** JavaScript's `values.slice(-count)` for any integer count; `-0` is `0` and keeps everything. */
  function LastOf<T>(values: seq<T>, count: int): (kept: seq<T>)
    ensures count > 0 ==> kept == Newest(values, count)
    ensures count == 0 ==> kept == values
  {
    if count > 0 then Newest(values, count)
    else if -count <= |values| then values[-count..]
    else []
  }

  function Selection<S>(selected: Option<string>, nodes: S, has: Search<S>): Option<string> {
    if selected.Some? && selected.value != "" && has(nodes, selected.value) then selected else None
  }

  function Create<S>(nodes: S, selected: Option<string>): History<S> {
    History([], nodes, [], if selected == Some("") then None else selected)
  }

  function Commit<S(==)>(history: History<S>, nodes: S, selected: Option<string>, limit: int, has: Search<S>): History<S> {
    if nodes == history.present then history
    else History(LastOf(history.past + [history.present], limit), nodes, [],
                 Selection(if selected.Some? then selected else history.selected, nodes, has))
  }

  function Undo<S>(history: History<S>, has: Search<S>): History<S> {
    if history.past == [] then history
    else
      var last := |history.past| - 1;
      var previous := history.past[last];
      History(history.past[..last], previous, [history.present] + history.future, Selection(history.selected, previous, has))
  }

  function Redo<S>(history: History<S>, has: Search<S>): History<S> {
    if history.future == [] then history
    else
      var next := history.future[0];
      History(history.past + [history.present], next, history.future[1..], Selection(history.selected, next, has))
  }

  // Undo and redo walk a fixed timeline

  function Timeline<S>(history: History<S>): seq<S> {
    history.past + [history.present] + history.future
  }

  /** The three parts of a history, without the selection. */
  ghost predicate SameParts<S(!new)>(a: History<S>, b: History<S>) {
    a.past == b.past && a.present == b.present && a.future == b.future
  }

  /** A history's parts are its timeline and the cursor in it. */
  lemma CursorFixes<S(!new)>(a: History<S>, b: History<S>)
    ensures SameParts(a, b) <==> Timeline(a) == Timeline(b) && |a.past| == |b.past|
  {
    if Timeline(a) == Timeline(b) && |a.past| == |b.past| {
      var k := |a.past|;
      assert a.past == Timeline(a)[..k] && b.past == Timeline(b)[..k];
      assert a.present == Timeline(a)[k] && b.present == Timeline(b)[k];
      assert a.future == Timeline(a)[k + 1..] && b.future == Timeline(b)[k + 1..];
    }
  }

  datatype Direction = Back | Forth

  function Walk<S>(history: History<S>, steps: seq<Direction>, has: Search<S>): History<S>
    decreases |steps|
  {
    if steps == [] then history
    else Walk(if steps[0].Back? then Undo(history, has) else Redo(history, has), steps[1..], has)
  }

  /** Where a cursor in a timeline of a given length ends, stopping at both ends. */
  function CursorAfter(cursor: nat, length: nat, steps: seq<Direction>): nat
    requires cursor < length
    decreases |steps|
  {
    if steps == [] then cursor
    else
      CursorAfter(Stepped(cursor, length, steps[0]), length, steps[1..])
  }

  function Stepped(cursor: nat, length: nat, step: Direction): (next: nat)
    requires cursor < length
    ensures next < length
  {
    if step.Back? then (if cursor > 0 then cursor - 1 else 0)
    else if cursor + 1 < length then cursor + 1 else cursor
  }

  lemma {:induction false} WalkMovesCursor<S>(history: History<S>, steps: seq<Direction>, has: Search<S>)
    ensures Timeline(Walk(history, steps, has)) == Timeline(history)
    ensures |Walk(history, steps, has).past| == CursorAfter(|history.past|, |Timeline(history)|, steps)
    decreases |steps|
  {
    if steps != [] {
      var next := if steps[0].Back? then Undo(history, has) else Redo(history, has);
      if history.past != [] {
        assert history.past == history.past[..|history.past| - 1] + [history.past[|history.past| - 1]];
      }
      assert Timeline(next) == Timeline(history);
      WalkMovesCursor(next, steps[1..], has);
    }
  }

  function Times(direction: Direction, n: nat): (steps: seq<Direction>)
    ensures |steps| == n
  {
    if n == 0 then [] else [direction] + Times(direction, n - 1)
  }

  lemma {:induction false} CursorConcat(cursor: nat, length: nat, a: seq<Direction>, b: seq<Direction>)
    requires cursor < length
    ensures CursorAfter(cursor, length, a) < length
    ensures CursorAfter(cursor, length, a + b) == CursorAfter(CursorAfter(cursor, length, a), length, b)
    decreases |a|
  {
    if a == [] {
      assert a + b == b;
    } else {
      assert (a + b)[0] == a[0] && (a + b)[1..] == a[1..] + b;
      CursorConcat(Stepped(cursor, length, a[0]), length, a[1..], b);
    }
  }

  lemma {:induction false} CursorBack(cursor: nat, length: nat, n: nat)
    requires cursor < length
    ensures CursorAfter(cursor, length, Times(Back, n)) == if n <= cursor then cursor - n else 0
    decreases n
  {
    if n > 0 { CursorBack(if cursor > 0 then cursor - 1 else 0, length, n - 1); }
  }

  lemma {:induction false} CursorForth(cursor: nat, length: nat, n: nat)
    requires cursor < length
    ensures CursorAfter(cursor, length, Times(Forth, n)) == if cursor + n < length then cursor + n else length - 1
    decreases n
  {
    if n > 0 { CursorForth(if cursor + 1 < length then cursor + 1 else cursor, length, n - 1); }
  }

  /** n undos, then n redos, restore the three parts exactly when none ran off an end, or there was nothing ahead. */
  lemma {:induction false} UndosThenRedos<S(!new)>(history: History<S>, n: nat, has: Search<S>)
    ensures SameParts(Walk(history, Times(Back, n) + Times(Forth, n), has), history)
      <==> n <= |history.past| || history.future == []
  {
    var after := Walk(history, Times(Back, n) + Times(Forth, n), has);
    var cursor, length := |history.past|, |Timeline(history)|;
    WalkMovesCursor(history, Times(Back, n) + Times(Forth, n), has);
    CursorConcat(cursor, length, Times(Back, n), Times(Forth, n));
    CursorBack(cursor, length, n);
    CursorForth(CursorAfter(cursor, length, Times(Back, n)), length, n);
    CursorFixes(after, history);
  }

  // Commits

  lemma LastKept<T>(values: seq<T>, count: int)
    requires values != []
    ensures LastOf(values, count) != [] <==> -count < |values|
    ensures var kept := LastOf(values, count); kept != [] ==> kept[|kept| - 1] == values[|values| - 1]
    ensures |values| <= count ==> LastOf(values, count) == values
  {
  }

  /** A commit can be undone exactly when the limit leaves the last snapshot in the past. */
  lemma CommitThenUndo<S>(history: History<S>, nodes: S, selected: Option<string>, limit: int, has: Search<S>)
    requires nodes != history.present
    ensures var undone := Undo(Commit(history, nodes, selected, limit, has), has);
      undone.present == history.present <==> -limit <= |history.past|
    ensures -limit <= |history.past| ==>
      Undo(Commit(history, nodes, selected, limit, has), has).future == [nodes]
    ensures limit > 0 && |history.past| < limit ==>
      Undo(Commit(history, nodes, selected, limit, has), has).past == history.past
  {
    var all := history.past + [history.present];
    LastKept(all, limit);
    assert all[..|all| - 1] == history.past && all[|all| - 1] == history.present;
  }

  datatype Action<S> = Committed(nodes: S, chosen: Option<string>) | Undone | Redone

  function Perform<S(==)>(history: History<S>, action: Action<S>, limit: int, has: Search<S>): History<S> {
    match action
    case Committed(nodes, chosen) => Commit(history, nodes, chosen, limit, has)
    case Undone => Undo(history, has)
    case Redone => Redo(history, has)
  }

  function Run<S(==)>(history: History<S>, actions: seq<Action<S>>, limit: int, has: Search<S>): History<S>
    decreases |actions|
  {
    if actions == [] then history else Run(Perform(history, actions[0], limit, has), actions[1..], limit, has)
  }

  /** For a limit of at least one, past and future together stay within it in every run. */
  lemma {:induction false} RunStaysWithin<S>(history: History<S>, actions: seq<Action<S>>, limit: int, has: Search<S>)
    requires limit >= 1 && |history.past| + |history.future| <= limit
    ensures var after := Run(history, actions, limit, has); |after.past| + |after.future| <= limit
    decreases |actions|
  {
    if actions != [] {
      RunStaysWithin(Perform(history, actions[0], limit, has), actions[1..], limit, has);
    }
  }

  ghost predicate StaysWithin<S(!new)>(history: History<S>, limit: int, has: Search<S>) {
    forall actions :: var after := Run(history, actions, limit, has); |after.past| + |after.future| <= limit
  }

  /** A new history stays within its limit in every run if and only if the limit is at least one. */
  lemma BoundedExactly<S(!new)>(nodes: S, other: S, selected: Option<string>, limit: int, has: Search<S>)
    requires other != nodes
    ensures StaysWithin(Create(nodes, selected), limit, has) <==> limit >= 1
  {
    var history := Create(nodes, selected);
    if limit >= 1 {
      forall actions
        ensures var after := Run(history, actions, limit, has); |after.past| + |after.future| <= limit
      {
        RunStaysWithin(history, actions, limit, has);
      }
    } else if limit == 0 {
      var actions := [Committed(other, None)];
      assert actions[1..] == [];
      assert Run(history, actions, limit, has) == Commit(history, other, None, limit, has);
      assert |Run(history, actions, limit, has).past| == 1;
    } else {
      assert Run(history, [], limit, has) == history;
      assert |history.past| + |history.future| > limit;
    }
  }

  /** Under a negative limit a new history never has anything to undo or redo. */
  lemma {:induction false} NegativeKeepsNothing<S>(history: History<S>, actions: seq<Action<S>>, limit: int, has: Search<S>)
    requires limit < 0 && history.past == [] && history.future == []
    ensures var after := Run(history, actions, limit, has); after.past == [] && after.future == []
    decreases |actions|
  {
    if actions != [] {
      NegativeKeepsNothing(Perform(history, actions[0], limit, has), actions[1..], limit, has);
    }
  }

  /** With a limit of zero nothing is ever dropped: n commits keep n snapshots. */
  lemma {:induction false} ZeroKeepsAll(history: History<int>, n: nat, has: Search<int>)
    ensures |Run(history, Commits(history.present, n), 0, has).past| == |history.past| + n
    decreases n
  {
    if n > 0 {
      ZeroKeepsAll(Commit(history, history.present + 1, None, 0, has), n - 1, has);
    }
  }

  function Commits(from: int, n: nat): seq<Action<int>>
    decreases n
  {
    if n == 0 then [] else [Committed(from + 1, None)] + Commits(from + 1, n - 1)
  }

  /** A selection that stands in the present snapshot does so after every run. */
  lemma {:induction false} SelectionStands<S>(history: History<S>, actions: seq<Action<S>>, limit: int, has: Search<S>)
    requires history.selected.Some? ==> has(history.present, history.selected.value)
    ensures var after := Run(history, actions, limit, has);
      after.selected.Some? ==> has(after.present, after.selected.value)
    decreases |actions|
  {
    if actions != [] {
      SelectionStands(Perform(history, actions[0], limit, has), actions[1..], limit, has);
    }
  }

  /** The selection of a snapshot is the one wanted if it is found there, and otherwise none. */
  ghost predicate Selects<S>(after: Option<string>, wanted: Option<string>, nodes: S, has: Search<S>) {
    forall id :: after == Some(id) <==> wanted == Some(id) && id != "" && has(nodes, id)
  }

  /**
   A commit of another snapshot makes it the present, drops what was undone, keeps as many of the
   snapshots before as a positive limit allows, the latest ones, and selects what was asked for or was
   selected, if it is found; a commit of the present itself changes nothing.
   */
  lemma CommitLaw<S(!new)>(history: History<S>, nodes: S, selected: Option<string>, limit: int, has: Search<S>)
    returns (dropped: seq<S>)
    ensures var after := Commit(history, nodes, selected, limit, has);
      if nodes == history.present then after == history
      else
        && after.present == nodes && after.future == []
        && (limit >= 0 ==> dropped + after.past == history.past + [history.present])
        && (limit > 0 ==> |after.past| <= limit && (dropped != [] ==> |after.past| == limit))
        && (limit == 0 ==> dropped == [])
        && Selects(after.selected, if selected.Some? then selected else history.selected, nodes, has)
  {
    var all := history.past + [history.present];
    var kept := LastOf(all, limit);
    dropped := all[..|all| - |kept|];
  }

  /**
   Undo shows the snapshot before and keeps what it leaves for redo; redo shows that again. Both keep the
   selection exactly when it is found in the snapshot they show, and at an end they do nothing.
   */
  lemma WalkLaw<S(!new)>(history: History<S>, limit: int, has: Search<S>)
    ensures var undone, n := Perform(history, Undone, limit, has), |history.past|;
      if n == 0 then undone == history
      else
        && undone.present == history.past[n - 1] && undone.past == history.past[..n - 1]
        && undone.future == [history.present] + history.future
        && Selects(undone.selected, history.selected, undone.present, has)
    ensures var redone := Perform(history, Redone, limit, has);
      if history.future == [] then redone == history
      else
        && redone.present == history.future[0] && redone.future == history.future[1..]
        && redone.past == history.past + [history.present]
        && Selects(redone.selected, history.selected, redone.present, has)
  {
  }

  /** A new history has nothing to undo or redo, and selects what it was given, unless that is empty. */
  lemma CreateLaw<S(!new)>(nodes: S, selected: Option<string>)
    ensures var history := Create(nodes, selected);
      && history.past == [] && history.future == [] && history.present == nodes
      && forall id :: history.selected == Some(id) <==> selected == Some(id) && id != ""
  {
  }
}
