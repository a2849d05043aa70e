/**
 The optimistic document store behind the AI gateway, AI authoring and analytics services.

 Every repository call is one atomic step; between two steps of one caller any number of other
 callers may take theirs. `Protocol` collects what differs between the services: the empty
 document, the change an operation makes, and the schema check made before a write.
 */
module VersionedStore {
  import opened Wrappers

  datatype Document<D> = Document(version: nat, updatedAt: int, body: D)

  /** What a change makes of a document: a new body, nothing to record, or an error. */
  datatype Verdict<D, E> = Write(body: D) | Skip | Refuse(error: E)

  datatype Protocol<!Op, !D, !E> = Protocol(
    empty: D,
    apply: (Op, int, D) -> Verdict<D, E>,
    accepts: Document<D> -> bool)

  /** Retry loops give up after this many conflicts. */
  const ATTEMPTS := 5

  datatype Commit<Op, D> = Commit(
    client: nat, op: Op, now: int, before: Option<Document<D>>, after: Document<D>)

  datatype Outcome<E> =
    | Committed(index: nat)  // position of the commit in the log
    | Skipped
    | Refused(error: E)
    | Rejected               // the schema check failed
    | Conflict

  datatype Client<Op, D, E> =
    | Idle
    | Attempting(op: Op, tries: nat)
    | Expecting(op: Op, tries: nat, expected: nat)
    | Writing(op: Op, tries: nat, now: int, seen: Option<Document<D>>, next: Document<D>)
    | Finished(op: Op, outcome: Outcome<E>)

  datatype System<Op, D, E> = System(
    stored: Option<Document<D>>,
    clients: map<nat, Client<Op, D, E>>,
    log: seq<Commit<Op, D>>)

  datatype Event<Op> =
    | BeginMutate(client: nat, op: Op)
    | BeginReplace(client: nat, op: Op, expected: nat)
    | Snapshot(client: nat)
    | Load(client: nat, now: int)
    | LoadOnce(client: nat, now: int)
    | Save(client: nat)

  function VersionOf<D>(stored: Option<Document<D>>): nat {
    if stored.Some? then stored.value.version else 0
  }

  function BodyOf<D>(stored: Option<Document<D>>, empty: D): D {
    if stored.Some? then stored.value.body else empty
  }

  /** The compare-and-swap test: `None` expects that nothing is stored yet. */
  predicate Conflicts<D>(stored: Option<Document<D>>, expected: Option<nat>) {
    if expected.None? then stored.Some? else stored.None? || stored.value.version != expected.value
  }

  function ExpectedVersion<D>(seen: Option<Document<D>>): Option<nat> {
    if seen.Some? then Some(seen.value.version) else None
  }

  function ClientOf<Op, D, E>(s: System<Op, D, E>, c: nat): Client<Op, D, E> {
    if c in s.clients then s.clients[c] else Idle
  }

  function Retry<Op, D, E>(op: Op, tries: nat): Client<Op, D, E> {
    if tries + 1 < ATTEMPTS then Attempting(op, tries + 1) else Finished(op, Conflict)
  }

  /** A read followed by the change closure, as far as the point where the write is sent. */
  function Change<Op, D, E>(p: Protocol<Op, D, E>, stored: Option<Document<D>>,
                            op: Op, tries: nat, now: int): Client<Op, D, E> {
    match p.apply(op, now, BodyOf(stored, p.empty))
    case Write(body) =>
      Writing(op, tries, now, stored, Document(VersionOf(stored) + 1, now, body))
    case Skip => Finished(op, Skipped)
    case Refuse(error) => Finished(op, Refused(error))
  }

  function With<Op, D, E>(s: System<Op, D, E>, c: nat, client: Client<Op, D, E>): System<Op, D, E> {
    s.(clients := s.clients[c := client])
  }

  /** One atomic step. An event that does not fit the client's position changes nothing. */
  function Next<Op, D, E>(p: Protocol<Op, D, E>, s: System<Op, D, E>, event: Event<Op>): System<Op, D, E> {
    var c := event.client;
    var client := ClientOf(s, c);
    match event
    case BeginMutate(_, op) =>
      if client.Idle? || client.Finished? then With(s, c, Attempting(op, 0)) else s
    case BeginReplace(_, op, expected) =>
      // A plain replacement is an attempt without retries.
      if client.Idle? || client.Finished? then With(s, c, Expecting(op, ATTEMPTS - 1, expected)) else s
    case Snapshot(_) =>
      if client.Attempting?
      then With(s, c, Expecting(client.op, client.tries, VersionOf(s.stored)))
      else s
    case Load(_, now) =>
      if !client.Expecting? then s
      else if VersionOf(s.stored) != client.expected
      then With(s, c, Retry(client.op, client.tries))
      else With(s, c, Change(p, s.stored, client.op, client.tries, now))
    case LoadOnce(_, now) =>
      if client.Attempting?
      then With(s, c, Change(p, s.stored, client.op, client.tries, now))
      else s
    case Save(_) =>
      if !client.Writing? then s
      else if !p.accepts(client.next) then With(s, c, Finished(client.op, Rejected))
      else if Conflicts(s.stored, ExpectedVersion(client.seen))
      then With(s, c, Retry(client.op, client.tries))
      else
        var commit := Commit(c, client.op, client.now, s.stored, client.next);
        With(s, c, Finished(client.op, Committed(|s.log|)))
          .(stored := Some(client.next), log := s.log + [commit])
  }

  function Initial<Op, D, E>(): System<Op, D, E> {
    System(None, map[], [])
  }

  function Run<Op, D, E>(p: Protocol<Op, D, E>, s: System<Op, D, E>, events: seq<Event<Op>>): System<Op, D, E>
    decreases |events|
  {
    if events == [] then s else Run(p, Next(p, s, events[0]), events[1..])
  }

  /** The stored document according to a log. */
  function Latest<Op, D>(log: seq<Commit<Op, D>>): Option<Document<D>> {
    if log == [] then None else Some(log[|log| - 1].after)
  }

  ghost predicate LinearAt<Op, D, E>(p: Protocol<Op, D, E>, log: seq<Commit<Op, D>>, i: nat)
    requires i < |log|
  {
    && log[i].before == Latest(log[..i])
    && log[i].after.version == i + 1
    && p.apply(log[i].op, log[i].now, BodyOf(log[i].before, p.empty)) == Write(log[i].after.body)
    && log[i].after.updatedAt == log[i].now
    && p.accepts(log[i].after)
  }

  /** Every commit applied its own change to the document its immediate predecessor left. */
  ghost predicate Linear<Op, D, E>(p: Protocol<Op, D, E>, log: seq<Commit<Op, D>>) {
    forall i :: 0 <= i < |log| ==> LinearAt(p, log, i)
  }

  /** The document a repository would hold had the committed changes been made one at a time. */
  function Replay<Op, D, E>(p: Protocol<Op, D, E>, log: seq<Commit<Op, D>>): Option<Document<D>> {
    if log == [] then None
    else
      var n := |log| - 1;
      var before := Replay(p, log[..n]);
      match p.apply(log[n].op, log[n].now, BodyOf(before, p.empty))
      case Write(body) => Some(Document(VersionOf(before) + 1, log[n].now, body))
      case _ => before
  }

  /** The document committed as version `v`, where version 0 is the absent document. */
  function AtVersion<Op, D>(log: seq<Commit<Op, D>>, v: nat): Option<Document<D>>
    requires v <= |log|
  {
    Latest(log[..v])
  }

  ghost predicate ClientOk<Op, D, E>(p: Protocol<Op, D, E>, log: seq<Commit<Op, D>>, c: nat, client: Client<Op, D, E>) {
    match client
    case Idle => true
    case Attempting(_, tries) => tries < ATTEMPTS
    case Expecting(_, tries, _) => tries < ATTEMPTS
    case Writing(op, tries, now, seen, next) =>
      && tries < ATTEMPTS
      && VersionOf(seen) <= |log|
      && seen == AtVersion(log, VersionOf(seen))
      && p.apply(op, now, BodyOf(seen, p.empty)) == Write(next.body)
      && next.version == VersionOf(seen) + 1
      && next.updatedAt == now
    case Finished(op, outcome) =>
      outcome.Committed? ==>
        && outcome.index < |log|
        && log[outcome.index].client == c
        && log[outcome.index].op == op
  }

  ghost predicate Invariant<Op, D, E>(p: Protocol<Op, D, E>, s: System<Op, D, E>) {
    && Linear(p, s.log)
    && s.stored == Latest(s.log)
    && (forall c :: c in s.clients ==> ClientOk(p, s.log, c, s.clients[c]))
  }

  lemma LatestVersion<Op, D, E>(p: Protocol<Op, D, E>, log: seq<Commit<Op, D>>)
    requires Linear(p, log)
    ensures VersionOf(Latest(log)) == |log|
  {
    if log != [] { assert LinearAt(p, log, |log| - 1); }
  }

  lemma LinearPrefix<Op, D, E>(p: Protocol<Op, D, E>, log: seq<Commit<Op, D>>, n: nat)
    requires n <= |log| && Linear(p, log)
    ensures Linear(p, log[..n])
  {
    forall i | 0 <= i < n ensures LinearAt(p, log[..n], i) {
      assert LinearAt(p, log, i);
      assert log[..n][..i] == log[..i];
    }
  }

  lemma LinearExtends<Op, D, E>(p: Protocol<Op, D, E>, log: seq<Commit<Op, D>>, commit: Commit<Op, D>)
    requires Linear(p, log)
    requires LinearAt(p, log + [commit], |log|)
    ensures Linear(p, log + [commit])
  {
    forall i | 0 <= i < |log| ensures LinearAt(p, log + [commit], i) {
      assert LinearAt(p, log, i);
      assert (log + [commit])[..i] == log[..i];
    }
  }

  lemma ClientOkExtends<Op, D, E>(p: Protocol<Op, D, E>, log: seq<Commit<Op, D>>, commit: Commit<Op, D>,
                                  c: nat, client: Client<Op, D, E>)
    requires ClientOk(p, log, c, client)
    ensures ClientOk(p, log + [commit], c, client)
  {
    if client.Writing? {
      var v := VersionOf(client.seen);
      assert (log + [commit])[..v] == log[..v];
    }
  }

  /**
   A log grows only when one client's write is taken, by exactly that client's commit; every
   other step, and so every failed change, leaves the stored document and the log alone.
   */
  lemma StepEffect<Op, D, E>(p: Protocol<Op, D, E>, s: System<Op, D, E>, event: Event<Op>)
    requires Invariant(p, s)
    ensures var s' := Next(p, s, event);
      && Invariant(p, s')
      && (forall c :: c != event.client ==> ClientOf(s', c) == ClientOf(s, c))
      && (if s'.log == s.log then s'.stored == s.stored
          else
            && ClientOf(s, event.client).Writing?
            && s'.log == s.log + [s'.log[|s.log|]]
            && s'.log[|s.log|].op == ClientOf(s, event.client).op
            && ClientOf(s', event.client) == Finished(s'.log[|s.log|].op, Committed(|s.log|)))
  {
    var s' := Next(p, s, event);
    var c := event.client;
    var client := ClientOf(s, c);
    LatestVersion(p, s.log);
    assert s.log[..|s.log|] == s.log;
    if s'.log != s.log {
      var commit := s'.log[|s.log|];
      var v := VersionOf(client.seen);
      assert s'.log[..|s.log|] == s.log;
      assert v == |s.log|;
      assert client.seen == s.stored;
      assert LinearAt(p, s'.log, |s.log|);
      LinearExtends(p, s.log, commit);
      forall d | d in s'.clients ensures ClientOk(p, s'.log, d, s'.clients[d]) {
        if d != c { ClientOkExtends(p, s.log, commit, d, s.clients[d]); }
      }
    }
  }

  /** Any number of clients, in any interleaving: the log stays linear and explains the store. */
  lemma {:induction false} RunsLinearize<Op, D, E>(p: Protocol<Op, D, E>, s: System<Op, D, E>, events: seq<Event<Op>>)
    requires Invariant(p, s)
    ensures Invariant(p, Run(p, s, events))
    ensures s.log <= Run(p, s, events).log
    decreases |events|
  {
    if events != [] {
      StepEffect(p, s, events[0]);
      RunsLinearize(p, Next(p, s, events[0]), events[1..]);
    }
  }

  /** The stored document is the fold of the committed changes, and its version their number. */
  lemma {:induction false} ReplayIsLatest<Op, D, E>(p: Protocol<Op, D, E>, log: seq<Commit<Op, D>>)
    requires Linear(p, log)
    ensures Replay(p, log) == Latest(log)
    ensures VersionOf(Latest(log)) == |log|
  {
    if log != [] {
      var n := |log| - 1;
      LinearPrefix(p, log, n);
      ReplayIsLatest(p, log[..n]);
      assert LinearAt(p, log, n);
    }
  }

  /** The linearization theorem, from the empty store. */
  lemma {:induction false} EveryRunReplays<Op, D, E>(p: Protocol<Op, D, E>, events: seq<Event<Op>>)
    ensures var s := Run(p, Initial(), events);
      && Linear(p, s.log)
      && s.stored == Replay(p, s.log)
      && VersionOf(s.stored) == |s.log|
  {
    RunsLinearize(p, Initial(), events);
    ReplayIsLatest(p, Run(p, Initial(), events).log);
  }

  /** Two reads at any two moments of a run that show one version show one document. */
  lemma {:induction false} EqualVersionsAgree<Op, D, E>(p: Protocol<Op, D, E>, s: System<Op, D, E>,
                                                        events: seq<Event<Op>>)
    requires Invariant(p, s)
    ensures var later := Run(p, s, events);
      && VersionOf(s.stored) <= VersionOf(later.stored) == |later.log|
      && s.stored == AtVersion(later.log, VersionOf(s.stored))
      && (VersionOf(s.stored) == VersionOf(later.stored) ==> s.stored == later.stored)
  {
    RunsLinearize(p, s, events);
    var later := Run(p, s, events);
    LatestVersion(p, s.log);
    LatestVersion(p, later.log);
    assert later.log[..|s.log|] == s.log;
    assert later.log[..|later.log|] == later.log;
  }

  /** The events of one caller whom no other interrupts: of `#replace` if it names a version, else of `#mutate`. */
  function Alone<Op>(c: nat, op: Op, expected: Option<nat>, now: int): seq<Event<Op>> {
    if expected.Some? then [BeginReplace(c, op, expected.value), Load(c, now), Save(c)]
    else [BeginMutate(c, op), Snapshot(c), Load(c, now), Save(c)]
  }

  predicate Free<Op, D, E>(client: Client<Op, D, E>) {
    client.Idle? || client.Finished?
  }

  lemma {:induction false} RunConcat<Op, D, E>(p: Protocol<Op, D, E>, s: System<Op, D, E>,
                                               first: seq<Event<Op>>, second: seq<Event<Op>>)
    ensures Run(p, s, first + second) == Run(p, Run(p, s, first), second)
    decreases |first|
  {
    if first == [] {
      assert first + second == second;
    } else {
      assert (first + second)[1..] == first[1..] + second;
      RunConcat(p, Next(p, s, first[0]), first[1..], second);
    }
  }

  /** Undisturbed, a change of the current version is committed at once unless the schema refuses it. */
  lemma {:induction false} AloneCommits<Op, D, E>(p: Protocol<Op, D, E>, s: System<Op, D, E>, c: nat, op: Op,
                                                  expected: Option<nat>, now: int, body: D)
    requires Free(ClientOf(s, c))
    requires expected.Some? ==> expected.value == VersionOf(s.stored)
    requires p.apply(op, now, BodyOf(s.stored, p.empty)) == Write(body)
    ensures var s' := Run(p, s, Alone(c, op, expected, now));
      var next := Document(VersionOf(s.stored) + 1, now, body);
      if p.accepts(next) then
        && s'.stored == Some(next)
        && s'.log == s.log + [Commit(c, op, now, s.stored, next)]
        && ClientOf(s', c) == Finished(op, Committed(|s.log|))
      else
        s'.stored == s.stored && s'.log == s.log && ClientOf(s', c) == Finished(op, Rejected)
  {
    var v := VersionOf(s.stored);
    var tail := [Load(c, now), Save(c)];
    var tries := if expected.Some? then ATTEMPTS - 1 else 0;
    var ready := With(s, c, Expecting(op, tries, v));
    if expected.Some? {
      assert Alone(c, op, expected, now) == [BeginReplace(c, op, v)] + tail;
      RunConcat(p, s, [BeginReplace(c, op, v)], tail);
    } else {
      var begun := With(s, c, Attempting(op, 0));
      assert Alone(c, op, expected, now) == [BeginMutate(c, op), Snapshot(c)] + tail;
      RunConcat(p, s, [BeginMutate(c, op), Snapshot(c)], tail);
      assert [BeginMutate(c, op), Snapshot(c)][1..] == [Snapshot(c)];
      assert Run(p, begun, [Snapshot(c)]) == Next(p, begun, Snapshot(c));
      assert begun.clients[c := Expecting(op, 0, v)] == s.clients[c := Expecting(op, 0, v)];
    }
    assert Run(p, s, Alone(c, op, expected, now)) == Run(p, ready, tail);
    var sent := With(ready, c, Change(p, s.stored, op, tries, now));
    assert tail[1..] == [Save(c)];
    assert Next(p, ready, tail[0]) == sent;
    assert Run(p, sent, [Save(c)]) == Next(p, sent, Save(c));
  }

  /** Undisturbed, a change that is refused leaves the store alone and answers with the refusal. */
  lemma {:induction false} AloneRefused<Op, D, E>(p: Protocol<Op, D, E>, s: System<Op, D, E>, c: nat, op: Op, now: int,
                                                  error: E)
    requires Free(ClientOf(s, c))
    requires p.apply(op, now, BodyOf(s.stored, p.empty)) == Refuse(error)
    ensures var s' := Run(p, s, Alone(c, op, None, now));
      s'.stored == s.stored && s'.log == s.log && ClientOf(s', c) == Finished(op, Refused(error))
  {
    var v := VersionOf(s.stored);
    var tail := [Load(c, now), Save(c)];
    var begun := With(s, c, Attempting(op, 0));
    var ready := With(s, c, Expecting(op, 0, v));
    assert Alone(c, op, None, now) == [BeginMutate(c, op), Snapshot(c)] + tail;
    RunConcat(p, s, [BeginMutate(c, op), Snapshot(c)], tail);
    assert [BeginMutate(c, op), Snapshot(c)][1..] == [Snapshot(c)];
    assert Run(p, begun, [Snapshot(c)]) == Next(p, begun, Snapshot(c));
    assert begun.clients[c := Expecting(op, 0, v)] == s.clients[c := Expecting(op, 0, v)];
    assert Run(p, s, Alone(c, op, None, now)) == Run(p, ready, tail);
    var done := With(ready, c, Finished(op, Refused(error)));
    assert tail[1..] == [Save(c)];
    assert Next(p, ready, tail[0]) == done;
    assert Run(p, done, [Save(c)]) == Next(p, done, Save(c));
  }
}
