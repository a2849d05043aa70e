/**
 The in-memory repository and the two write paths the services share, `#replace` and `#mutate`.
 Between two repository calls the service awaits, so any other client may write meanwhile:
 `Interfere` stands for all of them at each such point.
 */
module DocumentService {
  import opened Wrappers
  import opened VersionedStore

  class InMemoryRepository<D> {
    var documents: map<string, Document<D>>

    constructor ()
      ensures documents == map[]
    {
      documents := map[];
    }

    function Stored(scope: string): Option<Document<D>>
      reads this
    {
      if scope in documents then Some(documents[scope]) else None
    }

    method Get(scope: string) returns (found: Option<Document<D>>)
      ensures found == Stored(scope)
    {
      if scope in documents {
        found := Some(documents[scope]);
      } else {
        found := None;
      }
    }

    /** Writes only over the expected version; a conflict leaves every scope as it was. */
    method Save(scope: string, document: Document<D>, expected: Option<nat>) returns (ok: bool)
      modifies this
      ensures ok <==> !Conflicts(old(Stored(scope)), expected)
      ensures documents == if ok then old(documents)[scope := document] else old(documents)
    {
      var current := Get(scope);
      if expected.None? {
        ok := current.None?;
      } else {
        ok := current.Some? && current.value.version == expected.value;
      }
      if ok { documents := documents[scope := document]; }
    }
  }

  /** How many commits of `log` are `client`'s. */
  function Own<Op, D>(log: seq<Commit<Op, D>>, client: nat): nat {
    if log == [] then 0
    else Own(log[..|log| - 1], client) + if log[|log| - 1].client == client then 1 else 0
  }

  lemma {:induction false} OwnSplits<Op, D>(a: seq<Commit<Op, D>>, b: seq<Commit<Op, D>>, client: nat)
    ensures Own(a + b, client) == Own(a, client) + Own(b, client)
  {
    if b == [] {
      assert a + b == a;
    } else {
      var n := |b| - 1;
      OwnSplits(a, b[..n], client);
      assert (a + b)[..|a + b| - 1] == a + b[..n];
    }
  }

  class DocumentService<Op, D, E> {
    const p: Protocol<Op, D, E>
    const scope: string
    const me: nat
    const repository: InMemoryRepository<D>
    ghost var log: seq<Commit<Op, D>>
    ghost var attempts: nat  // made by this service's own calls

    ghost predicate Valid()
      reads this, repository
    {
      Linear(p, log) && repository.Stored(scope) == Latest(log)
    }

    constructor (p: Protocol<Op, D, E>, scope: string, me: nat, repository: InMemoryRepository<D>)
      requires repository.Stored(scope).None?
      ensures Valid() && log == [] && attempts == 0
      ensures this.p == p && this.scope == scope && this.me == me && this.repository == repository
    {
      this.p, this.scope, this.me, this.repository, log, attempts := p, scope, me, repository, [], 0;
    }

    /** The write of `next`, computed from `seen`, by `client`. */
    method Send(client: nat, op: Op, now: int, seen: Option<Document<D>>, next: Document<D>) returns (ok: bool)
      requires Valid()
      requires VersionOf(seen) <= |log| && seen == AtVersion(log, VersionOf(seen))
      requires p.apply(op, now, BodyOf(seen, p.empty)) == Write(next.body)
      requires next.version == VersionOf(seen) + 1 && next.updatedAt == now && p.accepts(next)
      modifies this`log, repository
      ensures Valid()
      ensures ok <==> old(repository.Stored(scope)) == seen
      ensures log == if ok then old(log) + [Commit(client, op, now, seen, next)] else old(log)
    {
      LatestVersion(p, log);
      assert log[..|log|] == log;
      ok := repository.Save(scope, next, ExpectedVersion(seen));
      if ok {
        ghost var commit := Commit(client, op, now, seen, next);
        assert (log + [commit])[..|log|] == log;
        LinearExtends(p, log, commit);
        log := log + [commit];
      }
    }

    /** Whatever the other clients commit while this one awaits. */
    method Interfere()
      requires Valid()
      modifies this`log, repository
      ensures Valid() && old(log) <= log
      ensures Own(log, me) == Own(old(log), me)
    {
      var others: seq<(nat, Op, int)> := *;
      for i := 0 to |others|
        invariant Valid() && old(log) <= log
        invariant Own(log, me) == Own(old(log), me)
      {
        var (client, op, now) := others[i];
        var seen := repository.Get(scope);
        var verdict := p.apply(op, now, BodyOf(seen, p.empty));
        if client != me && verdict.Write? {
          var next := Document(VersionOf(seen) + 1, now, verdict.body);
          if p.accepts(next) {
            LatestVersion(p, log);
            assert log[..|log|] == log;
            ghost var was := log;
            var _ := Send(client, op, now, seen, next);
            assert log != was ==> log[..|log| - 1] == was;
          }
        }
      }
    }

    /** The end of an attempt: checks the changed body and sends it, over what was just read. */
    method WriteBack(op: Op, now: int, seen: Option<Document<D>>, body: D) returns (outcome: Outcome<E>)
      requires Valid() && seen == repository.Stored(scope)
      requires p.apply(op, now, BodyOf(seen, p.empty)) == Write(body)
      modifies this`log, repository
      ensures Valid() && old(log) <= log
      ensures outcome.Rejected? || outcome.Conflict? || outcome == Committed(|old(log)|)
      ensures Own(log, me) == Own(old(log), me) + if outcome.Committed? then 1 else 0
      ensures outcome.Committed? ==> |old(log)| < |log| && log[|old(log)|].client == me && log[|old(log)|].op == op
      ensures outcome.Conflict? ==> |log| > |old(log)|
    {
      LatestVersion(p, log);
      assert log[..|log|] == log;
      var next := Document(VersionOf(seen) + 1, now, body);
      if !p.accepts(next) { return Rejected; }
      ghost var read := log;
      Interfere();
      assert log[..|read|] == read;
      ghost var was := log;
      LatestVersion(p, was);
      var ok := Send(me, op, now, seen, next);
      if !ok { return Conflict; }
      assert log[..|log| - 1] == was;
      return Committed(VersionOf(seen));
    }

    /**
     `#replace`: one attempt. It succeeds with exactly one own commit, applied to the document of the
     expected version, or leaves no trace of its own; a current version conflicts only when another
     client has committed meanwhile.
     */
    method Replace(expected: nat, op: Op, now: int) returns (outcome: Outcome<E>)
      requires Valid()
      modifies this, repository
      ensures Valid() && old(log) <= log
      ensures Own(log, me) == Own(old(log), me) + if outcome.Committed? then 1 else 0
      ensures outcome.Committed? ==>
        && outcome.index == expected < |log|
        && log[expected].client == me
        && log[expected].op == op
        && |old(log)| <= expected
      ensures expected < |old(log)| ==> outcome.Conflict?
      ensures expected == |old(log)| && outcome.Conflict? ==> |log| > |old(log)|
      ensures attempts == old(attempts) + 1
    {
      attempts := attempts + 1;
      Interfere();
      var stored := repository.Get(scope);
      LatestVersion(p, log);
      assert log[..|log|] == log;
      if VersionOf(stored) != expected { return Conflict; }
      match p.apply(op, now, BodyOf(stored, p.empty)) {
        case Skip => return Skipped;
        case Refuse(error) => return Refused(error);
        case Write(body) => outcome := WriteBack(op, now, stored, body);
      }
    }

    /**
     `#mutate`: at most five attempts, at most one own commit, none when it fails. It gives up only
     after five attempts, each of which lost to another client's commit.
     */
    method Mutate(op: Op, now: int) returns (outcome: Outcome<E>)
      requires Valid()
      modifies this, repository
      ensures Valid() && old(log) <= log
      ensures Own(log, me) == Own(old(log), me) + if outcome.Committed? then 1 else 0
      ensures outcome.Committed? ==>
        && |old(log)| <= outcome.index < |log|
        && log[outcome.index].client == me
        && log[outcome.index].op == op
      ensures old(attempts) < attempts <= old(attempts) + ATTEMPTS
      ensures outcome.Conflict? ==> attempts == old(attempts) + ATTEMPTS && |log| >= |old(log)| + ATTEMPTS
    {
      var attempt := 0;
      outcome := Conflict;
      while attempt < ATTEMPTS && outcome.Conflict?
        invariant Valid() && old(log) <= log
        invariant attempt <= ATTEMPTS && attempts == old(attempts) + attempt && (attempt == 0 ==> outcome.Conflict?)
        invariant outcome.Conflict? ==> |log| >= |old(log)| + attempt
        invariant Own(log, me) == Own(old(log), me) + if outcome.Committed? then 1 else 0
        invariant outcome.Committed? ==>
          && |old(log)| <= outcome.index < |log|
          && log[outcome.index].client == me
          && log[outcome.index].op == op
      {
        Interfere();
        var current := repository.Get(scope);
        LatestVersion(p, log);
        outcome := Replace(VersionOf(current), op, now);
        attempt := attempt + 1;
      }
    }

    /** One attempt of `#aggregate`: reads once, and works on what it read. */
    method RecordOnce(op: Op, now: int) returns (outcome: Outcome<E>)
      requires Valid()
      modifies this, repository
      ensures Valid() && old(log) <= log
      ensures Own(log, me) == Own(old(log), me) + if outcome.Committed? then 1 else 0
      ensures outcome.Committed? ==>
        && |old(log)| <= outcome.index < |log|
        && log[outcome.index].client == me
        && log[outcome.index].op == op
      ensures outcome.Skipped? ==>
        exists v :: |old(log)| <= v <= |log| && p.apply(op, now, BodyOf(AtVersion(log, v), p.empty)).Skip?
      ensures outcome.Conflict? ==> |log| > |old(log)|
      ensures attempts == old(attempts) + 1
    {
      attempts := attempts + 1;
      Interfere();
      var current := repository.Get(scope);
      LatestVersion(p, log);
      assert log[..|log|] == log;
      match p.apply(op, now, BodyOf(current, p.empty)) {
        case Skip =>
          assert AtVersion(log, |log|) == current;
          return Skipped;
        case Refuse(error) => return Refused(error);
        case Write(body) => outcome := WriteBack(op, now, current, body);
      }
    }

    /**
     `#aggregate`: like `Mutate`, but each attempt reads once; finding nothing to record ends the loop.
     */
    method Record(op: Op, now: int) returns (outcome: Outcome<E>)
      requires Valid()
      modifies this, repository
      ensures Valid() && old(log) <= log
      ensures Own(log, me) == Own(old(log), me) + if outcome.Committed? then 1 else 0
      ensures outcome.Committed? ==>
        && |old(log)| <= outcome.index < |log|
        && log[outcome.index].client == me
        && log[outcome.index].op == op
      ensures outcome.Skipped? ==>
        exists v :: |old(log)| <= v <= |log| && p.apply(op, now, BodyOf(AtVersion(log, v), p.empty)).Skip?
      ensures old(attempts) < attempts <= old(attempts) + ATTEMPTS
      ensures outcome.Conflict? ==> attempts == old(attempts) + ATTEMPTS && |log| >= |old(log)| + ATTEMPTS
    {
      for attempt := 0 to ATTEMPTS
        invariant Valid() && old(log) <= log
        invariant attempts == old(attempts) + attempt && |log| >= |old(log)| + attempt
        invariant Own(log, me) == Own(old(log), me)
      {
        outcome := RecordOnce(op, now);
        if !outcome.Conflict? { return; }
      }
      outcome := Conflict;
    }
  }
}
