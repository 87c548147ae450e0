/** Project state, the fold of the event log, and the authority's row store for it.

    A state is one keyed collection: the twelve collections of the original are the keys of the
    twelve kinds.  The projection function is an arbitrary deterministic partial function. */
module Projection {
  import opened Results
  import opened Contracts

  datatype Kind =
    | Agents | Tasks | Messages | Invocations | Deliveries | Runtimes
    | Policies | Approvals | Documents | Artifacts | Env | Providers

  datatype Key = Key(kind: Kind, id: string)

  /** An entity value: the ID it carries itself, and everything else. */
  datatype Entity = Entity(id: string, body: string)

  const ZERO := Entity("", "")
  const DEFAULT_SETTINGS := "default"

  datatype State = State(entities: map<Key, Entity>, settings: string)

  const EMPTY := State(map[], DEFAULT_SETTINGS)

  datatype ModelEvent = ModelEvent(
    id: string, sequence: nat, time: nat, actor: string, kind: string, entityId: string,
    data: string, previousHash: Hash, hash: Hash)

  type Projector = (State, ModelEvent) -> Option<State>

  /** `projection.ApplyEvent`, which reads the payload as a JSON value. */
  function ApplyEvent(apply: Projector, state: State, e: Event): Option<State> {
    match Normalized(e.payload)
    case None => None
    case Some(data) =>
      apply(state, ModelEvent(e.id, e.sequence, e.time, e.actor, e.kind, e.entityId, data, e.previousHash, e.hash))
  }

  /** The specification every store must agree with: the left fold of the log. */
  function Fold(apply: Projector, log: seq<Record>): Option<State> {
    if log == [] then Some(EMPTY)
    else
      match Fold(apply, log[..|log| - 1])
      case None => None
      case Some(state) => ApplyEvent(apply, state, log[|log| - 1].event)
  }

  lemma FoldSnoc(apply: Projector, log: seq<Record>, r: Record)
    ensures Fold(apply, log + [r]) ==
            match Fold(apply, log) case None => None case Some(state) => ApplyEvent(apply, state, r.event)
  {
    assert (log + [r])[..|log|] == log;
  }

  lemma {:induction false} FoldPrefix(apply: Projector, log: seq<Record>, n: nat)
    requires n <= |log| && Fold(apply, log).Some?
    ensures Fold(apply, log[..n]).Some?
  {
    if n < |log| {
      FoldPrefix(apply, log[..|log| - 1], n);
      assert log[..|log| - 1][..n] == log[..n];
    } else {
      assert log[..n] == log;
    }
  }

  /** The fold sees payloads as values, so it does not depend on their spelling. */
  lemma {:induction false} FoldIgnoresSpelling(apply: Projector, a: seq<Record>, b: seq<Record>)
    requires |a| == |b| && forall i :: 0 <= i < |a| ==> SameEvent(a[i].event, b[i].event) && VerifyEventHash(a[i].event)
    ensures Fold(apply, a) == Fold(apply, b)
  {
    if a != [] {
      var n := |a| - 1;
      FoldIgnoresSpelling(apply, a[..n], b[..n]);
      assert SameEvent(a[n].event, b[n].event);
    }
  }

  // ---------------------------------------------------------------- the row store

  /** Reading a Go map at a key it may not hold. */
  function Lookup(m: map<Key, Entity>, k: Key): Entity {
    if k in m then m[k] else ZERO
  }

  datatype Rows = Rows(entities: map<Key, Entity>, settings: Option<string>)

  const NO_ROWS := Rows(map[], None)

  /** `loadState`. */
  function Load(rows: Rows): State {
    State(rows.entities, match rows.settings case None => DEFAULT_SETTINGS case Some(s) => s)
  }

  /** Agents and tasks are upserted under the ID inside the value, everything else under its key. */
  predicate OwnKeyed(kind: Kind) {
    kind == Agents || kind == Tasks
  }

  predicate Changed(before: map<Key, Entity>, after: map<Key, Entity>, k: Key)
    requires k in after
  {
    Lookup(before, k) != after[k]
  }

  function Target(after: map<Key, Entity>, k: Key): Key
    requires k in after
  {
    if OwnKeyed(k.kind) then Key(k.kind, after[k].id) else k
  }

  /** The entries of one collection find their rows: changed agents and tasks carry their own key, and no new
      entry is the zero value. */
  ghost predicate KindAddressed(before: map<Key, Entity>, after: map<Key, Entity>, kind: Kind) {
    forall k :: k in after && k.kind == kind ==>
      if Changed(before, after, k) then Target(after, k) == k else k in before
  }

  /** One collection survives a diff write: its entries find their rows, and only agents lose keys. */
  ghost predicate KindPersists(before: map<Key, Entity>, after: map<Key, Entity>, kind: Kind) {
    && KindAddressed(before, after, kind)
    && (kind != Agents ==> forall k :: k in before && k.kind == kind ==> k in after)
  }

  /** The new entries and, except for agents, the removed ones. */
  function WithLeftovers(before: map<Key, Entity>, after: map<Key, Entity>): map<Key, Entity> {
    map k | k in after.Keys + before.Keys && (k in after || k.kind != Agents) ::
      if k in after then after[k] else before[k]
  }

  ghost predicate Addressed(before: State, after: State) {
    forall kind :: KindAddressed(before.entities, after.entities, kind)
  }

  ghost predicate Persistable(before: State, after: State) {
    forall kind :: KindPersists(before.entities, after.entities, kind)
  }

  ghost predicate AgreeOn(a: map<Key, Entity>, b: map<Key, Entity>, kind: Kind) {
    forall id :: var k := Key(kind, id); (k in a <==> k in b) && (k in a ==> a[k] == b[k])
  }

  lemma AgreeEverywhere(a: map<Key, Entity>, b: map<Key, Entity>)
    ensures a == b <==> forall kind :: AgreeOn(a, b, kind)
  {
    if forall kind :: AgreeOn(a, b, kind) {
      forall k: Key ensures (k in a <==> k in b) && (k in a ==> a[k] == b[k]) {
        assert AgreeOn(a, b, k.kind);
        assert k == Key(k.kind, k.id);
      }
    }
  }

  ghost predicate SameElsewhere(a: map<Key, Entity>, b: map<Key, Entity>, kind: Kind) {
    forall k: Key :: k.kind != kind ==> (k in a <==> k in b) && (k in a ==> a[k] == b[k])
  }

  lemma NothingElsewhere(a: map<Key, Entity>, kind: Kind)
    ensures SameElsewhere(a, a, kind)
  {
  }

  lemma SameElsewhereStep(a: map<Key, Entity>, b: map<Key, Entity>, k: Key, value: Entity)
    requires SameElsewhere(a, b, k.kind)
    ensures SameElsewhere(a[k := value], b, k.kind)
  {
  }

  lemma StartsUpserted(rows: map<Key, Entity>, before: map<Key, Entity>, after: map<Key, Entity>, kind: Kind)
    requires AgreeOn(rows, before, kind)
    ensures Upserted(rows, before, after, kind, {})
  {
    forall k | (k in rows || k in before) && k.kind == kind ensures k in rows && k in before && rows[k] == before[k] {
      assert k == Key(kind, k.id);
    }
  }

  /** What the upsert loop knows about a collection after the entries in `done`: a row is an
      original one or the value of a changed entry addressed to it, and every such entry reached
      its address. */
  ghost predicate Upserted(rows: map<Key, Entity>, before: map<Key, Entity>, after: map<Key, Entity>,
                           kind: Kind, done: set<Key>)
    requires forall k :: k in done ==> k in after
  {
    && (forall k :: k in before && k.kind == kind ==> k in rows)
    && (forall k :: k in rows && k.kind == kind ==>
          || (k in before && rows[k] == before[k])
          || WrittenBy(rows, before, after, k, done))
    && (forall k :: k in done && Changed(before, after, k) ==>
          Target(after, k) in rows && WrittenBy(rows, before, after, Target(after, k), done))
  }

  ghost predicate WrittenBy(rows: map<Key, Entity>, before: map<Key, Entity>, after: map<Key, Entity>,
                            k: Key, done: set<Key>)
    requires forall s :: s in done ==> s in after
    requires k in rows
  {
    exists s :: s in done && Changed(before, after, s) && Target(after, s) == k && rows[k] == after[s]
  }

  lemma UpsertStep(rows: map<Key, Entity>, before: map<Key, Entity>, after: map<Key, Entity>,
                   kind: Kind, done: set<Key>, s: Key)
    requires forall k :: k in done ==> k in after
    requires s in after && s.kind == kind && Upserted(rows, before, after, kind, done)
    ensures var rows' := if Changed(before, after, s) then rows[Target(after, s) := after[s]] else rows;
            Upserted(rows', before, after, kind, done + {s})
  {
    var done' := done + {s};
    var rows' := if Changed(before, after, s) then rows[Target(after, s) := after[s]] else rows;
    forall k | k in rows && WrittenBy(rows, before, after, k, done)
      ensures WrittenBy(rows', before, after, k, done')
    {
      var w :| w in done && Changed(before, after, w) && Target(after, w) == k && rows[k] == after[w];
      assert w in done';
      assert s in done';
    }
    if Changed(before, after, s) {
      assert WrittenBy(rows', before, after, Target(after, s), done') by { assert s in done'; }
    }
  }

  /** After every entry of the collection has been upserted and, for agents, every missing one
      deleted, the rows hold the collection exactly when it persists. */
  lemma UpsertOutcome(upserted: map<Key, Entity>, rows: map<Key, Entity>, before: map<Key, Entity>,
                      after: map<Key, Entity>, kind: Kind, done: set<Key>)
    requires forall k :: k in done <==> k in after && k.kind == kind
    requires Upserted(upserted, before, after, kind, done)
    requires forall k: Key :: k.kind == kind ==>
               (k in rows <==> k in upserted && !(kind == Agents && k in before && k !in after))
    requires forall k :: k in rows && k.kind == kind ==> rows[k] == upserted[k]
    ensures AgreeOn(rows, after, kind) <==> KindPersists(before, after, kind)
    ensures KindAddressed(before, after, kind) ==> AgreeOn(rows, WithLeftovers(before, after), kind)
  {
    if KindAddressed(before, after, kind) {
      AddressedAgrees(upserted, rows, before, after, kind, done);
    }
    if !KindPersists(before, after, kind) {
      var k := Unpersisted(before, after, kind);
      assert k == Key(kind, k.id);
      if k in after {
        hide KindPersists, Upserted, WrittenBy;
        var m := MismatchShows(upserted, before, after, kind, done, k);
        assert m == Key(kind, m.id) && m in rows ==> rows[m] == upserted[m];
      }
    }
  }

  /** What keeps a collection from persisting: a key that was lost, or an entry that is not written under its key. */
  lemma Unpersisted(before: map<Key, Entity>, after: map<Key, Entity>, kind: Kind) returns (k: Key)
    requires !KindPersists(before, after, kind)
    ensures k.kind == kind
    ensures k !in after ==> k in before && kind != Agents
    ensures k in after ==> if Changed(before, after, k) then Target(after, k) != k else k !in before
  {
    hide Changed, Target;
    if kind != Agents && exists m :: m in before && m.kind == kind && m !in after {
      k :| k in before && k.kind == kind && k !in after;
    } else {
      k :| k in after && k.kind == kind && if Changed(before, after, k) then Target(after, k) != k else k !in before;
    }
  }

  lemma AddressedAgrees(upserted: map<Key, Entity>, rows: map<Key, Entity>, before: map<Key, Entity>,
                        after: map<Key, Entity>, kind: Kind, done: set<Key>)
    requires forall k :: k in done <==> k in after && k.kind == kind
    requires Upserted(upserted, before, after, kind, done) && KindAddressed(before, after, kind)
    requires forall k: Key :: k.kind == kind ==>
               (k in rows <==> k in upserted && !(kind == Agents && k in before && k !in after))
    requires forall k :: k in rows && k.kind == kind ==> rows[k] == upserted[k]
    ensures AgreeOn(rows, WithLeftovers(before, after), kind)
    ensures KindPersists(before, after, kind) ==> AgreeOn(rows, after, kind)
  {
    hide KindAddressed, Upserted, AgreeOn, KindPersists;
    forall id ensures Agree(rows, WithLeftovers(before, after), Key(kind, id)) {
      AddressedEntry(upserted, before, after, kind, done, Key(kind, id));
    }
    AgreesOn(rows, WithLeftovers(before, after), kind);
    if KindPersists(before, after, kind) {
      NothingLeftOver(before, after, kind);
      hide WithLeftovers;
      AgreesAlike(rows, WithLeftovers(before, after), after, kind);
    }
  }

  lemma AgreesOn(a: map<Key, Entity>, b: map<Key, Entity>, kind: Kind)
    requires forall id :: Agree(a, b, Key(kind, id))
    ensures AgreeOn(a, b, kind)
  {
    forall id ensures var k := Key(kind, id); (k in a <==> k in b) && (k in a ==> a[k] == b[k]) {
      assert Agree(a, b, Key(kind, id));
    }
  }

  lemma NothingLeftOver(before: map<Key, Entity>, after: map<Key, Entity>, kind: Kind)
    requires KindPersists(before, after, kind)
    ensures AgreeOn(WithLeftovers(before, after), after, kind)
  {
    hide KindAddressed;
  }

  lemma AgreesAlike(a: map<Key, Entity>, b: map<Key, Entity>, c: map<Key, Entity>, kind: Kind)
    requires AgreeOn(a, b, kind) && AgreeOn(b, c, kind)
    ensures AgreeOn(a, c, kind)
  {
  }

  predicate Agree(a: map<Key, Entity>, b: map<Key, Entity>, k: Key) {
    (k in a <==> k in b) && (k in a ==> a[k] == b[k])
  }

  lemma AddressedEntry(upserted: map<Key, Entity>, before: map<Key, Entity>, after: map<Key, Entity>, kind: Kind,
                       done: set<Key>, k: Key)
    requires forall s :: s in done <==> s in after && s.kind == kind
    requires Upserted(upserted, before, after, kind, done) && KindAddressed(before, after, kind)
    requires k.kind == kind
    ensures k in after ==> k in upserted && upserted[k] == after[k]
    ensures k !in after ==> (k in upserted <==> k in before) && (k in before ==> upserted[k] == before[k])
  {
    if k in after {
      assert k in done;
      if Changed(before, after, k) {
        assert Target(after, k) == k;
      }
    } else if k in upserted {
      NotWritten(upserted, before, after, kind, done, k);
      hide WrittenBy;
    }
  }

  lemma NotWritten(upserted: map<Key, Entity>, before: map<Key, Entity>, after: map<Key, Entity>, kind: Kind,
                   done: set<Key>, k: Key)
    requires forall s :: s in done <==> s in after && s.kind == kind
    requires KindAddressed(before, after, kind) && k !in after && k in upserted && k.kind == kind
    ensures !WrittenBy(upserted, before, after, k, done)
  {
  }

  lemma MismatchShows(rows: map<Key, Entity>, before: map<Key, Entity>, after: map<Key, Entity>,
                      kind: Kind, done: set<Key>, k: Key) returns (m: Key)
    requires forall k :: k in done <==> k in after && k.kind == kind
    requires Upserted(rows, before, after, kind, done)
    requires k in after && k.kind == kind
    requires if Changed(before, after, k) then Target(after, k) != k else k !in before
    ensures m in after && m.kind == kind && (m !in rows || rows[m] != after[m])
  {
    m := k;
    if k in rows && rows[k] == after[k] {
      assert WrittenBy(rows, before, after, k, done);
      var s :| s in done && Changed(before, after, s) && Target(after, s) == k && rows[k] == after[s];
      // The value stored at k carries k's ID, so k itself is unchanged, hence zero and new; then s is misaddressed.
      assert after[s] == ZERO && s != k;
      m := s;
    }
  }

  const KINDS := [Agents, Tasks, Messages, Invocations, Deliveries, Runtimes,
                  Policies, Approvals, Documents, Artifacts, Env, Providers]

  function KindIndex(kind: Kind): (i: nat)
    ensures i < |KINDS| && KINDS[i] == kind
  {
    match kind
    case Agents => 0 case Tasks => 1 case Messages => 2 case Invocations => 3
    case Deliveries => 4 case Runtimes => 5 case Policies => 6 case Approvals => 7
    case Documents => 8 case Artifacts => 9 case Env => 10 case Providers => 11
  }

  /** The tables as one transaction sees them. */
  class Tables {
    var entities: map<Key, Entity>
    var settings: Option<string>

    constructor (rows: Rows)
      ensures Contents() == rows
    {
      entities, settings := rows.entities, rows.settings;
    }

    function Contents(): Rows
      reads this
    {
      Rows(entities, settings)
    }

    /** Upsert one entry if it changed. */
    method Upsert(before: map<Key, Entity>, after: map<Key, Entity>, k: Key, ghost start: map<Key, Entity>,
                  ghost done: set<Key>)
      requires k in after && forall s :: s in done ==> s in after
      requires Upserted(entities, before, after, k.kind, done) && SameElsewhere(entities, start, k.kind)
      modifies this`entities
      ensures Upserted(entities, before, after, k.kind, done + {k}) && SameElsewhere(entities, start, k.kind)
    {
      UpsertStep(entities, before, after, k.kind, done, k);
      hide Upserted;
      if Changed(before, after, k) {
        SameElsewhereStep(entities, start, Target(after, k), after[k]);
        entities := entities[Target(after, k) := after[k]];
      }
    }

    /** Upsert the changed entries of one collection, in whatever order the map yields them. */
    method UpsertKind(kind: Kind, before: map<Key, Entity>, after: map<Key, Entity>) returns (ghost done: set<Key>)
      requires AgreeOn(entities, before, kind)
      modifies this`entities
      ensures forall k :: k in done <==> k in after && k.kind == kind
      ensures Upserted(entities, before, after, kind, done)
      ensures SameElsewhere(entities, old(entities), kind)
    {
      var todo := set k | k in after && k.kind == kind;
      ghost var all := todo;
      done := {};
      hide Upserted, AgreeOn, SameElsewhere;
      StartsUpserted(entities, before, after, kind);
      NothingElsewhere(entities, kind);
      while todo != {}
        invariant all == done + todo
        invariant Upserted(entities, before, after, kind, done)
        invariant SameElsewhere(entities, old(entities), kind)
        decreases |todo|
      {
        var k :| k in todo;
        Upsert(before, after, k, old(entities), done);
        todo, done := todo - {k}, done + {k};
      }
    }

    method DeleteAll(gone: set<Key>)
      modifies this`entities
      ensures entities == old(entities) - gone
    {
      var todo := gone;
      while todo != {}
        invariant todo <= gone
        invariant entities == old(entities) - (gone - todo)
        decreases |todo|
      {
        var k :| k in todo;
        entities := entities - {k};
        todo := todo - {k};
      }
    }

    method PersistKind(kind: Kind, before: map<Key, Entity>, after: map<Key, Entity>)
      requires AgreeOn(entities, before, kind)
      modifies this`entities
      ensures AgreeOn(entities, after, kind) <==> KindPersists(before, after, kind)
      ensures KindAddressed(before, after, kind) ==> AgreeOn(entities, WithLeftovers(before, after), kind)
      ensures SameElsewhere(entities, old(entities), kind)
    {
      ghost var done := UpsertKind(kind, before, after);
      ghost var upserted := entities;
      if kind == Agents {
        DeleteAll(set k | k in before && k.kind == Agents && k !in after);
      }
      UpsertOutcome(upserted, entities, before, after, kind, done);
    }

    /** `persistProjectionChanges`: write the difference between two states.  Reloading yields the
        new state exactly when it is persistable over the old one; and what it yields otherwise, as long
        as its entries find their rows, is the new state with what should have gone. */
    method PersistProjectionChanges(before: State, after: State)
      requires Load(Contents()) == before
      modifies this
      ensures Load(Contents()) == after <==> Persistable(before, after)
      ensures Load(Contents()).settings == after.settings
      ensures Addressed(before, after) ==> Load(Contents()).entities == WithLeftovers(before.entities, after.entities)
    {
      hide AgreeOn, KindPersists, KindAddressed, Addressed, WithLeftovers, SameElsewhere, Persisted;
      if before.settings != after.settings {
        settings := Some(after.settings);
      }
      PersistedNone(entities, before.entities, after.entities);
      for i := 0 to |KINDS|
        invariant Load(Contents()).settings == after.settings
        invariant Persisted(entities, before.entities, after.entities, i)
      {
        ghost var was := entities;
        PersistedNext(was, before.entities, after.entities, i);
        PersistKind(KINDS[i], before.entities, after.entities);
        PersistedOne(was, entities, before.entities, after.entities, i);
      }
      PersistedAll(entities, before, after);
    }
  }

  /** The first `n` collections are written, as far as they can be, and the others are as before. */
  ghost predicate Persisted(rows: map<Key, Entity>, before: map<Key, Entity>, after: map<Key, Entity>, n: nat) {
    && (forall kind :: KindIndex(kind) < n ==>
          && (AgreeOn(rows, after, kind) <==> KindPersists(before, after, kind))
          && (KindAddressed(before, after, kind) ==> AgreeOn(rows, WithLeftovers(before, after), kind)))
    && (forall kind :: KindIndex(kind) >= n ==> AgreeOn(rows, before, kind))
  }

  lemma PersistedNone(rows: map<Key, Entity>, before: map<Key, Entity>, after: map<Key, Entity>)
    requires rows == before
    ensures Persisted(rows, before, after, 0)
  {
    AgreeEverywhere(rows, before);
    hide AgreeOn, KindPersists, KindAddressed, WithLeftovers;
  }

  lemma PersistedNext(rows: map<Key, Entity>, before: map<Key, Entity>, after: map<Key, Entity>, n: nat)
    requires n < |KINDS| && Persisted(rows, before, after, n)
    ensures AgreeOn(rows, before, KINDS[n])
  {
    hide AgreeOn, KindPersists, KindAddressed, WithLeftovers;
    KindAt(n);
  }

  lemma KindAt(n: nat)
    requires n < |KINDS|
    ensures KindIndex(KINDS[n]) == n
  {
  }

  lemma PersistedOne(was: map<Key, Entity>, rows: map<Key, Entity>, before: map<Key, Entity>, after: map<Key, Entity>,
                     n: nat)
    requires n < |KINDS| && Persisted(was, before, after, n) && SameElsewhere(rows, was, KINDS[n])
    requires AgreeOn(rows, after, KINDS[n]) <==> KindPersists(before, after, KINDS[n])
    requires KindAddressed(before, after, KINDS[n]) ==> AgreeOn(rows, WithLeftovers(before, after), KINDS[n])
    ensures Persisted(rows, before, after, n + 1)
  {
    hide KindPersists, KindAddressed, WithLeftovers, KindIndex;
    KindAt(n);
    ElsewhereAgrees(rows, was, before, KINDS[n]);
    ElsewhereAgrees(rows, was, after, KINDS[n]);
    ElsewhereAgrees(rows, was, WithLeftovers(before, after), KINDS[n]);
    hide AgreeOn, SameElsewhere;
    forall kind ensures KindIndex(kind) == n ==> kind == KINDS[n] {
    }
  }

  lemma ElsewhereAgrees(now: map<Key, Entity>, was: map<Key, Entity>, m: map<Key, Entity>, kind: Kind)
    requires SameElsewhere(now, was, kind)
    ensures forall other :: other != kind ==> (AgreeOn(now, m, other) <==> AgreeOn(was, m, other))
  {
  }

  lemma PersistedAll(rows: map<Key, Entity>, before: State, after: State)
    requires Persisted(rows, before.entities, after.entities, |KINDS|)
    ensures rows == after.entities <==> Persistable(before, after)
    ensures Addressed(before, after) ==> rows == WithLeftovers(before.entities, after.entities)
  {
    AgreeEverywhere(rows, after.entities);
    AgreeEverywhere(rows, WithLeftovers(before.entities, after.entities));
    hide AgreeOn, KindPersists, KindAddressed, WithLeftovers, KindIndex;
    assert forall kind :: KindIndex(kind) < |KINDS|;
  }

  // ---------------------------------------------------------------- what the row store loses

  /** What it takes for a collection to survive: an entry is unchanged, or is no blank new one and, if an agent
      or a task, carries its own ID; and nothing but agents was removed. */
  lemma KindPersistsIff(before: map<Key, Entity>, after: map<Key, Entity>, kind: Kind)
    ensures KindAddressed(before, after, kind) <==>
            forall id :: Key(kind, id) in after ==>
              || (Key(kind, id) in before && before[Key(kind, id)] == after[Key(kind, id)])
              || (&& (Key(kind, id) in before || after[Key(kind, id)] != Entity("", ""))
                  && (kind == Agents || kind == Tasks ==> after[Key(kind, id)].id == id))
    ensures KindPersists(before, after, kind) <==>
              && KindAddressed(before, after, kind)
              && (kind != Agents ==> forall id :: Key(kind, id) in before ==> Key(kind, id) in after)
  {
    forall k: Key | k.kind == kind ensures k == Key(kind, k.id) {
    }
  }

  /** Removing an environment entry (or a runtime) is a change the diff never writes: any state that
      still holds the entry differs from the rows afterwards. */
  lemma RemovalIsNotPersisted(before: State, k: Key)
    requires k in before.entities
    ensures Persistable(before, before.(entities := before.entities - {k})) <==> k.kind == Agents
  {
    var after := before.(entities := before.entities - {k});
    if k.kind != Agents {
      assert !KindPersists(before.entities, after.entities, k.kind);
    }
  }

  lemma RemovalChangesNothing(before: State, k: Key)
    requires k in before.entities && k.kind != Agents
    ensures Addressed(before, before.(entities := before.entities - {k}))
    ensures WithLeftovers(before.entities, before.entities - {k}) == before.entities
  {
    var after := before.entities - {k};
    forall kind ensures KindAddressed(before.entities, after, kind) {
    }
  }

  /** A concrete loss: deleting the environment entry TOKEN leaves its row behind. */
  lemma EnvDeletionIsLost()
    ensures var before := State(map[Key(Env, "TOKEN") := Entity("TOKEN", "secret")], DEFAULT_SETTINGS);
            !Persistable(before, EMPTY)
  {
    var before := State(map[Key(Env, "TOKEN") := Entity("TOKEN", "secret")], DEFAULT_SETTINGS);
    assert before.entities - {Key(Env, "TOKEN")} == map[];
    RemovalIsNotPersisted(before, Key(Env, "TOKEN"));
  }
}
