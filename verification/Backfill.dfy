/** The derived-state migration: replay every project's chain and rewrite the rows whose replayed value
    differs, or refuse and leave everything as it was. */
module Backfill {
  import opened Results
  import opened Contracts
  import opened Projection
  import opened Authority
  import opened AuthorityRuns

  /** What the replay checks of a chain: sequences, links and hashes, but no receipts. */
  predicate LinksHold(rows: seq<Record>, expected: nat, previous: Hash) {
    rows == [] ||
    (&& rows[0].event.sequence == expected
     && rows[0].event.previousHash == previous
     && HashEvent(rows[0].event) == Some(rows[0].event.hash)
     && LinksHold(rows[1..], expected + 1, rows[0].event.hash))
  }

  /** A complete chain that ends at the stored head, with its fold. */
  ghost predicate Replays(apply: Projector, rows: seq<Record>, headSequence: nat, headHash: Hash, state: State) {
    && LinksHold(rows, 1, Genesis)
    && |rows| == headSequence
    && LastHash(rows, Genesis) == headHash
    && Fold(apply, rows) == Some(state)
  }

  lemma {:induction false} LinksSplit(rows: seq<Record>, i: nat, expected: nat, previous: Hash)
    requires i < |rows|
    ensures LinksHold(rows[..i + 1], expected, previous) <==>
            && LinksHold(rows[..i], expected, previous)
            && rows[i].event.sequence == expected + i
            && rows[i].event.previousHash == LastHash(rows[..i], previous)
            && HashEvent(rows[i].event) == Some(rows[i].event.hash)
  {
    hide HashEvent;
    if i == 0 {
      assert rows[..1][1..] == [];
    } else {
      LinksSplit(rows[1..], i - 1, expected + 1, rows[0].event.hash);
      assert rows[..i + 1][1..] == rows[1..][..i];
      assert rows[..i][1..] == rows[1..][..i - 1];
    }
  }

  lemma {:induction false} LinksPrefix(rows: seq<Record>, i: nat, expected: nat, previous: Hash)
    requires i <= |rows| && LinksHold(rows, expected, previous)
    ensures LinksHold(rows[..i], expected, previous)
  {
    hide HashEvent;
    if i > 0 {
      LinksPrefix(rows[1..], i - 1, expected + 1, rows[0].event.hash);
      assert rows[..i][1..] == rows[1..][..i - 1];
    }
  }

  /** One event of a history: numbered without a gap, linked to the one before, correctly hashed. */
  predicate FollowsOn(rows: seq<Record>, i: nat)
    requires i < |rows|
  {
    && rows[i].event.sequence == i + 1
    && rows[i].event.previousHash == (if i == 0 then Genesis else rows[i - 1].event.hash)
    && HashEvent(rows[i].event) == Some(rows[i].event.hash)
  }

  /** A history is replayed exactly if each of its events follows on, it has as many as the head says and ends
      in the head's hash, and it folds; receipts are not looked at. */
  lemma {:induction false} ReplaysMeaning(apply: Projector, rows: seq<Record>, headSequence: nat, headHash: Hash,
                                          state: State)
    ensures Replays(apply, rows, headSequence, headHash, state) <==>
              && (forall i :: 0 <= i < |rows| ==> FollowsOn(rows, i))
              && |rows| == headSequence && headHash == (if rows == [] then Genesis else rows[|rows| - 1].event.hash)
              && Fold(apply, rows) == Some(state)
  {
    hide HashEvent, Fold, LinksHold;
    if LinksHold(rows, 1, Genesis) {
      forall i | 0 <= i < |rows| ensures FollowsOn(rows, i) {
        LinksPrefix(rows, i + 1, 1, Genesis);
        LinksSplit(rows, i, 1, Genesis);
      }
    }
    if forall i :: 0 <= i < |rows| ==> FollowsOn(rows, i) {
      AllFollowOn(rows, |rows|);
      assert rows[..|rows|] == rows;
    }
  }

  lemma {:induction false} AllFollowOn(rows: seq<Record>, n: nat)
    requires n <= |rows| && forall i :: 0 <= i < |rows| ==> FollowsOn(rows, i)
    ensures LinksHold(rows[..n], 1, Genesis)
  {
    hide HashEvent;
    if n > 0 {
      AllFollowOn(rows, n - 1);
      assert FollowsOn(rows, n - 1);
      LinksSplit(rows, n - 1, 1, Genesis);
    }
  }

  /** `replayProjectEvents`. */
  method ReplayProjectEvents(apply: Projector, rows: seq<Record>, headSequence: nat, headHash: Hash)
    returns (r: Option<State>)
    ensures r.Some? ==> Replays(apply, rows, headSequence, headHash, r.value)
    ensures r.None? ==> forall state :: !Replays(apply, rows, headSequence, headHash, state)
  {
    hide HashEvent, ApplyEvent, LinksHold;
    var state := EMPTY;
    var expected, previous := 1, Genesis;
    LinksNone(rows);
    for i := 0 to |rows|
      invariant expected == i + 1 && previous == LastHash(rows[..i], Genesis)
      invariant LinksHold(rows[..i], 1, Genesis)
      invariant Fold(apply, rows[..i]) == Some(state)
    {
      var event := rows[i].event;
      LinksSplit(rows, i, 1, Genesis);
      assert rows[..i + 1] == rows[..i] + [rows[i]];
      FoldSnoc(apply, rows[..i], rows[i]);
      if event.sequence != expected || event.previousHash != previous || HashEvent(event) != Some(event.hash) {
        if LinksHold(rows, 1, Genesis) {
          LinksPrefix(rows, i + 1, 1, Genesis);
          assert false;
        }
        return None;
      }
      var next := ApplyEvent(apply, state, event);
      if next.None? {
        if Fold(apply, rows).Some? {
          FoldPrefix(apply, rows, i + 1);
          assert false;
        }
        return None;
      }
      state := next.value;
      previous := event.hash;
      expected := expected + 1;
    }
    assert rows[..|rows|] == rows;
    if expected - 1 != headSequence || previous != headHash {
      return None;
    }
    return Some(state);
  }

  lemma LinksNone(rows: seq<Record>)
    ensures LinksHold(rows[..0], 1, Genesis)
  {
  }

  /** The ten collections the migration rewrites; deliveries and providers are not among them. */
  const REWRITTEN := [Agents, Tasks, Messages, Invocations, Runtimes, Policies, Approvals, Documents, Artifacts, Env]

  predicate IsRewritten(kind: Kind) {
    kind != Deliveries && kind != Providers
  }

  function RewrittenIndex(kind: Kind): (i: nat)
    requires IsRewritten(kind)
    ensures i < |REWRITTEN| && REWRITTEN[i] == kind
  {
    match kind
    case Agents => 0 case Tasks => 1 case Messages => 2 case Invocations => 3 case Runtimes => 4
    case Policies => 5 case Approvals => 6 case Documents => 7 case Artifacts => 8 case Env => 9
  }

  function KeysOf(m: map<Key, Entity>, kind: Kind): set<Key> {
    set k | k in m && k.kind == kind
  }

  /** The rows after the migration: replayed values where they are rewritten. */
  function Rewrite(rows: map<Key, Entity>, replayed: map<Key, Entity>): map<Key, Entity> {
    map k | k in rows :: if IsRewritten(k.kind) && k in replayed then replayed[k] else rows[k]
  }

  /** Storage and history agree on which rewritten entities exist. */
  ghost predicate SameEntities(rows: map<Key, Entity>, replayed: map<Key, Entity>) {
    forall kind :: IsRewritten(kind) ==> KeysOf(rows, kind) == KeysOf(replayed, kind)
  }

  lemma EqualSizeInclusion<T>(a: set<T>, b: set<T>)
    requires |a| == |b| && b <= a
    ensures a == b
  {
    assert |a - b| == |a| - |b|;
  }

  lemma SameKeys(a: map<Key, Entity>, b: map<Key, Entity>, kind: Kind)
    requires KeysOf(a, kind) == KeysOf(b, kind)
    ensures forall id :: Key(kind, id) in a <==> Key(kind, id) in b
  {
    forall id ensures Key(kind, id) in a <==> Key(kind, id) in b {
      assert Key(kind, id) in KeysOf(a, kind) <==> Key(kind, id) in a;
    }
  }

  /** Where the update loop stands after the entries in `done`, having made `writes` updates. */
  ghost predicate Progress(rows: map<Key, Entity>, start: map<Key, Entity>, stored: map<Key, Entity>,
                           replayed: map<Key, Entity>, kind: Kind, done: set<Key>, writes: nat)
  {
    && SameElsewhere(rows, start, kind)
    && Partly(rows, stored, replayed, kind, done)
    && done <= stored.Keys
    && writes == |Differing(stored, replayed, done)|
  }

  /** Update one row if its replayed value differs. */
  method RewriteEntry(tables: Tables, k: Key, stored: map<Key, Entity>, replayed: map<Key, Entity>,
                      ghost start: map<Key, Entity>, ghost done: set<Key>, writes: nat)
    returns (writes': nat)
    requires k in stored && k in replayed
    requires Progress(tables.entities, start, stored, replayed, k.kind, done, writes) && k !in done
    modifies tables`entities
    ensures Progress(tables.entities, start, stored, replayed, k.kind, done + {k}, writes')
  {
    DifferingStep(stored, replayed, done, k);
    hide Differing;
    if stored[k] != replayed[k] {
      tables.entities := tables.entities[k := replayed[k]];
      return writes + 1;
    }
    return writes;
  }

  /** One collection: compare sizes, then update every row whose replayed value differs, in whatever
      order the map yields them.  `writes` counts the updates. */
  method RewriteChangedStates(tables: Tables, kind: Kind, stored: map<Key, Entity>, replayed: map<Key, Entity>)
    returns (ok: bool, writes: nat)
    requires AgreeOn(tables.entities, stored, kind)
    modifies tables`entities
    ensures ok <==> KeysOf(stored, kind) == KeysOf(replayed, kind)
    ensures ok ==> AgreeOn(tables.entities, replayed, kind)
    ensures ok ==> writes == |Differing(stored, replayed, KeysOf(replayed, kind))|
    ensures ok ==> (writes == 0 <==> AgreeOn(stored, replayed, kind))
    ensures SameElsewhere(tables.entities, old(tables.entities), kind)
  {
    writes := 0;
    var storedKeys, replayedKeys := KeysOf(stored, kind), KeysOf(replayed, kind);
    if |storedKeys| != |replayedKeys| {
      return false, 0;
    }
    ok, writes := RewriteEntries(tables, kind, stored, replayed, replayedKeys);
    if ok {
      EqualSizeInclusion(storedKeys, replayedKeys);
      RewrittenKind(tables.entities, stored, replayed, kind);
    }
  }

  method RewriteEntries(tables: Tables, kind: Kind, stored: map<Key, Entity>, replayed: map<Key, Entity>,
                        keys: set<Key>)
    returns (ok: bool, writes: nat)
    requires AgreeOn(tables.entities, stored, kind)
    requires forall k :: k in keys ==> k in replayed && k.kind == kind
    modifies tables`entities
    ensures ok <==> keys <= stored.Keys
    ensures ok ==> Partly(tables.entities, stored, replayed, kind, keys)
    ensures ok ==> writes == |Differing(stored, replayed, keys)|
    ensures SameElsewhere(tables.entities, old(tables.entities), kind)
  {
    hide Progress, AgreeOn, SameElsewhere, Partly, Differing;
    writes := 0;
    var todo := keys;
    NoProgress(tables.entities, stored, replayed, kind);
    ghost var done := {};
    while todo != {}
      invariant todo <= keys && done == keys - todo
      invariant Progress(tables.entities, old(tables.entities), stored, replayed, kind, done, writes)
      decreases |todo|
    {
      var k :| k in todo;
      if k !in stored {
        Elsewhere(tables.entities, old(tables.entities), stored, replayed, kind, done, writes);
        return false, writes;
      }
      writes := RewriteEntry(tables, k, stored, replayed, old(tables.entities), done, writes);
      todo, done := todo - {k}, done + {k};
    }
    assert done == keys;
    Elsewhere(tables.entities, old(tables.entities), stored, replayed, kind, done, writes);
    ok := true;
  }

  lemma NoProgress(rows: map<Key, Entity>, stored: map<Key, Entity>, replayed: map<Key, Entity>, kind: Kind)
    requires AgreeOn(rows, stored, kind)
    ensures Progress(rows, rows, stored, replayed, kind, {}, 0)
  {
    assert Partly(rows, stored, replayed, kind, {}) && Differing(stored, replayed, {}) == {};
  }

  lemma Elsewhere(rows: map<Key, Entity>, start: map<Key, Entity>, stored: map<Key, Entity>,
                  replayed: map<Key, Entity>, kind: Kind, done: set<Key>, writes: nat)
    requires Progress(rows, start, stored, replayed, kind, done, writes)
    ensures SameElsewhere(rows, start, kind) && Partly(rows, stored, replayed, kind, done)
    ensures done <= stored.Keys && writes == |Differing(stored, replayed, done)|
  {
  }

  /** The entries whose stored value is not the replayed one. */
  ghost function Differing(stored: map<Key, Entity>, replayed: map<Key, Entity>, done: set<Key>): set<Key> {
    set k | k in done && k in stored && k in replayed && stored[k] != replayed[k]
  }

  lemma DifferingStep(stored: map<Key, Entity>, replayed: map<Key, Entity>, done: set<Key>, k: Key)
    requires k in stored && k in replayed && k !in done
    ensures |Differing(stored, replayed, done + {k})| ==
            |Differing(stored, replayed, done)| + if stored[k] != replayed[k] then 1 else 0
  {
    assert Differing(stored, replayed, done + {k}) ==
           Differing(stored, replayed, done) + if stored[k] != replayed[k] then {k} else {};
  }

  lemma RewrittenKind(rows: map<Key, Entity>, stored: map<Key, Entity>, replayed: map<Key, Entity>, kind: Kind)
    requires KeysOf(stored, kind) == KeysOf(replayed, kind)
    requires Partly(rows, stored, replayed, kind, KeysOf(replayed, kind))
    ensures AgreeOn(rows, replayed, kind)
    ensures AgreeOn(stored, replayed, kind) <==> |Differing(stored, replayed, KeysOf(replayed, kind))| == 0
  {
    var keys := KeysOf(replayed, kind);
    SameKeys(stored, replayed, kind);
    forall k | k in keys ensures k == Key(kind, k.id) && k in stored {
      assert k in KeysOf(stored, kind);
    }
    hide Partly;
    NoneDiffer(stored, replayed, kind, keys);
  }

  lemma NoneDiffer(stored: map<Key, Entity>, replayed: map<Key, Entity>, kind: Kind, keys: set<Key>)
    requires keys == KeysOf(replayed, kind) == KeysOf(stored, kind)
    ensures AgreeOn(stored, replayed, kind) <==> Differing(stored, replayed, keys) == {}
  {
    SameKeys(stored, replayed, kind);
    if Differing(stored, replayed, keys) == {} {
      forall id | Key(kind, id) in replayed ensures stored[Key(kind, id)] == replayed[Key(kind, id)] {
        assert Key(kind, id) in keys && Key(kind, id) !in Differing(stored, replayed, keys);
      }
    } else {
      var k :| k in Differing(stored, replayed, keys);
      assert k == Key(kind, k.id);
    }
  }

  /** Rows of one collection part way through: replayed where done, stored elsewhere. */
  ghost predicate Partly(rows: map<Key, Entity>, stored: map<Key, Entity>, replayed: map<Key, Entity>, kind: Kind,
                         done: set<Key>) {
    forall id :: var k := Key(kind, id);
      && (k in rows <==> k in stored)
      && (k in rows ==> if k in done then k in replayed && rows[k] == replayed[k] else rows[k] == stored[k])
  }

  ghost predicate Pending(rows: map<Key, Entity>, stored: map<Key, Entity>, i: nat) {
    forall kind :: IsRewritten(kind) ==> RewrittenIndex(kind) >= i ==> AgreeOn(rows, stored, kind)
  }

  ghost predicate Finished(rows: map<Key, Entity>, target: map<Key, Entity>, i: nat) {
    forall kind :: IsRewritten(kind) ==> RewrittenIndex(kind) < i ==> AgreeOn(rows, target, kind)
  }

  ghost predicate Untouched(rows: map<Key, Entity>, stored: map<Key, Entity>) {
    forall kind :: !IsRewritten(kind) ==> AgreeOn(rows, stored, kind)
  }

  ghost predicate SameUpTo(stored: map<Key, Entity>, target: map<Key, Entity>, i: nat) {
    forall kind :: IsRewritten(kind) ==> RewrittenIndex(kind) < i ==> KeysOf(stored, kind) == KeysOf(target, kind)
  }

  /** Rewrite all ten collections; every one is attempted even after another has failed. */
  method RewriteAll(tables: Tables, stored: map<Key, Entity>, target: map<Key, Entity>) returns (ok: bool, writes: nat)
    requires tables.entities == stored
    modifies tables`entities
    ensures ok <==> SameEntities(stored, target)
    ensures ok ==> tables.entities == Rewrite(stored, target)
    ensures ok ==> (writes == 0 <==> tables.entities == stored)
  {
    ok, writes := true, 0;
    for i := 0 to |REWRITTEN|
      invariant ok <==> SameUpTo(stored, target, i)
      invariant Pending(tables.entities, stored, i) && Untouched(tables.entities, stored)
      invariant ok ==> Finished(tables.entities, target, i)
      invariant ok ==> (writes == 0 <==> Finished(stored, target, i))
    {
      var one, changes := RewriteNext(tables, i, stored, target);
      ok := ok && one;
      writes := writes + changes;
    }
    if ok {
      RewriteOutcome(tables.entities, stored, target);
    }
  }

  method RewriteNext(tables: Tables, i: nat, stored: map<Key, Entity>, target: map<Key, Entity>)
    returns (ok: bool, writes: nat)
    requires i < |REWRITTEN| && Pending(tables.entities, stored, i) && Untouched(tables.entities, stored)
    modifies tables`entities
    ensures Pending(tables.entities, stored, i + 1) && Untouched(tables.entities, stored)
    ensures SameUpTo(stored, target, i + 1) <==> SameUpTo(stored, target, i) && ok
    ensures ok && old(Finished(tables.entities, target, i)) ==> Finished(tables.entities, target, i + 1)
    ensures ok ==> (Finished(stored, target, i + 1) <==> Finished(stored, target, i) && writes == 0)
  {
    var kind := REWRITTEN[i];
    assert RewrittenIndex(kind) == i;
    assert forall other :: IsRewritten(other) && RewrittenIndex(other) == i ==> other == kind;
    ghost var was := tables.entities;
    ok, writes := RewriteChangedStates(tables, kind, stored, target);
    ElsewhereAgrees(tables.entities, was, stored, kind);
    ElsewhereAgrees(tables.entities, was, target, kind);
    hide AgreeOn, KeysOf;
  }

  /** `backfillProject`, inside the migration's transaction. */
  method BackfillProject(apply: Projector, p: Project, tables: Tables) returns (ok: bool, writes: nat)
    requires tables.Contents() == p.rows
    modifies tables
    ensures ok <==> exists state :: Replays(apply, p.events, p.headSequence, p.headHash, state)
                                    && SameEntities(p.rows.entities, state.entities)
    ensures ok ==> exists state :: Replays(apply, p.events, p.headSequence, p.headHash, state)
                                    && tables.Contents() ==
                                       Rows(Rewrite(p.rows.entities, state.entities), p.rows.settings)
    ensures ok ==> (writes == 0 <==> tables.Contents() == p.rows)
  {
    hide LinksHold, Fold, SameEntities, LastHash;
    var replayed := ReplayProjectEvents(apply, p.events, p.headSequence, p.headHash);
    if replayed.None? {
      return false, 0;
    }
    ok, writes := RewriteAll(tables, p.rows.entities, replayed.value.entities);
    assert forall state :: Replays(apply, p.events, p.headSequence, p.headHash, state) ==> state == replayed.value;
  }

  lemma AgreeingKeys(a: map<Key, Entity>, b: map<Key, Entity>, kind: Kind)
    requires AgreeOn(a, b, kind)
    ensures KeysOf(a, kind) == KeysOf(b, kind)
  {
    forall k ensures k in KeysOf(a, kind) <==> k in KeysOf(b, kind) {
      if k in KeysOf(a, kind) || k in KeysOf(b, kind) {
        assert k == Key(kind, k.id);
      }
    }
  }

  lemma RewriteOutcome(rows: map<Key, Entity>, stored: map<Key, Entity>, target: map<Key, Entity>)
    requires SameEntities(stored, target)
    requires forall kind :: AgreeOn(rows, if IsRewritten(kind) then target else stored, kind)
    ensures rows == Rewrite(stored, target)
    ensures rows == stored <==> forall kind :: IsRewritten(kind) ==> AgreeOn(stored, target, kind)
  {
    forall k: Key ensures (k in rows <==> k in stored) && (k in rows ==> rows[k] == Rewrite(stored, target)[k]) {
      assert k == Key(k.kind, k.id) && AgreeOn(rows, if IsRewritten(k.kind) then target else stored, k.kind);
      if IsRewritten(k.kind) {
        assert k in KeysOf(stored, k.kind) <==> k in KeysOf(target, k.kind);
      }
    }
    forall k | k in stored && IsRewritten(k.kind) ensures k in target {
      assert k in KeysOf(target, k.kind);
    }
  }

  // ---------------------------------------------------------------- the whole migration

  /** A project the migration accepts. */
  ghost predicate Accepted(apply: Projector, p: Project) {
    exists state ::
      Replays(apply, p.events, p.headSequence, p.headHash, state) && SameEntities(p.rows.entities, state.entities)
  }

  /** `q` is `p` with its rewritten collections equal to the replay. */
  ghost predicate Backfilled(apply: Projector, p: Project, q: Project) {
    exists state :: Replays(apply, p.events, p.headSequence, p.headHash, state)
                    && q == p.(rows := Rows(Rewrite(p.rows.entities, state.entities), p.rows.settings))
  }

  /** `backfillEntityTimestamps`: every project in one transaction; the first refusal rolls all of it back. */
  method BackfillEntityTimestamps(apply: Projector, projects: map<string, Project>)
    returns (ok: bool, after: map<string, Project>, writes: nat)
    ensures ok <==> forall id :: id in projects ==> Accepted(apply, projects[id])
    ensures !ok ==> after == projects
    ensures ok ==> after.Keys == projects.Keys
    ensures ok ==> forall id :: id in projects ==> id in after && Backfilled(apply, projects[id], after[id])
    ensures ok ==> (writes == 0 <==> after == projects)
  {
    hide Replays, SameEntities;
    after, writes := projects, 0;
    var todo := projects.Keys;
    while todo != {}
      invariant todo <= projects.Keys == after.Keys
      invariant forall id :: id in projects && id !in todo ==>
                  Accepted(apply, projects[id]) && Backfilled(apply, projects[id], after[id])
      invariant forall id :: id in todo ==> after[id] == projects[id]
      invariant writes == 0 <==> after == projects
      decreases |todo|
    {
      var id :| id in todo;
      var tables := new Tables(projects[id].rows);
      var one, changes := BackfillProject(apply, projects[id], tables);
      if !one {
        assert !Accepted(apply, projects[id]);
        return false, projects, 0;
      }
      var project := projects[id].(rows := tables.Contents());
      assert Backfilled(apply, projects[id], project);
      if changes != 0 {
        assert after[id := project][id] != projects[id];
      } else {
        assert after[id := project] == after;
      }
      after := after[id := project];
      writes := writes + changes;
      todo := todo - {id};
    }
    ok := true;
  }

  /** A backfilled project agrees with its history on all ten collections, and a second run accepts it
      and changes nothing. */
  lemma BackfillIsIdempotent(apply: Projector, p: Project, q: Project, r: Project)
    requires Accepted(apply, p) && Backfilled(apply, p, q) && Backfilled(apply, q, r)
    ensures forall kind :: kind !in {Deliveries, Providers} ==>
              AgreeOn(q.rows.entities, Fold(apply, p.events).value.entities, kind)
    ensures Accepted(apply, q) && r == q
  {
    var state := Fold(apply, p.events).value;
    var stored := p.rows.entities;
    hide LinksHold, Fold;
    assert SameEntities(stored, state.entities);
    forall kind | IsRewritten(kind)
      ensures AgreeOn(q.rows.entities, state.entities, kind)
      ensures KeysOf(q.rows.entities, kind) == KeysOf(state.entities, kind)
    {
      SameKeys(stored, state.entities, kind);
      AgreeingKeys(q.rows.entities, state.entities, kind);
    }
    assert Replays(apply, q.events, q.headSequence, q.headHash, state);
    forall k | k in q.rows.entities ensures Rewrite(q.rows.entities, state.entities)[k] == q.rows.entities[k] {
      if IsRewritten(k.kind) {
        assert k == Key(k.kind, k.id) && AgreeOn(q.rows.entities, state.entities, k.kind);
      }
    }
    assert Rewrite(q.rows.entities, state.entities) == q.rows.entities;
  }

  /** A project whose rows have followed its log passes unchanged. */
  lemma FaithfulProjectPasses(rules: Rules, id: string, serviceKey: string, p: Project, q: Project)
    requires ValidProject(id, serviceKey, p) && Faithful(rules, p) && Backfilled(rules.apply, p, q)
    ensures Accepted(rules.apply, p) && q == p
  {
    var state := Load(p.rows);
    ChainLinks(p.events, 1, Genesis, serviceKey);
    assert Replays(rules.apply, p.events, p.headSequence, p.headHash, state);
    assert Rewrite(p.rows.entities, p.rows.entities) == p.rows.entities;
  }

  lemma {:induction false} ChainLinks(rows: seq<Record>, expected: nat, previous: Hash, key: string)
    requires ChainHolds(rows, expected, previous, key)
    ensures LinksHold(rows, expected, previous)
  {
    if rows != [] {
      ChainLinks(rows[1..], expected + 1, rows[0].event.hash, key);
    }
  }

  /** A row the diff write failed to remove makes the migration refuse the project. */
  lemma LeftoverRowRefused(apply: Projector, p: Project, k: Key)
    requires k in p.rows.entities && IsRewritten(k.kind)
    requires Fold(apply, p.events).Some? ==> k !in Fold(apply, p.events).value.entities
    ensures !Accepted(apply, p)
  {
    forall state | Replays(apply, p.events, p.headSequence, p.headHash, state)
      ensures !SameEntities(p.rows.entities, state.entities)
    {
      assert k in KeysOf(p.rows.entities, k.kind) && k !in KeysOf(state.entities, k.kind);
    }
  }
}
