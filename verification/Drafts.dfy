/** Local drafts and their quotas: the personal draft store and the daemon's cache keep them alike. */
module Drafts {
  import opened Results
  import opened Contracts

  /** A draft as handed in; a clock of 0 is the zero time. */
  datatype Draft = Draft(project: string, id: string, kind: string, body: string, created: nat, updated: nat)

  predicate IsKind(kind: string) {
    kind == "document" || kind == "message" || kind == "artifact"
  }

  // ---------------------------------------------------------------- the table

  predicate IsRow(row: Draft, project: string, id: string) {
    row.project == project && row.id == id
  }

  /** Where the row of a key is, or the number of rows. */
  function Find(rows: seq<Draft>, project: string, id: string): (i: nat)
    ensures i <= |rows|
    ensures i < |rows| ==> IsRow(rows[i], project, id)
    ensures forall j :: 0 <= j < i ==> !IsRow(rows[j], project, id)
  {
    if rows == [] || IsRow(rows[0], project, id) then 0 else 1 + Find(rows[1..], project, id)
  }

  predicate Keyed(rows: seq<Draft>) {
    forall i, j :: 0 <= i < j < |rows| ==> !IsRow(rows[j], rows[i].project, rows[i].id)
  }

  /** `SELECT COUNT(*)` of a project. */
  function Count(rows: seq<Draft>, project: string): nat {
    if rows == [] then 0
    else Count(rows[..|rows| - 1], project) + if rows[|rows| - 1].project == project then 1 else 0
  }

  /** `SELECT COALESCE(SUM(LENGTH(body)),0)` of a project. */
  function Used(rows: seq<Draft>, project: string): nat {
    if rows == [] then 0
    else Used(rows[..|rows| - 1], project) + if rows[|rows| - 1].project == project then |rows[|rows| - 1].body| else 0
  }

  /** A project's drafts, in the order of the table. */
  function Of(rows: seq<Draft>, project: string): seq<Draft> {
    if rows == [] then []
    else Of(rows[..|rows| - 1], project) + if rows[|rows| - 1].project == project then [rows[|rows| - 1]] else []
  }

  /** `INSERT ... ON CONFLICT DO UPDATE`: a row that is there keeps its place and its creation time. */
  function Upsert(rows: seq<Draft>, draft: Draft): seq<Draft> {
    var i := Find(rows, draft.project, draft.id);
    if i < |rows| then rows[i := draft.(created := rows[i].created)] else rows + [draft]
  }

  function Without(rows: seq<Draft>, project: string, id: string): seq<Draft> {
    var i := Find(rows, project, id);
    if i < |rows| then rows[..i] + rows[i + 1..] else rows
  }

  // ---------------------------------------------------------------- what a save and a delete do

  /** The draft as it is written. */
  function Stamped(draft: Draft, preserveTimes: bool, now: nat): Draft {
    draft.(created := if draft.created == 0 then now else draft.created,
           updated := if !preserveTimes || draft.updated == 0 then now else draft.updated)
  }

  predicate IsDraft(draft: Draft) {
    !Blank(draft.project) && !Blank(draft.id) && IsKind(draft.kind) && 0 < |draft.body| <= MAX_DRAFT_BYTES
  }

  /** There is room for the draft in its project, beside those it does not replace. */
  predicate Fits(rows: seq<Draft>, draft: Draft) {
    && (Find(rows, draft.project, draft.id) < |rows| || Count(rows, draft.project) < MAX_DRAFTS_PER_PROJECT)
    && Used(Without(rows, draft.project, draft.id), draft.project) + |draft.body| <= MAX_DRAFT_STORAGE_BYTES
  }

  function SaveVerdict(rows: seq<Draft>, draft: Draft): Result<()> {
    if !IsDraft(draft) then Err(Validation) else if !Fits(rows, draft) then Err(RateLimited) else Ok(())
  }

  function Saved(rows: seq<Draft>, draft: Draft, preserveTimes: bool, now: nat): seq<Draft> {
    if SaveVerdict(rows, draft).Ok? then Upsert(rows, Stamped(draft, preserveTimes, now)) else rows
  }

  function DeleteVerdict(rows: seq<Draft>, project: string, id: string): Result<()> {
    if Blank(project) || Blank(id) || Find(rows, project, id) == |rows| then Err(Validation) else Ok(())
  }

  /** Every project is within its quotas. */
  ghost predicate WithinQuota(rows: seq<Draft>) {
    && Keyed(rows)
    && (forall i :: 0 <= i < |rows| ==> IsDraft(rows[i]))
    && (forall project ::
          Count(rows, project) <= MAX_DRAFTS_PER_PROJECT && Used(rows, project) <= MAX_DRAFT_STORAGE_BYTES)
  }

  // ---------------------------------------------------------------- sums over the table

  lemma {:induction false} Concat(a: seq<Draft>, b: seq<Draft>, project: string)
    ensures Count(a + b, project) == Count(a, project) + Count(b, project)
    ensures Used(a + b, project) == Used(a, project) + Used(b, project)
    ensures Of(a + b, project) == Of(a, project) + Of(b, project)
  {
    if b == [] {
      assert a + b == a;
    } else {
      assert (a + b)[..|a + b| - 1] == a + b[..|b| - 1];
      Concat(a, b[..|b| - 1], project);
    }
  }

  lemma One(row: Draft, project: string)
    ensures Count([row], project) == (if row.project == project then 1 else 0)
    ensures Used([row], project) == (if row.project == project then |row.body| else 0)
    ensures Of([row], project) == (if row.project == project then [row] else [])
  {
    assert [row][..0] == [];
  }

  /** The sums with and without one row. */
  lemma AtRow(rows: seq<Draft>, i: nat, row: Draft, project: string)
    requires i <= |rows|
    ensures var whole := rows[..i] + [row] + rows[i..];
            && Count(whole, project) == Count(rows, project) + (if row.project == project then 1 else 0)
            && Used(whole, project) == Used(rows, project) + (if row.project == project then |row.body| else 0)
            && (row.project != project ==> Of(whole, project) == Of(rows, project))
  {
    hide Count, Used, Of;
    One(row, project);
    Concat(rows[..i], [row], project);
    Concat(rows[..i] + [row], rows[i..], project);
    Concat(rows[..i], rows[i..], project);
    assert rows[..i] + rows[i..] == rows;
  }

  /** Saving takes the place of what is there: the sums are those of the other rows and the new one. */
  lemma UpsertSums(rows: seq<Draft>, draft: Draft, project: string)
    ensures var others, after := Without(rows, draft.project, draft.id), Upsert(rows, draft);
            && Count(after, project) == Count(others, project) + (if draft.project == project then 1 else 0)
            && Used(after, project) == Used(others, project) + (if draft.project == project then |draft.body| else 0)
            && (draft.project != project ==> Of(after, project) == Of(rows, project))
  {
    hide Count, Used, Of, Find;
    var i := Find(rows, draft.project, draft.id);
    if i < |rows| {
      Replaced(rows, i, draft.(created := rows[i].created), project);
    } else {
      AtRow(rows, |rows|, draft, project);
      assert rows[..|rows|] + [draft] + rows[|rows|..] == rows + [draft];
    }
  }

  lemma Replaced(rows: seq<Draft>, i: nat, row: Draft, project: string)
    requires i < |rows| && rows[i].project == row.project
    ensures var others, after := rows[..i] + rows[i + 1..], rows[i := row];
            && Count(after, project) == Count(others, project) + (if row.project == project then 1 else 0)
            && Used(after, project) == Used(others, project) + (if row.project == project then |row.body| else 0)
            && (row.project != project ==> Of(after, project) == Of(rows, project))
  {
    hide Count, Used, Of;
    var others := rows[..i] + rows[i + 1..];
    AtRow(others, i, row, project);
    AtRow(others, i, rows[i], project);
    assert others[..i] == rows[..i] && others[i..] == rows[i + 1..];
    assert rows[..i] + [row] + rows[i + 1..] == rows[i := row];
    assert rows[..i] + [rows[i]] + rows[i + 1..] == rows;
  }

  /** Deleting a draft releases exactly what it held, and touches no other project. */
  lemma WithoutSums(rows: seq<Draft>, project: string, id: string, other: string)
    requires Find(rows, project, id) < |rows|
    ensures var i, after := Find(rows, project, id), Without(rows, project, id);
            && Count(rows, other) == Count(after, other) + (if project == other then 1 else 0)
            && Used(rows, other) == Used(after, other) + (if project == other then |rows[i].body| else 0)
            && (project != other ==> Of(after, other) == Of(rows, other))
  {
    hide Count, Used, Of;
    var i, after := Find(rows, project, id), Without(rows, project, id);
    AtRow(after, i, rows[i], other);
    assert after[..i] + [rows[i]] + after[i..] == rows;
  }

  // ---------------------------------------------------------------- quotas

  lemma UpsertKeyed(rows: seq<Draft>, draft: Draft)
    requires Keyed(rows)
    ensures Keyed(Upsert(rows, draft))
  {
    var i := Find(rows, draft.project, draft.id);
    if i < |rows| {
      var row := draft.(created := rows[i].created);
      var after := rows[i := row];
      forall j, k | 0 <= j < k < |rows| ensures !IsRow(after[k], after[j].project, after[j].id) {
        assert !IsRow(rows[k], rows[j].project, rows[j].id);
      }
    }
  }

  lemma WithoutKeyed(rows: seq<Draft>, project: string, id: string)
    requires Keyed(rows)
    ensures Keyed(Without(rows, project, id))
  {
    var i, after := Find(rows, project, id), Without(rows, project, id);
    if i < |rows| {
      forall j, k | 0 <= j < k < |after| ensures !IsRow(after[k], after[j].project, after[j].id) {
        var first, second := rows[if j < i then j else j + 1], rows[if k < i then k else k + 1];
        assert !IsRow(second, first.project, first.id);
      }
    }
  }

  lemma SaveKeepsQuota(rows: seq<Draft>, draft: Draft, preserveTimes: bool, now: nat)
    requires WithinQuota(rows)
    ensures WithinQuota(Saved(rows, draft, preserveTimes, now))
    ensures forall other :: other != draft.project ==>
              Of(Saved(rows, draft, preserveTimes, now), other) == Of(rows, other)
  {
    hide Count, Used, Of, Keyed, Upsert, Without;
    if SaveVerdict(rows, draft).Ok? {
      var stamped := Stamped(draft, preserveTimes, now);
      var after := Upsert(rows, stamped);
      UpsertKeyed(rows, stamped);
      UpsertRows(rows, stamped);
      forall project
        ensures Count(after, project) <= MAX_DRAFTS_PER_PROJECT && Used(after, project) <= MAX_DRAFT_STORAGE_BYTES
        ensures project != draft.project ==> Of(after, project) == Of(rows, project)
      {
        UpsertSums(rows, stamped, project);
        WithoutLess(rows, draft.project, draft.id, project);
      }
    }
  }

  lemma UpsertRows(rows: seq<Draft>, draft: Draft)
    requires IsDraft(draft) && forall i :: 0 <= i < |rows| ==> IsDraft(rows[i])
    ensures forall i :: 0 <= i < |Upsert(rows, draft)| ==> IsDraft(Upsert(rows, draft)[i])
  {
  }

  lemma WithoutLess(rows: seq<Draft>, project: string, id: string, other: string)
    ensures var after := Without(rows, project, id);
            && Used(after, other) <= Used(rows, other)
            && Count(after, other) ==
               Count(rows, other) - (if project == other && Find(rows, project, id) < |rows| then 1 else 0)
  {
    hide Count, Used, Of;
    if Find(rows, project, id) < |rows| {
      WithoutSums(rows, project, id, other);
    }
  }

  lemma DeleteKeepsQuota(rows: seq<Draft>, project: string, id: string)
    requires WithinQuota(rows)
    ensures WithinQuota(Without(rows, project, id))
  {
    hide Count, Used, Of, Keyed;
    WithoutKeyed(rows, project, id);
    forall other ensures Count(Without(rows, project, id), other) <= Count(rows, other)
                 ensures Used(Without(rows, project, id), other) <= Used(rows, other)
    {
      WithoutLess(rows, project, id, other);
    }
  }

  // ---------------------------------------------------------------- the two stores

  /** What the quota checks compute from the table's sums is whether the draft fits. */
  lemma QuotaChecks(rows: seq<Draft>, draft: Draft)
    ensures var i := Find(rows, draft.project, draft.id);
            var existingBytes := if i < |rows| then |rows[i].body| else 0;
            Fits(rows, draft) <==>
              && !(i == |rows| && Count(rows, draft.project) >= MAX_DRAFTS_PER_PROJECT)
              && !(Used(rows, draft.project) - existingBytes + |draft.body| > MAX_DRAFT_STORAGE_BYTES)
  {
    hide Count, Used, Of;
    if Find(rows, draft.project, draft.id) < |rows| {
      WithoutSums(rows, draft.project, draft.id, draft.project);
    }
  }

  /** The personal draft store. */
  class DraftStore {
    var rows: seq<Draft>

    ghost predicate Valid()
      reads this
    {
      WithinQuota(rows)
    }

    constructor ()
      ensures Valid() && rows == []
    {
      rows := [];
    }

    method SaveDraft(draft: Draft, now: nat) returns (r: Result<()>)
      requires Valid()
      modifies this
      ensures Valid() && r == SaveVerdict(old(rows), draft) && rows == Saved(old(rows), draft, false, now)
    {
      r := Save(draft, false, now);
    }

    method ImportDraft(draft: Draft, now: nat) returns (r: Result<()>)
      requires Valid()
      modifies this
      ensures Valid() && r == SaveVerdict(old(rows), draft) && rows == Saved(old(rows), draft, true, now)
    {
      r := Save(draft, true, now);
    }

    method Save(draft: Draft, preserveTimes: bool, now: nat) returns (r: Result<()>)
      requires Valid()
      modifies this
      ensures Valid() && r == SaveVerdict(old(rows), draft) && rows == Saved(old(rows), draft, preserveTimes, now)
    {
      SaveKeepsQuota(rows, draft, preserveTimes, now);
      QuotaChecks(rows, draft);
      hide Count, Used, Without, WithinQuota, Fits;
      if Blank(draft.project) || Blank(draft.id) {
        return Err(Validation);
      }
      if !IsKind(draft.kind) {
        return Err(Validation);
      }
      if |draft.body| == 0 || |draft.body| > MAX_DRAFT_BYTES {
        return Err(Validation);
      }
      var count, usedBytes := Count(rows, draft.project), Used(rows, draft.project);
      var i := Find(rows, draft.project, draft.id);
      var existing := i < |rows|;
      var existingBytes := if existing then |rows[i].body| else 0;
      if !existing && count >= MAX_DRAFTS_PER_PROJECT {
        return Err(RateLimited);
      }
      if usedBytes - existingBytes + |draft.body| > MAX_DRAFT_STORAGE_BYTES {
        return Err(RateLimited);
      }
      var written := draft;
      if written.created == 0 {
        written := written.(created := now);
      }
      if !preserveTimes || written.updated == 0 {
        written := written.(updated := now);
      }
      rows := Upsert(rows, written);
      return Ok(());
    }

    method DeleteDraft(project: string, id: string) returns (r: Result<()>)
      requires Valid()
      modifies this
      ensures Valid() && r == DeleteVerdict(old(rows), project, id)
      ensures rows == if r.Ok? then Without(old(rows), project, id) else old(rows)
    {
      DeleteKeepsQuota(rows, project, id);
      hide WithinQuota;
      if Blank(project) || Blank(id) {
        return Err(Validation);
      }
      var affected := if Find(rows, project, id) < |rows| then 1 else 0;
      rows := Without(rows, project, id);
      if affected == 0 {
        return Err(Validation);
      }
      return Ok(());
    }
  }

  /** The drafts of a daemon's cache. */
  class CacheDrafts {
    var rows: seq<Draft>

    ghost predicate Valid()
      reads this
    {
      WithinQuota(rows)
    }

    constructor ()
      ensures Valid() && rows == []
    {
      rows := [];
    }

    method SaveDraft(draft: Draft, now: nat) returns (r: Result<()>)
      requires Valid()
      modifies this
      ensures Valid() && r == SaveVerdict(old(rows), draft) && rows == Saved(old(rows), draft, false, now)
    {
      SaveKeepsQuota(rows, draft, false, now);
      QuotaChecks(rows, draft);
      hide Count, Used, Without, WithinQuota, Fits;
      if Blank(draft.project) || Blank(draft.id) {
        return Err(Validation);
      }
      if !IsKind(draft.kind) {
        return Err(Validation);
      }
      if |draft.body| == 0 || |draft.body| > MAX_DRAFT_BYTES {
        return Err(Validation);
      }
      var count, bytes := Count(rows, draft.project), Used(rows, draft.project);
      var i := Find(rows, draft.project, draft.id);
      var existing := i < |rows|;
      var existingBytes := if existing then |rows[i].body| else 0;
      if !existing && count >= MAX_DRAFTS_PER_PROJECT {
        return Err(RateLimited);
      }
      if bytes - existingBytes + |draft.body| > MAX_DRAFT_STORAGE_BYTES {
        return Err(RateLimited);
      }
      rows := Upsert(rows, draft.(created := if draft.created == 0 then now else draft.created, updated := now));
      return Ok(());
    }

    method DeleteDraft(project: string, id: string) returns (r: Result<()>)
      requires Valid()
      modifies this
      ensures Valid() && r == DeleteVerdict(old(rows), project, id)
      ensures rows == if r.Ok? then Without(old(rows), project, id) else old(rows)
    {
      DeleteKeepsQuota(rows, project, id);
      hide WithinQuota;
      if Blank(project) || Blank(id) {
        return Err(Validation);
      }
      var before := |rows|;
      rows := Without(rows, project, id);
      return if |rows| == before then Err(Validation) else Ok(());
    }
  }

  // ---------------------------------------------------------------- runs

  datatype Request = Save(draft: Draft, preserveTimes: bool, now: nat) | Delete(project: string, id: string)

  function Verdict(rows: seq<Draft>, request: Request): Result<()> {
    match request
    case Save(draft, _, _) => SaveVerdict(rows, draft)
    case Delete(project, id) => DeleteVerdict(rows, project, id)
  }

  function Done(rows: seq<Draft>, request: Request): seq<Draft> {
    match request
    case Save(draft, preserveTimes, now) => Saved(rows, draft, preserveTimes, now)
    case Delete(project, id) => if DeleteVerdict(rows, project, id).Ok? then Without(rows, project, id) else rows
  }

  /** The table after a run from an empty store, and its answers. */
  function Run(requests: seq<Request>): (seq<Draft>, seq<Result<()>>) {
    if requests == [] then ([], [])
    else
      var (rows, verdicts) := Run(requests[..|requests| - 1]);
      var request := requests[|requests| - 1];
      (Done(rows, request), verdicts + [Verdict(rows, request)])
  }

  /** In every run every project stays within its quotas. */
  lemma {:induction false} RunKeepsQuota(requests: seq<Request>)
    ensures WithinQuota(Run(requests).0)
  {
    if requests != [] {
      RunKeepsQuota(requests[..|requests| - 1]);
      var rows := Run(requests[..|requests| - 1]).0;
      match requests[|requests| - 1]
      case Save(draft, preserveTimes, now) => SaveKeepsQuota(rows, draft, preserveTimes, now);
      case Delete(project, id) => DeleteKeepsQuota(rows, project, id);
    }
  }

  /** The same requests, whatever the clocks say and whether times are preserved. */
  predicate SameRequest(a: Request, b: Request) {
    if a.Save? then b.Save? && Untimed(a.draft) == Untimed(b.draft) else a == b
  }

  function Untimed(draft: Draft): Draft {
    draft.(created := 0, updated := 0)
  }

  predicate SameRows(a: seq<Draft>, b: seq<Draft>) {
    |a| == |b| && forall i :: 0 <= i < |a| ==> Untimed(a[i]) == Untimed(b[i])
  }

  lemma {:induction false} SameSums(a: seq<Draft>, b: seq<Draft>, project: string)
    requires SameRows(a, b)
    ensures Count(a, project) == Count(b, project) && Used(a, project) == Used(b, project)
  {
    if a != [] {
      var n := |a| - 1;
      assert Untimed(a[n]) == Untimed(b[n]);
      SameSums(a[..n], b[..n], project);
    }
  }

  lemma SameFind(a: seq<Draft>, b: seq<Draft>, project: string, id: string)
    requires SameRows(a, b)
    ensures Find(a, project, id) == Find(b, project, id)
    ensures SameRows(Without(a, project, id), Without(b, project, id))
  {
    var i, j := Find(a, project, id), Find(b, project, id);
    assert i < |a| ==> Untimed(a[i]) == Untimed(b[i]);
    assert j < |b| ==> Untimed(a[j]) == Untimed(b[j]);
  }

  lemma SameStep(a: seq<Draft>, b: seq<Draft>, p: Request, q: Request)
    requires SameRows(a, b) && SameRequest(p, q)
    ensures Verdict(a, p) == Verdict(b, q) && SameRows(Done(a, p), Done(b, q))
  {
    hide Count, Used, Without;
    match p
    case Save(draft, _, _) =>
      assert draft.project == Untimed(draft).project == q.draft.project && draft.id == Untimed(draft).id == q.draft.id;
      assert draft.body == Untimed(draft).body == q.draft.body && draft.kind == Untimed(draft).kind == q.draft.kind;
      SameFind(a, b, draft.project, draft.id);
      SameSums(a, b, draft.project);
      SameSums(Without(a, draft.project, draft.id), Without(b, draft.project, draft.id), draft.project);
    case Delete(project, id) =>
      SameFind(a, b, project, id);
  }

  /** The two stores accept the same saves and deletes: over any run of the same requests, with whatever
      clocks, they give the same answers and hold the same drafts. */
  lemma {:induction false} StoresAgree(ours: seq<Request>, theirs: seq<Request>)
    requires |ours| == |theirs| && forall i :: 0 <= i < |ours| ==> SameRequest(ours[i], theirs[i])
    ensures Run(ours).1 == Run(theirs).1 && SameRows(Run(ours).0, Run(theirs).0)
  {
    if ours != [] {
      var n := |ours| - 1;
      StoresAgree(ours[..n], theirs[..n]);
      SameStep(Run(ours[..n]).0, Run(theirs[..n]).0, ours[n], theirs[n]);
    }
  }

  /** The same requests are those for the same drafts, whenever made and with whatever times. */
  lemma SameRequestIff(a: Request, b: Request)
    ensures SameRequest(a, b) <==>
            if a.Delete? then a == b
            else
              b.Save? && var d, e := a.draft, b.draft;
              d.project == e.project && d.id == e.id && d.kind == e.kind && d.body == e.body
  {
  }

  /** What a request does in a run. */
  lemma RequestIsDone(requests: seq<Request>, request: Request)
    ensures var rows, next := Run(requests).0, Run(requests + [request]).0;
            var verdict := Verdict(rows, request);
            && Run(requests + [request]).1 == Run(requests).1 + [verdict]
            && next == if request.Save? then Saved(rows, request.draft, request.preserveTimes, request.now)
                       else if verdict.Ok? then Without(rows, request.project, request.id) else rows
  {
    assert (requests + [request])[..|requests|] == requests;
  }

  // ---------------------------------------------------------------- what is kept and released

  function Lookup(rows: seq<Draft>, project: string, id: string): Option<Draft> {
    var i := Find(rows, project, id);
    if i < |rows| then Some(rows[i]) else None
  }

  lemma FindIs(rows: seq<Draft>, project: string, id: string, i: nat)
    requires i <= |rows| && (i < |rows| ==> IsRow(rows[i], project, id))
    requires forall j :: 0 <= j < i ==> !IsRow(rows[j], project, id)
    ensures Find(rows, project, id) == i
  {
  }

  /** An accepted save is what a lookup then finds, with the creation time of the draft it replaced; no
      other draft changes. */
  lemma SaveIsFound(rows: seq<Draft>, draft: Draft, preserveTimes: bool, now: nat, project: string, id: string)
    requires SaveVerdict(rows, draft).Ok?
    ensures var found := Lookup(Saved(rows, draft, preserveTimes, now), project, id);
            var before := Lookup(rows, project, id);
            if IsRow(draft, project, id) then
              found == Some(Draft(project, id, draft.kind, draft.body,
                                  if before.Some? then before.value.created
                                  else if draft.created == 0 then now else draft.created,
                                  if preserveTimes && draft.updated != 0 then draft.updated else now))
            else found == before
  {
    hide Count, Used, Fits, IsDraft;
    var i, k := Find(rows, draft.project, draft.id), Find(rows, project, id);
    var after := Saved(rows, draft, preserveTimes, now);
    if IsRow(draft, project, id) {
      FindIs(after, project, id, i);
    } else if k < |rows| {
      assert !IsRow(rows[k], draft.project, draft.id);
      FindIs(after, project, id, k);
    } else {
      FindIs(after, project, id, |after|);
    }
  }

  /** Deleting a new draft undoes its save. */
  lemma DeleteUndoesSave(rows: seq<Draft>, draft: Draft, preserveTimes: bool, now: nat)
    requires SaveVerdict(rows, draft).Ok? && Lookup(rows, draft.project, draft.id).None?
    ensures var after := Saved(rows, draft, preserveTimes, now);
            && DeleteVerdict(after, draft.project, draft.id).Ok?
            && Without(after, draft.project, draft.id) == rows
  {
    hide Count, Used, Fits;
    var after := Saved(rows, draft, preserveTimes, now);
    FindIs(after, draft.project, draft.id, |rows|);
    assert after[..|rows|] + after[|rows| + 1..] == rows;
  }

  /** A delete makes exactly the room the draft took: then a draft that is no longer is accepted. */
  lemma DeleteMakesRoom(rows: seq<Draft>, held: Draft, draft: Draft)
    requires WithinQuota(rows) && Lookup(rows, held.project, held.id) == Some(held)
    requires IsDraft(draft) && draft.project == held.project && Lookup(rows, draft.project, draft.id).None?
    requires |draft.body| <= |held.body|
    ensures SaveVerdict(Without(rows, held.project, held.id), draft).Ok?
  {
    hide Count, Used, IsDraft, Keyed;
    var after := Without(rows, held.project, held.id);
    WithoutSums(rows, held.project, held.id, draft.project);
    FindIs(after, draft.project, draft.id, |after|) by {
      forall j | 0 <= j < |after| ensures !IsRow(after[j], draft.project, draft.id) {
        var i := Find(rows, held.project, held.id);
        assert after[j] == rows[if j < i then j else j + 1];
      }
    }
  }

  // ---------------------------------------------------------------- the quotas in numbers

  function Bytes(drafts: seq<Draft>): nat {
    if drafts == [] then 0 else Bytes(drafts[..|drafts| - 1]) + |drafts[|drafts| - 1].body|
  }

  lemma {:induction false} SumsOfProject(rows: seq<Draft>, project: string)
    ensures Count(rows, project) == |Of(rows, project)| && Used(rows, project) == Bytes(Of(rows, project))
  {
    if rows != [] {
      SumsOfProject(rows[..|rows| - 1], project);
      var most, last := Of(rows[..|rows| - 1], project), rows[|rows| - 1];
      assert (most + [last])[..|most|] == most;
      assert Of(rows, project) == if last.project == project then most + [last] else most;
    }
  }

  /** A draft is accepted exactly if it is complete, of a known kind and at most 5 MiB, its project has it
      already or holds fewer than a thousand drafts, and with it the project holds at most 50 MiB. */
  lemma SaveAcceptedIff(rows: seq<Draft>, draft: Draft)
    ensures SaveVerdict(rows, draft).Ok? <==>
              && !Blank(draft.project) && !Blank(draft.id) && draft.kind in {"document", "message", "artifact"}
              && 0 < |draft.body| <= 5_242_880
              && (Lookup(rows, draft.project, draft.id).Some? || |Of(rows, draft.project)| < 1_000)
              && Bytes(Of(Without(rows, draft.project, draft.id), draft.project)) + |draft.body| <= 52_428_800
  {
    SumsOfProject(rows, draft.project);
    SumsOfProject(Without(rows, draft.project, draft.id), draft.project);
    hide Count, Used, Of, Bytes, Without, Blank;
  }

  /** A refusal says whether it is the draft or the room that is at fault. */
  lemma SaveRefusal(rows: seq<Draft>, draft: Draft)
    ensures SaveVerdict(rows, draft).Err? ==>
              SaveVerdict(rows, draft) ==
                if Blank(draft.project) || Blank(draft.id) || draft.kind !in {"document", "message", "artifact"}
                   || |draft.body| == 0 || |draft.body| > 5_242_880 then Err(Validation)
                else Err(RateLimited)
  {
    hide Fits, Blank;
  }

  /** A delete succeeds exactly on a draft that is there; then it is gone, and no other draft changes. */
  lemma DeleteIsGone(rows: seq<Draft>, project: string, id: string, other: string, otherId: string)
    requires Keyed(rows)
    ensures DeleteVerdict(rows, project, id) ==
            if !Blank(project) && !Blank(id) && Lookup(rows, project, id).Some? then Ok(()) else Err(Validation)
    ensures Lookup(Without(rows, project, id), other, otherId) ==
            if other == project && otherId == id then None else Lookup(rows, other, otherId)
  {
    hide Blank;
    var i, after, k := Find(rows, project, id), Without(rows, project, id), Find(rows, other, otherId);
    if i < |rows| {
      forall j | 0 <= j < |after| ensures after[j] == rows[if j < i then j else j + 1] {
      }
      if other == project && otherId == id {
        forall j | 0 <= j < |after| ensures !IsRow(after[j], project, id) {
          assert j >= i ==> !IsRow(rows[j + 1], rows[i].project, rows[i].id);
        }
        FindIs(after, project, id, |after|);
      } else if k < |rows| {
        assert k != i;
        FindIs(after, other, otherId, if k < i then k else k - 1);
      } else {
        FindIs(after, other, otherId, |after|);
      }
    }
  }
}
