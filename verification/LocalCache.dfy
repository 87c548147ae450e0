/** The daemon's local copy of project logs: each accepted event is appended and folded into the cached
    state; duplicates are ignored and gaps refused. */
module LocalCache {
  import opened Results
  import opened Contracts
  import opened Projection
  import opened Paging

  datatype CachedProject = CachedProject(sequence: nat, head: Hash, state: State)

  /** What the cache holds of one project: its row, if any, and its event rows. */
  datatype View = View(row: Option<CachedProject>, events: seq<Record>)

  const EMPTY_VIEW := View(None, [])

  /** `loadProject`: an absent row reads as the empty state at sequence 0. */
  function LoadProject(v: View): CachedProject {
    match v.row
    case None => CachedProject(0, Genesis, EMPTY)
    case Some(row) => row
  }

  /** Insert an event row at its place in primary-key order. */
  function Insert(rows: seq<Record>, r: Record): seq<Record> {
    if rows == [] || r.event.sequence < rows[0].event.sequence then [r] + rows
    else [rows[0]] + Insert(rows[1..], r)
  }

  /** The transaction of `Apply`, from one view to the next. */
  function ApplyVerdict(apply: Projector, serverKey: string, v: View, e: Event, r: Receipt): Result<View> {
    if !Matches(e, r) || !VerifyReceipt(r, serverKey) || !VerifyEventHash(e) then Err(Integrity)
    else
      var project := LoadProject(v);
      if e.sequence <= project.sequence then
        match FindRow(v.events, e.sequence)
        case None => Err(Unavailable)
        case Some(existing) => if existing.event.hash != e.hash then Err(Conflict) else Ok(v)
      else if e.sequence != project.sequence + 1 || e.previousHash != project.head then Err(StalePrecondition)
      else
        match ApplyEvent(apply, project.state, e)
        case None => Err(Unavailable)
        case Some(state) =>
          if FindRow(v.events, e.sequence).Some? then Err(Unavailable)
          else Ok(View(Some(CachedProject(e.sequence, e.hash, state)), Insert(v.events, Record(e, r))))
  }

  class Cache {
    const apply: Projector
    const serverKey: string
    var projects: map<string, CachedProject>
    var events: map<string, seq<Record>>

    constructor (apply: Projector, serverKey: string)
      ensures this.apply == apply && this.serverKey == serverKey
      ensures forall id :: ViewOf(id) == EMPTY_VIEW
    {
      this.apply, this.serverKey, projects, events := apply, serverKey, map[], map[];
    }

    function ViewOf(projectId: string): View
      reads this
    {
      View(if projectId in projects then Some(projects[projectId]) else None,
           if projectId in events then events[projectId] else [])
    }

    method Apply(event: Event, receipt: Receipt) returns (r: Result<()>)
      modifies this
      ensures var verdict := ApplyVerdict(apply, serverKey, old(ViewOf(event.projectId)), event, receipt);
              && ViewOf(event.projectId) == (if verdict.Ok? then verdict.value else old(ViewOf(event.projectId)))
              && r == (if verdict.Ok? then Ok(()) else Err(verdict.code))
      ensures forall other :: other != event.projectId ==> ViewOf(other) == old(ViewOf(other))
    {
      hide VerifyEventHash, VerifyReceipt, Matches, FindRow, ApplyEvent, Insert;
      if !Matches(event, receipt) {
        return Err(Integrity);
      }
      if !VerifyReceipt(receipt, serverKey) {
        return Err(Integrity);
      }
      if !VerifyEventHash(event) {
        return Err(Integrity);
      }
      var id := event.projectId;
      var project := LoadProject(ViewOf(id));
      var rows := ViewOf(id).events;
      if event.sequence <= project.sequence {
        match FindRow(rows, event.sequence) {
          case None => return Err(Unavailable);
          case Some(existing) =>
            if existing.event.hash != event.hash {
              return Err(Conflict);
            }
            return Ok(());
        }
      }
      if event.sequence != project.sequence + 1 || event.previousHash != project.head {
        return Err(StalePrecondition);
      }
      var state := ApplyEvent(apply, project.state, event);
      if state.None? {
        return Err(Unavailable);
      }
      if FindRow(rows, event.sequence).Some? {
        return Err(Unavailable);
      }
      events := events[id := Insert(rows, Record(event, receipt))];
      projects := projects[id := CachedProject(event.sequence, event.hash, state.value)];
      return Ok(());
    }

    /** The sequence `State` reports; None stands for its "not in the cache" error. */
    method State(projectId: string) returns (r: Result<(State, nat)>)
      ensures r == match ViewOf(projectId).row
                   case None => Err(Offline)
                   case Some(row) => Ok((row.state, row.sequence))
    {
      if projectId !in projects {
        return Err(Offline);
      }
      var row := projects[projectId];
      return Ok((row.state, row.sequence));
    }

    method Events(projectId: string, cursor: string, limit: int) returns (r: Result<Page>)
      ensures r == PageVerdict(ViewOf(projectId).events, cursor, limit)
      ensures ChainHolds(ViewOf(projectId).events, 1, Genesis, serverKey) && cursor == "" && 0 <= limit <= 500 ==>
                var held, size := ViewOf(projectId).events, if limit == 0 then 100 else limit;
                r.Ok? && r.value.items == if |held| > size then held[..size] else held
    {
      r := ReadPage(ViewOf(projectId).events, cursor, limit);
      if ChainHolds(ViewOf(projectId).events, 1, Genesis, serverKey) && 0 <= limit <= 500 {
        FirstPage(ViewOf(projectId).events, serverKey, limit);
      }
    }

    method VerifyRange(projectId: string, from: nat, to: nat) returns (r: Result<()>)
      ensures r == RangeVerdict(ViewOf(projectId).events, from, to, serverKey)
    {
      r := Contracts.VerifyRange(ViewOf(projectId).events, from, to, serverKey);
    }
  }

  // ---------------------------------------------------------------- the cache against the log

  /** The cached events are a prefix of the log, up to payload spelling; the cached sequence and head
      are that prefix's length and last hash; the cached state is its fold. */
  ghost predicate Mirrors(apply: Projector, serverKey: string, v: View, log: seq<Record>) {
    var n := |v.events|;
    && n <= |log|
    && ChainHolds(v.events, 1, Genesis, serverKey)
    && (forall i :: 0 <= i < n ==> SameEvent(v.events[i].event, log[i].event))
    && LoadProject(v).sequence == n
    && LoadProject(v).head == LastHash(v.events, Genesis)
    && Fold(apply, v.events) == Some(LoadProject(v).state)
  }

  /** The receipts in circulation: one that verifies and names this project belongs to its log. */
  ghost predicate Genuine(projectId: string, serverKey: string, log: seq<Record>, r: Receipt) {
    VerifyReceipt(r, serverKey) && r.content.projectId == projectId ==>
      exists i :: 0 <= i < |log| && log[i].receipt == r
  }

  /** A log as the authority keeps it. */
  ghost predicate Authoritative(projectId: string, serverKey: string, log: seq<Record>) {
    && ChainHolds(log, 1, Genesis, serverKey)
    && forall i :: 0 <= i < |log| ==> Matches(log[i].event, log[i].receipt) && log[i].event.projectId == projectId
  }

  lemma {:induction false} InsertAtEnd(rows: seq<Record>, r: Record)
    requires forall row :: row in rows ==> row.event.sequence <= r.event.sequence
    ensures Insert(rows, r) == rows + [r]
  {
    if rows != [] {
      InsertAtEnd(rows[1..], r);
    }
  }

  lemma LogRow(projectId: string, serverKey: string, log: seq<Record>, i: nat)
    requires Authoritative(projectId, serverKey, log) && i < |log|
    ensures RowHolds(log[i], i + 1, LastHash(log[..i], Genesis), serverKey)
    ensures log[i].event.sequence == log[i].receipt.content.sequence == i + 1
    ensures log[i].event.hash == log[i].receipt.content.eventHash
  {
    ChainAt(log, 1, Genesis, serverKey, i);
  }

  /** An event that passes the three checks of `Apply` under a genuine receipt is the log's event at
      its sequence. */
  lemma AcceptedEventIsLogged(projectId: string, serverKey: string, log: seq<Record>, e: Event, r: Receipt)
    requires Authoritative(projectId, serverKey, log) && Genuine(projectId, serverKey, log, r)
    requires e.projectId == projectId && Matches(e, r) && VerifyReceipt(r, serverKey) && VerifyEventHash(e)
    ensures 1 <= e.sequence <= |log| && SameEvent(e, log[e.sequence - 1].event)
  {
    var i :| 0 <= i < |log| && log[i].receipt == r;
    LogRow(projectId, serverKey, log, i);
    HashIdentifiesEvent(e, log[i].event);
  }

  /** Equal prefixes have equal heads. */
  lemma SameHead(v: seq<Record>, log: seq<Record>)
    requires |v| <= |log| && forall i :: 0 <= i < |v| ==> SameEvent(v[i].event, log[i].event)
    ensures LastHash(v, Genesis) == LastHash(log[..|v|], Genesis)
  {
  }

  /** The whole behaviour of `Apply` on a mirror: an old event is a no-op, the next one extends the
      mirror exactly when it projects, a later one is refused as a gap. */
  lemma LoggedEventVerdict(apply: Projector, serverKey: string, projectId: string, v: View, log: seq<Record>,
                           e: Event, r: Receipt)
    requires Authoritative(projectId, serverKey, log) && Mirrors(apply, serverKey, v, log)
    requires e.projectId == projectId && Matches(e, r) && VerifyReceipt(r, serverKey) && VerifyEventHash(e)
    requires 1 <= e.sequence <= |log| && SameEvent(e, log[e.sequence - 1].event)
    ensures var verdict := ApplyVerdict(apply, serverKey, v, e, r);
            var n := |v.events|;
            && (e.sequence <= n ==> verdict == Ok(v))
            && (e.sequence > n + 1 ==> verdict == Err(StalePrecondition))
            && (e.sequence == n + 1 ==>
                  match ApplyEvent(apply, LoadProject(v).state, e)
                  case None => verdict == Err(Unavailable)
                  case Some(state) =>
                    verdict == Ok(View(Some(CachedProject(n + 1, e.hash, state)), v.events + [Record(e, r)])))
  {
    hide VerifyEventHash, VerifyReceipt, Matches, FindRow, ApplyEvent, Insert, Fold, ChainHolds, ContentOf;
    var n := |v.events|;
    ChainFind(v.events, 1, Genesis, serverKey, e.sequence);
    ChainOrdered(v.events, 1, Genesis, serverKey);
    if e.sequence <= n {
      assert SameEvent(v.events[e.sequence - 1].event, log[e.sequence - 1].event);
    } else {
      InsertAtEnd(v.events, Record(e, r));
      if e.sequence == n + 1 {
        LogRow(projectId, serverKey, log, n);
        SameHead(v.events, log);
        SamePrevious(e, log[n].event);
      }
    }
  }

  lemma SamePrevious(a: Event, b: Event)
    requires SameEvent(a, b) && VerifyEventHash(a)
    ensures a.previousHash == b.previousHash && a.sequence == b.sequence
  {
  }

  /** No event, however made or mangled, moves the cache off the log as long as its receipt is genuine. */
  lemma ApplyKeepsMirror(apply: Projector, serverKey: string, projectId: string, v: View, log: seq<Record>, e: Event,
                         r: Receipt)
    requires Authoritative(projectId, serverKey, log) && Mirrors(apply, serverKey, v, log)
    requires e.projectId == projectId && Genuine(projectId, serverKey, log, r)
    ensures var verdict := ApplyVerdict(apply, serverKey, v, e, r);
            verdict.Ok? ==> Mirrors(apply, serverKey, verdict.value, log) && v.events <= verdict.value.events
                            && e.sequence <= |verdict.value.events|
  {
    hide VerifyEventHash, VerifyReceipt, FindRow, ApplyEvent, Insert, ContentOf;
    if Matches(e, r) && VerifyReceipt(r, serverKey) && VerifyEventHash(e) {
      AcceptedEventIsLogged(projectId, serverKey, log, e, r);
      LoggedEventVerdict(apply, serverKey, projectId, v, log, e, r);
      if e.sequence == |v.events| + 1 && ApplyEvent(apply, LoadProject(v).state, e).Some? {
        ExtendMirror(apply, serverKey, projectId, v, log, e, r);
      }
    }
  }

  lemma ExtendMirror(apply: Projector, serverKey: string, projectId: string, v: View, log: seq<Record>, e: Event,
                     r: Receipt)
    requires Authoritative(projectId, serverKey, log) && Mirrors(apply, serverKey, v, log)
    requires VerifyReceipt(r, serverKey) && VerifyEventHash(e)
    requires |v.events| < |log| && e.sequence == |v.events| + 1 && SameEvent(e, log[|v.events|].event)
    requires ApplyEvent(apply, LoadProject(v).state, e).Some?
    ensures Mirrors(apply, serverKey,
                    View(Some(CachedProject(|v.events| + 1, e.hash, ApplyEvent(apply, LoadProject(v).state, e).value)),
                         v.events + [Record(e, r)]), log)
  {
    hide VerifyEventHash, VerifyReceipt, FindRow, ApplyEvent, Insert, ContentOf;
    hide ChainHolds, Fold, Authoritative, SameEvent;
    var row := Record(e, r);
    LogRow(projectId, serverKey, log, |v.events|);
    SamePrevious(e, log[|v.events|].event);
    MirrorsNext(v.events, log, row, serverKey);
    FoldSnoc(apply, v.events, row);
  }

  lemma MirrorsNext(events: seq<Record>, log: seq<Record>, row: Record, serverKey: string)
    requires |events| < |log| && ChainHolds(events, 1, Genesis, serverKey)
    requires forall i :: 0 <= i < |events| ==> SameEvent(events[i].event, log[i].event)
    requires row.event.sequence == |events| + 1 && row.event.previousHash == LastHash(log[..|events|], Genesis)
    requires VerifyReceipt(row.receipt, serverKey) && VerifyEventHash(row.event)
    ensures ChainHolds(events + [row], 1, Genesis, serverKey)
  {
    hide VerifyEventHash, VerifyReceipt, ContentOf;
    SameHead(events, log);
    ChainConcat(events, [row], 1, Genesis, serverKey);
    assert [row][1..] == [];
  }

  /** A mirror of a log mirrors every longer log. */
  lemma MirrorOfLongerLog(apply: Projector, serverKey: string, v: View, log: seq<Record>, longer: seq<Record>)
    requires Mirrors(apply, serverKey, v, log) && log <= longer
    ensures Mirrors(apply, serverKey, v, longer)
  {
    hide SameEvent, Fold, ChainHolds;
  }

  /** Whoever reads a mirror from the empty cursor on, page by page, sees all the cached events. */
  lemma CacheServesAllItHolds(apply: Projector, serverKey: string, v: View, log: seq<Record>, limit: int)
    requires Mirrors(apply, serverKey, v, log) && |v.events| < 0x1_0000_0000_0000_0000 && 0 <= limit <= 500
    ensures exists pages :: Reads(v.events, "", limit, pages)
    ensures forall pages :: Reads(v.events, "", limit, pages) ==> Items(pages) == v.events
  {
    ReadersSeeWholeLog(v.events, serverKey, limit);
  }

  lemma EmptyMirror(apply: Projector, serverKey: string, log: seq<Record>)
    ensures Mirrors(apply, serverKey, EMPTY_VIEW, log)
  {
  }

  /** The cached state is the fold of the log's own prefix, and every cached range verifies. */
  lemma MirrorMeaning(apply: Projector, serverKey: string, v: View, log: seq<Record>, from: nat, to: nat)
    requires Mirrors(apply, serverKey, v, log)
    ensures Fold(apply, log[..|v.events|]) == Some(LoadProject(v).state)
    ensures LoadProject(v).head == LastHash(log[..|v.events|], Genesis)
    ensures RangeVerdict(v.events, from, to, serverKey).Ok? <==>
            (to == 0 || First(from) <= to) && First(from) - 1 <= |v.events|
  {
    hide ContentOf;
    SameHead(v.events, log);
    ChainedLogVerifies(v.events, from, to, serverKey);
    forall i | 0 <= i < |v.events| ensures VerifyEventHash(v.events[i].event) {
      ChainAt(v.events, 1, Genesis, serverKey, i);
    }
    FoldIgnoresSpelling(apply, v.events, log[..|v.events|]);
  }

  /** An event is refused as tampered with, and nothing is stored, unless its receipt is the service's own and
      names just this event, and its hash is right. */
  lemma TamperedIsRefused(apply: Projector, serverKey: string, v: View, e: Event, r: Receipt)
    ensures ApplyVerdict(apply, serverKey, v, e, r) == Err(Integrity) <==>
            !(&& r.signature == Signed(serverKey, r.content)
              && r.content.projectId == e.projectId && r.content.sequence == e.sequence && r.content.eventId == e.id
              && r.content.eventHash == e.hash && r.content.intentHash == e.intentHash
              && VerifyEventHash(e))
  {
    hide VerifyEventHash, FindRow, ApplyEvent, Insert;
  }

  /** What becomes of an event that is not tampered with, whether or not the authority ever logged it, at a cache
      that is in order: up to the cached sequence it must repeat the cached event, and beyond it must continue
      the chain and fold. */
  lemma CheckedEventVerdict(apply: Projector, serverKey: string, v: View, e: Event, r: Receipt)
    requires ChainHolds(v.events, 1, Genesis, serverKey)
    requires LoadProject(v).sequence == |v.events| && LoadProject(v).head == LastHash(v.events, Genesis)
    requires Matches(e, r) && VerifyReceipt(r, serverKey) && VerifyEventHash(e)
    ensures Normalized(e.payload).Some?
    ensures var verdict, n := ApplyVerdict(apply, serverKey, v, e, r), |v.events|;
            if e.sequence == 0 then verdict == Err(Unavailable)
            else if e.sequence <= n then
              verdict == if v.events[e.sequence - 1].event.hash == e.hash then Ok(v) else Err(Conflict)
            else if e.sequence > n + 1 || e.previousHash != LastHash(v.events, Genesis) then
              verdict == Err(StalePrecondition)
            else
              match apply(LoadProject(v).state,
                          ModelEvent(e.id, e.sequence, e.time, e.actor, e.kind, e.entityId, Normalized(e.payload).value,
                                     e.previousHash, e.hash))
              case None => verdict == Err(Unavailable)
              case Some(state) =>
                verdict == Ok(View(Some(CachedProject(n + 1, e.hash, state)), v.events + [Record(e, r)]))
  {
    hide VerifyReceipt, Matches, FindRow, Insert, ChainHolds;
    ChainFind(v.events, 1, Genesis, serverKey, e.sequence);
    ChainOrdered(v.events, 1, Genesis, serverKey);
    assert Normalized(e.payload).Some?;
    hide VerifyEventHash;
    if e.sequence > |v.events| {
      InsertAtEnd(v.events, Record(e, r));
    }
  }

  /** A sequence is never stored twice, even if the cached sequence has fallen behind the rows. */
  lemma NoSecondRow(apply: Projector, serverKey: string, v: View, e: Event, r: Receipt)
    requires FindRow(v.events, e.sequence).Some?
    ensures var verdict := ApplyVerdict(apply, serverKey, v, e, r);
            verdict.Ok? ==> verdict.value == v
  {
    hide VerifyEventHash, VerifyReceipt, Matches, FindRow, ApplyEvent, Insert;
  }
}
