/** At most one sync of a project runs at a time, and a caller that finds one running shares its result.
    The log and the cached prefix are their lengths; whatever else happens the cached events are a
    prefix of the log, which is proved of the records themselves elsewhere. */
module SingleFlight {
  import opened Results
  import opened Contracts

  const PAGE := MAX_PAGE_SIZE

  /** Where a run of `syncProject` is. */
  datatype Stage =
    | Opened
    | Fetching(cursor: nat)
    | Applying(cursor: nat, end: nat, last: bool)   // a page that ends at `end`, the last one or not
    | Closed(ok: bool)

  /** `seen` is how long the log was at the latest fetch. */
  datatype Flight = Flight(stage: Stage, seen: nat)

  datatype Outcome = Waiting | Returned(ok: bool) | GaveUp

  /** A call of `Sync`: how long the log was when it asked, whether it leads its flight, and whether it
      came after the flight had fetched its last page. */
  datatype Caller = Caller(flight: nat, asked: nat, leads: bool, late: bool, outcome: Outcome)

  datatype World = World(log: nat, cached: nat, syncing: Option<nat>, flights: seq<Flight>, callers: seq<Caller>)

  datatype Action =
    | Commit
    | Present(sequence: nat)        // the command path applies an event
    | Enter
    | Begin(flight: nat)
    | Fetch(flight: nat)
    | ApplyNext(flight: nat)
    | EndPage(flight: nat)
    | Fail(flight: nat)
    | Leave(caller: nat)            // the leader takes the flight out of the table
    | Wake(caller: nat)
    | GiveUp(caller: nat)

  predicate IsLate(stage: Stage) {
    stage.Closed? || (stage.Applying? && stage.last)
  }

  function Fly(w: World, f: nat, stage: Stage): World
    requires f < |w.flights|
  {
    w.(flights := w.flights[f := w.flights[f].(stage := stage)])
  }

  function Outcomes(w: World, c: nat, outcome: Outcome): World
    requires c < |w.callers|
  {
    w.(callers := w.callers[c := w.callers[c].(outcome := outcome)])
  }

  /** A caller that waits and the flight it waits for. */
  predicate Waits(w: World, c: nat) {
    c < |w.callers| && w.callers[c].outcome.Waiting? && w.callers[c].flight < |w.flights|
  }

  function FlightOf(w: World, c: nat): Flight
    requires Waits(w, c)
  {
    w.flights[w.callers[c].flight]
  }

  function Next(w: World, a: Action): Option<World> {
    match a
    case Commit => Some(w.(log := w.log + 1))
    case Present(sequence) =>
      if sequence == w.cached + 1 && sequence <= w.log then Some(w.(cached := sequence)) else None
    case Enter =>
      (match w.syncing
       case Some(f) =>
         if f < |w.flights| then
           Some(w.(callers := w.callers + [Caller(f, w.log, false, IsLate(w.flights[f].stage), Waiting)]))
         else None
       case None =>
         Some(w.(syncing := Some(|w.flights|), flights := w.flights + [Flight(Opened, 0)],
                 callers := w.callers + [Caller(|w.flights|, w.log, true, false, Waiting)])))
    case Begin(f) =>
      if f < |w.flights| && w.flights[f].stage.Opened? then Some(Fly(w, f, Fetching(w.cached))) else None
    case Fetch(f) =>
      if f < |w.flights| && w.flights[f].stage.Fetching? && w.flights[f].stage.cursor <= w.log then
        var cursor := w.flights[f].stage.cursor;
        var end := if w.log - cursor > PAGE then cursor + PAGE else w.log;
        Some(w.(flights := w.flights[f := Flight(Applying(cursor, end, end == w.log), w.log)]))
      else None
    case ApplyNext(f) =>
      if f < |w.flights| && w.flights[f].stage.Applying? && w.flights[f].stage.cursor < w.flights[f].stage.end then
        var stage := w.flights[f].stage;
        // A record already there is accepted again; one beyond the next would be refused.
        if stage.cursor > w.cached then None
        else
          var cached := if w.cached == stage.cursor then w.cached + 1 else w.cached;
          Some(Fly(w, f, stage.(cursor := stage.cursor + 1)).(cached := cached))
      else None
    case EndPage(f) =>
      if f < |w.flights| && w.flights[f].stage.Applying? && w.flights[f].stage.cursor == w.flights[f].stage.end then
        Some(Fly(w, f, if w.flights[f].stage.last then Closed(true) else Fetching(w.flights[f].stage.end)))
      else None
    case Fail(f) =>
      if f < |w.flights| && !w.flights[f].stage.Closed? then Some(Fly(w, f, Closed(false))) else None
    case Leave(c) =>
      if Waits(w, c) && w.callers[c].leads && FlightOf(w, c).stage.Closed? then
        Some(Outcomes(w, c, Returned(FlightOf(w, c).stage.ok)).(syncing := None))
      else None
    case Wake(c) =>
      if Waits(w, c) && !w.callers[c].leads && FlightOf(w, c).stage.Closed? then
        Some(Outcomes(w, c, Returned(FlightOf(w, c).stage.ok)))
      else None
    case GiveUp(c) =>
      if Waits(w, c) && !w.callers[c].leads then Some(Outcomes(w, c, GaveUp)) else None
  }

  /** A run from a world; an action that cannot happen is passed over. */
  function Run(w: World, actions: seq<Action>): World
    decreases |actions|
  {
    if actions == [] then w else Run(Step(w, actions[0]), actions[1..])
  }

  function Step(w: World, a: Action): World {
    if Next(w, a).Some? then Next(w, a).value else w
  }

  const START := World(0, 0, None, [], [])

  // ---------------------------------------------------------------- the invariant

  predicate FlightHolds(w: World, f: nat)
    requires f < |w.flights|
  {
    var flight := w.flights[f];
    && (!flight.stage.Closed? ==> w.syncing == Some(f))
    && flight.seen <= w.log
    && match flight.stage
       case Opened => true
       case Fetching(cursor) => cursor <= w.cached
       case Applying(cursor, end, last) =>
         cursor <= w.cached && cursor <= end <= flight.seen && (last ==> end == flight.seen)
       case Closed(ok) => ok ==> flight.seen <= w.cached
  }

  /** A caller that was not late shares a flight that fetched its last page after the caller asked. */
  predicate CallerHolds(w: World, c: nat)
    requires c < |w.callers|
  {
    var caller := w.callers[c];
    && caller.flight < |w.flights| && caller.asked <= w.log
    && (caller.late ==> IsLate(w.flights[caller.flight].stage))
    && (!caller.late && IsLate(w.flights[caller.flight].stage) && w.flights[caller.flight].stage != Closed(false) ==>
          caller.asked <= w.flights[caller.flight].seen)
    && (caller.outcome.Returned? ==> w.flights[caller.flight].stage == Closed(caller.outcome.ok))
    && (caller.leads ==> !caller.late)
    && (caller.leads && caller.outcome.Waiting? ==> w.syncing == Some(caller.flight))
  }

  /** This caller leads a flight, and has not left it. */
  predicate Leads(w: World, c: nat, f: nat)
    requires c < |w.callers|
  {
    w.callers[c].leads && w.callers[c].outcome.Waiting? && w.callers[c].flight == f
  }

  predicate Inv(w: World) {
    && w.cached <= w.log
    && (w.syncing.Some? ==>
          w.syncing.value < |w.flights| && exists c :: 0 <= c < |w.callers| && Leads(w, c, w.syncing.value))
    && (forall f :: 0 <= f < |w.flights| ==> FlightHolds(w, f))
    && (forall c :: 0 <= c < |w.callers| ==> CallerHolds(w, c))
    && (forall c, d :: 0 <= c < d < |w.callers| && w.callers[c].leads && w.callers[d].leads ==>
          w.callers[c].flight != w.callers[d].flight)
  }

  lemma StepKeepsFlights(w: World, a: Action)
    requires Inv(w)
    ensures var t := Step(w, a);
            t.cached <= t.log && forall f :: 0 <= f < |t.flights| ==> FlightHolds(t, f)
  {
    hide IsLate;
    var t := Step(w, a);
    if a.ApplyNext? && a.flight < |w.flights| {
      assert FlightHolds(w, a.flight);
    }
    assert a.Leave? && a.caller < |w.callers| ==> CallerHolds(w, a.caller);
    forall f | 0 <= f < |t.flights| ensures FlightHolds(t, f) {
      assert f < |w.flights| ==> FlightHolds(w, f);
    }
  }

  lemma StepKeepsCallers(w: World, a: Action)
    requires Inv(w)
    ensures var t := Step(w, a);
            forall c :: 0 <= c < |t.callers| ==> CallerHolds(t, c)
  {
    var t := Step(w, a);
    if a.Leave? && a.caller < |w.callers| {
      assert CallerHolds(w, a.caller);
    }
    forall c | 0 <= c < |t.callers| ensures CallerHolds(t, c) {
      assert c < |w.callers| ==> CallerHolds(w, c);
    }
  }

  lemma StepKeepsLeader(w: World, a: Action)
    requires Inv(w)
    ensures var t := Step(w, a);
            t.syncing.Some? ==> exists c :: 0 <= c < |t.callers| && Leads(t, c, t.syncing.value)
  {
    hide FlightHolds, CallerHolds;
    var t := Step(w, a);
    if w.syncing.Some? && t.syncing.Some? {
      var c :| 0 <= c < |w.callers| && Leads(w, c, w.syncing.value);
      assert Leads(t, c, t.syncing.value);
    } else if t.syncing.Some? {
      assert Leads(t, |w.callers|, t.syncing.value);
    }
  }

  lemma StepKeepsInv(w: World, a: Action)
    requires Inv(w)
    ensures Inv(Step(w, a))
  {
    StepKeepsFlights(w, a);
    StepKeepsCallers(w, a);
    StepKeepsLeader(w, a);
    hide FlightHolds;
    forall c | 0 <= c < |w.callers| ensures w.callers[c].flight < |w.flights| {
      assert CallerHolds(w, c);
    }
    hide CallerHolds;
  }

  lemma {:induction false} RunKeepsInv(w: World, actions: seq<Action>)
    requires Inv(w)
    ensures Inv(Run(w, actions))
    decreases |actions|
  {
    if actions != [] {
      hide Inv, Step;
      StepKeepsInv(w, actions[0]);
      RunKeepsInv(Step(w, actions[0]), actions[1..]);
    }
  }

  // ---------------------------------------------------------------- what callers are promised

  /** In every run no two syncs of the project run at once, and a caller whose flight is over can leave. */
  lemma OneFlightAtATime(actions: seq<Action>, f: nat, g: nat)
    requires var w := Run(START, actions); f < |w.flights| && g < |w.flights|
    ensures var w := Run(START, actions);
            !w.flights[f].stage.Closed? && !w.flights[g].stage.Closed? ==> f == g
    ensures var w := Run(START, actions);
            forall c :: Waits(w, c) && FlightOf(w, c).stage.Closed? ==>
              Next(w, Leave(c)).Some? || Next(w, Wake(c)).Some?
  {
    RunKeepsInv(START, actions);
    var w := Run(START, actions);
    assert FlightHolds(w, f) && FlightHolds(w, g);
  }

  /** A caller that asked before its flight had fetched its last page, its leader above all, finds in
      the cache everything the log held when it asked. */
  lemma SuccessIsFresh(actions: seq<Action>, c: nat)
    requires var w := Run(START, actions);
             c < |w.callers| && w.callers[c].outcome == Returned(true) && !w.callers[c].late
    ensures var w := Run(START, actions); w.callers[c].asked <= w.cached
  {
    RunKeepsInv(START, actions);
    var w := Run(START, actions);
    assert CallerHolds(w, c) && FlightHolds(w, w.callers[c].flight);
  }

  /** A waiting caller may yet be told of success while the cache lacks what the log held when it asked. */
  ghost predicate MayMiss(w: World, c: nat)
    requires c < |w.callers|
  {
    exists actions :: Misses(Run(w, actions), c, w.callers[c].asked)
  }

  predicate Misses(w: World, c: nat, asked: nat) {
    c < |w.callers| && w.callers[c].outcome == Returned(true) && w.cached < asked
  }

  /** The caller came late, its flight fetched before the caller's events, and nobody else has brought them. */
  predicate AtRisk(w: World, c: nat)
    requires Waits(w, c)
  {
    && w.callers[c].late && FlightOf(w, c).stage != Closed(false)
    && FlightOf(w, c).seen < w.callers[c].asked && w.cached < w.callers[c].asked
  }

  /** The caller is out of danger for good. */
  predicate Safe(w: World, c: nat) {
    && c < |w.callers| && w.callers[c].flight < |w.flights|
    && var caller, flight := w.callers[c], w.flights[w.callers[c].flight];
    (!caller.late || caller.asked <= w.cached || caller.asked <= flight.seen || flight.stage == Closed(false))
  }

  lemma StepKeepsSafe(w: World, a: Action, c: nat)
    requires Inv(w) && Safe(w, c)
    ensures Safe(Step(w, a), c) && Step(w, a).callers[c].asked == w.callers[c].asked
  {
    assert CallerHolds(w, c) && FlightHolds(w, w.callers[c].flight);
  }

  lemma {:induction false} RunKeepsSafe(w: World, actions: seq<Action>, c: nat)
    requires Inv(w) && Safe(w, c)
    ensures Safe(Run(w, actions), c) && Run(w, actions).callers[c].asked == w.callers[c].asked
    decreases |actions|
  {
    if actions != [] {
      hide Inv, Step;
      StepKeepsInv(w, actions[0]);
      StepKeepsSafe(w, actions[0], c);
      RunKeepsSafe(Step(w, actions[0]), actions[1..], c);
    }
  }

  /** How many steps a flight on its last page is from letting its callers go. */
  function Remaining(stage: Stage): nat {
    if stage.Applying? && stage.cursor <= stage.end then 1 + stage.end - stage.cursor else 0
  }

  /** Left to itself the flight applies the rest of its last page, closes, and the caller returns. */
  lemma {:induction false} Misled(w: World, c: nat) returns (actions: seq<Action>)
    requires Inv(w) && Waits(w, c) && !w.callers[c].leads && AtRisk(w, c)
    ensures Misses(Run(w, actions), c, w.callers[c].asked)
    decreases Remaining(FlightOf(w, c).stage)
  {
    var f := w.callers[c].flight;
    assert CallerHolds(w, c) && FlightHolds(w, f);
    var stage := w.flights[f].stage;
    var a := if stage.Closed? then Wake(c) else if stage.cursor < stage.end then ApplyNext(f) else EndPage(f);
    StepKeepsInv(w, a);
    var rest := [];
    if !stage.Closed? {
      rest := Misled(Step(w, a), c);
    }
    actions := [a] + rest;
    assert actions[1..] == rest;
  }

  /** Exactly the callers at risk may be misled: success then says nothing of the events they asked for. */
  lemma MissIff(w: World, c: nat)
    requires Inv(w) && Waits(w, c)
    ensures MayMiss(w, c) <==> AtRisk(w, c)
  {
    assert CallerHolds(w, c);
    if AtRisk(w, c) {
      var actions := Misled(w, c);
      assert MayMiss(w, c);
    } else {
      forall actions ensures !Misses(Run(w, actions), c, w.callers[c].asked) {
        RunKeepsSafe(w, actions, c);
        RunKeepsInv(w, actions);
        var t := Run(w, actions);
        assert CallerHolds(t, c) && FlightHolds(t, t.callers[c].flight);
      }
    }
  }

  /** It does happen: a commit lands after the last page was fetched, and the sync its command asks for
      joins that flight. */
  lemma LateJoinerMisses()
    ensures exists w, c :: Inv(w) && Waits(w, c) && AtRisk(w, c)
                           && w == Run(START, [Commit, Enter, Begin(0), Fetch(0), Commit, Enter])
  {
    var w4 := World(1, 0, Some(0), [Flight(Applying(0, 1, true), 1)], [Caller(0, 1, true, false, Waiting)]);
    assert Run(START, [Commit, Enter, Begin(0), Fetch(0), Commit, Enter])
        == Run(Step(Step(START, Commit), Enter), [Begin(0), Fetch(0), Commit, Enter])
        == Run(Step(Step(Step(Step(START, Commit), Enter), Begin(0)), Fetch(0)), [Commit, Enter]);
    assert Step(Step(Step(Step(START, Commit), Enter), Begin(0)), Fetch(0)) == w4;
    var w := Step(Step(w4, Commit), Enter);
    assert Run(w4, [Commit, Enter]) == w;
    RunKeepsInv(START, [Commit, Enter, Begin(0), Fetch(0), Commit, Enter]);
    assert Waits(w, 1) && AtRisk(w, 1);
  }

  /** In every run, a caller joins a flight exactly if one has a leader that has not left it yet; otherwise it
      leads a flight of its own, which no earlier one can hold up. */
  lemma EnterMeaning(actions: seq<Action>)
    ensures var w := Run(START, actions);
            var next := Next(w, Enter);
            && next.Some? && |next.value.callers| == |w.callers| + 1
            && var caller := next.value.callers[|w.callers|];
            && caller.asked == w.log && caller.outcome == Waiting
            && (caller.leads <==>
                  forall c :: 0 <= c < |w.callers| && w.callers[c].leads ==> !w.callers[c].outcome.Waiting?)
            && (caller.leads ==> caller.flight == |w.flights| && next.value.flights == w.flights + [Flight(Opened, 0)])
            && (!caller.leads ==> next.value.flights == w.flights
                                  && exists c :: 0 <= c < |w.callers| && Leads(w, c, caller.flight))
  {
    RunKeepsInv(START, actions);
    var w := Run(START, actions);
    hide FlightHolds, Run;
    forall c | 0 <= c < |w.callers| ensures w.callers[c].leads && w.callers[c].outcome.Waiting? ==> w.syncing.Some? {
      assert CallerHolds(w, c);
    }
    hide CallerHolds;
    if w.syncing.Some? {
      var c :| 0 <= c < |w.callers| && Leads(w, c, w.syncing.value);
      assert w.callers[c].leads && w.callers[c].outcome.Waiting?;
    }
  }

  // ---------------------------------------------------------------- how a flight proceeds

  /** In every run an open flight can take its next step: it starts behind the cached events, fetches pages of 500,
      applies them record by record, where one already there counts as applied, and closes after the last; it may
      fail at any time.  Meanwhile the command path may bring the next event, and a caller that does not lead
      may give up. */
  lemma FlightProceeds(actions: seq<Action>, f: nat)
    requires f < |Run(START, actions).flights|
    ensures var w := Run(START, actions);
            match w.flights[f].stage
            case Opened => Next(w, Begin(f)) == Some(Fly(w, f, Fetching(w.cached)))
            case Fetching(cursor) =>
              var end := if w.log - cursor > 500 then cursor + 500 else w.log;
              && end >= cursor
              && Next(w, Fetch(f)) ==
                 Some(w.(flights := w.flights[f := Flight(Applying(cursor, end, end == w.log), w.log)]))
            case Applying(cursor, end, last) =>
              if cursor < end then
                Next(w, ApplyNext(f)) ==
                Some(Fly(w, f, Applying(cursor + 1, end, last)).(cached := if w.cached > cursor then w.cached
                                                                           else cursor + 1))
              else Next(w, EndPage(f)) == Some(Fly(w, f, if last then Closed(true) else Fetching(end)))
            case Closed(_) => true
    ensures var w := Run(START, actions);
            && (!w.flights[f].stage.Closed? ==> Next(w, Action.Fail(f)) == Some(Fly(w, f, Closed(false))))
            && (forall n: nat :: Next(w, Present(n)) ==
                            if w.cached + 1 == n <= w.log then Some(w.(cached := n)) else None)
            && (forall c :: 0 <= c < |w.callers| && !w.callers[c].leads && w.callers[c].outcome.Waiting? ==>
                  Next(w, GiveUp(c)) == Some(Outcomes(w, c, GaveUp)))
  {
    RunKeepsInv(START, actions);
    var w := Run(START, actions);
    hide Run, Next;
    assert FlightHolds(w, f);
    FlightStep(w, f);
    forall c | 0 <= c < |w.callers| && !w.callers[c].leads && w.callers[c].outcome.Waiting?
      ensures Next(w, GiveUp(c)) == Some(Outcomes(w, c, GaveUp))
    {
      assert CallerHolds(w, c);
      hide Inv;
      MayGiveUp(w, c);
    }
    hide Inv;
    MayPresent(w);
  }

  lemma FlightStep(w: World, f: nat)
    requires f < |w.flights| && FlightHolds(w, f) && w.cached <= w.log
    ensures match w.flights[f].stage
            case Opened => Next(w, Begin(f)) == Some(Fly(w, f, Fetching(w.cached)))
            case Fetching(cursor) =>
              var end := if w.log - cursor > 500 then cursor + 500 else w.log;
              && end >= cursor
              && Next(w, Fetch(f)) ==
                 Some(w.(flights := w.flights[f := Flight(Applying(cursor, end, end == w.log), w.log)]))
            case Applying(cursor, end, last) =>
              if cursor < end then
                Next(w, ApplyNext(f)) ==
                Some(Fly(w, f, Applying(cursor + 1, end, last)).(cached := if w.cached > cursor then w.cached
                                                                           else cursor + 1))
              else Next(w, EndPage(f)) == Some(Fly(w, f, if last then Closed(true) else Fetching(end)))
            case Closed(_) => true
    ensures !w.flights[f].stage.Closed? ==> Next(w, Action.Fail(f)) == Some(Fly(w, f, Closed(false)))
  {
  }

  lemma MayPresent(w: World)
    ensures forall n: nat :: Next(w, Present(n)) ==
                             if w.cached + 1 == n <= w.log then Some(w.(cached := n)) else None
  {
  }

  lemma MayGiveUp(w: World, c: nat)
    requires Waits(w, c) && !w.callers[c].leads
    ensures Next(w, GiveUp(c)) == Some(Outcomes(w, c, GaveUp))
  {
  }

  /** A step of a flight itself that does not fail it. */
  predicate Flies(a: Action, f: nat) {
    a in {Begin(f), Fetch(f), ApplyNext(f), EndPage(f)}
  }

  /** How many steps a flight is from its end at most. */
  function Left(w: World, stage: Stage): int {
    match stage
    case Opened => 4 * w.log + 3
    case Fetching(cursor) => 4 * (w.log - cursor) + 2
    case Applying(cursor, end, last) => 4 * (w.log - cursor) + if cursor == end && !last then 3 else 1
    case Closed(_) => 0
  }

  /** Any sync under way can be carried through, and the cache then holds all the log held when its last page was
      fetched, which is the whole log if it had yet to be. */
  lemma {:induction false} SyncCanFinish(w: World, f: nat) returns (actions: seq<Action>)
    requires Inv(w) && f < |w.flights| && !w.flights[f].stage.Closed?
    ensures forall a :: a in actions ==> Flies(a, f)
    ensures var t := Run(w, actions);
            && f < |t.flights| && t.flights[f].stage == Closed(true) && t.log == w.log
            && t.cached >= if IsLate(w.flights[f].stage) then w.flights[f].seen else w.log
    decreases Left(w, w.flights[f].stage)
  {
    assert FlightHolds(w, f);
    var a := match w.flights[f].stage
             case Opened => Begin(f)
             case Fetching(_) => Fetch(f)
             case Applying(cursor, end, _) => if cursor < end then ApplyNext(f) else EndPage(f)
             case Closed(_) => Commit;
    StepKeepsInv(w, a);
    var next := Step(w, a);
    assert FlightHolds(next, f);
    var rest := [];
    if !next.flights[f].stage.Closed? {
      hide Inv;
      rest := SyncCanFinish(next, f);
    }
    actions := [a] + rest;
    assert actions[1..] == rest;
  }
}
