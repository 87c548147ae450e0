/** The dispatcher: one pass expires lapsed attempts and starts what is due, judged by a snapshot and by
    one clock reading.  Passes do not overlap, but clients redeliver, report, request and cancel while
    one is under way: before each command of a pass anything they may do can have happened. */
module Dispatch {
  import opened Results
  import opened Contracts
  import opened Delivery

  /** `deliveryRetryPending`, as a condition. */
  ghost predicate RetryPending(attempts: seq<Attempt>, invocation: string, now: int) {
    exists i :: 0 <= i < |attempts| && attempts[i].invocation == invocation && Waiting(attempts[i], now)
  }

  predicate Waiting(a: Attempt, now: int) {
    (a.status == Attempted && a.attemptUntil > now) || (a.nextRetryAt.Some? && a.nextRetryAt.value > now)
  }

  predicate Lapsed(a: Attempt, now: int) {
    a.status == Attempted && a.attemptUntil <= now
  }

  method DeliveryAttempt(attempts: seq<Attempt>, invocation: string) returns (number: nat)
    ensures number == LastNumber(attempts, invocation)
  {
    number := 0;
    for i := 0 to |attempts|
      invariant number == LastNumber(attempts[..i], invocation)
    {
      assert attempts[..i + 1][..i] == attempts[..i];
      if attempts[i].invocation == invocation && attempts[i].number > number {
        number := attempts[i].number;
      }
    }
    assert attempts[..|attempts|] == attempts;
  }

  method AutomaticDeliveryAttemptCount(attempts: seq<Attempt>, invocation: string) returns (count: nat)
    ensures count == AutomaticCount(attempts, invocation)
  {
    count := 0;
    for i := 0 to |attempts|
      invariant count == AutomaticCount(attempts[..i], invocation)
    {
      assert attempts[..i + 1][..i] == attempts[..i];
      if attempts[i].invocation == invocation && !attempts[i].manual {
        count := count + 1;
      }
    }
    assert attempts[..|attempts|] == attempts;
  }

  method DeliveryRetryPending(attempts: seq<Attempt>, invocation: string, now: int) returns (pending: bool)
    ensures pending <==> RetryPending(attempts, invocation, now)
    ensures pending <==> exists i ::
              && 0 <= i < |attempts| && attempts[i].invocation == invocation
              && ((attempts[i].status == Attempted && attempts[i].attemptUntil > now)
                  || (attempts[i].nextRetryAt.Some? && attempts[i].nextRetryAt.value > now))
  {
    for i := 0 to |attempts|
      invariant forall j :: 0 <= j < i && attempts[j].invocation == invocation ==> !Waiting(attempts[j], now)
    {
      if attempts[i].invocation == invocation {
        if attempts[i].status == Attempted && attempts[i].attemptUntil > now {
          return true;
        }
        if attempts[i].nextRetryAt.Some? && attempts[i].nextRetryAt.value > now {
          return true;
        }
      }
    }
    return false;
  }

  function Indices(n: nat): (s: set<nat>)
    ensures forall i :: i in s <==> 0 <= i < n
  {
    if n == 0 then {} else Indices(n - 1) + {n - 1}
  }

  /** The same delivery, whatever has become of it. */
  predicate SameDelivery(a: Attempt, b: Attempt) {
    a == b.(status := a.status, failedAt := a.failedAt, nextRetryAt := a.nextRetryAt)
  }

  /** The live board is a later one: deliveries keep their place, and one that is settled, or still open,
      is as it was. */
  ghost predicate Extends(live: Board, was: Board) {
    && |was.attempts| <= |live.attempts| && was.status.Keys <= live.status.Keys
    && forall i :: 0 <= i < |was.attempts| ==>
         && SameDelivery(live.attempts[i], was.attempts[i])
         && (was.attempts[i].status != Attempted || live.attempts[i].status == Attempted ==>
               live.attempts[i] == was.attempts[i])
  }

  /** Every attempt beyond the first n is a client's. */
  ghost predicate OnlyManual(attempts: seq<Attempt>, n: nat) {
    forall i :: n <= i < |attempts| ==> attempts[i].manual
  }

  lemma ExtendsTransitive(a: Board, b: Board, c: Board)
    requires Extends(b, a) && Extends(c, b)
    ensures Extends(c, a)
  {
  }

  lemma StepExtends(b: Board, step: Step, now: int)
    requires Known(b) && Accepts(b, step, now)
    ensures Extends(Project(b, step, now), b)
    ensures (step.Start? && !step.manual) || OnlyManual(Project(b, step, now).attempts, |b.attempts|)
  {
    hide LastNumber, HasSuccess, AutomaticCount;
  }

  // ---------------------------------------------------------------- counts across boards

  lemma {:induction false} SameCount(a: seq<Attempt>, b: seq<Attempt>, invocation: string)
    requires |a| == |b|
    requires forall i :: 0 <= i < |a| ==> (Automatic(a[i], invocation) <==> Automatic(b[i], invocation))
    ensures AutomaticCount(a, invocation) == AutomaticCount(b, invocation)
  {
    if a != [] {
      SameCount(a[..|a| - 1], b[..|b| - 1], invocation);
    }
  }

  /** An invocation without automatic attempts since has the count it had. */
  ghost predicate Untouched(live: Board, snapshot: Board, invocation: string) {
    forall i :: |snapshot.attempts| <= i < |live.attempts| ==> !Automatic(live.attempts[i], invocation)
  }

  lemma UntouchedCount(live: Board, snapshot: Board, invocation: string, n: nat)
    requires Extends(live, snapshot) && Untouched(live, snapshot, invocation)
    requires |snapshot.attempts| <= n <= |live.attempts|
    ensures AutomaticCount(live.attempts[..n], invocation) == AutomaticCount(snapshot.attempts, invocation)
  {
    var m := |snapshot.attempts|;
    CountPrefix(live.attempts[..n], invocation, m);
    assert live.attempts[..n][..m] == live.attempts[..m];
    SameCount(live.attempts[..m], snapshot.attempts, invocation);
  }

  /** Ordinals are those of the snapshot. */
  lemma SameOrdinal(live: Board, snapshot: Board, i: nat)
    requires Extends(live, snapshot) && i < |snapshot.attempts|
    ensures Ordinal(live.attempts, i) == Ordinal(snapshot.attempts, i)
  {
    SameCount(live.attempts[..i + 1], snapshot.attempts[..i + 1], live.attempts[i].invocation);
  }

  // ---------------------------------------------------------------- expiry

  /** A delivery whose failure was recorded, to be retried after the backoff of a number. */
  function Failure(a: Attempt, final: bool, number: nat, now: int): Attempt
    requires number >= 1
  {
    a.(status := if final then Exhausted else Failed, failedAt := Some(now),
       nextRetryAt := if final then None else Some(now + Backoff(number)))
  }

  /** A lapsed delivery as the scan records it. */
  function AfterLapse(attempts: seq<Attempt>, a: Attempt, now: int): Attempt
    requires a.number >= 1
  {
    Failure(a, !a.manual && AutomaticCount(attempts, a.invocation) >= MAX_DELIVERY_ATTEMPTS, a.number, now)
  }

  predicate Numbered(attempts: seq<Attempt>) {
    forall i :: 0 <= i < |attempts| ==> attempts[i].number >= 1
  }

  /** The lapsed deliveries that are no longer to do are recorded as failed. */
  ghost predicate Scanned(live: Board, snapshot: Board, todo: set<nat>, now: int) {
    && Extends(live, snapshot) && Numbered(snapshot.attempts)
    && forall i :: 0 <= i < |snapshot.attempts| && i !in todo && Lapsed(snapshot.attempts[i], now) ==>
         live.attempts[i] == AfterLapse(snapshot.attempts, snapshot.attempts[i], now)
  }

  ghost predicate HasLapsed(snapshot: Board, v: string, now: int) {
    exists i ::
      0 <= i < |snapshot.attempts| && snapshot.attempts[i].invocation == v && Lapsed(snapshot.attempts[i], now)
  }

  ghost predicate OnlyLapsed(snapshot: Board, expired: set<string>, now: int) {
    forall v :: v in expired ==> HasLapsed(snapshot, v, now)
  }

  ghost predicate AllScanned(snapshot: Board, expired: set<string>, todo: set<nat>, now: int) {
    forall i :: 0 <= i < |snapshot.attempts| && i !in todo && Lapsed(snapshot.attempts[i], now) ==>
      snapshot.attempts[i].invocation in expired
  }

  lemma StartsScan(snapshot: Board, todo: set<nat>, now: int)
    requires todo == Indices(|snapshot.attempts|) && Numbered(snapshot.attempts)
    ensures Scanned(snapshot, snapshot, todo, now)
    ensures OnlyLapsed(snapshot, {}, now) && AllScanned(snapshot, {}, todo, now)
  {
  }

  lemma ScanStep(live: Board, snapshot: Board, expired: set<string>, todo: set<nat>, i: nat, now: int)
    requires i in todo && i < |snapshot.attempts|
    requires Scanned(live, snapshot, todo, now)
    requires OnlyLapsed(snapshot, expired, now) && AllScanned(snapshot, expired, todo, now)
    ensures var v := snapshot.attempts[i].invocation;
            if Lapsed(snapshot.attempts[i], now) then
              OnlyLapsed(snapshot, expired + {v}, now) && AllScanned(snapshot, expired + {v}, todo - {i}, now)
            else
              AllScanned(snapshot, expired, todo - {i}, now) && Scanned(live, snapshot, todo - {i}, now)
  {
    hide AfterLapse;
  }

  /** Nothing that happens later undoes what was recorded. */
  lemma ScannedStays(was: Board, live: Board, snapshot: Board, todo: set<nat>, now: int)
    requires Scanned(was, snapshot, todo, now) && Extends(live, was)
    ensures Scanned(live, snapshot, todo, now)
  {
    hide AutomaticCount;
  }

  lemma ScanUpdate(was: Board, live: Board, snapshot: Board, todo: set<nat>, i: nat, now: int)
    requires Scanned(was, snapshot, todo, now) && Extends(live, was) && i < |snapshot.attempts|
    requires live.attempts[i] == AfterLapse(snapshot.attempts, snapshot.attempts[i], now)
    ensures Scanned(live, snapshot, todo - {i}, now)
  {
    hide AutomaticCount;
    ScannedStays(was, live, snapshot, todo, now);
  }

  // ---------------------------------------------------------------- what a pass starts

  /** A pass must start an attempt: the invocation is pending, has no delivery that lapsed or waits, can
      be routed, and has attempts left. */
  ghost predicate Due(snapshot: Board, v: string, now: int, route: string -> Option<string>) {
    && v in snapshot.status && snapshot.status[v] == Pending
    && !HasLapsed(snapshot, v, now) && !RetryPending(snapshot.attempts, v, now)
    && route(v).Some? && AutomaticCount(snapshot.attempts, v) < MAX_DELIVERY_ATTEMPTS
  }

  /** An invocation is due exactly if it is pending and routable, has had fewer than ten automatic attempts,
      and no delivery of it is open, lapsed or not, or has its retry still ahead. */
  lemma DueMeaning(snapshot: Board, v: string, now: int, route: string -> Option<string>)
    ensures Due(snapshot, v, now, route) <==>
              && v in snapshot.status && snapshot.status[v] == Pending && route(v).Some?
              && |Automatics(snapshot.attempts, v)| < 10
              && forall i :: 0 <= i < |snapshot.attempts| && snapshot.attempts[i].invocation == v ==>
                   && snapshot.attempts[i].status != Attempted
                   && (snapshot.attempts[i].nextRetryAt.Some? ==> snapshot.attempts[i].nextRetryAt.value <= now)
  {
    AutomaticLength(snapshot.attempts, v);
    hide AutomaticCount, Automatics;
    if !HasLapsed(snapshot, v, now) && !RetryPending(snapshot.attempts, v, now) {
      forall i | 0 <= i < |snapshot.attempts| && snapshot.attempts[i].invocation == v
        ensures snapshot.attempts[i].status != Attempted
        ensures snapshot.attempts[i].nextRetryAt.Some? ==> snapshot.attempts[i].nextRetryAt.value <= now
      {
        assert !Waiting(snapshot.attempts[i], now) && !Lapsed(snapshot.attempts[i], now);
      }
    }
  }

  /** What a scan records of a delivery, the k-th of its invocation, whose lease has run out: it is exhausted
      if it is automatic and ten automatic attempts have been made, and else is retried 2, 4, 8, 16, 32, 64, 128
      or 256 seconds later for k up to eight and 300 for a later one; any other delivery is left to others. */
  lemma ScanRecords(live: Board, snapshot: Board, now: int, i: nat)
    requires Scanned(live, snapshot, {}, now) && i < |snapshot.attempts|
    requires snapshot.attempts[i].status == Attempted && snapshot.attempts[i].attemptUntil <= now
    ensures var a, k := snapshot.attempts[i], snapshot.attempts[i].number;
            var seconds := match k
                           case 1 => 2 case 2 => 4 case 3 => 8 case 4 => 16 case 5 => 32 case 6 => 64 case 7 => 128
                           case 8 => 256 case _ => 300;
            live.attempts[i] ==
              if !a.manual && |Automatics(snapshot.attempts, a.invocation)| >= 10
              then a.(status := Exhausted, failedAt := Some(now), nextRetryAt := None)
              else a.(status := Failed, failedAt := Some(now), nextRetryAt := Some(now + seconds * 1_000_000_000))
  {
    var a := snapshot.attempts[i];
    AutomaticLength(snapshot.attempts, a.invocation);
    hide AutomaticCount, Automatics, Backoff;
    BackoffInSeconds(a.number);
    assert Lapsed(a, now);
  }

  /** What a pass has recorded of its own attempt of an invocation that could not be delivered: failed with the
      retry of the number it was given in the snapshot, or exhausted as the tenth automatic one. */
  lemma PassRecords(snapshot: Board, a: Attempt, v: string, now: int)
    requires SettledFor(snapshot, a, v, now, false)
    ensures var seconds := match LastNumber(snapshot.attempts, v) + 1
                           case 1 => 2 case 2 => 4 case 3 => 8 case 4 => 16 case 5 => 32 case 6 => 64 case 7 => 128
                           case 8 => 256 case _ => 300;
            && a.failedAt == Some(now)
            && if |Automatics(snapshot.attempts, v)| >= 9 then a.status == Exhausted && a.nextRetryAt == None
               else a.status == Failed && a.nextRetryAt == Some(now + seconds * 1_000_000_000)
  {
    AutomaticLength(snapshot.attempts, v);
    hide AutomaticCount, Automatics, Backoff, LastNumber;
    BackoffInSeconds(LastNumber(snapshot.attempts, v) + 1);
  }

  /** What is recorded of a delivery carried out for a client that fails. */
  lemma RedeliveryRecords(before: seq<Attempt>, after: seq<Attempt>, id: nat, now: int)
    requires FailedAfter(before, after, id, now)
    ensures var a, k := before[id], before[id].number;
            var seconds := match k
                           case 1 => 2 case 2 => 4 case 3 => 8 case 4 => 16 case 5 => 32 case 6 => 64 case 7 => 128
                           case 8 => 256 case _ => 300;
            after[id] ==
              if a.manual || |Automatics(before, a.invocation)| >= 10
              then a.(status := Exhausted, failedAt := Some(now), nextRetryAt := None)
              else a.(status := Failed, failedAt := Some(now), nextRetryAt := Some(now + seconds * 1_000_000_000))
  {
    AutomaticLength(before, before[id].invocation);
    hide AutomaticCount, Automatics, Backoff;
    BackoffInSeconds(before[id].number);
  }

  /** What a pass checks before it starts an attempt is whether one is due. */
  lemma DueIff(snapshot: Board, lapsed: set<string>, v: string, now: int, route: string -> Option<string>)
    requires OnlyLapsed(snapshot, lapsed, now) && AllScanned(snapshot, lapsed, {}, now)
    ensures Due(snapshot, v, now, route) <==>
              && v in snapshot.status && snapshot.status[v] == Pending && v !in lapsed
              && !RetryPending(snapshot.attempts, v, now) && route(v).Some?
              && AutomaticCount(snapshot.attempts, v) < MAX_DELIVERY_ATTEMPTS
  {
    hide RetryPending, AutomaticCount;
  }

  /** Whatever clients have done since the snapshot, the automatic attempts of a due invocation have all
      failed and waited long enough. */
  lemma DueIsReady(live: Board, snapshot: Board, before: int, v: string, now: int, route: string -> Option<string>)
    requires Inv(snapshot, before) && Extends(live, snapshot)
    requires Due(snapshot, v, now, route) && Untouched(live, snapshot, v)
    ensures Ready(live.attempts, v, now)
  {
    forall i | 0 <= i < |live.attempts| && Automatic(live.attempts[i], v)
      ensures live.attempts[i].status == Failed || live.attempts[i].status == Exhausted
      ensures live.attempts[i].nextRetryAt.Some? ==> live.attempts[i].nextRetryAt.value <= now
    {
      assert i < |snapshot.attempts|;
      var a := snapshot.attempts[i];
      assert a.invocation == v && !Waiting(a, now) && !Lapsed(a, now);
      assert !HasSuccess(snapshot.attempts, v);
      assert live.attempts[i] == a;
    }
  }

  /** Why one clock reading: with a scan at one time and the gate at a later one, what passes the gate is
      ready exactly if no automatic attempt of the invocation has its lease run out between the two. */
  lemma GateIff(b: Board, before: int, v: string, scan: int, gate: int)
    requires Inv(b, before) && v in b.status && b.status[v] == Pending
    requires !HasLapsed(b, v, scan) && !RetryPending(b.attempts, v, gate)
    ensures Ready(b.attempts, v, gate) <==>
            !exists i :: 0 <= i < |b.attempts| && Automatic(b.attempts[i], v)
                      && b.attempts[i].status == Attempted && scan < b.attempts[i].attemptUntil <= gate
  {
    assert !HasSuccess(b.attempts, v);
    forall i | 0 <= i < |b.attempts| && b.attempts[i].invocation == v
      ensures b.attempts[i].status == Attempted ==> scan < b.attempts[i].attemptUntil <= gate
      ensures b.attempts[i].nextRetryAt.Some? ==> b.attempts[i].nextRetryAt.value <= gate
    {
      assert !Waiting(b.attempts[i], gate) && !Lapsed(b.attempts[i], scan);
    }
  }

  /** An automatic attempt of this pass, just reserved. */
  predicate StartedFor(snapshot: Board, a: Attempt, v: string, runtime: string, now: int) {
    && a.invocation == v && a.runtime == runtime && !a.manual
    && a.number > LastNumber(snapshot.attempts, v)
    && a.attemptedAt == now && a.attemptUntil == now + 30_000_000_000
  }

  /** Its outcome is recorded: delivered, or failed, and then final if it was the last one allowed. */
  predicate SettledFor(snapshot: Board, a: Attempt, v: string, now: int, delivered: bool) {
    if delivered then a.status == Succeeded
    else a == Failure(a, AutomaticCount(snapshot.attempts, v) + 1 >= MAX_DELIVERY_ATTEMPTS,
                      LastNumber(snapshot.attempts, v) + 1, now)
  }

  /** At most one automatic attempt was added, for this invocation; if its outcome is known, one was and the
      outcome is recorded. */
  ghost predicate Opened(b: Board, live: Board, snapshot: Board, v: string, runtime: string, now: int,
                         outcome: Option<bool>) {
    && Extends(live, b)
    && ((OnlyManual(live.attempts, |b.attempts|) && outcome.None?)
        || exists id: nat :: OpenedAt(b, live, snapshot, v, runtime, now, outcome, id))
  }

  ghost predicate OpenedAt(b: Board, live: Board, snapshot: Board, v: string, runtime: string, now: int,
                           outcome: Option<bool>, id: nat) {
    && |b.attempts| <= id < |live.attempts|
    && StartedFor(snapshot, live.attempts[id], v, runtime, now)
    && (outcome.Some? ==> SettledFor(snapshot, live.attempts[id], v, now, outcome.value))
    && (forall i :: |b.attempts| <= i < |live.attempts| && i != id ==> live.attempts[i].manual)
  }

  /** Every automatic attempt beyond the snapshot's was due, and is the only one of its invocation. */
  ghost predicate OnlyDue(live: Board, snapshot: Board, now: int, route: string -> Option<string>) {
    && (forall i :: |snapshot.attempts| <= i < |live.attempts| && !live.attempts[i].manual ==>
          && Due(snapshot, live.attempts[i].invocation, now, route)
          && StartedFor(snapshot, live.attempts[i], live.attempts[i].invocation,
                        route(live.attempts[i].invocation).value, now))
    && (forall i, j ::
          |snapshot.attempts| <= i < j < |live.attempts| && !live.attempts[i].manual && !live.attempts[j].manual ==>
            live.attempts[i].invocation != live.attempts[j].invocation)
  }

  ghost predicate Settles(live: Board, snapshot: Board, v: string, now: int, delivered: bool) {
    exists i :: |snapshot.attempts| <= i < |live.attempts| && Automatic(live.attempts[i], v)
      && SettledFor(snapshot, live.attempts[i], v, now, delivered)
  }

  /** Every invocation that was due, but for those still to do and those refused, has its attempt settled. */
  ghost predicate AllDue(live: Board, snapshot: Board, todo: set<string>, refused: set<string>, now: int,
                         route: string -> Option<string>, delivers: string -> bool) {
    forall v :: Due(snapshot, v, now, route) && v !in todo && v !in refused ==>
      Settles(live, snapshot, v, now, delivers(v))
  }

  /** No invocation still to do has an automatic attempt of this pass. */
  ghost predicate TodoUntouched(live: Board, snapshot: Board, todo: set<string>) {
    forall i :: |snapshot.attempts| <= i < |live.attempts| && !live.attempts[i].manual ==>
      live.attempts[i].invocation !in todo
  }

  /** Where the second loop of a pass is. */
  ghost predicate Passing(live: Board, snapshot: Board, todo: set<string>, refused: set<string>, now: int,
                          route: string -> Option<string>, delivers: string -> bool) {
    && Extends(live, snapshot) && OnlyDue(live, snapshot, now, route)
    && TodoUntouched(live, snapshot, todo) && AllDue(live, snapshot, todo, refused, now, route, delivers)
  }

  lemma PassStarts(live: Board, snapshot: Board, now: int, route: string -> Option<string>, delivers: string -> bool)
    requires Extends(live, snapshot) && OnlyManual(live.attempts, |snapshot.attempts|)
    ensures Passing(live, snapshot, snapshot.status.Keys, {}, now, route, delivers)
  {
    hide RetryPending, AutomaticCount, HasLapsed;
  }

  lemma SettledStays(b: Board, live: Board, snapshot: Board, v: string, now: int, delivered: bool)
    requires Extends(b, snapshot) && Extends(live, b) && Settles(b, snapshot, v, now, delivered)
    ensures Settles(live, snapshot, v, now, delivered)
  {
    var i :| |snapshot.attempts| <= i < |b.attempts| && Automatic(b.attempts[i], v)
      && SettledFor(snapshot, b.attempts[i], v, now, delivered);
    assert live.attempts[i] == b.attempts[i];
  }

  /** An invocation that is not due is passed over. */
  lemma SkipKeeps(live: Board, snapshot: Board, todo: set<string>, v: string, refused: set<string>, now: int,
                  route: string -> Option<string>, delivers: string -> bool)
    requires Passing(live, snapshot, todo, refused, now, route, delivers) && !Due(snapshot, v, now, route)
    ensures Passing(live, snapshot, todo - {v}, refused, now, route, delivers)
  {
    hide Due, StartedFor, SettledFor, Extends;
  }

  /** An attempt for one that is due takes it off the list. */
  lemma OpenedKeeps(b: Board, live: Board, snapshot: Board, todo: set<string>, v: string, runtime: string,
                    refused: set<string>, now: int, route: string -> Option<string>,
                    delivers: string -> bool, stop: bool, failed: bool)
    requires Passing(b, snapshot, todo, refused, now, route, delivers) && v in todo
    requires Due(snapshot, v, now, route) && route(v) == Some(runtime)
    requires Opened(b, live, snapshot, v, runtime, now, if stop || failed then None else Some(delivers(v)))
    ensures Extends(live, snapshot) && OnlyDue(live, snapshot, now, route)
    ensures !stop ==>
              Passing(live, snapshot, todo - {v}, if failed then refused + {v} else refused, now, route, delivers)
  {
    ExtendsTransitive(snapshot, b, live);
    OpenedOnlyDue(b, live, snapshot, todo, v, runtime, now, route,
                  if stop || failed then None else Some(delivers(v)));
    if !stop {
      hide Due, OnlyDue, TodoUntouched, Opened;
      var refused' := if failed then refused + {v} else refused;
      forall w | Due(snapshot, w, now, route) && w !in todo - {v} && w !in refused'
        ensures Settles(live, snapshot, w, now, delivers(w))
      {
        if w == v {
          OpenedSettles(b, live, snapshot, v, runtime, now, delivers(v));
        } else {
          SettledStays(b, live, snapshot, w, now, delivers(w));
        }
      }
    }
  }

  lemma OpenedSettles(b: Board, live: Board, snapshot: Board, v: string, runtime: string, now: int, delivered: bool)
    requires Extends(b, snapshot) && Opened(b, live, snapshot, v, runtime, now, Some(delivered))
    ensures Settles(live, snapshot, v, now, delivered)
  {
    hide SettledFor, LastNumber;
    var id: nat :| OpenedAt(b, live, snapshot, v, runtime, now, Some(delivered), id);
    assert Automatic(live.attempts[id], v);
  }

  lemma OpenedOnlyDue(b: Board, live: Board, snapshot: Board, todo: set<string>, v: string, runtime: string, now: int,
                      route: string -> Option<string>, outcome: Option<bool>)
    requires Extends(b, snapshot) && OnlyDue(b, snapshot, now, route) && TodoUntouched(b, snapshot, todo) && v in todo
    requires Due(snapshot, v, now, route) && route(v) == Some(runtime)
    requires Opened(b, live, snapshot, v, runtime, now, outcome)
    ensures OnlyDue(live, snapshot, now, route) && TodoUntouched(live, snapshot, todo - {v})
  {
    hide Due, SettledFor, LastNumber;
    var n := |b.attempts|;
    forall i | 0 <= i < n ensures SameDelivery(live.attempts[i], b.attempts[i]) {
    }
    hide Extends;
  }

  /** No invocation is both expired and restarted. */
  lemma LapsedNotDue(live: Board, snapshot: Board, lapsed: set<string>, now: int, route: string -> Option<string>)
    requires OnlyLapsed(snapshot, lapsed, now) && OnlyDue(live, snapshot, now, route)
    ensures forall i :: |snapshot.attempts| <= i < |live.attempts| && !live.attempts[i].manual ==>
              live.attempts[i].invocation !in lapsed
  {
    hide RetryPending, AutomaticCount, StartedFor, HasLapsed;
  }

  /** A command sent to the authority, and whether it was answered with an error. */
  datatype Sent = Sent(step: Step, err: bool)

  function Reservation(v: string, runtime: string): Step {
    Start(v, runtime, false, DEFAULT_LEASE)
  }

  /** A command a pass has reason to send: the failure of a lapsed delivery, a reservation for an invocation
      that is due, or the outcome of a delivery newer than the snapshot. */
  ghost predicate Own(step: Step, snapshot: Board, now: int, route: string -> Option<string>) {
    match step
    case Start(v, runtime, _, _) =>
      Due(snapshot, v, now, route) && route(v) == Some(runtime) && step == Reservation(v, runtime)
    case Notify(id) => id >= |snapshot.attempts|
    case Fail(id, _, _) => id >= |snapshot.attempts| || Lapsed(snapshot.attempts[id], now)
    case Request(_) => false
    case Close(_) => false
  }

  /** What was sent since then is the pass's own, and it stopped at the first error, but for reservations. */
  ghost predicate OnlyOwn(was: seq<Sent>, sent: seq<Sent>, err: bool, snapshot: Board, now: int,
                          route: string -> Option<string>) {
    && was <= sent
    && (forall k :: |was| <= k < |sent| ==> Own(sent[k].step, snapshot, now, route))
    && (forall k :: |was| <= k < |sent| && Fatal(sent[k]) ==> err && k == |sent| - 1)
    && (err ==> |was| < |sent| && Fatal(sent[|sent| - 1]))
  }

  /** A command without which a pass cannot go on. */
  predicate Fatal(one: Sent) {
    one.err && !one.step.Start?
  }

  lemma SentMore(a: seq<Sent>, b: seq<Sent>, c: seq<Sent>, err: bool, snapshot: Board, now: int,
                 route: string -> Option<string>)
    requires OnlyOwn(a, b, false, snapshot, now, route) && OnlyOwn(b, c, err, snapshot, now, route)
    ensures OnlyOwn(a, c, err, snapshot, now, route)
  {
    hide Own;
  }

  lemma SentOne(was: seq<Sent>, one: Sent, snapshot: Board, now: int, route: string -> Option<string>)
    requires Own(one.step, snapshot, now, route)
    ensures OnlyOwn(was, was + [one], Fatal(one), snapshot, now, route)
  {
  }

  /** Each of these invocations had a reservation sent, after the first `from` commands, and refused. */
  ghost predicate Refusals(sent: seq<Sent>, from: nat, refused: set<string>, route: string -> Option<string>) {
    forall v :: v in refused ==> route(v).Some? && Refusal(sent, from, v, route(v).value)
  }

  ghost predicate Refusal(sent: seq<Sent>, from: nat, v: string, runtime: string) {
    exists k :: from <= k < |sent| && sent[k] == Sent(Reservation(v, runtime), true)
  }

  lemma NoRefusals(sent: seq<Sent>, from: nat, route: string -> Option<string>)
    ensures Refusals(sent, from, {}, route)
  {
  }

  lemma RefusalsGrow(was: seq<Sent>, sent: seq<Sent>, from: nat, refused: set<string>, v: string,
                     route: string -> Option<string>, failed: bool)
    requires Refusals(was, from, refused, route) && was <= sent && from <= |was|
    requires failed ==> route(v).Some? && Refusal(sent, |was|, v, route(v).value)
    ensures Refusals(sent, from, if failed then refused + {v} else refused, route)
  {
    forall w | w in refused ensures route(w).Some? && Refusal(sent, from, w, route(w).value) {
      var k :| from <= k < |was| && was[k] == Sent(Reservation(w, route(w).value), true);
      assert sent[k] == was[k];
    }
  }

  class Dispatcher {
    /** The authority's delivery records. */
    var board: Board
    ghost var history: History
    ghost var sent: seq<Sent>

    constructor ()
      ensures Valid(0)
    {
      board := Board(map[], []);
      history, sent := History([Board(map[], [])], [], [0]), [];
    }

    /** The board is where a run of licensed steps has led, at or before `now`. */
    ghost predicate Valid(now: int)
      reads this
    {
      && Run(history)
      && history.boards[|history.boards| - 1] == board
      && history.times[|history.times| - 1] <= now
    }

    ghost function Last(): int
      reads this
      requires history.times != []
    {
      history.times[|history.times| - 1]
    }

    lemma Reached(now: int)
      requires Valid(now)
      ensures Inv(board, Last()) && Known(board)
    {
      RunKeepsInv(history, |history.boards| - 1);
    }

    /** One step takes place. */
    method Record(step: Step, now: int)
      requires Valid(now) && Licensed(board, step, now)
      modifies this`board, this`history
      ensures Valid(now) && Known(old(board)) && board == Project(old(board), step, now)
    {
      Reached(now);
      ghost var n := |history.boards|;
      ghost var was := history;
      hide Licensed, Accepts, Project, Known;
      board := Project(board, step, now);
      history := History(history.boards + [board], history.steps + [step], history.times + [now]);
      assert history.boards[n - 1] == was.boards[n - 1] && history.times[n - 1] == was.times[n - 1];
    }

    /** Whatever others may do: any licensed steps, except that only a pass starts automatic attempts. */
    method Others(now: int)
      requires Valid(now)
      modifies this`board, this`history
      ensures Valid(now)
      ensures Extends(board, old(board)) && OnlyManual(board.attempts, |old(board).attempts|)
    {
      var steps: nat := *;
      hide Licensed, Accepts, Project, Known, Run, Inv;
      Unmoved(board);
      while steps > 0
        invariant Valid(now)
        invariant Extends(board, old(board)) && OnlyManual(board.attempts, |old(board).attempts|)
      {
        var step: Step := *;
        if !(step.Start? && !step.manual) && Licensed(board, step, now) {
          ghost var was := board;
          LicensedIsAccepted(board, step, now);
          Record(step, now);
          StepExtends(was, step, now);
          MovedFurther(old(board), was, board);
        }
        steps := steps - 1;
      }
    }

    /** Send one command to the authority.  It may be refused, and an accepted one may lose its reply. */
    method Submit(step: Step, now: int) returns (err: bool)
      requires Valid(now)
      requires Accepts(board, step, now) ==> Licensed(board, step, now)
      modifies this
      ensures Valid(now) && Known(old(board))
      ensures board == old(board) || (Accepts(old(board), step, now) && board == Project(old(board), step, now))
      ensures !err ==> Accepts(old(board), step, now) && board == Project(old(board), step, now)
      ensures sent == old(sent) + [Sent(step, err)]
    {
      Reached(now);
      hide Licensed, Accepts, Project, Known, Run, Inv;
      var lands: bool, lost: bool := *, *;
      if !Accepts(board, step, now) || !lands {
        sent := sent + [Sent(step, true)];
        return true;
      }
      Record(step, now);
      sent := sent + [Sent(step, lost)];
      return lost;
    }

    /** Record the lapse of every attempt whose lease has run out in the snapshot. */
    method ExpireAttempts(snapshot: Board, now: int, ghost route: string -> Option<string>)
      returns (err: bool, expired: set<string>)
      requires Valid(now) && board == snapshot
      modifies this
      ensures Valid(now) && OnlyOwn(old(sent), sent, err, snapshot, now, route)
      ensures Extends(board, snapshot) && OnlyManual(board.attempts, |snapshot.attempts|)
      ensures OnlyLapsed(snapshot, expired, now)
      ensures !err ==> Scanned(board, snapshot, {}, now) && AllScanned(snapshot, expired, {}, now)
    {
      expired := {};
      var todo := Indices(|snapshot.attempts|);
      ghost var before := Last();
      Reached(now);
      SnapshotNumbered(snapshot, before);
      StartsScan(snapshot, todo, now);
      Unmoved(board);
      hide Extends, OnlyManual, Scanned, OnlyLapsed, AllScanned, Run, Inv, AfterLapse, Known, Lapsed, Own;
      while todo != {}
        invariant Valid(now) && todo <= Indices(|snapshot.attempts|)
        invariant OnlyOwn(old(sent), sent, false, snapshot, now, route)
        invariant Extends(board, snapshot) && OnlyManual(board.attempts, |snapshot.attempts|)
        invariant Scanned(board, snapshot, todo, now)
        invariant OnlyLapsed(snapshot, expired, now) && AllScanned(snapshot, expired, todo, now)
        decreases |todo|
      {
        var i :| i in todo;
        var a := snapshot.attempts[i];
        KnownInvocation(snapshot, i);
        ScanStep(board, snapshot, expired, todo, i, now);
        if Lapsed(a, now) && a.invocation in snapshot.status {
          ghost var was, asked := board, sent;
          err := ExpireOne(snapshot, i, now, route, before);
          MovedFurther(snapshot, was, board);
          SentMore(old(sent), asked, sent, err, snapshot, now, route);
          expired := expired + {a.invocation};
          if err {
            return;
          }
          ScanUpdate(was, board, snapshot, todo, i, now);
        }
        todo := todo - {i};
      }
      err := false;
    }

    /** Record the lapse of one attempt. */
    method ExpireOne(snapshot: Board, i: nat, now: int, ghost route: string -> Option<string>, ghost before: int)
      returns (err: bool)
      requires Valid(now) && Extends(board, snapshot) && Inv(snapshot, before)
      requires i < |snapshot.attempts| && snapshot.attempts[i].number >= 1 && Lapsed(snapshot.attempts[i], now)
      modifies this
      ensures Valid(now) && OnlyOwn(old(sent), sent, err, snapshot, now, route)
      ensures Extends(board, old(board)) && OnlyManual(board.attempts, |old(board).attempts|)
      ensures !err ==> board.attempts[i] == AfterLapse(snapshot.attempts, snapshot.attempts[i], now)
    {
      hide Run, Inv, Accepts, Licensed, Project, Extends, OnlyManual, Known, Backoff;
      var a := snapshot.attempts[i];
      var count := AutomaticDeliveryAttemptCount(snapshot.attempts, a.invocation);
      var final := !a.manual && count >= MAX_DELIVERY_ATTEMPTS;
      var retryAt := if final then None else Some(now + Backoff(a.number));
      SentOne(sent, Sent(Fail(i, final, retryAt), true), snapshot, now, route);
      SentOne(sent, Sent(Fail(i, final, retryAt), false), snapshot, now, route);
      hide Lapsed, Own, OnlyOwn;
      Others(now);
      ExtendsTransitive(snapshot, old(board), board);
      LapseIsLicensed(board, snapshot, before, now, i, final, retryAt);
      ghost var was := board;
      err := Submit(Fail(i, final, retryAt), now);
      SubmitExtends(was, board, Fail(i, final, retryAt), now);
      MovedFurther(old(board), was, board);
    }

    /** One pass.  Lapsed leases are recorded, and then exactly the invocations that are due by the
        snapshot get one automatic attempt each, unless its reservation is refused, and its outcome is
        recorded; none is both expired and restarted.  A pass gives up only on a command that was
        answered with an error, and then at once.  Clients' attempts may come in between. */
    method Dispatch(now: int, route: string -> Option<string>, delivers: string -> bool)
      returns (err: bool, ghost expired: set<string>, ghost refused: set<string>)
      requires Valid(now)
      modifies this
      ensures Valid(now)
      ensures Extends(board, old(board)) && OnlyDue(board, old(board), now, route)
      ensures OnlyOwn(old(sent), sent, err, old(board), now, route)
      ensures OnlyLapsed(old(board), expired, now) && Refusals(sent, |old(sent)|, refused, route)
      ensures forall i :: |old(board).attempts| <= i < |board.attempts| && !board.attempts[i].manual ==>
                board.attempts[i].invocation !in expired
      ensures !err ==>
                && Scanned(board, old(board), {}, now) && AllScanned(old(board), expired, {}, now)
                && AllDue(board, old(board), {}, refused, now, route, delivers)
    {
      var snapshot := board;
      ghost var before := Last();
      Reached(now);
      err, expired, refused := false, {}, {};
      var lapsed;
      err, lapsed := ExpireAttempts(snapshot, now, route);
      ghost var asked := sent;
      expired := lapsed;
      PassStarts(board, snapshot, now, route, delivers);
      hide Extends, Scanned, OnlyDue, AllDue, AllScanned, OnlyLapsed, OnlyManual;
      hide Passing, Refusals, Run, Inv, Known, Own;
      PassingMeans(board, snapshot, snapshot.status.Keys, {}, now, route, delivers);
      NoRefusals(sent, |old(sent)|, route);
      if err {
        LapsedNotDue(board, snapshot, lapsed, now, route);
        return;
      }
      err, refused := StartDue(snapshot, lapsed, now, route, delivers, before, |old(sent)|);
      SentMore(old(sent), asked, sent, err, snapshot, now, route);
      LapsedNotDue(board, snapshot, lapsed, now, route);
    }

    /** Go through the invocations of the snapshot and start what is due. */
    method StartDue(snapshot: Board, lapsed: set<string>, now: int, route: string -> Option<string>,
                    delivers: string -> bool, ghost before: int, ghost from: nat)
      returns (err: bool, ghost refused: set<string>)
      requires Valid(now) && Inv(snapshot, before) && from <= |sent|
      requires OnlyLapsed(snapshot, lapsed, now) && AllScanned(snapshot, lapsed, {}, now)
      requires Scanned(board, snapshot, {}, now)
      requires Passing(board, snapshot, snapshot.status.Keys, {}, now, route, delivers)
      modifies this
      ensures Valid(now) && OnlyOwn(old(sent), sent, err, snapshot, now, route) && Refusals(sent, from, refused, route)
      ensures Extends(board, snapshot) && OnlyDue(board, snapshot, now, route) && Scanned(board, snapshot, {}, now)
      ensures !err ==> AllDue(board, snapshot, {}, refused, now, route, delivers)
    {
      err, refused := false, {};
      var todo := snapshot.status.Keys;
      hide Extends, Scanned, OnlyDue, AllDue, AllScanned, OnlyLapsed, Passing, Refusals, Refusal, Run, Inv, Own;
      NoRefusals(sent, from, route);
      PassingMeans(board, snapshot, todo, refused, now, route, delivers);
      while todo != {}
        invariant Valid(now) && todo <= snapshot.status.Keys && OnlyOwn(old(sent), sent, false, snapshot, now, route)
        invariant Extends(board, snapshot) && OnlyDue(board, snapshot, now, route) && Scanned(board, snapshot, {}, now)
        invariant Passing(board, snapshot, todo, refused, now, route, delivers)
        invariant Refusals(sent, from, refused, route)
        decreases |todo|
      {
        var invocation :| invocation in todo;
        ghost var was, asked := board, sent;
        var stop, failed := Consider(snapshot, lapsed, todo, invocation, now, route, delivers, before,
                                    refused);
        ScannedStays(was, board, snapshot, {}, now);
        RefusalsGrow(asked, sent, from, refused, invocation, route, failed);
        SentMore(old(sent), asked, sent, stop, snapshot, now, route);
        if failed {
          refused := refused + {invocation};
        }
        if stop {
          return true, refused;
        }
        todo := todo - {invocation};
      }
      PassingMeans(board, snapshot, todo, refused, now, route, delivers);
    }

    /** Start an attempt for one invocation if one is due. */
    method Consider(snapshot: Board, lapsed: set<string>, ghost todo: set<string>, invocation: string, now: int,
                    route: string -> Option<string>, delivers: string -> bool, ghost before: int,
                    ghost refusals: set<string>)
      returns (stop: bool, refused: bool)
      requires Valid(now) && Inv(snapshot, before) && invocation in snapshot.status && invocation in todo
      requires Passing(board, snapshot, todo, refusals, now, route, delivers)
      requires OnlyLapsed(snapshot, lapsed, now) && AllScanned(snapshot, lapsed, {}, now)
      modifies this
      ensures Valid(now) && OnlyOwn(old(sent), sent, stop, snapshot, now, route) && Extends(board, old(board))
      ensures Extends(board, snapshot) && OnlyDue(board, snapshot, now, route)
      ensures !stop ==>
                Passing(board, snapshot, todo - {invocation},
                        if refused then refusals + {invocation} else refusals, now, route, delivers)
      ensures refused ==> route(invocation).Some?
                          && Refusal(sent, |old(sent)|, invocation, route(invocation).value)
    {
      DueIff(snapshot, lapsed, invocation, now, route);
      PassingMeans(board, snapshot, todo, refusals, now, route, delivers);
      hide Extends, AllScanned, OnlyLapsed, Opened, HasLapsed, RetryPending, Due;
      hide Passing, Inv, Run, OnlyDue, Known, Own;
      Unmoved(board);
      if !Due(snapshot, invocation, now, route) {
        SkipKeeps(board, snapshot, todo, invocation, refusals, now, route, delivers);
      }
      if invocation in lapsed || snapshot.status[invocation] != Pending {
        return false, false;
      }
      var pending := DeliveryRetryPending(snapshot.attempts, invocation, now);
      if pending {
        return false, false;
      }
      var runtime := route(invocation);
      if runtime.None? {
        return false, false;
      }
      var count := AutomaticDeliveryAttemptCount(snapshot.attempts, invocation);
      if count >= MAX_DELIVERY_ATTEMPTS {
        return false, false;
      }
      UntouchedTodo(board, snapshot, todo, invocation);
      stop, refused := AttemptDelivery(snapshot, invocation, runtime.value, now, count, delivers(invocation), route,
                                       before);
      OpenedExtends(old(board), board, snapshot, invocation, runtime.value, now,
                    if stop || refused then None else Some(delivers(invocation)));
      OpenedKeeps(old(board), board, snapshot, todo, invocation, runtime.value, refusals, now, route, delivers,
                  stop, refused);
    }

    /** Reserve, deliver and record one automatic attempt. */
    method AttemptDelivery(snapshot: Board, invocation: string, runtime: string, now: int, count: nat,
                           delivered: bool, ghost route: string -> Option<string>, ghost before: int)
      returns (stop: bool, refused: bool)
      requires Valid(now) && Inv(snapshot, before) && Extends(board, snapshot) && Untouched(board, snapshot, invocation)
      requires Due(snapshot, invocation, now, route) && count == AutomaticCount(snapshot.attempts, invocation)
      requires route(invocation) == Some(runtime)
      modifies this
      ensures Valid(now) && OnlyOwn(old(sent), sent, stop, snapshot, now, route)
      ensures Opened(old(board), board, snapshot, invocation, runtime, now,
                     if stop || refused then None else Some(delivered))
      ensures refused ==> Refusal(sent, |old(sent)|, invocation, runtime)
    {
      SentOne(sent, Sent(Reservation(invocation, runtime), true), snapshot, now, route);
      SentOne(sent, Sent(Reservation(invocation, runtime), false), snapshot, now, route);
      hide Run, Inv, Extends, OnlyManual, Untouched, Due, Accepts, Licensed, Project, Known, Own, OnlyOwn;
      hide Opened, StartedFor, SettledFor, AutomaticCount, LastNumber, Ready, FailsByPolicy, OpenedAt;
      var number := DeliveryAttempt(snapshot.attempts, invocation);
      number := number + 1;
      Others(now);
      ghost var b := board;
      MovedUntouched(snapshot, old(board), b, invocation);
      StartIsLicensed(b, snapshot, before, invocation, runtime, now, route);
      var id := |board.attempts|;
      refused := Submit(Reservation(invocation, runtime), now);
      ReservationOpens(old(board), b, board, snapshot, invocation, runtime, now);
      if refused {
        assert sent[|old(sent)|] == Sent(Reservation(invocation, runtime), true);
        return false, true;
      }
      ghost var asked := sent;
      LaterBoard(b, snapshot);
      stop := RecordOutcome(id, snapshot, invocation, runtime, number, count, now, delivered, route, before, old(board),
                            b);
      SentMore(old(sent), asked, sent, stop, snapshot, now, route);
    }

    /** Deliver a reserved attempt and record how that went. */
    method RecordOutcome(id: nat, snapshot: Board, invocation: string, runtime: string, number: nat, count: nat,
                         now: int, delivered: bool,
                         ghost route: string -> Option<string>, ghost before: int, ghost first: Board, ghost b: Board)
      returns (stop: bool)
      requires Valid(now) && Inv(snapshot, before) && Extends(b, snapshot) && Untouched(b, snapshot, invocation)
      requires Due(snapshot, invocation, now, route) && count == AutomaticCount(snapshot.attempts, invocation)
      requires number == LastNumber(snapshot.attempts, invocation) + 1 && id == |b.attempts|
      requires Extends(board, b) && OpenedAt(first, board, snapshot, invocation, runtime, now, None, id)
      requires Extends(board, first) && id >= |snapshot.attempts|
      modifies this
      ensures Valid(now) && OnlyOwn(old(sent), sent, stop, snapshot, now, route)
      ensures Opened(first, board, snapshot, invocation, runtime, now, if stop then None else Some(delivered))
    {
      hide Run, Inv, Extends, OnlyManual, Untouched, Due, Accepts, Licensed, Project, Known;
      hide Opened, StartedFor, SettledFor, AutomaticCount, LastNumber, Ready, FailsByPolicy, OpenedAt, Backoff;
      Others(now);
      OthersKeepOpen(first, old(board), board, snapshot, invocation, runtime, now, id);
      ExtendsTransitive(first, old(board), board);
      ExtendsTransitive(b, old(board), board);
      // The snapshot does not hold this attempt yet, so it is counted on top.
      var final := count + 1 >= MAX_DELIVERY_ATTEMPTS;
      var retryAt := if final then None else Some(now + Backoff(number));
      OutcomeIsLicensed(b, board, snapshot, before, first, invocation, runtime, now, id, final, retryAt, route);
      ghost var live := board;
      ghost var step := if delivered then Notify(id) else Fail(id, final, retryAt);
      if !delivered {
        stop := Submit(Fail(id, final, retryAt), now);
      } else {
        stop := Submit(Notify(id), now);
      }
      SubmitExtends(live, board, step, now);
      SentOne(old(sent), Sent(step, stop), snapshot, now, route);
      OutcomeSettles(first, live, board, snapshot, invocation, runtime, now, id, delivered, stop, final, number);
    }

    /** A client's redelivery reserves a manual attempt; `DeliverAttempt` carries it out. */
    method Redeliver(invocation: string, runtime: string, lease: int, now: int) returns (err: bool)
      requires Valid(now)
      modifies this
      ensures Valid(now) && Known(old(board))
      ensures var step := Start(invocation, runtime, true, lease);
              || (err && board == old(board))
              || (Accepts(old(board), step, now) && board == Project(old(board), step, now))
    {
      err := Submit(Start(invocation, runtime, true, lease), now);
    }

    /** Deliver a reserved attempt within its lease and record the outcome. */
    method DeliverAttempt(id: nat, now: int, delivered: bool) returns (err: bool)
      requires Valid(now)
      modifies this
      ensures Valid(now)
      ensures Extends(board, old(board)) && OnlyManual(board.attempts, |old(board).attempts|)
      ensures !MayDeliver(old(board), id, now) ==> err && board == old(board) && sent == old(sent)
      ensures id < |old(board).attempts| && old(board).attempts[id].status == Attempted
              && old(board).attempts[id].attemptUntil > now ==>
                exists step ::
                  && sent == old(sent) + [Sent(step, err)]
                  && if delivered then step == Notify(id) else step.Fail? && step.id == id
      ensures !err ==>
                if delivered then board.attempts[id] == old(board).attempts[id].(status := Succeeded)
                else FailedAfter(old(board).attempts, board.attempts, id, now)
    {
      Unmoved(board);
      if id >= |board.attempts| || board.attempts[id].status != Attempted {
        return true;
      }
      if board.attempts[id].attemptUntil <= now {
        return true;
      }
      var snapshot := board;
      ghost var before := Last();
      Reached(now);
      if delivered {
        hide Run, Inv, Accepts, Licensed, Project, Extends, OnlyManual, Known;
        Others(now);
        ghost var was := board;
        NotifyIsLicensed(was, id, now);
        err := Submit(Notify(id), now);
        SubmitExtends(was, board, Notify(id), now);
        MovedFurther(snapshot, was, board);
        if !err {
          NotifySettles(snapshot, was, board, id, now);
        }
      } else {
        err := RecordDeliveryFailure(snapshot, id, now, before);
      }
    }

    method RecordDeliveryFailure(snapshot: Board, id: nat, now: int, ghost before: int) returns (err: bool)
      requires Valid(now) && board == snapshot && Inv(snapshot, before)
      requires id < |snapshot.attempts| && snapshot.attempts[id].status == Attempted
      modifies this
      ensures Valid(now)
      ensures Extends(board, snapshot) && OnlyManual(board.attempts, |snapshot.attempts|)
      ensures !err ==> FailedAfter(snapshot.attempts, board.attempts, id, now)
      ensures exists step :: sent == old(sent) + [Sent(step, err)] && step.Fail? && step.id == id
    {
      var a := snapshot.attempts[id];
      SnapshotNumbered(snapshot, before);
      var count := AutomaticDeliveryAttemptCount(snapshot.attempts, a.invocation);
      var final := a.manual || count >= MAX_DELIVERY_ATTEMPTS;
      var retryAt := if final then None else Some(now + Backoff(a.number));
      hide Run, Inv, Accepts, Licensed, Project, Extends, OnlyManual, Known, Backoff;
      Others(now);
      FailureIsLicensed(board, snapshot, before, now, id, final, retryAt);
      ghost var was := board;
      err := Submit(Fail(id, final, retryAt), now);
      SubmitExtends(was, board, Fail(id, final, retryAt), now);
      MovedFurther(snapshot, was, board);
    }

    /** Everything else that happens to invocations. */
    method Elsewhere(step: Step, now: int) returns (err: bool)
      requires Valid(now) && (step.Request? || step.Close?)
      modifies this
      ensures Valid(now) && Known(old(board))
      ensures || (err && board == old(board))
              || (Accepts(old(board), step, now) && board == Project(old(board), step, now))
    {
      err := Submit(step, now);
    }
  }

  predicate MayDeliver(b: Board, id: nat, now: int) {
    id < |b.attempts| && b.attempts[id].status == Attempted && b.attempts[id].attemptUntil > now
  }

  /** A delivery carried out for a client has failed: a client's own is final, and any other is final when
      its invocation's automatic attempts are used up. */
  predicate FailedAfter(before: seq<Attempt>, after: seq<Attempt>, id: nat, now: int) {
    && id < |before| && id < |after| && before[id].number >= 1
    && var final := before[id].manual || AutomaticCount(before, before[id].invocation) >= MAX_DELIVERY_ATTEMPTS;
       after[id] == Failure(before[id], final, before[id].number, now)
  }

  // ---------------------------------------------------------------- small steps

  lemma Unmoved(b: Board)
    ensures Extends(b, b) && OnlyManual(b.attempts, |b.attempts|)
  {
  }

  lemma LaterBoard(live: Board, snapshot: Board)
    requires Extends(live, snapshot)
    ensures |live.attempts| >= |snapshot.attempts|
  {
  }

  lemma LicensedIsAccepted(b: Board, step: Step, now: int)
    requires Licensed(b, step, now)
    ensures Accepts(b, step, now)
  {
  }

  lemma MovedFurther(a: Board, b: Board, c: Board)
    requires Extends(b, a) && Extends(c, b)
    ensures Extends(c, a)
    ensures OnlyManual(b.attempts, |a.attempts|) && OnlyManual(c.attempts, |b.attempts|) ==>
              OnlyManual(c.attempts, |a.attempts|)
  {
    forall i | |a.attempts| <= i < |b.attempts| ensures SameDelivery(c.attempts[i], b.attempts[i]) {
    }
  }

  lemma SnapshotNumbered(b: Board, now: int)
    requires Inv(b, now)
    ensures Numbered(b.attempts) && Known(b)
  {
    forall i | 0 <= i < |b.attempts| ensures b.attempts[i].number >= 1 {
      assert Timely(b.attempts[i], now);
    }
  }

  lemma KnownInvocation(b: Board, i: nat)
    requires Known(b) && i < |b.attempts|
    ensures b.attempts[i].invocation in b.status
  {
  }

  lemma SubmitExtends(was: Board, live: Board, step: Step, now: int)
    requires Known(was)
    requires live == was || (Accepts(was, step, now) && live == Project(was, step, now))
    ensures Extends(live, was)
    ensures (step.Start? && !step.manual) || OnlyManual(live.attempts, |was.attempts|)
  {
    Unmoved(was);
    if Accepts(was, step, now) {
      StepExtends(was, step, now);
    }
  }

  lemma PassingMeans(live: Board, snapshot: Board, todo: set<string>, refused: set<string>, now: int,
                     route: string -> Option<string>, delivers: string -> bool)
    requires Passing(live, snapshot, todo, refused, now, route, delivers)
    ensures Extends(live, snapshot) && OnlyDue(live, snapshot, now, route)
    ensures AllDue(live, snapshot, todo, refused, now, route, delivers)
    ensures TodoUntouched(live, snapshot, todo)
  {
  }

  lemma UntouchedTodo(live: Board, snapshot: Board, todo: set<string>, v: string)
    requires TodoUntouched(live, snapshot, todo) && v in todo
    ensures Untouched(live, snapshot, v)
  {
  }

  lemma MovedUntouched(snapshot: Board, was: Board, live: Board, v: string)
    requires Extends(was, snapshot) && Extends(live, was) && OnlyManual(live.attempts, |was.attempts|)
    requires Untouched(was, snapshot, v)
    ensures Extends(live, snapshot) && Untouched(live, snapshot, v)
  {
    forall i | 0 <= i < |was.attempts| ensures SameDelivery(live.attempts[i], was.attempts[i]) {
    }
  }

  lemma OpenedExtends(b: Board, live: Board, snapshot: Board, v: string, runtime: string, now: int,
                      outcome: Option<bool>)
    requires Opened(b, live, snapshot, v, runtime, now, outcome)
    ensures Extends(live, b)
  {
  }

  // ---------------------------------------------------------------- licences

  /** Starting an automatic attempt of a due invocation is licensed whatever has happened since. */
  lemma StartIsLicensed(live: Board, snapshot: Board, before: int, v: string, runtime: string, now: int,
                        route: string -> Option<string>)
    requires Inv(snapshot, before) && Extends(live, snapshot)
    requires Due(snapshot, v, now, route) && Untouched(live, snapshot, v)
    ensures var step := Reservation(v, runtime); Accepts(live, step, now) ==> Licensed(live, step, now)
  {
    DueIsReady(live, snapshot, before, v, now, route);
  }

  /** A reservation adds an attempt that is still open, or, refused without trace, nothing. */
  lemma ReservationOpens(first: Board, b: Board, live: Board, snapshot: Board, v: string, runtime: string, now: int)
    requires Extends(b, first) && OnlyManual(b.attempts, |first.attempts|) && Known(b) && Extends(b, snapshot)
    requires var step := Reservation(v, runtime);
             live == b || (Accepts(b, step, now) && live == Project(b, step, now))
    ensures Extends(live, first) && Extends(live, b)
    ensures Opened(first, live, snapshot, v, runtime, now, None)
    ensures Accepts(b, Reservation(v, runtime), now) && live == Project(b, Reservation(v, runtime), now) ==>
              OpenedAt(first, live, snapshot, v, runtime, now, None, |b.attempts|)
  {
    SubmitExtends(b, live, Reservation(v, runtime), now);
    ExtendsTransitive(first, b, live);
    if live != b {
      LastNumberGrows(b, snapshot, v);
      var n := |b.attempts|;
      assert live.attempts[..n] == b.attempts;
      hide Extends, LastNumber;
      assert OpenedAt(first, live, snapshot, v, runtime, now, None, n);
    }
  }

  /** Numbers never go back. */
  lemma LastNumberGrows(live: Board, snapshot: Board, v: string)
    requires Extends(live, snapshot)
    ensures LastNumber(live.attempts, v) >= LastNumber(snapshot.attempts, v)
  {
    if LastNumber(snapshot.attempts, v) > 0 {
      var i := LastNumberAt(snapshot.attempts, v);
      NumbersBelowLast(live.attempts, v);
      assert SameDelivery(live.attempts[i], snapshot.attempts[i]);
    }
  }

  lemma {:induction false} LastNumberAt(attempts: seq<Attempt>, v: string) returns (i: nat)
    requires LastNumber(attempts, v) > 0
    ensures i < |attempts| && attempts[i].invocation == v && attempts[i].number == LastNumber(attempts, v)
  {
    var n := |attempts| - 1;
    if attempts[n].invocation == v && attempts[n].number == LastNumber(attempts, v) {
      i := n;
    } else {
      i := LastNumberAt(attempts[..n], v);
    }
  }

  /** What others do leaves the attempt of this pass the only new automatic one. */
  lemma OthersKeepOpen(first: Board, was: Board, live: Board, snapshot: Board, v: string, runtime: string, now: int,
                       id: nat)
    requires OpenedAt(first, was, snapshot, v, runtime, now, None, id)
    requires Extends(live, was) && OnlyManual(live.attempts, |was.attempts|)
    ensures OpenedAt(first, live, snapshot, v, runtime, now, None, id)
  {
    forall i | 0 <= i < |was.attempts| ensures SameDelivery(live.attempts[i], was.attempts[i]) {
    }
  }

  /** The failure of an attempt of this pass, judged by the count and number before it, is licensed. */
  lemma OutcomeIsLicensed(b: Board, live: Board, snapshot: Board, before: int, first: Board, v: string, runtime: string,
                          now: int, id: nat, final: bool, retryAt: Option<int>, route: string -> Option<string>)
    requires Inv(snapshot, before) && Extends(b, snapshot) && Untouched(b, snapshot, v) && Extends(live, b)
    requires id == |b.attempts| && OpenedAt(first, live, snapshot, v, runtime, now, None, id)
    requires Due(snapshot, v, now, route)
    requires final <==> AutomaticCount(snapshot.attempts, v) + 1 >= MAX_DELIVERY_ATTEMPTS
    requires retryAt == if final then None else Some(now + Backoff(LastNumber(snapshot.attempts, v) + 1))
    ensures Accepts(live, Fail(id, final, retryAt), now) ==> Licensed(live, Fail(id, final, retryAt), now)
    ensures Accepts(live, Notify(id), now) ==> Licensed(live, Notify(id), now)
  {
    hide Inv, Due, Extends, Untouched, LastNumber, Backoff;
    DueHasRoom(snapshot, v, now, route);
    MovedPrefix(b, live, snapshot, v);
    NextOrdinal(live.attempts, id, v);
    CountAtMostLastNumber(snapshot, before, v);
    hide AutomaticCount, Ordinal, HasSuccess;
    BackoffMonotone(Ordinal(live.attempts, id), LastNumber(snapshot.attempts, v) + 1);
  }

  lemma DueHasRoom(snapshot: Board, v: string, now: int, route: string -> Option<string>)
    requires Due(snapshot, v, now, route)
    ensures AutomaticCount(snapshot.attempts, v) < MAX_DELIVERY_ATTEMPTS
  {
  }

  lemma NextOrdinal(attempts: seq<Attempt>, id: nat, v: string)
    requires id < |attempts| && Automatic(attempts[id], v)
    ensures Ordinal(attempts, id) == AutomaticCount(attempts[..id], v) + 1
  {
    assert attempts[..id + 1][..id] == attempts[..id];
  }

  lemma MovedPrefix(b: Board, live: Board, snapshot: Board, v: string)
    requires Extends(b, snapshot) && Untouched(b, snapshot, v) && Extends(live, b)
    ensures AutomaticCount(live.attempts[..|b.attempts|], v) == AutomaticCount(snapshot.attempts, v)
  {
    UntouchedCount(b, snapshot, v, |b.attempts|);
    assert b.attempts[..|b.attempts|] == b.attempts;
    SameCount(live.attempts[..|b.attempts|], b.attempts, v);
  }

  function OutcomeStep(id: nat, delivered: bool, final: bool, retryAt: int): Step {
    if delivered then Notify(id) else Fail(id, final, if final then None else Some(retryAt))
  }

  /** Recording its outcome settles it. */
  lemma OutcomeSettles(first: Board, was: Board, live: Board, snapshot: Board, v: string, runtime: string, now: int,
                       id: nat, delivered: bool, err: bool, final: bool, number: nat)
    requires OpenedAt(first, was, snapshot, v, runtime, now, None, id) && Extends(was, first) && Known(was)
    requires number == LastNumber(snapshot.attempts, v) + 1
    requires final <==> AutomaticCount(snapshot.attempts, v) + 1 >= MAX_DELIVERY_ATTEMPTS
    requires var step := OutcomeStep(id, delivered, final, now + Backoff(number));
             && (live == was || (Accepts(was, step, now) && live == Project(was, step, now)))
             && (!err ==> Accepts(was, step, now) && live == Project(was, step, now))
    ensures Opened(first, live, snapshot, v, runtime, now, if err then None else Some(delivered))
  {
    var step := OutcomeStep(id, delivered, final, now + Backoff(number));
    SubmitExtends(was, live, step, now);
    ExtendsTransitive(first, was, live);
    hide LastNumber, HasSuccess, AutomaticCount, Backoff, Extends;
    assert OpenedAt(first, live, snapshot, v, runtime, now, if err then None else Some(delivered), id);
  }

  /** Recording a lapse is licensed, and leaves the delivery as the scan wants it. */
  lemma LapseIsLicensed(live: Board, snapshot: Board, before: int, now: int, i: nat, final: bool, retryAt: Option<int>)
    requires Extends(live, snapshot) && Inv(snapshot, before) && i < |snapshot.attempts|
    requires Lapsed(snapshot.attempts[i], now) && snapshot.attempts[i].number >= 1
    requires final == (!snapshot.attempts[i].manual
                       && AutomaticCount(snapshot.attempts, snapshot.attempts[i].invocation) >= MAX_DELIVERY_ATTEMPTS)
    requires retryAt == if final then None else Some(now + Backoff(snapshot.attempts[i].number))
    ensures var step := Fail(i, final, retryAt);
            Accepts(live, step, now) ==>
              && Licensed(live, step, now)
              && (Known(live) ==>
                    Project(live, step, now).attempts[i] == AfterLapse(snapshot.attempts, snapshot.attempts[i], now))
  {
    InFlightPolicy(live, snapshot, before, i, final);
    hide AutomaticCount, HasSuccess, Ordinal, Inv, Backoff;
  }

  /** Counting the attempts after the fact gives the right verdict for an attempt in flight: the latest
      automatic one is the only one that can be, whatever clients have added since. */
  lemma InFlightPolicy(live: Board, snapshot: Board, before: int, id: nat, final: bool)
    requires Extends(live, snapshot) && Inv(snapshot, before) && id < |snapshot.attempts|
    requires snapshot.attempts[id].status == Attempted
    requires !snapshot.attempts[id].manual ==>
               (final <==> AutomaticCount(snapshot.attempts, snapshot.attempts[id].invocation) >= MAX_DELIVERY_ATTEMPTS)
    ensures !snapshot.attempts[id].manual ==>
              && (final <==> Ordinal(live.attempts, id) == MAX_DELIVERY_ATTEMPTS)
              && snapshot.attempts[id].number >= 1
              && Backoff(snapshot.attempts[id].number) >= Backoff(Ordinal(live.attempts, id))
  {
    if !snapshot.attempts[id].manual {
      SameOrdinal(live, snapshot, id);
      InFlightIsLast(snapshot, before, id);
      NumberIsEnough(snapshot, before, id);
      assert AutomaticCount(snapshot.attempts, snapshot.attempts[id].invocation) <= MAX_DELIVERY_ATTEMPTS;
    }
  }

  /** So is the failure of a delivery carried out for a client. */
  lemma FailureIsLicensed(live: Board, snapshot: Board, before: int, now: int, id: nat, final: bool,
                          retryAt: Option<int>)
    requires Extends(live, snapshot) && Inv(snapshot, before) && id < |snapshot.attempts|
    requires snapshot.attempts[id].status == Attempted && snapshot.attempts[id].number >= 1
    requires final == (snapshot.attempts[id].manual
                       || AutomaticCount(snapshot.attempts, snapshot.attempts[id].invocation) >= MAX_DELIVERY_ATTEMPTS)
    requires retryAt == if final then None else Some(now + Backoff(snapshot.attempts[id].number))
    ensures var step := Fail(id, final, retryAt);
            Accepts(live, step, now) ==>
              && Licensed(live, step, now)
              && (Known(live) ==> FailedAfter(snapshot.attempts, Project(live, step, now).attempts, id, now))
  {
    InFlightPolicy(live, snapshot, before, id, final);
    hide AutomaticCount, HasSuccess, Ordinal, Inv, Backoff;
  }

  lemma NotifyIsLicensed(live: Board, id: nat, now: int)
    ensures Accepts(live, Notify(id), now) ==> Licensed(live, Notify(id), now)
  {
  }

  lemma NotifySettles(snapshot: Board, was: Board, live: Board, id: nat, now: int)
    requires Extends(was, snapshot) && id < |snapshot.attempts| && Known(was)
    requires Accepts(was, Notify(id), now) && live == Project(was, Notify(id), now)
    ensures live.attempts[id] == snapshot.attempts[id].(status := Succeeded)
  {
  }
}
