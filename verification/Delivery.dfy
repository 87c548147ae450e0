/** Delivery of invocations: what the authority records of an attempt, and the invariant that any run of
    licensed steps keeps.

    A delivery's ID is its position in the list of deliveries, so a fresh ID is the list's length. */
module Delivery {
  import opened Results
  import opened Contracts

  const DEFAULT_LEASE := 30 * SECOND
  const MAX_LEASE := 120 * SECOND
  const BASE_BACKOFF := 2 * SECOND
  const MAX_BACKOFF := 300 * SECOND

  /** Every status after NOTIFIED (claimed, running, finished, cancelled...) is Closed here: no delivery
      attempt starts from it and delivery outcomes leave it alone. */
  datatype InvocationStatus = Pending | Notified | Closed

  datatype AttemptStatus = Attempted | Succeeded | Failed | Exhausted

  datatype Attempt = Attempt(
    invocation: string, runtime: string, number: nat, manual: bool, status: AttemptStatus,
    attemptedAt: int, attemptUntil: int, failedAt: Option<int>, nextRetryAt: Option<int>)

  datatype Board = Board(status: map<string, InvocationStatus>, attempts: seq<Attempt>)

  function Pow2(n: nat): nat {
    if n == 0 then 1 else 2 * Pow2(n - 1)
  }

  function Min(a: int, b: int): int {
    if a < b then a else b
  }

  /** `deliveryBackoff`. */
  function Backoff(number: nat): int
    requires number >= 1
  {
    Min(BASE_BACKOFF * Pow2(Min(number - 1, 8)), MAX_BACKOFF)
  }

  predicate Automatic(a: Attempt, invocation: string) {
    a.invocation == invocation && !a.manual
  }

  function AutomaticCount(attempts: seq<Attempt>, invocation: string): nat {
    if attempts == [] then 0
    else AutomaticCount(attempts[..|attempts| - 1], invocation)
         + if Automatic(attempts[|attempts| - 1], invocation) then 1 else 0
  }

  /** The highest attempt number an invocation has. */
  function LastNumber(attempts: seq<Attempt>, invocation: string): nat {
    if attempts == [] then 0
    else
      var rest, last := LastNumber(attempts[..|attempts| - 1], invocation), attempts[|attempts| - 1];
      if last.invocation == invocation && last.number > rest then last.number else rest
  }

  predicate HasSuccess(attempts: seq<Attempt>, invocation: string) {
    exists i :: 0 <= i < |attempts| && attempts[i].invocation == invocation && attempts[i].status == Succeeded
  }

  /** Which automatic attempt of its invocation this one is, counting from 1. */
  function Ordinal(attempts: seq<Attempt>, i: nat): (k: nat)
    requires i < |attempts|
    ensures !attempts[i].manual ==> k >= 1
  {
    AutomaticCount(attempts[..i + 1], attempts[i].invocation)
  }

  // ---------------------------------------------------------------- steps

  datatype Step =
    | Start(invocation: string, runtime: string, manual: bool, lease: int)
    | Notify(id: nat)
    | Fail(id: nat, final: bool, retryAt: Option<int>)
    | Request(invocation: string)
    | Close(invocation: string)

  /** What the authority itself checks before it records a step. */
  predicate Accepts(b: Board, step: Step, now: int) {
    match step
    case Start(invocation, runtime, manual, lease) =>
      && invocation in b.status && b.status[invocation] != Closed
      && 0 < lease <= MAX_LEASE
      && (forall i :: 0 <= i < |b.attempts| ==>
            !(b.attempts[i].invocation == invocation && b.attempts[i].runtime == runtime
              && b.attempts[i].status == Attempted && b.attempts[i].attemptUntil > now))
      && (!manual ==> AutomaticCount(b.attempts, invocation) < MAX_DELIVERY_ATTEMPTS)
    case Notify(id) => id < |b.attempts| && b.attempts[id].status == Attempted && b.attempts[id].attemptUntil > now
    case Fail(id, final, retryAt) =>
      && id < |b.attempts| && b.attempts[id].status == Attempted
      && (!final ==> retryAt.Some? && retryAt.value > now)
    case Request(invocation) => invocation !in b.status
    case Close(invocation) => invocation in b.status
  }

  function Settled(b: Board, invocation: string, attempts: seq<Attempt>): map<string, InvocationStatus>
    requires invocation in b.status
  {
    if b.status[invocation] == Closed then b.status
    else b.status[invocation := if HasSuccess(attempts, invocation) then Notified else Pending]
  }

  /** The projection of an accepted step. */
  function Project(b: Board, step: Step, now: int): Board
    requires Accepts(b, step, now) && Known(b)
  {
    match step
    case Start(invocation, runtime, manual, lease) =>
      b.(attempts := b.attempts + [Attempt(invocation, runtime, LastNumber(b.attempts, invocation) + 1, manual,
                                           Attempted, now, now + lease, None, None)])
    case Notify(id) =>
      var a := b.attempts[id];
      Board(if b.status[a.invocation] == Pending then b.status[a.invocation := Notified] else b.status,
            b.attempts[id := a.(status := Succeeded)])
    case Fail(id, final, retryAt) =>
      var a := b.attempts[id];
      var attempts := b.attempts[id := a.(status := if final then Exhausted else Failed,
                                          failedAt := Some(now), nextRetryAt := retryAt)];
      Board(Settled(b, a.invocation, attempts), attempts)
    case Request(invocation) => b.(status := b.status[invocation := Pending])
    case Close(invocation) => b.(status := b.status[invocation := Closed])
  }

  /** Every attempt belongs to an invocation the board knows. */
  predicate Known(b: Board) {
    forall i :: 0 <= i < |b.attempts| ==> b.attempts[i].invocation in b.status
  }

  /** Every automatic attempt of this invocation has failed and no retry time of theirs lies ahead. */
  predicate Ready(attempts: seq<Attempt>, invocation: string, now: int) {
    forall i :: 0 <= i < |attempts| && Automatic(attempts[i], invocation) ==>
      && (attempts[i].status == Failed || attempts[i].status == Exhausted)
      && (attempts[i].nextRetryAt.Some? ==> attempts[i].nextRetryAt.value <= now)
  }

  /** A failure is recorded as the policy wants it: a final one has no retry; an automatic attempt is
      final exactly when it is the last allowed, and otherwise waits at least its ordinal's backoff. */
  predicate FailsByPolicy(attempts: seq<Attempt>, id: nat, final: bool, retryAt: Option<int>, now: int)
    requires id < |attempts|
  {
    && (final <==> retryAt.None?)
    && (!attempts[id].manual ==>
          && (final <==> Ordinal(attempts, id) == MAX_DELIVERY_ATTEMPTS)
          && (!final ==> retryAt.value >= now + Backoff(Ordinal(attempts, id))))
  }

  /** What a dispatcher, a redelivering client and the rest of the project may do.  An automatic start
      comes only from a dispatch pass, a client's start is manual, and both may happen at any time. */
  predicate Licensed(b: Board, step: Step, now: int) {
    && Accepts(b, step, now)
    && match step
       case Start(invocation, _, manual, _) => !manual ==> Ready(b.attempts, invocation, now)
       case Fail(id, final, retryAt) => FailsByPolicy(b.attempts, id, final, retryAt, now)
       case _ => true
  }

  // ---------------------------------------------------------------- the invariant

  predicate Timely(a: Attempt, now: int) {
    && a.number >= 1 && a.attemptedAt <= now
    && (a.status == Failed || a.status == Exhausted ==> a.failedAt.Some? && a.attemptedAt <= a.failedAt.value <= now)
    && (a.status == Failed ==> a.nextRetryAt.Some?)
  }

  /** A later automatic attempt found the earlier one failed and waited out its backoff. */
  predicate Spaced(earlier: Attempt, later: Attempt) {
    && earlier.number < later.number
    && (!earlier.manual && !later.manual ==>
          && earlier.status == Failed && earlier.nextRetryAt.Some?
          && later.attemptedAt >= earlier.nextRetryAt.value)
  }

  ghost predicate AllTimely(b: Board, now: int) {
    forall i :: 0 <= i < |b.attempts| ==> Timely(b.attempts[i], now)
  }

  ghost predicate AllSpaced(b: Board) {
    forall i, j :: 0 <= i < j < |b.attempts| && b.attempts[i].invocation == b.attempts[j].invocation ==>
      Spaced(b.attempts[i], b.attempts[j])
  }

  /** Among failed automatic attempts the tenth alone is exhausted; the others wait out their backoff. */
  ghost predicate FinalsRight(b: Board) {
    forall i :: 0 <= i < |b.attempts| && !b.attempts[i].manual ==>
      && (b.attempts[i].status == Exhausted ==> Ordinal(b.attempts, i) == MAX_DELIVERY_ATTEMPTS)
      && (b.attempts[i].status == Failed ==>
            && Ordinal(b.attempts, i) != MAX_DELIVERY_ATTEMPTS
            && b.attempts[i].failedAt.Some? && b.attempts[i].nextRetryAt.Some?
            && b.attempts[i].nextRetryAt.value >= b.attempts[i].failedAt.value + Backoff(Ordinal(b.attempts, i)))
  }

  ghost predicate Capped(b: Board) {
    forall invocation :: AutomaticCount(b.attempts, invocation) <= MAX_DELIVERY_ATTEMPTS
  }

  /** An open invocation is pending exactly while no delivery of it has succeeded. */
  ghost predicate PendingUndelivered(b: Board) {
    forall invocation :: invocation in b.status && b.status[invocation] != Closed ==>
      (b.status[invocation] == Pending <==> !HasSuccess(b.attempts, invocation))
  }

  ghost predicate Inv(b: Board, now: int) {
    Known(b) && AllTimely(b, now) && AllSpaced(b) && FinalsRight(b) && Capped(b) && PendingUndelivered(b)
  }

  lemma {:induction false} CountPrefix(attempts: seq<Attempt>, invocation: string, n: nat)
    requires n <= |attempts|
    ensures AutomaticCount(attempts[..n], invocation) <= AutomaticCount(attempts, invocation)
    ensures (forall i :: n <= i < |attempts| ==> !Automatic(attempts[i], invocation)) ==>
              AutomaticCount(attempts[..n], invocation) == AutomaticCount(attempts, invocation)
  {
    if n < |attempts| {
      CountPrefix(attempts[..|attempts| - 1], invocation, n);
      assert attempts[..|attempts| - 1][..n] == attempts[..n];
    } else {
      assert attempts[..n] == attempts;
    }
  }

  /** Recording an outcome keeps every count. */
  lemma {:induction false} CountUpdate(attempts: seq<Attempt>, id: nat, a: Attempt, invocation: string)
    requires id < |attempts| && a.invocation == attempts[id].invocation && a.manual == attempts[id].manual
    ensures AutomaticCount(attempts[id := a], invocation) == AutomaticCount(attempts, invocation)
  {
    var n := |attempts| - 1;
    if id < n {
      CountUpdate(attempts[..n], id, a, invocation);
      assert attempts[id := a][..n] == attempts[..n][id := a];
    } else {
      assert attempts[id := a][..n] == attempts[..n];
    }
  }

  lemma OrdinalUpdate(attempts: seq<Attempt>, id: nat, a: Attempt, i: nat)
    requires id < |attempts| && a.invocation == attempts[id].invocation && a.manual == attempts[id].manual
    requires i < |attempts|
    ensures Ordinal(attempts[id := a], i) == Ordinal(attempts, i)
  {
    if id <= i {
      CountUpdate(attempts[..i + 1], id, a, attempts[i].invocation);
      assert attempts[id := a][..i + 1] == attempts[..i + 1][id := a];
    } else {
      assert attempts[id := a][..i + 1] == attempts[..i + 1];
    }
  }

  /** An automatic attempt in flight is the latest automatic one of its invocation. */
  lemma InFlightIsLast(b: Board, now: int, id: nat)
    requires Inv(b, now) && id < |b.attempts| && !b.attempts[id].manual && b.attempts[id].status == Attempted
    ensures Ordinal(b.attempts, id) == AutomaticCount(b.attempts, b.attempts[id].invocation)
  {
    forall j | id + 1 <= j < |b.attempts| ensures !Automatic(b.attempts[j], b.attempts[id].invocation) {
    }
    CountPrefix(b.attempts, b.attempts[id].invocation, id + 1);
  }

  lemma {:induction false} NumbersBelowLast(attempts: seq<Attempt>, invocation: string)
    ensures forall i :: 0 <= i < |attempts| && attempts[i].invocation == invocation ==>
              attempts[i].number <= LastNumber(attempts, invocation)
  {
    if attempts != [] {
      NumbersBelowLast(attempts[..|attempts| - 1], invocation);
    }
  }

  /** Every earlier attempt is properly spaced from a licensed new one: an automatic one had failed, was
      not the last allowed, and its retry time has passed. */
  lemma StartIsSpaced(b: Board, before: int, step: Step, now: int, i: nat)
    requires Inv(b, before) && before <= now && step.Start? && Licensed(b, step, now)
    requires i < |b.attempts| && b.attempts[i].invocation == step.invocation
    ensures Spaced(b.attempts[i], Project(b, step, now).attempts[|b.attempts|])
  {
    NumbersBelowLast(b.attempts, step.invocation);
    if !b.attempts[i].manual && !step.manual {
      assert Timely(b.attempts[i], before);
      CountPrefix(b.attempts, step.invocation, i + 1);
      assert b.attempts[i].status != Exhausted;
    }
  }

  lemma StartKeepsInv(b: Board, before: int, step: Step, now: int)
    requires Inv(b, before) && before <= now && step.Start? && Licensed(b, step, now)
    ensures Inv(Project(b, step, now), now)
  {
    var n := |b.attempts|;
    var next := Project(b, step, now);
    assert next.attempts[..n] == b.attempts;
    assert AllTimely(next, now) && Known(next);
    forall i | 0 <= i < n && b.attempts[i].invocation == step.invocation
      ensures Spaced(b.attempts[i], next.attempts[n])
    {
      StartIsSpaced(b, before, step, now, i);
    }
    assert AllSpaced(next);
    forall i | 0 <= i < n ensures Ordinal(next.attempts, i) == Ordinal(b.attempts, i) {
      assert next.attempts[..i + 1] == b.attempts[..i + 1];
    }
    assert FinalsRight(next);
    StartKeepsCounts(b, before, step, now);
  }

  lemma StartKeepsCounts(b: Board, before: int, step: Step, now: int)
    requires Inv(b, before) && step.Start? && Licensed(b, step, now)
    ensures Capped(Project(b, step, now)) && PendingUndelivered(Project(b, step, now))
  {
    hide AllTimely, AllSpaced, FinalsRight, Ordinal;
    var next := Project(b, step, now);
    assert next.attempts[..|b.attempts|] == b.attempts;
    forall invocation ensures AutomaticCount(next.attempts, invocation) <= MAX_DELIVERY_ATTEMPTS {
      assert AutomaticCount(b.attempts, invocation) <= MAX_DELIVERY_ATTEMPTS;
    }
    forall invocation ensures HasSuccess(next.attempts, invocation) <==> HasSuccess(b.attempts, invocation) {
      StartIsNoSuccess(b.attempts, next.attempts[|b.attempts|], invocation);
    }
  }

  lemma StartIsNoSuccess(attempts: seq<Attempt>, a: Attempt, invocation: string)
    requires a.status == Attempted
    ensures HasSuccess(attempts + [a], invocation) <==> HasSuccess(attempts, invocation)
  {
    if HasSuccess(attempts, invocation) {
      var i :| 0 <= i < |attempts| && attempts[i].invocation == invocation && attempts[i].status == Succeeded;
      assert (attempts + [a])[i] == attempts[i];
    }
  }

  lemma OutcomeSuccess(attempts: seq<Attempt>, id: nat, a: Attempt, invocation: string)
    requires id < |attempts| && a.invocation == attempts[id].invocation && attempts[id].status == Attempted
    ensures HasSuccess(attempts[id := a], invocation) <==>
            HasSuccess(attempts, invocation) || (a.invocation == invocation && a.status == Succeeded)
  {
    var next := attempts[id := a];
    if HasSuccess(attempts, invocation) {
      var i :| 0 <= i < |attempts| && attempts[i].invocation == invocation && attempts[i].status == Succeeded;
      assert next[i] == attempts[i];
    }
    if a.invocation == invocation && a.status == Succeeded {
      assert next[id] == a;
    }
  }

  lemma OutcomeKeepsInv(b: Board, before: int, step: Step, now: int)
    requires Inv(b, before) && before <= now && (step.Notify? || step.Fail?) && Licensed(b, step, now)
    ensures Inv(Project(b, step, now), now)
  {
    var next := Project(b, step, now);
    var id := step.id;
    var a := b.attempts[id];
    var a' := next.attempts[id];
    assert next.attempts == b.attempts[id := a'];
    forall i | 0 <= i < |b.attempts| ensures Ordinal(next.attempts, i) == Ordinal(b.attempts, i) {
      OrdinalUpdate(b.attempts, id, a', i);
    }
    forall invocation ensures AutomaticCount(next.attempts, invocation) <= MAX_DELIVERY_ATTEMPTS {
      CountUpdate(b.attempts, id, a', invocation);
      assert AutomaticCount(b.attempts, invocation) <= MAX_DELIVERY_ATTEMPTS;
    }
    forall i, j | 0 <= i < j < |b.attempts| && next.attempts[i].invocation == next.attempts[j].invocation
      ensures Spaced(next.attempts[i], next.attempts[j])
    {
      assert Spaced(b.attempts[i], b.attempts[j]);
    }
    forall invocation | invocation in next.status && next.status[invocation] != Closed
      ensures next.status[invocation] == Pending <==> !HasSuccess(next.attempts, invocation)
    {
      OutcomeSuccess(b.attempts, id, a', invocation);
    }
  }

  lemma StepKeepsInv(b: Board, before: int, step: Step, now: int)
    requires Inv(b, before) && before <= now && Licensed(b, step, now)
    ensures Inv(Project(b, step, now), now)
  {
    match step
    case Start(_, _, _, _) => StartKeepsInv(b, before, step, now);
    case Notify(_) => OutcomeKeepsInv(b, before, step, now);
    case Fail(_, _, _) => OutcomeKeepsInv(b, before, step, now);
    case Request(invocation) =>
    case Close(invocation) =>
  }

  // ---------------------------------------------------------------- runs

  /** A run: boards with the licensed steps between them, at times that never go back. */
  datatype History = History(boards: seq<Board>, steps: seq<Step>, times: seq<int>)

  ghost predicate Run(h: History) {
    && |h.boards| == |h.steps| + 1 == |h.times|
    && h.boards[0] == Board(map[], [])
    && forall i :: 0 <= i < |h.steps| ==>
         && h.times[i] <= h.times[i + 1]
         && Licensed(h.boards[i], h.steps[i], h.times[i + 1])
         && Known(h.boards[i])
         && h.boards[i + 1] == Project(h.boards[i], h.steps[i], h.times[i + 1])
  }

  lemma {:induction false} RunKeepsInv(h: History, i: nat)
    requires Run(h) && i < |h.boards|
    ensures Inv(h.boards[i], h.times[i])
  {
    hide Inv, Licensed, Project;
    if i > 0 {
      RunKeepsInv(h, i - 1);
      StepKeepsInv(h.boards[i - 1], h.times[i - 1], h.steps[i - 1], h.times[i - 1 + 1]);
    } else {
      EmptyBoard(h.times[0]);
    }
  }

  lemma EmptyBoard(now: int)
    ensures Inv(Board(map[], []), now)
  {
  }

  // ---------------------------------------------------------------- main results

  /** The automatic attempts of an invocation, in order. */
  function Automatics(attempts: seq<Attempt>, invocation: string): seq<Attempt> {
    if attempts == [] then []
    else Automatics(attempts[..|attempts| - 1], invocation)
         + if Automatic(attempts[|attempts| - 1], invocation) then [attempts[|attempts| - 1]] else []
  }

  /** Where the k-th automatic attempt stands among all attempts. */
  lemma {:induction false} AutomaticAt(attempts: seq<Attempt>, invocation: string, k: nat) returns (i: nat)
    requires k < |Automatics(attempts, invocation)|
    ensures i < |attempts| && attempts[i] == Automatics(attempts, invocation)[k] && Automatic(attempts[i], invocation)
    ensures Ordinal(attempts, i) == k + 1
  {
    var n := |attempts| - 1;
    var rest := Automatics(attempts[..n], invocation);
    if k < |rest| {
      i := AutomaticAt(attempts[..n], invocation, k);
      assert attempts[..n][..i + 1] == attempts[..i + 1];
    } else {
      i := n;
      AutomaticLength(attempts, invocation);
      assert attempts[..n + 1] == attempts;
    }
  }

  lemma {:induction false} AutomaticLength(attempts: seq<Attempt>, invocation: string)
    ensures |Automatics(attempts, invocation)| == AutomaticCount(attempts, invocation)
  {
    if attempts != [] {
      AutomaticLength(attempts[..|attempts| - 1], invocation);
    }
  }

  lemma OrdinalsOrderPositions(attempts: seq<Attempt>, i: nat, j: nat)
    requires i < |attempts| && j < |attempts| && attempts[i].invocation == attempts[j].invocation
    ensures j <= i ==> Ordinal(attempts, j) <= Ordinal(attempts, i)
  {
    if j <= i {
      CountPrefix(attempts[..i + 1], attempts[i].invocation, j + 1);
      assert attempts[..i + 1][..j + 1] == attempts[..j + 1];
    }
  }

  /** The number of an automatic attempt is at least its ordinal; manual attempts in between only
      raise it. */
  lemma {:induction false} NumberAtLeastOrdinal(b: Board, now: int, invocation: string, k: nat)
    requires Inv(b, now) && k < |Automatics(b.attempts, invocation)|
    ensures Automatics(b.attempts, invocation)[k].number >= k + 1
  {
    var j := AutomaticAt(b.attempts, invocation, k);
    if k > 0 {
      var i := AutomaticAt(b.attempts, invocation, k - 1);
      NumberAtLeastOrdinal(b, now, invocation, k - 1);
      OrdinalsOrderPositions(b.attempts, i, j);
      assert Spaced(b.attempts[i], b.attempts[j]);
    }
  }

  lemma {:induction false} AutomaticOf(attempts: seq<Attempt>, i: nat)
    requires i < |attempts| && !attempts[i].manual
    ensures Ordinal(attempts, i) <= |Automatics(attempts, attempts[i].invocation)|
    ensures Automatics(attempts, attempts[i].invocation)[Ordinal(attempts, i) - 1] == attempts[i]
  {
    var n := |attempts| - 1;
    if i < n {
      AutomaticOf(attempts[..n], i);
      assert attempts[..n][..i + 1] == attempts[..i + 1];
    } else {
      AutomaticLength(attempts, attempts[i].invocation);
      assert attempts[..n + 1] == attempts;
    }
  }

  lemma NumberIsEnough(b: Board, now: int, i: nat)
    requires Inv(b, now) && i < |b.attempts| && !b.attempts[i].manual
    ensures b.attempts[i].number >= Ordinal(b.attempts, i)
    ensures Backoff(b.attempts[i].number) >= Backoff(Ordinal(b.attempts, i))
  {
    AutomaticOf(b.attempts, i);
    NumberAtLeastOrdinal(b, now, b.attempts[i].invocation, Ordinal(b.attempts, i) - 1);
    BackoffMonotone(Ordinal(b.attempts, i), b.attempts[i].number);
  }

  /** The last number an invocation has used is at least how many automatic attempts it has had. */
  lemma CountAtMostLastNumber(b: Board, now: int, invocation: string)
    requires Inv(b, now)
    ensures AutomaticCount(b.attempts, invocation) <= LastNumber(b.attempts, invocation)
  {
    var k := AutomaticCount(b.attempts, invocation);
    AutomaticLength(b.attempts, invocation);
    if k > 0 {
      var i := AutomaticAt(b.attempts, invocation, k - 1);
      NumberAtLeastOrdinal(b, now, invocation, k - 1);
      NumbersBelowLast(b.attempts, invocation);
    }
  }

  lemma Pow2Monotone(m: nat, n: nat)
    requires m <= n
    ensures 1 <= Pow2(m) <= Pow2(n)
  {
  }

  lemma BackoffMonotone(m: nat, n: nat)
    requires 1 <= m <= n
    ensures Backoff(m) <= Backoff(n)
  {
    BackoffInSeconds(m);
    BackoffInSeconds(n);
    hide Backoff;
  }

  /** The backoff after the attempt with a number, in seconds. */
  lemma BackoffInSeconds(number: nat)
    requires number >= 1
    ensures Backoff(number) ==
            (match number
             case 1 => 2 case 2 => 4 case 3 => 8 case 4 => 16 case 5 => 32 case 6 => 64 case 7 => 128 case 8 => 256
             case _ => 300) * 1_000_000_000
  {
    assert Pow2(2) == 4 && Pow2(4) == 16 && Pow2(6) == 64 && Pow2(8) == 256;
    if number > 8 {
      Pow2Monotone(8, Min(number - 1, 8));
    }
  }

  /** Over any run, an automatic attempt is followed by the next no sooner than 2, 4, 8, 16, 32, 64, 128 or
      256 seconds after the failure of the first to the eighth was recorded, and 300 after that of a later one. */
  lemma BackoffBetweenAutomaticAttempts(h: History, n: nat, invocation: string, k: nat)
    requires Run(h) && n < |h.boards|
    requires k + 1 < |Automatics(h.boards[n].attempts, invocation)|
    ensures var autos := Automatics(h.boards[n].attempts, invocation);
            var seconds := match k
                           case 0 => 2 case 1 => 4 case 2 => 8 case 3 => 16 case 4 => 32 case 5 => 64 case 6 => 128
                           case 7 => 256 case _ => 300;
            && autos[k].status == Failed && autos[k].failedAt.Some?
            && autos[k].failedAt.value >= autos[k].attemptedAt
            && autos[k + 1].attemptedAt >= autos[k].failedAt.value + seconds * 1_000_000_000
  {
    SpacedByBackoff(h, n, invocation, k);
    BackoffInSeconds(k + 1);
    hide Backoff, Automatics, Run;
  }

  lemma SpacedByBackoff(h: History, n: nat, invocation: string, k: nat)
    requires Run(h) && n < |h.boards|
    requires k + 1 < |Automatics(h.boards[n].attempts, invocation)|
    ensures var autos := Automatics(h.boards[n].attempts, invocation);
            && autos[k].status == Failed && autos[k].failedAt.Some?
            && autos[k].failedAt.value >= autos[k].attemptedAt
            && autos[k + 1].attemptedAt >= autos[k].failedAt.value + Backoff(k + 1)
  {
    RunKeepsInv(h, n);
    var b := h.boards[n];
    var i := AutomaticAt(b.attempts, invocation, k);
    var j := AutomaticAt(b.attempts, invocation, k + 1);
    OrdinalsOrderPositions(b.attempts, i, j);
    assert Spaced(b.attempts[i], b.attempts[j]) && Timely(b.attempts[i], h.times[n]);
  }

  /** The least time m+1 consecutive attempts can take. */
  function Span(m: nat): int {
    if m == 0 then 0 else Span(m - 1) + Backoff(m)
  }

  lemma {:induction false} AttemptsSpan(h: History, n: nat, invocation: string, m: nat)
    requires Run(h) && n < |h.boards| && m < |Automatics(h.boards[n].attempts, invocation)|
    ensures var autos := Automatics(h.boards[n].attempts, invocation);
            autos[m].attemptedAt - autos[0].attemptedAt >= Span(m)
  {
    if m > 0 {
      AttemptsSpan(h, n, invocation, m - 1);
      SpacedByBackoff(h, n, invocation, m - 1);
    }
  }

  /** Ten automatic attempts of one invocation take at least 810 seconds. */
  lemma TenAttemptsSpan(h: History, n: nat, invocation: string)
    requires Run(h) && n < |h.boards| && |Automatics(h.boards[n].attempts, invocation)| == MAX_DELIVERY_ATTEMPTS
    ensures var autos := Automatics(h.boards[n].attempts, invocation);
            autos[9].attemptedAt - autos[0].attemptedAt >= 810 * SECOND
  {
    AttemptsSpan(h, n, invocation, 9);
    NineBackoffs();
  }

  lemma NineBackoffs()
    ensures Span(9) == 810 * SECOND
  {
    BackoffInSeconds(1);
    BackoffInSeconds(2);
    BackoffInSeconds(3);
    BackoffInSeconds(4);
    BackoffInSeconds(5);
    BackoffInSeconds(6);
    BackoffInSeconds(7);
    BackoffInSeconds(8);
    BackoffInSeconds(9);
    hide Backoff;
    assert Span(3) == 14 * SECOND;
    assert Span(6) == 126 * SECOND;
  }

  /** Over any run mixing passes, redeliveries and expiries: at most ten automatic attempts per
      invocation, and an automatic attempt that failed is final exactly when it was the tenth. */
  lemma AttemptsAreCapped(h: History, n: nat, invocation: string, k: nat)
    requires Run(h) && n < |h.boards|
    ensures |Automatics(h.boards[n].attempts, invocation)| <= 10
    ensures k < |Automatics(h.boards[n].attempts, invocation)| ==>
              var a := Automatics(h.boards[n].attempts, invocation)[k];
              a.status == Exhausted || a.status == Failed ==>
                (a.status == Exhausted <==> k + 1 == 10)
  {
    RunKeepsInv(h, n);
    AutomaticLength(h.boards[n].attempts, invocation);
    if k < |Automatics(h.boards[n].attempts, invocation)| {
      var i := AutomaticAt(h.boards[n].attempts, invocation, k);
    }
  }

  // ---------------------------------------------------------------- numbers, leases and closing

  function Count(attempts: seq<Attempt>, invocation: string): nat {
    if attempts == [] then 0
    else Count(attempts[..|attempts| - 1], invocation)
         + if attempts[|attempts| - 1].invocation == invocation then 1 else 0
  }

  /** Numbers count the deliveries of an invocation, automatic or not. */
  ghost predicate Counted(attempts: seq<Attempt>) {
    forall i :: 0 <= i < |attempts| ==> attempts[i].number == Count(attempts[..i + 1], attempts[i].invocation)
  }

  /** A lease lasts at most two minutes, and a runtime gets no second delivery of an invocation while one
      that is still open holds its lease. */
  ghost predicate Leased(attempts: seq<Attempt>) {
    && (forall i :: 0 <= i < |attempts| ==>
          attempts[i].attemptedAt < attempts[i].attemptUntil <= attempts[i].attemptedAt + 120_000_000_000)
    && (forall i, j :: 0 <= i < j < |attempts| && attempts[i].invocation == attempts[j].invocation
                       && attempts[i].runtime == attempts[j].runtime && attempts[i].status == Attempted ==>
          attempts[j].attemptedAt >= attempts[i].attemptUntil)
  }

  lemma {:induction false} CountIsLast(attempts: seq<Attempt>, invocation: string)
    requires Counted(attempts)
    ensures LastNumber(attempts, invocation) == Count(attempts, invocation)
  {
    if attempts != [] {
      var n := |attempts| - 1;
      forall i | 0 <= i < n ensures attempts[..n][i].number == Count(attempts[..n][..i + 1], attempts[i].invocation) {
        assert attempts[..n][..i + 1] == attempts[..i + 1];
      }
      CountIsLast(attempts[..n], invocation);
      assert attempts[..n + 1] == attempts;
    }
  }

  lemma {:induction false} SameInvocations(a: seq<Attempt>, b: seq<Attempt>, invocation: string)
    requires |a| == |b| && forall i :: 0 <= i < |a| ==> a[i].invocation == b[i].invocation
    ensures Count(a, invocation) == Count(b, invocation)
  {
    if a != [] {
      SameInvocations(a[..|a| - 1], b[..|b| - 1], invocation);
    }
  }

  lemma StepKeepsNumbers(b: Board, step: Step, now: int)
    requires Known(b) && Licensed(b, step, now) && Counted(b.attempts)
    ensures Counted(Project(b, step, now).attempts)
  {
    hide FailsByPolicy, Ready, HasSuccess, LastNumber, Count, AutomaticCount, Backoff;
    var next := Project(b, step, now).attempts;
    if step.Start? {
      CountIsLast(b.attempts, step.invocation);
      OneMore(b.attempts, next[|b.attempts|], step.invocation);
      assert next[..|b.attempts| + 1] == next;
      forall i | 0 <= i < |b.attempts| ensures next[i].number == Count(next[..i + 1], next[i].invocation) {
        assert next[..i + 1] == b.attempts[..i + 1];
      }
    } else {
      forall i | 0 <= i < |next| ensures next[i].number == Count(next[..i + 1], next[i].invocation) {
        SameInvocations(next[..i + 1], b.attempts[..i + 1], next[i].invocation);
      }
    }
  }

  lemma StepKeepsLeases(b: Board, step: Step, now: int)
    requires Known(b) && Licensed(b, step, now) && Leased(b.attempts)
    ensures Leased(Project(b, step, now).attempts)
  {
    hide FailsByPolicy, Ready, HasSuccess, LastNumber, AutomaticCount;
  }

  lemma {:induction false} RunKeepsNumbersAndLeases(h: History, n: nat)
    requires Run(h) && n < |h.boards|
    ensures Counted(h.boards[n].attempts) && Leased(h.boards[n].attempts)
  {
    hide Licensed, Project, Known;
    if n > 0 {
      RunKeepsNumbersAndLeases(h, n - 1);
      StepKeepsNumbers(h.boards[n - 1], h.steps[n - 1], h.times[n - 1 + 1]);
      StepKeepsLeases(h.boards[n - 1], h.steps[n - 1], h.times[n - 1 + 1]);
    }
  }

  /** In every run the deliveries of an invocation are numbered 1, 2, 3, ... in order; leases last at most two
      minutes, and a runtime never holds two of one invocation at once. */
  lemma NumbersAndLeases(h: History, n: nat, i: nat, j: nat)
    requires Run(h) && n < |h.boards| && i < j < |h.boards[n].attempts|
    ensures var attempts := h.boards[n].attempts;
            && attempts[i].number == Count(attempts[..i + 1], attempts[i].invocation)
            && attempts[i].attemptedAt < attempts[i].attemptUntil <= attempts[i].attemptedAt + 120_000_000_000
            && (attempts[i].invocation == attempts[j].invocation && attempts[i].runtime == attempts[j].runtime ==>
                  attempts[i].status != Attempted || attempts[j].attemptedAt >= attempts[i].attemptUntil)
  {
    RunKeepsNumbersAndLeases(h, n);
  }

  /** At any point of a run a delivery may start exactly for an open invocation, with a lease of at most two
      minutes, on a runtime whose earlier deliveries of it are settled or have lapsed, and automatically only if
      fewer than ten have; it gets the next number. */
  lemma StartAcceptedIff(h: History, n: nat, v: string, runtime: string, manual: bool, lease: int, now: int)
    requires Run(h) && n < |h.boards|
    ensures var b, step := h.boards[n], Start(v, runtime, manual, lease);
            Accepts(b, step, now) <==>
              && v in b.status && b.status[v] in {Pending, Notified} && 0 < lease <= 120_000_000_000
              && (forall a :: a in b.attempts && a.invocation == v && a.runtime == runtime ==>
                    a.status != Attempted || a.attemptUntil <= now)
              && (manual || |Automatics(b.attempts, v)| < 10)
    ensures var b, step := h.boards[n], Start(v, runtime, manual, lease);
            Known(b) &&
            (Accepts(b, step, now) ==>
               Project(b, step, now) ==
               Board(b.status, b.attempts + [Attempt(v, runtime, Count(b.attempts, v) + 1, manual, Attempted, now,
                                                     now + lease, None, None)]))
  {
    RunKeepsInv(h, n);
    RunKeepsNumbersAndLeases(h, n);
    hide Run, AutomaticCount, Automatics, Count, LastNumber, AllTimely, AllSpaced, FinalsRight, Counted, Leased;
    CountIsLast(h.boards[n].attempts, v);
    AutomaticLength(h.boards[n].attempts, v);
    hide Capped, PendingUndelivered, Known;
    OpenDelivery(h.boards[n].attempts, v, runtime, now);
  }

  lemma OpenDelivery(attempts: seq<Attempt>, v: string, runtime: string, now: int)
    ensures (forall i :: 0 <= i < |attempts| ==>
               !(attempts[i].invocation == v && attempts[i].runtime == runtime
                 && attempts[i].status == Attempted && attempts[i].attemptUntil > now)) <==>
            (forall a :: a in attempts && a.invocation == v && a.runtime == runtime ==>
               a.status != Attempted || a.attemptUntil <= now)
  {
  }

  /** An invocation that was closed stays closed, and gets no delivery any more. */
  lemma {:induction false} ClosedStaysClosed(h: History, m: nat, n: nat, invocation: string)
    requires Run(h) && m <= n < |h.boards|
    requires invocation in h.boards[m].status && h.boards[m].status[invocation] == Closed
    ensures invocation in h.boards[n].status && h.boards[n].status[invocation] == Closed
    ensures Count(h.boards[n].attempts, invocation) == Count(h.boards[m].attempts, invocation)
    decreases n
  {
    if m < n {
      ClosedStaysClosed(h, m, n - 1, invocation);
      ClosedStep(h.boards[n - 1], h.steps[n - 1], h.times[n - 1 + 1], invocation);
    }
  }

  lemma ClosedStep(b: Board, step: Step, now: int, invocation: string)
    requires Known(b) && Accepts(b, step, now) && invocation in b.status && b.status[invocation] == Closed
    ensures var next := Project(b, step, now);
            && invocation in next.status && next.status[invocation] == Closed
            && Count(next.attempts, invocation) == Count(b.attempts, invocation)
  {
    hide HasSuccess, LastNumber, AutomaticCount, Count, Backoff;
    var next := Project(b, step, now).attempts;
    if step.Start? {
      OneMore(b.attempts, next[|b.attempts|], invocation);
    } else {
      SameInvocations(next, b.attempts, invocation);
    }
  }

  lemma OneMore(attempts: seq<Attempt>, a: Attempt, invocation: string)
    ensures Count(attempts + [a], invocation) ==
            Count(attempts, invocation) + if a.invocation == invocation then 1 else 0
  {
    assert (attempts + [a])[..|attempts|] == attempts;
  }

  /** In every run an open invocation is pending exactly while no delivery of it has succeeded: a failure puts
      it back, and a success takes it off. */
  lemma PendingUntilDelivered(h: History, n: nat, invocation: string)
    requires Run(h) && n < |h.boards| && invocation in h.boards[n].status && h.boards[n].status[invocation] != Closed
    ensures h.boards[n].status[invocation] == Pending <==>
            forall i :: 0 <= i < |h.boards[n].attempts| && h.boards[n].attempts[i].invocation == invocation ==>
              h.boards[n].attempts[i].status != Succeeded
  {
    RunKeepsInv(h, n);
  }

  /** In every run an outcome is recorded once, of an attempt still open: a success while its lease lasts, a
      failure with the time of the recording and a retry that lies ahead, unless it is the last.  Nothing else
      about a delivery ever changes. */
  lemma OutcomesAreFinal(h: History, i: nat, id: nat)
    requires Run(h) && i + 1 < |h.boards| && id < |h.boards[i].attempts|
    ensures id < |h.boards[i + 1].attempts|
    ensures var a, b, now := h.boards[i].attempts[id], h.boards[i + 1].attempts[id], h.times[i + 1];
            a == b ||
            (&& a.status == Attempted
             && match b.status
                case Attempted => false
                case Succeeded => b == a.(status := Succeeded) && now < a.attemptUntil
                case Failed =>
                  && b == a.(status := Failed, failedAt := Some(now), nextRetryAt := b.nextRetryAt)
                  && b.nextRetryAt.Some? && b.nextRetryAt.value > now
                case Exhausted => b == a.(status := Exhausted, failedAt := Some(now), nextRetryAt := None))
  {
    OutcomeOfStep(h.boards[i], h.steps[i], h.times[i + 1], id);
    hide Licensed, Project, Known;
    assert h.boards[i + 1] == Project(h.boards[i], h.steps[i], h.times[i + 1]);
  }

  lemma OutcomeOfStep(b: Board, step: Step, now: int, id: nat)
    requires Known(b) && Licensed(b, step, now) && id < |b.attempts|
    ensures id < |Project(b, step, now).attempts|
    ensures var a, a' := b.attempts[id], Project(b, step, now).attempts[id];
            a == a' ||
            (&& a.status == Attempted
             && match a'.status
                case Attempted => false
                case Succeeded => a' == a.(status := Succeeded) && now < a.attemptUntil
                case Failed =>
                  && a' == a.(status := Failed, failedAt := Some(now), nextRetryAt := a'.nextRetryAt)
                  && a'.nextRetryAt.Some? && a'.nextRetryAt.value > now
                case Exhausted => a' == a.(status := Exhausted, failedAt := Some(now), nextRetryAt := None))
  {
    hide Ready, HasSuccess, LastNumber, AutomaticCount, Backoff, Ordinal;
  }
}
