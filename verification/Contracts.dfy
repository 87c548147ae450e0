/** Shared result types. */
module Results {
  datatype Option<+T> = None | Some(value: T)

  datatype ErrorCode =
    | Offline | Conflict | RateLimited | StalePrecondition
    | Unavailable | Authorization | Validation | Integrity

  datatype Result<+T> = Ok(value: T) | Err(code: ErrorCode)
}

/** The signed event chain: events, receipts, their symbolic hashes, and range verification.

    A hash is the value it hashes, so two digests are equal exactly when their canonical contents
    are.  A signature is the pair of the signing key and the signed content. */
module Contracts {
  import opened Results

  const MAX_COMMAND_BYTES := 256 * 1024
  const DEFAULT_PAGE_SIZE := 100
  const MAX_PAGE_SIZE := 500
  const MAX_DRAFT_BYTES := 5 * 1024 * 1024
  const MAX_DRAFTS_PER_PROJECT := 1_000
  const MAX_DRAFT_STORAGE_BYTES := 50 * 1024 * 1024
  const MAX_DELIVERY_ATTEMPTS := 10

  // Instants are nanoseconds since the zero time; the zero time itself is 0.
  const MICROSECOND := 1_000
  const SECOND := 1_000_000_000
  const COMMAND_CLOCK_SKEW := 300 * SECOND

  /** A JSON payload is a value together with the spelling that carried it.  `value` is the
      canonical spelling, the one hashes are computed over. */
  datatype Payload = NoPayload | Json(value: string, text: string) | Malformed(text: string)

  function PayloadLength(p: Payload): nat {
    if p.NoPayload? then 0 else |p.text|
  }

  /** The canonical JSON value of a payload; an absent payload reads as the empty object. */
  function Normalized(p: Payload): Option<string> {
    match p
    case NoPayload => Some("{}")
    case Json(value, _) => Some(value)
    case Malformed(_) => None
  }

  datatype Hash =
    | Genesis
    | EventDigest(event: EventContent)
    | CommandDigest(command: CommandContent)
    | Arbitrary(text: string)

  datatype EventContent = EventContent(
    projectId: string, sequence: nat, id: string, time: nat, actor: string, keyFingerprint: string,
    kind: string, entityId: string, payload: string, previousHash: Hash, intentHash: Hash,
    idempotencyKey: string, legacy: bool)

  datatype CommandContent = CommandContent(
    projectId: string, actor: string, kind: string, entityId: string, payload: string,
    idempotencyKey: string, issuedAt: nat, expectedSequence: nat, publicKey: string)

  datatype Event = Event(
    projectId: string, sequence: nat, id: string, time: nat, actor: string, keyFingerprint: string,
    kind: string, entityId: string, payload: Payload, previousHash: Hash, hash: Hash,
    intentHash: Hash, idempotencyKey: string)

  datatype Command = Command(
    projectId: string, actor: string, kind: string, entityId: string, payload: Payload,
    idempotencyKey: string, issuedAt: nat, expectedSequence: nat, publicKey: string, signature: string)

  datatype Signature = Signed(key: string, content: ReceiptContent) | Unsigned(text: string)

  datatype ReceiptContent = ReceiptContent(
    projectId: string, sequence: nat, eventId: string, eventHash: Hash, intentHash: Hash,
    committedAt: nat, keyFingerprint: string)

  datatype Receipt = Receipt(content: ReceiptContent, signature: Signature)

  datatype Record = Record(event: Event, receipt: Receipt)

  const LEGACY_PREFIX := "legacy:"

  predicate IsLegacy(key: string) {
    LEGACY_PREFIX <= key
  }

  function ContentOf(e: Event): Option<EventContent> {
    match Normalized(e.payload)
    case None => None
    case Some(value) =>
      Some(EventContent(e.projectId, e.sequence, e.id, e.time, e.actor, e.keyFingerprint, e.kind,
                        e.entityId, value, e.previousHash, e.intentHash, e.idempotencyKey,
                        IsLegacy(e.idempotencyKey)))
  }

  function HashEvent(e: Event): Option<Hash> {
    match ContentOf(e)
    case None => None
    case Some(content) => Some(EventDigest(content))
  }

  predicate VerifyEventHash(e: Event) {
    && (IsLegacy(e.idempotencyKey) ==>
          && e.projectId != "" && e.sequence != 0 && e.id != "" && e.time != 0 && e.actor != ""
          && e.kind != "" && e.intentHash != Genesis && e.payload.Json?)
    && HashEvent(e) == Some(e.hash)
  }

  function IntentHash(c: Command): Option<Hash> {
    match Normalized(c.payload)
    case None => None
    case Some(value) =>
      Some(CommandDigest(CommandContent(c.projectId, c.actor, c.kind, c.entityId, value, c.idempotencyKey,
                                        c.issuedAt, c.expectedSequence, c.publicKey)))
  }

  function SignReceipt(key: string, content: ReceiptContent): Receipt {
    Receipt(content, Signed(key, content))
  }

  predicate VerifyReceipt(r: Receipt, key: string) {
    r.signature == Signed(key, r.content)
  }

  /** The comparison `Cache.Apply` makes before trusting a receipt. */
  predicate Matches(e: Event, r: Receipt) {
    && r.content.projectId == e.projectId
    && r.content.sequence == e.sequence
    && r.content.eventId == e.id
    && r.content.eventHash == e.hash
    && r.content.intentHash == e.intentHash
  }

  /** Equal up to the spelling of the JSON payload. */
  predicate SameEvent(a: Event, b: Event) {
    ContentOf(a) == ContentOf(b) && a.hash == b.hash
  }

  /** Two events that carry the same hash, and carry it rightly, are the same event. */
  lemma HashIdentifiesEvent(a: Event, b: Event)
    requires VerifyEventHash(a) && VerifyEventHash(b)
    ensures a.hash == b.hash <==> SameEvent(a, b)
    ensures SameEvent(a, b) <==>
              && a.projectId == b.projectId && a.sequence == b.sequence && a.id == b.id && a.time == b.time
              && a.actor == b.actor && a.keyFingerprint == b.keyFingerprint && a.kind == b.kind
              && a.entityId == b.entityId && Normalized(a.payload) == Normalized(b.payload)
              && a.previousHash == b.previousHash && a.intentHash == b.intentHash
              && a.idempotencyKey == b.idempotencyKey && a.hash == b.hash
  {
  }

  /** A command's intent covers all of it but the spelling of its payload and the signature. */
  lemma IntentIdentifiesCommand(a: Command, b: Command)
    requires IntentHash(a).Some? && IntentHash(b).Some?
    ensures IntentHash(a) == IntentHash(b) <==>
              && a.projectId == b.projectId && a.actor == b.actor && a.kind == b.kind && a.entityId == b.entityId
              && Normalized(a.payload) == Normalized(b.payload) && a.idempotencyKey == b.idempotencyKey
              && a.issuedAt == b.issuedAt && a.expectedSequence == b.expectedSequence && a.publicKey == b.publicKey
  {
  }

  /** What a payload is matters, not how it is spelled: an absent one is the empty object, and what is no JSON has
      no intent. */
  lemma PayloadSpelling(c: Command, value: string, text: string, other: string)
    ensures IntentHash(c.(payload := Json(value, text))) == IntentHash(c.(payload := Json(value, other)))
    ensures IntentHash(c.(payload := NoPayload)) == IntentHash(c.(payload := Json("{}", text)))
    ensures IntentHash(c).None? <==> c.payload.Malformed?
  {
  }

  /** A receipt verifies under one key only, and only as it was signed. */
  lemma ReceiptIsSealed(key: string, content: ReceiptContent, other: string, changed: ReceiptContent)
    ensures VerifyReceipt(SignReceipt(key, content).(content := changed), other) <==> key == other && content == changed
  {
  }

  /** An event imported from the old format verifies only if it is complete; any other by its hash alone. */
  lemma VerifiedEvent(e: Event)
    ensures VerifyEventHash(e) <==>
              && HashEvent(e) == Some(e.hash)
              && ("legacy:" <= e.idempotencyKey ==>
                    && e.projectId != "" && e.sequence > 0 && e.id != "" && e.time > 0 && e.actor != "" && e.kind != ""
                    && e.intentHash != Genesis && e.payload.Json?)
  {
  }

  predicate IsSpace(c: char) {
    || c == ' ' || '\t' <= c <= '\r' || c == '\U{0085}' || c == '\U{00A0}' || c == '\U{1680}'
    || '\U{2000}' <= c <= '\U{200A}' || c == '\U{2028}' || c == '\U{2029}' || c == '\U{202F}'
    || c == '\U{205F}' || c == '\U{3000}'
  }

  /** `strings.TrimSpace(s) == ""`. */
  predicate Blank(s: string) {
    forall i :: 0 <= i < |s| ==> IsSpace(s[i])
  }

  /** A string is blank if it holds nothing but the white space of Unicode. */
  lemma BlankIff(s: string, c: char)
    ensures Blank(s) <==> forall i :: 0 <= i < |s| ==> IsSpace(s[i])
    ensures IsSpace(c) <==>
            || c in {' ', '\t', '\n', '\U{000B}', '\U{000C}', '\r', '\U{0085}', '\U{00A0}', '\U{1680}'}
            || c in {'\U{2000}', '\U{2001}', '\U{2002}', '\U{2003}', '\U{2004}', '\U{2005}', '\U{2006}', '\U{2007}'}
            || c in {'\U{2008}', '\U{2009}', '\U{200A}', '\U{2028}', '\U{2029}', '\U{202F}', '\U{205F}', '\U{3000}'}
  {
  }

  /** `Command.Validate`. */
  predicate WellFormed(c: Command, now: nat) {
    && !Blank(c.projectId) && !Blank(c.actor) && !Blank(c.kind) && !Blank(c.idempotencyKey)
    && PayloadLength(c.payload) <= MAX_COMMAND_BYTES
    && c.issuedAt != 0
    && now - COMMAND_CLOCK_SKEW <= c.issuedAt <= now + COMMAND_CLOCK_SKEW
    && IntentHash(c).Some?
  }

  /** `BoundedLimit`: from 0 to 500, 0 standing for 100; a page never asks for nothing. */
  function BoundedLimit(limit: int): (r: Result<nat>)
    ensures 0 <= limit <= MAX_PAGE_SIZE <==> r.Ok?
    ensures r.Err? ==> r.code == Validation
    ensures r.Ok? ==> 0 < r.value <= MAX_PAGE_SIZE && r.value == if limit == 0 then 100 else limit
  {
    if limit < 0 || limit > MAX_PAGE_SIZE then Err(Validation)
    else if limit == 0 then Ok(DEFAULT_PAGE_SIZE)
    else Ok(limit)
  }

  // ---------------------------------------------------------------- event tables

  /** An event table in primary-key order. */
  ghost predicate Ordered(rows: seq<Record>) {
    forall i, j :: 0 <= i < j < |rows| ==> rows[i].event.sequence < rows[j].event.sequence
  }

  function FindRow(rows: seq<Record>, sequence: nat): Option<Record> {
    if rows == [] then None
    else if rows[0].event.sequence == sequence then Some(rows[0])
    else FindRow(rows[1..], sequence)
  }

  lemma {:induction false} FoundRow(rows: seq<Record>, sequence: nat)
    ensures var r := FindRow(rows, sequence);
            && (r.Some? ==> r.value in rows && r.value.event.sequence == sequence)
            && (r.None? ==> forall row :: row in rows ==> row.event.sequence != sequence)
  {
    if rows != [] && rows[0].event.sequence != sequence {
      FoundRow(rows[1..], sequence);
    }
  }

  predicate InWindow(sequence: nat, from: nat, to: nat) {
    from <= sequence && (to != 0 ==> sequence <= to)
  }

  /** `WHERE sequence >= from [AND sequence <= to] ORDER BY sequence`; `to == 0` means no upper bound. */
  function Window(rows: seq<Record>, from: nat, to: nat): seq<Record> {
    if rows == [] then []
    else (if InWindow(rows[0].event.sequence, from, to) then [rows[0]] else []) + Window(rows[1..], from, to)
  }

  /** What the verification loop accepts, starting at `expected` with predecessor hash `previous`. */
  predicate ChainHolds(rows: seq<Record>, expected: nat, previous: Hash, key: string) {
    rows == [] ||
    (&& RowHolds(rows[0], expected, previous, key)
     && ChainHolds(rows[1..], expected + 1, rows[0].event.hash, key))
  }

  predicate RowHolds(row: Record, expected: nat, previous: Hash, key: string) {
    && row.event.sequence == expected
    && row.event.previousHash == previous
    && VerifyEventHash(row.event)
    && VerifyReceipt(row.receipt, key)
  }

  function LastHash(rows: seq<Record>, before: Hash): Hash {
    if rows == [] then before else rows[|rows| - 1].event.hash
  }

  function First(from: nat): nat {
    if from == 0 then 1 else from
  }

  function Predecessor(rows: seq<Record>, from: nat): Option<Hash> {
    if from <= 1 then Some(Genesis)
    else
      match FindRow(rows, from - 1)
      case None => None
      case Some(row) => Some(row.event.hash)
  }

  /** The verdict of `VerifyRange` on a table. */
  function RangeVerdict(rows: seq<Record>, from: nat, to: nat, key: string): Result<()> {
    if to != 0 && to < First(from) then Err(Validation)
    else
      match Predecessor(rows, First(from))
      case None => Err(Integrity)
      case Some(previous) =>
        if ChainHolds(Window(rows, First(from), to), First(from), previous, key) then Ok(()) else Err(Integrity)
  }

  /** The verification loop: one pass over the selected rows carrying the expected sequence and the
      previous hash. */
  method VerifyChain(selected: seq<Record>, first: nat, start: Hash, key: string) returns (ok: bool)
    ensures ok <==> ChainHolds(selected, first, start, key)
  {
    hide VerifyEventHash, VerifyReceipt;
    var expected, previous := first, start;
    assert selected[0..] == selected;
    for i := 0 to |selected|
      invariant expected == first + i
      invariant ChainHolds(selected[i..], expected, previous, key) <==> ChainHolds(selected, first, start, key)
    {
      var row := selected[i];
      assert selected[i..][0] == row;
      assert selected[i..][1..] == selected[i + 1..];
      if row.event.sequence != expected || row.event.previousHash != previous {
        return false;
      }
      if !VerifyEventHash(row.event) {
        return false;
      }
      if !VerifyReceipt(row.receipt, key) {
        return false;
      }
      previous := row.event.hash;
      expected := expected + 1;
    }
    return true;
  }

  method VerifyRange(rows: seq<Record>, from: nat, to: nat, key: string) returns (r: Result<()>)
    ensures r == RangeVerdict(rows, from, to, key)
  {
    var first := from;
    if first == 0 {
      first := 1;
    }
    if to != 0 && to < first {
      return Err(Validation);
    }
    var selected := Window(rows, first, to);
    var expected, previous := first, Genesis;
    if first > 1 {
      match FindRow(rows, first - 1) {
        case None => return Err(Integrity);
        case Some(row) => previous := row.event.hash;
      }
    }
    var ok := VerifyChain(selected, expected, previous, key);
    return if ok then Ok(()) else Err(Integrity);
  }

  // ---------------------------------------------------------------- chains

  lemma {:induction false} ChainConcat(x: seq<Record>, y: seq<Record>, expected: nat, previous: Hash, key: string)
    ensures ChainHolds(x + y, expected, previous, key)
        <==> ChainHolds(x, expected, previous, key) && ChainHolds(y, expected + |x|, LastHash(x, previous), key)
  {
    if x == [] {
      assert x + y == y;
    } else {
      ChainConcat(x[1..], y, expected + 1, x[0].event.hash, key);
      assert (x + y)[1..] == x[1..] + y;
    }
  }

  lemma {:induction false} ChainAt(rows: seq<Record>, expected: nat, previous: Hash, key: string, i: nat)
    requires ChainHolds(rows, expected, previous, key) && i < |rows|
    ensures RowHolds(rows[i], expected + i, LastHash(rows[..i], previous), key)
  {
    ChainConcat(rows[..i], rows[i..], expected, previous, key);
    assert rows == rows[..i] + rows[i..];
  }

  /** In a chained table a row is found exactly at the position its sequence says. */
  lemma {:induction false} ChainFind(rows: seq<Record>, expected: nat, previous: Hash, key: string, sequence: nat)
    requires ChainHolds(rows, expected, previous, key)
    ensures FindRow(rows, sequence) ==
            if expected <= sequence < expected + |rows| then Some(rows[sequence - expected]) else None
  {
    if rows != [] && rows[0].event.sequence != sequence {
      ChainFind(rows[1..], expected + 1, rows[0].event.hash, key, sequence);
    }
  }

  lemma {:induction false} ChainOrdered(rows: seq<Record>, expected: nat, previous: Hash, key: string)
    requires ChainHolds(rows, expected, previous, key)
    ensures Ordered(rows)
    ensures forall i :: 0 <= i < |rows| ==> rows[i].event.sequence == expected + i
  {
    forall i | 0 <= i < |rows| ensures rows[i].event.sequence == expected + i {
      ChainAt(rows, expected, previous, key, i);
    }
  }

  // ---------------------------------------------------------------- windows

  lemma OrderedTail(rows: seq<Record>)
    requires Ordered(rows) && rows != []
    ensures Ordered(rows[1..])
    ensures forall r :: r in rows[1..] ==> rows[0].event.sequence < r.event.sequence
  {
    forall i, j | 0 <= i < j < |rows[1..]| ensures rows[1..][i].event.sequence < rows[1..][j].event.sequence {
      assert rows[i + 1].event.sequence < rows[j + 1].event.sequence;
    }
  }

  lemma {:induction false} WindowEmpty(rows: seq<Record>, from: nat, to: nat)
    requires forall r :: r in rows ==> !InWindow(r.event.sequence, from, to)
    ensures Window(rows, from, to) == []
  {
    if rows != [] {
      WindowEmpty(rows[1..], from, to);
    }
  }

  lemma WindowStep(rows: seq<Record>, from: nat, to: nat)
    requires rows != []
    ensures Window(rows, from, to) ==
            (if InWindow(rows[0].event.sequence, from, to) then [rows[0]] else []) + Window(rows[1..], from, to)
  {
  }

  /** On an ordered table, a window is the window up to `middle` followed by the window after it. */
  lemma {:induction false} WindowSplit(rows: seq<Record>, from: nat, middle: nat, to: nat)
    requires Ordered(rows) && 1 <= from <= middle && (to == 0 || middle < to)
    ensures Window(rows, from, to) == Window(rows, from, middle) + Window(rows, middle + 1, to)
  {
    if rows != [] {
      OrderedTail(rows);
      var rest := rows[1..];
      if rows[0].event.sequence > middle {
        WindowEmpty(rest, from, middle);
      }
      WindowStep(rows, from, to);
      WindowStep(rows, from, middle);
      WindowStep(rows, middle + 1, to);
      hide Ordered, Window;
      WindowSplit(rest, from, middle, to);
      var x, left, right := [rows[0]], Window(rest, from, middle), Window(rest, middle + 1, to);
      ConcatAssociates(x, left, right);
      ConcatNothing(left, right);
      ConcatNothing(Window(rest, from, to), Window(rows, middle + 1, to));
    }
  }

  lemma ConcatAssociates<T>(a: seq<T>, b: seq<T>, c: seq<T>)
    ensures (a + b) + c == a + (b + c)
  {
  }

  lemma ConcatNothing<T>(a: seq<T>, b: seq<T>)
    ensures [] + a == a && [] + b == b && a + [] == a
  {
  }

  /** The last row of a window that contains a row at `last` is that row. */
  lemma {:induction false} WindowLast(rows: seq<Record>, from: nat, last: nat)
    requires Ordered(rows) && 1 <= from <= last && FindRow(rows, last).Some?
    ensures var w := Window(rows, from, last);
            w != [] && Some(w[|w| - 1]) == FindRow(rows, last)
  {
    if rows[0].event.sequence == last {
      WindowEmpty(rows[1..], from, last);
    } else {
      WindowLast(rows[1..], from, last);
    }
  }

  /** On a chained table a window is a slice. */
  lemma {:induction false} WindowSlice(rows: seq<Record>, expected: nat, previous: Hash, key: string, from: nat)
    requires ChainHolds(rows, expected, previous, key) && expected <= from
    ensures Window(rows, from, 0) == if from - expected <= |rows| then rows[from - expected..] else []
  {
    if rows != [] {
      if from == expected {
        WindowAll(rows, expected, previous, key);
      } else {
        WindowSlice(rows[1..], expected + 1, rows[0].event.hash, key, from);
      }
    }
  }

  lemma {:induction false} WindowAll(rows: seq<Record>, expected: nat, previous: Hash, key: string)
    requires ChainHolds(rows, expected, previous, key)
    ensures Window(rows, expected, 0) == rows
  {
    ChainOrdered(rows, expected, previous, key);
    WindowEverything(rows, expected);
  }

  lemma {:induction false} WindowEverything(rows: seq<Record>, from: nat)
    requires forall r :: r in rows ==> from <= r.event.sequence
    ensures Window(rows, from, 0) == rows
  {
    if rows != [] {
      WindowEverything(rows[1..], from);
    }
  }

  /** A row is numbered without a gap, linked to the one before, correctly hashed, and its receipt signed. */
  predicate LinkHolds(rows: seq<Record>, i: nat, expected: nat, previous: Hash, key: string)
    requires i < |rows|
  {
    && rows[i].event.sequence == expected + i
    && rows[i].event.previousHash == (if i == 0 then previous else rows[i - 1].event.hash)
    && VerifyEventHash(rows[i].event)
    && rows[i].receipt.signature == Signed(key, rows[i].receipt.content)
  }

  predicate AllLink(rows: seq<Record>, expected: nat, previous: Hash, key: string) {
    forall i :: 0 <= i < |rows| ==> LinkHolds(rows, i, expected, previous, key)
  }

  /** What a chain is, row by row. */
  lemma ChainMeaning(rows: seq<Record>, expected: nat, previous: Hash, key: string)
    ensures ChainHolds(rows, expected, previous, key) <==> AllLink(rows, expected, previous, key)
  {
    hide VerifyEventHash, ChainHolds;
    if ChainHolds(rows, expected, previous, key) {
      forall i | 0 <= i < |rows| ensures LinkHolds(rows, i, expected, previous, key) {
        ChainAt(rows, expected, previous, key, i);
      }
    } else {
      var i := BrokenLink(rows, expected, previous, key);
    }
  }

  lemma {:induction false} BrokenLink(rows: seq<Record>, expected: nat, previous: Hash, key: string) returns (i: nat)
    requires !ChainHolds(rows, expected, previous, key)
    ensures i < |rows| && !LinkHolds(rows, i, expected, previous, key)
  {
    hide VerifyEventHash;
    i := 0;
    if RowHolds(rows[0], expected, previous, key) {
      var k := BrokenLink(rows[1..], expected + 1, rows[0].event.hash, key);
      i := k + 1;
    }
  }

  /** Range verification: a range is refused as such only if it is inverted; otherwise it verifies exactly
      if its predecessor is there, for a range that has one, and every row of it links. */
  lemma RangeMeaning(rows: seq<Record>, from: nat, to: nat, key: string)
    ensures var first := if from == 0 then 1 else from;
            var selected := Window(rows, first, to);
            var verdict := RangeVerdict(rows, from, to, key);
            if to != 0 && to < first then verdict == Err(Validation)
            else if first > 1 && FindRow(rows, first - 1).None? then verdict == Err(Integrity)
            else
              var before := if first == 1 then Genesis else FindRow(rows, first - 1).value.event.hash;
              verdict == if AllLink(selected, first, before, key) then Ok(()) else Err(Integrity)
  {
    hide FindRow, Window, ChainHolds, AllLink;
    var first := if from == 0 then 1 else from;
    if first == 1 || FindRow(rows, first - 1).Some? {
      var before := if first == 1 then Genesis else FindRow(rows, first - 1).value.event.hash;
      var selected := Window(rows, first, to);
      ChainMeaning(selected, first, before, key);
    }
  }

  // ---------------------------------------------------------------- main results

  /** Verifying [a,c] is verifying [a,b] and then [b+1,c], whenever row b is there; `c == 0` stands
      for the unbounded range. */
  lemma RangesCompose(rows: seq<Record>, a: nat, b: nat, c: nat, key: string)
    requires Ordered(rows) && a <= b && 1 <= b && (c == 0 || b < c)
    requires FindRow(rows, b).Some?
    ensures RangeVerdict(rows, a, c, key).Ok? <==>
            RangeVerdict(rows, a, b, key).Ok? && RangeVerdict(rows, b + 1, c, key).Ok?
  {
    hide VerifyEventHash, VerifyReceipt, Ordered, Window, FindRow;
    var first := First(a);
    var previous := Predecessor(rows, first);
    FoundRow(rows, b);
    if previous.Some? {
      var left, right := Window(rows, first, b), Window(rows, b + 1, c);
      WindowSplit(rows, first, b, c);
      WindowLast(rows, first, b);
      ChainConcat(left, right, first, previous.value, key);
      if ChainHolds(left, first, previous.value, key) {
        ChainAt(left, first, previous.value, key, |left| - 1);
        assert first + |left| == b + 1;
      }
    }
  }

  /** A log that chains from the beginning verifies over every range whose predecessor exists, and
      over no other. */
  lemma ChainedLogVerifies(rows: seq<Record>, from: nat, to: nat, key: string)
    requires ChainHolds(rows, 1, Genesis, key)
    ensures RangeVerdict(rows, from, to, key).Ok? <==>
            (to == 0 || First(from) <= to) && First(from) - 1 <= |rows|
  {
    hide VerifyEventHash, VerifyReceipt, Ordered, Window, FindRow, ChainHolds;
    var first := First(from);
    ChainFind(rows, 1, Genesis, key, first - 1);
    if first - 1 <= |rows| {
      var previous := LastHash(rows[..first - 1], Genesis);
      assert Predecessor(rows, first) == Some(previous);
      SuffixVerifies(rows, first, key);
      if to != 0 && first <= to {
        ChainOrdered(rows, 1, Genesis, key);
        WindowSplit(rows, first, to, 0);
        ChainConcat(Window(rows, first, to), Window(rows, to + 1, 0), first, previous, key);
      }
    }
  }

  lemma SuffixVerifies(rows: seq<Record>, first: nat, key: string)
    requires ChainHolds(rows, 1, Genesis, key) && 1 <= first && first - 1 <= |rows|
    ensures ChainHolds(Window(rows, first, 0), first, LastHash(rows[..first - 1], Genesis), key)
  {
    hide VerifyEventHash, VerifyReceipt, Window;
    var tail := rows[first - 1..];
    ChainConcat(rows[..first - 1], tail, 1, Genesis, key);
    assert rows == rows[..first - 1] + tail;
    WindowSlice(rows, 1, Genesis, key, first);
  }

  /** The head determines history: two tables that both verify from the start and end in the same
      head hash hold the same events, up to payload spelling. */
  lemma {:induction false} HeadDeterminesHistory(a: seq<Record>, b: seq<Record>, keyA: string, keyB: string)
    requires RangeVerdict(a, 1, 0, keyA).Ok? && RangeVerdict(b, 1, 0, keyB).Ok?
    requires forall r :: r in a + b ==> r.event.sequence > 0
    requires LastHash(a, Genesis) == LastHash(b, Genesis)
    ensures |a| == |b| && forall i :: 0 <= i < |a| ==> SameEvent(a[i].event, b[i].event)
  {
    WindowEverything(a, 1);
    WindowEverything(b, 1);
    HeadDeterminesChain(a, b, keyA, keyB);
  }

  lemma {:induction false} HeadDeterminesChain(a: seq<Record>, b: seq<Record>, keyA: string, keyB: string)
    requires ChainHolds(a, 1, Genesis, keyA) && ChainHolds(b, 1, Genesis, keyB)
    requires LastHash(a, Genesis) == LastHash(b, Genesis)
    ensures |a| == |b| && forall i :: 0 <= i < |a| ==> SameEvent(a[i].event, b[i].event)
  {
    if a != [] {
      ChainAt(a, 1, Genesis, keyA, |a| - 1);
    }
    if b != [] {
      ChainAt(b, 1, Genesis, keyB, |b| - 1);
    }
    if a != [] && b != [] {
      var n := |a| - 1;
      ChainConcat(a[..n], a[n..], 1, Genesis, keyA);
      assert a == a[..n] + a[n..];
      ChainConcat(b[..n], b[n..], 1, Genesis, keyB);
      assert b == b[..n] + b[n..];
      HashIdentifiesEvent(a[n].event, b[n].event);
      HeadDeterminesChain(a[..n], b[..n], keyA, keyB);
    }
  }
}
