/** The bounded tee of a terminal's output: the raw bytes since the screen was last cleared. */
module Terminal {
  type Byte = x: int | 0 <= x < 256

  const ESC: Byte := 27

  /** Erase the screen, erase the scrollback, and the two ways to the alternate screen. */
  const CLEARS: seq<seq<Byte>> := [
    [ESC, 91, 50, 74],
    [ESC, 91, 51, 74],
    [ESC, 91, 63, 49, 48, 52, 57, 104],
    [ESC, 91, 63, 52, 55, 104]
  ]

  const TEE_CAP := 8192

  // ---------------------------------------------------------------- clear sequences

  predicate OccursAt(p: seq<Byte>, s: seq<Byte>, i: nat) {
    i + |s| <= |p| && p[i..i + |s|] == s
  }

  /** A clear sequence ends just before offset `e`. */
  predicate ClearEndsAt(p: seq<Byte>, e: nat) {
    exists k :: 0 <= k < |CLEARS| && ClearOfKindEndsAt(p, e, k)
  }

  predicate ClearOfKindEndsAt(p: seq<Byte>, e: nat, k: nat)
    requires k < |CLEARS|
  {
    |CLEARS[k]| <= e && OccursAt(p, CLEARS[k], e - |CLEARS[k]|)
  }

  /** The greatest offset up to `e` at which a clear sequence ends, or -1. */
  function LastClearUpTo(p: seq<Byte>, e: nat): (r: int)
    ensures r == -1 || (0 <= r <= e && r <= |p| && ClearEndsAt(p, r))
    ensures forall f: nat :: r < f <= e ==> !ClearEndsAt(p, f)
  {
    if ClearEndsAt(p, e) then e
    else if e == 0 then -1
    else LastClearUpTo(p, e - 1)
  }

  function LastClear(p: seq<Byte>): (r: int)
    ensures -1 <= r <= |p|
  {
    LastClearUpTo(p, |p|)
  }

  /** The four ways a screen is cleared: ESC [ 2 J, ESC [ 3 J, ESC [ ? 1 0 4 9 h and ESC [ ? 4 7 h. */
  lemma ClearSequences(p: seq<Byte>, e: nat)
    ensures ClearEndsAt(p, e) <==>
              || EndsWith(p, e, [27, 91, 50, 74])
              || EndsWith(p, e, [27, 91, 51, 74])
              || EndsWith(p, e, [27, 91, 63, 49, 48, 52, 57, 104])
              || EndsWith(p, e, [27, 91, 63, 52, 55, 104])
  {
    assert CLEARS[0] == [27, 91, 50, 74] && CLEARS[1] == [27, 91, 51, 74];
    assert CLEARS[2] == [27, 91, 63, 49, 48, 52, 57, 104] && CLEARS[3] == [27, 91, 63, 52, 55, 104];
    forall k | 0 <= k < |CLEARS| ensures ClearOfKindEndsAt(p, e, k) <==> EndsWith(p, e, CLEARS[k]) {
    }
    hide ClearOfKindEndsAt, EndsWith;
    assert ClearEndsAt(p, e) <==>
           || ClearOfKindEndsAt(p, e, 0) || ClearOfKindEndsAt(p, e, 1)
           || ClearOfKindEndsAt(p, e, 2) || ClearOfKindEndsAt(p, e, 3);
  }

  predicate EndsWith(p: seq<Byte>, e: nat, s: seq<Byte>) {
    |s| <= e <= |p| && p[e - |s|..e] == s
  }

  lemma ClearsEndInside(p: seq<Byte>)
    ensures forall e: nat :: ClearEndsAt(p, e) ==> 4 <= e <= |p|
  {
  }

  /** The library search: the last place a sequence occurs, or -1. */
  function LastIndex(p: seq<Byte>, s: seq<Byte>, from: nat): (r: int)
    ensures r == -1 || (0 <= r <= from && OccursAt(p, s, r))
    ensures forall i: nat :: r < i <= from ==> !OccursAt(p, s, i)
  {
    if OccursAt(p, s, from) then from else if from == 0 then -1 else LastIndex(p, s, from - 1)
  }

  /** It is where a clear sequence ends and none ends later, or there is none. */
  lemma LastClearMeaning(p: seq<Byte>)
    ensures LastClear(p) < 0 ==> forall e: nat :: !ClearEndsAt(p, e)
    ensures LastClear(p) >= 0 ==> ClearEndsAt(p, LastClear(p))
    ensures forall e: nat :: ClearEndsAt(p, e) ==> e <= LastClear(p)
  {
    ClearsEndInside(p);
  }

  /** The greatest end among the first `k` sequences. */
  ghost predicate Best(p: seq<Byte>, k: nat, best: int)
    requires k <= |CLEARS|
  {
    && (best == -1 || (0 <= best <= |p| && ClearEndsAt(p, best)))
    && forall j: nat, e: nat :: j < k && ClearOfKindEndsAt(p, e, j) ==> e <= best
  }

  /** Where a clear sequence of one kind ends last, or -1. */
  function LastOfKind(p: seq<Byte>, k: nat): int
    requires k < |CLEARS|
  {
    var idx := LastIndex(p, CLEARS[k], |p|);
    if idx >= 0 then idx + |CLEARS[k]| else -1
  }

  lemma LastOfKindMeaning(p: seq<Byte>, k: nat)
    requires k < |CLEARS|
    ensures var end := LastOfKind(p, k);
            && (end == -1 || (0 <= end <= |p| && ClearOfKindEndsAt(p, end, k)))
            && forall e: nat :: ClearOfKindEndsAt(p, e, k) ==> e <= end
  {
    var s := CLEARS[k];
    hide LastIndex;
    forall e: nat | ClearOfKindEndsAt(p, e, k) ensures e <= LastOfKind(p, k) {
      assert OccursAt(p, s, e - |s|);
    }
  }

  lemma BestSoFar(p: seq<Byte>, k: nat, best: int)
    requires k < |CLEARS| && Best(p, k, best)
    ensures Best(p, k + 1, if LastOfKind(p, k) > best then LastOfKind(p, k) else best)
  {
    LastOfKindMeaning(p, k);
    hide LastOfKind, ClearOfKindEndsAt;
    var end := LastOfKind(p, k);
    assert end != -1 ==> ClearEndsAt(p, end);
    hide ClearEndsAt;
  }

  lemma BestOfAll(p: seq<Byte>, best: int)
    requires Best(p, |CLEARS|, best)
    ensures best == LastClear(p)
  {
    hide ClearOfKindEndsAt;
    forall e: nat | ClearEndsAt(p, e) ensures e <= best {
      var k: nat :| k < |CLEARS| && ClearOfKindEndsAt(p, e, k);
    }
    hide ClearEndsAt, LastClearUpTo;
  }

  method LastClearIndex(p: seq<Byte>) returns (best: int)
    ensures best == LastClear(p)
  {
    hide Best, LastIndex, ClearEndsAt, ClearOfKindEndsAt, OccursAt;
    best := -1;
    assert Best(p, 0, best) by {
      NoneSoFar(p);
    }
    for k := 0 to |CLEARS|
      invariant Best(p, k, best)
    {
      BestSoFar(p, k, best);
      var idx := LastIndex(p, CLEARS[k], |p|);
      if idx >= 0 {
        var end := idx + |CLEARS[k]|;
        if end > best {
          best := end;
        }
      }
      BestIsNatural(p, k + 1, best);
    }
    BestOfAll(p, best);
  }

  lemma NoneSoFar(p: seq<Byte>)
    ensures Best(p, 0, -1)
  {
  }

  lemma BestIsNatural(p: seq<Byte>, k: nat, best: int)
    requires k <= |CLEARS|
    ensures Best(p, k, best) ==> best >= -1
  {
  }

  // ---------------------------------------------------------------- the tee

  function Tail(s: seq<Byte>): (r: seq<Byte>)
    ensures |r| == if |s| > TEE_CAP then TEE_CAP else |s|
    ensures r == s[|s| - |r|..]
  {
    if |s| > TEE_CAP then s[|s| - TEE_CAP..] else s
  }

  /** The whole output since the last clear, writes never being truncated. */
  function Since(writes: seq<seq<Byte>>): seq<Byte> {
    if writes == [] then []
    else Extended(Since(writes[..|writes| - 1]), writes[|writes| - 1])
  }

  /** Output followed by one more write. */
  function Extended(text: seq<Byte>, p: seq<Byte>): seq<Byte> {
    if LastClear(p) >= 0 then p[LastClear(p)..] else text + p
  }

  function Flatten(writes: seq<seq<Byte>>): seq<Byte> {
    if writes == [] then [] else Flatten(writes[..|writes| - 1]) + writes[|writes| - 1]
  }

  class OutputTee {
    var buf: seq<Byte>
    ghost var writes: seq<seq<Byte>>

    /** However often it was truncated on the way, the buffer is the end of the whole output. */
    ghost predicate Valid()
      reads this
    {
      buf == Tail(Since(writes))
    }

    constructor ()
      ensures Valid() && writes == []
    {
      buf, writes := [], [];
    }

    method Write(p: seq<Byte>) returns (n: nat)
      requires Valid()
      modifies this
      ensures Valid() && writes == old(writes) + [p] && n == |p|
      ensures var text := if LastClear(p) >= 0 then p[LastClear(p)..] else old(buf) + p;
              buf == if |text| > 8192 then text[|text| - 8192..] else text
    {
      hide LastClear, Since, Tail;
      TailOnce(Since(writes), p);
      SinceSnoc(writes, p);
      ghost var text := Extended(buf, p);
      Truncated(text);
      Keep(p);
      writes := writes + [p];
      n := |p|;
    }

    method Keep(p: seq<Byte>)
      modifies this`buf
      ensures var text := if LastClear(p) >= 0 then p[LastClear(p)..] else old(buf) + p;
              buf == if |text| > 8192 then text[|text| - 8192..] else text
    {
      hide LastClear;
      var idx := LastClearIndex(p);
      if idx >= 0 {
        buf := p[idx..];
      } else {
        buf := buf + p;
      }
      if |buf| > TEE_CAP {
        buf := buf[|buf| - TEE_CAP..];
      }
    }

    method Snapshot() returns (out: seq<Byte>)
      requires Valid()
      ensures out == Tail(Since(writes)) && out == buf && |out| <= 8192
    {
      out := buf;
    }
  }

  lemma Truncated(s: seq<Byte>)
    ensures Tail(s) == if |s| > TEE_CAP then s[|s| - TEE_CAP..] else s
  {
  }

  /** Truncating what was already truncated is truncating once. */
  lemma TailOnce(text: seq<Byte>, p: seq<Byte>)
    ensures Tail(Extended(Tail(text), p)) == Tail(Extended(text, p))
  {
    hide LastClear;
    if LastClear(p) < 0 {
      TailOfConcat(text, p);
    }
  }

  lemma TailOfConcat(text: seq<Byte>, p: seq<Byte>)
    ensures Tail(Tail(text) + p) == Tail(text + p)
  {
    if |text| > TEE_CAP {
      var whole, cut := text + p, Tail(text) + p;
      var n := |text| - TEE_CAP;
      assert cut == whole[n..];
      SuffixTail(whole, n);
    }
  }

  lemma SuffixTail(s: seq<Byte>, n: nat)
    requires n + TEE_CAP <= |s|
    ensures Tail(s[n..]) == Tail(s)
  {
  }

  lemma SinceSnoc(writes: seq<seq<Byte>>, p: seq<Byte>)
    ensures Since(writes + [p]) == Extended(Since(writes), p)
  {
    hide Extended;
    assert (writes + [p])[..|writes|] == writes;
  }

  /** What the output since the last clear is: the end of the write that cleared last, and all the
      writes after it; or every write, if none cleared. */
  lemma {:induction false} SinceMeaning(writes: seq<seq<Byte>>, k: nat)
    requires k <= |writes|
    requires forall i :: k <= i < |writes| ==> LastClear(writes[i]) < 0
    requires k > 0 ==> LastClear(writes[k - 1]) >= 0
    ensures Since(writes) ==
            (if k == 0 then [] else writes[k - 1][LastClear(writes[k - 1])..]) + Flatten(writes[k..])
    decreases |writes|
  {
    hide LastClear;
    var n := |writes|;
    if k < n {
      var tail := writes[k..];
      assert tail[..|tail| - 1] == writes[..n - 1][k..] && tail[|tail| - 1] == writes[n - 1];
      SinceMeaning(writes[..n - 1], k);
    } else {
      assert writes[k..] == [];
    }
  }

  // ---------------------------------------------------------------- split writes

  /** An escape byte starts every clear sequence and occurs nowhere else in it, so that clear sequences
      never overlap. */
  lemma ClearShape(k: nat, j: nat)
    requires k < |CLEARS| && j < |CLEARS[k]|
    ensures CLEARS[k][j] == ESC <==> j == 0
  {
  }

  lemma ClearInSecond(p: seq<Byte>, q: seq<Byte>, e: nat)
    ensures ClearEndsAt(q, e) ==> ClearEndsAt(p + q, |p| + e)
  {
    if ClearEndsAt(q, e) {
      var k :| 0 <= k < |CLEARS| && ClearOfKindEndsAt(q, e, k);
      assert q[e - |CLEARS[k]|..e] == (p + q)[|p| + e - |CLEARS[k]|..|p| + e];
      assert ClearOfKindEndsAt(p + q, |p| + e, k);
    }
  }

  lemma ClearInFirst(p: seq<Byte>, q: seq<Byte>, e: nat)
    requires e <= |p|
    ensures ClearEndsAt(p, e) <==> ClearEndsAt(p + q, e)
  {
    forall k | 0 <= k < |CLEARS| ensures ClearOfKindEndsAt(p, e, k) <==> ClearOfKindEndsAt(p + q, e, k) {
      if |CLEARS[k]| <= e {
        assert p[e - |CLEARS[k]|..e] == (p + q)[e - |CLEARS[k]|..e];
      }
    }
  }

  /** Once the second part clears, no clear ends later that straddles the boundary. */
  lemma NoStraddleAfter(p: seq<Byte>, q: seq<Byte>, e: nat, f: nat)
    requires ClearEndsAt(q, e) && e < f && ClearEndsAt(p + q, |p| + f)
    ensures ClearEndsAt(q, f)
  {
    var k :| 0 <= k < |CLEARS| && ClearOfKindEndsAt(q, e, k);
    var m :| 0 <= m < |CLEARS| && ClearOfKindEndsAt(p + q, |p| + f, m);
    if f < |CLEARS[m]| {
      EscapeInside(p, q, e, f, k, m);
    } else {
      assert q[f - |CLEARS[m]|..f] == (p + q)[|p| + f - |CLEARS[m]|..|p| + f];
      assert ClearOfKindEndsAt(q, f, m);
    }
  }

  /** A straddling clear sequence cannot end after one of the second part. */
  lemma EscapeInside(p: seq<Byte>, q: seq<Byte>, e: nat, f: nat, k: nat, m: nat)
    requires k < |CLEARS| && m < |CLEARS| && e < f && ClearOfKindEndsAt(q, e, k)
    requires ClearOfKindEndsAt(p + q, |p| + f, m)
    ensures f >= |CLEARS[m]|
  {
    if f < |CLEARS[m]| {
      var start, offset := e - |CLEARS[k]|, e - |CLEARS[k]| + |CLEARS[m]| - f;
      assert q[start] == q[start..e][0];
      ClearShape(k, 0);
      assert (p + q)[|p| + start] == q[start];
      assert (p + q)[|p| + start] == (p + q)[|p| + f - |CLEARS[m]|..|p| + f][offset];
      ClearShape(m, offset);
    }
  }

  /** The last clear of two parts together. */
  lemma LastClearOfBoth(p: seq<Byte>, q: seq<Byte>)
    ensures LastClear(q) >= 0 ==> LastClear(p + q) == |p| + LastClear(q)
    ensures LastClear(q) < 0 && LastClear(p + q) <= |p| ==> LastClear(p + q) == LastClear(p)
  {
    var c, d := LastClear(q), LastClear(p + q);
    if c >= 0 {
      ClearInSecond(p, q, c);
      if d > |p| + c {
        NoStraddleAfter(p, q, c, d - |p|);
      }
    } else if d <= |p| {
      if d >= 0 {
        ClearInFirst(p, q, d);
      }
      if LastClear(p) >= 0 {
        ClearInFirst(p, q, LastClear(p));
      }
    }
  }

  /** Whether a write may be split after its first part without anyone noticing. */
  predicate MaySplit(p: seq<Byte>, q: seq<Byte>) {
    LastClear(q) >= 0 || LastClear(p + q) <= |p| || |p + q| - LastClear(p + q) >= TEE_CAP
  }

  /** A clear sequence split between two writes is missed: two writes leave what one write of both would
      leave if and only if no clear straddles them last, or enough output follows it to fill the buffer. */
  lemma SplitWriteIff(text: seq<Byte>, p: seq<Byte>, q: seq<Byte>)
    ensures Tail(Extended(Tail(Extended(text, p)), q)) == Tail(Extended(text, p + q)) <==> MaySplit(p, q)
  {
    TailOnce(Extended(text, p), q);
    LastClearOfBoth(p, q);
    hide LastClear, Tail;
    var c, d := LastClear(q), LastClear(p + q);
    if c >= 0 {
      assert (p + q)[|p| + c..] == q[c..];
    } else if d <= |p| {
      SplitHarmless(text, p, q);
    } else {
      StraddleCuts(text, p, q);
    }
  }

  lemma SplitHarmless(text: seq<Byte>, p: seq<Byte>, q: seq<Byte>)
    requires LastClear(q) < 0 && LastClear(p + q) == LastClear(p)
    ensures Extended(Extended(text, p), q) == Extended(text, p + q)
  {
    hide LastClear;
    if LastClear(p) >= 0 {
      assert (p + q)[LastClear(p)..] == p[LastClear(p)..] + q;
    } else {
      assert text + p + q == text + (p + q);
    }
  }

  lemma StraddleCuts(text: seq<Byte>, p: seq<Byte>, q: seq<Byte>)
    requires LastClear(q) < 0 && LastClear(p + q) > |p|
    ensures Tail(Extended(Extended(text, p), q)) == Tail(Extended(text, p + q)) <==>
            |p + q| - LastClear(p + q) >= TEE_CAP
  {
    hide LastClear;
    var k := LastClear(p + q) - |p|;
    var head := Extended(text, p);
    assert Extended(text, p + q) == q[k..];
    assert Extended(head, q) == head + q;
    assert (head + q)[|head| + k..] == q[k..];
    SameTail(head + q, |head| + k);
  }

  /** A sequence and a proper suffix of it have the same tail exactly when the suffix fills it. */
  lemma SameTail(s: seq<Byte>, n: nat)
    requires 0 < n <= |s|
    ensures Tail(s) == Tail(s[n..]) <==> |s| - n >= TEE_CAP
  {
    if |s| - n >= TEE_CAP {
      assert s[n..][|s| - n - TEE_CAP..] == s[|s| - TEE_CAP..];
    }
  }

  /** It shows: the sequence that erases the screen, cut in two, leaves both halves where it should leave nothing. */
  lemma CutClearIsMissed()
    ensures var p: seq<Byte>, q: seq<Byte> := [ESC, 91], [50, 74];
            && !MaySplit(p, q)
            && Tail(Extended(Tail(Extended([], p)), q)) == p + q && Tail(Extended([], p + q)) == []
  {
    var p: seq<Byte>, q: seq<Byte> := [ESC, 91], [50, 74];
    assert p + q == CLEARS[0];
    ShortHasNoClear(p);
    ShortHasNoClear(q);
    WholeIsClear(0);
    hide LastClear, Tail;
    assert Extended([], p) == p && Extended(p, q) == p + q;
    assert Extended([], p + q) == [];
    Truncated(p);
    Truncated(p + q);
    Truncated([]);
  }

  lemma ShortHasNoClear(p: seq<Byte>)
    requires |p| < 4
    ensures LastClear(p) < 0
  {
    ClearsEndInside(p);
    LastClearMeaning(p);
    hide LastClear, ClearEndsAt;
  }

  lemma WholeIsClear(k: nat)
    requires k < |CLEARS|
    ensures LastClear(CLEARS[k]) == |CLEARS[k]|
  {
    var s := CLEARS[k];
    assert s[0..|s|] == s;
    assert ClearOfKindEndsAt(s, |s|, k);
    LastClearMeaning(s);
    hide ClearOfKindEndsAt, LastClearUpTo;
    assert ClearEndsAt(s, |s|);
  }
}
