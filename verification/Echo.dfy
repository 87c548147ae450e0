/** Recognising a prompt that was typed into a terminal in what the terminal shows back.  Which escape
    sequences are stripped, which characters are letters or digits and how they fold to lower case are
    parameters. */
module Echo {
  datatype Script = Script(strip: string -> string, alnum: char -> bool, lower: char -> char)

  predicate Contains(s: string, part: string) {
    exists i :: 0 <= i <= |s| && HasAt(s, part, i)
  }

  predicate HasAt(s: string, part: string, i: nat) {
    i + |part| <= |s| && s[i..i + |part|] == part
  }

  // ---------------------------------------------------------------- normal form and tokens

  /** The letters and digits of an already stripped text, in lower case. */
  function Kept(script: Script, s: string): string {
    if s == "" then ""
    else Kept(script, s[..|s| - 1]) + if script.alnum(s[|s| - 1]) then [script.lower(s[|s| - 1])] else ""
  }

  /** The maximal runs of letters and digits before the end, and the run that reaches the end. */
  function Runs(script: Script, s: string): (seq<string>, string) {
    if s == "" then ([], "")
    else
      var (tokens, current) := Runs(script, s[..|s| - 1]);
      var c := s[|s| - 1];
      if script.alnum(c) then (tokens, current + [script.lower(c)])
      else if current != "" then (tokens + [current], "")
      else (tokens, "")
  }

  function Tokens(script: Script, text: string): seq<string> {
    var (tokens, current) := Runs(script, script.strip(text));
    if current != "" then tokens + [current] else tokens
  }

  function Normal(script: Script, text: string): string {
    Kept(script, script.strip(text))
  }

  function Joined(tokens: seq<string>): string {
    if tokens == [] then "" else Joined(tokens[..|tokens| - 1]) + tokens[|tokens| - 1]
  }

  method NormalizeForMatch(script: Script, text: string) returns (b: string)
    ensures b == Normal(script, text)
  {
    var s := script.strip(text);
    b := "";
    for i := 0 to |s|
      invariant b == Kept(script, s[..i])
    {
      assert s[..i + 1][..i] == s[..i];
      if script.alnum(s[i]) {
        b := b + [script.lower(s[i])];
      }
    }
    assert s[..|s|] == s;
  }

  method Tokenize(script: Script, text: string) returns (tokens: seq<string>)
    ensures tokens == Tokens(script, text)
  {
    var s := script.strip(text);
    tokens := [];
    var current := "";
    for i := 0 to |s|
      invariant (tokens, current) == Runs(script, s[..i])
    {
      assert s[..i + 1][..i] == s[..i];
      if script.alnum(s[i]) {
        current := current + [script.lower(s[i])];
      } else if |current| > 0 {
        tokens := tokens + [current];
        current := "";
      }
    }
    assert s[..|s|] == s;
    if |current| > 0 {
      tokens := tokens + [current];
    }
  }

  lemma JoinedSnoc(tokens: seq<string>, token: string)
    ensures Joined(tokens + [token]) == Joined(tokens) + token
  {
    assert (tokens + [token])[..|tokens|] == tokens;
  }

  lemma {:induction false} RunsJoin(script: Script, s: string)
    ensures Joined(Runs(script, s).0) + Runs(script, s).1 == Kept(script, s)
    ensures forall t :: t in Runs(script, s).0 ==> t != ""
  {
    if s != "" {
      var (tokens, current) := Runs(script, s[..|s| - 1]);
      RunsJoin(script, s[..|s| - 1]);
      JoinedSnoc(tokens, current);
    }
  }

  /** The normal form of a text is its tokens, none of them empty, one after another. */
  lemma NormalIsJoinedTokens(script: Script, text: string)
    ensures Joined(Tokens(script, text)) == Normal(script, text)
    ensures forall t :: t in Tokens(script, text) ==> t != ""
  {
    var (tokens, current) := Runs(script, script.strip(text));
    RunsJoin(script, script.strip(text));
    JoinedSnoc(tokens, current);
  }

  // ---------------------------------------------------------------- decoration

  /** `shown` is `text` with characters that are no letters or digits put in anywhere. */
  predicate Decorates(script: Script, shown: string, text: string) {
    if shown == "" then text == ""
    else
      || (text != "" && shown[|shown| - 1] == text[|text| - 1]
          && Decorates(script, shown[..|shown| - 1], text[..|text| - 1]))
      || (!script.alnum(shown[|shown| - 1]) && Decorates(script, shown[..|shown| - 1], text))
  }

  lemma {:induction false} DecorationIsDropped(script: Script, shown: string, text: string)
    requires Decorates(script, shown, text)
    ensures Kept(script, shown) == Kept(script, text)
  {
    if shown != "" {
      if text != "" && shown[|shown| - 1] == text[|text| - 1]
         && Decorates(script, shown[..|shown| - 1], text[..|text| - 1]) {
        DecorationIsDropped(script, shown[..|shown| - 1], text[..|text| - 1]);
      } else {
        DecorationIsDropped(script, shown[..|shown| - 1], text);
      }
    }
  }

  lemma {:induction false} KeptConcat(script: Script, a: string, b: string)
    ensures Kept(script, a + b) == Kept(script, a) + Kept(script, b)
  {
    if b == "" {
      assert a + b == a;
    } else {
      assert (a + b)[..|a + b| - 1] == a + b[..|b| - 1];
      KeptConcat(script, a, b[..|b| - 1]);
    }
  }

  /** Every prefix of the normal form is the normal form of a prefix. */
  lemma {:induction false} KeptPrefix(script: Script, s: string, n: nat) returns (i: nat)
    requires n <= |Kept(script, s)|
    ensures i <= |s| && Kept(script, s[..i]) == Kept(script, s)[..n]
  {
    if n == |Kept(script, s)| {
      i := |s|;
      assert s[..i] == s;
    } else {
      i := KeptPrefix(script, s[..|s| - 1], n);
      assert s[..|s| - 1][..i] == s[..i];
    }
  }

  /** Normal forms match exactly when some stretch of the stripped screen has the letters and digits of
      the stripped text, in its order and with nothing but other characters between them. */
  lemma NormalMatchIff(script: Script, screen: string, text: string)
    ensures Contains(Normal(script, screen), Normal(script, text)) <==>
            exists i, j :: 0 <= i <= j <= |script.strip(screen)|
              && Kept(script, script.strip(screen)[i..j]) == Normal(script, text)
  {
    var s, t := script.strip(screen), Normal(script, text);
    if Contains(Kept(script, s), t) {
      var n :| 0 <= n <= |Kept(script, s)| && HasAt(Kept(script, s), t, n);
      var i, j := NormalStretch(script, s, n, n + |t|);
      assert Kept(script, s[i..j]) == t;
    }
    forall i, j | 0 <= i <= j <= |s| && Kept(script, s[i..j]) == t ensures Contains(Kept(script, s), t) {
      StretchIsContained(script, s, i, j);
    }
  }

  lemma NormalStretch(script: Script, s: string, n: nat, m: nat) returns (i: nat, j: nat)
    requires n <= m <= |Kept(script, s)|
    ensures i <= j <= |s| && Kept(script, s[i..j]) == Kept(script, s)[n..m]
  {
    j := KeptPrefix(script, s, m);
    i := KeptPrefix(script, s[..j], n);
    assert s[..j] == s[..j][..i] + s[i..j];
    KeptConcat(script, s[..j][..i], s[i..j]);
    assert Kept(script, s[..j]) == Kept(script, s)[..m];
    assert Kept(script, s)[n..m] == Kept(script, s)[..m][n..];
  }

  lemma StretchIsContained(script: Script, s: string, i: nat, j: nat)
    requires i <= j <= |s|
    ensures Contains(Kept(script, s), Kept(script, s[i..j]))
  {
    var a, b, c := s[..i], s[i..j], s[j..];
    assert s == a + b + c;
    KeptConcat(script, a + b, c);
    KeptConcat(script, a, b);
    assert HasAt(Kept(script, s), Kept(script, b), |Kept(script, a)|);
  }

  // ---------------------------------------------------------------- ordered matches

  /** What is looked for, in order: single tokens, or pairs of neighbouring tokens. */
  datatype Pattern = Singles(target: seq<string>) | Pairs(target: seq<string>)

  function Count(p: Pattern): nat {
    if p.Singles? then |p.target| else if p.target == [] then 0 else |p.target| - 1
  }

  /** How many places there are to look at. */
  function Places(p: Pattern, buf: seq<string>): nat {
    if p.Singles? then |buf| else if buf == [] then 0 else |buf| - 1
  }

  predicate Hit(p: Pattern, buf: seq<string>, j: nat, i: nat)
    requires j < Count(p) && i < Places(p, buf)
  {
    match p
    case Singles(target) => Contains(buf[i], target[j]) || Contains(target[j], buf[i])
    case Pairs(target) =>
      && (buf[i] == target[j] || Contains(buf[i], target[j]))
      && (buf[i + 1] == target[j + 1] || Contains(buf[i + 1], target[j + 1]))
  }

  /** The first place from `from` on that the `j`-th item hits, or the number of places. */
  function FirstHit(p: Pattern, buf: seq<string>, j: nat, from: nat): (i: nat)
    requires j < Count(p) && from <= Places(p, buf)
    ensures from <= i <= Places(p, buf)
    ensures i < Places(p, buf) ==> Hit(p, buf, j, i)
    ensures forall k :: from <= k < i ==> !Hit(p, buf, j, k)
    decreases Places(p, buf) - from
  {
    if from == Places(p, buf) || Hit(p, buf, j, from) then from else FirstHit(p, buf, j, from + 1)
  }

  datatype Match = Match(item: nat, place: nat)

  /** Take the items from the `j`-th in turn; each that hits is matched at the first place left for it. */
  function Greedy(p: Pattern, buf: seq<string>, j: nat, from: nat): seq<Match>
    requires j <= Count(p) && from <= Places(p, buf)
    decreases Count(p) - j
  {
    if j == Count(p) then []
    else
      var i := FirstHit(p, buf, j, from);
      if i == Places(p, buf) then Greedy(p, buf, j + 1, from)
      else [Match(j, i)] + Greedy(p, buf, j + 1, i + 1)
  }

  /** Witnesses of a match: items and places both strictly increasing, each item hitting its place. */
  predicate Witnesses(p: Pattern, buf: seq<string>, found: seq<Match>) {
    && (forall k :: 0 <= k < |found| ==>
          found[k].item < Count(p) && found[k].place < Places(p, buf) && Hit(p, buf, found[k].item, found[k].place))
    && (forall k, l :: 0 <= k < l < |found| ==> found[k].item < found[l].item && found[k].place < found[l].place)
  }

  lemma {:induction false} GreedyWitnesses(p: Pattern, buf: seq<string>, j: nat, from: nat)
    requires j <= Count(p) && from <= Places(p, buf)
    ensures var found := Greedy(p, buf, j, from);
            && Witnesses(p, buf, found) && |found| <= Count(p) - j
            && forall k :: 0 <= k < |found| ==> j <= found[k].item && from <= found[k].place
    decreases Count(p) - j
  {
    hide Hit, FirstHit, Greedy, Witnesses;
    NoItemsLeft(p, buf, from);
    if j < Count(p) {
      var i := GreedyStep(p, buf, j, from);
      if i == Places(p, buf) {
        GreedyWitnesses(p, buf, j + 1, from);
      } else {
        GreedyWitnesses(p, buf, j + 1, i + 1);
        OneMoreWitness(p, buf, Match(j, i), Greedy(p, buf, j + 1, i + 1));
      }
    }
  }

  /** One turn of the search. */
  lemma GreedyStep(p: Pattern, buf: seq<string>, j: nat, from: nat) returns (i: nat)
    requires j < Count(p) && from <= Places(p, buf)
    ensures from <= i <= Places(p, buf) && (i < Places(p, buf) ==> Hit(p, buf, j, i))
    ensures forall k :: from <= k < i ==> !Hit(p, buf, j, k)
    ensures Greedy(p, buf, j, from) ==
            if i == Places(p, buf) then Greedy(p, buf, j + 1, from) else [Match(j, i)] + Greedy(p, buf, j + 1, i + 1)
  {
    hide Hit;
    i := FirstHit(p, buf, j, from);
  }

  lemma NoItemsLeft(p: Pattern, buf: seq<string>, from: nat)
    requires from <= Places(p, buf)
    ensures Greedy(p, buf, Count(p), from) == [] && Witnesses(p, buf, [])
  {
  }

  lemma OneMoreWitness(p: Pattern, buf: seq<string>, m: Match, rest: seq<Match>)
    requires m.item < Count(p) && m.place < Places(p, buf) && Hit(p, buf, m.item, m.place) && Witnesses(p, buf, rest)
    requires forall k :: 0 <= k < |rest| ==> m.item < rest[k].item && m.place < rest[k].place
    ensures Witnesses(p, buf, [m] + rest)
  {
    hide Hit;
  }

  /** Every item can be placed, from a place on, at strictly increasing places. */
  predicate AllPlaced(p: Pattern, buf: seq<string>, j: nat, from: nat, places: seq<nat>)
    requires j <= Count(p)
  {
    && |places| == Count(p) - j
    && (forall k :: 0 <= k < |places| ==> from <= places[k] < Places(p, buf) && Hit(p, buf, j + k, places[k]))
    && (forall k, l :: 0 <= k < l < |places| ==> places[k] < places[l])
  }

  /** Taking the first place left never loses: if all items can be placed in order, all are matched. */
  lemma {:induction false} GreedyIsComplete(p: Pattern, buf: seq<string>, j: nat, from: nat, places: seq<nat>)
    requires j <= Count(p) && from <= Places(p, buf) && AllPlaced(p, buf, j, from, places)
    ensures |Greedy(p, buf, j, from)| == Count(p) - j
    decreases Count(p) - j
  {
    if j < Count(p) {
      hide Hit, Greedy;
      var i := GreedyStep(p, buf, j, from);
      assert Hit(p, buf, j + 0, places[0]) && i <= places[0];
      PlacedBehind(p, buf, j, from, places, i);
      GreedyIsComplete(p, buf, j + 1, i + 1, places[1..]);
    }
  }

  lemma PlacedBehind(p: Pattern, buf: seq<string>, j: nat, from: nat, places: seq<nat>, i: nat)
    requires j < Count(p) && AllPlaced(p, buf, j, from, places) && i <= places[0]
    ensures AllPlaced(p, buf, j + 1, i + 1, places[1..])
  {
    hide Hit;
    forall k | 0 <= k < |places[1..]|
      ensures i + 1 <= places[1..][k] < Places(p, buf) && Hit(p, buf, j + 1 + k, places[1..][k])
    {
      assert Hit(p, buf, j + (k + 1), places[k + 1]) && places[0] < places[k + 1];
    }
  }

  lemma GreedyAllIff(p: Pattern, buf: seq<string>)
    ensures |Greedy(p, buf, 0, 0)| == Count(p) <==> exists places :: AllPlaced(p, buf, 0, 0, places)
  {
    if |Greedy(p, buf, 0, 0)| == Count(p) {
      var found := Greedy(p, buf, 0, 0);
      GreedyWitnesses(p, buf, 0, 0);
      ItemsAreAll(found, Count(p));
      var places := seq(|found|, k requires 0 <= k < |found| => found[k].place);
      assert AllPlaced(p, buf, 0, 0, places);
    } else {
      forall places | AllPlaced(p, buf, 0, 0, places) ensures false {
        GreedyIsComplete(p, buf, 0, 0, places);
      }
    }
  }

  /** n strictly increasing numbers below n are all of them. */
  lemma {:induction false} ItemsAreAll(found: seq<Match>, n: nat)
    requires |found| == n && forall k :: 0 <= k < n ==> found[k].item < n
    requires forall k, l :: 0 <= k < l < n ==> found[k].item < found[l].item
    ensures forall k :: 0 <= k < n ==> found[k].item == k
  {
    if n > 0 {
      var most := found[..n - 1];
      assert forall k :: 0 <= k < n - 1 ==> most[k] == found[k] && found[k].item < found[n - 1].item;
      ItemsAreAll(most, n - 1);
      forall k | 0 <= k < n ensures found[k].item == k {
        assert k < n - 1 ==> found[k] == most[k];
        if n >= 2 {
          assert found[n - 2] == most[n - 2];
        }
      }
    }
  }

  /** Nothing is matched only if nothing hits anywhere. */
  lemma {:induction false} GreedyNoneIff(p: Pattern, buf: seq<string>, j: nat)
    requires j <= Count(p)
    ensures Greedy(p, buf, j, 0) == [] <==>
            forall k, i :: j <= k < Count(p) && 0 <= i < Places(p, buf) ==> !Hit(p, buf, k, i)
    decreases Count(p) - j
  {
    if j < Count(p) {
      GreedyNoneIff(p, buf, j + 1);
    }
  }

  // ---------------------------------------------------------------- the matcher

  /** How many of n pairs must match: three in ten of them, but never more than three. */
  function Needed(n: nat): nat {
    if n <= 3 then 1 else if n <= 6 then 2 else 3
  }

  predicate Matches(buf: seq<string>, target: seq<string>) {
    && target != [] && buf != []
    && if |target| <= 3 then |Greedy(Singles(target), buf, 0, 0)| == |target|
       else |Greedy(Pairs(target), buf, 0, 0)| >= Needed(|target| - 1)
  }

  method MatchShort(buf: seq<string>, target: seq<string>) returns (matched: nat)
    ensures matched == |target| <==> |Greedy(Singles(target), buf, 0, 0)| == |target|
  {
    ghost var p := Singles(target);
    var bufIdx := 0;
    matched := 0;
    for j := 0 to |target|
      invariant bufIdx <= |buf| && matched <= j
      invariant matched == j ==> |Greedy(p, buf, 0, 0)| == j + |Greedy(p, buf, j, bufIdx)|
      invariant matched < j ==> |Greedy(p, buf, 0, 0)| < |target|
    {
      ghost var from, before := bufIdx, matched;
      while bufIdx < |buf|
        invariant from <= bufIdx <= |buf| && matched == before
        invariant forall k :: from <= k < bufIdx ==> !Hit(p, buf, j, k)
      {
        if Contains(buf[bufIdx], target[j]) || Contains(target[j], buf[bufIdx]) {
          assert Hit(p, buf, j, bufIdx) && FirstHit(p, buf, j, from) == bufIdx;
          matched := matched + 1;
          bufIdx := bufIdx + 1;
          break;
        }
        assert !Hit(p, buf, j, bufIdx);
        bufIdx := bufIdx + 1;
      }
      assert FirstHit(p, buf, j, from) == if matched > before then bufIdx - 1 else |buf|;
      GreedyWitnesses(p, buf, j + 1, from);
    }
  }

  method MatchPairs(buf: seq<string>, target: seq<string>) returns (matched: nat)
    requires buf != [] && target != []
    ensures matched == |Greedy(Pairs(target), buf, 0, 0)|
  {
    ghost var p := Pairs(target);
    var bufIdx := 0;
    matched := 0;
    for j := 0 to |target| - 1
      invariant bufIdx <= |buf| - 1
      invariant |Greedy(p, buf, 0, 0)| == matched + |Greedy(p, buf, j, bufIdx)|
    {
      ghost var from, before := bufIdx, matched;
      var i := bufIdx;
      while i < |buf| - 1
        invariant from <= i <= |buf| - 1 && matched == before && bufIdx == from
        invariant forall k :: from <= k < i ==> !Hit(p, buf, j, k)
      {
        if (buf[i] == target[j] || Contains(buf[i], target[j]))
           && (buf[i + 1] == target[j + 1] || Contains(buf[i + 1], target[j + 1])) {
          assert Hit(p, buf, j, i) && FirstHit(p, buf, j, from) == i;
          matched := matched + 1;
          bufIdx := i + 1;
          break;
        }
        assert !Hit(p, buf, j, i);
        i := i + 1;
      }
      assert FirstHit(p, buf, j, from) == if matched > before then bufIdx - 1 else |buf| - 1;
    }
  }

  lemma RatioAtLeast(m: real, n: real, ratio: real)
    requires n > 0.0
    ensures m / n >= ratio <==> m >= ratio * n
  {
    var q := m / n;
    assert q * n == m;
    assert q >= ratio ==> q * n >= ratio * n;
    assert q < ratio ==> q * n < ratio * n;
  }

  /** The comparison of the ratio with 0.30, in exact reals, needs no division. */
  lemma NeededMeaning(matched: nat, n: nat)
    requires 0 < n && matched <= n
    ensures matched >= Needed(n) <==> matched as real / n as real >= 0.30 || matched >= 3
  {
    RatioAtLeast(matched as real, n as real, 0.30);
  }

  method MatchTokenNGrams(buf: seq<string>, target: seq<string>) returns (r: bool)
    ensures r == Matches(buf, target)
  {
    if |target| == 0 || |buf| == 0 {
      return false;
    }
    if |target| <= 3 {
      var matched := MatchShort(buf, target);
      return matched == |target|;
    }
    var matched := MatchPairs(buf, target);
    GreedyWitnesses(Pairs(target), buf, 0, 0);
    NeededMeaning(matched, |target| - 1);
    return matched as real / (|target| - 1) as real >= 0.30 || matched >= 3;
  }

  /** A short target matches exactly when its tokens hit the screen's at strictly increasing places. */
  lemma ShortMatchIff(buf: seq<string>, target: seq<string>)
    requires 1 <= |target| <= 3
    ensures Matches(buf, target) <==> exists places :: AllPlaced(Singles(target), buf, 0, 0, places)
  {
    GreedyAllIff(Singles(target), buf);
    if buf == [] {
      forall places ensures !AllPlaced(Singles(target), buf, 0, 0, places) {
        if |places| == |target| {
          assert !(places[0] < Places(Singles(target), buf));
        }
      }
    }
  }

  /** A match of a longer target has enough witnesses at strictly increasing places. */
  lemma LongMatchHasWitnesses(buf: seq<string>, target: seq<string>)
    requires |target| > 3 && Matches(buf, target)
    ensures exists found: seq<Match> :: Witnesses(Pairs(target), buf, found) && |found| >= Needed(|target| - 1)
  {
    GreedyWitnesses(Pairs(target), buf, 0, 0);
  }

  /** Item `k` hits place `i`, from item `j` and place `from` on. */
  predicate Occurs(p: Pattern, buf: seq<string>, j: nat, from: nat, k: nat, i: nat) {
    j <= k < Count(p) && from <= i < Places(p, buf) && Hit(p, buf, k, i)
  }

  /** It is the first item that occurs at all, at its first place. */
  ghost predicate Leads(p: Pattern, buf: seq<string>, j: nat, from: nat, k: nat, i: nat) {
    && Occurs(p, buf, j, from, k, i)
    && forall m: nat, l: nat :: Occurs(p, buf, j, from, m, l) ==> k < m || (k == m && i <= l)
  }

  /** The search takes the lead, and goes on behind it. */
  lemma {:induction false} GreedyLeads(p: Pattern, buf: seq<string>, j: nat, from: nat)
    requires j <= Count(p) && from <= Places(p, buf)
    ensures var found := Greedy(p, buf, j, from);
            if found == [] then forall k: nat, i: nat :: !Occurs(p, buf, j, from, k, i)
            else
              && Leads(p, buf, j, from, found[0].item, found[0].place)
              && found[1..] == Greedy(p, buf, found[0].item + 1, found[0].place + 1)
    decreases Count(p) - j
  {
    if j < Count(p) {
      hide Hit, FirstHit, Greedy, Leads;
      var i := GreedyStep(p, buf, j, from);
      if i == Places(p, buf) {
        GreedyLeads(p, buf, j + 1, from);
        NoneHere(p, buf, j, from);
      } else {
        FirstLeads(p, buf, j, from, i);
      }
    } else {
      hide Hit;
    }
  }

  lemma NoneHere(p: Pattern, buf: seq<string>, j: nat, from: nat)
    requires j < Count(p) && forall k :: from <= k < Places(p, buf) ==> !Hit(p, buf, j, k)
    ensures forall k: nat, i: nat :: Occurs(p, buf, j, from, k, i) ==> Occurs(p, buf, j + 1, from, k, i)
    ensures forall k: nat, i: nat :: Leads(p, buf, j + 1, from, k, i) ==> Leads(p, buf, j, from, k, i)
  {
    hide Hit;
    assert forall k: nat, i: nat :: Occurs(p, buf, j, from, k, i) ==> Occurs(p, buf, j + 1, from, k, i);
    forall k: nat, i: nat | Leads(p, buf, j + 1, from, k, i) ensures Leads(p, buf, j, from, k, i) {
      assert Occurs(p, buf, j + 1, from, k, i);
    }
  }

  lemma FirstLeads(p: Pattern, buf: seq<string>, j: nat, from: nat, i: nat)
    requires j < Count(p) && from <= i < Places(p, buf) && Hit(p, buf, j, i)
    requires forall k :: from <= k < i ==> !Hit(p, buf, j, k)
    ensures Leads(p, buf, j, from, j, i)
  {
    hide Hit;
  }

  lemma OneLead(p: Pattern, buf: seq<string>, j: nat, from: nat, k: nat, i: nat, m: nat, l: nat)
    requires Leads(p, buf, j, from, k, i) && Leads(p, buf, j, from, m, l)
    ensures k == m && i == l
  {
    hide Occurs;
  }

  /** Each match but the last is the lead behind the one before it, and the last occurs behind that. */
  ghost predicate Followed(p: Pattern, buf: seq<string>, j: nat, from: nat, found: seq<Match>)
    decreases |found|
  {
    found == [] ||
    (var m := found[0];
     if |found| == 1 then Occurs(p, buf, j, from, m.item, m.place)
     else Leads(p, buf, j, from, m.item, m.place) && Followed(p, buf, m.item + 1, m.place + 1, found[1..]))
  }

  /** The search finds n matches exactly when there are n that follow one another in this way. */
  lemma {:induction false} AtLeastIff(p: Pattern, buf: seq<string>, j: nat, from: nat, n: nat)
    requires j <= Count(p) && from <= Places(p, buf)
    ensures |Greedy(p, buf, j, from)| >= n <==>
            exists found: seq<Match> :: |found| == n && Followed(p, buf, j, from, found)
    decreases n
  {
    hide Occurs, Leads, Greedy;
    var found := Greedy(p, buf, j, from);
    GreedyLeads(p, buf, j, from);
    if n == 0 {
      assert Followed(p, buf, j, from, []);
    } else if found != [] {
      LeadOccurs(p, buf, j, from, found[0].item, found[0].place);
      BehindIff(p, buf, j, from, n);
    } else {
      forall other: seq<Match> | |other| == n && Followed(p, buf, j, from, other) ensures false {
        LeadOccurs(p, buf, j, from, other[0].item, other[0].place);
      }
    }
  }

  lemma BehindIff(p: Pattern, buf: seq<string>, j: nat, from: nat, n: nat)
    requires j <= Count(p) && from <= Places(p, buf) && n > 0
    requires var found := Greedy(p, buf, j, from);
             && found != [] && Leads(p, buf, j, from, found[0].item, found[0].place)
             && found[0].item < Count(p) && found[0].place < Places(p, buf)
             && found[1..] == Greedy(p, buf, found[0].item + 1, found[0].place + 1)
    ensures |Greedy(p, buf, j, from)| >= n <==>
            exists found: seq<Match> :: |found| == n && Followed(p, buf, j, from, found)
    decreases n, 0
  {
    hide Occurs, Leads, Greedy;
    var found := Greedy(p, buf, j, from);
    var m := found[0];
    LeadOccurs(p, buf, j, from, m.item, m.place);
    if n == 1 {
      assert Followed(p, buf, j, from, [m]);
    } else {
      AtLeastIff(p, buf, m.item + 1, m.place + 1, n - 1);
      if |found| >= n {
        var rest :| |rest| == n - 1 && Followed(p, buf, m.item + 1, m.place + 1, rest);
        assert ([m] + rest)[1..] == rest;
        assert Followed(p, buf, j, from, [m] + rest);
      }
      forall other: seq<Match> | |other| == n && Followed(p, buf, j, from, other) ensures |found| >= n {
        OneLead(p, buf, j, from, m.item, m.place, other[0].item, other[0].place);
        assert |other[1..]| == n - 1;
      }
    }
  }

  lemma LeadOccurs(p: Pattern, buf: seq<string>, j: nat, from: nat, k: nat, i: nat)
    ensures Leads(p, buf, j, from, k, i) ==> Occurs(p, buf, j, from, k, i)
    ensures Occurs(p, buf, j, from, k, i) ==> k < Count(p) && i < Places(p, buf)
  {
  }

  /** Exactly when a longer target matches: as many pairs as needed, each but the last the first that
      occurs at all behind the one before it, at its first place there. */
  lemma LongMatchIff(buf: seq<string>, target: seq<string>)
    requires |target| > 3
    ensures Matches(buf, target) <==>
            exists found: seq<Match> :: |found| == Needed(|target| - 1) && Followed(Pairs(target), buf, 0, 0, found)
  {
    var n := Needed(|target| - 1);
    AtLeastIff(Pairs(target), buf, 0, 0, n);
    if buf == [] {
      GreedyNoneIff(Pairs(target), buf, 0);
    }
  }

  /** The same, behind a match. */
  ghost predicate OccursBehind(p: Pattern, buf: seq<string>, k: nat, i: nat, m: nat, l: nat) {
    Occurs(p, buf, k + 1, i + 1, m, l)
  }

  ghost predicate LeadsBehind(p: Pattern, buf: seq<string>, k: nat, i: nat, m: nat, l: nat) {
    Leads(p, buf, k + 1, i + 1, m, l)
  }

  /** Five to seven tokens need a pair behind the lead. */
  lemma TwoPairsMatchIff(buf: seq<string>, target: seq<string>)
    requires 5 <= |target| <= 7
    ensures Matches(buf, target) <==>
            exists k: nat, i: nat, m: nat, l: nat ::
              Leads(Pairs(target), buf, 0, 0, k, i) && OccursBehind(Pairs(target), buf, k, i, m, l)
  {
    LongMatchIff(buf, target);
    var p := Pairs(target);
    hide Occurs, Leads, Matches;
    if Matches(buf, target) {
      var found: seq<Match> :| |found| == 2 && Followed(p, buf, 0, 0, found);
      assert found[1..] == [found[1]];
      assert Followed(p, buf, found[0].item + 1, found[0].place + 1, [found[1]]);
      assert OccursBehind(p, buf, found[0].item, found[0].place, found[1].item, found[1].place);
    }
    forall k: nat, i: nat, m: nat, l: nat | Leads(p, buf, 0, 0, k, i) && OccursBehind(p, buf, k, i, m, l)
      ensures Matches(buf, target)
    {
      assert [Match(k, i), Match(m, l)][1..] == [Match(m, l)];
      assert Followed(p, buf, 0, 0, [Match(k, i), Match(m, l)]);
    }
  }

  /** Eight tokens or more need a pair behind the lead behind the lead. */
  lemma ThreePairsMatchIff(buf: seq<string>, target: seq<string>)
    requires |target| >= 8
    ensures Matches(buf, target) <==>
            exists k: nat, i: nat, m: nat, l: nat, x: nat, y: nat ::
              && Leads(Pairs(target), buf, 0, 0, k, i) && LeadsBehind(Pairs(target), buf, k, i, m, l)
              && OccursBehind(Pairs(target), buf, m, l, x, y)
  {
    LongMatchIff(buf, target);
    var p := Pairs(target);
    hide Occurs, Leads, Matches;
    if Matches(buf, target) {
      var found: seq<Match> :| |found| == 3 && Followed(p, buf, 0, 0, found);
      ThreeFollow(p, buf, found);
    }
    forall k: nat, i: nat, m: nat, l: nat, x: nat, y: nat
      | Leads(p, buf, 0, 0, k, i) && LeadsBehind(p, buf, k, i, m, l) && OccursBehind(p, buf, m, l, x, y)
      ensures Matches(buf, target)
    {
      FollowThree(p, buf, [Match(k, i), Match(m, l), Match(x, y)]);
    }
  }

  lemma FollowThree(p: Pattern, buf: seq<string>, found: seq<Match>)
    requires |found| == 3 && Leads(p, buf, 0, 0, found[0].item, found[0].place)
    requires LeadsBehind(p, buf, found[0].item, found[0].place, found[1].item, found[1].place)
    requires OccursBehind(p, buf, found[1].item, found[1].place, found[2].item, found[2].place)
    ensures Followed(p, buf, 0, 0, found)
  {
    hide Occurs, Leads;
    var two := found[1..];
    assert two[0] == found[1] && two[1..] == [found[2]];
    assert Followed(p, buf, found[1].item + 1, found[1].place + 1, [found[2]]);
    assert Followed(p, buf, found[0].item + 1, found[0].place + 1, two);
  }

  lemma ThreeFollow(p: Pattern, buf: seq<string>, found: seq<Match>)
    requires |found| == 3 && Followed(p, buf, 0, 0, found)
    ensures Leads(p, buf, 0, 0, found[0].item, found[0].place)
    ensures LeadsBehind(p, buf, found[0].item, found[0].place, found[1].item, found[1].place)
    ensures OccursBehind(p, buf, found[1].item, found[1].place, found[2].item, found[2].place)
  {
    hide Occurs, Leads;
    var a, b, c := found[0], found[1], found[2];
    assert found[1..] == [b, c] && [b, c][1..] == [c];
    assert Followed(p, buf, a.item + 1, a.place + 1, [b, c]);
    assert Followed(p, buf, b.item + 1, b.place + 1, [c]);
  }

  // ---------------------------------------------------------------- when ordered pairs suffice

  /** The search, which takes the leads, runs past a pair of this list before it comes to it. */
  ghost predicate Overtaken(p: Pattern, buf: seq<string>, j: nat, from: nat, found: seq<Match>)
    decreases |found|
  {
    |found| >= 2 &&
    exists k: nat, i: nat :: Leads(p, buf, j, from, k, i)
      && (i >= found[1].place || Overtaken(p, buf, k + 1, i + 1, found[1..]))
  }

  ghost predicate Within(p: Pattern, buf: seq<string>, j: nat, from: nat, found: seq<Match>) {
    Witnesses(p, buf, found) && (found != [] ==> j <= found[0].item && from <= found[0].place)
  }

  lemma {:induction false} NotOvertakenIsFound(p: Pattern, buf: seq<string>, j: nat, from: nat, found: seq<Match>)
    requires j <= Count(p) && from <= Places(p, buf)
    requires Within(p, buf, j, from, found) && !Overtaken(p, buf, j, from, found)
    ensures |Greedy(p, buf, j, from)| >= |found|
    decreases |found|
  {
    hide Hit, Greedy;
    if found != [] {
      GreedyLeads(p, buf, j, from);
      assert Occurs(p, buf, j, from, found[0].item, found[0].place);
      var lead := Greedy(p, buf, j, from)[0];
      LeadOccurs(p, buf, j, from, lead.item, lead.place);
      if |found| >= 2 {
        hide Occurs;
        assert lead.place < found[1].place && lead.item < found[1].item;
        NotOvertakenIsFound(p, buf, lead.item + 1, lead.place + 1, found[1..]);
      }
    }
  }

  lemma {:induction false} GreedyNotOvertaken(p: Pattern, buf: seq<string>, j: nat, from: nat, n: nat)
    requires j <= Count(p) && from <= Places(p, buf) && n <= |Greedy(p, buf, j, from)|
    ensures Within(p, buf, j, from, Greedy(p, buf, j, from)[..n])
    ensures !Overtaken(p, buf, j, from, Greedy(p, buf, j, from)[..n])
    decreases n
  {
    hide Hit, Greedy, Occurs, Leads;
    var all := Greedy(p, buf, j, from);
    GreedyWitnesses(p, buf, j, from);
    if n >= 2 {
      GreedyLeads(p, buf, j, from);
      LeadOccurs(p, buf, j, from, all[0].item, all[0].place);
      GreedyNotOvertaken(p, buf, all[0].item + 1, all[0].place + 1, n - 1);
      assert all[..n][1..] == all[1..n] && all[1..][..n - 1] == all[1..n];
      forall k: nat, i: nat | Leads(p, buf, j, from, k, i)
        ensures i < all[1].place && !Overtaken(p, buf, k + 1, i + 1, all[..n][1..])
      {
        OneLead(p, buf, j, from, k, i, all[0].item, all[0].place);
      }
    }
  }

  /** As many ordered pairs as needed suffice exactly if the search does not overtake them. */
  lemma OrderedPairsMatchIff(buf: seq<string>, target: seq<string>)
    requires |target| > 3
    ensures Matches(buf, target) <==>
            exists found: seq<Match> :: Witnesses(Pairs(target), buf, found) && |found| == Needed(|target| - 1)
              && !Overtaken(Pairs(target), buf, 0, 0, found)
  {
    var p, n := Pairs(target), Needed(|target| - 1);
    hide Overtaken, Hit;
    if Matches(buf, target) {
      GreedyNotOvertaken(p, buf, 0, 0, n);
      assert |Greedy(p, buf, 0, 0)[..n]| == n;
    }
    forall found: seq<Match> | Witnesses(p, buf, found) && |found| == n && !Overtaken(p, buf, 0, 0, found)
      ensures Matches(buf, target)
    {
      NotOvertakenIsFound(p, buf, 0, 0, found);
      assert found[0].place < Places(p, buf);
    }
  }

  /** No pair of the target stands on the screen after a later pair. */
  ghost predicate InOrder(p: Pattern, buf: seq<string>) {
    forall k: nat, i: nat, m: nat, l: nat ::
      Occurs(p, buf, 0, 0, k, i) && Occurs(p, buf, 0, 0, m, l) && k < m ==> i < l
  }

  lemma {:induction false} InOrderIsNotOvertaken(p: Pattern, buf: seq<string>, j: nat, from: nat, found: seq<Match>)
    requires InOrder(p, buf) && Within(p, buf, j, from, found)
    ensures !Overtaken(p, buf, j, from, found)
    decreases |found|
  {
    if |found| >= 2 {
      forall k: nat, i: nat | Leads(p, buf, j, from, k, i)
        ensures i < found[1].place && !Overtaken(p, buf, k + 1, i + 1, found[1..])
      {
        hide Hit, Overtaken;
        assert Occurs(p, buf, j, from, found[0].item, found[0].place);
        assert Occurs(p, buf, 0, 0, k, i) && Occurs(p, buf, 0, 0, found[1].item, found[1].place);
        assert Within(p, buf, k + 1, i + 1, found[1..]);
        InOrderIsNotOvertaken(p, buf, k + 1, i + 1, found[1..]);
      }
    }
  }

  /** On a screen that keeps the target's pairs in order, as many as needed anywhere are enough. */
  lemma InOrderMatchIff(buf: seq<string>, target: seq<string>)
    requires |target| > 3 && InOrder(Pairs(target), buf)
    ensures Matches(buf, target) <==>
            exists found: seq<Match> :: Witnesses(Pairs(target), buf, found) && |found| == Needed(|target| - 1)
  {
    hide InOrder, Overtaken, Hit, Matches;
    OrderedPairsMatchIff(buf, target);
    forall found: seq<Match> | Witnesses(Pairs(target), buf, found)
      ensures !Overtaken(Pairs(target), buf, 0, 0, found)
    {
      InOrderIsNotOvertaken(Pairs(target), buf, 0, 0, found);
    }
  }

  /** A longer target all of whose pairs can be placed in order matches. */
  lemma WholeTargetMatches(buf: seq<string>, target: seq<string>, places: seq<nat>)
    requires |target| > 3 && AllPlaced(Pairs(target), buf, 0, 0, places)
    ensures Matches(buf, target)
  {
    GreedyIsComplete(Pairs(target), buf, 0, 0, places);
    assert places[0] < Places(Pairs(target), buf);
  }

  /** A target of four tokens matches as soon as one of its pairs occurs anywhere. */
  lemma FourTokensMatchIff(buf: seq<string>, target: seq<string>)
    requires |target| == 4
    ensures Matches(buf, target) <==> exists k: nat, i: nat :: Occurs(Pairs(target), buf, 0, 0, k, i)
  {
    LongMatchIff(buf, target);
    hide Occurs, Matches;
    var p := Pairs(target);
    if Matches(buf, target) {
      var found: seq<Match> :| |found| == 1 && Followed(p, buf, 0, 0, found);
    }
    forall k: nat, i: nat | Occurs(p, buf, 0, 0, k, i) ensures Matches(buf, target) {
      assert Followed(p, buf, 0, 0, [Match(k, i)]);
    }
  }

  // ---------------------------------------------------------------- echoes

  const INV := "inv-"

  function FirstIndex(s: string, part: string, from: nat): (r: int)
    requires from <= |s|
    ensures r == -1 || (from <= r <= |s| && HasAt(s, part, r))
    ensures forall i: nat :: from <= i && (r == -1 || i < r) ==> !HasAt(s, part, i)
    decreases |s| - from
  {
    if HasAt(s, part, from) then from else if from == |s| then -1 else FirstIndex(s, part, from + 1)
  }

  predicate AsciiAlnum(c: char) {
    '0' <= c <= '9' || 'a' <= c <= 'z' || 'A' <= c <= 'Z'
  }

  function AlnumEnd(text: string, end: nat): (r: nat)
    requires end <= |text|
    ensures end <= r <= |text|
    ensures forall k :: end <= k < r ==> AsciiAlnum(text[k])
    ensures r < |text| ==> !AsciiAlnum(text[r])
    decreases |text| - end
  {
    if end < |text| && AsciiAlnum(text[end]) then AlnumEnd(text, end + 1) else end
  }

  /** The first invocation identifier in a text, as far as its letters and digits go. */
  function InvocationID(text: string): string {
    var idx := FirstIndex(text, INV, 0);
    if idx < 0 then "" else text[idx..AlnumEnd(text, idx + 4)]
  }

  predicate ShowsInvocation(script: Script, screen: string, text: string) {
    var id := Normal(script, InvocationID(text));
    FirstIndex(text, INV, 0) >= 0 && |id| > 5 && Contains(Normal(script, screen), id)
  }

  predicate IsEchoed(script: Script, screen: string, text: string) {
    || Contains(Normal(script, screen), Normal(script, text))
    || Matches(Tokens(script, screen), Tokens(script, text))
    || ShowsInvocation(script, screen, text)
  }

  method Echoed(script: Script, buf: string, text: string) returns (r: bool)
    ensures r == IsEchoed(script, buf, text)
  {
    var normBuf := NormalizeForMatch(script, buf);
    var normText := NormalizeForMatch(script, text);
    if Contains(normBuf, normText) {
      return true;
    }
    var textTokens := Tokenize(script, text);
    var bufTokens := Tokenize(script, buf);
    if |textTokens| > 0 && |bufTokens| > 0 {
      var matched := MatchTokenNGrams(bufTokens, textTokens);
      if matched {
        return true;
      }
    }
    var idx := FirstIndex(text, INV, 0);
    if idx >= 0 {
      var end := idx + 4;
      while end < |text| && AsciiAlnum(text[end])
        invariant idx + 4 <= end <= |text|
        invariant AlnumEnd(text, end) == AlnumEnd(text, idx + 4)
      {
        end := end + 1;
      }
      var invID := NormalizeForMatch(script, text[idx..end]);
      if |invID| > 5 && Contains(normBuf, invID) {
        return true;
      }
    }
    return false;
  }

  /** A prompt the terminal shows whole is recognised, whatever borders, padding and line breaks are put
      between its characters, and whatever is on the screen around it. */
  lemma DecoratedTextIsEchoed(script: Script, screen: string, text: string, before: string, shown: string,
                              after: string)
    requires script.strip(screen) == before + shown + after
    requires Decorates(script, shown, script.strip(text))
    ensures IsEchoed(script, screen, text)
  {
    DecorationIsDropped(script, shown, script.strip(text));
    var s := script.strip(screen);
    var i, j := |before|, |before + shown|;
    assert s[i..j] == shown;
    NormalMatchIff(script, screen, text);
  }

  /** A prompt is recognised on every screen exactly when it has no letter or digit: one that has any is
      not recognised on the empty screen. */
  lemma BlankTextIff(script: Script, text: string)
    requires script.strip("") == ""
    ensures (forall screen :: IsEchoed(script, screen, text)) <==> Tokens(script, text) == []
  {
    NormalIsJoinedTokens(script, text);
    if Tokens(script, text) == [] {
      forall screen ensures IsEchoed(script, screen, text) {
        assert HasAt(Normal(script, screen), "", 0);
      }
    } else {
      var tokens := Tokens(script, text);
      assert tokens[|tokens| - 1] in tokens;
      assert Normal(script, text) != "";
      assert Normal(script, "") == "" && Tokens(script, "") == [];
      NothingInEmpty(Normal(script, text));
      NothingInEmpty(Normal(script, InvocationID(text)));
      assert !IsEchoed(script, "", text);
    }
  }

  lemma NothingInEmpty(part: string)
    ensures Contains("", part) <==> part == ""
  {
    assert HasAt("", "", 0);
  }

  const LETTERS := ["a", "b", "c", "d", "e", "f", "g"]
  const SCREEN := ["c", "d", "e", "f", "a", "b"]

  /** Taking the first place left may lose a longer target: here three pairs of six stand in order on
      the screen, but the first pair also stands at its end, and is taken there. */
  lemma GreedyMayMissALongTarget()
    ensures !Matches(SCREEN, LETTERS)
    ensures exists found: seq<Match> :: Witnesses(Pairs(LETTERS), SCREEN, found) && |found| >= Needed(|LETTERS| - 1)
  {
    hide Hit, Contains, Greedy, Witnesses;
    ThreePairsStand();
    GreedyTakesTheLast();
    assert |[Match(2, 0), Match(3, 1), Match(4, 2)]| == 3;
  }

  lemma ThreePairsStand()
    ensures Witnesses(Pairs(LETTERS), SCREEN, [Match(2, 0), Match(3, 1), Match(4, 2)])
  {
    LetterPairs(SCREEN, LETTERS);
    hide Hit, Contains;
  }

  lemma GreedyTakesTheLast()
    ensures |Greedy(Pairs(LETTERS), SCREEN, 0, 0)| == 1
  {
    LetterPairs(SCREEN, LETTERS);
    hide Hit, Contains, Greedy;
    NotBefore(Pairs(LETTERS), SCREEN, 4);
    NothingLeft(Pairs(LETTERS), SCREEN, 1);
    OnePair(Pairs(LETTERS), SCREEN);
  }

  lemma NotBefore(p: Pattern, buf: seq<string>, i: nat)
    requires 0 < Count(p) && i < Places(p, buf) && Hit(p, buf, 0, i) && forall k :: 0 <= k < i ==> !Hit(p, buf, 0, k)
    ensures FirstHit(p, buf, 0, 0) == i
  {
  }

  lemma OnePair(p: Pattern, buf: seq<string>)
    requires 0 < Count(p) && 0 < Places(p, buf) && FirstHit(p, buf, 0, 0) == Places(p, buf) - 1
    ensures Greedy(p, buf, 0, 0) == [Match(0, Places(p, buf) - 1)] + Greedy(p, buf, 1, Places(p, buf))
  {
  }

  lemma LetterPairs(buf: seq<string>, target: seq<string>)
    requires (forall i :: 0 <= i < |buf| ==> |buf[i]| == 1) && forall j :: 0 <= j < |target| ==> |target[j]| == 1
    ensures forall j, i :: 0 <= j < |target| - 1 && 0 <= i < |buf| - 1 ==>
              (Hit(Pairs(target), buf, j, i) <==> buf[i] == target[j] && buf[i + 1] == target[j + 1])
  {
    forall j, i | 0 <= j < |target| - 1 && 0 <= i < |buf| - 1
      ensures Hit(Pairs(target), buf, j, i) <==> buf[i] == target[j] && buf[i + 1] == target[j + 1]
    {
      hide Contains;
      SingleLetters(buf[i], target[j]);
      SingleLetters(buf[i + 1], target[j + 1]);
    }
  }

  lemma {:induction false} NothingLeft(p: Pattern, buf: seq<string>, j: nat)
    requires j <= Count(p)
    ensures Greedy(p, buf, j, Places(p, buf)) == []
    decreases Count(p) - j
  {
    if j < Count(p) {
      NothingLeft(p, buf, j + 1);
    }
  }

  /** One letter contains another only if they are equal. */
  lemma SingleLetters(x: string, y: string)
    requires |x| == |y| == 1
    ensures Contains(x, y) <==> x == y
  {
    assert x == y ==> HasAt(x, y, 0);
    assert x[0..1] == x;
    assert !HasAt(x, y, 1);
  }

  // ---------------------------------------------------------------- what the parts are, letter by letter

  /** A text contains another if it stands between some beginning and some end. */
  lemma ContainsMeaning(s: string, part: string)
    ensures Contains(s, part) <==> exists before, after :: s == before + part + after
  {
    if Contains(s, part) {
      var i :| 0 <= i <= |s| && HasAt(s, part, i);
      assert s == s[..i] + part + s[i + |part|..];
    }
    forall before, after | s == before + part + after ensures Contains(s, part) {
      assert HasAt(s, part, |before|);
    }
  }

  /** The normal form of a stripped text is made of its characters one by one: a letter or digit in lower
      case, any other not at all. */
  lemma KeptCharacter(script: Script, s: string, c: char)
    ensures Kept(script, "") == ""
    ensures Kept(script, s + [c]) == Kept(script, s) + if script.alnum(c) then [script.lower(c)] else ""
  {
    assert (s + [c])[..|s|] == s;
  }

  /** The tokens of a stripped text. */
  function Cut(script: Script, s: string): seq<string> {
    var (tokens, current) := Runs(script, s);
    if current != "" then tokens + [current] else tokens
  }

  /** Nothing but a character that is neither letter nor digit cuts: the tokens of an unbroken run are the run
      itself in lower case, and around a cut they are those before it and those after it. */
  lemma TokensMeaning(script: Script, text: string, before: string, c: char, after: string)
    ensures Tokens(script, text) == Cut(script, script.strip(text))
    ensures (forall i :: 0 <= i < |before| ==> script.alnum(before[i])) ==>
              Cut(script, before) == if before == "" then [] else [Kept(script, before)]
    ensures !script.alnum(c) ==> Cut(script, before + [c] + after) == Cut(script, before) + Cut(script, after)
  {
    if forall i :: 0 <= i < |before| ==> script.alnum(before[i]) {
      UnbrokenRun(script, before);
    }
    if !script.alnum(c) {
      CutAt(script, before, c, after);
    }
  }

  lemma {:induction false} UnbrokenRun(script: Script, s: string)
    requires forall i :: 0 <= i < |s| ==> script.alnum(s[i])
    ensures Runs(script, s) == ([], Kept(script, s)) && |Kept(script, s)| == |s|
  {
    if s != "" {
      UnbrokenRun(script, s[..|s| - 1]);
    }
  }

  lemma {:induction false} CutAt(script: Script, before: string, c: char, after: string)
    requires !script.alnum(c)
    ensures Runs(script, before + [c] + after) == (Cut(script, before) + Runs(script, after).0, Runs(script, after).1)
  {
    var s := before + [c] + after;
    if after == "" {
      assert s == before + [c] && s[..|s| - 1] == before && s[|s| - 1] == c;
      assert Cut(script, before) + [] == Cut(script, before);
    } else {
      var n := |after| - 1;
      assert s[..|s| - 1] == before + [c] + after[..n] && s[|s| - 1] == after[n];
      CutAt(script, before, c, after[..n]);
      var (tokens, current) := Runs(script, after[..n]);
      assert (Cut(script, before) + tokens) + [current] == Cut(script, before) + (tokens + [current]);
    }
  }

  /** When a token, or a pair of neighbouring tokens, hits a place on the screen. */
  lemma HitMeaning(target: seq<string>, buf: seq<string>, j: nat, i: nat)
    ensures j < |target| && i < |buf| ==>
              (Hit(Singles(target), buf, j, i) <==> Contains(buf[i], target[j]) || Contains(target[j], buf[i]))
    ensures j + 1 < |target| && i + 1 < |buf| ==>
              (Hit(Pairs(target), buf, j, i) <==> Contains(buf[i], target[j]) && Contains(buf[i + 1], target[j + 1]))
  {
    ContainsItself(if i < |buf| then buf[i] else "");
    ContainsItself(if i + 1 < |buf| then buf[i + 1] else "");
  }

  lemma ContainsItself(s: string)
    ensures Contains(s, s)
  {
    assert HasAt(s, s, 0);
  }

  /** The identifier a text names: from its first `inv-` on, as far as letters and digits go. */
  ghost predicate NamesInvocation(text: string, id: string) {
    exists before, after :: NamedAmid(text, before, id, after)
  }

  ghost predicate NamedAmid(text: string, before: string, id: string, after: string) {
    && text == before + id + after && "inv-" <= id
    && (forall i: nat :: i < |before| ==> !HasAt(text, "inv-", i))
    && (forall i :: 4 <= i < |id| ==> AsciiAlnum(id[i]))
    && (after != "" ==> !AsciiAlnum(after[0]))
  }

  lemma NamedInvocation(text: string)
    ensures FirstIndex(text, INV, 0) >= 0 ==> NamesInvocation(text, InvocationID(text))
    ensures forall id :: NamesInvocation(text, id) ==> FirstIndex(text, INV, 0) >= 0 && id == InvocationID(text)
  {
    if FirstIndex(text, INV, 0) >= 0 {
      FirstIsNamed(text);
    }
    hide FirstIndex, InvocationID, AsciiAlnum;
    forall id | NamesInvocation(text, id) ensures FirstIndex(text, INV, 0) >= 0 && id == InvocationID(text) {
      var before, after :| NamedAmid(text, before, id, after);
      OneInvocation(text, before, id, after);
    }
  }

  lemma FirstIsNamed(text: string)
    requires FirstIndex(text, INV, 0) >= 0
    ensures NamesInvocation(text, InvocationID(text))
  {
    hide AsciiAlnum, HasAt, NamesInvocation;
    var idx := FirstIndex(text, INV, 0);
    StandsAt(text, INV, idx);
    StretchIsNamed(text, idx, AlnumEnd(text, idx + 4));
  }

  lemma StandsAt(s: string, part: string, i: nat)
    requires HasAt(s, part, i)
    ensures i + |part| <= |s| && s[i..i + |part|] == part
  {
  }

  lemma StretchIsNamed(text: string, idx: nat, end: nat)
    requires idx + 4 <= end <= |text| && text[idx..idx + 4] == "inv-"
    requires forall i: nat :: i < idx ==> !HasAt(text, "inv-", i)
    requires (forall k :: idx + 4 <= k < end ==> AsciiAlnum(text[k])) && (end < |text| ==> !AsciiAlnum(text[end]))
    ensures NamesInvocation(text, text[idx..end])
  {
    hide AsciiAlnum, HasAt;
    var before, id, after := text[..idx], text[idx..end], text[end..];
    assert before + id + after == text;
    assert id[..4] == text[idx..idx + 4];
    forall i | 4 <= i < |id| ensures AsciiAlnum(id[i]) {
      assert id[i] == text[idx + i];
    }
    assert NamedAmid(text, before, id, after);
  }

  lemma {:induction false} AlnumEndIs(text: string, start: nat, end: nat)
    requires start <= end <= |text| && (forall k :: start <= k < end ==> AsciiAlnum(text[k]))
    requires end < |text| ==> !AsciiAlnum(text[end])
    ensures AlnumEnd(text, start) == end
    decreases end - start
  {
    hide AsciiAlnum;
    if start < end {
      AlnumEndIs(text, start + 1, end);
    }
  }

  lemma FirstIndexIs(s: string, part: string, at: nat)
    requires at <= |s| && HasAt(s, part, at) && forall i: nat :: i < at ==> !HasAt(s, part, i)
    ensures FirstIndex(s, part, 0) == at
  {
    hide HasAt;
  }

  lemma OneInvocation(text: string, before: string, id: string, after: string)
    requires NamedAmid(text, before, id, after)
    ensures FirstIndex(text, INV, 0) >= 0 && id == InvocationID(text)
  {
    hide AsciiAlnum, FirstIndex;
    var start, end := |before|, |before| + |id|;
    assert text[start..end] == id && id[..4] == "inv-";
    assert text[start..start + 4] == text[start..end][..4];
    FirstIndexIs(text, INV, start);
    forall k | start + 4 <= k < end ensures AsciiAlnum(text[k]) {
      assert text[k] == id[k - start];
    }
    assert after != "" ==> text[end] == after[0];
    AlnumEndIs(text, start + 4, end);
  }

  /** A prompt is recognised in three ways and no other: its letters and digits stand on the screen, its tokens
      match the screen's, or the invocation it names does, if that is longer than five letters and digits. */
  lemma EchoedIff(script: Script, screen: string, text: string)
    ensures IsEchoed(script, screen, text) <==>
              || Contains(Normal(script, screen), Normal(script, text))
              || Matches(Tokens(script, screen), Tokens(script, text))
              || exists id :: NamesInvocation(text, id) && |Normal(script, id)| > 5
                              && Contains(Normal(script, screen), Normal(script, id))
  {
    NamedInvocation(text);
    hide Contains, Matches, Normal, Tokens, InvocationID, FirstIndex, NamesInvocation;
  }
}
