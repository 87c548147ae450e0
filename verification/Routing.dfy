/** Which runtime of a project an invocation is delivered to. */
module Routing {
  import opened Results

  const WORKER := "WORKER"
  const INTERACTIVE := "INTERACTIVE"

  datatype Runtime = Runtime(
    id: string, agentId: string, kind: string, status: string, connector: string,
    hostId: string, configReference: string, active: nat, maxConcurrent: int)

  datatype Invocation = Invocation(target: string, preferredRuntimeId: string, consumerMode: string)

  /** This dispatcher's host, project root, and the type of each configured connector. */
  datatype Site = Site(hostId: string, projectRoot: string, configs: map<string, string>)

  // ---------------------------------------------------------------- eligibility

  function EffectiveKind(r: Runtime): string {
    if r.kind != "" then r.kind else if r.connector == INTERACTIVE then INTERACTIVE else WORKER
  }

  predicate ModeAllows(mode: string, kind: string) {
    if mode == "INTERACTIVE_ONLY" then kind == INTERACTIVE
    else if mode == "WORKER_ONLY" then kind == WORKER
    else kind == WORKER || kind == INTERACTIVE
  }

  predicate Preferred(v: Invocation, r: Runtime) {
    v.preferredRuntimeId == "" || v.preferredRuntimeId == r.id
  }

  /** A runtime of the target agent that has room, is wanted, and that this site can reach. */
  predicate Eligible(site: Site, v: Invocation, r: Runtime) {
    && r.agentId == v.target
    && r.status != "DRAINING" && r.status != "REVOKED"
    && r.active < r.maxConcurrent
    && Preferred(v, r)
    && ModeAllows(v.consumerMode, EffectiveKind(r))
    && if EffectiveKind(r) == INTERACTIVE then
         && r.status == "ONLINE" && r.connector == INTERACTIVE
         && r.hostId != "" && r.hostId == site.hostId && site.projectRoot != ""
       else
         && r.connector != "MANUAL" && r.connector != "MCP" && r.connector != "QUEUE"
         && r.configReference != "" && r.configReference in site.configs
         && site.configs[r.configReference] == r.connector
  }

  /** Two interactive runtimes are in the running. */
  ghost predicate TwoInteractive(site: Site, v: Invocation, runtimes: map<string, Runtime>) {
    exists k, l :: k in runtimes && l in runtimes && k != l
      && IsInteractiveCandidate(site, v, runtimes[k]) && IsInteractiveCandidate(site, v, runtimes[l])
  }

  predicate IsInteractiveCandidate(site: Site, v: Invocation, r: Runtime) {
    Eligible(site, v, r) && EffectiveKind(r) == INTERACTIVE
  }

  /** What may be chosen: an eligible runtime, but no interactive one if there are several and none is preferred. */
  ghost predicate Choosable(site: Site, v: Invocation, runtimes: map<string, Runtime>, k: string) {
    && k in runtimes && Eligible(site, v, runtimes[k])
    && !(EffectiveKind(runtimes[k]) == INTERACTIVE && v.preferredRuntimeId == "" && TwoInteractive(site, v, runtimes))
  }

  /** The outcome of a selection: the first choosable runtime by name, or none if there is none. */
  ghost predicate IsChoice(site: Site, v: Invocation, runtimes: map<string, Runtime>, chosen: Option<string>) {
    match chosen
    case None => forall k :: !Choosable(site, v, runtimes, k)
    case Some(c) =>
      Choosable(site, v, runtimes, c) && forall k :: Choosable(site, v, runtimes, k) ==> k == c || Before(c, k)
  }

  /** What a runtime must be to get an invocation: one of the target's, in service and with room; preferred, if
      one is; of a kind the consumer mode allows, where a mode that is not known allows both; and, if
      interactive, online on this very host, which has a project root, or else with its connector configured. */
  ghost predicate MayServe(site: Site, v: Invocation, r: Runtime) {
    var interactive := r.kind == "INTERACTIVE" || (r.kind == "" && r.connector == "INTERACTIVE");
    var worker := r.kind == "WORKER" || (r.kind == "" && r.connector != "INTERACTIVE");
    && r.agentId == v.target && r.status !in {"DRAINING", "REVOKED"} && r.active < r.maxConcurrent
    && v.preferredRuntimeId in {"", r.id}
    && (interactive || worker)
    && (v.consumerMode == "INTERACTIVE_ONLY" ==> interactive)
    && (v.consumerMode == "WORKER_ONLY" ==> worker)
    && (interactive ==> r.status == "ONLINE" && r.connector == "INTERACTIVE" && r.hostId != ""
                        && r.hostId == site.hostId && site.projectRoot != "")
    && (worker ==> r.connector !in {"MANUAL", "MCP", "QUEUE"} && r.configReference != ""
                   && r.configReference in site.configs && site.configs[r.configReference] == r.connector)
  }

  lemma EligibleMeaning(site: Site, v: Invocation, r: Runtime)
    ensures Eligible(site, v, r) <==> MayServe(site, v, r)
  {
  }

  /** A runtime that is full, draining, revoked or another agent's makes no difference to any choice. */
  lemma UnfitChangesNothing(site: Site, v: Invocation, runtimes: map<string, Runtime>, k: string, r: Runtime,
                            chosen: Option<string>)
    requires k !in runtimes
    requires r.active >= r.maxConcurrent || r.status == "DRAINING" || r.status == "REVOKED" || r.agentId != v.target
    ensures IsChoice(site, v, runtimes[k := r], chosen) <==> IsChoice(site, v, runtimes, chosen)
  {
    assert !Eligible(site, v, r);
    SameCandidates(site, v, runtimes, k, r);
    SameChoice(site, v, runtimes, runtimes[k := r], chosen);
  }

  lemma SameChoice(site: Site, v: Invocation, a: map<string, Runtime>, b: map<string, Runtime>, chosen: Option<string>)
    requires forall k :: Choosable(site, v, b, k) <==> Choosable(site, v, a, k)
    ensures IsChoice(site, v, b, chosen) <==> IsChoice(site, v, a, chosen)
  {
    hide Choosable, Before;
    if IsChoice(site, v, a, chosen) {
      forall k | Choosable(site, v, b, k) ensures chosen.Some? && (k == chosen.value || Before(chosen.value, k)) {
        assert Choosable(site, v, a, k);
      }
    }
    if IsChoice(site, v, b, chosen) {
      forall k | Choosable(site, v, a, k) ensures chosen.Some? && (k == chosen.value || Before(chosen.value, k)) {
        assert Choosable(site, v, b, k);
      }
    }
  }

  lemma SameCandidates(site: Site, v: Invocation, runtimes: map<string, Runtime>, k: string, r: Runtime)
    requires k !in runtimes && !Eligible(site, v, r)
    ensures forall l :: Choosable(site, v, runtimes[k := r], l) <==> Choosable(site, v, runtimes, l)
  {
    hide Eligible, EffectiveKind;
    var more := runtimes[k := r];
    assert TwoInteractive(site, v, more) <==> TwoInteractive(site, v, runtimes) by {
      if TwoInteractive(site, v, more) {
        var a, b :| a in more && b in more && a != b
          && IsInteractiveCandidate(site, v, more[a]) && IsInteractiveCandidate(site, v, more[b]);
        assert a in runtimes && b in runtimes && runtimes[a] == more[a] && runtimes[b] == more[b];
      }
      if TwoInteractive(site, v, runtimes) {
        var a, b :| a in runtimes && b in runtimes && a != b
          && IsInteractiveCandidate(site, v, runtimes[a]) && IsInteractiveCandidate(site, v, runtimes[b]);
        assert a in more && b in more && runtimes[a] == more[a] && runtimes[b] == more[b];
      }
    }
    hide TwoInteractive;
  }

  /** A runtime that may serve is chosen when it is the only one, and one that may not is not. */
  lemma OnlyRuntimeIsChosen(site: Site, v: Invocation, k: string, r: Runtime)
    ensures IsChoice(site, v, map[k := r], if MayServe(site, v, r) then Some(k) else None)
  {
    EligibleMeaning(site, v, r);
    hide Eligible, MayServe;
    assert !TwoInteractive(site, v, map[k := r]);
    hide TwoInteractive;
  }

  /** Two interactive runtimes that may serve keep each other, but nobody else, from being chosen, unless one
      is preferred. */
  lemma AmbiguityIsRefused(site: Site, v: Invocation, runtimes: map<string, Runtime>, k: string)
    requires k in runtimes
    ensures Choosable(site, v, runtimes, k) <==>
              && MayServe(site, v, runtimes[k])
              && !(&& v.preferredRuntimeId == "" && IsInteractive(runtimes[k])
                   && exists l ::
                        l in runtimes && l != k && IsInteractive(runtimes[l]) && MayServe(site, v, runtimes[l]))
  {
    forall l | l in runtimes ensures Eligible(site, v, runtimes[l]) <==> MayServe(site, v, runtimes[l]) {
      EligibleMeaning(site, v, runtimes[l]);
    }
    forall l | l in runtimes ensures IsInteractive(runtimes[l]) <==> EffectiveKind(runtimes[l]) == INTERACTIVE {
    }
    hide Eligible, MayServe, EffectiveKind, IsInteractive;
  }

  predicate IsInteractive(r: Runtime) {
    r.kind == "INTERACTIVE" || (r.kind == "" && r.connector == "INTERACTIVE")
  }

  // ---------------------------------------------------------------- order of names

  /** `a` comes before `b` in `sort.Strings`. */
  predicate Before(a: string, b: string) {
    b != "" && (a == "" || a[0] < b[0] || (a[0] == b[0] && Before(a[1..], b[1..])))
  }

  lemma {:induction false} BeforeTotal(a: string, b: string)
    ensures a == b || Before(a, b) || Before(b, a)
    ensures !(Before(a, b) && (a == b || Before(b, a)))
  {
    if a != "" && b != "" {
      BeforeTotal(a[1..], b[1..]);
      assert a == [a[0]] + a[1..] && b == [b[0]] + b[1..];
    }
  }

  /** It is the order of the first place they differ in, a prefix coming first. */
  lemma {:induction false} BeforeMeaning(a: string, b: string)
    ensures Before(a, b) <==>
            exists i :: 0 <= i <= |a| && i < |b| && a[..i] == b[..i] && (i == |a| || a[i] < b[i])
  {
    if b != "" && a != "" && a[0] == b[0] {
      BeforeMeaning(a[1..], b[1..]);
      forall i | 0 <= i < |a| && i < |b| ensures a[1..][..i] == b[1..][..i] <==> a[..i + 1] == b[..i + 1] {
        assert a[..i + 1] == [a[0]] + a[1..][..i];
        assert b[..i + 1] == [b[0]] + b[1..][..i];
      }
    }
  }

  lemma {:induction false} BeforeTransitive(a: string, b: string, c: string)
    requires Before(a, b) && Before(b, c)
    ensures Before(a, c)
  {
    if a != "" && a[0] == b[0] == c[0] {
      BeforeTransitive(a[1..], b[1..], c[1..]);
    }
  }

  ghost predicate Sorted(ids: seq<string>) {
    forall i, j :: 0 <= i < j < |ids| ==> Before(ids[i], ids[j])
  }

  method SortedKeys(keys: set<string>) returns (ids: seq<string>)
    ensures Sorted(ids) && forall k :: k in ids <==> k in keys
  {
    ids := [];
    var left := keys;
    while left != {}
      invariant left <= keys && Sorted(ids) && forall k :: k in ids <==> k in keys - left
      decreases |left|
    {
      var k :| k in left;
      left := left - {k};
      ids := Inserted(ids, k);
    }
  }

  method Inserted(ids: seq<string>, k: string) returns (r: seq<string>)
    requires Sorted(ids) && k !in ids
    ensures Sorted(r) && forall l :: l in r <==> l in ids || l == k
  {
    var i := 0;
    while i < |ids| && Before(ids[i], k)
      invariant i <= |ids| && forall j :: 0 <= j < i ==> Before(ids[j], k)
    {
      i := i + 1;
    }
    r := ids[..i] + [k] + ids[i..];
    forall j | i <= j < |ids| ensures Before(k, ids[j]) {
      BeforeTotal(ids[i], k);
      if j > i {
        BeforeTransitive(k, ids[i], ids[j]);
      }
    }
    forall l, m | 0 <= l < m < |r| ensures Before(r[l], r[m]) {
      if l < i && m > i {
        assert Before(ids[l], ids[m - 1]);
      }
    }
  }

  // ---------------------------------------------------------------- selection

  /** The candidates of a list of names, and how many are interactive. */
  function Candidates(site: Site, v: Invocation, runtimes: map<string, Runtime>, ids: seq<string>): (r: seq<string>)
    requires forall k :: k in ids ==> k in runtimes
    ensures forall k :: k in r <==> k in ids && Eligible(site, v, runtimes[k])
  {
    if ids == [] then []
    else
      Candidates(site, v, runtimes, ids[..|ids| - 1])
      + if Eligible(site, v, runtimes[ids[|ids| - 1]]) then [ids[|ids| - 1]] else []
  }

  function Interactives(runtimes: map<string, Runtime>, candidates: seq<string>): nat
    requires forall k :: k in candidates ==> k in runtimes
  {
    if candidates == [] then 0
    else Interactives(runtimes, candidates[..|candidates| - 1])
         + if EffectiveKind(runtimes[candidates[|candidates| - 1]]) == INTERACTIVE then 1 else 0
  }

  lemma {:induction false} CandidatesSorted(site: Site, v: Invocation, runtimes: map<string, Runtime>, ids: seq<string>)
    requires Sorted(ids) && forall k :: k in ids ==> k in runtimes
    ensures Sorted(Candidates(site, v, runtimes, ids))
  {
    if ids != [] {
      hide Eligible, Before;
      var most, last := ids[..|ids| - 1], ids[|ids| - 1];
      CandidatesSorted(site, v, runtimes, most);
      forall k | k in most ensures Before(k, last) {
        var i :| 0 <= i < |most| && most[i] == k;
        assert ids[i] == k;
      }
      var earlier := Candidates(site, v, runtimes, most);
      assert forall i :: 0 <= i < |earlier| ==> earlier[i] in most;
    }
  }

  lemma {:induction false} InteractivesAre(runtimes: map<string, Runtime>, candidates: seq<string>)
    requires Sorted(candidates) && forall k :: k in candidates ==> k in runtimes
    ensures Interactives(runtimes, candidates) == |InteractiveOnes(runtimes, candidates)|
    ensures forall k :: k in InteractiveOnes(runtimes, candidates) <==>
              k in candidates && EffectiveKind(runtimes[k]) == INTERACTIVE
  {
    if candidates != [] {
      var last := candidates[|candidates| - 1];
      InteractivesAre(runtimes, candidates[..|candidates| - 1]);
      var most := candidates[..|candidates| - 1];
      forall k | k in most ensures k != last {
        BeforeTotal(k, last);
      }
    }
  }

  function InteractiveOnes(runtimes: map<string, Runtime>, candidates: seq<string>): set<string>
    requires forall k :: k in candidates ==> k in runtimes
  {
    if candidates == [] then {}
    else
      var last := candidates[|candidates| - 1];
      InteractiveOnes(runtimes, candidates[..|candidates| - 1])
      + if EffectiveKind(runtimes[last]) == INTERACTIVE then {last} else {}
  }

  lemma TwoElements<T>(s: set<T>)
    ensures |s| > 1 <==> exists k, l :: k in s && l in s && k != l
  {
    if |s| > 1 {
      var k :| k in s;
      assert |s - {k}| == |s| - 1;
      var l :| l in s - {k};
    }
    forall k, l | k in s && l in s && k != l ensures |s| > 1 {
      assert |s - {k} - {l}| == |s| - 2;
    }
  }

  /** More than one was counted exactly when there are two. */
  lemma CountedTwo(site: Site, v: Invocation, runtimes: map<string, Runtime>, candidates: seq<string>)
    requires Sorted(candidates)
    requires forall k :: k in candidates <==> k in runtimes && Eligible(site, v, runtimes[k])
    ensures Interactives(runtimes, candidates) > 1 <==> TwoInteractive(site, v, runtimes)
  {
    var found := InteractiveOnes(runtimes, candidates);
    InteractivesAre(runtimes, candidates);
    hide Eligible, EffectiveKind, Sorted, InteractiveOnes, Interactives;
    forall k ensures k in found <==> k in runtimes && IsInteractiveCandidate(site, v, runtimes[k]) {
    }
    hide IsInteractiveCandidate;
    TwoElements(found);
  }

  /** The first choosable runtime by name, if there is one.  With a preference, ambiguity never stands in
      its way: nothing is chosen only if no preferred runtime is eligible. */
  method SelectRuntime(site: Site, v: Invocation, runtimes: map<string, Runtime>) returns (chosen: Option<string>)
    ensures v.preferredRuntimeId != "" ==>
              && (chosen.None? <==> forall k :: k in runtimes ==> !MayServe(site, v, runtimes[k]))
              && (chosen.Some? ==> chosen.value in runtimes && runtimes[chosen.value].id == v.preferredRuntimeId)
    ensures IsChoice(site, v, runtimes, chosen)
    ensures chosen.Some? ==> chosen.value in runtimes && MayServe(site, v, runtimes[chosen.value])
  {
    PreferenceIsChoosable(site, v, runtimes);
    forall k | k in runtimes ensures Eligible(site, v, runtimes[k]) <==> MayServe(site, v, runtimes[k]) {
      EligibleMeaning(site, v, runtimes[k]);
    }
    hide Eligible, MayServe;
    var ids := SortedKeys(runtimes.Keys);
    var candidates, interactive := Collect(site, v, runtimes, ids);
    CandidatesSorted(site, v, runtimes, ids);
    CountedTwo(site, v, runtimes, candidates);
    hide Candidates, Interactives;
    if v.preferredRuntimeId == "" && v.consumerMode == "INTERACTIVE_ONLY" && interactive > 1 {
      InteractiveOnly(site, v, runtimes);
      return None;
    }
    chosen := FirstOf(site, v, runtimes, candidates, interactive);
  }

  method Collect(site: Site, v: Invocation, runtimes: map<string, Runtime>, ids: seq<string>)
      returns (candidates: seq<string>, interactive: nat)
    requires forall k :: k in ids <==> k in runtimes
    ensures candidates == Candidates(site, v, runtimes, ids)
    ensures interactive == Interactives(runtimes, candidates)
  {
    hide Eligible, EffectiveKind;
    candidates, interactive := [], 0;
    for i := 0 to |ids|
      invariant candidates == Candidates(site, v, runtimes, ids[..i])
      invariant interactive == Interactives(runtimes, candidates)
    {
      assert ids[..i + 1][..i] == ids[..i];
      if Eligible(site, v, runtimes[ids[i]]) {
        if EffectiveKind(runtimes[ids[i]]) == INTERACTIVE {
          interactive := interactive + 1;
        }
        candidates := candidates + [ids[i]];
        assert candidates[..|candidates| - 1] == Candidates(site, v, runtimes, ids[..i]);
      }
    }
    assert ids[..|ids|] == ids;
  }

  method FirstOf(site: Site, v: Invocation, runtimes: map<string, Runtime>, candidates: seq<string>, interactive: nat)
      returns (chosen: Option<string>)
    requires Sorted(candidates) && forall k :: k in candidates <==> k in runtimes && Eligible(site, v, runtimes[k])
    requires interactive > 1 <==> TwoInteractive(site, v, runtimes)
    ensures chosen.Some? ==>
              && Choosable(site, v, runtimes, chosen.value)
              && forall k :: Choosable(site, v, runtimes, k) ==> k == chosen.value || Before(chosen.value, k)
    ensures chosen.None? ==> forall k :: !Choosable(site, v, runtimes, k)
  {
    hide Eligible, EffectiveKind, TwoInteractive, Before;
    for i := 0 to |candidates|
      invariant forall j :: 0 <= j < i ==> !Choosable(site, v, runtimes, candidates[j])
    {
      if !(interactive > 1 && v.preferredRuntimeId == "" && EffectiveKind(runtimes[candidates[i]]) == INTERACTIVE) {
        forall k | Choosable(site, v, runtimes, k) ensures k == candidates[i] || Before(candidates[i], k) {
          var j :| 0 <= j < |candidates| && candidates[j] == k;
          assert j >= i;
        }
        return Some(candidates[i]);
      }
    }
    return None;
  }

  /** The early refusal of an invocation for interactive runtimes only is what the search would find. */
  lemma InteractiveOnly(site: Site, v: Invocation, runtimes: map<string, Runtime>)
    requires v.preferredRuntimeId == "" && v.consumerMode == "INTERACTIVE_ONLY" && TwoInteractive(site, v, runtimes)
    ensures forall k :: !Choosable(site, v, runtimes, k)
  {
  }

  lemma PreferenceIsChoosable(site: Site, v: Invocation, runtimes: map<string, Runtime>)
    ensures v.preferredRuntimeId != "" ==> forall k :: k in runtimes ==>
              && (Choosable(site, v, runtimes, k) <==> Eligible(site, v, runtimes[k]))
              && (Choosable(site, v, runtimes, k) ==> runtimes[k].id == v.preferredRuntimeId)
  {
  }
}
