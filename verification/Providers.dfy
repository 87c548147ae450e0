/** Which runtime an agent's identifier names.  Case folding is that of ASCII. */
module Providers {
  import opened Results
  import opened Numerals
  import Contracts

  const BUILT_IN := {"claude", "codex", "opencode"}

  const RESERVED := {
    "agent", "human", "system", "owner", "orchestrator", "observer", "worker", "agc", "agentcomms",
    "unknown", "none", "all"
  }

  const MIN_NAME := 2
  const MAX_NAME := 24

  // ---------------------------------------------------------------- characters

  predicate IsLower(c: char) {
    'a' <= c <= 'z'
  }

  predicate IsUpper(c: char) {
    'A' <= c <= 'Z'
  }

  function Lower(c: char): char {
    if IsUpper(c) then c + 32 as char else c
  }

  function ToLower(s: string): (r: string)
    ensures |r| == |s|
    ensures forall i :: 0 <= i < |s| ==> r[i] == Lower(s[i])
  {
    seq(|s|, i requires 0 <= i < |s| => Lower(s[i]))
  }

  function TrimLeft(s: string): string {
    if s != "" && Contracts.IsSpace(s[0]) then TrimLeft(s[1..]) else s
  }

  function TrimRight(s: string): string {
    if s != "" && Contracts.IsSpace(s[|s| - 1]) then TrimRight(s[..|s| - 1]) else s
  }

  function Folded(s: string): string {
    ToLower(TrimRight(TrimLeft(s)))
  }

  // ---------------------------------------------------------------- names

  /** The grammar of a registered provider's name: no hyphens. */
  predicate IsProviderName(name: string) {
    && MIN_NAME <= |name| <= MAX_NAME && IsLower(name[0])
    && forall i :: 0 <= i < |name| ==> IsLower(name[i]) || IsDigit(name[i])
  }

  predicate IsRegistrableName(name: string) {
    Folded(name) !in BUILT_IN && IsProviderName(name) && name !in RESERVED
  }

  /** What may follow a provider and a hyphen. */
  predicate IsSuffix(s: string) {
    && s != "" && s[0] != '-'
    && forall i :: 0 <= i < |s| ==> IsLower(s[i]) || IsDigit(s[i]) || s[i] == '-'
  }

  /** The names of a set: the built-ins and some more, folded. */
  function NewProviderSet(extra: set<string>): set<string> {
    BUILT_IN + set name | name in extra :: Folded(name)
  }

  predicate Names(id: string, name: string) {
    |name| < |id| && id[..|name|] == name && id[|name|] == '-'
  }

  /** The longest name up to length `k` that an identifier starts with, before a hyphen. */
  function LongestName(names: set<string>, id: string, k: nat): (best: string)
    requires k <= |id|
    ensures best != "" ==> best in names && Names(id, best) && |best| <= k
    ensures forall name :: name in names && Names(id, name) && |name| <= k ==> |name| <= |best|
  {
    if k == 0 then ""
    else if id[..k] in names && Names(id, id[..k]) then id[..k]
    else LongestName(names, id, k - 1)
  }

  function ProviderOf(names: set<string>, id: string): Option<string> {
    if id == "" || id != ToLower(id) then None
    else if id in names then Some(id)
    else
      var best := LongestName(names, id, |id|);
      if best == "" || !IsSuffix(id[|best| + 1..]) then None else Some(best)
  }

  method ReadProviderOf(names: set<string>, id: string) returns (provider: Option<string>)
    ensures provider == ProviderOf(names, id)
  {
    if id == "" || id != ToLower(id) {
      return None;
    }
    if id in names {
      return Some(id);
    }
    var best := "";
    var left := names;
    while left != {}
      invariant left <= names
      invariant best != "" ==> best in names && Names(id, best)
      invariant forall name :: name in names - left && Names(id, name) ==> |name| <= |best|
      decreases |left|
    {
      var name :| name in left;
      left := left - {name};
      if Names(id, name) && |name| > |best| {
        best := name;
      }
    }
    SameLongest(names, id, best);
    if best == "" || !IsSuffix(id[|best| + 1..]) {
      return None;
    }
    return Some(best);
  }

  lemma SameLongest(names: set<string>, id: string, best: string)
    requires best != "" ==> best in names && Names(id, best)
    requires forall name :: name in names && Names(id, name) ==> |name| <= |best|
    ensures best == LongestName(names, id, |id|)
  {
    var longest := LongestName(names, id, |id|);
    assert |longest| <= |best| && |best| <= |longest|;
    assert best == id[..|best|] && longest == id[..|longest|];
  }

  // ---------------------------------------------------------------- stability

  predicate HyphenFree(names: set<string>) {
    forall name, i :: name in names && 0 <= i < |name| ==> name[i] != '-'
  }

  predicate LowerCase(names: set<string>) {
    forall name :: name in names ==> name != "" && name == ToLower(name)
  }

  /** An identifier of a provider: its name, or its name, a hyphen and a suffix. */
  predicate IsAgentID(id: string, name: string) {
    id == name || (Names(id, name) && IsSuffix(id[|name| + 1..]))
  }

  /** The grammar of identifiers, letter by letter. */
  lemma IdentityGrammar(names: set<string>, id: string, name: string)
    requires HyphenFree(names) && LowerCase(names)
    ensures ProviderOf(names, id) == Some(name) <==>
              && name in names && name <= id
              && (id == name ||
                  (&& |id| >= |name| + 2 && id[|name|] == '-' && id[|name| + 1] != '-'
                   && forall i :: |name| < i < |id| ==>
                        'a' <= id[i] <= 'z' || '0' <= id[i] <= '9' || id[i] == '-'))
  {
    ReadingIff(names, id, name);
    hide ProviderOf, HyphenFree, LowerCase;
    if Names(id, name) {
      var rest := id[|name| + 1..];
      assert forall i :: |name| < i < |id| ==> id[i] == rest[i - |name| - 1];
    }
  }

  /** With names free of hyphens, reading an identifier does not depend on the other names: it names a
      provider of the set exactly if it is an identifier of that provider. */
  lemma ReadingIff(names: set<string>, id: string, name: string)
    requires HyphenFree(names) && LowerCase(names)
    ensures ProviderOf(names, id) == Some(name) <==> name in names && IsAgentID(id, name)
  {
    var best := LongestName(names, id, |id|);
    if name in names && IsAgentID(id, name) {
      SuffixIsLower(id, name);
      if id != name {
        assert id[|name|] == '-' && id !in names;
        SameLongest(names, id, name) by {
          forall other | other in names && Names(id, other) ensures |other| <= |name| {
            HyphenInside(id, name, other);
          }
        }
      }
    }
  }

  lemma HyphenInside(id: string, name: string, other: string)
    ensures Names(id, name) && Names(id, other) && |name| < |other| ==> other[|name|] == '-'
  {
    assert Names(id, other) && |name| < |other| ==> other[|name|] == id[..|other|][|name|];
  }

  lemma SuffixIsLower(id: string, name: string)
    requires name == ToLower(name) && IsAgentID(id, name)
    ensures id == ToLower(id)
  {
    forall i | 0 <= i < |id| ensures id[i] == Lower(id[i]) {
      if id != name {
        if i < |name| {
          assert id[i] == id[..|name|][i] == name[i];
        } else if i > |name| {
          assert id[i] == id[|name| + 1..][i - |name| - 1];
        }
      }
    }
  }

  /** A new name leaves every existing identity alone if and only if it is not itself an identity. */
  lemma NewNameDisturbsIff(names: set<string>, name: string)
    requires HyphenFree(names) && LowerCase(names) && name !in names
    ensures (exists id :: ProviderOf(names, id).Some? && ProviderOf(names + {name}, id) != ProviderOf(names, id))
            <==> ProviderOf(names, name).Some?
  {
    if ProviderOf(names, name).Some? {
      assert ProviderOf(names + {name}, name) == Some(name);
      assert ProviderOf(names, name) != Some(name);
    } else {
      forall id | ProviderOf(names, id).Some? ensures ProviderOf(names + {name}, id) == ProviderOf(names, id) {
        NewNameKeeps(names, name, id);
      }
    }
  }

  lemma NewNameKeeps(names: set<string>, name: string, id: string)
    requires HyphenFree(names) && LowerCase(names) && name !in names
    requires ProviderOf(names, name).None? && ProviderOf(names, id).Some?
    ensures ProviderOf(names + {name}, id) == ProviderOf(names, id)
  {
    var p := ProviderOf(names, id).value;
    ReadingIff(names, id, p);
    ReadingIff(names, name, p);
    if id !in names {
      SameLongest(names, id, p);
      forall other | other in names + {name} && Names(id, other) ensures |other| <= |p| {
        if other == name && |name| > |p| {
          PrefixIsAgentID(id, p, name);
        }
      }
      SameLongest(names + {name}, id, p);
    }
  }

  /** A longer name an identifier starts with, before a hyphen, is itself one of the same provider. */
  lemma PrefixIsAgentID(id: string, p: string, name: string)
    requires IsAgentID(id, p) && Names(id, name) && |name| > |p|
    ensures IsAgentID(name, p)
  {
    var suffix := id[|p| + 1..];
    assert name == id[..|name|];
    assert name[..|p|] == p && name[|p|] == '-';
    assert suffix[0] == id[|p| + 1];
    assert forall i :: 0 <= i < |name| - |p| - 1 ==> name[|p| + 1..][i] == suffix[i];
  }

  // ---------------------------------------------------------------- registering and retiring

  datatype Status = Active | Retired

  type Registry = map<string, Status>

  datatype Change = Register(name: string) | Retire(name: string)

  /** A registered name may be registered again; only a known one can be retired. */
  function Changed(registry: Registry, change: Change): Registry {
    match change
    case Register(name) => if IsRegistrableName(name) then registry[name := Active] else registry
    case Retire(name) => if name in registry then registry[name := Retired] else registry
  }

  function History(changes: seq<Change>): Registry {
    if changes == [] then map[] else Changed(History(changes[..|changes| - 1]), changes[|changes| - 1])
  }

  function Registrable(registry: Registry): set<string> {
    NewProviderSet(set name | name in registry && registry[name].Active?)
  }

  function Recognized(registry: Registry): set<string> {
    NewProviderSet(registry.Keys)
  }

  lemma FoldedName(name: string)
    requires IsProviderName(name)
    ensures Folded(name) == name && name == ToLower(name)
  {
  }

  lemma {:induction false} HistoryNames(changes: seq<Change>)
    ensures forall name :: name in History(changes) ==> IsRegistrableName(name)
  {
    if changes != [] {
      HistoryNames(changes[..|changes| - 1]);
    }
  }

  lemma RecognizedNames(changes: seq<Change>)
    ensures HyphenFree(Recognized(History(changes))) && LowerCase(Recognized(History(changes)))
    ensures Recognized(History(changes)) == BUILT_IN + History(changes).Keys
  {
    BuiltInsAreNames();
    HistoryNames(changes);
    hide History, Folded, IsRegistrableName, HyphenFree, LowerCase;
    RegistryNames(History(changes).Keys);
    assert Recognized(History(changes)) == BUILT_IN + History(changes).Keys;
    NamesTogether(BUILT_IN, History(changes).Keys);
  }

  lemma BuiltInsAreNames()
    ensures HyphenFree(BUILT_IN) && LowerCase(BUILT_IN)
  {
    assert ToLower("claude") == "claude" && ToLower("codex") == "codex" && ToLower("opencode") == "opencode";
  }

  lemma RegistryNames(names: set<string>)
    requires forall name :: name in names ==> IsRegistrableName(name)
    ensures HyphenFree(names) && LowerCase(names)
    ensures forall name :: name in names ==> Folded(name) == name
  {
    forall name | name in names ensures Folded(name) == name == ToLower(name) {
      FoldedName(name);
    }
    hide Folded;
  }

  lemma NamesTogether(a: set<string>, b: set<string>)
    requires HyphenFree(a) && HyphenFree(b) && LowerCase(a) && LowerCase(b)
    ensures HyphenFree(a + b) && LowerCase(a + b)
  {
    hide ToLower;
  }

  lemma {:induction false} RecognizedGrows(changes: seq<Change>, n: nat)
    requires n <= |changes|
    ensures History(changes[..n]).Keys <= History(changes).Keys
    decreases |changes|
  {
    if n < |changes| {
      assert changes[..|changes| - 1][..n] == changes[..n];
      RecognizedGrows(changes[..|changes| - 1], n);
    } else {
      assert changes[..n] == changes;
    }
  }

  /** Provider identity is stable: however providers are registered and retired later, an identifier
      that names a provider now names the same one then. */
  lemma IdentityIsStable(changes: seq<Change>, n: nat, id: string)
    requires n <= |changes| && ProviderOf(Recognized(History(changes[..n])), id).Some?
    ensures ProviderOf(Recognized(History(changes)), id) == ProviderOf(Recognized(History(changes[..n])), id)
  {
    var now, later := Recognized(History(changes[..n])), Recognized(History(changes));
    var p := ProviderOf(now, id).value;
    RecognizedNames(changes[..n]);
    RecognizedNames(changes);
    RecognizedGrows(changes, n);
    ReadingIff(now, id, p);
    ReadingIff(later, id, p);
  }

  /** A new agent may use an identifier exactly while the provider it names is built in or active. */
  lemma RegistrableIff(changes: seq<Change>, id: string, p: string)
    ensures ProviderOf(Registrable(History(changes)), id) == Some(p) <==>
              && ProviderOf(Recognized(History(changes)), id) == Some(p)
              && (p in BUILT_IN || (p in History(changes) && History(changes)[p].Active?))
  {
    RecognizedNames(changes);
    RegistrableNames(changes);
    hide Registrable, Recognized, ProviderOf, IsAgentID, HyphenFree, LowerCase;
    ReadingIff(Registrable(History(changes)), id, p);
    ReadingIff(Recognized(History(changes)), id, p);
  }

  lemma RegistrableNames(changes: seq<Change>)
    ensures HyphenFree(Registrable(History(changes))) && LowerCase(Registrable(History(changes)))
    ensures forall p :: p in Registrable(History(changes)) <==>
              && p in Recognized(History(changes))
              && (p in BUILT_IN || (p in History(changes) && History(changes)[p].Active?))
  {
    RecognizedNames(changes);
    HistoryNames(changes);
    var registry := History(changes);
    var active := set name | name in registry && registry[name].Active?;
    forall name | name in registry ensures Folded(name) == name {
      FoldedName(name);
    }
    assert Registrable(registry) == BUILT_IN + active;
  }

  const CODE_HELPER := "claude-code-helper"

  /** Why names have no hyphens: one that had would take over an existing agent. */
  lemma HyphenTakesOver()
    ensures ProviderOf(BUILT_IN, CODE_HELPER) == Some("claude")
    ensures ProviderOf(BUILT_IN + {"claude-code"}, CODE_HELPER) == Some("claude-code")
    ensures !IsRegistrableName("claude-code")
  {
    hide HyphenFree, LowerCase, Folded, ProviderOf;
    assert "claude-code"[6] == '-';
    HelperIsClaudes();
    NewNameWins();
  }

  lemma HelperIsClaudes()
    ensures ProviderOf(BUILT_IN, CODE_HELPER) == Some("claude") && CODE_HELPER == ToLower(CODE_HELPER)
  {
    BuiltInNames();
    hide HyphenFree, Folded, ProviderOf;
    assert CODE_HELPER[..6] == "claude";
    assert IsAgentID(CODE_HELPER, "claude");
    SuffixIsLower(CODE_HELPER, "claude");
    ReadingIff(BUILT_IN, CODE_HELPER, "claude");
  }

  lemma NewNameWins()
    requires CODE_HELPER == ToLower(CODE_HELPER)
    ensures ProviderOf(BUILT_IN + {"claude-code"}, CODE_HELPER) == Some("claude-code")
  {
    hide IsProviderName, HyphenFree, LowerCase, Folded, ToLower;
    assert CODE_HELPER[..11] == "claude-code";
    SameLongest(BUILT_IN + {"claude-code"}, CODE_HELPER, "claude-code");
    assert IsSuffix(CODE_HELPER[12..]);
  }

  lemma BuiltInNames()
    ensures HyphenFree(BUILT_IN) && LowerCase(BUILT_IN)
  {
    RecognizedNames([]);
    assert Recognized(map[]) == BUILT_IN;
  }

  // ---------------------------------------------------------------- default identifiers

  function Candidate(provider: string, n: nat): string {
    if n == 1 then provider else provider + "-" + Decimal(n)
  }

  lemma CandidatesDiffer(provider: string, m: nat, n: nat)
    requires 1 <= m < n
    ensures Candidate(provider, m) != Candidate(provider, n)
  {
    DecimalReads(m);
    DecimalReads(n);
    var prefix := provider + "-";
    assert Candidate(provider, n)[|prefix|..] == Decimal(n);
    if m > 1 {
      assert Candidate(provider, m)[|prefix|..] == Decimal(m);
    }
  }

  /** The first free one of `p`, `p-2`, `p-3`, ...; it is found among the first |taken| + 1. */
  method DefaultAgentActorID(provider: string, taken: set<string>) returns (id: string, n: nat)
    ensures 1 <= n <= |taken| + 1 && id == Candidate(Folded(provider), n) && id !in taken
    ensures id == if n == 1 then Folded(provider) else Folded(provider) + "-" + Decimal(n)
    ensures forall m :: 1 <= m < n ==> Candidate(Folded(provider), m) in taken
  {
    var p := Folded(provider);
    if p !in taken {
      return p, 1;
    }
    n := 2;
    ghost var seen := {p};
    assert Candidate(p, 1) == p;
    while true
      invariant n >= 2 && seen <= taken && |seen| == n - 1 <= |taken|
      invariant forall c :: c in seen <==> exists m :: 1 <= m < n && c == Candidate(p, m)
      decreases |taken| - n
    {
      var candidate := p + "-" + Decimal(n);
      if candidate !in taken {
        return candidate, n;
      }
      assert Candidate(p, n) !in seen by {
        forall m | 1 <= m < n ensures Candidate(p, m) != Candidate(p, n) {
          CandidatesDiffer(p, m, n);
        }
      }
      seen := seen + {candidate};
      SubsetSize(seen, taken);
      n := n + 1;
    }
  }

  lemma SubsetSize<T>(a: set<T>, b: set<T>)
    requires a <= b
    ensures |a| <= |b|
  {
    assert |b - a| == |b| - |a|;
  }

  /** Every default identifier names the provider it was asked for. */
  lemma CandidateNamesProvider(names: set<string>, provider: string, n: nat)
    requires HyphenFree(names) && LowerCase(names) && Folded(provider) in names && n >= 1
    ensures ProviderOf(names, Candidate(Folded(provider), n)) == Some(Folded(provider))
  {
    var p, id := Folded(provider), Candidate(Folded(provider), n);
    if n > 1 {
      assert id[..|p|] == p && id[|p|] == '-' && id[|p| + 1..] == Decimal(n);
    }
    ReadingIff(names, id, p);
  }

  // ---------------------------------------------------------------- the grammar in letters

  /** What trimming and folding leaves: the text between the outer spaces, in lower case. */
  lemma FoldedMeaning(s: string) returns (before: string, text: string, after: string)
    ensures s == before + text + after && Folded(s) == ToLower(text)
    ensures (forall c :: c in before + after ==> Contracts.IsSpace(c))
    ensures text != "" ==> !Contracts.IsSpace(text[0]) && !Contracts.IsSpace(text[|text| - 1])
  {
    var left := TrimLeft(s);
    before := LeftOf(s);
    after := RightOf(left);
    text := TrimRight(left);
    hide Contracts.IsSpace;
    if text != "" {
      assert text[0] == left[0];
    }
  }

  lemma {:induction false} LeftOf(s: string) returns (before: string)
    ensures s == before + TrimLeft(s) && forall c :: c in before ==> Contracts.IsSpace(c)
    ensures TrimLeft(s) != "" ==> !Contracts.IsSpace(TrimLeft(s)[0])
  {
    before := "";
    if s != "" && Contracts.IsSpace(s[0]) {
      var rest := LeftOf(s[1..]);
      before := [s[0]] + rest;
    }
  }

  lemma {:induction false} RightOf(s: string) returns (after: string)
    ensures s == TrimRight(s) + after && forall c :: c in after ==> Contracts.IsSpace(c)
    ensures TrimRight(s) != "" ==> !Contracts.IsSpace(TrimRight(s)[|TrimRight(s)| - 1])
  {
    after := "";
    if s != "" && Contracts.IsSpace(s[|s| - 1]) {
      var rest := RightOf(s[..|s| - 1]);
      after := rest + [s[|s| - 1]];
    }
  }

  /** Lower case changes the capitals A to Z and nothing else. */
  lemma LowerMeaning(s: string, i: nat)
    requires i < |s|
    ensures ToLower(s)[i] == if 'A' <= s[i] <= 'Z' then s[i] - 'A' + 'a' else s[i]
  {
  }

  /** The names a project may register: two to twenty-four small letters and digits, a letter first; not one
      of the built-in providers, and not a word that reads as a role or a tool. */
  lemma RegistrableNameIff(name: string)
    ensures IsRegistrableName(name) <==>
              && 2 <= |name| <= 24 && 'a' <= name[0] <= 'z'
              && (forall i :: 0 <= i < |name| ==> 'a' <= name[i] <= 'z' || '0' <= name[i] <= '9')
              && name !in {"claude", "codex", "opencode"}
              && name !in {"agent", "human", "system", "owner", "orchestrator", "observer", "worker", "agc",
                           "agentcomms", "unknown", "none", "all"}
  {
    if IsProviderName(name) {
      FoldedName(name);
    }
    hide Folded;
  }

  /** A provider is active exactly if its last change that counts registered it; retiring a name that was never
      registered, or registering one the grammar refuses, does nothing. */
  lemma LastChangeDecides(changes: seq<Change>, change: Change, name: string)
    ensures var before, after := History(changes), History(changes + [change]);
            if change == Register(name) && IsRegistrableName(name) then name in after && after[name] == Active
            else if change == Retire(name) && name in before then name in after && after[name] == Retired
            else (name in after <==> name in before) && (name in after ==> after[name] == before[name])
  {
    hide IsRegistrableName;
    assert (changes + [change])[..|changes|] == changes;
  }

  /** Only lower case identifiers are read at all, whatever the names. */
  lemma UpperCaseIsRefused(names: set<string>, id: string, i: nat)
    ensures id == "" || (i < |id| && 'A' <= id[i] <= 'Z') ==> ProviderOf(names, id) == None
  {
    if i < |id| && 'A' <= id[i] <= 'Z' {
      assert ToLower(id)[i] != id[i];
    }
  }
}
