/** Loading domains from several sources (lib/domains/loader.ts, with the default merge strategy).

    Sources are folded in ascending precedence into one domain per id. The order in which the sources
    are given must not matter, and two providers of one id at one precedence are an error. */
module DomainLoader {
  import opened Wrappers

  datatype ResourceKind = Capability | Prompt | Skill | Extension
  datatype Resources =
    Resources(capabilities: set<string>, prompts: set<string>, skills: set<string>, extensions: set<string>)

  function OfKind(r: Resources, kind: ResourceKind): set<string> {
    match kind
    case Capability => r.capabilities
    case Prompt => r.prompts
    case Skill => r.skills
    case Extension => r.extensions
  }

  /** What one directory provides. Agents map ids to definitions; `manifest` stands for the manifest. */
  datatype Found = Found(id: string, manifest: string, portable: bool, agents: map<string, string>,
                         resources: Resources, chains: seq<string>, rootDir: string)

  datatype Source = Source(origin: string, precedence: int, found: seq<Found>)

  datatype Provenance = Provenance(origin: string, precedence: int, rootDir: string)

  datatype Provider = Provider(found: Found, provenance: Provenance)

  datatype LoadedDomain = LoadedDomain(id: string, manifest: string, portable: bool, agents: map<string, string>,
                                       resources: Resources, chains: seq<string>,
                                       provenance: seq<Provenance>, rootDirs: seq<string>)

  datatype Conflict = Conflict(id: string, existing: Provenance, incoming: Provenance)

  function Precedence(p: Provider): int {
    p.provenance.precedence
  }

  /** The providers of a source, in the order of its directories. */
  function ProvidersOf(s: Source): seq<Provider> {
    ProvidersFrom(s, s.found)
  }

  function ProvidersFrom(s: Source, found: seq<Found>): seq<Provider> {
    if found == [] then []
    else ProvidersFrom(s, found[..|found| - 1]) + [ProviderOf(s, found[|found| - 1])]
  }

  function ProviderOf(s: Source, f: Found): Provider {
    Provider(f, Provenance(s.origin, s.precedence, f.rootDir))
  }

  /** All providers, source by source. */
  function AllProviders(sources: seq<Source>): seq<Provider> {
    if sources == [] then [] else AllProviders(sources[..|sources| - 1]) + ProvidersOf(sources[|sources| - 1])
  }

  function Single(p: Provider): LoadedDomain {
    var f := p.found;
    LoadedDomain(f.id, f.manifest, f.portable, f.agents, f.resources, f.chains, [p.provenance], [f.rootDir])
  }

  function MergeDomains(existing: LoadedDomain, incoming: LoadedDomain): LoadedDomain {
    LoadedDomain(incoming.id, incoming.manifest, incoming.portable,
                 existing.agents + incoming.agents,
                 Resources(existing.resources.capabilities + incoming.resources.capabilities,
                           existing.resources.prompts + incoming.resources.prompts,
                           existing.resources.skills + incoming.resources.skills,
                           existing.resources.extensions + incoming.resources.extensions),
                 existing.chains + incoming.chains,
                 incoming.provenance + existing.provenance,
                 incoming.rootDirs + existing.rootDirs)
  }

  // ------------------------------------------------------------------ what a merged domain is

  predicate Ascending(ps: seq<Provider>) {
    forall i, j :: 0 <= i < j < |ps| ==> Precedence(ps[i]) < Precedence(ps[j])
  }

  /** The merge of some providers, the lowest precedence first. */
  function Fold(ps: seq<Provider>): LoadedDomain
    requires ps != []
  {
    var last := ps[|ps| - 1];
    if |ps| == 1 then Single(last) else MergeDomains(Fold(ps[..|ps| - 1]), Single(last))
  }

  function Chains(ps: seq<Provider>): seq<string> {
    if ps == [] then [] else Chains(ps[..|ps| - 1]) + ps[|ps| - 1].found.chains
  }

  /** The chains of the first providers come first. */
  lemma {:induction false} ChainsOfSum(a: seq<Provider>, b: seq<Provider>, p: Provider)
    ensures Chains(a + b) == Chains(a) + Chains(b) && Chains([p]) == p.found.chains
  {
    assert [p][..0] == [];
    if b == [] {
      assert a + b == a;
    } else {
      var n := |b| - 1;
      ChainsOfSum(a, b[..n], p);
      assert (a + b)[..|a| + n] == a + b[..n];
      assert Chains(a) + Chains(b[..n]) + b[n].found.chains == Chains(a) + (Chains(b[..n]) + b[n].found.chains);
    }
  }

  /** The providers of a source are what it has found, in that order, under its origin and precedence. */
  lemma {:induction false} ProvidersAre(s: Source, found: seq<Found>)
    ensures |ProvidersFrom(s, found)| == |found|
    ensures forall k :: 0 <= k < |found| ==>
      ProvidersFrom(s, found)[k] == Provider(found[k], Provenance(s.origin, s.precedence, found[k].rootDir))
  {
    if found != [] {
      ProvidersAre(s, found[..|found| - 1]);
    }
  }

  /** An agent comes from the last provider that has it. */
  ghost predicate AgentsOf(agents: map<string, string>, ps: seq<Provider>) {
    && (forall a :: a in agents ==> exists i :: 0 <= i < |ps| && a in ps[i].found.agents)
    && (forall a, i :: 0 <= i < |ps| && a in ps[i].found.agents && (forall j :: i < j < |ps| ==> a !in ps[j].found.agents)
          ==> a in agents && agents[a] == ps[i].found.agents[a])
  }

  /** The other resources are unions. */
  ghost predicate ResourcesOf(r: Resources, ps: seq<Provider>) {
    forall kind, name :: name in OfKind(r, kind) <==> exists i :: 0 <= i < |ps| && name in OfKind(ps[i].found.resources, kind)
  }

  /** Directories and provenance are in descending order of precedence. */
  ghost predicate DirectoriesOf(d: LoadedDomain, ps: seq<Provider>) {
    && |d.rootDirs| == |d.provenance| == |ps|
    && (forall i :: 0 <= i < |ps| ==> d.provenance[i] == ps[|ps| - 1 - i].provenance)
    && (forall i :: 0 <= i < |ps| ==> d.rootDirs[i] == ps[|ps| - 1 - i].found.rootDir)
  }

  lemma {:induction false} FoldAgentsAreProvided(ps: seq<Provider>)
    requires ps != []
    ensures forall a :: a in Fold(ps).agents ==> exists i :: 0 <= i < |ps| && a in ps[i].found.agents
  {
    var n := |ps| - 1;
    var before := ps[..n];
    if n > 0 {
      FoldAgentsAreProvided(before);
      forall a | a in Fold(ps).agents ensures exists i :: 0 <= i < |ps| && a in ps[i].found.agents {
        if a !in ps[n].found.agents {
          assert a in Fold(before).agents;
          var i :| 0 <= i < |before| && a in before[i].found.agents;
          assert a in ps[i].found.agents;
        }
      }
    }
  }

  lemma {:induction false} FoldTakesLast(ps: seq<Provider>, a: string, i: nat)
    requires i < |ps| && a in ps[i].found.agents && (forall j :: i < j < |ps| ==> a !in ps[j].found.agents)
    ensures a in Fold(ps).agents && Fold(ps).agents[a] == ps[i].found.agents[a]
  {
    var n := |ps| - 1;
    if i < n {
      assert a !in ps[n].found.agents;
      FoldTakesLast(ps[..n], a, i);
    }
  }

  lemma FoldAgents(ps: seq<Provider>)
    requires ps != []
    ensures AgentsOf(Fold(ps).agents, ps)
  {
    FoldAgentsAreProvided(ps);
    forall a, i | 0 <= i < |ps| && a in ps[i].found.agents && (forall j :: i < j < |ps| ==> a !in ps[j].found.agents)
      ensures a in Fold(ps).agents && Fold(ps).agents[a] == ps[i].found.agents[a]
    {
      FoldTakesLast(ps, a, i);
    }
  }

  lemma {:induction false} FoldResources(ps: seq<Provider>)
    requires ps != []
    ensures ResourcesOf(Fold(ps).resources, ps)
  {
    var n := |ps| - 1;
    if n > 0 {
      var before := ps[..n];
      FoldResources(before);
      forall kind, name
        ensures name in OfKind(Fold(ps).resources, kind) <==> exists i :: 0 <= i < |ps| && name in OfKind(ps[i].found.resources, kind)
      {
        assert OfKind(Fold(ps).resources, kind) == OfKind(Fold(before).resources, kind) + OfKind(ps[n].found.resources, kind);
        if name in OfKind(Fold(before).resources, kind) {
          var i :| 0 <= i < n && name in OfKind(before[i].found.resources, kind);
          assert name in OfKind(ps[i].found.resources, kind);
        }
        if i :| 0 <= i < n && name in OfKind(ps[i].found.resources, kind) {
          assert name in OfKind(before[i].found.resources, kind);
        }
      }
    }
  }

  lemma {:induction false} FoldChains(ps: seq<Provider>)
    requires ps != []
    ensures Fold(ps).chains == Chains(ps)
  {
    var n := |ps| - 1;
    if n > 0 {
      FoldChains(ps[..n]);
    } else {
      assert Chains(ps[..0]) == [];
    }
  }

  /** One more provider comes in front. */
  lemma InFront(before: LoadedDomain, p: Provider, ps: seq<Provider>)
    requires ps != [] && p == ps[|ps| - 1] && DirectoriesOf(before, ps[..|ps| - 1])
    ensures DirectoriesOf(MergeDomains(before, Single(p)), ps)
  {
    var d := MergeDomains(before, Single(p));
    assert d.provenance == [p.provenance] + before.provenance && d.rootDirs == [p.found.rootDir] + before.rootDirs;
  }

  lemma {:induction false} FoldDirectories(ps: seq<Provider>)
    requires ps != []
    ensures DirectoriesOf(Fold(ps), ps)
  {
    var n := |ps| - 1;
    if n > 0 {
      FoldDirectories(ps[..n]);
      InFront(Fold(ps[..n]), ps[n], ps);
    }
  }

  /** Folding is merging: what comes out is the domain that its providers describe. The last one gives
      manifest and flag, and chains are in ascending order of precedence. */
  lemma FoldIsMerge(ps: seq<Provider>)
    requires ps != []
    ensures var d, last := Fold(ps), ps[|ps| - 1].found;
      && d.id == last.id && d.manifest == last.manifest && d.portable == last.portable
      && AgentsOf(d.agents, ps) && ResourcesOf(d.resources, ps)
      && d.chains == Chains(ps) && DirectoriesOf(d, ps)
  {
    FoldAgents(ps);
    FoldResources(ps);
    FoldChains(ps);
    FoldDirectories(ps);
  }

  /** From ascending providers the directories come out strictly descending. */
  lemma DirectoriesDescend(ps: seq<Provider>)
    requires ps != [] && Ascending(ps)
    ensures var v := Fold(ps).provenance; forall i, j :: 0 <= i < j < |v| ==> v[i].precedence > v[j].precedence
  {
    FoldDirectories(ps);
  }

  // ------------------------------------------------------------------ what loading should give

  predicate Active(active: Option<set<string>>, id: string) {
    active.None? || id in active.value
  }

  /** Two active providers of one id at one precedence. */
  predicate Clash(active: Option<set<string>>, x: Provider, y: Provider) {
    x.found.id == y.found.id && Active(active, x.found.id) && Precedence(x) == Precedence(y)
  }

  ghost predicate Clashing(m: multiset<Provider>, active: Option<set<string>>) {
    exists x, y :: x in m && y in m && Clash(active, x, y) && (x == y ==> m[x] >= 2)
  }

  lemma {:induction false} TwiceInSequence(ps: seq<Provider>, x: Provider) returns (a: nat, b: nat)
    requires multiset(ps)[x] >= 2
    ensures a < b < |ps| && ps[a] == x && ps[b] == x
  {
    var n := |ps| - 1;
    assert ps == ps[..n] + [ps[n]];
    if ps[n] == x {
      assert x in multiset(ps[..n]);
      a :| 0 <= a < n && ps[..n][a] == x;
      b := n;
    } else {
      a, b := TwiceInSequence(ps[..n], x);
    }
  }

  predicate SameIdAndPrecedence(active: Option<set<string>>, ps: seq<Provider>, a: nat, b: nat)
    requires a < |ps| && b < |ps|
  {
    && ps[a].found.id == ps[b].found.id && (active.None? || ps[a].found.id in active.value)
    && ps[a].provenance.precedence == ps[b].provenance.precedence
  }

  /** A clash is two places among the providers that hold the same active id at the same precedence. */
  lemma ClashingIff(ps: seq<Provider>, active: Option<set<string>>)
    ensures Clashing(multiset(ps), active) <==> exists a: nat, b: nat :: a < b < |ps| && SameIdAndPrecedence(active, ps, a, b)
  {
    var m := multiset(ps);
    if Clashing(m, active) {
      var x, y :| x in m && y in m && Clash(active, x, y) && (x == y ==> m[x] >= 2);
      if x == y {
        var a, b := TwiceInSequence(ps, x);
        assert SameIdAndPrecedence(active, ps, a, b);
      } else {
        var a: nat :| a < |ps| && ps[a] == x;
        var b: nat :| b < |ps| && ps[b] == y;
        assert SameIdAndPrecedence(active, ps, a, b) && SameIdAndPrecedence(active, ps, b, a);
      }
    }
    if a: nat, b: nat :| a < b < |ps| && SameIdAndPrecedence(active, ps, a, b) {
      PlacesClash(ps, active, a, b);
    }
  }

  lemma PlacesClash(ps: seq<Provider>, active: Option<set<string>>, a: nat, b: nat)
    requires a < b < |ps| && SameIdAndPrecedence(active, ps, a, b)
    ensures Clashing(multiset(ps), active)
  {
    assert ps == ps[..b] + [ps[b]] + ps[b + 1..];
    assert ps[a] in ps[..b];
    var x, y := ps[a], ps[b];
    assert x in multiset(ps) && y in multiset(ps) && Clash(active, x, y);
    if x == y {
      assert multiset(ps) == multiset(ps[..b]) + multiset{y} + multiset(ps[b + 1..]);
    }
  }

  /** The error names two providers that clash, and the one that comes first as the existing one. */
  ghost predicate Names(c: Conflict, ps: seq<Provider>, active: Option<set<string>>) {
    exists a: nat, b: nat :: a < b < |ps| && SameIdAndPrecedence(active, ps, a, b) &&
                             c == Conflict(ps[a].found.id, ps[a].provenance, ps[b].provenance)
  }

  /** `ps` lists all providers of an id, the lowest precedence first. */
  ghost predicate Listing(ps: seq<Provider>, m: multiset<Provider>, id: string) {
    ps != [] && Ascending(ps) && forall x :: x in ps <==> x in m && x.found.id == id
  }

  /** Every active id that is provided has the merge of all its providers in ascending precedence. */
  ghost predicate DomainsOf(domains: map<string, LoadedDomain>, m: multiset<Provider>, active: Option<set<string>>) {
    forall id :: DomainOf(domains, m, active, id)
  }

  ghost predicate DomainOf(domains: map<string, LoadedDomain>, m: multiset<Provider>, active: Option<set<string>>, id: string) {
    && (id in domains <==> Active(active, id) && exists x :: x in m && x.found.id == id)
    && (id in domains ==> exists ps :: Listing(ps, m, id) && domains[id] == Fold(ps))
  }

  /** Loading fails exactly if two active providers clash. */
  ghost predicate IsLoaded(r: Result<map<string, LoadedDomain>, Conflict>, m: multiset<Provider>, active: Option<set<string>>) {
    (r.Err? <==> Clashing(m, active)) && (r.Ok? ==> DomainsOf(r.value, m, active))
  }

  ghost predicate SameElements(ps: seq<Provider>, qs: seq<Provider>) {
    forall x :: x in ps <==> x in qs
  }

  lemma LastIsHighest(ps: seq<Provider>, q: Provider)
    requires Ascending(ps) && q in ps
    ensures Precedence(q) <= Precedence(ps[|ps| - 1])
    ensures Precedence(q) == Precedence(ps[|ps| - 1]) ==> q == ps[|ps| - 1]
  {
    var j :| 0 <= j < |ps| && ps[j] == q;
  }

  lemma SameLast(ps: seq<Provider>, qs: seq<Provider>)
    requires Ascending(ps) && Ascending(qs) && SameElements(ps, qs) && ps != []
    ensures qs != [] && ps[|ps| - 1] == qs[|qs| - 1]
  {
    assert ps[|ps| - 1] in qs;
    assert qs[|qs| - 1] in ps;
    LastIsHighest(ps, qs[|qs| - 1]);
    LastIsHighest(qs, ps[|ps| - 1]);
  }

  lemma SameInit(ps: seq<Provider>, qs: seq<Provider>)
    requires Ascending(ps) && Ascending(qs) && SameElements(ps, qs) && ps != [] && qs != []
    requires ps[|ps| - 1] == qs[|qs| - 1]
    ensures SameElements(ps[..|ps| - 1], qs[..|qs| - 1])
  {
    var ps', qs' := ps[..|ps| - 1], qs[..|qs| - 1];
    forall x ensures x in ps' <==> x in qs' {
      AscendingInit(ps, x);
      AscendingInit(qs, x);
    }
  }

  lemma InitIsAscending(ps: seq<Provider>)
    requires Ascending(ps) && ps != []
    ensures Ascending(ps[..|ps| - 1]) && ps == ps[..|ps| - 1] + [ps[|ps| - 1]]
  {
  }

  /** There is only one way to list the providers of an id. */
  lemma {:induction false} ListingIsUnique(ps: seq<Provider>, qs: seq<Provider>)
    requires Ascending(ps) && Ascending(qs) && SameElements(ps, qs)
    ensures ps == qs
  {
    if ps == [] {
      assert forall i :: 0 <= i < |qs| ==> qs[i] in ps;
    } else {
      SameLast(ps, qs);
      SameInit(ps, qs);
      InitIsAscending(ps);
      InitIsAscending(qs);
      ListingIsUnique(ps[..|ps| - 1], qs[..|qs| - 1]);
    }
  }

  lemma AscendingInit(ps: seq<Provider>, x: Provider)
    requires ps != [] && Ascending(ps)
    ensures x in ps[..|ps| - 1] <==> x in ps && x != ps[|ps| - 1]
  {
    if x in ps && x != ps[|ps| - 1] {
      var i :| 0 <= i < |ps| && ps[i] == x;
      assert ps[..|ps| - 1][i] == x;
    }
  }

  lemma DomainIsUnique(c: map<string, LoadedDomain>, d: map<string, LoadedDomain>, m: multiset<Provider>,
                       active: Option<set<string>>, id: string)
    requires DomainOf(c, m, active, id) && DomainOf(d, m, active, id)
    ensures id in c <==> id in d
    ensures id in c ==> c[id] == d[id]
  {
    if id in c {
      var ps :| Listing(ps, m, id) && c[id] == Fold(ps);
      var qs :| Listing(qs, m, id) && d[id] == Fold(qs);
      ListingIsUnique(ps, qs);
    }
  }

  /** So the providers alone decide what is loaded. */
  lemma DomainsAreUnique(c: map<string, LoadedDomain>, d: map<string, LoadedDomain>, m: multiset<Provider>, active: Option<set<string>>)
    requires DomainsOf(c, m, active) && DomainsOf(d, m, active)
    ensures c == d
  {
    forall id ensures (id in c <==> id in d) && (id in c ==> c[id] == d[id]) {
      assert DomainOf(c, m, active, id) && DomainOf(d, m, active, id);
      DomainIsUnique(c, d, m, active, id);
    }
  }

  // ------------------------------------------------------------------ sorting the sources

  function InsertSource(s: Source, sorted: seq<Source>): seq<Source> {
    if sorted == [] || sorted[|sorted| - 1].precedence <= s.precedence then sorted + [s]
    else InsertSource(s, sorted[..|sorted| - 1]) + [sorted[|sorted| - 1]]
  }

  /** A stable sort by precedence. */
  function SortSources(sources: seq<Source>): seq<Source> {
    if sources == [] then [] else InsertSource(sources[|sources| - 1], SortSources(sources[..|sources| - 1]))
  }

  predicate NeverDescends(sources: seq<Source>) {
    forall i, j :: 0 <= i < j < |sources| ==> sources[i].precedence <= sources[j].precedence
  }

  lemma {:induction false} InsertKeepsOrder(s: Source, sorted: seq<Source>)
    requires NeverDescends(sorted)
    ensures NeverDescends(InsertSource(s, sorted))
    ensures forall x :: x in InsertSource(s, sorted) ==> x == s || x in sorted
  {
    if !(sorted == [] || sorted[|sorted| - 1].precedence <= s.precedence) {
      var n := |sorted| - 1;
      var rest := InsertSource(s, sorted[..n]);
      InsertKeepsOrder(s, sorted[..n]);
      forall i | 0 <= i < |rest| ensures rest[i].precedence <= sorted[n].precedence {
        assert rest[i] in rest;
        assert rest[i] == s || rest[i] in sorted[..n];
      }
    }
  }

  lemma {:induction false} InsertKeepsProviders(s: Source, sorted: seq<Source>)
    ensures multiset(AllProviders(InsertSource(s, sorted))) == multiset(AllProviders(sorted)) + multiset(ProvidersOf(s))
  {
    if sorted == [] || sorted[|sorted| - 1].precedence <= s.precedence {
      assert (sorted + [s])[..|sorted|] == sorted;
    } else {
      var n := |sorted| - 1;
      var rest := InsertSource(s, sorted[..n]);
      InsertKeepsProviders(s, sorted[..n]);
      assert (rest + [sorted[n]])[..|rest|] == rest;
    }
  }

  lemma {:induction false} SortSorts(sources: seq<Source>)
    ensures NeverDescends(SortSources(sources))
    ensures multiset(AllProviders(SortSources(sources))) == multiset(AllProviders(sources))
  {
    if sources != [] {
      SortSorts(sources[..|sources| - 1]);
      InsertKeepsOrder(sources[|sources| - 1], SortSources(sources[..|sources| - 1]));
      InsertKeepsProviders(sources[|sources| - 1], SortSources(sources[..|sources| - 1]));
    }
  }

  /** The sources of one precedence, in their order. */
  function OfPrecedence(sources: seq<Source>, precedence: int): seq<Source> {
    if sources == [] then []
    else
      var last := sources[|sources| - 1];
      OfPrecedence(sources[..|sources| - 1], precedence) + if last.precedence == precedence then [last] else []
  }

  lemma OfPrecedenceAppend(sources: seq<Source>, s: Source, precedence: int)
    ensures OfPrecedence(sources + [s], precedence) == OfPrecedence(sources, precedence) + if s.precedence == precedence then [s] else []
  {
    assert (sources + [s])[..|sources|] == sources;
  }

  lemma Exchange<T>(a: seq<T>, b: seq<T>, c: seq<T>)
    requires b == [] || c == []
    ensures a + b + c == a + c + b
  {
    assert a + [] == a;
  }

  lemma {:induction false} InsertIsStable(s: Source, sorted: seq<Source>, precedence: int)
    ensures OfPrecedence(InsertSource(s, sorted), precedence) ==
            OfPrecedence(sorted, precedence) + if s.precedence == precedence then [s] else []
  {
    if sorted == [] || sorted[|sorted| - 1].precedence <= s.precedence {
      OfPrecedenceAppend(sorted, s, precedence);
    } else {
      var n := |sorted| - 1;
      InsertIsStable(s, sorted[..n], precedence);
      OfPrecedenceAppend(InsertSource(s, sorted[..n]), sorted[n], precedence);
      Exchange(OfPrecedence(sorted[..n], precedence), if s.precedence == precedence then [s] else [],
               if sorted[n].precedence == precedence then [sorted[n]] else []);
    }
  }

  /** Sorting keeps the order of the sources of one precedence. */
  lemma {:induction false} SortIsStable(sources: seq<Source>, precedence: int)
    ensures OfPrecedence(SortSources(sources), precedence) == OfPrecedence(sources, precedence)
  {
    if sources != [] {
      var n := |sources| - 1;
      SortIsStable(sources[..n], precedence);
      InsertIsStable(sources[n], SortSources(sources[..n]), precedence);
    }
  }

  lemma {:induction false} AllProvidersAppend(a: seq<Source>, b: seq<Source>)
    ensures AllProviders(a + b) == AllProviders(a) + AllProviders(b)
  {
    if b == [] {
      assert a + b == a;
    } else {
      var n := |b| - 1;
      AllProvidersAppend(a, b[..n]);
      assert (a + b)[..|a + b| - 1] == a + b[..n];
      assert AllProviders(a) + (AllProviders(b[..n]) + ProvidersOf(b[n])) ==
             AllProviders(a) + AllProviders(b[..n]) + ProvidersOf(b[n]);
    }
  }

  /** The same sources in another order have the same providers. */
  lemma {:induction false} SameProviders(a: seq<Source>, b: seq<Source>)
    requires multiset(a) == multiset(b)
    ensures multiset(AllProviders(a)) == multiset(AllProviders(b))
  {
    if a == [] {
      assert |multiset(b)| == |multiset(a)| == 0;
    } else {
      var n := |a| - 1;
      assert a == a[..n] + [a[n]];
      assert a[n] in multiset(a);
      var i :| 0 <= i < |b| && b[i] == a[n];
      var left, right := b[..i], b[i + 1..];
      assert b == left + ([a[n]] + right);
      assert multiset(left + right) == multiset(b) - multiset{a[n]};
      assert multiset(a[..n]) == multiset(a) - multiset{a[n]};
      SameProviders(a[..n], left + right);
      AllProvidersAppend(left, right);
      AllProvidersAppend(left, [a[n]] + right);
      AllProvidersAppend([a[n]], right);
      AllProvidersAppend(a[..n], [a[n]]);
    }
  }

  // ------------------------------------------------------------------ loading

  /** The providers of an id among some providers, in their order. */
  function Of(ps: seq<Provider>, id: string): seq<Provider> {
    if ps == [] then []
    else
      var last := ps[|ps| - 1];
      if last.found.id == id then Of(ps[..|ps| - 1], id) + [last] else Of(ps[..|ps| - 1], id)
  }

  lemma {:induction false} OfElements(ps: seq<Provider>, id: string)
    ensures forall x :: x in Of(ps, id) <==> x in ps && x.found.id == id
  {
    if ps != [] {
      OfElements(ps[..|ps| - 1], id);
      assert ps == ps[..|ps| - 1] + [ps[|ps| - 1]];
    }
  }

  ghost predicate AccumulatedAt(acc: map<string, LoadedDomain>, ps: seq<Provider>, active: Option<set<string>>, id: string) {
    && (id in acc <==> Active(active, id) && Of(ps, id) != [])
    && (id in acc ==> Ascending(Of(ps, id)) && acc[id] == Fold(Of(ps, id)))
  }

  /** The domains accumulated from the providers `ps`. */
  ghost predicate Accumulated(acc: map<string, LoadedDomain>, ps: seq<Provider>, active: Option<set<string>>) {
    forall id :: AccumulatedAt(acc, ps, active, id)
  }

  lemma OneMoreClash(ps: seq<Provider>, p: Provider, active: Option<set<string>>)
    requires !Clashing(multiset(ps), active)
    ensures Clashing(multiset(ps + [p]), active) <==> exists q :: q in ps && Clash(active, q, p)
  {
    var m := multiset(ps + [p]);
    assert m == multiset(ps) + multiset{p};
    if q :| q in ps && Clash(active, q, p) {
      assert q in m && p in m;
    }
    if Clashing(m, active) {
      var x, y :| x in m && y in m && Clash(active, x, y) && (x == y ==> m[x] >= 2);
      if x == p {
        assert y in ps && Clash(active, y, p);
      } else if y == p {
        assert x in ps && Clash(active, x, p);
      } else {
        assert false;
      }
    }
  }

  lemma OfAppend(ps: seq<Provider>, p: Provider, id: string)
    ensures Of(ps + [p], id) == if p.found.id == id then Of(ps, id) + [p] else Of(ps, id)
  {
    assert (ps + [p])[..|ps|] == ps;
  }

  /** One more provider, of a precedence that is not below the others, is merged in if it does not clash. */
  function Add(acc: map<string, LoadedDomain>, p: Provider, active: Option<set<string>>): map<string, LoadedDomain> {
    var id := p.found.id;
    if !Active(active, id) then acc
    else acc[id := if id in acc then MergeDomains(acc[id], Single(p)) else Single(p)]
  }

  lemma AddMine(acc: map<string, LoadedDomain>, ps: seq<Provider>, p: Provider, active: Option<set<string>>)
    requires AccumulatedAt(acc, ps, active, p.found.id) && forall q :: q in ps ==> !Clash(active, q, p)
    requires forall q :: q in ps ==> Precedence(q) <= Precedence(p)
    ensures AccumulatedAt(Add(acc, p, active), ps + [p], active, p.found.id)
  {
    var id := p.found.id;
    var mine := Of(ps, id);
    OfAppend(ps, p, id);
    OfElements(ps, id);
    if Active(active, id) {
      forall i | 0 <= i < |mine| ensures Precedence(mine[i]) < Precedence(p) {
        assert mine[i] in mine && !Clash(active, mine[i], p);
      }
      assert (mine + [p])[..|mine|] == mine;
    }
  }

  lemma Accumulate(acc: map<string, LoadedDomain>, ps: seq<Provider>, p: Provider, active: Option<set<string>>)
    requires Accumulated(acc, ps, active) && forall q :: q in ps ==> !Clash(active, q, p)
    requires forall q :: q in ps ==> Precedence(q) <= Precedence(p)
    ensures Accumulated(Add(acc, p, active), ps + [p], active)
  {
    forall id ensures AccumulatedAt(Add(acc, p, active), ps + [p], active, id) {
      assert AccumulatedAt(acc, ps, active, id);
      if id == p.found.id {
        AddMine(acc, ps, p, active);
      } else {
        OfAppend(ps, p, id);
      }
    }
  }

  /** The precedence of an accumulated domain's provenance tells whether a provider clashes. */
  lemma ProvenanceTellsClash(acc: map<string, LoadedDomain>, ps: seq<Provider>, p: Provider, active: Option<set<string>>)
    requires AccumulatedAt(acc, ps, active, p.found.id) && p.found.id in acc
    ensures (exists i :: 0 <= i < |acc[p.found.id].provenance| && acc[p.found.id].provenance[i].precedence == Precedence(p))
            <==> (exists q :: q in ps && Clash(active, q, p))
  {
    var mine, v := Of(ps, p.found.id), acc[p.found.id].provenance;
    OfElements(ps, p.found.id);
    FoldDirectories(mine);
    if i :| 0 <= i < |v| && v[i].precedence == Precedence(p) {
      var q := mine[|mine| - 1 - i];
      assert q in mine && Clash(active, q, p);
    }
    if q :| q in ps && Clash(active, q, p) {
      assert q in mine;
      var j :| 0 <= j < |mine| && mine[j] == q;
      assert v[|mine| - 1 - j].precedence == Precedence(p);
    }
  }

  lemma ConflictIsNamed(acc: map<string, LoadedDomain>, ps: seq<Provider>, p: Provider, active: Option<set<string>>, same: Provenance)
    requires AccumulatedAt(acc, ps, active, p.found.id) && p.found.id in acc
    requires same in acc[p.found.id].provenance && same.precedence == Precedence(p)
    ensures Names(Conflict(p.found.id, same, p.provenance), ps + [p], active)
  {
    var mine, v := Of(ps, p.found.id), acc[p.found.id].provenance;
    OfElements(ps, p.found.id);
    FoldDirectories(mine);
    var i :| 0 <= i < |v| && v[i] == same;
    var q := mine[|mine| - 1 - i];
    assert q in mine && Clash(active, q, p);
    var all := ps + [p];
    var a: nat :| a < |ps| && ps[a] == q;
    assert all[a] == q && all[|ps|] == p && SameIdAndPrecedence(active, all, a, |ps|);
  }

  lemma AccumulatedIsLoaded(acc: map<string, LoadedDomain>, ps: seq<Provider>, active: Option<set<string>>)
    requires Accumulated(acc, ps, active)
    ensures DomainsOf(acc, multiset(ps), active)
  {
    forall id ensures DomainOf(acc, multiset(ps), active, id) {
      assert AccumulatedAt(acc, ps, active, id);
      OfElements(ps, id);
      if Of(ps, id) != [] {
        assert Of(ps, id)[0] in Of(ps, id);
        assert Of(ps, id)[0] in multiset(ps);
        assert id in acc ==> Listing(Of(ps, id), multiset(ps), id);
      }
    }
  }

  /** The step of the fold for one provider. */
  method AddProvider(acc: map<string, LoadedDomain>, p: Provider, active: Option<set<string>>, ghost ps: seq<Provider>)
    returns (r: Result<map<string, LoadedDomain>, Conflict>)
    requires Accumulated(acc, ps, active) && !Clashing(multiset(ps), active)
    requires forall q :: q in ps ==> Precedence(q) <= Precedence(p)
    ensures r.Err? <==> Clashing(multiset(ps + [p]), active)
    ensures r.Err? ==> Names(r.error, ps + [p], active)
    ensures r.Ok? ==> r.value == Add(acc, p, active) && Accumulated(r.value, ps + [p], active)
  {
    var id := p.found.id;
    OneMoreClash(ps, p, active);
    if !Active(active, id) {
      Accumulate(acc, ps, p, active);
      return Ok(acc);
    }
    assert AccumulatedAt(acc, ps, active, id);
    if id !in acc {
      OfElements(ps, id);
      Accumulate(acc, ps, p, active);
      return Ok(acc[id := Single(p)]);
    }
    ProvenanceTellsClash(acc, ps, p, active);
    var same := SamePrecedence(acc[id].provenance, Precedence(p));
    if same.Some? {
      ConflictIsNamed(acc, ps, p, active, same.value);
      return Err(Conflict(id, same.value, p.provenance));
    }
    Accumulate(acc, ps, p, active);
    r := Ok(acc[id := MergeDomains(acc[id], Single(p))]);
  }

  /** The fold over the providers of one source. */
  method AddProviders(acc: map<string, LoadedDomain>, providers: seq<Provider>, active: Option<set<string>>, ghost before: seq<Provider>)
    returns (r: Result<map<string, LoadedDomain>, Conflict>)
    requires Accumulated(acc, before, active) && !Clashing(multiset(before), active)
    requires forall i, q :: 0 <= i < |providers| && q in before + providers ==> Precedence(q) <= Precedence(providers[i])
    ensures r.Err? <==> Clashing(multiset(before + providers), active)
    ensures r.Err? ==> Names(r.error, before + providers, active)
    ensures r.Ok? ==> Accumulated(r.value, before + providers, active)
  {
    var all := acc;
    assert before + providers[..0] == before;
    var j := 0;
    while j < |providers|
      invariant 0 <= j <= |providers|
      invariant Accumulated(all, before + providers[..j], active) && !Clashing(multiset(before + providers[..j]), active)
    {
      ghost var ps := before + providers[..j];
      SplitAtNext(before, providers, j);
      var added := AddProvider(all, providers[j], active, ps);
      if added.Err? {
        ClashGoesOn(ps + [providers[j]], providers[j + 1..], active);
        NamesInMore(added.error, ps + [providers[j]], providers[j + 1..], active);
        return added;
      }
      all := added.value;
      j := j + 1;
    }
    assert providers[..j] == providers;
    r := Ok(all);
  }

  /** The fold over the sorted sources. */
  method AddSources(sorted: seq<Source>, active: Option<set<string>>) returns (r: Result<map<string, LoadedDomain>, Conflict>)
    requires NeverDescends(sorted)
    ensures r.Err? <==> Clashing(multiset(AllProviders(sorted)), active)
    ensures r.Err? ==> Names(r.error, AllProviders(sorted), active)
    ensures r.Ok? ==> Accumulated(r.value, AllProviders(sorted), active)
  {
    var acc: map<string, LoadedDomain> := map[];
    var i := 0;
    while i < |sorted|
      invariant 0 <= i <= |sorted|
      invariant Accumulated(acc, AllProviders(sorted[..i]), active)
      invariant !Clashing(multiset(AllProviders(sorted[..i])), active)
    {
      assert sorted[..i + 1][..i] == sorted[..i];
      LowerBefore(sorted, i);
      var added := AddProviders(acc, ProvidersOf(sorted[i]), active, AllProviders(sorted[..i]));
      if added.Err? {
        ClashStays(sorted, i, active);
        NamesStays(added.error, sorted, i, active);
        return added;
      }
      acc := added.value;
      i := i + 1;
    }
    assert sorted[..i] == sorted;
    r := Ok(acc);
  }

  /** The loader. Whatever the order of the sources, it gives what their providers call for. */
  method LoadDomainsFromSources(sources: seq<Source>, active: Option<set<string>>)
    returns (r: Result<map<string, LoadedDomain>, Conflict>)
    ensures IsLoaded(r, multiset(AllProviders(sources)), active)
    // of two providers that clash the one that is reported as existing comes first
    ensures r.Err? ==> Names(r.error, AllProviders(SortSources(sources)), active)
  {
    var sorted := SortSources(sources);
    SortSorts(sources);
    r := AddSources(sorted, active);
    if r.Ok? {
      AccumulatedIsLoaded(r.value, AllProviders(sorted), active);
    }
  }

  /** The first provenance of a given precedence. */
  function SamePrecedence(v: seq<Provenance>, precedence: int): (r: Option<Provenance>)
    ensures r.Some? <==> exists i :: 0 <= i < |v| && v[i].precedence == precedence
    ensures r.Some? ==> r.value in v && r.value.precedence == precedence
  {
    if v == [] then None
    else if v[0].precedence == precedence then Some(v[0])
    else
      var rest := SamePrecedence(v[1..], precedence);
      assert forall i :: 0 < i < |v| ==> v[i] == v[1..][i - 1];
      rest
  }

  lemma {:induction false} ProvidersFromAre(s: Source, found: seq<Found>)
    ensures |ProvidersFrom(s, found)| == |found|
    ensures forall p :: p in ProvidersFrom(s, found) ==> Precedence(p) == s.precedence
  {
    if found != [] {
      ProvidersFromAre(s, found[..|found| - 1]);
    }
  }

  lemma {:induction false} AllProvidersBelow(sources: seq<Source>, bound: int)
    requires forall s :: s in sources ==> s.precedence <= bound
    ensures forall p :: p in AllProviders(sources) ==> Precedence(p) <= bound
  {
    if sources != [] {
      var n := |sources| - 1;
      assert sources[n] in sources;
      AllProvidersBelow(sources[..n], bound);
      ProvidersFromAre(sources[n], sources[n].found);
    }
  }

  /** In sorted sources no earlier provider has a higher precedence. */
  lemma LowerBefore(sorted: seq<Source>, i: nat)
    requires NeverDescends(sorted) && i < |sorted|
    ensures forall j, q ::
      (0 <= j < |ProvidersOf(sorted[i])| && q in AllProviders(sorted[..i]) + ProvidersOf(sorted[i]) ==>
        Precedence(q) <= Precedence(ProvidersOf(sorted[i])[j]))
  {
    ProvidersFromAre(sorted[i], sorted[i].found);
    AllProvidersBelow(sorted[..i], sorted[i].precedence);
    forall j | 0 <= j < |ProvidersOf(sorted[i])| ensures Precedence(ProvidersOf(sorted[i])[j]) == sorted[i].precedence {
      assert ProvidersOf(sorted[i])[j] in ProvidersOf(sorted[i]);
    }
  }

  lemma ClashingGrows(m: multiset<Provider>, n: multiset<Provider>, active: Option<set<string>>)
    requires Clashing(m, active)
    ensures Clashing(m + n, active)
  {
    var x, y :| x in m && y in m && Clash(active, x, y) && (x == y ==> m[x] >= 2);
    assert x in m + n && y in m + n;
  }

  lemma ClashGoesOn(a: seq<Provider>, b: seq<Provider>, active: Option<set<string>>)
    requires Clashing(multiset(a), active)
    ensures Clashing(multiset(a + b), active)
  {
    assert multiset(a + b) == multiset(a) + multiset(b);
    ClashingGrows(multiset(a), multiset(b), active);
  }

  lemma NamesInMore(c: Conflict, a: seq<Provider>, b: seq<Provider>, active: Option<set<string>>)
    requires Names(c, a, active)
    ensures Names(c, a + b, active)
  {
    var i: nat, j: nat :| i < j < |a| && SameIdAndPrecedence(active, a, i, j) &&
                          c == Conflict(a[i].found.id, a[i].provenance, a[j].provenance);
    assert (a + b)[i] == a[i] && (a + b)[j] == a[j] && SameIdAndPrecedence(active, a + b, i, j);
  }

  lemma NamesStays(c: Conflict, sorted: seq<Source>, i: nat, active: Option<set<string>>)
    requires i < |sorted| && Names(c, AllProviders(sorted[..i + 1]), active)
    ensures Names(c, AllProviders(sorted), active)
  {
    CutAt(sorted, i + 1);
    AllProvidersAppend(sorted[..i + 1], sorted[i + 1..]);
    NamesInMore(c, AllProviders(sorted[..i + 1]), AllProviders(sorted[i + 1..]), active);
  }

  lemma CutAt<T>(s: seq<T>, i: nat)
    requires i <= |s|
    ensures s == s[..i] + s[i..]
  {
  }

  lemma {:induction false} ClashOfSum(a: seq<Source>, b: seq<Source>, active: Option<set<string>>)
    requires Clashing(multiset(AllProviders(a)), active)
    ensures Clashing(multiset(AllProviders(a + b)), active)
  {
    AllProvidersAppend(a, b);
    ClashGoesOn(AllProviders(a), AllProviders(b), active);
  }

  /** A clash among the first sources is a clash. */
  lemma {:induction false} ClashStays(sorted: seq<Source>, i: nat, active: Option<set<string>>)
    requires i < |sorted| && Clashing(multiset(AllProviders(sorted[..i + 1])), active)
    ensures Clashing(multiset(AllProviders(sorted)), active)
  {
    CutAt(sorted, i + 1);
    ClashOfSum(sorted[..i + 1], sorted[i + 1..], active);
  }

  lemma SplitAtNext<T>(before: seq<T>, more: seq<T>, j: nat)
    requires j < |more|
    ensures before + more[..j + 1] == before + more[..j] + [more[j]]
    ensures before + more == before + more[..j] + [more[j]] + more[j + 1..]
    ensures forall x :: x in before + more[..j] ==> x in before + more
  {
  }

  /** Giving the sources in another order changes nothing. */
  method LoadInAnyOrder(sources: seq<Source>, others: seq<Source>, active: Option<set<string>>)
    returns (r: Result<map<string, LoadedDomain>, Conflict>, t: Result<map<string, LoadedDomain>, Conflict>)
    requires multiset(sources) == multiset(others)
    ensures IsLoaded(r, multiset(AllProviders(sources)), active)
    ensures (r.Ok? <==> t.Ok?) && (r.Ok? ==> r == t)
  {
    r := LoadDomainsFromSources(sources, active);
    t := LoadDomainsFromSources(others, active);
    SameProviders(sources, others);
    if r.Ok? {
      DomainsAreUnique(r.value, t.value, multiset(AllProviders(sources)), active);
    }
  }
}
