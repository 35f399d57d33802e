/** Resolving an agent's resources over three tiers (lib/domains/resolver.ts), and the validator that
    says in advance whether a resource can be resolved (lib/domains/validator.ts). */
module DomainResolution {
  import opened Wrappers
  import DomainLoader

  type Domain = DomainLoader.LoadedDomain

  const SHARED := "shared"

  /** Ids are unique and every domain has a directory, as the loader leaves them. */
  predicate WellFormed(domains: seq<Domain>) {
    && (forall i, j :: 0 <= i < j < |domains| ==> domains[i].id != domains[j].id)
    && (forall i :: 0 <= i < |domains| ==> domains[i].rootDirs != [])
  }

  /** The registered domain with an id, if there is one. */
  function Find(domains: seq<Domain>, id: string): (d: Option<Domain>)
    ensures d.Some? ==> d.value in domains && d.value.id == id
    ensures d.None? ==> forall x :: x in domains ==> x.id != id
  {
    if domains == [] then None
    else if domains[0].id == id then Some(domains[0])
    else
      var rest := Find(domains[1..], id);
      assert forall x :: x in domains ==> x == domains[0] || x in domains[1..];
      rest
  }

  /** The portable domains other than the agent's and the shared one, in registry order. */
  function PortablesBut(domains: seq<Domain>, agentDomain: string): (r: seq<Domain>)
    ensures forall x :: x in r <==> x in domains && x.portable && x.id != agentDomain && x.id != SHARED
  {
    if domains == [] then []
    else
      var last := domains[|domains| - 1];
      var before := PortablesBut(domains[..|domains| - 1], agentDomain);
      assert domains == domains[..|domains| - 1] + [last];
      if last.id != agentDomain && last.id != SHARED && last.portable then before + [last] else before
  }

  /** The agent's own domain unless it is the shared one, the portables, the shared domain. */
  function Tiers(domains: seq<Domain>, agentDomain: string): seq<Domain> {
    var own, shared := Find(domains, agentDomain), Find(domains, SHARED);
    (if own.Some? && own.value.id != SHARED then [own.value] else []) +
    PortablesBut(domains, agentDomain) +
    (if shared.Some? then [shared.value] else [])
  }

  /** Which domains the tiers hold, and in which order: the agent's own comes first, the shared one last,
      and the portable ones between them in the order of the registry. */
  lemma TiersInOrder(domains: seq<Domain>, agentDomain: string)
    requires WellFormed(domains)
    ensures var tiers := Tiers(domains, agentDomain);
      && (forall x :: x in tiers <==> x in domains && (x.id == agentDomain || x.id == SHARED || x.portable))
      && (forall k :: 0 <= k < |tiers| && tiers[k].id == SHARED ==> k == |tiers| - 1)
      && (forall k :: 0 <= k < |tiers| && tiers[k].id == agentDomain && agentDomain != SHARED ==> k == 0)
      && (forall j, k :: 0 <= j < k < |tiers| && tiers[j].id != agentDomain && tiers[k].id != SHARED ==>
            exists a, b :: 0 <= a < b < |domains| && domains[a] == tiers[j] && domains[b] == tiers[k])
  {
    TierMembers(domains, agentDomain);
    OwnFirstSharedLast(domains, agentDomain);
    var tiers := Tiers(domains, agentDomain);
    forall j, k | 0 <= j < k < |tiers| && tiers[j].id != agentDomain && tiers[k].id != SHARED
      ensures exists a, b :: 0 <= a < b < |domains| && domains[a] == tiers[j] && domains[b] == tiers[k]
    {
      MiddleInOrder(domains, agentDomain, j, k, tiers[j], tiers[k]);
    }
  }

  lemma OwnFirstSharedLast(domains: seq<Domain>, agentDomain: string)
    ensures var tiers := Tiers(domains, agentDomain);
      && (forall k :: 0 <= k < |tiers| && tiers[k].id == SHARED ==> k == |tiers| - 1)
      && (forall k :: 0 <= k < |tiers| && tiers[k].id == agentDomain && agentDomain != SHARED ==> k == 0)
  {
    var own, portables := Find(domains, agentDomain), PortablesBut(domains, agentDomain);
    var n := if own.Some? && own.value.id != SHARED then 1 else 0;
    var tiers := Tiers(domains, agentDomain);
    forall k | n <= k < n + |portables| ensures tiers[k].id != agentDomain && tiers[k].id != SHARED {
      assert tiers[k] == portables[k - n] && portables[k - n] in portables;
    }
  }

  lemma MiddleIsPortable(domains: seq<Domain>, agentDomain: string, j: nat) returns (p: int)
    requires j < |Tiers(domains, agentDomain)|
    requires Tiers(domains, agentDomain)[j].id != agentDomain && Tiers(domains, agentDomain)[j].id != SHARED
    ensures 0 <= p < |PortablesBut(domains, agentDomain)| && Tiers(domains, agentDomain)[j] == PortablesBut(domains, agentDomain)[p]
    ensures var own := Find(domains, agentDomain); p == j - if own.Some? && own.value.id != SHARED then 1 else 0
  {
    var own := Find(domains, agentDomain);
    p := j - if own.Some? && own.value.id != SHARED then 1 else 0;
  }

  lemma MiddleInOrder(domains: seq<Domain>, agentDomain: string, j: nat, k: nat, x: Domain, y: Domain)
    requires j < k < |Tiers(domains, agentDomain)| && Tiers(domains, agentDomain)[j] == x && Tiers(domains, agentDomain)[k] == y
    requires x.id != agentDomain && x.id != SHARED && y.id != agentDomain && y.id != SHARED
    ensures exists a, b :: 0 <= a < b < |domains| && domains[a] == x && domains[b] == y
  {
    var p := MiddleIsPortable(domains, agentDomain, j);
    var q := MiddleIsPortable(domains, agentDomain, k);
    InRegistryOrder(domains, agentDomain, p, q, x, y);
  }

  lemma InRegistryOrder(domains: seq<Domain>, agentDomain: string, p: nat, q: nat, x: Domain, y: Domain)
    requires p < q < |PortablesBut(domains, agentDomain)|
    requires PortablesBut(domains, agentDomain)[p] == x && PortablesBut(domains, agentDomain)[q] == y
    ensures exists a, b :: 0 <= a < b < |domains| && domains[a] == x && domains[b] == y
  {
    PortablesInOrder(domains, agentDomain, p, q);
  }

  lemma TierMembers(domains: seq<Domain>, agentDomain: string)
    requires WellFormed(domains)
    ensures forall x :: x in Tiers(domains, agentDomain) <==> x in domains && (x.id == agentDomain || x.id == SHARED || x.portable)
  {
    var own, shared := Find(domains, agentDomain), Find(domains, SHARED);
    forall x | x in domains ensures x in Tiers(domains, agentDomain) <==> x.id == agentDomain || x.id == SHARED || x.portable {
      var i :| 0 <= i < |domains| && domains[i] == x;
      FindOwn(domains, i);
    }
  }

  lemma {:induction false} PortablesInOrder(domains: seq<Domain>, agentDomain: string, j: nat, k: nat)
    requires j < k < |PortablesBut(domains, agentDomain)|
    ensures var r := PortablesBut(domains, agentDomain);
      exists a, b :: 0 <= a < b < |domains| && domains[a] == r[j] && domains[b] == r[k]
  {
    var n := |domains| - 1;
    var before, r := PortablesBut(domains[..n], agentDomain), PortablesBut(domains, agentDomain);
    if k < |before| {
      PortablesInOrder(domains[..n], agentDomain, j, k);
      var a, b :| 0 <= a < b < n && domains[..n][a] == before[j] && domains[..n][b] == before[k];
      assert domains[a] == r[j] && domains[b] == r[k];
    } else {
      assert r[j] == before[j] && before[j] in before && before[j] in domains[..n];
      var a :| 0 <= a < n && domains[..n][a] == before[j];
      assert domains[a] == r[j] && domains[n] == r[k];
    }
  }

  predicate OtherPortable(domain: Domain, agentDomain: string) {
    domain.id != agentDomain && domain.id != SHARED && domain.portable
  }

  lemma OneMorePortable(domains: seq<Domain>, agentDomain: string, i: nat, first: seq<Domain>)
    requires i < |domains|
    ensures first + PortablesBut(domains[..i + 1], agentDomain) ==
            first + PortablesBut(domains[..i], agentDomain) + if OtherPortable(domains[i], agentDomain) then [domains[i]] else []
  {
    assert domains[..i + 1][..i] == domains[..i];
  }

  method AddPortables(first: seq<Domain>, domains: seq<Domain>, agentDomain: string) returns (tiers: seq<Domain>)
    ensures tiers == first + PortablesBut(domains, agentDomain)
  {
    tiers := first;
    var i := 0;
    while i < |domains|
      invariant 0 <= i <= |domains|
      invariant tiers == first + PortablesBut(domains[..i], agentDomain)
    {
      OneMorePortable(domains, agentDomain, i, first);
      if OtherPortable(domains[i], agentDomain) {
        tiers := tiers + [domains[i]];
      }
      i := i + 1;
    }
    assert domains[..i] == domains;
  }

  method TieredOrder(domains: seq<Domain>, agentDomain: string) returns (tiers: seq<Domain>)
    ensures tiers == Tiers(domains, agentDomain)
  {
    tiers := [];
    var own := Find(domains, agentDomain);
    if own.Some? && own.value.id != SHARED {
      tiers := tiers + [own.value];
    }
    tiers := AddPortables(tiers, domains, agentDomain);
    var shared := Find(domains, SHARED);
    if shared.Some? {
      tiers := tiers + [shared.value];
    }
  }

  /** The first directory in which the resource exists. */
  function FirstExisting(rootDirs: seq<string>, onDisk: string -> bool): (r: Option<string>)
    ensures r.None? <==> forall j :: 0 <= j < |rootDirs| ==> !onDisk(rootDirs[j])
    ensures r.Some? ==> exists k :: 0 <= k < |rootDirs| && r.value == rootDirs[k] && onDisk(rootDirs[k]) &&
                                    forall j :: 0 <= j < k ==> !onDisk(rootDirs[j])
  {
    if rootDirs == [] then None
    else if onDisk(rootDirs[0]) then Some(rootDirs[0])
    else
      var rest := FirstExisting(rootDirs[1..], onDisk);
      assert forall j :: 0 < j < |rootDirs| ==> rootDirs[j] == rootDirs[1..][j - 1];
      assert rest.Some? ==>
        var k :| 0 <= k < |rootDirs[1..]| && rest.value == rootDirs[1..][k] && onDisk(rootDirs[1..][k]) &&
                 forall j :: 0 <= j < k ==> !onDisk(rootDirs[1..][j]);
        rest.value == rootDirs[k + 1];
      rest
  }

  /** That directory, or else the first one: the resource is declared, and the caller will report the
      missing file. */
  function FindInRootDirs(rootDirs: seq<string>, onDisk: string -> bool): (r: Option<string>)
    ensures r.Some? <==> rootDirs != []
    ensures r.Some? ==> exists k :: 0 <= k < |rootDirs| && r.value == rootDirs[k] &&
                                    (onDisk(rootDirs[k]) || (k == 0 && forall j :: 0 <= j < |rootDirs| ==> !onDisk(rootDirs[j]))) &&
                                    forall j :: 0 <= j < k ==> !onDisk(rootDirs[j])
  {
    if rootDirs == [] then None
    else
      var found := FirstExisting(rootDirs, onDisk);
      if found.Some? then found else Some(rootDirs[0])
  }

  predicate Declares(d: Domain, kind: DomainLoader.ResourceKind, name: string) {
    name in DomainLoader.OfKind(d.resources, kind)
  }

  /** The domain at this place in the tiers is the first that declares the resource and has a directory. */
  ghost predicate Provides(tiers: seq<Domain>, k: nat, kind: DomainLoader.ResourceKind, name: string) {
    && k < |tiers| && Declares(tiers[k], kind, name) && tiers[k].rootDirs != []
    && forall j :: 0 <= j < k ==> !Declares(tiers[j], kind, name) || tiers[j].rootDirs == []
  }

  /** Resolution takes the first domain in tier order that declares the resource and has a directory. */
  method ResolveInTiers(domains: seq<Domain>, agentDomain: string, kind: DomainLoader.ResourceKind, name: string,
                        onDisk: string -> bool)
    returns (path: Option<string>)
    ensures var tiers := Tiers(domains, agentDomain);
      && (path.Some? ==> exists k: nat :: Provides(tiers, k, kind, name) && path == FindInRootDirs(tiers[k].rootDirs, onDisk))
      && (path.None? ==> forall d :: d in tiers ==> !Declares(d, kind, name) || d.rootDirs == [])
  {
    var tiers := TieredOrder(domains, agentDomain);
    var i := 0;
    while i < |tiers|
      invariant 0 <= i <= |tiers|
      invariant forall j :: 0 <= j < i ==> !Declares(tiers[j], kind, name) || tiers[j].rootDirs == []
    {
      if Declares(tiers[i], kind, name) {
        path := FindInRootDirs(tiers[i].rootDirs, onDisk);
        if path.Some? {
          assert Provides(tiers, i, kind, name);
          return;
        }
      }
      i := i + 1;
    }
    path := None;
  }

  // ------------------------------------------------------------------ validation

  function PortableDomains(domains: seq<Domain>): (r: seq<Domain>)
    ensures forall x :: x in r <==> x in domains && x.portable && x.id != SHARED
  {
    if domains == [] then []
    else
      var last := domains[|domains| - 1];
      var before := PortableDomains(domains[..|domains| - 1]);
      assert domains == domains[..|domains| - 1] + [last];
      if last.portable && last.id != SHARED then before + [last] else before
  }

  /** What the validator asks about a resource of an agent in `domain`. */
  predicate IsResolvable(domain: Domain, shared: Option<Domain>, portables: seq<Domain>,
                         kind: DomainLoader.ResourceKind, name: string)
  {
    || Declares(domain, kind, name)
    || (shared.Some? && Declares(shared.value, kind, name))
    || exists i :: 0 <= i < |portables| && Declares(portables[i], kind, name)
  }

  predicate Accepts(domains: seq<Domain>, domain: Domain, kind: DomainLoader.ResourceKind, name: string) {
    IsResolvable(domain, Find(domains, SHARED), PortableDomains(domains), kind, name)
  }

  lemma FindOwn(domains: seq<Domain>, i: nat)
    requires WellFormed(domains) && i < |domains|
    ensures Find(domains, domains[i].id) == Some(domains[i])
  {
    var found := Find(domains, domains[i].id);
    var j :| 0 <= j < |domains| && domains[j] == found.value;
    assert j == i;
  }

  /** What the tiers hold besides the agent's own domain. */
  lemma InTiers(domains: seq<Domain>, i: nat)
    requires WellFormed(domains) && i < |domains|
    ensures var tiers := Tiers(domains, domains[i].id);
      && domains[i] in tiers
      && (forall p :: p in PortableDomains(domains) ==> p in tiers)
      && (Find(domains, SHARED).Some? ==> Find(domains, SHARED).value in tiers)
  {
    var domain := domains[i];
    FindOwn(domains, i);
    assert forall p :: p in PortableDomains(domains) && p.id == domain.id ==> p == domain;
  }

  lemma AcceptedIsInTiers(domains: seq<Domain>, i: nat, kind: DomainLoader.ResourceKind, name: string)
    requires WellFormed(domains) && i < |domains| && Accepts(domains, domains[i], kind, name)
    ensures exists d :: d in Tiers(domains, domains[i].id) && Declares(d, kind, name)
  {
    InTiers(domains, i);
    var shared, portables := Find(domains, SHARED), PortableDomains(domains);
    if !Declares(domains[i], kind, name) && !(shared.Some? && Declares(shared.value, kind, name)) {
      var j :| 0 <= j < |portables| && Declares(portables[j], kind, name);
      assert portables[j] in portables;
    }
  }

  lemma TierIsAccepted(domains: seq<Domain>, i: nat, kind: DomainLoader.ResourceKind, name: string, d: Domain)
    requires WellFormed(domains) && i < |domains| && d in Tiers(domains, domains[i].id) && Declares(d, kind, name)
    ensures Accepts(domains, domains[i], kind, name)
  {
    FindOwn(domains, i);
    if d in PortablesBut(domains, domains[i].id) {
      assert d in PortableDomains(domains);
    }
  }

  /** The validator accepts a resource exactly if some tier declares it. */
  lemma AcceptsIffInTiers(domains: seq<Domain>, i: nat, kind: DomainLoader.ResourceKind, name: string)
    requires WellFormed(domains) && i < |domains|
    ensures Accepts(domains, domains[i], kind, name) <==>
      exists d :: d in Tiers(domains, domains[i].id) && Declares(d, kind, name)
  {
    if Accepts(domains, domains[i], kind, name) {
      AcceptedIsInTiers(domains, i, kind, name);
    }
    if d :| d in Tiers(domains, domains[i].id) && Declares(d, kind, name) {
      TierIsAccepted(domains, i, kind, name, d);
    }
  }

  /** The domain at this place in the tiers is the first that declares the resource. */
  ghost predicate IsFirst(tiers: seq<Domain>, k: nat, kind: DomainLoader.ResourceKind, name: string) {
    && k < |tiers| && Declares(tiers[k], kind, name)
    && forall j :: 0 <= j < k ==> !Declares(tiers[j], kind, name)
  }

  lemma TiersHaveDirectories(domains: seq<Domain>, agentDomain: string)
    requires WellFormed(domains)
    ensures forall d :: d in Tiers(domains, agentDomain) ==> d.rootDirs != []
  {
    assert forall d :: d in Tiers(domains, agentDomain) ==> d in domains;
  }

  /** Validation is sound and complete: for every well-formed registry, the validator accepts a resource of
      an agent exactly if resolution returns a path, and the path is in the first directory with the resource of
      the first domain in the order own, portable, shared that declares it; if no directory of that domain has
      it, in its first one. */
  method ValidateThenResolve(domains: seq<Domain>, i: nat, kind: DomainLoader.ResourceKind, name: string, onDisk: string -> bool)
    returns (accepted: bool, path: Option<string>)
    requires WellFormed(domains) && i < |domains|
    ensures accepted <==> path.Some?
    ensures path.Some? ==>
      var tiers := Tiers(domains, domains[i].id);
      exists k: nat, m: nat :: IsFirst(tiers, k, kind, name) && m < |tiers[k].rootDirs| && path.value == tiers[k].rootDirs[m] &&
        (forall j :: 0 <= j < m ==> !onDisk(tiers[k].rootDirs[j])) &&
        (onDisk(tiers[k].rootDirs[m]) || (m == 0 && forall j :: 0 <= j < |tiers[k].rootDirs| ==> !onDisk(tiers[k].rootDirs[j])))
  {
    accepted := Accepts(domains, domains[i], kind, name);
    path := ResolveInTiers(domains, domains[i].id, kind, name, onDisk);
    AcceptsIffInTiers(domains, i, kind, name);
    TiersHaveDirectories(domains, domains[i].id);
    if path.Some? {
      FirstPath(Tiers(domains, domains[i].id), kind, name, onDisk, path);
    }
  }

  lemma FirstPath(tiers: seq<Domain>, kind: DomainLoader.ResourceKind, name: string, onDisk: string -> bool, path: Option<string>)
    requires forall d :: d in tiers ==> d.rootDirs != []
    requires path.Some? && exists k: nat :: Provides(tiers, k, kind, name) && path == FindInRootDirs(tiers[k].rootDirs, onDisk)
    ensures exists k: nat, m: nat ::
              IsFirst(tiers, k, kind, name) && m < |tiers[k].rootDirs| && path.value == tiers[k].rootDirs[m] &&
              (forall j :: 0 <= j < m ==> !onDisk(tiers[k].rootDirs[j])) &&
              (onDisk(tiers[k].rootDirs[m]) || (m == 0 && forall j :: 0 <= j < |tiers[k].rootDirs| ==> !onDisk(tiers[k].rootDirs[j])))
  {
    var k: nat :| Provides(tiers, k, kind, name) && path == FindInRootDirs(tiers[k].rootDirs, onDisk);
    assert IsFirst(tiers, k, kind, name);
    var dirs := tiers[k].rootDirs;
    var m: nat :| m < |dirs| && path.value == dirs[m] &&
      (onDisk(dirs[m]) || (m == 0 && forall j :: 0 <= j < |dirs| ==> !onDisk(dirs[j]))) &&
      forall j :: 0 <= j < m ==> !onDisk(dirs[j]);
  }

  /** Domains as the loader returns them are well-formed: each of them has a directory. */
  lemma LoadedHasDirectory(ps: seq<DomainLoader.Provider>)
    requires ps != []
    ensures DomainLoader.Fold(ps).rootDirs != []
  {
    DomainLoader.FoldDirectories(ps);
  }

  // ------------------------------------------------------------------ the registry's own lookup

  function FirstDeclaring(domains: seq<Domain>, kind: DomainLoader.ResourceKind, name: string): (r: Option<Domain>)
    ensures r.None? <==> forall d :: d in domains ==> !Declares(d, kind, name)
  {
    if domains == [] then None
    else if Declares(domains[0], kind, name) then Some(domains[0])
    else
      var rest := FirstDeclaring(domains[1..], kind, name);
      assert forall x :: x in domains ==> x == domains[0] || x in domains[1..];
      rest
  }

  /** It is the first one. */
  lemma {:induction false} DeclaringIsFirst(domains: seq<Domain>, kind: DomainLoader.ResourceKind, name: string) returns (k: nat)
    requires FirstDeclaring(domains, kind, name).Some?
    ensures k < |domains| && FirstDeclaring(domains, kind, name) == Some(domains[k]) && Declares(domains[k], kind, name)
    ensures forall j :: 0 <= j < k ==> !Declares(domains[j], kind, name)
  {
    if Declares(domains[0], kind, name) {
      k := 0;
    } else {
      k := DeclaringIsFirst(domains[1..], kind, name);
      k := k + 1;
      assert forall j :: 0 < j < k ==> domains[j] == domains[1..][j - 1];
    }
  }

  /** `resolveCapability` of the registry asks the preferred domain first, even if it is the shared one. */
  function RegistryLookup(domains: seq<Domain>, preferred: string, name: string): Option<Domain> {
    var own, shared := Find(domains, preferred), Find(domains, SHARED);
    if own.Some? && Declares(own.value, DomainLoader.Capability, name) then own
    else
      var portable := FirstDeclaring(PortablesBut(domains, preferred), DomainLoader.Capability, name);
      if portable.Some? then portable
      else if shared.Some? && Declares(shared.value, DomainLoader.Capability, name) then shared
      else None
  }

  lemma FirstDeclaringAppend(a: seq<Domain>, b: seq<Domain>, kind: DomainLoader.ResourceKind, name: string)
    ensures FirstDeclaring(a + b, kind, name) ==
      var first := FirstDeclaring(a, kind, name); if first.Some? then first else FirstDeclaring(b, kind, name)
  {
    if a == [] {
      assert a + b == b;
    } else {
      FirstDeclaringAppend(a[1..], b, kind, name);
      assert (a + b)[1..] == a[1..] + b;
    }
  }

  /** The two lookups pick the same domain for a capability exactly if they are not asked on behalf of the
      shared domain, or the shared domain does not declare it, or no portable one does. */
  lemma LookupsAgreeIff(domains: seq<Domain>, preferred: string, name: string)
    requires WellFormed(domains)
    ensures RegistryLookup(domains, preferred, name) == FirstDeclaring(Tiers(domains, preferred), DomainLoader.Capability, name) <==>
      preferred != SHARED || Find(domains, SHARED).None? || !Declares(Find(domains, SHARED).value, DomainLoader.Capability, name) ||
      FirstDeclaring(PortablesBut(domains, preferred), DomainLoader.Capability, name).None?
    ensures RegistryLookup(domains, preferred, name) != FirstDeclaring(Tiers(domains, preferred), DomainLoader.Capability, name) ==>
      RegistryLookup(domains, preferred, name) == Find(domains, SHARED)
  {
    var kind := DomainLoader.Capability;
    var own, shared := Find(domains, preferred), Find(domains, SHARED);
    var first := if own.Some? && own.value.id != SHARED then [own.value] else [];
    var last := if shared.Some? then [shared.value] else [];
    var portables := PortablesBut(domains, preferred);
    FirstDeclaringAppend(first + portables, last, kind, name);
    FirstDeclaringAppend(first, portables, kind, name);
    FirstOne(first, kind, name);
    FirstOne(last, kind, name);
    FirstIsMember(portables, kind, name);
  }

  lemma FirstOne(ds: seq<Domain>, kind: DomainLoader.ResourceKind, name: string)
    requires |ds| <= 1
    ensures FirstDeclaring(ds, kind, name) == if ds != [] && Declares(ds[0], kind, name) then Some(ds[0]) else None
  {
  }

  lemma {:induction false} FirstIsMember(ds: seq<Domain>, kind: DomainLoader.ResourceKind, name: string)
    ensures FirstDeclaring(ds, kind, name).Some? ==> FirstDeclaring(ds, kind, name).value in ds
  {
    if ds != [] && !Declares(ds[0], kind, name) {
      FirstIsMember(ds[1..], kind, name);
    }
  }
}
