/** The bounded list of provider connections shown to the client, and the identity of the session default. */
module Providers {
  import opened Lists
  import opened Text
  import opened Delta

  const U32_LIMIT: nat := 0x1_0000_0000

  /** A configured profile; `detail` is everything else that its projection shows. */
  datatype Profile = Profile(id: string, active: bool, detail: Part)

  // ---------------------------------------------------------------- the fallback identity

  /** The n-th identity that the search tries. */
  function Try(base: string, n: nat): (id: string) {
    if n == 0 then base else base + ":default-" + Decimal(n)
  }

  predicate Taken(profiles: seq<Profile>, id: string) {
    exists i :: 0 <= i < |profiles| && profiles[i].id == id
  }

  lemma TryDistinct(base: string, m: nat, n: nat)
    requires m < n
    ensures Try(base, m) != Try(base, n)
  {
    var stem := base + ":default-";
    if m > 0 && Decimal(m) == Decimal(n) {
      DecimalInjective(m, n);
      assert false;
    }
    assert Try(base, n)[|stem|..] == Decimal(n) && |Try(base, n)| > |base|;
    assert m > 0 ==> Try(base, m)[|stem|..] == Decimal(m);
  }

  function Tried(base: string, n: nat): (ids: set<string>) {
    set m | 0 <= m < n :: Try(base, m)
  }

  lemma {:induction false} TriedCount(base: string, n: nat)
    ensures |Tried(base, n)| == n
  {
    if n == 0 {
      assert Tried(base, 0) == {};
    } else {
      TriedCount(base, n - 1);
      assert Tried(base, n) == Tried(base, n - 1) + {Try(base, n - 1)};
      forall m | 0 <= m < n - 1 ensures Try(base, m) != Try(base, n - 1) {
        TryDistinct(base, m, n - 1);
      }
      assert Try(base, n - 1) !in Tried(base, n - 1);
    }
  }

  function Ids(profiles: seq<Profile>): (ids: set<string>) {
    set i | 0 <= i < |profiles| :: profiles[i].id
  }

  lemma {:induction false} IdsCount(profiles: seq<Profile>)
    ensures |Ids(profiles)| <= |profiles|
  {
    if profiles == [] {
      assert Ids([]) == {};
    } else {
      var front, last := profiles[..|profiles| - 1], profiles[|profiles| - 1];
      IdsCount(front);
      assert Ids(profiles) == Ids(front) + {last.id};
    }
  }

  /** Pigeonhole: as many identities cannot all be taken by fewer profiles. */
  lemma TriesAreBounded(base: string, profiles: seq<Profile>, n: nat)
    requires forall m :: 0 <= m < n ==> Taken(profiles, Try(base, m))
    ensures n <= |profiles|
  {
    TriedCount(base, n);
    IdsCount(profiles);
    forall id | id in Tried(base, n) ensures id in Ids(profiles) {
      var m :| 0 <= m < n && Try(base, m) == id;
      assert Taken(profiles, Try(base, m));
    }
    SubsetSize(Tried(base, n), Ids(profiles));
  }

  function Saturating(n: nat): (m: nat) {
    if n + 1 < U32_LIMIT then n + 1 else U32_LIMIT - 1
  }

  /** The search ends at the first free identity; its counter cannot saturate before it finds one. */
  method FallbackConnectionId(profiles: seq<Profile>, base: string) returns (id: string, ghost tries: nat)
    requires |profiles| < U32_LIMIT
    ensures !Taken(profiles, id) && id == Try(base, tries)
    ensures tries <= |profiles| && forall m :: 0 <= m < tries ==> Taken(profiles, Try(base, m))
  {
    id := base;
    var suffix := 1;
    tries := 0;
    while Taken(profiles, id)
      invariant id == Try(base, tries) && tries <= |profiles|
      invariant suffix == Saturating(tries)
      invariant forall m :: 0 <= m < tries ==> Taken(profiles, Try(base, m))
      decreases |profiles| - tries
    {
      TriesAreBounded(base, profiles, tries + 1);
      id := base + ":default-" + Decimal(suffix);
      suffix := Saturating(suffix);
      tries := tries + 1;
    }
  }

  // ---------------------------------------------------------------- the list

  predicate HasActive(profiles: seq<Profile>) {
    exists i :: 0 <= i < |profiles| && profiles[i].active
  }

  function Named(p: Profile): (r: Provider) {
    Provider(p.id, p.active, p.detail)
  }

  ghost predicate DistinctProfiles(profiles: seq<Profile>) {
    forall i, j :: 0 <= i < j < |profiles| ==>
      profiles[i].id != profiles[j].id && !(profiles[i].active && profiles[j].active)
  }

  /** The connections come from these profiles, in order, without repetition. */
  ghost predicate Shows(providers: seq<Provider>, profiles: seq<Profile>) {
    |providers| == |profiles| && forall i :: 0 <= i < |providers| ==> providers[i] == Named(profiles[i])
  }

  /** The entry that stands in for a missing active profile. */
  predicate IsSessionDefault(profiles: seq<Profile>, p: Provider, sessionDefault: Part) {
    !HasActive(profiles) && p.active && p.detail == sessionDefault && !Taken(profiles, p.connectionId)
  }

  /** How many profiles the list has room for: the session default takes one place when it is needed. */
  function Room(profiles: seq<Profile>): (n: nat) {
    var limit := if HasActive(profiles) then MAX_PROVIDERS else MAX_PROVIDERS - 1;
    if |profiles| < limit then |profiles| else limit
  }

  ghost predicate ActiveBeyond(profiles: seq<Profile>, n: nat) {
    exists a :: n <= a < |profiles| && profiles[a].active
  }

  /** The first profiles in their order, but for the last place when the active one would not be among them. */
  ghost predicate KeepsFirst(providers: seq<Provider>, profiles: seq<Profile>, n: nat)
    requires n <= |profiles| && n <= |providers|
  {
    && (forall i :: 0 <= i < n && (i < n - 1 || !ActiveBeyond(profiles, n)) ==> providers[i] == Named(profiles[i]))
    && (forall a :: n <= a < |profiles| && profiles[a].active && n > 0 ==> providers[n - 1] == Named(profiles[a]))
  }

  method FindActive(profiles: seq<Profile>) returns (at: nat)
    ensures at <= |profiles|
    ensures forall i :: 0 <= i < at ==> !profiles[i].active
    ensures at < |profiles| ==> profiles[at].active
  {
    at := 0;
    while at < |profiles| && !profiles[at].active
      invariant at <= |profiles| && forall i :: 0 <= i < at ==> !profiles[i].active
    {
      at := at + 1;
    }
  }

  /** Which profiles the list has room for: the first ones, and always the active one. */
  method RetainProfiles(profiles: seq<Profile>, limit: nat, active: nat) returns (kept: seq<Profile>)
    requires 0 < limit && active <= |profiles|
    requires forall i :: 0 <= i < active ==> !profiles[i].active
    requires active < |profiles| ==> profiles[active].active
    ensures kept == if |profiles| <= limit then profiles
                    else if limit <= active < |profiles| then profiles[..limit - 1] + [profiles[active]]
                    else profiles[..limit]
  {
    kept := if |profiles| <= limit then profiles else profiles[..limit];
    if limit <= active < |profiles| {
      if |kept| == limit {
        kept := kept[..|kept| - 1];
      }
      kept := kept + [profiles[active]];
    }
  }

  method ShowProfiles(kept: seq<Profile>) returns (providers: seq<Provider>)
    ensures Shows(providers, kept)
  {
    providers := [];
    for i := 0 to |kept|
      invariant Shows(providers, kept[..i])
    {
      providers := providers + [Named(kept[i])];
      assert kept[..i + 1] == kept[..i] + [kept[i]];
    }
    assert kept[..|kept|] == kept;
  }

  /**
   The projected list: at most 64 connections, all distinct, exactly one active. The active profile is always
   among them; without one, a session default with an identity of its own is.
   */
  method MapProviders(profiles: seq<Profile>, base: string, sessionDefault: Part) returns (providers: seq<Provider>)
    requires |profiles| < U32_LIMIT && DistinctProfiles(profiles)
    ensures |providers| <= MAX_PROVIDERS
    ensures forall i, j :: 0 <= i < j < |providers| ==>
              providers[i].connectionId != providers[j].connectionId && !(providers[i].active && providers[j].active)
    ensures exists i :: 0 <= i < |providers| && providers[i].active
    ensures forall i :: 0 <= i < |profiles| && profiles[i].active ==> Named(profiles[i]) in providers
    ensures forall p :: p in providers ==>
              ((exists i :: 0 <= i < |profiles| && p == Named(profiles[i])) || IsSessionDefault(profiles, p, sessionDefault))
    ensures sessionDefault.wellFormed && (forall i :: 0 <= i < |profiles| ==> profiles[i].detail.wellFormed) ==>
              ValidProviders(providers)
    ensures |providers| == Room(profiles) + (if HasActive(profiles) then 0 else 1)
    ensures KeepsFirst(providers, profiles, Room(profiles))
    ensures !HasActive(profiles) ==>
              exists m: nat :: && m <= |profiles| && Try(base, m) == providers[Room(profiles)].connectionId
                               && forall k :: 0 <= k < m ==> Taken(profiles, Try(base, k))
  {
    var active := FindActive(profiles);
    var limit := if active < |profiles| then MAX_PROVIDERS else MAX_PROVIDERS - 1;
    var kept := RetainProfiles(profiles, limit, active);
    providers := ShowProfiles(kept);
    KeptFacts(profiles, limit, active, kept);
    FirstKept(profiles, limit, active, kept, providers);
    if active < |profiles| {
      var i :| 0 <= i < |kept| && kept[i] == profiles[active];
      assert providers[i].active;
      ActiveKept(profiles, kept, active, providers);
    } else {
      var id, tries := FallbackConnectionId(profiles, base);
      var shown := providers;
      providers := providers + [Provider(id, true, sessionDefault)];
      assert providers[|shown|].active;
    }
  }

  lemma FirstKept(profiles: seq<Profile>, limit: nat, active: nat, kept: seq<Profile>, providers: seq<Provider>)
    requires DistinctProfiles(profiles) && active <= |profiles|
    requires limit == if active < |profiles| then MAX_PROVIDERS else MAX_PROVIDERS - 1
    requires forall i :: 0 <= i < active ==> !profiles[i].active
    requires active < |profiles| ==> profiles[active].active
    requires kept == if |profiles| <= limit then profiles
                     else if limit <= active < |profiles| then profiles[..limit - 1] + [profiles[active]]
                     else profiles[..limit]
    requires Shows(providers, kept)
    ensures |providers| == Room(profiles) && KeepsFirst(providers, profiles, Room(profiles))
  {
    assert HasActive(profiles) <==> active < |profiles|;
  }

  lemma ActiveKept(profiles: seq<Profile>, kept: seq<Profile>, active: nat, providers: seq<Provider>)
    requires DistinctProfiles(profiles) && active < |profiles| && profiles[active].active
    requires Shows(providers, kept) && profiles[active] in kept
    ensures forall i :: 0 <= i < |profiles| && profiles[i].active ==> Named(profiles[i]) in providers
  {
    var k :| 0 <= k < |kept| && kept[k] == profiles[active];
    assert providers[k] == Named(profiles[active]);
  }

  lemma KeptFacts(profiles: seq<Profile>, limit: nat, active: nat, kept: seq<Profile>)
    requires DistinctProfiles(profiles) && 0 < limit && active <= |profiles|
    requires forall i :: 0 <= i < active ==> !profiles[i].active
    requires kept == if |profiles| <= limit then profiles
                     else if limit <= active < |profiles| then profiles[..limit - 1] + [profiles[active]]
                     else profiles[..limit]
    ensures |kept| <= limit && DistinctProfiles(kept)
    ensures active < |profiles| ==> profiles[active] in kept
    ensures forall i :: 0 <= i < |kept| ==> kept[i] in profiles
  {
  }
}
