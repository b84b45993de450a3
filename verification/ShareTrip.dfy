/** What exporting gives, and what a bundle taken in by an empty store exports again. */
module ShareTrip {
  import opened Common
  import opened Text
  import opened SshStore
  import opened SshAdoption
  import opened Upserts
  import opened ShareSsh
  import opened ShareAttach
  import opened ShareTables

  // ── Exporting gives a coherent bundle ──

  lemma NameOfRow(conns: seq<Connection>, k: nat)
    requires Sound(conns) && k < |conns|
    ensures NameOf(conns, Some(conns[k].id)) == Some(conns[k].name)
  {
    IndexIs(conns, k);
  }

  lemma ExportedJumpIsDirect(conns: seq<Connection>, i: nat)
    requires Sound(conns) && i < |conns| && conns[i].jump.Some?
    ensures ExportSsh(conns)[i].jump.Some? && DirectIn(ExportSsh(conns), ExportSsh(conns)[i].jump.value)
  {
    var k :| 0 <= k < |conns| && conns[k].id == conns[i].jump.value && conns[k].jump.None?;
    NameOfRow(conns, k);
    assert ExportSsh(conns)[k].name == conns[k].name && ExportSsh(conns)[k].jump.None?;
  }

  lemma ExportedSshIsCoherent(conns: seq<Connection>)
    requires Sound(conns) && AllUsable(conns)
    ensures Coherent(ExportSsh(conns))
  {
    var r := ExportSsh(conns);
    forall i | 0 <= i < |r| ensures Tidy(r[i]) && Writable(r[i]) {
      assert CanConnect(conns[i]);
    }
    forall i | 0 <= i < |r| && r[i].jump.Some? ensures DirectIn(r, r[i].jump.value) {
      ExportedJumpIsDirect(conns, i);
    }
  }

  /** A profile keeps its tunnel: the name written is that of its record, and the bundle carries the record. */
  lemma ExportedTunnel(conns: seq<Connection>, profiles: seq<SavedProfile>, i: nat)
    requires Sound(conns) && i < |profiles|
    ensures ProfileCarried(ExportSsh(conns), ExportProfiles(conns, profiles)[i])
    ensures profiles[i].ssh.Some? && HasId(conns, profiles[i].ssh.value) ==>
      ExportProfiles(conns, profiles)[i].ssh.Some?
  {
    if profiles[i].ssh.Some? {
      var k := IndexOf(conns, profiles[i].ssh.value);
      if k.Some? {
        assert ExportSsh(conns)[k.value].name == conns[k.value].name;
      } else {
        forall m | 0 <= m < |conns| ensures conns[m].id != profiles[i].ssh.value {
          assert conns[m] in conns;
        }
      }
    }
  }

  predicate PlanOf(profile: SavedProfile, plan: SavedPlan, x: SharedPlan) {
    plan.profile == profile.id && x == SharePlan(profile.name, plan)
  }

  /** Exactly the plans of the profile. */
  lemma {:induction false} PlansOfAre(profile: SavedProfile, plans: seq<SavedPlan>, x: SharedPlan)
    ensures x in PlansOf(profile, plans) <==>
      exists k :: 0 <= k < |plans| && PlanOf(profile, plans[k], x)
  {
    if plans != [] {
      var init, last := plans[..|plans| - 1], plans[|plans| - 1];
      PlansOfAre(profile, init, x);
      if x in PlansOf(profile, init) {
        var k :| 0 <= k < |init| && PlanOf(profile, init[k], x);
        assert PlanOf(profile, plans[k], x);
      }
      if last.profile == profile.id && x == SharePlan(profile.name, last) {
        assert PlanOf(profile, plans[|plans| - 1], x);
      }
      forall k | 0 <= k < |plans| && PlanOf(profile, plans[k], x) ensures x in PlansOf(profile, plans) {
        assert k < |init| ==> PlanOf(profile, init[k], x);
      }
    }
  }

  ghost predicate SomewhereIn(profiles: seq<SavedProfile>, plans: seq<SavedPlan>, x: SharedPlan) {
    exists i, k :: 0 <= i < |profiles| && 0 <= k < |plans| && PlanOf(profiles[i], plans[k], x)
  }

  /** A plan is exported exactly when its profile is there. */
  lemma {:induction false} ExportedPlansAre(profiles: seq<SavedProfile>, plans: seq<SavedPlan>, x: SharedPlan)
    ensures x in ExportPlans(profiles, plans) <==> SomewhereIn(profiles, plans, x)
  {
    if profiles != [] {
      var n := |profiles| - 1;
      ExportedPlansAre(profiles[..n], plans, x);
      PlansOfAre(profiles[n], plans, x);
      SomewhereOn(profiles, n, plans, x);
    }
  }

  lemma SomewhereOn(profiles: seq<SavedProfile>, n: nat, plans: seq<SavedPlan>, x: SharedPlan)
    requires n + 1 == |profiles|
    ensures SomewhereIn(profiles, plans, x)
      <==> SomewhereIn(profiles[..n], plans, x) || exists k :: 0 <= k < |plans| && PlanOf(profiles[n], plans[k], x)
  {
    if SomewhereIn(profiles[..n], plans, x) {
      var i, k :| 0 <= i < n && 0 <= k < |plans| && PlanOf(profiles[..n][i], plans[k], x);
      assert PlanOf(profiles[i], plans[k], x);
    }
    if SomewhereIn(profiles, plans, x) {
      var i, k :| 0 <= i < |profiles| && 0 <= k < |plans| && PlanOf(profiles[i], plans[k], x);
      assert i < n ==> PlanOf(profiles[..n][i], plans[k], x);
    }
  }

  lemma {:induction false} PlansOfAreDistinct(profile: SavedProfile, plans: seq<SavedPlan>, next: Id)
    requires Unique(Plans(), plans, next)
    ensures DistinctPlans(PlansOf(profile, plans))
  {
    if plans != [] {
      var n := |plans| - 1;
      var init, last := plans[..n], plans[n];
      UniqueInit(plans, next);
      PlansOfAreDistinct(profile, init, next);
      var before := PlansOf(profile, init);
      forall i | 0 <= i < |before| && last.profile == profile.id ensures before[i].name != last.name {
        assert before[i] in before;
        PlansOfAre(profile, init, before[i]);
        var k :| 0 <= k < |init| && PlanOf(profile, init[k], before[i]);
        assert Plans().keyOf(plans[k]) != Plans().keyOf(plans[n]);
      }
    }
  }

  lemma UniqueInit(plans: seq<SavedPlan>, next: Id)
    requires Unique(Plans(), plans, next) && plans != []
    ensures Unique(Plans(), plans[..|plans| - 1], next)
  {
  }

  lemma {:induction false} ExportedPlansAreDistinct(profiles: seq<SavedProfile>, plans: seq<SavedPlan>, next: Id)
    requires Unique(Profiles(), profiles, next) && Unique(Plans(), plans, next)
    ensures DistinctPlans(ExportPlans(profiles, plans))
    ensures forall x <- ExportPlans(profiles, plans) :: exists i :: 0 <= i < |profiles| && x.profile == profiles[i].name
  {
    if profiles != [] {
      var n := |profiles| - 1;
      var init, last := profiles[..n], profiles[n];
      UniqueProfilesInit(profiles, next);
      ExportedPlansAreDistinct(init, plans, next);
      PlansOfAreDistinct(last, plans, next);
      var a, b := ExportPlans(init, plans), PlansOf(last, plans);
      forall x <- b ensures x.profile == last.name {
        PlansOfAre(last, plans, x);
      }
      forall x <- a ensures x.profile != last.name && exists i :: 0 <= i < |profiles| && x.profile == profiles[i].name {
        var i :| 0 <= i < |init| && x.profile == init[i].name;
        assert Profiles().keyOf(profiles[i]) != Profiles().keyOf(profiles[n]);
        assert x.profile == profiles[i].name;
      }
      JoinIsDistinct(a, b, last.name);
    }
  }

  lemma UniqueProfilesInit(profiles: seq<SavedProfile>, next: Id)
    requires Unique(Profiles(), profiles, next) && profiles != []
    ensures Unique(Profiles(), profiles[..|profiles| - 1], next)
  {
  }

  lemma JoinIsDistinct(a: seq<SharedPlan>, b: seq<SharedPlan>, name: string)
    requires DistinctPlans(a) && DistinctPlans(b)
    requires (forall x <- a :: x.profile != name) && forall x <- b :: x.profile == name
    ensures DistinctPlans(a + b)
  {
    forall i, j | 0 <= i < j < |a + b| ensures (a + b)[i].profile != (a + b)[j].profile
      || (a + b)[i].name != (a + b)[j].name {
      assert i < |a| ==> a[i] in a;
      assert j >= |a| ==> b[j - |a|] in b;
    }
  }

  /** What the store holds: unique keys, references that lead somewhere, rows the store accepts. */
  ghost predicate Stored(s: Tables, next: Id) {
    UsableConnections(s.conns) && Refers(s) && UniqueRows(s, next)
  }

  /** The tables a store can hold, with the next id and the next id of a connection. */
  ghost function StoredTables(): iset<(Tables, Id, Id)> {
    iset x: (Tables, Id, Id) | Stored(x.0, x.1) && IdsBelow(x.0.conns, x.2)
  }

  predicate UsableConnections(conns: seq<Connection>) {
    Sound(conns) && AllUsable(conns)
  }

  ghost predicate UniqueRows(s: Tables, next: Id) {
    && Unique(Profiles(), s.profiles, next) && Unique(Plans(), s.plans, next)
      && Unique(Destinations(), s.destinations, next)
    && AllStored(s.destinations)
  }

  /** Whatever a store holds, its export is coherent: what follows for coherent bundles holds of every export. */
  lemma ExportIsCoherent(s: Tables, next: Id)
    requires Stored(s, next)
    ensures CoherentBundle(Exported(s))
  {
    var b := Exported(s);
    ExportedSshIsCoherent(s.conns);
    forall k | 0 <= k < |b.profiles| ensures ProfileCarried(b.ssh, b.profiles[k]) {
      ExportedTunnel(s.conns, s.profiles, k);
    }
    ExportedNamesAreDistinct(s, next);
    ExportedPlansAreDistinct(s.profiles, s.plans, next);
    forall k | 0 <= k < |b.plans| ensures HasOwner(b.profiles, b.plans[k].profile) {
      assert b.plans[k] in b.plans;
      var i :| 0 <= i < |s.profiles| && b.plans[k].profile == s.profiles[i].name;
      assert b.profiles[i].name == s.profiles[i].name;
    }
  }

  lemma ExportedNamesAreDistinct(s: Tables, next: Id)
    requires Stored(s, next)
    ensures var b := Exported(s);
      && DistinctProfiles(b.profiles) && DistinctDestinations(b.destinations)
      && forall k {:trigger Storable(b.destinations[k])} | 0 <= k < |b.destinations| :: Storable(b.destinations[k])
  {
    var b := Exported(s);
    forall i, j | 0 <= i < j < |b.profiles| ensures b.profiles[i].name != b.profiles[j].name {
      assert Profiles().keyOf(s.profiles[i]) != Profiles().keyOf(s.profiles[j]);
    }
    forall i, j | 0 <= i < j < |b.destinations| ensures b.destinations[i].name != b.destinations[j].name {
      assert Destinations().keyOf(s.destinations[i]) != Destinations().keyOf(s.destinations[j]);
    }
    forall k | 0 <= k < |b.destinations| ensures Storable(b.destinations[k]) && TidyDestination(b.destinations[k]) {
      assert WellStored(s.destinations[k]);
    }
  }

  /** Under the name of its own profile. */
  predicate PlanExported(s: Tables, k: nat)
    requires k < |s.plans|
  {
    exists i :: 0 <= i < |s.profiles| && s.plans[k].profile == s.profiles[i].id
                && SharePlan(s.profiles[i].name, s.plans[k]) in Exported(s).plans
  }

  /** No reference and no plan is left out of an export. */
  lemma ExportLosesNothing(s: Tables, next: Id)
    requires Stored(s, next)
    ensures forall i | 0 <= i < |s.conns| :: s.conns[i].jump.Some? ==> Exported(s).ssh[i].jump.Some?
    ensures forall i | 0 <= i < |s.profiles| :: s.profiles[i].ssh.Some? ==> Exported(s).profiles[i].ssh.Some?
    ensures forall k | 0 <= k < |s.plans| :: PlanExported(s, k)
  {
    forall i | 0 <= i < |s.conns| && s.conns[i].jump.Some? ensures Exported(s).ssh[i].jump.Some? {
      ExportedJumpIsDirect(s.conns, i);
    }
    forall i | 0 <= i < |s.profiles| && s.profiles[i].ssh.Some? ensures Exported(s).profiles[i].ssh.Some? {
      ExportedTunnel(s.conns, s.profiles, i);
    }
    forall k | 0 <= k < |s.plans| ensures PlanExported(s, k) {
      assert HasProfile(s.profiles, s.plans[k].profile);
      var i :| 0 <= i < |s.profiles| && s.profiles[i].id == s.plans[k].profile;
      ExportedPlansAre(s.profiles, s.plans, SharePlan(s.profiles[i].name, s.plans[k]));
      assert PlanOf(s.profiles[i], s.plans[k], SharePlan(s.profiles[i].name, s.plans[k]));
    }
  }

  // ── A bundle taken in by an empty store ──

  lemma MirrorRow(conns: seq<Connection>, incoming: seq<SharedSsh>, first: Id, k: nat)
    requires Sound(conns) && Coherent(incoming) && IsMirror(conns, incoming, first, |incoming|) && k < |incoming|
    ensures conns[k].id == first + k && conns[k].name == incoming[k].name && conns[k].endpoint == incoming[k].endpoint
    ensures conns[k].jump == JumpId(incoming, first, k)
    ensures IndexOf(conns, first + k) == Some(k)
  {
    assert Mirrors(conns[k], incoming, first, |incoming|, k);
    IndexIs(conns, k);
  }

  lemma MirrorExports(conns: seq<Connection>, incoming: seq<SharedSsh>, first: Id)
    requires Sound(conns) && Coherent(incoming) && IsMirror(conns, incoming, first, |incoming|)
    ensures ExportSsh(conns) == incoming
  {
    forall k | 0 <= k < |incoming| ensures ExportSsh(conns)[k] == incoming[k] {
      MirrorRow(conns, incoming, first, k);
      if incoming[k].jump.Some? {
        var j := DirectPlace(incoming, incoming[k].jump.value);
        MirrorRow(conns, incoming, first, j);
      }
    }
  }

  lemma TunnelExports(conns: seq<Connection>, bundle: seq<SharedSsh>, p: SharedProfile)
    requires Sound(conns) && ProfileCarried(bundle, p) && TunnelKnown(conns, bundle, p)
    ensures NameOf(conns, TunnelOf(conns, bundle, p)) == p.ssh
  {
    if p.ssh.Some? {
      var k := Find(Ssh(), conns, p.ssh.value).value;
      IndexIs(conns, k);
    }
  }

  lemma ProfilesExport(conns: seq<Connection>, bundle: seq<SharedSsh>, list: seq<SharedProfile>,
                       profiles: seq<SavedProfile>, first: Id)
    requires Sound(conns) && AllKnown(conns, bundle, list)
    requires forall k {:trigger ProfileCarried(bundle, list[k])} | 0 <= k < |list| :: ProfileCarried(bundle, list[k])
    requires Made(Profiles(), profiles, first, ResolvedAll(conns, bundle, list))
    ensures ExportProfiles(conns, profiles) == list
  {
    forall k | 0 <= k < |list| ensures ExportProfiles(conns, profiles)[k] == list[k] {
      assert ProfileCarried(bundle, list[k]);
      TunnelExports(conns, bundle, list[k]);
      assert profiles[k] == Profiles().make(ResolvedAs(conns, bundle, list[k]), first + k);
    }
  }

  lemma DestinationsExport(list: seq<SharedDestination>, destinations: seq<SavedDestination>, first: Id)
    requires DistinctDestinations(list) && Made(Destinations(), destinations, first, list)
    ensures ExportDestinations(destinations) == list
  {
    forall k | 0 <= k < |list| ensures ExportDestinations(destinations)[k] == list[k] {
      assert TidyDestination(list[k]);
      assert destinations[k] == Destinations().make(list[k], first + k);
    }
  }

  predicate OwnersKnown(profiles: seq<SavedProfile>, list: seq<SharedPlan>) {
    forall k | 0 <= k < |list| :: HasName(profiles, list[k].profile)
  }

  lemma OwnersInit(profiles: seq<SavedProfile>, list: seq<SharedPlan>)
    requires OwnersKnown(profiles, list) && list != []
    ensures OwnersKnown(profiles, list[..|list| - 1]) && HasName(profiles, list[|list| - 1].profile)
  {
  }

  lemma {:induction false} OwnedLength(profiles: seq<SavedProfile>, list: seq<SharedPlan>)
    requires OwnersKnown(profiles, list)
    ensures |OwnedAll(profiles, list)| == |list|
  {
    if list != [] {
      OwnersInit(profiles, list);
      OwnedLength(profiles, list[..|list| - 1]);
    }
  }

  lemma {:induction false} OwnedEach(profiles: seq<SavedProfile>, list: seq<SharedPlan>, k: nat)
    requires OwnersKnown(profiles, list) && k < |list|
    ensures k < |OwnedAll(profiles, list)| && OwnedAll(profiles, list)[k] == OwnedBy(profiles, list[k])
  {
    var init := list[..|list| - 1];
    OwnersInit(profiles, list);
    OwnedLength(profiles, init);
    if k < |init| {
      OwnedEach(profiles, init, k);
    }
  }

  lemma PlansExport(list: seq<SharedPlan>, profiles: seq<SavedProfile>, plans: seq<SavedPlan>, first: Id, next: Id,
                    x: SharedPlan)
    requires Unique(Profiles(), profiles, next) && OwnersKnown(profiles, list)
    requires Made(Plans(), plans, first, OwnedAll(profiles, list))
    ensures x in ExportPlans(profiles, plans) <==> x in list
  {
    OwnedLength(profiles, list);
    ExportedPlansAre(profiles, plans, x);
    if SomewhereIn(profiles, plans, x) {
      var i: nat, k: nat :| i < |profiles| && k < |plans| && PlanOf(profiles[i], plans[k], x);
      MadePlan(list, profiles, plans, first, k);
      RowsDiffer(profiles, next, i, Find(Profiles(), profiles, list[k].profile).value);
    }
    if x in list {
      var k: nat :| k < |list| && list[k] == x;
      MadePlan(list, profiles, plans, first, k);
      assert PlanOf(profiles[Find(Profiles(), profiles, list[k].profile).value], plans[k], x);
    }
  }

  lemma MadePlan(list: seq<SharedPlan>, profiles: seq<SavedProfile>, plans: seq<SavedPlan>, first: Id, k: nat)
    requires OwnersKnown(profiles, list) && Made(Plans(), plans, first, OwnedAll(profiles, list)) && k < |list|
    ensures |plans| == |list| && plans[k].profile == OwnedBy(profiles, list[k]).profile
    ensures SharePlan(list[k].profile, plans[k]) == list[k]
  {
    OwnedLength(profiles, list);
    OwnedEach(profiles, list, k);
    assert plans[k] == Plans().make(OwnedAll(profiles, list)[k], first + k);
  }

  lemma RowsDiffer(profiles: seq<SavedProfile>, next: Id, i: nat, j: nat)
    requires Unique(Profiles(), profiles, next) && i < |profiles| && j < |profiles|
    ensures i != j ==> profiles[i].id != profiles[j].id
  {
    assert i < j ==> Profiles().idOf(profiles[i]) != Profiles().idOf(profiles[j]);
    assert j < i ==> Profiles().idOf(profiles[j]) != Profiles().idOf(profiles[i]);
  }
}
