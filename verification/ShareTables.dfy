/**
 Bundles of shared configuration, and the tables they are made from and written to.

 A bundle refers to records by name and never by id. Timestamps, revisions and audit
 entries are not part of the model.
 */
module ShareTables {
  import opened Common
  import opened Text
  import Selections
  import Pipeline
  import opened SshStore
  import opened SshAdoption
  import opened Upserts
  import opened ShareSsh

  /** Engine, environment, database settings and tool overrides, as one value. */
  type Settings = string

  datatype SavedProfile = SavedProfile(id: Id, name: string, settings: Settings, ssh: Option<Id>)

  datatype SavedPlan = SavedPlan(
    id: Id, profile: Id, name: string, database: string,
    selections: seq<Selections.TableSelection>, masking: seq<Pipeline.MaskRule>)

  /** Where a destination points; `valid` is whether the store accepts it. */
  datatype Kind = Kind(text: string, valid: bool)

  datatype SavedDestination = SavedDestination(id: Id, name: string, kind: Kind, enabled: bool,
    retention: Pipeline.RetentionPolicy)

  // ── Bundles ──

  /** The inline tunnel an older bundle carries. */
  datatype Inline = Inline(endpoint: Endpoint, jump: Option<Endpoint>)

  datatype SharedProfile = SharedProfile(name: string, settings: Settings, ssh: Option<string>, inline: Option<Inline>)

  datatype SharedPlan = SharedPlan(
    profile: string, name: string, database: string,
    selections: seq<Selections.TableSelection>, masking: seq<Pipeline.MaskRule>)

  datatype SharedDestination = SharedDestination(name: string, kind: Kind, retention: Pipeline.RetentionPolicy)

  datatype Bundle = Bundle(ssh: seq<SharedSsh>, profiles: seq<SharedProfile>, plans: seq<SharedPlan>,
    destinations: seq<SharedDestination>)

  // ── The tables ──

  /** A profile whose tunnel has been looked up on this machine. */
  datatype Resolved = Resolved(name: string, settings: Settings, ssh: Option<Id>)

  function Profiles(): Table<SavedProfile, Resolved, string, string> {
    Table(
      (p: SavedProfile) => p.name,
      (p: SavedProfile) => p.id,
      (x: Resolved) => x.name,
      (x: Resolved, id: Id) => SavedProfile(id, x.name, x.settings, x.ssh),
      (p: SavedProfile, x: Resolved) => p.(settings := x.settings, ssh := x.ssh),
      (rows: seq<SavedProfile>, p: SavedProfile) => None)
  }

  /** A plan whose profile has been looked up. */
  datatype Owned = Owned(profile: Id, plan: SharedPlan)

  /** An update leaves the database a plan was made for as it is. */
  function Plans(): Table<SavedPlan, Owned, (Id, string), string> {
    Table(
      (p: SavedPlan) => (p.profile, p.name),
      (p: SavedPlan) => p.id,
      (x: Owned) => (x.profile, x.plan.name),
      (x: Owned, id: Id) => SavedPlan(id, x.profile, x.plan.name, x.plan.database, x.plan.selections, x.plan.masking),
      (p: SavedPlan, x: Owned) => p.(selections := x.plan.selections, masking := x.plan.masking),
      (rows: seq<SavedPlan>, p: SavedPlan) => None)
  }

  predicate Acceptable(d: SavedDestination) {
    Trim(d.name) != [] && d.kind.valid
  }

  /** A destination is created switched off, and an update leaves the switch as it is. */
  function Destinations(): Table<SavedDestination, SharedDestination, string, string> {
    Table(
      (d: SavedDestination) => d.name,
      (d: SavedDestination) => d.id,
      (x: SharedDestination) => x.name,
      (x: SharedDestination, id: Id) => SavedDestination(id, Trim(x.name), x.kind, false, x.retention),
      (d: SavedDestination, x: SharedDestination) => d.(kind := x.kind, retention := x.retention),
      (rows: seq<SavedDestination>, d: SavedDestination) => if Acceptable(d) then None else Some("invalid destination"))
  }

  lemma TablesAreLawful()
    ensures Lawful(Profiles()) && Lawful(Plans()) && Lawful(Destinations())
  {
  }

  // ── Looking a tunnel up ──

  /** The saved connection a shared profile tunnels through on this machine. */
  function TunnelOf(conns: seq<Connection>, bundle: seq<SharedSsh>, p: SharedProfile): Option<Id> {
    match p.ssh
    case Some(name) =>
      if InBundle(bundle, name)
        && Find(Ssh(), conns, name).Some? then Some(conns[Find(Ssh(), conns, name).value].id) else None
    case None =>
      match p.inline
      case Some(inline) => Served(conns, inline.endpoint, inline.jump)
      case None => None
  }

  /** Everything the profile's tunnel needs is there. */
  predicate TunnelKnown(conns: seq<Connection>, bundle: seq<SharedSsh>, p: SharedProfile) {
    match p.ssh
    case Some(name) => InBundle(bundle, name) ==> Find(Ssh(), conns, name).Some?
    case None => p.inline.Some? ==> Served(conns, p.inline.value.endpoint, p.inline.value.jump).Some?
  }

  lemma TunnelStays(conns: seq<Connection>, after: seq<Connection>, bundle: seq<SharedSsh>, p: SharedProfile)
    requires Grown(conns, after) && TunnelKnown(conns, bundle, p)
    ensures TunnelKnown(after, bundle, p) && TunnelOf(after, bundle, p) == TunnelOf(conns, bundle, p)
  {
    GrownKeeps(conns, after);
    assert after == conns + after[|conns|..];
    match p.ssh {
      case Some(name) =>
        if Find(Ssh(), conns, name).Some? {
          FindIs(Ssh(), after, name, Find(Ssh(), conns, name).value);
        }
      case None =>
        if p.inline.Some? {
          ServedStays(conns, after[|conns|..], p.inline.value.endpoint, p.inline.value.jump);
        }
    }
  }

  function ResolvedAs(conns: seq<Connection>, bundle: seq<SharedSsh>, p: SharedProfile): Resolved {
    Resolved(p.name, p.settings, TunnelOf(conns, bundle, p))
  }

  /** The profiles of a bundle, as this machine's connections resolve them. */
  function ResolvedAll(conns: seq<Connection>, bundle: seq<SharedSsh>, list: seq<SharedProfile>): (r: seq<Resolved>)
    ensures |r| == |list| && forall k | 0 <= k < |list| :: r[k] == ResolvedAs(conns, bundle, list[k])
  {
    seq(|list|, k requires 0 <= k < |list| => ResolvedAs(conns, bundle, list[k]))
  }

  predicate AllKnown(conns: seq<Connection>, bundle: seq<SharedSsh>, list: seq<SharedProfile>) {
    forall k | 0 <= k < |list| :: TunnelKnown(conns, bundle, list[k])
  }

  lemma ResolvedStays(conns: seq<Connection>, after: seq<Connection>, bundle: seq<SharedSsh>, list: seq<SharedProfile>)
    requires Grown(conns, after) && AllKnown(conns, bundle, list)
    ensures AllKnown(after, bundle, list) && ResolvedAll(after, bundle, list) == ResolvedAll(conns, bundle, list)
  {
    forall k | 0 <= k < |list|
      ensures TunnelKnown(after, bundle, list[k])
      ensures ResolvedAs(after, bundle, list[k]) == ResolvedAs(conns, bundle, list[k])
    {
      TunnelStays(conns, after, bundle, list[k]);
    }
  }

  predicate HasName(profiles: seq<SavedProfile>, name: string) {
    Find(Profiles(), profiles, name).Some?
  }

  function OwnedBy(profiles: seq<SavedProfile>, p: SharedPlan): Owned
    requires HasName(profiles, p.profile)
  {
    Owned(profiles[Find(Profiles(), profiles, p.profile).value].id, p)
  }

  /** The plans of a bundle whose profile is on this machine. */
  function OwnedAll(profiles: seq<SavedProfile>, plans: seq<SharedPlan>): seq<Owned> {
    if plans == [] then []
    else
      var init, last := plans[..|plans| - 1], plans[|plans| - 1];
      OwnedAll(profiles, init) + if HasName(profiles, last.profile) then [OwnedBy(profiles, last)] else []
  }

  /** The names of the plans whose profile is not on this machine. */
  function OrphanPlans(profiles: seq<SavedProfile>, plans: seq<SharedPlan>): seq<string> {
    if plans == [] then []
    else
      var init, last := plans[..|plans| - 1], plans[|plans| - 1];
      OrphanPlans(profiles, init) + if HasName(profiles, last.profile) then [] else [last.name]
  }

  /** Exactly the names of the bundle have an id, and it is that of their record. */
  ghost predicate AllFiled(conns: seq<Connection>, ids: map<string, Id>, bundle: seq<SharedSsh>) {
    && (forall name :: name in ids <==> InBundle(bundle, name))
    && forall name | name in ids :: Files(conns, ids, name)
  }

  lemma NamedTunnel(conns: seq<Connection>, ids: map<string, Id>, bundle: seq<SharedSsh>, p: SharedProfile)
    requires AllFiled(conns, ids, bundle) && p.ssh.Some?
    ensures TunnelKnown(conns, bundle, p)
    ensures TunnelOf(conns, bundle, p) == if p.ssh.value in ids then Some(ids[p.ssh.value]) else None
  {
    if p.ssh.value in ids {
      assert Files(conns, ids, p.ssh.value);
    }
  }

  // ── The tables, and exporting them ──

  datatype Tables = Tables(conns: seq<Connection>, profiles: seq<SavedProfile>, plans: seq<SavedPlan>,
    destinations: seq<SavedDestination>)

  predicate HasProfile(profiles: seq<SavedProfile>, id: Id) {
    exists k :: 0 <= k < |profiles| && profiles[k].id == id
  }

  /** Every reference by id leads somewhere. */
  predicate Refers(s: Tables) {
    && (forall k | 0 <= k < |s.profiles| && s.profiles[k].ssh.Some? :: HasId(s.conns, s.profiles[k].ssh.value))
    && forall k | 0 <= k < |s.plans| :: HasProfile(s.profiles, s.plans[k].profile)
  }

  predicate WellStored(d: SavedDestination) {
    Acceptable(d) && Trim(d.name) == d.name
  }

  predicate AllStored(destinations: seq<SavedDestination>) {
    forall k {:trigger WellStored(destinations[k])} | 0 <= k < |destinations| :: WellStored(destinations[k])
  }

  function NameOf(conns: seq<Connection>, id: Option<Id>): Option<string> {
    if id.None? then None
    else match IndexOf(conns, id.value) case None => None case Some(k) => Some(conns[k].name)
  }

  function ExportSsh(conns: seq<Connection>): (r: seq<SharedSsh>)
    ensures |r| == |conns|
    ensures forall k | 0 <= k < |conns| ::
      r[k] == SharedSsh(conns[k].name, conns[k].endpoint, NameOf(conns, conns[k].jump))
  {
    seq(|conns|,
      k requires 0 <= k < |conns| => SharedSsh(conns[k].name, conns[k].endpoint, NameOf(conns, conns[k].jump)))
  }

  function ExportProfiles(conns: seq<Connection>, profiles: seq<SavedProfile>): (r: seq<SharedProfile>)
    ensures |r| == |profiles|
    ensures forall k | 0 <= k < |profiles| ::
      r[k] == SharedProfile(profiles[k].name, profiles[k].settings, NameOf(conns, profiles[k].ssh), None)
  {
    seq(|profiles|, k requires 0 <= k < |profiles| =>
      SharedProfile(profiles[k].name, profiles[k].settings, NameOf(conns, profiles[k].ssh), None))
  }

  function ExportDestinations(destinations: seq<SavedDestination>): (r: seq<SharedDestination>)
    ensures |r| == |destinations|
    ensures forall k | 0 <= k < |destinations| ::
      r[k] == SharedDestination(destinations[k].name, destinations[k].kind, destinations[k].retention)
  {
    seq(|destinations|, k requires 0 <= k < |destinations| =>
      SharedDestination(destinations[k].name, destinations[k].kind, destinations[k].retention))
  }

  function SharePlan(owner: string, p: SavedPlan): SharedPlan {
    SharedPlan(owner, p.name, p.database, p.selections, p.masking)
  }

  /** The plans of one profile, in order. */
  function PlansOf(profile: SavedProfile, plans: seq<SavedPlan>): seq<SharedPlan> {
    if plans == [] then []
    else
      var last := plans[|plans| - 1];
      PlansOf(profile, plans[..|plans| - 1]) + if last.profile == profile.id then [SharePlan(profile.name, last)]
        else []
  }

  /** Profile by profile. */
  function ExportPlans(profiles: seq<SavedProfile>, plans: seq<SavedPlan>): seq<SharedPlan> {
    if profiles == [] then []
    else ExportPlans(profiles[..|profiles| - 1], plans) + PlansOf(profiles[|profiles| - 1], plans)
  }

  function Exported(s: Tables): Bundle {
    Bundle(ExportSsh(s.conns), ExportProfiles(s.conns, s.profiles), ExportPlans(s.profiles, s.plans),
      ExportDestinations(s.destinations))
  }

  // ── Which bundles can be taken in ──

  predicate DistinctProfiles(list: seq<SharedProfile>) {
    forall i, j | 0 <= i < j < |list| :: list[i].name != list[j].name
  }

  predicate DistinctPlans(list: seq<SharedPlan>) {
    forall i, j | 0 <= i < j < |list| :: list[i].profile != list[j].profile || list[i].name != list[j].name
  }

  predicate TidyDestination(d: SharedDestination) {
    Trim(d.name) == d.name
  }

  predicate DistinctDestinations(list: seq<SharedDestination>) {
    && (forall i, j | 0 <= i < j < |list| :: list[i].name != list[j].name)
    && forall i {:trigger TidyDestination(list[i])} | 0 <= i < |list| :: TidyDestination(list[i])
  }

  /** Names are unique where the store wants them unique, and written as the store writes them. */
  predicate TidyBundle(b: Bundle) {
    WellNamed(b.ssh) && DistinctProfiles(b.profiles) && DistinctPlans(b.plans) && DistinctDestinations(b.destinations)
  }

  predicate HasOwner(list: seq<SharedProfile>, name: string) {
    exists k :: 0 <= k < |list| && list[k].name == name
  }

  predicate ProfileCarried(ssh: seq<SharedSsh>, p: SharedProfile) {
    p.inline.None? && (p.ssh.Some? ==> InBundle(ssh, p.ssh.value))
  }

  predicate Storable(d: SharedDestination) {
    d.name != [] && d.kind.valid
  }

  /** The bundle carries all it refers to, no jump host has one, and the store accepts each record. */
  predicate CoherentBundle(b: Bundle) {
    && TidyBundle(b) && Coherent(b.ssh)
    && (forall k {:trigger ProfileCarried(b.ssh, b.profiles[k])} | 0 <= k < |b.profiles| ::
      ProfileCarried(b.ssh, b.profiles[k]))
    && (forall k | 0 <= k < |b.plans| :: HasOwner(b.profiles, b.plans[k].profile))
    && forall k {:trigger Storable(b.destinations[k])} | 0 <= k < |b.destinations| :: Storable(b.destinations[k])
  }

  /** The same records; plans in any order. */
  ghost predicate SameBundle(a: Bundle, b: Bundle) {
    && a.ssh == b.ssh && a.profiles == b.profiles && a.destinations == b.destinations
    && forall p :: p in a.plans <==> p in b.plans
  }

  /** Everything the bundle holds is in the tables. */
  ghost predicate AllImported(s: Tables, b: Bundle) {
    && SshApplied(s.conns, b.ssh)
    && AllKnown(s.conns, b.ssh, b.profiles)
    && AllApplied(Profiles(), s.profiles, ResolvedAll(s.conns, b.ssh, b.profiles))
    && AllApplied(Plans(), s.plans, OwnedAll(s.profiles, b.plans))
    && AllApplied(Destinations(), s.destinations, b.destinations)
  }
}
