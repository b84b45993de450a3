/**
 What an import means for the rows of each table, field by field: what the records of the
 bundle bring, and what stays as it was.
 */
module ShareMeaning {
  import opened Common
  import opened Text
  import opened SshStore
  import opened SshAdoption
  import opened Upserts
  import opened ShareSsh
  import opened ShareAttach
  import opened ShareTables
  import opened Share

  // ── What arrives ──

  /** The connection has the record's endpoint, and the jump host the bundle names. */
  ghost predicate ConnectionArrived(conns: seq<Connection>, bundle: seq<SharedSsh>, x: SharedSsh) {
    exists c <- conns ::
      && c.name == x.name && c.endpoint == x.endpoint
      && (x.jump.Some? && InBundle(bundle, x.jump.value) ==>
            exists h <- conns :: h.name == x.jump.value && c.jump == Some(h.id))
  }

  /**
   The tunnel is the connection the bundle names, if it carries it; the one an inline tunnel
   reaches; and otherwise none.
   */
  ghost predicate RightTunnel(conns: seq<Connection>, bundle: seq<SharedSsh>, p: SharedProfile, ssh: Option<Id>) {
    if p.ssh.Some? then
      if InBundle(bundle, p.ssh.value) then exists c <- conns :: c.name == p.ssh.value && ssh == Some(c.id)
      else ssh.None?
    else if p.inline.Some? then ssh.Some? && Reaches(conns, ssh.value, p.inline.value.endpoint, p.inline.value.jump)
    else ssh.None?
  }

  ghost predicate ProfileArrived(s: Tables, bundle: seq<SharedSsh>, p: SharedProfile) {
    exists row <- s.profiles ::
      row.name == p.name && row.settings == p.settings && RightTunnel(s.conns, bundle, p, row.ssh)
  }

  /** The plan is with the profile of its owner's name. */
  ghost predicate PlanArrived(s: Tables, p: SharedPlan) {
    exists owner <- s.profiles :: owner.name == p.profile
      && exists row <- s.plans ::
        row.profile == owner.id && row.name == p.name && row.selections == p.selections && row.masking == p.masking
  }

  ghost predicate DestinationArrived(s: Tables, d: SharedDestination) {
    exists row <- s.destinations :: row.name == d.name && row.kind == d.kind && row.retention == d.retention
  }

  lemma ConnectionIsThere(conns: seq<Connection>, bundle: seq<SharedSsh>, k: nat)
    requires SshApplied(conns, bundle) && k < |bundle|
    ensures ConnectionArrived(conns, bundle, bundle[k])
  {
    var x := bundle[k];
    assert Applied(Ssh(), conns, x) && Jumped(conns, bundle, x);
    var c := conns[Find(Ssh(), conns, x.name).value];
    assert c in conns && c.name == x.name;
    assert Ssh().patch(c, x) == c && Ssh().patch(c, x).endpoint == x.endpoint;
    if x.jump.Some? && InBundle(bundle, x.jump.value) {
      var h := conns[Find(Ssh(), conns, x.jump.value).value];
      assert h in conns && h.name == x.jump.value;
    }
  }

  lemma TunnelIsRight(conns: seq<Connection>, bundle: seq<SharedSsh>, p: SharedProfile)
    requires TunnelKnown(conns, bundle, p)
    ensures RightTunnel(conns, bundle, p, TunnelOf(conns, bundle, p))
  {
    if p.ssh.Some? {
      if InBundle(bundle, p.ssh.value) {
        var c := conns[Find(Ssh(), conns, p.ssh.value).value];
        assert c in conns && c.name == p.ssh.value;
      }
    } else if p.inline.Some? {
      ServedReaches(conns, p.inline.value.endpoint, p.inline.value.jump);
    }
  }

  lemma ProfileIsThere(s: Tables, bundle: seq<SharedSsh>, list: seq<SharedProfile>, k: nat)
    requires AllKnown(s.conns, bundle, list) && k < |list|
    requires AllApplied(Profiles(), s.profiles, ResolvedAll(s.conns, bundle, list))
    ensures ProfileArrived(s, bundle, list[k])
  {
    var x := ResolvedAll(s.conns, bundle, list)[k];
    assert Applied(Profiles(), s.profiles, x);
    var row := s.profiles[Find(Profiles(), s.profiles, x.name).value];
    assert row in s.profiles && Profiles().keyOf(row) == x.name && Profiles().patch(row, x) == row;
    assert row.settings == x.settings && row.ssh == x.ssh;
    TunnelIsRight(s.conns, bundle, list[k]);
  }

  lemma {:induction false} OwnedHolds(profiles: seq<SavedProfile>, list: seq<SharedPlan>, k: nat) returns (n: nat)
    requires k < |list| && HasName(profiles, list[k].profile)
    ensures n < |OwnedAll(profiles, list)| && OwnedAll(profiles, list)[n] == OwnedBy(profiles, list[k])
    decreases |list|
  {
    var init := list[..|list| - 1];
    if k < |init| {
      n := OwnedHolds(profiles, init, k);
    } else {
      n := |OwnedAll(profiles, init)|;
    }
  }

  lemma {:induction false} PlanIsThere(s: Tables, list: seq<SharedPlan>, k: nat)
    requires AllApplied(Plans(), s.plans, OwnedAll(s.profiles, list))
    requires k < |list| && HasName(s.profiles, list[k].profile)
    ensures PlanArrived(s, list[k])
  {
    var n := OwnedHolds(s.profiles, list, k);
    var x := OwnedAll(s.profiles, list)[n];
    var owner := s.profiles[Find(Profiles(), s.profiles, list[k].profile).value];
    assert owner in s.profiles && Profiles().keyOf(owner) == list[k].profile;
    assert Applied(Plans(), s.plans, x);
    var row := s.plans[Find(Plans(), s.plans, (x.profile, x.plan.name)).value];
    assert row in s.plans && Plans().keyOf(row) == (x.profile, x.plan.name) && Plans().patch(row, x) == row;
  }

  lemma DestinationIsThere(s: Tables, list: seq<SharedDestination>, k: nat)
    requires AllApplied(Destinations(), s.destinations, list) && k < |list|
    ensures DestinationArrived(s, list[k])
  {
    var x := list[k];
    assert Applied(Destinations(), s.destinations, x);
    var row := s.destinations[Find(Destinations(), s.destinations, x.name).value];
    assert row in s.destinations && Destinations().keyOf(row) == x.name && Destinations().patch(row, x) == row;
  }

  /** Whatever the bundle carries is in the tables, with all it says of it; a plan needs its owner to be there. */
  lemma ImportedMeans(s: Tables, b: Bundle)
    requires AllImported(s, b)
    ensures forall k | 0 <= k < |b.ssh| :: ConnectionArrived(s.conns, b.ssh, b.ssh[k])
    ensures forall k | 0 <= k < |b.profiles| :: ProfileArrived(s, b.ssh, b.profiles[k])
    ensures forall k | 0 <= k < |b.plans| && HasName(s.profiles, b.plans[k].profile) :: PlanArrived(s, b.plans[k])
    ensures forall k | 0 <= k < |b.destinations| :: DestinationArrived(s, b.destinations[k])
  {
    forall k | 0 <= k < |b.ssh| ensures ConnectionArrived(s.conns, b.ssh, b.ssh[k]) {
      ConnectionIsThere(s.conns, b.ssh, k);
    }
    forall k | 0 <= k < |b.profiles| ensures ProfileArrived(s, b.ssh, b.profiles[k]) {
      ProfileIsThere(s, b.ssh, b.profiles, k);
    }
    forall k | 0 <= k < |b.plans| && HasName(s.profiles, b.plans[k].profile) ensures PlanArrived(s, b.plans[k]) {
      PlanIsThere(s, b.plans, k);
    }
    forall k | 0 <= k < |b.destinations| ensures DestinationArrived(s, b.destinations[k]) {
      DestinationIsThere(s, b.destinations, k);
    }
  }

  // ── What stays ──

  /** A switch is never touched, and a new destination is off. */
  predicate SwitchesStay(before: seq<SavedDestination>, after: seq<SavedDestination>) {
    && |before| <= |after|
    && forall k | 0 <= k < |after| :: after[k].enabled == if k < |before| then before[k].enabled else false
  }

  /** A plan keeps its owner and its database, and a new one is made for the database it names. */
  predicate DatabasesStay(before: seq<SavedPlan>, after: seq<SavedPlan>, list: seq<SharedPlan>) {
    && |before| <= |after|
    && (forall k | 0 <= k < |before| ::
          after[k].database == before[k].database && after[k].profile == before[k].profile)
    && forall k | |before| <= k < |after| :: Brought(after[k], list)
  }

  lemma {:induction false} SwitchesOfAll(rows: seq<SavedDestination>, next: Id, list: seq<SharedDestination>)
    requires All(Destinations(), rows, next, list).Some?
    ensures SwitchesStay(rows, All(Destinations(), rows, next, list).value.0)
    decreases |list|
  {
    if list != [] {
      SwitchesOfAll(rows, next, list[..|list| - 1]);
    }
  }

  lemma OneDatabase(rows: seq<SavedPlan>, next: Id, x: Owned, after: seq<SavedPlan>)
    requires One(Plans(), rows, next, x) == Some(after)
    ensures |rows| <= |after| <= |rows| + 1
    ensures forall k | 0 <= k < |rows| ::
      after[k].database == rows[k].database && after[k].profile == rows[k].profile && after[k].name == rows[k].name
    ensures |after| > |rows| ==> after[|rows|].name == x.plan.name && after[|rows|].database == x.plan.database
  {
    var k := Find(Plans(), rows, Plans().wanted(x));
    if k.Some? {
      assert after == rows[k.value := Plans().patch(rows[k.value], x)];
    } else {
      assert after == rows + [Plans().make(x, next)];
    }
  }

  /** A new plan is one of the list. */
  predicate Brought(row: SavedPlan, list: seq<SharedPlan>) {
    exists p <- list :: row.name == p.name && row.database == p.database
  }

  lemma BroughtStays(row: SavedPlan, before: seq<SharedPlan>, row': SavedPlan, list: seq<SharedPlan>)
    requires Brought(row, before) && row'.name == row.name && row'.database == row.database
    requires forall p <- before :: p in list
    ensures Brought(row', list)
  {
  }

  lemma {:induction false} DatabasesOfAll(rows: seq<SavedPlan>, next: Id, list: seq<Owned>)
    requires All(Plans(), rows, next, list).Some?
    ensures DatabasesStay(rows, All(Plans(), rows, next, list).value.0, PlansIn(list))
    decreases |list|
  {
    if list != [] {
      var init, x := list[..|list| - 1], list[|list| - 1];
      DatabasesOfAll(rows, next, init);
      var (r, n) := All(Plans(), rows, next, init).value;
      var after := All(Plans(), rows, next, list).value.0;
      OneDatabase(r, n, x, after);
      assert PlansIn(list) == PlansIn(init) + [x.plan];
      forall k | |rows| <= k < |after| ensures Brought(after[k], PlansIn(list)) {
        if k < |r| {
          BroughtStays(r[k], PlansIn(init), after[k], PlansIn(list));
        }
      }
    }
  }

  function PlansIn(list: seq<Owned>): seq<SharedPlan> {
    seq(|list|, k requires 0 <= k < |list| => list[k].plan)
  }

  lemma PlansComeFrom(profiles: seq<SavedProfile>, list: seq<SharedPlan>)
    ensures forall p <- PlansIn(OwnedAll(profiles, list)) :: p in list
  {
    var owned := OwnedAll(profiles, list);
    forall p <- PlansIn(owned) ensures p in list {
      var k :| 0 <= k < |owned| && owned[k].plan == p;
      OwnedComeFrom(profiles, list, owned[k]);
    }
  }

  lemma {:induction false} ProfilesOfRun(s: Stage, ids: map<string, Id>, list: seq<SharedProfile>)
    ensures var after := ProfilesRun(s, ids, list).stage.profiles;
      && |s.profiles| <= |after|
      && forall k | 0 <= k < |s.profiles| && !HasOwner(list, s.profiles[k].name) :: after[k] == s.profiles[k]
    decreases |list|
  {
    if list != [] {
      var init, p := list[..|list| - 1], list[|list| - 1];
      ProfilesOfRun(s, ids, init);
      assert HasOwner(list, p.name) by { assert list[|list| - 1].name == p.name; }
      forall name | HasOwner(init, name) ensures HasOwner(list, name) {
        var k :| 0 <= k < |init| && init[k].name == name;
        assert list[k].name == name;
      }
    }
  }

  /**
   Profiles, plans and destinations the bundle does not name stay exactly as they were,
   refused or not; no switch is touched, no plan changes hands or database, and what is new
   is off.
   */
  lemma RestStays(refused: Option<ImportError>, s0: Tables, from: Stage, s: Tables, to: Stage, b: Bundle)
    requires ImportRan(refused, s0, from, s, to, b) && from.profiles == s0.profiles && to.profiles == s.profiles
    ensures |s0.profiles| <= |s.profiles|
    ensures forall k | 0 <= k < |s0.profiles| && !HasOwner(b.profiles, s0.profiles[k].name) ::
      s.profiles[k] == s0.profiles[k]
    ensures SwitchesStay(s0.destinations, s.destinations) && DatabasesStay(s0.plans, s.plans, b.plans)
    ensures OthersStay(Destinations(), s0.destinations, s.destinations, b.destinations)
    ensures OthersStay(Plans(), s0.plans, s.plans, OwnedAll(s.profiles, b.plans))
  {
    match refused {
      case Some(SshRefused(e)) =>
        if steps: Steps :| steps.staged == to && FirstTables(s0, from, steps, Some(e), b) {
          ProfilesOfRun(Stage(steps.ssh, s0.profiles, from.next), steps.ids, b.profiles);
        }
      case _ =>
        var steps: Steps :| WholeRan(refused, s0, from, steps, s, to, b);
        ProfilesOfRun(Stage(steps.ssh, s0.profiles, from.next), steps.ids, b.profiles);
        LastTablesRest(s0, steps.staged, s, to.next, refused, b);
    }
  }

  lemma BroughtByAll(before: seq<SavedPlan>, after: seq<SavedPlan>, some: seq<SharedPlan>, list: seq<SharedPlan>)
    requires DatabasesStay(before, after, some) && forall p <- some :: p in list
    ensures DatabasesStay(before, after, list)
  {
    forall k | |before| <= k < |after| ensures Brought(after[k], list) {
      BroughtStays(after[k], some, after[k], list);
    }
  }

  lemma LastTablesRest(s0: Tables, staged: Stage, s: Tables, next: Id, refused: Option<ImportError>, b: Bundle)
    requires LastTables(s0, staged, s, next, refused, b)
    ensures SwitchesStay(s0.destinations, s.destinations) && DatabasesStay(s0.plans, s.plans, b.plans)
    ensures OthersStay(Destinations(), s0.destinations, s.destinations, b.destinations)
    ensures OthersStay(Plans(), s0.plans, s.plans, OwnedAll(s.profiles, b.plans))
  {
    var owned := OwnedAll(staged.profiles, b.plans);
    BroughtByAll(s0.plans, s.plans, PlansIn(owned), b.plans) by {
      DatabasesOfAll(s0.plans, staged.next, owned);
      PlansComeFrom(staged.profiles, b.plans);
    }
    var (plans, n) := All(Plans(), s0.plans, staged.next, owned).value;
    AllLeavesOthers(Plans(), s0.plans, staged.next, owned);
    match refused
    case None =>
      SwitchesOfAll(s0.destinations, n, b.destinations);
      AllLeavesOthers(Destinations(), s0.destinations, n, b.destinations);
    case Some(e) =>
      var i: nat :| DestinationStopsAt(s0.destinations, n, s.destinations, next, b.destinations, i, e);
      SwitchesOfAll(s0.destinations, n, b.destinations[..i]);
      AllLeavesOthers(Destinations(), s0.destinations, n, b.destinations[..i]);
  }
}
