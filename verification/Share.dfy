/**
 Importing a shared configuration, table by table.

 `Config` is the store. `Import` is proved against the tables' own rules in `Upserts`,
 against `AllImported`, and, for an empty store, against `Exported`.
 */
module Share {
  import opened Common
  import opened Text
  import opened SshStore
  import opened SshAdoption
  import opened Upserts
  import opened ShareSsh
  import opened ShareAttach
  import opened ShareTables
  import opened ShareTrip
  import Pipeline

  datatype ImportError = SshRefused(error: SshError) | DestinationRefused(name: string)

  // ── What each step leaves in the store ──

  lemma SshStored(s: Tables, next: Id, conns: seq<Connection>)
    requires Stored(s, next) && Sound(conns) && AllUsable(conns) && Kept(Ssh(), s.conns, conns)
    ensures Stored(s.(conns := conns), next)
  {
    forall k | 0 <= k < |s.profiles| && s.profiles[k].ssh.Some? ensures HasId(conns, s.profiles[k].ssh.value) {
      HasIdStays(s.conns, conns, s.profiles[k].ssh.value);
    }
  }

  lemma ProfileRowsUnique(s: Tables, next: Id, x: Resolved)
    requires UniqueRows(s, next)
    ensures One(Profiles(), s.profiles, next, x).Some?
    ensures var after := One(Profiles(), s.profiles, next, x).value;
      UniqueRows(s.(profiles := after), NextAfter(Profiles(), s.profiles, next, x))
  {
    TablesAreLawful();
    OneStaysUnique(Profiles(), s.profiles, next, x);
  }

  lemma ProfileRowsRefer(s: Tables, next: Id, x: Resolved, after: seq<SavedProfile>)
    requires Refers(s) && (x.ssh.Some? ==> HasId(s.conns, x.ssh.value))
    requires One(Profiles(), s.profiles, next, x) == Some(after)
    ensures Refers(s.(profiles := after))
  {
    TablesAreLawful();
    OneKeeps(Profiles(), s.profiles, next, x);
    forall k | 0 <= k < |s.plans| ensures HasProfile(after, s.plans[k].profile) {
      ProfileStays(s.profiles, after, s.plans[k].profile);
    }
  }

  /** A profile is never refused: its tunnel is there, and its name is free or its own. */
  lemma ProfileStored(s: Tables, next: Id, x: Resolved)
    requires Stored(s, next) && (x.ssh.Some? ==> HasId(s.conns, x.ssh.value))
    ensures var after := One(Profiles(), s.profiles, next, x);
      after.Some? && Stored(s.(profiles := after.value), NextAfter(Profiles(), s.profiles, next, x))
  {
    ProfileRowsUnique(s, next, x);
    ProfileRowsRefer(s, next, x, One(Profiles(), s.profiles, next, x).value);
  }

  lemma ProfileStays(profiles: seq<SavedProfile>, after: seq<SavedProfile>, id: Id)
    requires HasProfile(profiles, id) && Kept(Profiles(), profiles, after)
    ensures HasProfile(after, id)
  {
    var k :| 0 <= k < |profiles| && profiles[k].id == id;
    assert Profiles().idOf(after[k]) == Profiles().idOf(profiles[k]);
  }

  /** Nor is a plan. */
  lemma PlanStored(s: Tables, next: Id, x: Owned)
    requires Stored(s, next) && HasProfile(s.profiles, x.profile)
    ensures var after := One(Plans(), s.plans, next, x);
      after.Some? && Stored(s.(plans := after.value), NextAfter(Plans(), s.plans, next, x))
  {
    TablesAreLawful();
    var after := One(Plans(), s.plans, next, x).value;
    OneStaysUnique(Plans(), s.plans, next, x);
    forall k | 0 <= k < |after| ensures HasProfile(s.profiles, after[k].profile) {
      assert k < |s.plans| ==> HasProfile(s.profiles, s.plans[k].profile);
    }
  }

  lemma DestinationStored(s: Tables, next: Id, x: SharedDestination)
    requires Stored(s, next)
    ensures var after := One(Destinations(), s.destinations, next, x);
      after.Some? ==> Stored(s.(destinations := after.value), NextAfter(Destinations(), s.destinations, next, x))
  {
    TablesAreLawful();
    var r := One(Destinations(), s.destinations, next, x);
    if r.Some? {
      OneStaysUnique(Destinations(), s.destinations, next, x);
      TrimIsIdempotent(x.name);
      forall k | 0 <= k < |r.value| ensures WellStored(r.value[k]) {
        assert k < |s.destinations| ==> WellStored(s.destinations[k]);
      }
    }
  }

  // ── The profiles ──

  /** The connections after a tunnel was looked up, and what was found. */
  datatype Tunnel = Tunnel(book: Book, r: Result<Option<Id>, SshError>)

  /** A named tunnel by the ids, an inline one by adoption. */
  ghost function TunnelRun(b: Book, ids: map<string, Id>, p: SharedProfile): Tunnel {
    match p.ssh
    case Some(name) => Tunnel(b, Ok(if name in ids then Some(ids[name]) else None))
    case None =>
      match p.inline
      case None => Tunnel(b, Ok(None))
      case Some(inline) =>
        match RouteAdopted(b, inline.endpoint, inline.jump)
        case None => Tunnel(RouteLeft(b, inline.jump), Err(RouteRefusal(b, inline.endpoint, inline.jump)))
        case Some(after) => Tunnel(after, Ok(Served(after.conns, inline.endpoint, inline.jump)))
  }

  /** The tables the profiles are written to. */
  datatype Stage = Stage(book: Book, profiles: seq<SavedProfile>, next: Id)

  datatype Staged = Staged(stage: Stage, refused: Option<SshError>)

  /** One profile: its tunnel, the store's check that the connection is there, and the row. */
  ghost function ProfileRun(s: Stage, ids: map<string, Id>, p: SharedProfile): Staged {
    var t := TunnelRun(s.book, ids, p);
    if t.r.Err? then Staged(s.(book := t.book), Some(t.r.error))
    else if t.r.value.Some? && IndexOf(t.book.conns, t.r.value.value).None?
    then Staged(s.(book := t.book), Some(NotFound(t.r.value.value)))
    else
      var x := Resolved(p.name, p.settings, t.r.value);
      match One(Profiles(), s.profiles, s.next, x)
      case None => Staged(s, None)
      case Some(rows) => Staged(Stage(t.book, rows, NextAfter(Profiles(), s.profiles, s.next, x)), None)
  }

  /** Profile after profile, to the first that is refused. */
  ghost function ProfilesRun(s: Stage, ids: map<string, Id>, list: seq<SharedProfile>): Staged
    decreases |list|
  {
    if list == [] then Staged(s, None)
    else
      var r := ProfilesRun(s, ids, list[..|list| - 1]);
      if r.refused.Some? then r else ProfileRun(r.stage, ids, list[|list| - 1])
  }

  lemma ProfilesRunOn(s: Stage, ids: map<string, Id>, list: seq<SharedProfile>, i: nat)
    requires i < |list|
    ensures ProfilesRun(s, ids, list[..i + 1]) ==
      var r := ProfilesRun(s, ids, list[..i]);
      if r.refused.Some? then r else ProfileRun(r.stage, ids, list[i])
  {
    assert list[..i + 1][..i] == list[..i];
  }

  /** A refusal is final. */
  lemma {:induction false} RefusedStays(s: Stage, ids: map<string, Id>, list: seq<SharedProfile>, i: nat)
    requires i <= |list| && ProfilesRun(s, ids, list[..i]).refused.Some?
    ensures ProfilesRun(s, ids, list) == ProfilesRun(s, ids, list[..i])
    decreases |list| - i
  {
    if i < |list| {
      ProfilesRunOn(s, ids, list, i);
      RefusedStays(s, ids, list, i + 1);
    } else {
      assert list[..i] == list;
    }
  }

  lemma GrownIsKept(conns: seq<Connection>, after: seq<Connection>)
    requires Grown(conns, after)
    ensures Kept(Ssh(), conns, after)
  {
    GrownKeeps(conns, after);
  }

  lemma AllFiledStays(conns: seq<Connection>, after: seq<Connection>, ids: map<string, Id>, bundle: seq<SharedSsh>)
    requires AllFiled(conns, ids, bundle) && Grown(conns, after)
    ensures AllFiled(after, ids, bundle)
  {
    GrownIsKept(conns, after);
    forall name | name in ids ensures Files(after, ids, name) {
      FilesStay(conns, after, ids, ids, name);
    }
  }

  /** What looking a tunnel up comes to. */
  ghost predicate TunnelFound(r: Result<Option<Id>, SshError>, conns: seq<Connection>, after: seq<Connection>,
                              ids: map<string, Id>, bundle: seq<SharedSsh>, p: SharedProfile) {
    match r
    case Err(_) => Grown(conns, after) && !(AllFiled(conns, ids, bundle) && TunnelKnown(conns, bundle, p))
    case Ok(tunnel) =>
      && Grown(conns, after)
      && (AllFiled(conns, ids, bundle) ==>
            && TunnelKnown(after, bundle, p) && tunnel == TunnelOf(after, bundle, p)
            && (TunnelKnown(conns, bundle, p) ==> after == conns))
  }

  lemma TunnelIsThere(conns: seq<Connection>, bundle: seq<SharedSsh>, p: SharedProfile)
    requires TunnelKnown(conns, bundle, p) && TunnelOf(conns, bundle, p).Some?
    ensures HasId(conns, TunnelOf(conns, bundle, p).value)
  {
    if p.ssh.None? {
      ServedReaches(conns, p.inline.value.endpoint, p.inline.value.jump);
    }
  }

  lemma HasIdExactly(conns: seq<Connection>, id: Id)
    ensures IndexOf(conns, id).Some? <==> HasId(conns, id)
  {
    if IndexOf(conns, id).None? {
      forall k | 0 <= k < |conns| ensures conns[k].id != id {
        assert conns[k] in conns;
      }
    }
  }

  /** The store's own check that the connection is there cannot fail when the names lead where they should. */
  lemma MissingIsUnexpected(conns: seq<Connection>, after: seq<Connection>, ids: map<string, Id>,
                            bundle: seq<SharedSsh>,
                            p: SharedProfile, id: Id, r: Result<Option<Id>, SshError>)
    requires TunnelFound(Ok(Some(id)), conns, after, ids, bundle, p) && !HasId(after, id) && r.Err?
    ensures TunnelFound(r, conns, after, ids, bundle, p)
  {
    if AllFiled(conns, ids, bundle) {
      TunnelIsThere(after, bundle, p);
    }
  }

  /** The other tables are as they were, and these two only gained. */
  ghost predicate OnlyProfiles(s0: Tables, s: Tables) {
    && Grown(s0.conns, s.conns) && Kept(Profiles(), s0.profiles, s.profiles)
    && s.plans == s0.plans && s.destinations == s0.destinations
  }

  /** The profiles up to `i` are in the tables, with the tunnels this machine resolves them to. */
  ghost predicate ProfilesIn(s0: Tables, next0: Id, s: Tables, next: Id,
                             ids: map<string, Id>, bundle: seq<SharedSsh>, list: seq<SharedProfile>, i: nat) {
    && i <= |list| && OnlyProfiles(s0, s)
    && (AllFiled(s0.conns, ids, bundle) ==>
          && AllKnown(s.conns, bundle, list[..i])
          && Written(Profiles(), s0.profiles, next0, s.profiles, next, ResolvedAll(s.conns, bundle, list[..i]))
          && (AllKnown(s0.conns, bundle, list[..i]) ==> s.conns == s0.conns))
  }

  ghost predicate ProfileRefused(s0: Tables, s: Tables, ids: map<string, Id>, bundle: seq<SharedSsh>,
                                 list: seq<SharedProfile>) {
    OnlyProfiles(s0, s) && !(AllFiled(s0.conns, ids, bundle) && AllKnown(s0.conns, bundle, list))
  }

  /** How far the profiles have come, or that one was refused. */
  ghost predicate ProfilePass(refused: Option<SshError>, s0: Tables, next0: Id, s: Tables, next: Id,
                              ids: map<string, Id>, bundle: seq<SharedSsh>, list: seq<SharedProfile>, i: nat) {
    match refused
    case Some(_) => ProfileRefused(s0, s, ids, bundle, list)
    case None => ProfilesIn(s0, next0, s, next, ids, bundle, list, i)
  }

  /** The states the tables can be in by then. */
  ghost function ProfileStates(refused: Option<SshError>, s0: Tables, next0: Id,
                               ids: map<string, Id>, bundle: seq<SharedSsh>, list: seq<SharedProfile>, i: nat)
    : iset<(Tables, Id)>
  {
    iset x: (Tables, Id) | ProfilePass(refused, s0, next0, x.0, x.1, ids, bundle, list, i)
  }

  lemma StartProfiles(s: Tables, next: Id, ids: map<string, Id>, bundle: seq<SharedSsh>, list: seq<SharedProfile>)
    ensures (s, next) in ProfileStates(None, s, next, ids, bundle, list, 0)
  {
    StartWriting<SavedProfile, Resolved, string, string>(Profiles(), s.profiles, next);
    assert ResolvedAll(s.conns, bundle, list[..0]) == [];
  }

  lemma OneMoreResolved(conns: seq<Connection>, after: seq<Connection>, bundle: seq<SharedSsh>,
                        list: seq<SharedProfile>, i: nat)
    requires i < |list| && Grown(conns, after) && AllKnown(conns, bundle, list[..i])
    requires TunnelKnown(after, bundle, list[i])
    ensures AllKnown(after, bundle, list[..i + 1])
    ensures ResolvedAll(after, bundle, list[..i + 1]) == ResolvedAll(conns, bundle, list[..i])
      + [ResolvedAs(after, bundle, list[i])]
  {
    ResolvedStays(conns, after, bundle, list[..i]);
    var more := list[..i + 1];
    forall k | 0 <= k < |more| ensures TunnelKnown(after, bundle, more[k]) {
      assert k < i ==> TunnelKnown(after, bundle, list[..i][k]);
    }
  }

  lemma ProfilesOn(s0: Tables, next0: Id, s: Tables, next: Id, ids: map<string, Id>, bundle: seq<SharedSsh>,
                   list: seq<SharedProfile>, i: nat,
                   tunnel: Option<Id>, after: seq<Connection>, rows: seq<SavedProfile>)
    requires ProfilePass(None, s0, next0, s, next, ids, bundle, list, i) && i < |list|
    requires TunnelFound(Ok(tunnel), s.conns, after, ids, bundle, list[i])
    requires One(Profiles(), s.profiles, next, Resolved(list[i].name, list[i].settings, tunnel)) == Some(rows)
    ensures ProfilePass(None, s0, next0, s.(conns := after, profiles := rows),
                        NextAfter(Profiles(), s.profiles, next, Resolved(list[i].name, list[i].settings, tunnel)),
                          ids, bundle, list, i + 1)
  {
    TablesAreLawful();
    var x := Resolved(list[i].name, list[i].settings, tunnel);
    GrownTwice(s0.conns, s.conns, after);
    OneKeeps(Profiles(), s.profiles, next, x);
    KeptTwice(Profiles(), s0.profiles, s.profiles, rows);
    if AllFiled(s0.conns, ids, bundle) {
      AllFiledStays(s0.conns, s.conns, ids, bundle);
      OneMoreResolved(s.conns, after, bundle, list, i);
      WritesOn(Profiles(), s0.profiles, next0, s.profiles, next, ResolvedAll(s.conns, bundle, list[..i]), x);
      if AllKnown(s0.conns, bundle, list[..i + 1]) {
        KnownInit(s0.conns, bundle, list, i);
      }
    }
  }

  lemma KnownInit(conns: seq<Connection>, bundle: seq<SharedSsh>, list: seq<SharedProfile>, i: nat)
    requires i < |list| && AllKnown(conns, bundle, list[..i + 1])
    ensures AllKnown(conns, bundle, list[..i]) && TunnelKnown(conns, bundle, list[i])
  {
    forall k | 0 <= k < i ensures TunnelKnown(conns, bundle, list[..i][k]) {
      assert TunnelKnown(conns, bundle, list[..i + 1][k]);
    }
    assert TunnelKnown(conns, bundle, list[..i + 1][i]);
  }

  lemma KnownPrefix(conns: seq<Connection>, bundle: seq<SharedSsh>, list: seq<SharedProfile>, i: nat)
    requires i <= |list| && AllKnown(conns, bundle, list)
    ensures AllKnown(conns, bundle, list[..i])
    ensures i < |list| ==> TunnelKnown(conns, bundle, list[i])
  {
    forall k | 0 <= k < i ensures TunnelKnown(conns, bundle, list[..i][k]) {
      assert TunnelKnown(conns, bundle, list[k]);
    }
  }

  lemma ProfilesStop(s0: Tables, next0: Id, s: Tables, next: Id, ids: map<string, Id>, bundle: seq<SharedSsh>,
                     list: seq<SharedProfile>, i: nat,
                     error: SshError, after: seq<Connection>)
    requires ProfilePass(None, s0, next0, s, next, ids, bundle, list, i) && i < |list|
    requires TunnelFound(Err(error), s.conns, after, ids, bundle, list[i])
    ensures ProfilePass(Some(error), s0, next0, s.(conns := after), next, ids, bundle, list, |list|)
  {
    GrownTwice(s0.conns, s.conns, after);
    if AllFiled(s0.conns, ids, bundle) && AllKnown(s0.conns, bundle, list) {
      KnownPrefix(s0.conns, bundle, list, i);
      AllFiledStays(s0.conns, s.conns, ids, bundle);
    }
  }

  lemma ProfilesEnded(refused: Option<SshError>, s0: Tables, next0: Id, s: Tables, next: Id,
                      ids: map<string, Id>, bundle: seq<SharedSsh>, list: seq<SharedProfile>, i: nat)
    requires (s, next) in ProfileStates(refused, s0, next0, ids, bundle, list, i) && (refused.Some? || i == |list|)
    ensures (s, next) in ProfileStates(refused, s0, next0, ids, bundle, list, |list|)
  {
  }

  // ── The plans ──

  lemma OneMoreOwned(profiles: seq<SavedProfile>, list: seq<SharedPlan>, i: nat)
    requires i < |list|
    ensures OwnedAll(profiles, list[..i + 1]) ==
      OwnedAll(profiles, list[..i]) + if HasName(profiles, list[i].profile) then [OwnedBy(profiles, list[i])] else []
  {
    assert list[..i + 1][..i] == list[..i];
  }

  lemma PlansOn(profiles: seq<SavedProfile>, plans0: seq<SavedPlan>, next0: Id, plans: seq<SavedPlan>, next: Id,
                list: seq<SharedPlan>, i: nat, rows: seq<SavedPlan>)
    requires i < |list| && Written(Plans(), plans0, next0, plans, next, OwnedAll(profiles, list[..i]))
    requires HasName(profiles, list[i].profile)
    requires One(Plans(), plans, next, OwnedBy(profiles, list[i])) == Some(rows)
    ensures Written(Plans(), plans0, next0, rows, NextAfter(Plans(), plans, next, OwnedBy(profiles, list[i])),
      OwnedAll(profiles, list[..i + 1]))
  {
    TablesAreLawful();
    OneMoreOwned(profiles, list, i);
    WritesOn(Plans(), plans0, next0, plans, next, OwnedAll(profiles, list[..i]), OwnedBy(profiles, list[i]));
  }

  lemma PlansSkip(profiles: seq<SavedProfile>, list: seq<SharedPlan>, i: nat)
    requires i < |list| && !HasName(profiles, list[i].profile)
    ensures OwnedAll(profiles, list[..i + 1]) == OwnedAll(profiles, list[..i])
  {
    OneMoreOwned(profiles, list, i);
  }

  // ── The destinations ──

  /** Every record can be stored: the list is in the table already, or has only tidy records the store accepts. */
  ghost predicate Welcome(rows: seq<SavedDestination>, list: seq<SharedDestination>) {
    AllApplied(Destinations(), rows, list) || (DistinctDestinations(list) && AllStorable(list))
  }

  predicate AllStorable(list: seq<SharedDestination>) {
    forall k {:trigger Storable(list[k])} | 0 <= k < |list| :: Storable(list[k])
  }

  /** The records before this one are written, and this one is refused, by name. */
  ghost predicate DestinationStopsAt(rows0: seq<SavedDestination>, next0: Id, rows: seq<SavedDestination>, next: Id,
                                     list: seq<SharedDestination>, i: nat, e: ImportError) {
    && i < |list| && All(Destinations(), rows0, next0, list[..i]) == Some((rows, next))
    && One(Destinations(), rows, next, list[i]).None? && e == DestinationRefused(list[i].name)
  }

  /** How far the destinations have come, or that one was refused. */
  ghost predicate DestinationPass(refused: Option<ImportError>, rows0: seq<SavedDestination>, next0: Id,
                                  rows: seq<SavedDestination>, next: Id, list: seq<SharedDestination>, i: nat) {
    match refused
    case Some(e) =>
      && Kept(Destinations(), rows0, rows) && !Welcome(rows0, list)
      && exists k :: DestinationStopsAt(rows0, next0, rows, next, list, k, e)
    case None => i <= |list| && Written(Destinations(), rows0, next0, rows, next, list[..i])
  }

  lemma StartDestinations(rows: seq<SavedDestination>, next: Id, list: seq<SharedDestination>)
    ensures DestinationPass(None, rows, next, rows, next, list, 0)
  {
    StartWriting<SavedDestination, SharedDestination, string, string>(Destinations(), rows, next);
    assert list[..0] == [];
  }

  lemma DistinctAreSeparate(list: seq<SharedDestination>)
    requires DistinctDestinations(list)
    ensures Separate(Destinations(), list)
  {
    forall k | 0 <= k < |list| ensures OwnKey(Destinations(), list[k]) {
      assert TidyDestination(list[k]);
    }
  }

  lemma AppliedPrefix(rows: seq<SavedDestination>, list: seq<SharedDestination>, i: nat)
    requires i <= |list| && AllApplied(Destinations(), rows, list)
    ensures AllApplied(Destinations(), rows, list[..i])
  {
    forall k | 0 <= k < i ensures Applied(Destinations(), rows, list[..i][k]) {
      assert Applied(Destinations(), rows, list[k]);
    }
  }

  lemma StoredAreAccepted(rows: seq<SavedDestination>)
    requires AllStored(rows)
    ensures forall k | 0 <= k < |rows| :: Destinations().refuses(rows, rows[k]).None?
  {
    forall k | 0 <= k < |rows| ensures Destinations().refuses(rows, rows[k]).None? {
      assert WellStored(rows[k]);
    }
  }

  /** A tidy record the store could hold is written, whatever the table. */
  lemma StorableIsWritten(rows: seq<SavedDestination>, list: seq<SharedDestination>, i: nat, next: Id)
    requires AllStored(rows) && i < |list| && DistinctDestinations(list) && AllStorable(list)
    ensures One(Destinations(), rows, next, list[i]).Some?
  {
    assert TidyDestination(list[i]) && Storable(list[i]);
    var k := Find(Destinations(), rows, list[i].name);
    if k.Some? {
      assert WellStored(rows[k.value]);
    }
  }

  /** What is refused is neither a record already there nor one a coherent bundle brings. */
  lemma DestinationsStop(rows0: seq<SavedDestination>, next0: Id, rows: seq<SavedDestination>, next: Id,
                         list: seq<SharedDestination>, i: nat)
    requires i < |list| && AllStored(rows0) && AllStored(rows)
    requires Written(Destinations(), rows0, next0, rows, next, list[..i])
    requires One(Destinations(), rows, next, list[i]).None?
    ensures !Welcome(rows0, list)
  {
    assert list[..i] + [list[i]] == list[..i + 1];
    RefusedOnlyIfNew(Destinations(), rows0, next0, rows, next, list[..i], list[i]);
    StoredAreAccepted(rows0);
    if AllApplied(Destinations(), rows0, list) {
      AppliedPrefix(rows0, list, i + 1);
    } else if Welcome(rows0, list) {
      StorableIsWritten(rows, list, i, next);
    }
  }

  lemma DestinationsOn(rows0: seq<SavedDestination>, next0: Id, rows: seq<SavedDestination>, next: Id,
                       list: seq<SharedDestination>, i: nat,
                       after: seq<SavedDestination>)
    requires i < |list| && DestinationPass(None, rows0, next0, rows, next, list, i)
    requires One(Destinations(), rows, next, list[i]) == Some(after)
    ensures DestinationPass(None, rows0, next0, after, NextAfter(Destinations(), rows, next, list[i]), list, i + 1)
  {
    TablesAreLawful();
    assert list[..i] + [list[i]] == list[..i + 1];
    WritesOn(Destinations(), rows0, next0, rows, next, list[..i], list[i]);
  }

  // ── The whole import ──

  /** What the two passes over the SSH connections came to. */
  ghost predicate SshPass(r: Result<map<string, Id>, SshError>, conns0: seq<Connection>, next0: Id,
                          conns: seq<Connection>, list: seq<SharedSsh>) {
    match r
    case Err(e) =>
      && Kept(Ssh(), conns0, conns) && SshStopped(conns0, next0, conns, list, e)
      && !(WellNamed(list) && SshApplied(conns0, list)) && (Coherent(list) ==> Blocked(conns0, list) && conns0 != [])
    case Ok(ids) =>
      && Kept(Ssh(), conns0, conns) && SshRan(conns0, next0, ids, conns, list)
      && (WellNamed(list) ==> SshApplied(conns, list) && AllFiled(conns, ids, list) && SshRest(conns0, conns, list))
      && (WellNamed(list) && SshApplied(conns0, list) ==> conns == conns0)
      && (Coherent(list) ==> !Blocked(conns0, list))
      && (Coherent(list) && conns0 == [] ==> IsMirror(conns, list, next0, |list|))
  }

  lemma FiledIsAll(conns: seq<Connection>, ids: map<string, Id>, list: seq<SharedSsh>)
    requires Filed(conns, ids, list)
    ensures AllFiled(conns, ids, list)
  {
    forall name | name in ids ensures Files(conns, ids, name) {
      assert InBundle(list, name);
      var k :| 0 <= k < |list| && list[k].name == name;
      assert Files(conns, ids, list[k].name);
    }
  }

  lemma SshAppliedStays(conns: seq<Connection>, after: seq<Connection>, list: seq<SharedSsh>)
    requires SshApplied(conns, list) && Grown(conns, after)
    ensures SshApplied(after, list)
  {
    GrownKeeps(conns, after);
    forall k | 0 <= k < |list| ensures Applied(Ssh(), after, list[k]) && Jumped(after, list, list[k]) {
      assert Applied(Ssh(), conns, list[k]) && Jumped(conns, list, list[k]);
      FindIs(Ssh(), after, list[k].name, Find(Ssh(), conns, list[k].name).value);
      if list[k].jump.Some? && Find(Ssh(), conns, list[k].jump.value).Some? {
        FindIs(Ssh(), after, list[k].jump.value, Find(Ssh(), conns, list[k].jump.value).value);
      }
    }
  }

  lemma ResolvedAreSeparate(conns: seq<Connection>, bundle: seq<SharedSsh>, list: seq<SharedProfile>)
    requires DistinctProfiles(list)
    ensures Separate(Profiles(), ResolvedAll(conns, bundle, list))
  {
  }

  lemma {:induction false} OwnedComeFrom(profiles: seq<SavedProfile>, list: seq<SharedPlan>, o: Owned)
    requires o in OwnedAll(profiles, list)
    ensures exists j :: 0 <= j < |list| && HasName(profiles, list[j].profile) && o == OwnedBy(profiles, list[j])
  {
    var init, last := list[..|list| - 1], list[|list| - 1];
    if o in OwnedAll(profiles, init) {
      OwnedComeFrom(profiles, init, o);
      var j :| 0 <= j < |init| && HasName(profiles, init[j].profile) && o == OwnedBy(profiles, init[j]);
      assert list[j] == init[j];
    } else {
      assert o == OwnedBy(profiles, last);
    }
  }

  /** Plans with keys of their own keep them when their owners are looked up: two names never lead to one profile. */
  lemma {:induction false} OwnedAreSeparate(profiles: seq<SavedProfile>, next: Id, list: seq<SharedPlan>)
    requires Unique(Profiles(), profiles, next) && DistinctPlans(list)
    ensures Separate(Plans(), OwnedAll(profiles, list))
  {
    if list != [] {
      var n := |list| - 1;
      var init, last := list[..n], list[n];
      assert forall i | 0 <= i < n :: init[i] == list[i];
      OwnedAreSeparate(profiles, next, init);
      if HasName(profiles, last.profile) {
        var before, x := OwnedAll(profiles, init), OwnedBy(profiles, last);
        forall i | 0 <= i < |before| ensures Plans().wanted(before[i]) != Plans().wanted(x) {
          OwnedComeFrom(profiles, init, before[i]);
          var j :| 0 <= j < n && HasName(profiles, init[j].profile) && before[i] == OwnedBy(profiles, init[j]);
          OwnersDiffer(profiles, next, list[j], last);
        }
        SeparateOn(before, x);
      }
    }
  }

  lemma SeparateOn(before: seq<Owned>, x: Owned)
    requires Separate(Plans(), before) && forall i | 0 <= i < |before| :: Plans().wanted(before[i]) != Plans().wanted(x)
    ensures Separate(Plans(), before + [x])
  {
  }

  lemma OwnersDiffer(profiles: seq<SavedProfile>, next: Id, p: SharedPlan, q: SharedPlan)
    requires Unique(Profiles(), profiles, next) && (p.profile != q.profile || p.name != q.name)
    requires HasName(profiles, p.profile) && HasName(profiles, q.profile)
    ensures Plans().wanted(OwnedBy(profiles, p)) != Plans().wanted(OwnedBy(profiles, q))
  {
    var i, j := Find(Profiles(), profiles, p.profile).value, Find(Profiles(), profiles, q.profile).value;
    RowsDiffer(profiles, next, i, j);
  }

  /** Nothing is removed, moved, renamed or renumbered in any table. */
  ghost predicate NothingLost(before: Tables, after: Tables) {
    && Kept(Ssh(), before.conns, after.conns) && Kept(Profiles(), before.profiles, after.profiles)
    && Kept(Plans(), before.plans, after.plans) && Kept(Destinations(), before.destinations, after.destinations)
  }

  /** Connections the bundle does not name stay as they were, and none gets a jump host no record sets. */
  ghost predicate ConnectionsRest(before: seq<Connection>, after: seq<Connection>, list: seq<SharedSsh>) {
    |before| <= |after| && SshRest(before, after[..|before|], list)
  }

  const NOTHING := Tables([], [], [], [])

  /** The destinations a first import creates are switched off. */
  ghost predicate AllOff(destinations: seq<SavedDestination>) {
    forall d <- destinations :: !d.enabled
  }

  /**
   What an import comes to. A bundle that is in the tables already is not refused; a
   coherent one is refused exactly when something in the tables stands in the way of one of
   its jump hosts, so never by empty ones.
   */
  ghost predicate Outcome(refused: Option<ImportError>, before: Tables, after: Tables, b: Bundle) {
    match refused
    case Some(_) =>
      && NothingLost(before, after)
      && !(TidyBundle(b) && AllImported(before, b))
      && (CoherentBundle(b) ==> Blocked(before.conns, b.ssh) && before != NOTHING)
    case None =>
      && NothingLost(before, after)
      && (TidyBundle(b) ==> AllImported(after, b) && ConnectionsRest(before.conns, after.conns, b.ssh))
      && (TidyBundle(b) && AllImported(before, b) ==> after == before)
      && (CoherentBundle(b) ==> !Blocked(before.conns, b.ssh))
      && (CoherentBundle(b) && before == NOTHING ==> SameBundle(Exported(after), b) && AllOff(after.destinations))
  }

  /** The states between the tables, and how each was reached. */
  ghost predicate Passed(s0: Tables, c0: Id, n0: Id, ids: map<string, Id>, s1: Tables, s2: Tables, n2: Id, b: Bundle) {
    && SshPass(Ok(ids), s0.conns, c0, s1.conns, b.ssh) && s1 == s0.(conns := s1.conns)
    && ProfilePass(None, s1, n0, s2, n2, ids, b.ssh, b.profiles, |b.profiles|)
  }

  lemma ProfilesDone(s0: Tables, c0: Id, n0: Id, ids: map<string, Id>, s1: Tables, s2: Tables, n2: Id, b: Bundle)
    requires Passed(s0, c0, n0, ids, s1, s2, n2, b)
    ensures Kept(Ssh(), s0.conns, s2.conns)
    ensures TidyBundle(b) ==>
      && SshApplied(s2.conns, b.ssh) && AllKnown(s2.conns, b.ssh, b.profiles)
      && Written(Profiles(), s0.profiles, n0, s2.profiles, n2, ResolvedAll(s2.conns, b.ssh, b.profiles))
      && AllApplied(Profiles(), s2.profiles, ResolvedAll(s2.conns, b.ssh, b.profiles))
    ensures TidyBundle(b) && AllKnown(s1.conns, b.ssh, b.profiles) ==> s2.conns == s1.conns
  {
    assert b.profiles[..|b.profiles|] == b.profiles;
    GrownIsKept(s1.conns, s2.conns);
    KeptTwice(Ssh(), s0.conns, s1.conns, s2.conns);
    if TidyBundle(b) {
      SshAppliedStays(s1.conns, s2.conns, b.ssh);
      ResolvedAreSeparate(s2.conns, b.ssh, b.profiles);
    }
  }

  lemma ConnectionsDone(before: seq<Connection>, between: seq<Connection>, after: seq<Connection>, list: seq<SharedSsh>)
    requires SshRest(before, between, list) && Grown(between, after)
    ensures ConnectionsRest(before, after, list)
  {
    GrownKeeps(between, after);
    var first := after[..|before|];
    assert forall k | 0 <= k < |before| :: first[k] == between[k];
  }

  /** Importing what is there already changes neither the connections nor the profiles. */
  lemma ProfilesUnchanged(s0: Tables, c0: Id, n0: Id, ids: map<string, Id>, s1: Tables, s2: Tables, n2: Id, b: Bundle)
    requires Passed(s0, c0, n0, ids, s1, s2, n2, b) && TidyBundle(b) && AllImported(s0, b)
    ensures s2 == s0
  {
    assert s1.conns == s0.conns;
    ProfilesDone(s0, c0, n0, ids, s1, s2, n2, b);
  }

  lemma CarriedIsKnown(conns: seq<Connection>, ids: map<string, Id>, b: Bundle)
    requires CoherentBundle(b) && AllFiled(conns, ids, b.ssh)
    ensures AllKnown(conns, b.ssh, b.profiles)
  {
    forall k | 0 <= k < |b.profiles| ensures TunnelKnown(conns, b.ssh, b.profiles[k]) {
      var p := b.profiles[k];
      assert ProfileCarried(b.ssh, p);
      if p.ssh.Some? {
        NamedTunnel(conns, ids, b.ssh, p);
      }
    }
  }

  /** An empty store mirrors the connections, and makes the profiles one by one. */
  lemma ProfilesMade(s0: Tables, c0: Id, n0: Id, ids: map<string, Id>, s1: Tables, s2: Tables, n2: Id, b: Bundle)
    requires Passed(s0, c0, n0, ids, s1, s2, n2, b) && CoherentBundle(b) && s0 == NOTHING
    ensures IsMirror(s2.conns, b.ssh, c0, |b.ssh|) && AllKnown(s2.conns, b.ssh, b.profiles)
    ensures Made(Profiles(), s2.profiles, n0, ResolvedAll(s2.conns, b.ssh, b.profiles))
  {
    CarriedIsKnown(s1.conns, ids, b);
    ProfilesDone(s0, c0, n0, ids, s1, s2, n2, b);
    ResolvedAreSeparate(s2.conns, b.ssh, b.profiles);
  }

  lemma MadeAreOwners(conns: seq<Connection>, bundle: seq<SharedSsh>, list: seq<SharedProfile>,
                      profiles: seq<SavedProfile>, first: Id, plans: seq<SharedPlan>)
    requires Made(Profiles(), profiles, first, ResolvedAll(conns, bundle, list))
    requires forall k | 0 <= k < |plans| :: HasOwner(list, plans[k].profile)
    ensures OwnersKnown(profiles, plans)
  {
    forall k | 0 <= k < |plans| ensures HasName(profiles, plans[k].profile) {
      assert HasOwner(list, plans[k].profile);
      var m :| 0 <= m < |list| && list[m].name == plans[k].profile;
      assert profiles[m] == Profiles().make(ResolvedAs(conns, bundle, list[m]), first + m);
      assert Profiles().keyOf(profiles[m]) == plans[k].profile;
    }
  }

  lemma MadeAreOff(list: seq<SharedDestination>, destinations: seq<SavedDestination>, first: Id)
    requires Made(Destinations(), destinations, first, list)
    ensures AllOff(destinations)
  {
    forall d <- destinations ensures !d.enabled {
      var k :| 0 <= k < |destinations| && destinations[k] == d;
      assert destinations[k] == Destinations().make(list[k], first + k);
    }
  }

  /** The last two tables. */
  ghost predicate Finished(s2: Tables, n2: Id, s3: Tables, n3: Id, s4: Tables, n4: Id, b: Bundle) {
    && Written(Plans(), s2.plans, n2, s3.plans, n3, OwnedAll(s2.profiles, b.plans)) && s3 == s2.(plans := s3.plans)
    && DestinationPass(None, s3.destinations, n3, s4.destinations, n4, b.destinations, |b.destinations|)
    && s4 == s3.(destinations := s4.destinations)
  }

  lemma FinishedKeeps(s2: Tables, n2: Id, s3: Tables, n3: Id, s4: Tables, n4: Id, b: Bundle)
    requires Finished(s2, n2, s3, n3, s4, n4, b) && Unique(Profiles(), s2.profiles, n2)
    ensures Kept(Plans(), s2.plans, s4.plans) && Kept(Destinations(), s2.destinations, s4.destinations)
    ensures TidyBundle(b) ==>
      AllApplied(Plans(), s4.plans, OwnedAll(s2.profiles, b.plans))
      && AllApplied(Destinations(), s4.destinations, b.destinations)
    ensures
      (AllApplied(Plans(), s2.plans, OwnedAll(s2.profiles, b.plans))
       && AllApplied(Destinations(), s2.destinations, b.destinations)) ==>
      s4 == s2
  {
    assert b.destinations[..|b.destinations|] == b.destinations;
    if TidyBundle(b) {
      OwnedAreSeparate(s2.profiles, n2, b.plans);
      DistinctAreSeparate(b.destinations);
    }
  }

  lemma FinishedMirrors(s2: Tables, n2: Id, s3: Tables, n3: Id, s4: Tables, n4: Id, b: Bundle, c0: Id, n0: Id)
    requires Finished(s2, n2, s3, n3, s4, n4, b) && CoherentBundle(b) && s2.plans == [] && s2.destinations == []
    requires Sound(s2.conns) && Unique(Profiles(), s2.profiles, n2)
    requires IsMirror(s2.conns, b.ssh, c0, |b.ssh|) && AllKnown(s2.conns, b.ssh, b.profiles)
    requires Made(Profiles(), s2.profiles, n0, ResolvedAll(s2.conns, b.ssh, b.profiles))
    ensures SameBundle(Exported(s4), b) && AllOff(s4.destinations)
  {
    assert b.destinations[..|b.destinations|] == b.destinations;
    OwnedAreSeparate(s2.profiles, n2, b.plans);
    DistinctAreSeparate(b.destinations);
    MirrorExports(s2.conns, b.ssh, c0);
    ProfilesExport(s2.conns, b.ssh, b.profiles, s2.profiles, n0);
    DestinationsExport(b.destinations, s4.destinations, n3);
    MadeAreOff(b.destinations, s4.destinations, n3);
    MadeAreOwners(s2.conns, b.ssh, b.profiles, s2.profiles, n0, b.plans);
    forall x ensures x in ExportPlans(s2.profiles, s4.plans) <==> x in b.plans {
      PlansExport(b.plans, s2.profiles, s4.plans, n2, n2, x);
    }
  }

  /** Every table was written. */
  lemma Succeeds(s0: Tables, c0: Id, n0: Id, ids: map<string, Id>, s1: Tables, s2: Tables, n2: Id, s3: Tables,
                 n3: Id, s4: Tables, n4: Id,
                 refused: Option<ImportError>, b: Bundle)
    requires Passed(s0, c0, n0, ids, s1, s2, n2, b) && Finished(s2, n2, s3, n3, s4, n4, b)
    requires Sound(s2.conns) && Unique(Profiles(), s2.profiles, n2) && refused.None?
    ensures Outcome(refused, s0, s4, b)
  {
    ProfilesDone(s0, c0, n0, ids, s1, s2, n2, b);
    FinishedKeeps(s2, n2, s3, n3, s4, n4, b);
    if TidyBundle(b) {
      ConnectionsDone(s0.conns, s1.conns, s2.conns, b.ssh);
    }
    if TidyBundle(b) && AllImported(s0, b) {
      ProfilesUnchanged(s0, c0, n0, ids, s1, s2, n2, b);
    }
    if CoherentBundle(b) && s0 == NOTHING {
      ProfilesMade(s0, c0, n0, ids, s1, s2, n2, b);
      FinishedMirrors(s2, n2, s3, n3, s4, n4, b, c0, n0);
    }
  }

  lemma SshStops(r: Result<map<string, Id>, SshError>, s0: Tables, c0: Id, s1: Tables, refused: Option<ImportError>,
                 b: Bundle)
    requires SshPass(r, s0.conns, c0, s1.conns, b.ssh) && r.Err? && s1 == s0.(conns := s1.conns) && refused.Some?
    ensures Outcome(refused, s0, s1, b)
  {
  }

  lemma ProfilesStopImport(s0: Tables, c0: Id, n0: Id, ids: map<string, Id>, s1: Tables, s2: Tables, n2: Id,
                           error: Option<SshError>,
                           refused: Option<ImportError>, b: Bundle)
    requires SshPass(Ok(ids), s0.conns, c0, s1.conns, b.ssh) && s1 == s0.(conns := s1.conns)
    requires ProfilePass(error, s1, n0, s2, n2, ids, b.ssh, b.profiles, |b.profiles|) && error.Some? && refused.Some?
    ensures Outcome(refused, s0, s2, b)
  {
    GrownIsKept(s1.conns, s2.conns);
    KeptTwice(Ssh(), s0.conns, s1.conns, s2.conns);
    if CoherentBundle(b) {
      CarriedIsKnown(s1.conns, ids, b);
    }
  }

  lemma DestinationsStopImport(s0: Tables, c0: Id, n0: Id, ids: map<string, Id>, s1: Tables, s2: Tables, n2: Id,
                               s3: Tables, n3: Id, s4: Tables, n4: Id,
                               refused: Option<ImportError>, b: Bundle)
    requires Passed(s0, c0, n0, ids, s1, s2, n2, b)
    requires Written(Plans(), s2.plans, n2, s3.plans, n3, OwnedAll(s2.profiles, b.plans))
    requires s3 == s2.(plans := s3.plans)
    requires DestinationPass(refused, s3.destinations, n3, s4.destinations, n4, b.destinations, |b.destinations|)
    requires refused.Some?
    requires s4 == s3.(destinations := s4.destinations)
    ensures Outcome(refused, s0, s4, b)
  {
    ProfilesDone(s0, c0, n0, ids, s1, s2, n2, b);
  }

  // ── Exactly what was written ──

  /** What the connections came to, and then the profiles. */
  datatype Steps = Steps(ids: map<string, Id>, ssh: Book, staged: Stage)

  /** The connections and the profiles of a bundle, in that order. */
  ghost predicate FirstTables(s0: Tables, from: Stage, steps: Steps, refused: Option<SshError>, b: Bundle) {
    && SshRan(s0.conns, from.book.next, steps.ids, steps.ssh.conns, b.ssh)
    && ProfilesRun(Stage(steps.ssh, s0.profiles, from.next), steps.ids, b.profiles) == Staged(steps.staged, refused)
  }

  /** Its plans and its destinations, up to the one that is refused if one is. */
  ghost predicate LastTables(s0: Tables, staged: Stage, s: Tables, next: Id, refused: Option<ImportError>, b: Bundle) {
    match All(Plans(), s0.plans, staged.next, OwnedAll(staged.profiles, b.plans))
    case None => false
    case Some((plans, n)) =>
      && s.plans == plans && s.conns == staged.book.conns && s.profiles == staged.profiles
      && match refused
         case None => All(Destinations(), s0.destinations, n, b.destinations) == Some((s.destinations, next))
         case Some(e) =>
           exists i :: DestinationStopsAt(s0.destinations, n, s.destinations, next, b.destinations, i, e)
  }

  /** The tables after an import, step by step: whatever the bundle, nothing else is written. */
  ghost predicate ImportRan(refused: Option<ImportError>, s0: Tables, from: Stage, s: Tables, to: Stage, b: Bundle) {
    match refused
    case None => exists steps: Steps :: WholeRan(refused, s0, from, steps, s, to, b)
    case Some(DestinationRefused(_)) => exists steps: Steps :: WholeRan(refused, s0, from, steps, s, to, b)
    case Some(SshRefused(e)) =>
      && s.plans == s0.plans && s.destinations == s0.destinations
      && ((s.profiles == s0.profiles && to.next == from.next
           && SshStopped(s0.conns, from.book.next, s.conns, b.ssh, e))
          || exists steps: Steps :: steps.staged == to && FirstTables(s0, from, steps, Some(e), b))
  }

  ghost predicate WholeRan(refused: Option<ImportError>, s0: Tables, from: Stage, steps: Steps, s: Tables, to: Stage,
                           b: Bundle) {
    && FirstTables(s0, from, steps, None, b) && LastTables(s0, steps.staged, s, to.next, refused, b)
    && to.book == steps.staged.book
  }

  lemma LastTablesRan(s0: Tables, from: Stage, steps: Steps, plans: seq<SavedPlan>, n: Id, s: Tables, to: Stage,
                      refused: Option<ImportError>, b: Bundle)
    requires FirstTables(s0, from, steps, None, b) && to.book == steps.staged.book
    requires All(Plans(), s0.plans, steps.staged.next, OwnedAll(steps.staged.profiles, b.plans)) == Some((plans, n))
    requires DestinationPass(refused, s0.destinations, n, s.destinations, to.next, b.destinations, |b.destinations|)
    requires s.plans == plans && s.conns == steps.staged.book.conns && s.profiles == steps.staged.profiles
    ensures ImportRan(refused, s0, from, s, to, b)
  {
    assert b.destinations[..|b.destinations|] == b.destinations;
    assert WholeRan(refused, s0, from, steps, s, to, b);
  }

  lemma ProfilesRanTo(s0: Tables, from: Stage, steps: Steps, s: Tables, to: Stage, e: SshError, b: Bundle)
    requires FirstTables(s0, from, steps, Some(e), b) && steps.staged == to
    requires s.plans == s0.plans && s.destinations == s0.destinations
    ensures ImportRan(Some(SshRefused(e)), s0, from, s, to, b)
  {
  }

  // ── The store ──

  class Config {
    const ssh: Store
    var profiles: seq<SavedProfile>
    var plans: seq<SavedPlan>
    var destinations: seq<SavedDestination>
    var nextId: Id

    ghost function Now(): Tables
      reads this, ssh
    {
      Tables(ssh.conns, profiles, plans, destinations)
    }

    ghost function At(): Stage
      reads this, ssh
    {
      Stage(Book(ssh.conns, ssh.nextId), profiles, nextId)
    }

    ghost predicate Valid()
      reads this, ssh
    {
      (Now(), nextId, ssh.nextId) in StoredTables()
    }

    constructor ()
      ensures Valid() && fresh(ssh) && Now() == Tables([], [], [], [])
    {
      ssh := new Store();
      profiles, plans, destinations, nextId := [], [], [], 0;
    }

    /** Which saved connection a shared profile is to use, adopting an inline tunnel if it carries one. */
    method ResolveTunnel(ids: map<string, Id>, p: SharedProfile, ghost bundle: seq<SharedSsh>)
      returns (r: Result<Option<Id>, SshError>)
      requires ssh.Valid()
      modifies ssh`conns, ssh`nextId
      ensures ssh.Valid() && TunnelFound(r, old(ssh.conns), ssh.conns, ids, bundle, p)
      ensures Tunnel(Book(ssh.conns, ssh.nextId), r) == TunnelRun(Book(old(ssh.conns), old(ssh.nextId)), ids, p)
    {
      if p.ssh.Some? {
        r := Ok(if p.ssh.value in ids then Some(ids[p.ssh.value]) else None);
        if AllFiled(ssh.conns, ids, bundle) {
          NamedTunnel(ssh.conns, ids, bundle, p);
        }
        return;
      }
      if p.inline.Some? {
        ghost var before := ssh.conns;
        var route := ssh.AdoptRoute(p.inline.value.endpoint, p.inline.value.jump);
        if route.Err? {
          return Err(route.error);
        }
        return Ok(Some(route.value.0));
      }
      r := Ok(None);
    }

    /** The update of the profile of that name, or the new row. */
    method WriteProfile(x: Resolved)
      requires Valid() && (x.ssh.Some? ==> HasId(ssh.conns, x.ssh.value))
      modifies `profiles, `nextId
      ensures Valid()
      ensures One(Profiles(), old(profiles), old(nextId), x) == Some(profiles)
      ensures nextId == NextAfter(Profiles(), old(profiles), old(nextId), x)
    {
      ProfileStored(Now(), nextId, x);
      var existing := Find(Profiles(), profiles, x.name);
      if existing.Some? {
        var current := profiles[existing.value];
        profiles := profiles[existing.value := current.(settings := x.settings, ssh := x.ssh)];
      } else {
        profiles := profiles + [SavedProfile(nextId, x.name, x.settings, x.ssh)];
        nextId := nextId + 1;
      }
    }

    /** One profile: its tunnel, then the update or the new row. */
    method ImportProfile(ids: map<string, Id>, p: SharedProfile, ghost bundle: seq<SharedSsh>)
      returns (r: Result<Option<Id>, SshError>)
      requires Valid()
      modifies `profiles, `nextId, ssh`conns, ssh`nextId
      ensures Valid() && TunnelFound(r, old(ssh.conns), ssh.conns, ids, bundle, p)
      ensures r.Err? ==> profiles == old(profiles) && nextId == old(nextId)
      ensures Staged(At(), if r.Err? then Some(r.error) else None) == ProfileRun(old(At()), ids, p)
      ensures r.Ok? ==>
        One(Profiles(), old(profiles), old(nextId), Resolved(p.name, p.settings, r.value)) == Some(profiles)
      ensures r.Ok? ==>
        nextId == NextAfter(Profiles(), old(profiles), old(nextId), Resolved(p.name, p.settings, r.value))
    {
      ghost var before := Now();
      r := ResolveTunnel(ids, p, bundle);
      FoundIsKept(r, before.conns, ssh.conns, ids, bundle, p);
      SshStored(before, nextId, ssh.conns);
      if r.Err? {
        return;
      }
      if r.value.Some? {
        HasIdExactly(ssh.conns, r.value.value);
        if IndexOf(ssh.conns, r.value.value).None? {
          ghost var id := r.value.value;
          r := Err(NotFound(r.value.value));
          MissingIsUnexpected(before.conns, ssh.conns, ids, bundle, p, id, r);
          return;
        }
      }
      WriteProfile(Resolved(p.name, p.settings, r.value));
    }

    /** One turn of the loop over the profiles. */
    method ProfileTurn(ids: map<string, Id>, list: seq<SharedProfile>, i: nat, ghost bundle: seq<SharedSsh>,
                       ghost s0: Tables, ghost next0: Id, ghost from: Stage)
      returns (refused: Option<SshError>)
      requires Valid() && i < |list|
      requires (Now(), nextId) in ProfileStates(None, s0, next0, ids, bundle, list, i)
      requires Staged(At(), None) == ProfilesRun(from, ids, list[..i])
      modifies `profiles, `nextId, ssh`conns, ssh`nextId
      ensures Valid()
      ensures (Now(), nextId) in ProfileStates(refused, s0, next0, ids, bundle, list, i + 1)
      ensures Staged(At(), refused) == ProfilesRun(from, ids, list[..i + 1])
    {
      ProfilesRunOn(from, ids, list, i);
      ghost var s, next := Now(), nextId;
      var r := ImportProfile(ids, list[i], bundle);
      if r.Err? {
        ProfilesStop(s0, next0, s, next, ids, bundle, list, i, r.error, ssh.conns);
        return Some(r.error);
      }
      ProfilesOn(s0, next0, s, next, ids, bundle, list, i, r.value, ssh.conns, profiles);
      refused := None;
    }

    /** The profiles of a bundle. */
    method ImportProfiles(ids: map<string, Id>, list: seq<SharedProfile>, ghost bundle: seq<SharedSsh>)
      returns (refused: Option<SshError>)
      requires Valid()
      modifies `profiles, `nextId, ssh`conns, ssh`nextId
      ensures Valid()
      ensures (Now(), nextId) in ProfileStates(refused, old(Now()), old(nextId), ids, bundle, list, |list|)
      ensures Staged(At(), refused) == ProfilesRun(old(At()), ids, list)
    {
      ghost var s0, next0, from := Now(), nextId, At();
      ghost var s, next := s0, next0;
      refused := None;
      StartProfiles(s0, next0, ids, bundle, list);
      var i := 0;
      while i < |list| && refused.None?
        invariant Valid() && s == Now() && next == nextId && i <= |list|
        invariant (s, next) in ProfileStates(refused, s0, next0, ids, bundle, list, i)
        invariant Staged(At(), refused) == ProfilesRun(from, ids, list[..i])
      {
        refused := ProfileTurn(ids, list, i, bundle, s0, next0, from);
        i := i + 1;
        s, next := Now(), nextId;
      }
      ProfilesEnded(refused, s0, next0, s, next, ids, bundle, list, i);
      if refused.Some? {
        RefusedStays(from, ids, list, i);
      } else {
        assert list[..i] == list;
      }
    }

    /** One plan whose profile is known. */
    method ImportPlan(owner: Id, p: SharedPlan)
      requires Valid() && HasProfile(profiles, owner)
      modifies `plans, `nextId
      ensures Valid()
      ensures One(Plans(), old(plans), old(nextId), Owned(owner, p)) == Some(plans)
      ensures nextId == NextAfter(Plans(), old(plans), old(nextId), Owned(owner, p))
    {
      PlanStored(Now(), nextId, Owned(owner, p));
      var existing := Find(Plans(), plans, (owner, p.name));
      if existing.Some? {
        var current := plans[existing.value];
        plans := plans[existing.value := current.(selections := p.selections, masking := p.masking)];
      } else {
        plans := plans + [SavedPlan(nextId, owner, p.name, p.database, p.selections, p.masking)];
        nextId := nextId + 1;
      }
    }

    /** The plans of a bundle; the result names those whose profile is not on this machine. */
    method ImportPlans(list: seq<SharedPlan>) returns (orphans: seq<string>)
      requires Valid()
      modifies `plans, `nextId
      ensures Valid()
      ensures Written(Plans(), old(plans), old(nextId), plans, nextId, OwnedAll(profiles, list))
      ensures orphans == OrphanPlans(profiles, list)
    {
      orphans := [];
      StartWriting<SavedPlan, Owned, (Id, string), string>(Plans(), plans, nextId);
      for i := 0 to |list|
        invariant Valid()
        invariant Written(Plans(), old(plans), old(nextId), plans, nextId, OwnedAll(profiles, list[..i]))
        invariant orphans == OrphanPlans(profiles, list[..i])
      {
        assert list[..i + 1][..i] == list[..i];
        var owner := Find(Profiles(), profiles, list[i].profile);
        if owner.None? {
          orphans := orphans + [list[i].name];
          PlansSkip(profiles, list, i);
          continue;
        }
        ghost var rows, next := plans, nextId;
        ImportPlan(profiles[owner.value].id, list[i]);
        PlansOn(profiles, old(plans), old(nextId), rows, next, list, i, plans);
      }
      assert list[..|list|] == list;
    }

    /** One destination. It arrives switched off. */
    method ImportDestination(x: SharedDestination) returns (refused: Option<ImportError>)
      requires Valid()
      modifies `destinations, `nextId
      ensures Valid()
      ensures match One(Destinations(), old(destinations), old(nextId), x)
        case None =>
          refused == Some(DestinationRefused(x.name)) && destinations == old(destinations) && nextId == old(nextId)
        case Some(after) =>
          && refused.None? && destinations == after
          && nextId == NextAfter(Destinations(), old(destinations), old(nextId), x)
    {
      DestinationStored(Now(), nextId, x);
      var existing := Find(Destinations(), destinations, x.name);
      if existing.Some? {
        var d := destinations[existing.value].(kind := x.kind, retention := x.retention);
        if !Acceptable(d) {
          return Some(DestinationRefused(x.name));
        }
        destinations := destinations[existing.value := d];
      } else {
        var d := SavedDestination(nextId, Trim(x.name), x.kind, false, x.retention);
        if !Acceptable(d) || Find(Destinations(), destinations, d.name).Some? {
          return Some(DestinationRefused(x.name));
        }
        destinations := destinations + [d];
        nextId := nextId + 1;
      }
      refused := None;
    }

    method ImportDestinations(list: seq<SharedDestination>) returns (refused: Option<ImportError>)
      requires Valid()
      modifies `destinations, `nextId
      ensures Valid()
      ensures DestinationPass(refused, old(destinations), old(nextId), destinations, nextId, list, |list|)
    {
      ghost var rows0, next0 := destinations, nextId;
      refused := None;
      StartDestinations(rows0, next0, list);
      for i := 0 to |list|
        invariant Valid() && refused.None?
        invariant DestinationPass(refused, rows0, next0, destinations, nextId, list, i)
      {
        ghost var rows, next := destinations, nextId;
        var error := ImportDestination(list[i]);
        if error.Some? {
          DestinationsStop(rows0, next0, rows, next, list, i);
          assert DestinationStopsAt(rows0, next0, rows, next, list, i, error.value);
          return error;
        }
        DestinationsOn(rows0, next0, rows, next, list, i, destinations);
      }
    }

    /** The SSH connections of a bundle. */
    method ImportConnections(list: seq<SharedSsh>) returns (r: Result<map<string, Id>, SshError>)
      requires Valid()
      modifies ssh`conns, ssh`nextId
      ensures Valid() && SshPass(r, old(ssh.conns), old(ssh.nextId), ssh.conns, list)
    {
      ghost var s0 := Now();
      r := ImportSsh(ssh, list);
      if r.Ok? && WellNamed(list) {
        FiledIsAll(ssh.conns, r.value, list);
      }
      SshStored(s0, nextId, ssh.conns);
    }

    /**
     `import`. Nothing is ever removed or renumbered; what succeeds is all there afterwards;
     importing it again succeeds and changes nothing; and a store that was empty exports a
     coherent bundle again, record for record.
     */
    method Import(b: Bundle) returns (refused: Option<ImportError>)
      requires Valid()
      modifies `profiles, `plans, `destinations, `nextId, ssh`conns, ssh`nextId
      ensures Valid() && Outcome(refused, old(Now()), Now(), b)
      ensures ImportRan(refused, old(Now()), old(At()), Now(), At(), b)
    {
      ghost var s0, c0, n0, from := Now(), ssh.nextId, nextId, At();
      var ids := ImportConnections(b.ssh);
      ghost var s1, book := Now(), Book(ssh.conns, ssh.nextId);
      if ids.Err? {
        refused := Some(SshRefused(ids.error));
        SshStops(ids, s0, c0, s1, refused, b);
        return;
      }
      var error := ImportProfiles(ids.value, b.profiles, b.ssh);
      ghost var s2, n2 := Now(), nextId;
      ghost var steps := Steps(ids.value, book, At());
      assert FirstTables(s0, from, steps, error, b);
      if error.Some? {
        refused := Some(SshRefused(error.value));
        ProfilesRanTo(s0, from, steps, s2, At(), error.value, b);
        ProfilesStopImport(s0, c0, n0, ids.value, s1, s2, n2, error, refused, b);
        return;
      }
      var orphans := ImportPlans(b.plans);
      ghost var s3, n3 := Now(), nextId;
      refused := ImportDestinations(b.destinations);
      LastTablesRan(s0, from, steps, s3.plans, n3, Now(), At(), refused, b);
      if refused.Some? {
        DestinationsStopImport(s0, c0, n0, ids.value, s1, s2, n2, s3, n3, Now(), nextId, refused, b);
      } else {
        Succeeds(s0, c0, n0, ids.value, s1, s2, n2, s3, n3, Now(), nextId, refused, b);
      }
    }

    /** The plans, profile by profile. */
    method CollectPlans() returns (list: seq<SharedPlan>)
      ensures list == ExportPlans(profiles, plans)
    {
      list := [];
      for i := 0 to |profiles|
        invariant list == ExportPlans(profiles[..i], plans)
      {
        var own: seq<SharedPlan> := [];
        for k := 0 to |plans|
          invariant own == PlansOf(profiles[i], plans[..k])
        {
          assert plans[..k + 1][..k] == plans[..k];
          if plans[k].profile == profiles[i].id {
            own := own + [SharePlan(profiles[i].name, plans[k])];
          }
        }
        assert plans[..|plans|] == plans && profiles[..i + 1][..i] == profiles[..i];
        list := list + own;
      }
      assert profiles[..|profiles|] == profiles;
    }

    /** `export`. */
    method Export() returns (b: Bundle)
      requires Valid()
      ensures b == Exported(Now()) && CoherentBundle(b)
    {
      var shared := CollectPlans();
      b := Bundle(ExportSsh(ssh.conns), ExportProfiles(ssh.conns, profiles), shared, ExportDestinations(destinations));
      ExportIsCoherent(Now(), nextId);
    }
  }

  /** From one machine to a new one: the new one then exports the same bundle. */
  method ShareWith(here: Config) returns (there: Config, refused: Option<ImportError>)
    requires here.Valid()
    ensures refused.None? && there.Valid()
    ensures SameBundle(Exported(there.Now()), Exported(old(here.Now()))) && AllOff(there.Now().destinations)
  {
    var b := here.Export();
    there, refused := Receive(b);
  }

  /** A coherent bundle on a new machine. */
  method Receive(b: Bundle) returns (there: Config, refused: Option<ImportError>)
    requires CoherentBundle(b)
    ensures refused.None? && there.Valid()
    ensures SameBundle(Exported(there.Now()), b) && AllOff(there.Now().destinations)
  {
    there := new Config();
    refused := there.Import(b);
    NeverRefused(refused, there.Now(), b);
  }

  lemma NeverRefused(refused: Option<ImportError>, after: Tables, b: Bundle)
    requires Outcome(refused, NOTHING, after, b) && CoherentBundle(b)
    ensures refused.None? && SameBundle(Exported(after), b) && AllOff(after.destinations)
  {
  }

  lemma FoundIsKept(r: Result<Option<Id>, SshError>, conns: seq<Connection>, after: seq<Connection>,
                    ids: map<string, Id>, bundle: seq<SharedSsh>, p: SharedProfile)
    requires TunnelFound(r, conns, after, ids, bundle, p)
    ensures Kept(Ssh(), conns, after)
  {
    GrownIsKept(conns, after);
  }

  // ── Where an import falls short ──

  /**
   A plan arrives as it was sent exactly when it is new here or was for the same database: an
   update does not change that.
   */
  lemma PlanArrivesExactly(plans: seq<SavedPlan>, next: Id, x: Owned, after: seq<SavedPlan>)
    requires One(Plans(), plans, next, x) == Some(after)
    ensures var k := Find(Plans(), plans, Plans().wanted(x));
      SharePlan(x.plan.profile, after[if k.Some? then k.value else |plans|]) == x.plan
      <==> k.None? || plans[k.value].database == x.plan.database
  {
    var k := Find(Plans(), plans, Plans().wanted(x));
    if k.Some? {
      assert after[k.value] == Plans().patch(plans[k.value], x);
    } else {
      assert after[|plans|] == Plans().make(x, next);
    }
  }

  /** A destination that was just imported can be imported again exactly when its name has no white space around it. */
  lemma DestinationAgainExactly(rows: seq<SavedDestination>, next: Id, x: SharedDestination,
                                after: seq<SavedDestination>, later: Id)
    requires AllStored(rows) && One(Destinations(), rows, next, x) == Some(after)
    ensures One(Destinations(), after, later, x).Some? <==> TidyDestination(x)
    ensures TidyDestination(x) ==> One(Destinations(), after, later, x) == Some(after)
  {
    TablesAreLawful();
    TrimIsIdempotent(x.name);
    if TidyDestination(x) {
      OneApplies(Destinations(), rows, next, x);
      OneAgain(Destinations(), after, later, x);
    } else {
      UntrimmedIsNotFound(rows, x.name);
      assert after == rows + [Destinations().make(x, next)];
      forall k | 0 <= k < |after| ensures WellStored(after[k]) {
        assert k < |rows| ==> WellStored(rows[k]);
      }
      UntrimmedIsNotFound(after, x.name);
      assert Destinations().keyOf(after[|rows|]) == Trim(x.name);
    }
  }

  lemma UntrimmedIsNotFound(rows: seq<SavedDestination>, name: string)
    requires AllStored(rows) && Trim(name) != name
    ensures Find(Destinations(), rows, name).None?
  {
    forall k | 0 <= k < |rows| ensures Destinations().keyOf(rows[k]) != name {
      assert WellStored(rows[k]);
    }
  }

  /** A plan of the same name for another database: after the import, the old database is still the one named. */
  lemma OldDatabaseStays(p: SharedPlan, owner: Id, id: Id, other: string)
    requires other != p.database
    ensures var plans := [SavedPlan(id, owner, p.name, other, [], [])];
      One(Plans(), plans, id + 1, Owned(owner, p)) ==
        Some([SavedPlan(id, owner, p.name, other, p.selections, p.masking)])
  {
    var plans := [SavedPlan(id, owner, p.name, other, [], [])];
    var x := Owned(owner, p);
    FindIs(Plans(), plans, (owner, p.name), 0);
    assert One(Plans(), plans, id + 1, x) == Some(plans[0 := Plans().patch(plans[0], x)]);
    assert plans[0 := Plans().patch(plans[0], x)] == [SavedPlan(id, owner, p.name, other, p.selections, p.masking)];
  }

  /** A trailing space is enough: the name is stored without it, and taken the next time. */
  lemma TrailingSpaceOnlyOnce(kind: Kind, retention: Pipeline.RetentionPolicy, id: Id)
    requires kind.valid
    ensures var x := SharedDestination("s3 ", kind, retention);
      var after := [SavedDestination(id, "s3", kind, false, retention)];
      One(Destinations(), [], id, x) == Some(after) && One(Destinations(), after, id + 1, x).None?
  {
    var x := SharedDestination("s3 ", kind, retention);
    var after := [SavedDestination(id, "s3", kind, false, retention)];
    TrailingSpaceGoes();
    assert Destinations().make(x, id) == after[0];
    assert [] + [after[0]] == after;
    assert One(Destinations(), [], id, x) == Some(after);
    forall k | 0 <= k < |after| ensures WellStored(after[k]) {
    }
    DestinationAgainExactly([], id, x, after, id + 1);
  }

  lemma TrailingSpaceGoes()
    ensures Trim("s3 ") == "s3"
  {
    SpaceAtEnd("s3");
    assert "s3" + [' '] == "s3 ";
  }

  lemma SpaceAtEnd(s: string)
    requires s != [] && Trimmed(s)
    ensures Trim(s + [' ']) == s && Trim(s) == s
  {
    var t := s + [' '];
    assert t[0] == s[0] && t[..|t| - 1] == s;
    assert TrimStart(t) == t && TrimEnd(s) == s;
  }

  /** A connection that was just imported can be imported again exactly when its name has no white space around it. */
  lemma ConnectionAgainExactly(conns: seq<Connection>, next: Id, x: SharedSsh, after: seq<Connection>, later: Id)
    requires AllUsable(conns) && One(Ssh(), conns, next, x) == Some(after) && UsableConnections(after)
    ensures One(Ssh(), after, later, x).Some? <==> Tidy(x)
    ensures Tidy(x) ==> One(Ssh(), after, later, x) == Some(after)
  {
    if Tidy(x) {
      SshIsLawful();
      OneApplies(Ssh(), conns, next, x);
      AppliedIsAccepted(after, later, x);
    } else {
      ConnectionOnlyOnce(conns, next, x, after, later);
    }
  }

  lemma ConnectionOnlyOnce(conns: seq<Connection>, next: Id, x: SharedSsh, after: seq<Connection>, later: Id)
    requires AllUsable(conns) && !Tidy(x) && One(Ssh(), conns, next, x) == Some(after)
    ensures One(Ssh(), after, later, x).None?
  {
    UntrimmedIsNotNamed(conns, x.name);
    assert after == conns + [Ssh().make(x, next)];
    TrimIsIdempotent(x.name);
    forall k | 0 <= k < |after| ensures Ssh().keyOf(after[k]) != x.name {
      assert k < |conns| ==> CanConnect(conns[k]);
    }
    assert Ssh().keyOf(after[|conns|]) == Trim(x.name);
  }

  lemma UntrimmedIsNotNamed(conns: seq<Connection>, name: string)
    requires AllUsable(conns) && Trim(name) != name
    ensures Find(Ssh(), conns, name).None?
  {
    forall k | 0 <= k < |conns| ensures Ssh().keyOf(conns[k]) != name {
      assert CanConnect(conns[k]);
    }
  }
}
