/**
 The SSH connections of a bundle, and the first pass of their import: every record without
 its jump host.
 */
module ShareSsh {
  import opened Common
  import opened Text
  import opened SshStore
  import opened SshAdoption
  import opened Upserts

  /** A connection as a bundle carries it: the jump host is a name. */
  datatype SharedSsh = SharedSsh(name: string, endpoint: Endpoint, jump: Option<string>)

  function Refuses(rows: seq<Connection>, c: Connection): Option<SshError> {
    if c.name == [] then Some(NoName)
    else if Unusable(c.endpoint).Some? then Unusable(c.endpoint)
    else JumpProblem(rows, c)
  }

  function Ssh(): Table<Connection, SharedSsh, string, SshError> {
    Table(
      (c: Connection) => c.name,
      (c: Connection) => c.id,
      (x: SharedSsh) => x.name,
      (x: SharedSsh, id: Id) => Connection(id, Trim(x.name), x.endpoint, None),
      (c: Connection, x: SharedSsh) => c.(endpoint := x.endpoint),
      Refuses)
  }

  /** Names are unique and free of surrounding white space, as the store writes them. */
  predicate WellNamed(incoming: seq<SharedSsh>) {
    && (forall i, j | 0 <= i < j < |incoming| :: incoming[i].name != incoming[j].name)
    && forall i {:trigger Tidy(incoming[i])} | 0 <= i < |incoming| :: Tidy(incoming[i])
  }

  predicate Tidy(x: SharedSsh) {
    Trim(x.name) == x.name
  }

  /** The store accepts the record's name and endpoint. */
  predicate Writable(x: SharedSsh) {
    x.name != [] && Unusable(x.endpoint).None?
  }

  predicate InBundle(incoming: seq<SharedSsh>, name: string) {
    exists i :: 0 <= i < |incoming| && incoming[i].name == name
  }

  /** The jump host of a record is there by its own name, when the bundle carries it. */
  predicate Jumped(conns: seq<Connection>, incoming: seq<SharedSsh>, x: SharedSsh) {
    x.jump.Some? && InBundle(incoming, x.jump.value) ==>
      && Find(Ssh(), conns, x.name).Some? && Find(Ssh(), conns, x.jump.value).Some?
      && conns[Find(Ssh(), conns, x.name).value].jump == Some(conns[Find(Ssh(), conns, x.jump.value).value].id)
  }

  predicate AllJumped(conns: seq<Connection>, incoming: seq<SharedSsh>) {
    forall k | 0 <= k < |incoming| :: Jumped(conns, incoming, incoming[k])
  }

  ghost predicate SshApplied(conns: seq<Connection>, incoming: seq<SharedSsh>) {
    RecordsApplied(conns, incoming) && AllJumped(conns, incoming)
  }

  /** Every jump host is a direct connection of the same bundle, wherever in it that stands. */
  predicate Coherent(incoming: seq<SharedSsh>) {
    && WellNamed(incoming)
    && (forall i {:trigger Writable(incoming[i])} | 0 <= i < |incoming| :: Writable(incoming[i]))
    && (forall i | 0 <= i < |incoming| && incoming[i].jump.Some? :: DirectIn(incoming, incoming[i].jump.value))
  }

  predicate DirectIn(incoming: seq<SharedSsh>, name: string) {
    exists j :: 0 <= j < |incoming| && incoming[j].name == name && incoming[j].jump.None?
  }

  /** Position of a name in the bundle. */
  function PlaceOf(incoming: seq<SharedSsh>, name: string): (r: Option<nat>)
    ensures r.Some? ==> r.value < |incoming| && incoming[r.value].name == name
    ensures r.None? ==> !InBundle(incoming, name)
  {
    if incoming == [] then None
    else if incoming[0].name == name then Some(0)
    else
      var r := PlaceOf(incoming[1..], name);
      assert r.None? ==> forall i | 0 <= i < |incoming[1..]| :: incoming[i + 1] == incoming[1..][i];
      match r case None => None case Some(k) => Some(k + 1)
  }

  /** The table an empty store ends up with: record for record, the jump hosts of the first `n` attached. */
  predicate IsMirror(conns: seq<Connection>, incoming: seq<SharedSsh>, first: Id, n: nat) {
    && |conns| == |incoming|
    && forall k {:trigger Mirrors(conns[k], incoming, first, n, k)} | 0 <= k < |incoming| ::
      Mirrors(conns[k], incoming, first, n, k)
  }

  predicate Mirrors(c: Connection, incoming: seq<SharedSsh>, first: Id, n: nat, k: nat)
    requires k < |incoming|
  {
    c == Connection(first + k, incoming[k].name, incoming[k].endpoint, if k < n then JumpId(incoming, first, k)
      else None)
  }

  function JumpId(incoming: seq<SharedSsh>, first: Id, k: nat): Option<Id>
    requires k < |incoming|
  {
    if incoming[k].jump.None? then None
    else match PlaceOf(incoming, incoming[k].jump.value)
      case None => None
      case Some(j) => Some(first + j)
  }

  // ── The first pass ──

  lemma SshIsLawful()
    ensures Lawful(Ssh())
  {
  }

  lemma {:induction false} FindIsNamed(conns: seq<Connection>, name: string)
    ensures Find(Ssh(), conns, name) == Named(conns, name)
  {
    if conns != [] {
      FindIsNamed(conns[1..], name);
    }
  }

  lemma IndexIs(conns: seq<Connection>, k: nat)
    requires Sound(conns) && k < |conns|
    ensures IndexOf(conns, conns[k].id) == Some(k)
  {
    assert conns[k] in conns;
  }

  /** What the store's two calls do to the table is what `One` says. */
  lemma WrittenIsOne(conns: seq<Connection>, next: Id, x: SharedSsh)
    requires Sound(conns) && AllUsable(conns)
    ensures match Named(conns, x.name)
      case Some(k) =>
        (match Update(conns, conns[k].id, Some(x.endpoint), None)
         case Ok(after) => One(Ssh(), conns, next, x) == Some(after)
         case Err(_) => One(Ssh(), conns, next, x).None?)
      case None =>
        (match Create(conns, next, x.name, x.endpoint, None)
         case Ok(after) => One(Ssh(), conns, next, x) == Some(after)
         case Err(_) => One(Ssh(), conns, next, x).None?)
  {
    FindIsNamed(conns, x.name);
    FindIsNamed(conns, Trim(x.name));
    var k := Named(conns, x.name);
    if k.Some? {
      IndexIs(conns, k.value);
      assert CanConnect(conns[k.value]);
    } else if Named(conns, Trim(x.name)).Some? {
      assert conns[Named(conns, Trim(x.name)).value] in conns;
    }
  }

  lemma AppliedIsAccepted(conns: seq<Connection>, next: Id, x: SharedSsh)
    requires Sound(conns) && AllUsable(conns) && Applied(Ssh(), conns, x)
    ensures One(Ssh(), conns, next, x) == Some(conns)
  {
    var k := Find(Ssh(), conns, x.name).value;
    assert CanConnect(conns[k]);
    SoundRowIsAccepted(conns, k);
    OneAgain(Ssh(), conns, next, x);
  }

  ghost predicate ImportFiles(conns: seq<Connection>, ids: map<string, Id>, incoming: seq<SharedSsh>, i: nat)
    requires i <= |incoming|
  {
    && (forall name :: name in ids <==> InBundle(incoming[..i], name))
    && (forall name | name in ids :: HasId(conns, ids[name]))
  }

  ghost predicate ImportApplies(conns: seq<Connection>, ids: map<string, Id>, incoming: seq<SharedSsh>, i: nat)
    requires i <= |incoming|
  {
    WellNamed(incoming) ==>
      forall k | 0 <= k < i :: Applied(Ssh(), conns, incoming[k]) && Files(conns, ids, incoming[k].name)
  }

  ghost predicate ImportMirrors(conns0: seq<Connection>, next0: Id, conns: seq<Connection>, next: Id,
                                incoming: seq<SharedSsh>, i: nat)
    requires i <= |incoming|
  {
    conns0 == [] && Coherent(incoming) ==> IsMirror(conns, incoming[..i], next0, 0) && next == next0 + i
  }

  /** The id under each name: that of the record the name was written to last. */
  ghost function Filing(conns: seq<Connection>, next: Id, list: seq<SharedSsh>): map<string, Id>
    decreases |list|
  {
    if list == [] then map[]
    else match All(Ssh(), conns, next, list[..|list| - 1])
      case None => map[]
      case Some((r, n)) =>
        Filing(conns, next, list[..|list| - 1])[list[|list| - 1].name := WrittenId(r, n, list[|list| - 1])]
  }

  /** Exactly what writing these records comes to. */
  ghost predicate Recorded(conns0: seq<Connection>, next0: Id, conns: seq<Connection>, next: Id,
                           ids: map<string, Id>, list: seq<SharedSsh>) {
    && All(Ssh(), conns0, next0, list) == Some((conns, next)) && ids == Filing(conns0, next0, list)
    && OthersStay(Ssh(), conns0, conns, list)
  }

  lemma RecordedOn(conns0: seq<Connection>, next0: Id, conns: seq<Connection>, next: Id, ids: map<string, Id>,
                   list: seq<SharedSsh>, x: SharedSsh)
    requires Recorded(conns0, next0, conns, next, ids, list) && One(Ssh(), conns, next, x).Some?
    ensures Recorded(conns0, next0, One(Ssh(), conns, next, x).value, NextAfter(Ssh(), conns, next, x),
                     ids[x.name := WrittenId(conns, next, x)], list + [x])
  {
    assert (list + [x])[..|list|] == list;
    AllOn(Ssh(), conns0, next0, list, x, conns, next);
    OthersStayOn(Ssh(), conns0, conns, next, list, x);
  }

  /** Every record of the bundle is in the table. */
  ghost predicate RecordsApplied(conns: seq<Connection>, incoming: seq<SharedSsh>) {
    forall k | 0 <= k < |incoming| :: Applied(Ssh(), conns, incoming[k])
  }

  /** The first pass has come this far. */
  ghost predicate Importing(conns0: seq<Connection>, next0: Id, conns: seq<Connection>, next: Id, ids: map<string, Id>,
                            incoming: seq<SharedSsh>, i: nat) {
    && i <= |incoming| && Kept(Ssh(), conns0, conns) && JumpsKept(conns0, conns)
    && Recorded(conns0, next0, conns, next, ids, incoming[..i])
    && ImportFiles(conns, ids, incoming, i)
    && ImportApplies(conns, ids, incoming, i)
    && (RecordsApplied(conns0, incoming) ==> conns == conns0)
    && ImportMirrors(conns0, next0, conns, next, incoming, i)
  }

  /** The first pass touches no jump host: old rows keep theirs, and new ones have none. */
  ghost predicate JumpsKept(before: seq<Connection>, after: seq<Connection>) {
    && |before| <= |after|
    && (forall k | 0 <= k < |before| ::
          after[k].id == before[k].id && after[k].name == before[k].name && after[k].jump == before[k].jump)
    && forall k | |before| <= k < |after| :: after[k].jump.None?
  }

  lemma OneKeepsJumps(conns0: seq<Connection>, conns: seq<Connection>, next: Id, x: SharedSsh)
    requires JumpsKept(conns0, conns) && One(Ssh(), conns, next, x).Some?
    ensures JumpsKept(conns0, One(Ssh(), conns, next, x).value)
  {
  }

  /** A tidy record the store could hold is written, whatever the table: the first pass changes no jump host. */
  lemma WritableIsWritten(conns: seq<Connection>, next: Id, x: SharedSsh)
    requires Sound(conns) && AllUsable(conns) && Tidy(x) && Writable(x)
    ensures One(Ssh(), conns, next, x).Some?
  {
    var k := Find(Ssh(), conns, x.name);
    if k.Some? {
      assert CanConnect(conns[k.value]);
      SoundRowIsAccepted(conns, k.value);
    }
  }

  predicate HasId(conns: seq<Connection>, id: Id) {
    exists k :: 0 <= k < |conns| && conns[k].id == id
  }

  /** The id filed under a name is that of the record with that name. */
  predicate Files(conns: seq<Connection>, ids: map<string, Id>, name: string) {
    name in ids && Find(Ssh(), conns, name).Some? && conns[Find(Ssh(), conns, name).value].id == ids[name]
  }

  lemma FilesStay(conns: seq<Connection>, after: seq<Connection>, ids: map<string, Id>, ids': map<string, Id>,
                  name: string)
    requires Files(conns, ids, name) && Kept(Ssh(), conns, after) && name in ids' && ids'[name] == ids[name]
    ensures Files(after, ids', name)
  {
    var k := Find(Ssh(), conns, name).value;
    assert forall j | 0 <= j < |conns| :: Ssh().keyOf(after[j]) == Ssh().keyOf(conns[j]);
    FindIs(Ssh(), after, name, k);
    assert Ssh().idOf(after[k]) == Ssh().idOf(conns[k]);
  }

  lemma HasIdStays(conns: seq<Connection>, after: seq<Connection>, id: Id)
    requires HasId(conns, id) && Kept(Ssh(), conns, after)
    ensures HasId(after, id)
  {
    var k :| 0 <= k < |conns| && conns[k].id == id;
    assert Ssh().idOf(after[k]) == Ssh().idOf(conns[k]);
  }

  /** The id of the record a write goes to. */
  function WrittenId(conns: seq<Connection>, next: Id, x: SharedSsh): Id {
    match Find(Ssh(), conns, x.name) case Some(k) => conns[k].id case None => next
  }

  lemma WrittenIsFiled(conns: seq<Connection>, next: Id, x: SharedSsh, ids: map<string, Id>)
    requires One(Ssh(), conns, next, x).Some? && Trim(x.name) == x.name
    ensures Files(One(Ssh(), conns, next, x).value, ids[x.name := WrittenId(conns, next, x)], x.name)
  {
    var after := One(Ssh(), conns, next, x).value;
    var k := match Find(Ssh(), conns, x.name) case Some(k) => k case None => |conns|;
    FindIs(Ssh(), after, x.name, k);
  }

  lemma WrittenIsThere(conns: seq<Connection>, next: Id, x: SharedSsh)
    requires One(Ssh(), conns, next, x).Some?
    ensures HasId(One(Ssh(), conns, next, x).value, WrittenId(conns, next, x))
  {
    var after := One(Ssh(), conns, next, x).value;
    var k := match Find(Ssh(), conns, x.name) case Some(k) => k case None => |conns|;
    assert after[k].id == WrittenId(conns, next, x);
  }

  lemma OneMoreName(incoming: seq<SharedSsh>, i: nat)
    requires i < |incoming|
    ensures forall name :: InBundle(incoming[..i + 1], name) <==>
      InBundle(incoming[..i], name) || name == incoming[i].name
  {
    forall name ensures InBundle(incoming[..i + 1], name) <==>
      InBundle(incoming[..i], name) || name == incoming[i].name {
      if InBundle(incoming[..i], name) {
        var k :| 0 <= k < i && incoming[..i][k].name == name;
        assert incoming[..i + 1][k].name == name;
      }
      assert incoming[..i + 1][i] == incoming[i];
      if InBundle(incoming[..i + 1], name) && name != incoming[i].name {
        var k :| 0 <= k < i + 1 && incoming[..i + 1][k].name == name;
        assert incoming[..i][k].name == name;
      }
    }
  }

  lemma FilesOn(conns: seq<Connection>, next: Id, ids: map<string, Id>, incoming: seq<SharedSsh>, i: nat)
    requires i < |incoming| && ImportFiles(conns, ids, incoming, i) && One(Ssh(), conns, next, incoming[i]).Some?
    ensures ImportFiles(One(Ssh(), conns, next, incoming[i]).value,
      ids[incoming[i].name := WrittenId(conns, next, incoming[i])], incoming, i + 1)
  {
    var x := incoming[i];
    var ids' := ids[x.name := WrittenId(conns, next, x)];
    var after := One(Ssh(), conns, next, x).value;
    SshIsLawful();
    OneKeeps(Ssh(), conns, next, x);
    OneMoreName(incoming, i);
    WrittenIsThere(conns, next, x);
    forall name | name in ids' ensures HasId(after, ids'[name]) {
      if name != x.name {
        HasIdStays(conns, after, ids[name]);
      }
    }
  }

  /** The record is in the table under its name, and those written before stay there. */
  lemma RecordsStay(conns: seq<Connection>, next: Id, ids: map<string, Id>, incoming: seq<SharedSsh>, i: nat, k: nat)
    requires WellNamed(incoming) && k <= i < |incoming| && One(Ssh(), conns, next, incoming[i]).Some?
    requires k < i ==> Applied(Ssh(), conns, incoming[k]) && Files(conns, ids, incoming[k].name)
    ensures Applied(Ssh(), One(Ssh(), conns, next, incoming[i]).value, incoming[k])
    ensures Files(One(Ssh(), conns, next, incoming[i]).value,
      ids[incoming[i].name := WrittenId(conns, next, incoming[i])], incoming[k].name)
  {
    var x := incoming[i];
    assert Tidy(x);
    SshIsLawful();
    if k < i {
      OneKeeps(Ssh(), conns, next, x);
      OneLeavesOthers(Ssh(), conns, next, x, incoming[k]);
      FilesStay(conns, One(Ssh(), conns, next, x).value, ids, ids[x.name := WrittenId(conns, next, x)],
        incoming[k].name);
    } else {
      OneApplies(Ssh(), conns, next, x);
      WrittenIsFiled(conns, next, x, ids);
    }
  }

  lemma AppliesOn(conns: seq<Connection>, next: Id, ids: map<string, Id>, incoming: seq<SharedSsh>, i: nat)
    requires i < |incoming| && ImportApplies(conns, ids, incoming, i) && One(Ssh(), conns, next, incoming[i]).Some?
    ensures ImportApplies(One(Ssh(), conns, next, incoming[i]).value,
      ids[incoming[i].name := WrittenId(conns, next, incoming[i])], incoming, i + 1)
  {
    if WellNamed(incoming) {
      forall k | 0 <= k < i + 1
        ensures Applied(Ssh(), One(Ssh(), conns, next, incoming[i]).value, incoming[k])
        ensures Files(One(Ssh(), conns, next, incoming[i]).value,
          ids[incoming[i].name := WrittenId(conns, next, incoming[i])], incoming[k].name)
      {
        RecordsStay(conns, next, ids, incoming, i, k);
      }
    }
  }

  lemma MirrorsOn(conns0: seq<Connection>, next0: Id, conns: seq<Connection>, next: Id, incoming: seq<SharedSsh>,
                  i: nat)
    requires i < |incoming| && ImportMirrors(conns0, next0, conns, next, incoming, i)
    requires One(Ssh(), conns, next, incoming[i]).Some?
    ensures ImportMirrors(conns0, next0, One(Ssh(), conns, next, incoming[i]).value,
      NextAfter(Ssh(), conns, next, incoming[i]), incoming, i + 1)
  {
    if conns0 == [] && Coherent(incoming) {
      MirrorGrows(incoming, next0, i, conns, next);
    }
  }

  lemma MirrorGrows(incoming: seq<SharedSsh>, next0: Id, i: nat, conns: seq<Connection>, next: Id)
    requires Coherent(incoming) && i < |incoming| && IsMirror(conns, incoming[..i], next0, 0) && next == next0 + i
    ensures One(Ssh(), conns, next, incoming[i]).Some?
    ensures IsMirror(One(Ssh(), conns, next, incoming[i]).value, incoming[..i + 1], next0, 0)
    ensures NextAfter(Ssh(), conns, next, incoming[i]) == next0 + i + 1
  {
    var x := incoming[i];
    assert Tidy(x) && Writable(x);
    forall k | 0 <= k < |conns| ensures Ssh().keyOf(conns[k]) != x.name {
      assert Mirrors(conns[k], incoming[..i], next0, 0, k);
      assert conns[k].name == incoming[k].name;
    }
    OneAdds(Ssh(), conns, next, x);
    var after := conns + [Connection(next, x.name, x.endpoint, None)];
    forall k | 0 <= k < i + 1 ensures Mirrors(after[k], incoming[..i + 1], next0, 0, k) {
      assert k < i ==> Mirrors(conns[k], incoming[..i], next0, 0, k);
    }
  }

  lemma ImportsOn(conns0: seq<Connection>, next0: Id, conns: seq<Connection>, next: Id, ids: map<string, Id>,
                  conns': seq<Connection>, incoming: seq<SharedSsh>, i: nat)
    requires i < |incoming| && Importing(conns0, next0, conns, next, ids, incoming, i) && Sound(conns)
    requires AllUsable(conns)
    requires One(Ssh(), conns, next, incoming[i]) == Some(conns')
    ensures Importing(conns0, next0, conns', NextAfter(Ssh(), conns, next, incoming[i]),
                      ids[incoming[i].name := WrittenId(conns, next, incoming[i])], incoming, i + 1)
  {
    SshIsLawful();
    OneKeeps(Ssh(), conns, next, incoming[i]);
    KeptTwice(Ssh(), conns0, conns, conns');
    OneKeepsJumps(conns0, conns, next, incoming[i]);
    assert incoming[..i] + [incoming[i]] == incoming[..i + 1];
    RecordedOn(conns0, next0, conns, next, ids, incoming[..i], incoming[i]);
    FilesOn(conns, next, ids, incoming, i);
    AppliesOn(conns, next, ids, incoming, i);
    MirrorsOn(conns0, next0, conns, next, incoming, i);
    if RecordsApplied(conns0, incoming) {
      AppliedIsAccepted(conns, next, incoming[i]);
    }
  }

  /** What stops the first pass could not have happened to a bundle already imported, or to a coherent one. */
  lemma ImportStops(conns0: seq<Connection>, next0: Id, conns: seq<Connection>, next: Id, ids: map<string, Id>,
                    incoming: seq<SharedSsh>, i: nat)
    requires i < |incoming| && Importing(conns0, next0, conns, next, ids, incoming, i) && Sound(conns)
    requires AllUsable(conns)
    requires One(Ssh(), conns, next, incoming[i]).None?
    ensures NotExpected(conns0, incoming)
  {
    if RecordsApplied(conns0, incoming) {
      AppliedIsAccepted(conns, next, incoming[i]);
    }
    if Coherent(incoming) {
      assert Tidy(incoming[i]) && Writable(incoming[i]);
      WritableIsWritten(conns, next, incoming[i]);
    }
  }

  /** Neither a bundle whose records are all in the table, nor a coherent one. */
  ghost predicate NotExpected(conns0: seq<Connection>, incoming: seq<SharedSsh>) {
    !RecordsApplied(conns0, incoming) && !Coherent(incoming)
  }

  /** What the store answers to a record it does not write. */
  function RefusedWith(conns: seq<Connection>, next: Id, x: SharedSsh): Option<SshError> {
    var k := Named(conns, x.name);
    var r := if k.Some? then Update(conns, conns[k.value].id, Some(x.endpoint), None)
             else Create(conns, next, x.name, x.endpoint, None);
    if r.Err? then Some(r.error) else None
  }

  /** The records before this one are written, and this one is refused. */
  ghost predicate StopsAt(conns0: seq<Connection>, next0: Id, conns: seq<Connection>, incoming: seq<SharedSsh>, i: nat,
                          e: SshError) {
    i < |incoming| && match All(Ssh(), conns0, next0, incoming[..i])
      case None => false
      case Some((r, n)) =>
        r == conns && One(Ssh(), r, n, incoming[i]).None? && RefusedWith(r, n, incoming[i]) == Some(e)
  }

  /** Creates the record, or updates the one of that name. */
  method WriteRecord(store: Store, x: SharedSsh) returns (r: Result<Id, SshError>)
    requires store.Valid()
    modifies store`conns, store`nextId
    ensures store.Valid()
    ensures match One(Ssh(), old(store.conns), old(store.nextId), x)
      case None =>
        && r.Err? && store.conns == old(store.conns)
        && RefusedWith(old(store.conns), old(store.nextId), x) == Some(r.error)
      case Some(after) =>
        && r == Ok(WrittenId(old(store.conns), old(store.nextId), x)) && store.conns == after
        && store.nextId == NextAfter(Ssh(), old(store.conns), old(store.nextId), x)
  {
    WrittenIsOne(store.conns, store.nextId, x);
    FindIsNamed(store.conns, x.name);
    var existing := Named(store.conns, x.name);
    if existing.Some? {
      var id := store.conns[existing.value].id;
      var refused := store.UpdateSsh(id, Some(x.endpoint), None);
      if refused.Some? {
        return Err(refused.value);
      }
      r := Ok(id);
    } else {
      var created := store.CreateSsh(x.name, x.endpoint, None);
      if created.Err? {
        return Err(created.error);
      }
      r := Ok(created.value.id);
    }
  }

  /**
   How far the first pass has come, or that it was stopped by something that could not happen to
   an expected bundle.
   */
  ghost predicate FirstPass(refused: Option<SshError>, conns0: seq<Connection>, next0: Id, conns: seq<Connection>,
                            next: Id,
                            ids: map<string, Id>, incoming: seq<SharedSsh>, i: nat) {
    match refused
    case None => Importing(conns0, next0, conns, next, ids, incoming, i)
    case Some(e) =>
      && Kept(Ssh(), conns0, conns) && NotExpected(conns0, incoming)
      && exists k :: StopsAt(conns0, next0, conns, incoming, k, e)
  }

  /** One turn of the first pass. */
  method ImportStep(store: Store, ids: map<string, Id>, incoming: seq<SharedSsh>, i: nat,
                    ghost conns0: seq<Connection>, ghost next0: Id)
    returns (refused: Option<SshError>, ids': map<string, Id>)
    requires store.Valid() && i < |incoming|
    requires FirstPass(None, conns0, next0, store.conns, store.nextId, ids, incoming, i)
    modifies store`conns, store`nextId
    ensures store.Valid() && FirstPass(refused, conns0, next0, store.conns, store.nextId, ids', incoming, i + 1)
  {
    ghost var before, next := store.conns, store.nextId;
    var id := WriteRecord(store, incoming[i]);
    if id.Err? {
      ImportStops(conns0, next0, before, next, ids, incoming, i);
      assert StopsAt(conns0, next0, store.conns, incoming, i, id.error);
      return Some(id.error), ids;
    }
    ImportsOn(conns0, next0, before, next, ids, store.conns, incoming, i);
    return None, ids[incoming[i].name := id.value];
  }

  /** The first pass: the ids by name, or the first record that is refused. */
  method ImportRecords(store: Store, incoming: seq<SharedSsh>) returns (refused: Option<SshError>, ids: map<string, Id>)
    requires store.Valid()
    modifies store`conns, store`nextId
    ensures store.Valid()
    ensures FirstPass(refused, old(store.conns), old(store.nextId), store.conns, store.nextId, ids, incoming,
                      |incoming|)
  {
    refused, ids := None, map[];
    StartImporting(store.conns, store.nextId, incoming);
    for i := 0 to |incoming|
      invariant store.Valid() && refused.None?
      invariant FirstPass(refused, old(store.conns), old(store.nextId), store.conns, store.nextId, ids, incoming, i)
    {
      refused, ids := ImportStep(store, ids, incoming, i, old(store.conns), old(store.nextId));
      if refused.Some? {
        FirstPassStopped(refused, old(store.conns), old(store.nextId), store.conns, store.nextId, ids, incoming, i + 1);
        return;
      }
    }
  }

  lemma FirstPassStopped(refused: Option<SshError>, conns0: seq<Connection>, next0: Id, conns: seq<Connection>,
                         next: Id,
                         ids: map<string, Id>, incoming: seq<SharedSsh>, i: nat)
    requires refused.Some? && FirstPass(refused, conns0, next0, conns, next, ids, incoming, i)
    ensures FirstPass(refused, conns0, next0, conns, next, ids, incoming, |incoming|)
  {
  }

  lemma StartImporting(conns: seq<Connection>, next: Id, incoming: seq<SharedSsh>)
    ensures FirstPass(None, conns, next, conns, next, map[], incoming, 0)
  {
    assert incoming[..0] == [];
  }
}
