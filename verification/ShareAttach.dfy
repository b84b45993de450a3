/**
 The second pass of an import of SSH connections: the jump hosts, by name. And both passes.
 */
module ShareAttach {
  import opened Common
  import opened Text
  import opened SshStore
  import opened SshAdoption
  import opened Upserts
  import opened ShareSsh

  // ── The second pass ──

  /** Only jump hosts differ. */
  predicate SameButJumps(before: seq<Connection>, after: seq<Connection>) {
    |before| == |after| && forall k | 0 <= k < |before| :: after[k].(jump := None) == before[k].(jump := None)
  }

  /** Every name of the bundle has the id of its record, and no other name has one. */
  ghost predicate Filed(conns: seq<Connection>, ids: map<string, Id>, incoming: seq<SharedSsh>) {
    && (forall name :: name in ids <==> InBundle(incoming, name))
    && forall k | 0 <= k < |incoming| :: Files(conns, ids, incoming[k].name)
  }

  lemma FindStays(conns1: seq<Connection>, conns: seq<Connection>, name: string)
    requires SameButJumps(conns1, conns)
    ensures Find(Ssh(), conns, name) == Find(Ssh(), conns1, name)
  {
    forall k | 0 <= k < |conns| ensures conns[k].name == conns1[k].name && conns[k].id == conns1[k].id {
      assert conns[k].(jump := None).name == conns1[k].(jump := None).name;
      assert conns[k].(jump := None).id == conns1[k].(jump := None).id;
    }
    var k := Find(Ssh(), conns1, name);
    if k.Some? {
      FindIs(Ssh(), conns, name, k.value);
    } else if conns != [] {
      NotFoundStays(conns, name);
    }
  }

  lemma {:induction false} NotFoundStays(conns: seq<Connection>, name: string)
    requires forall k | 0 <= k < |conns| :: conns[k].name != name
    ensures Find(Ssh(), conns, name) == None
  {
    if conns != [] {
      NotFoundStays(conns[1..], name);
    }
  }

  predicate Attachable(ids: map<string, Id>, x: SharedSsh) {
    x.jump.Some? && x.name in ids && x.jump.value in ids
  }

  /** What the second pass does for one record; `None` when the store refuses. */
  function Attach(conns: seq<Connection>, ids: map<string, Id>, x: SharedSsh): Option<seq<Connection>> {
    if !Attachable(ids, x) then Some(conns)
    else match Update(conns, ids[x.name], None, Some(Some(ids[x.jump.value])))
      case Ok(after) => Some(after)
      case Err(_) => None
  }

  /** Record after record. */
  function AttachedAll(conns: seq<Connection>, ids: map<string, Id>, list: seq<SharedSsh>): Option<seq<Connection>> {
    if list == [] then Some(conns)
    else match AttachedAll(conns, ids, list[..|list| - 1])
      case None => None
      case Some(between) => Attach(between, ids, list[|list| - 1])
  }

  lemma AttachedOn(conns: seq<Connection>, ids: map<string, Id>, list: seq<SharedSsh>, i: nat)
    requires i < |list|
    ensures AttachedAll(conns, ids, list[..i + 1]) ==
      match AttachedAll(conns, ids, list[..i]) case None => None case Some(between) => Attach(between, ids, list[i])
  {
    assert list[..i + 1][..i] == list[..i];
  }

  /** What the store answers to a jump host it does not attach. */
  function AttachError(conns: seq<Connection>, ids: map<string, Id>, x: SharedSsh): Option<SshError> {
    if !Attachable(ids, x) then None
    else match Update(conns, ids[x.name], None, Some(Some(ids[x.jump.value])))
      case Ok(_) => None
      case Err(e) => Some(e)
  }

  /** The records that name a jump host the bundle does not carry. */
  function OrphanJumps(ids: map<string, Id>, list: seq<SharedSsh>): seq<string> {
    if list == [] then []
    else
      var x := list[|list| - 1];
      OrphanJumps(ids, list[..|list| - 1]) + if x.jump.Some? && !Attachable(ids, x) then [x.name] else []
  }

  ghost predicate AttachStopsAt(conns1: seq<Connection>, ids: map<string, Id>, conns: seq<Connection>,
                                incoming: seq<SharedSsh>, i: nat, e: SshError) {
    && i < |incoming| && AttachedAll(conns1, ids, incoming[..i]) == Some(conns)
    && AttachError(conns, ids, incoming[i]) == Some(e)
  }

  lemma AttachChangesJumps(conns: seq<Connection>, ids: map<string, Id>, x: SharedSsh)
    requires Sound(conns)
    ensures Attach(conns, ids, x).Some? ==> SameButJumps(conns, Attach(conns, ids, x).value)
  {
    if Attachable(ids, x) {
      UpdateKeepsSound(conns, ids[x.name], None, Some(Some(ids[x.jump.value])));
    }
  }

  lemma SameTwice(a: seq<Connection>, b: seq<Connection>, c: seq<Connection>)
    requires SameButJumps(a, b) && SameButJumps(b, c)
    ensures SameButJumps(a, c)
  {
  }

  /** The row the ids lead to is that of the record's own name. */
  lemma RowOf(conns1: seq<Connection>, conns: seq<Connection>, ids: map<string, Id>, name: string) returns (k: nat)
    requires Sound(conns) && SameButJumps(conns1, conns) && Files(conns1, ids, name)
    ensures k < |conns| && conns[k].name == name && conns[k].id == ids[name]
    ensures Find(Ssh(), conns, name) == Some(k) && IndexOf(conns, ids[name]) == Some(k)
  {
    FindStays(conns1, conns, name);
    k := Find(Ssh(), conns, name).value;
    assert conns[k].(jump := None).id == conns1[k].(jump := None).id;
    IndexIs(conns, k);
  }

  lemma FindStaysTwice(conns1: seq<Connection>, conns: seq<Connection>, after: seq<Connection>, name: string)
    requires SameButJumps(conns1, conns) && SameButJumps(conns1, after)
    ensures Find(Ssh(), after, name) == Find(Ssh(), conns, name)
  {
    FindStays(conns1, conns, name);
    FindStays(conns1, after, name);
  }

  /** A row whose jump is as it was, or was just set to the right id, is attached. */
  lemma RowJumped(conns: seq<Connection>, after: seq<Connection>, incoming: seq<SharedSsh>, y: SharedSsh, row: nat,
                  target: nat)
    requires SameButJumps(conns, after) && y.jump.Some?
    requires Find(Ssh(), after, y.name) == Some(row) && Find(Ssh(), after, y.jump.value) == Some(target)
    requires after[row].jump == Some(conns[target].id)
    ensures Jumped(after, incoming, y)
  {
    assert after[target].(jump := None).id == conns[target].(jump := None).id;
  }

  /** The record is attached, and those attached before stay so. */
  lemma AttachJumps(conns1: seq<Connection>, conns: seq<Connection>, ids: map<string, Id>, incoming: seq<SharedSsh>,
                    i: nat, m: nat)
    requires WellNamed(incoming) && Filed(conns1, ids, incoming) && Sound(conns) && SameButJumps(conns1, conns)
    requires m <= i < |incoming| && (m < i ==> Jumped(conns, incoming, incoming[m]))
    requires Attach(conns, ids, incoming[i]).Some?
    ensures Jumped(Attach(conns, ids, incoming[i]).value, incoming, incoming[m])
  {
    var x, y := incoming[i], incoming[m];
    var after := Attach(conns, ids, x).value;
    AttachChangesJumps(conns, ids, x);
    SameTwice(conns1, conns, after);
    if y.jump.Some? && InBundle(incoming, y.jump.value) {
      var j :| 0 <= j < |incoming| && incoming[j].name == y.jump.value;
      var row := RowOf(conns1, conns, ids, y.name);
      var target := RowOf(conns1, conns, ids, incoming[j].name);
      FindStaysTwice(conns1, conns, after, y.name);
      FindStaysTwice(conns1, conns, after, y.jump.value);
      AttachedRow(conns1, conns, ids, incoming, i, m, row, target);
      RowJumped(conns, after, incoming, y, row, target);
    }
  }

  lemma AttachedRow(conns1: seq<Connection>, conns: seq<Connection>, ids: map<string, Id>, incoming: seq<SharedSsh>,
                    i: nat, m: nat, row: nat, target: nat)
    requires WellNamed(incoming) && Filed(conns1, ids, incoming) && Sound(conns) && SameButJumps(conns1, conns)
    requires m <= i < |incoming| && (m < i ==> Jumped(conns, incoming, incoming[m]))
    requires Attach(conns, ids, incoming[i]).Some?
    requires incoming[m].jump.Some? && InBundle(incoming, incoming[m].jump.value)
    requires Find(Ssh(), conns, incoming[m].name) == Some(row)
    requires Find(Ssh(), conns, incoming[m].jump.value) == Some(target)
    requires conns[target].id == ids[incoming[m].jump.value]
    ensures var after := Attach(conns, ids, incoming[i]).value;
      row < |after| && after[row].jump == Some(conns[target].id)
  {
    var x := incoming[i];
    if Attachable(ids, x) {
      var other := RowOf(conns1, conns, ids, x.name);
      AttachIs(conns, ids, x, other);
      assert m < i ==> other != row;
    }
  }

  lemma AttachIs(conns: seq<Connection>, ids: map<string, Id>, x: SharedSsh, row: nat)
    requires Attachable(ids, x) && IndexOf(conns, ids[x.name]) == Some(row) && Attach(conns, ids, x).Some?
    ensures Attach(conns, ids, x).value == conns[row := conns[row].(jump := Some(ids[x.jump.value]))]
  {
  }

  /** A record already attached is attached again to no effect. */
  lemma AttachAgain(conns: seq<Connection>, ids: map<string, Id>, incoming: seq<SharedSsh>, i: nat)
    requires WellNamed(incoming) && Filed(conns, ids, incoming) && Sound(conns)
    requires i < |incoming| && Jumped(conns, incoming, incoming[i])
    ensures Attach(conns, ids, incoming[i]) == Some(conns)
  {
    var x := incoming[i];
    if Attachable(ids, x) {
      var j :| 0 <= j < |incoming| && incoming[j].name == x.jump.value;
      var row := RowOf(conns, conns, ids, x.name);
      var target := RowOf(conns, conns, ids, incoming[j].name);
      SoundRowIsAccepted(conns, row);
      assert Patched(conns[row], None, Some(Some(ids[x.jump.value]))) == conns[row];
      assert conns[row := conns[row]] == conns;
    }
  }

  lemma DirectPlace(incoming: seq<SharedSsh>, name: string) returns (j: nat)
    requires Coherent(incoming) && DirectIn(incoming, name)
    ensures j < |incoming| && incoming[j].name == name && incoming[j].jump.None? && PlaceOf(incoming, name) == Some(j)
  {
    j :| 0 <= j < |incoming| && incoming[j].name == name && incoming[j].jump.None?;
    assert InBundle(incoming, name);
  }

  lemma NobodyJumpsThrough(first: Id, incoming: seq<SharedSsh>, i: nat, k: nat)
    requires Coherent(incoming) && i < |incoming| && incoming[i].jump.Some? && k < |incoming|
    ensures JumpId(incoming, first, k) != Some(first + i)
  {
    if incoming[k].jump.Some? {
      var j := DirectPlace(incoming, incoming[k].jump.value);
      assert j != i;
    }
  }

  lemma MirrorAccepts(conns: seq<Connection>, first: Id, incoming: seq<SharedSsh>, i: nat, j: nat)
    requires Coherent(incoming) && i < |incoming| && j < |incoming| && incoming[i].jump.Some? && incoming[j].jump.None?
    requires Sound(conns) && IsMirror(conns, incoming, first, i)
    ensures JumpProblem(conns, conns[i].(jump := Some(first + j))).None?
  {
    assert Mirrors(conns[i], incoming, first, i, i) && Mirrors(conns[j], incoming, first, i, j);
    assert conns[j].id == first + j && conns[j].jump.None?;
    assert JumpIsDirect(conns, first + j);
    forall k | 0 <= k < |conns| ensures conns[k].jump != Some(first + i) {
      assert Mirrors(conns[k], incoming, first, i, k);
      NobodyJumpsThrough(first, incoming, i, k);
    }
    JumpAcceptedExactly(conns, conns[i].(jump := Some(first + j)));
  }

  lemma MirrorStep(conns: seq<Connection>, first: Id, incoming: seq<SharedSsh>, i: nat, jump: Option<Id>)
    requires i < |incoming| && IsMirror(conns, incoming, first, i) && jump == JumpId(incoming, first, i)
    ensures IsMirror(conns[i := conns[i].(jump := jump)], incoming, first, i + 1)
  {
    var after := conns[i := conns[i].(jump := jump)];
    forall k | 0 <= k < |incoming| ensures Mirrors(after[k], incoming, first, i + 1, k) {
      assert Mirrors(conns[k], incoming, first, i, k);
    }
  }

  /** In the table a coherent bundle made, the next jump host is attached. */
  lemma MirrorAttaches(conns1: seq<Connection>, conns: seq<Connection>, first: Id, ids: map<string, Id>,
                       incoming: seq<SharedSsh>, i: nat)
    requires Coherent(incoming) && IsMirror(conns1, incoming, first, 0) && Filed(conns1, ids, incoming)
    requires i < |incoming|
    requires Sound(conns) && IsMirror(conns, incoming, first, i)
    ensures Attach(conns, ids, incoming[i]).Some?
    ensures IsMirror(Attach(conns, ids, incoming[i]).value, incoming, first, i + 1)
  {
    if incoming[i].jump.Some? {
      MirrorJumps(conns1, conns, first, ids, incoming, i);
    } else {
      assert Mirrors(conns[i], incoming, first, i, i);
      JumpStaysUnset(conns, i);
      MirrorStep(conns, first, incoming, i, None);
    }
  }

  lemma MirrorJumps(conns1: seq<Connection>, conns: seq<Connection>, first: Id, ids: map<string, Id>,
                    incoming: seq<SharedSsh>, i: nat)
    requires Coherent(incoming) && IsMirror(conns1, incoming, first, 0) && Filed(conns1, ids, incoming)
    requires i < |incoming|
    requires Sound(conns) && IsMirror(conns, incoming, first, i) && incoming[i].jump.Some?
    ensures Attach(conns, ids, incoming[i]).Some?
    ensures IsMirror(Attach(conns, ids, incoming[i]).value, incoming, first, i + 1)
  {
    var j := DirectPlace(incoming, incoming[i].jump.value);
    MirrorSets(conns1, conns, first, ids, incoming, i, j);
    MirrorStep(conns, first, incoming, i, Some(first + j));
  }

  lemma MirrorSets(conns1: seq<Connection>, conns: seq<Connection>, first: Id, ids: map<string, Id>,
                   incoming: seq<SharedSsh>, i: nat, j: nat)
    requires Coherent(incoming) && IsMirror(conns1, incoming, first, 0) && Filed(conns1, ids, incoming)
    requires i < |incoming|
    requires Sound(conns) && IsMirror(conns, incoming, first, i)
    requires incoming[i].jump.Some? && j < |incoming| && incoming[j].name == incoming[i].jump.value
    requires incoming[j].jump.None?
    ensures Attach(conns, ids, incoming[i]) == Some(conns[i := conns[i].(jump := Some(first + j))])
  {
    assert Mirrors(conns[i], incoming, first, i, i);
    FiledInMirror(conns1, first, ids, incoming, i);
    FiledInMirror(conns1, first, ids, incoming, j);
    MirrorAccepts(conns, first, incoming, i, j);
    JumpIsSet(conns, ids, incoming[i], i, first + j);
  }

  lemma JumpStaysUnset(conns: seq<Connection>, i: nat)
    requires i < |conns| && conns[i].jump.None?
    ensures conns[i := conns[i].(jump := None)] == conns
  {
  }

  lemma JumpIsSet(conns: seq<Connection>, ids: map<string, Id>, x: SharedSsh, k: nat, jump: Id)
    requires Sound(conns) && k < |conns| && Attachable(ids, x) && ids[x.name] == conns[k].id
    requires ids[x.jump.value] == jump
    requires JumpProblem(conns, conns[k].(jump := Some(jump))).None?
    ensures Attach(conns, ids, x) == Some(conns[k := conns[k].(jump := Some(jump))])
  {
    IndexIs(conns, k);
    assert Patched(conns[k], None, Some(Some(jump))) == conns[k].(jump := Some(jump));
  }

  lemma FiledInMirror(conns: seq<Connection>, first: Id, ids: map<string, Id>, incoming: seq<SharedSsh>, k: nat)
    requires Coherent(incoming) && IsMirror(conns, incoming, first, 0) && Filed(conns, ids, incoming) && k < |incoming|
    ensures incoming[k].name in ids && ids[incoming[k].name] == first + k
  {
    assert Files(conns, ids, incoming[k].name);
    forall j | 0 <= j < |conns| ensures conns[j].name == incoming[j].name && conns[j].id == first + j {
      assert Mirrors(conns[j], incoming, first, 0, j);
    }
    FindIs(Ssh(), conns, incoming[k].name, k);
  }

  // ── When a jump host is refused ──

  /** The record named is there, and jumps through another. */
  predicate HostJumps(conns: seq<Connection>, name: string) {
    Find(Ssh(), conns, name).Some? && conns[Find(Ssh(), conns, name).value].jump.Some?
  }

  /** An earlier record of the bundle gives the record of this name a jump host of its own. */
  predicate ResetBefore(incoming: seq<SharedSsh>, i: nat, name: string)
    requires i <= |incoming|
  {
    exists m :: 0 <= m < i && incoming[m].name == name && incoming[m].jump.Some?
  }

  /** Row `d` jumps through the record at `i`, and still does when that record's turn comes. */
  predicate StillThrough(conns: seq<Connection>, incoming: seq<SharedSsh>, i: nat, d: nat)
    requires i < |incoming| && d < |conns|
  {
    var row := Find(Ssh(), conns, incoming[i].name);
    row.Some? && conns[d].jump == Some(conns[row.value].id) && !ResetBefore(incoming, i, conns[d].name)
  }

  predicate BlockedAt(conns: seq<Connection>, incoming: seq<SharedSsh>, i: nat)
    requires i < |incoming|
  {
    incoming[i].jump.Some?
    && (HostJumps(conns, incoming[i].jump.value) || exists d :: 0 <= d < |conns| && StillThrough(conns, incoming, i, d))
  }

  /** What is in the table stands in the way of some record's jump host. */
  predicate Blocked(conns: seq<Connection>, incoming: seq<SharedSsh>) {
    exists i :: 0 <= i < |incoming| && BlockedAt(conns, incoming, i)
  }

  /** Rows whose turn has come have the bundle's jump host; the others have their own. */
  ghost predicate SettledRow(conns1: seq<Connection>, conns: seq<Connection>, ids: map<string, Id>,
                             incoming: seq<SharedSsh>, i: nat, k: nat)
    requires i <= |incoming| && k < |conns1| && k < |conns|
  {
    && (!ResetBefore(incoming, i, conns1[k].name) ==> conns[k].jump == conns1[k].jump)
    && forall m | 0 <= m < i && incoming[m].name == conns1[k].name && incoming[m].jump.Some? ::
         incoming[m].jump.value in ids && conns[k].jump == Some(ids[incoming[m].jump.value])
  }

  ghost predicate Settled(conns1: seq<Connection>, conns: seq<Connection>, ids: map<string, Id>,
                          incoming: seq<SharedSsh>, i: nat)
    requires i <= |incoming|
  {
    && SameButJumps(conns1, conns)
    && forall k {:trigger SettledRow(conns1, conns, ids, incoming, i, k)} | 0 <= k < |conns1| ::
         SettledRow(conns1, conns, ids, incoming, i, k)
  }

  /** No record of the bundle gives a jump host a jump host. */
  lemma HostNotReset(incoming: seq<SharedSsh>, i: nat, j: nat)
    requires Coherent(incoming) && i <= |incoming| && j < |incoming| && incoming[j].jump.None?
    ensures !ResetBefore(incoming, i, incoming[j].name)
  {
  }

  /** Different names are filed under different ids. */
  lemma FiledApart(conns1: seq<Connection>, conns: seq<Connection>, ids: map<string, Id>, incoming: seq<SharedSsh>,
                   i: nat, j: nat)
    requires WellNamed(incoming) && Filed(conns1, ids, incoming) && Sound(conns) && SameButJumps(conns1, conns)
    requires i < |incoming| && j < |incoming| && i != j
    ensures incoming[i].name in ids && incoming[j].name in ids && ids[incoming[i].name] != ids[incoming[j].name]
  {
    var a := RowOf(conns1, conns, ids, incoming[i].name);
    var b := RowOf(conns1, conns, ids, incoming[j].name);
    assert incoming[i].name != incoming[j].name;
  }

  lemma ThroughExactly(conns1: seq<Connection>, conns: seq<Connection>, ids: map<string, Id>, incoming: seq<SharedSsh>,
                       i: nat, row: nat, d: nat)
    requires Coherent(incoming) && Filed(conns1, ids, incoming) && Sound(conns) && i < |incoming|
    requires incoming[i].jump.Some?
    requires Settled(conns1, conns, ids, incoming, i) && d < |conns|
    requires Find(Ssh(), conns1, incoming[i].name) == Some(row) && row < |conns|
    requires conns1[row].id == ids[incoming[i].name]
    ensures conns[d].jump == Some(ids[incoming[i].name]) <==> StillThrough(conns1, incoming, i, d)
  {
    assert SettledRow(conns1, conns, ids, incoming, i, d);
    if ResetBefore(incoming, i, conns1[d].name) {
      var m :| 0 <= m < i && incoming[m].name == conns1[d].name && incoming[m].jump.Some?;
      var j := DirectPlace(incoming, incoming[m].jump.value);
      FiledApart(conns1, conns, ids, incoming, i, j);
    }
  }

  lemma DirectRow(conns: seq<Connection>, k: nat)
    requires Sound(conns) && k < |conns|
    ensures JumpIsDirect(conns, conns[k].id) <==> conns[k].jump.None?
  {
  }

  /** The jump host of a record is refused exactly when something in the table stands in its way. */
  lemma AttachDecides(conns1: seq<Connection>, conns: seq<Connection>, ids: map<string, Id>, incoming: seq<SharedSsh>,
                      i: nat)
    requires Coherent(incoming) && Filed(conns1, ids, incoming) && Sound(conns) && i < |incoming|
    requires Settled(conns1, conns, ids, incoming, i)
    ensures Attach(conns, ids, incoming[i]).None? <==> BlockedAt(conns1, incoming, i)
  {
    var x := incoming[i];
    if x.jump.Some? {
      var j := DirectPlace(incoming, x.jump.value);
      var row := RowOf(conns1, conns, ids, x.name);
      var target := RowOf(conns1, conns, ids, incoming[j].name);
      FiledApart(conns1, conns, ids, incoming, i, j);
      RefusedExactly(conns, row, conns[target].id);
      DirectRow(conns, target);
      HostStays(conns1, conns, ids, incoming, i, j, target);
      SameId(conns1, conns, x.name, row);
      forall d | 0 <= d < |conns| ensures conns[d].jump == Some(conns[row].id) <==>
        StillThrough(conns1, incoming, i, d) {
        ThroughExactly(conns1, conns, ids, incoming, i, row, d);
      }
    }
  }

  lemma SameId(conns1: seq<Connection>, conns: seq<Connection>, name: string, row: nat)
    requires SameButJumps(conns1, conns) && Find(Ssh(), conns, name) == Some(row)
    ensures Find(Ssh(), conns1, name) == Some(row) && conns1[row].id == conns[row].id
  {
    FindStays(conns1, conns, name);
    assert conns[row].(jump := None).id == conns1[row].(jump := None).id;
  }

  lemma HostStays(conns1: seq<Connection>, conns: seq<Connection>, ids: map<string, Id>, incoming: seq<SharedSsh>,
                  i: nat, j: nat, target: nat)
    requires i < |incoming| && Coherent(incoming) && Settled(conns1, conns, ids, incoming, i)
    requires j < |incoming| && incoming[j].jump.None? && Find(Ssh(), conns, incoming[j].name) == Some(target)
    ensures HostJumps(conns1, incoming[j].name) <==> conns[target].jump.Some?
  {
    FindStays(conns1, conns, incoming[j].name);
    assert SettledRow(conns1, conns, ids, incoming, i, target);
    HostNotReset(incoming, i, j);
  }

  lemma RefusedExactly(conns: seq<Connection>, row: nat, id: Id)
    requires Sound(conns) && row < |conns| && id != conns[row].id
    ensures Update(conns, conns[row].id, None, Some(Some(id))).Err? <==>
      !JumpIsDirect(conns, id) || exists d :: 0 <= d < |conns| && conns[d].jump == Some(conns[row].id)
  {
    IndexIs(conns, row);
    var c := conns[row].(jump := Some(id));
    assert Patched(conns[row], None, Some(Some(id))) == c;
    JumpAcceptedExactly(conns, c);
    assert (forall d <- conns :: d.jump != Some(c.id)) <==>
      !exists d :: 0 <= d < |conns| && conns[d].jump == Some(c.id);
  }

  /** One more record's turn has come. */
  lemma SettledOn(conns1: seq<Connection>, conns: seq<Connection>, ids: map<string, Id>, incoming: seq<SharedSsh>,
                  i: nat)
    requires Coherent(incoming) && Filed(conns1, ids, incoming) && Sound(conns) && i < |incoming|
    requires Settled(conns1, conns, ids, incoming, i) && Attach(conns, ids, incoming[i]).Some?
    ensures Settled(conns1, Attach(conns, ids, incoming[i]).value, ids, incoming, i + 1)
  {
    var x := incoming[i];
    var after := Attach(conns, ids, x).value;
    AttachChangesJumps(conns, ids, x);
    SameTwice(conns1, conns, after);
    var n := i + 1;
    forall k | 0 <= k < |conns1| ensures SettledRow(conns1, after, ids, incoming, n, k) {
      assert SettledRow(conns1, conns, ids, incoming, i, k);
      SettledRowOn(conns1, conns, ids, incoming, i, k);
    }
  }

  lemma SettledRowOn(conns1: seq<Connection>, conns: seq<Connection>, ids: map<string, Id>, incoming: seq<SharedSsh>,
                     i: nat, k: nat)
    requires Coherent(incoming) && Filed(conns1, ids, incoming) && Sound(conns) && SameButJumps(conns1, conns)
    requires i < |incoming| && k < |conns1| && SettledRow(conns1, conns, ids, incoming, i, k)
    requires Attach(conns, ids, incoming[i]).Some?
    requires |Attach(conns, ids, incoming[i]).value| == |conns|
    ensures SettledRow(conns1, Attach(conns, ids, incoming[i]).value, ids, incoming, i + 1, k)
  {
    var x := incoming[i];
    ResetOneMore(incoming, i, conns1[k].name);
    if x.jump.Some? {
      var j := DirectPlace(incoming, x.jump.value);
      var row := RowOf(conns1, conns, ids, x.name);
      var target := RowOf(conns1, conns, ids, incoming[j].name);
      AttachIs(conns, ids, x, row);
      SameId(conns1, conns, x.name, row);
      RowIsNamed(conns1, conns, x.name, row, k);
    }
  }

  lemma RowIsNamed(conns1: seq<Connection>, conns: seq<Connection>, name: string, row: nat, k: nat)
    requires Sound(conns) && SameButJumps(conns1, conns) && Find(Ssh(), conns, name) == Some(row) && k < |conns1|
    ensures conns1[k].name == name <==> k == row
  {
    assert conns[k].(jump := None).name == conns1[k].(jump := None).name;
  }

  lemma ResetOneMore(incoming: seq<SharedSsh>, i: nat, name: string)
    requires i < |incoming|
    ensures ResetBefore(incoming, i + 1, name) <==>
      ResetBefore(incoming, i, name) || (incoming[i].name == name && incoming[i].jump.Some?)
  {
    if ResetBefore(incoming, i + 1, name) && !(incoming[i].name == name && incoming[i].jump.Some?) {
      var m :| 0 <= m < i + 1 && incoming[m].name == name && incoming[m].jump.Some?;
      assert m < i;
    }
  }

  /** The first pass changes nothing of what stands in the way. */
  lemma BlockedBefore(conns0: seq<Connection>, conns1: seq<Connection>, incoming: seq<SharedSsh>, i: nat)
    requires Sound(conns0) && Sound(conns1) && JumpsKept(conns0, conns1) && i < |incoming|
    ensures BlockedAt(conns0, incoming, i) <==> BlockedAt(conns1, incoming, i)
  {
    var x := incoming[i];
    if x.jump.Some? {
      FoundBefore(conns0, conns1, x.jump.value);
      forall d | 0 <= d < |conns1|
        ensures StillThrough(conns1, incoming, i, d) <==> d < |conns0| && StillThrough(conns0, incoming, i, d)
      {
        FoundBefore(conns0, conns1, x.name);
        ThroughBefore(conns0, conns1, incoming, i, d);
      }
    }
  }

  lemma FoundBefore(conns0: seq<Connection>, conns1: seq<Connection>, name: string)
    requires JumpsKept(conns0, conns1)
    ensures Find(Ssh(), conns0, name).Some? ==> Find(Ssh(), conns1, name) == Find(Ssh(), conns0, name)
    ensures Find(Ssh(), conns0, name).None? && Find(Ssh(), conns1, name).Some? ==>
      Find(Ssh(), conns1, name).value >= |conns0|
  {
    if Find(Ssh(), conns0, name).Some? {
      FindIs(Ssh(), conns1, name, Find(Ssh(), conns0, name).value);
    }
  }

  lemma ThroughBefore(conns0: seq<Connection>, conns1: seq<Connection>, incoming: seq<SharedSsh>, i: nat, d: nat)
    requires Sound(conns0) && Sound(conns1) && JumpsKept(conns0, conns1) && i < |incoming| && d < |conns1|
    requires var a, b := Find(Ssh(), conns0, incoming[i].name), Find(Ssh(), conns1, incoming[i].name);
      if a.Some? then b == a else b.Some? ==> b.value >= |conns0|
    ensures StillThrough(conns1, incoming, i, d) <==> d < |conns0| && StillThrough(conns0, incoming, i, d)
  {
    if d < |conns0| && conns0[d].jump.Some? {
      assert JumpIsDirect(conns0, conns0[d].jump.value);
      var k :| 0 <= k < |conns0| && conns0[k].id == conns0[d].jump.value;
      assert conns1[k].id == conns0[k].id;
    }
  }

  /** The second pass has come this far, from the table the first one left. */
  ghost predicate Attaching(conns1: seq<Connection>, first: Id, ids: map<string, Id>, conns: seq<Connection>,
                            incoming: seq<SharedSsh>, i: nat) {
    && i <= |incoming| && SameButJumps(conns1, conns) && AttachedAll(conns1, ids, incoming[..i]) == Some(conns)
    && (WellNamed(incoming) && Filed(conns1, ids, incoming) ==> OthersKeepJumps(conns1, conns, incoming, i))
    && (WellNamed(incoming) && Filed(conns1, ids, incoming) ==>
      forall k | 0 <= k < i :: Jumped(conns, incoming, incoming[k]))
    && (WellNamed(incoming) && Filed(conns1, ids, incoming) && AllJumped(conns1, incoming) ==> conns == conns1)
    && (Coherent(incoming) && Filed(conns1, ids, incoming) && IsMirror(conns1, incoming, first, 0) ==>
      IsMirror(conns, incoming, first, i))
    && (Coherent(incoming) && Filed(conns1, ids, incoming) ==> Unblocked(conns1, conns, ids, incoming, i))
  }

  /** A row keeps its jump host unless a record of its name sets one. */
  predicate OthersKeepJumps(conns1: seq<Connection>, conns: seq<Connection>, incoming: seq<SharedSsh>, i: nat)
    requires i <= |incoming|
  {
    && |conns1| == |conns|
    && forall k | 0 <= k < |conns1| && !ResetBefore(incoming, i, conns1[k].name) :: conns[k].jump == conns1[k].jump
  }

  lemma OthersKeepOn(conns1: seq<Connection>, conns: seq<Connection>, ids: map<string, Id>, incoming: seq<SharedSsh>,
                     i: nat)
    requires WellNamed(incoming) && Filed(conns1, ids, incoming) && Sound(conns) && SameButJumps(conns1, conns)
    requires i < |incoming| && OthersKeepJumps(conns1, conns, incoming, i) && Attach(conns, ids, incoming[i]).Some?
    ensures OthersKeepJumps(conns1, Attach(conns, ids, incoming[i]).value, incoming, i + 1)
  {
    var x := incoming[i];
    var after := Attach(conns, ids, x).value;
    AttachChangesJumps(conns, ids, x);
    forall k | 0 <= k < |conns1| && !ResetBefore(incoming, i + 1, conns1[k].name)
      ensures after[k].jump == conns1[k].jump
    {
      ResetOneMore(incoming, i, conns1[k].name);
      if Attachable(ids, x) {
        var row := RowOf(conns1, conns, ids, x.name);
        AttachIs(conns, ids, x, row);
        RowIsNamed(conns1, conns, x.name, row, k);
      }
    }
  }

  /** Nothing stood in the way so far. */
  ghost predicate Unblocked(conns1: seq<Connection>, conns: seq<Connection>, ids: map<string, Id>,
                            incoming: seq<SharedSsh>, i: nat)
    requires i <= |incoming|
  {
    Settled(conns1, conns, ids, incoming, i) && forall m | 0 <= m < i :: !BlockedAt(conns1, incoming, m)
  }

  lemma UnblockedOn(conns1: seq<Connection>, conns: seq<Connection>, ids: map<string, Id>, incoming: seq<SharedSsh>,
                    i: nat)
    requires Coherent(incoming) && Filed(conns1, ids, incoming) && Sound(conns) && i < |incoming|
    requires Unblocked(conns1, conns, ids, incoming, i) && Attach(conns, ids, incoming[i]).Some?
    ensures Unblocked(conns1, Attach(conns, ids, incoming[i]).value, ids, incoming, i + 1)
  {
    SettledOn(conns1, conns, ids, incoming, i);
    AttachDecides(conns1, conns, ids, incoming, i);
  }

  lemma BlocksHere(conns1: seq<Connection>, conns: seq<Connection>, ids: map<string, Id>, incoming: seq<SharedSsh>,
                   i: nat)
    requires Coherent(incoming) && Filed(conns1, ids, incoming) && Sound(conns) && i < |incoming|
    requires Unblocked(conns1, conns, ids, incoming, i) && Attach(conns, ids, incoming[i]).None?
    ensures Blocked(conns1, incoming)
  {
    AttachDecides(conns1, conns, ids, incoming, i);
  }

  lemma AttachesOn(conns1: seq<Connection>, first: Id, ids: map<string, Id>, conns: seq<Connection>,
                   incoming: seq<SharedSsh>, i: nat)
    requires i < |incoming| && Attaching(conns1, first, ids, conns, incoming, i) && Sound(conns)
    requires Attach(conns, ids, incoming[i]).Some?
    ensures Attaching(conns1, first, ids, Attach(conns, ids, incoming[i]).value, incoming, i + 1)
  {
    AttachChangesJumps(conns, ids, incoming[i]);
    SameTwice(conns1, conns, Attach(conns, ids, incoming[i]).value);
    AttachedOn(conns1, ids, incoming, i);
    if WellNamed(incoming) && Filed(conns1, ids, incoming) {
      OthersKeepOn(conns1, conns, ids, incoming, i);
      forall m | 0 <= m < i + 1 ensures Jumped(Attach(conns, ids, incoming[i]).value, incoming, incoming[m]) {
        AttachJumps(conns1, conns, ids, incoming, i, m);
      }
      if AllJumped(conns1, incoming) {
        AttachAgain(conns, ids, incoming, i);
      }
    }
    if Coherent(incoming) && Filed(conns1, ids, incoming) {
      UnblockedOn(conns1, conns, ids, incoming, i);
      if IsMirror(conns1, incoming, first, 0) {
        MirrorAttaches(conns1, conns, first, ids, incoming, i);
      }
    }
  }

  lemma AttachStops(conns1: seq<Connection>, first: Id, ids: map<string, Id>, conns: seq<Connection>,
                    incoming: seq<SharedSsh>, i: nat)
    requires i < |incoming| && Attaching(conns1, first, ids, conns, incoming, i) && Sound(conns)
    requires Attach(conns, ids, incoming[i]).None?
    ensures CannotAttach(conns1, first, ids, incoming)
  {
    if WellNamed(incoming) && Filed(conns1, ids, incoming) && AllJumped(conns1, incoming) {
      AttachAgain(conns, ids, incoming, i);
    }
    if Coherent(incoming) && Filed(conns1, ids, incoming) {
      BlocksHere(conns1, conns, ids, incoming, i);
      if IsMirror(conns1, incoming, first, 0) {
        MirrorAttaches(conns1, conns, first, ids, incoming, i);
      }
    }
  }

  /**
   Neither jump hosts that are all attached already, nor those of a coherent bundle in the
   table it made. If the bundle is coherent, something in the table stands in its way.
   */
  ghost predicate CannotAttach(conns1: seq<Connection>, first: Id, ids: map<string, Id>, incoming: seq<SharedSsh>) {
    && !(WellNamed(incoming) && Filed(conns1, ids, incoming) && AllJumped(conns1, incoming))
    && !(Coherent(incoming) && Filed(conns1, ids, incoming) && IsMirror(conns1, incoming, first, 0))
    && (Coherent(incoming) && Filed(conns1, ids, incoming) ==> Blocked(conns1, incoming))
  }

  lemma AttachingSame(conns1: seq<Connection>, first: Id, ids: map<string, Id>, conns: seq<Connection>,
                      incoming: seq<SharedSsh>, i: nat)
    requires Attaching(conns1, first, ids, conns, incoming, i)
    ensures SameButJumps(conns1, conns)
  {
  }

  method AttachOne(store: Store, ids: map<string, Id>, x: SharedSsh) returns (r: Option<SshError>)
    requires store.Valid()
    modifies store`conns
    ensures store.Valid()
    ensures match Attach(old(store.conns), ids, x)
      case None => r.Some? && r == AttachError(old(store.conns), ids, x) && store.conns == old(store.conns)
      case Some(after) => r.None? && store.conns == after
  {
    r := None;
    if Attachable(ids, x) {
      r := store.UpdateSsh(ids[x.name], None, Some(Some(ids[x.jump.value])));
    }
  }

  /** One turn of the second pass. */
  method AttachStep(store: Store, ids: map<string, Id>, incoming: seq<SharedSsh>, i: nat,
                    ghost conns1: seq<Connection>, ghost first: Id)
    returns (refused: Option<SshError>)
    requires store.Valid() && i < |incoming| && Attaching(conns1, first, ids, store.conns, incoming, i)
    modifies store`conns
    ensures store.Valid()
    ensures refused.None? ==> Attaching(conns1, first, ids, store.conns, incoming, i + 1)
    ensures refused.Some? ==> SameButJumps(conns1, store.conns) && CannotAttach(conns1, first, ids, incoming)
    ensures refused.Some? ==> AttachStopsAt(conns1, ids, store.conns, incoming, i, refused.value)
  {
    ghost var before := store.conns;
    refused := AttachOne(store, ids, incoming[i]);
    if refused.Some? {
      AttachStops(conns1, first, ids, before, incoming, i);
      AttachingSame(conns1, first, ids, before, incoming, i);
    } else {
      AttachesOn(conns1, first, ids, before, incoming, i);
    }
  }

  /** The second pass: the names whose jump host the bundle does not carry, or the first refusal. */
  method AttachAll(store: Store, ids: map<string, Id>, incoming: seq<SharedSsh>, ghost first: Id)
    returns (r: Result<seq<string>, SshError>)
    requires store.Valid()
    modifies store`conns
    ensures store.Valid() && SameButJumps(old(store.conns), store.conns)
    ensures r.Ok? ==> Attaching(old(store.conns), first, ids, store.conns, incoming, |incoming|)
    ensures r.Ok? ==> r.value == OrphanJumps(ids, incoming)
    ensures r.Err? ==> CannotAttach(old(store.conns), first, ids, incoming)
    ensures r.Err? ==> exists i :: AttachStopsAt(old(store.conns), ids, store.conns, incoming, i, r.error)
  {
    var orphans: seq<string> := [];
    StartAttaching(store.conns, first, ids, incoming);
    for i := 0 to |incoming|
      invariant store.Valid() && Attaching(old(store.conns), first, ids, store.conns, incoming, i)
      invariant orphans == OrphanJumps(ids, incoming[..i])
    {
      assert incoming[..i + 1][..i] == incoming[..i];
      if incoming[i].jump.Some? && !Attachable(ids, incoming[i]) {
        orphans := orphans + [incoming[i].name];
      }
      var refused := AttachStep(store, ids, incoming, i, old(store.conns), first);
      if refused.Some? {
        return Err(refused.value);
      }
    }
    AttachingSame(old(store.conns), first, ids, store.conns, incoming, |incoming|);
    assert incoming[..|incoming|] == incoming;
    r := Ok(orphans);
  }

  lemma StartAttaching(conns: seq<Connection>, first: Id, ids: map<string, Id>, incoming: seq<SharedSsh>)
    ensures Attaching(conns, first, ids, conns, incoming, 0)
  {
  }

  // ── Both passes ──

  /** Nothing is removed, renamed or renumbered by the second pass. */
  lemma SameIsKept(before: seq<Connection>, after: seq<Connection>)
    requires SameButJumps(before, after)
    ensures Kept(Ssh(), before, after)
  {
    forall k | 0 <= k < |before| ensures after[k].id == before[k].id && after[k].name == before[k].name {
      assert after[k].(jump := None).id == before[k].(jump := None).id;
      assert after[k].(jump := None).name == before[k].(jump := None).name;
    }
  }

  lemma AppliedUnderJumps(before: seq<Connection>, after: seq<Connection>, incoming: seq<SharedSsh>)
    requires SameButJumps(before, after) && RecordsApplied(before, incoming)
    ensures RecordsApplied(after, incoming)
  {
    forall k | 0 <= k < |incoming| ensures Applied(Ssh(), after, incoming[k]) {
      FindStays(before, after, incoming[k].name);
      var m := Find(Ssh(), before, incoming[k].name).value;
      assert after[m].(jump := None).endpoint == before[m].(jump := None).endpoint;
    }
  }

  lemma FiledAtEnd(conns: seq<Connection>, ids: map<string, Id>, incoming: seq<SharedSsh>)
    requires ImportFiles(conns, ids, incoming, |incoming|) && ImportApplies(conns, ids, incoming, |incoming|)
    ensures WellNamed(incoming) ==> Filed(conns, ids, incoming) && RecordsApplied(conns, incoming)
  {
    assert incoming[..|incoming|] == incoming;
  }

  lemma FilesUnderJumps(before: seq<Connection>, after: seq<Connection>, ids: map<string, Id>, incoming: seq<SharedSsh>)
    requires SameButJumps(before, after) && Filed(before, ids, incoming)
    ensures Filed(after, ids, incoming)
  {
    SameIsKept(before, after);
    forall k | 0 <= k < |incoming| ensures Files(after, ids, incoming[k].name) {
      FilesStay(before, after, ids, ids, incoming[k].name);
    }
  }

  lemma BlockedSame(conns0: seq<Connection>, conns1: seq<Connection>, incoming: seq<SharedSsh>)
    requires Sound(conns0) && Sound(conns1) && JumpsKept(conns0, conns1)
    ensures Blocked(conns0, incoming) <==> Blocked(conns1, incoming)
  {
    forall i | 0 <= i < |incoming| ensures BlockedAt(conns0, incoming, i) <==> BlockedAt(conns1, incoming, i) {
      BlockedBefore(conns0, conns1, incoming, i);
    }
  }

  /** The names of the bundle, and no others, lead to connections that are there. */
  ghost predicate NamesLead(conns: seq<Connection>, ids: map<string, Id>, incoming: seq<SharedSsh>) {
    && (forall name :: name in ids <==> InBundle(incoming, name))
    && forall name | name in ids :: HasId(conns, ids[name])
  }

  ghost predicate TidyIn(conns0: seq<Connection>, conns: seq<Connection>, ids: map<string, Id>,
                         incoming: seq<SharedSsh>) {
    && SshApplied(conns, incoming) && Filed(conns, ids, incoming)
    && (SshApplied(conns0, incoming) ==> conns == conns0)
  }

  /** Exactly what the two passes come to. */
  ghost predicate SshRan(conns0: seq<Connection>, first: Id, ids: map<string, Id>, conns: seq<Connection>,
                         incoming: seq<SharedSsh>) {
    ids == Filing(conns0, first, incoming) && match All(Ssh(), conns0, first, incoming)
      case None => false
      case Some((between, _)) => AttachedAll(between, ids, incoming) == Some(conns)
  }

  ghost predicate SecondStops(conns0: seq<Connection>, first: Id, conns: seq<Connection>, incoming: seq<SharedSsh>,
                              i: nat, e: SshError) {
    match All(Ssh(), conns0, first, incoming)
    case None => false
    case Some((between, _)) => AttachStopsAt(between, Filing(conns0, first, incoming), conns, incoming, i, e)
  }

  /** The first or the second pass stops at a record, with what was done before it left in place. */
  ghost predicate SshStopped(conns0: seq<Connection>, first: Id, conns: seq<Connection>, incoming: seq<SharedSsh>,
                             e: SshError) {
    (exists i :: StopsAt(conns0, first, conns, incoming, i, e))
    || exists i :: SecondStops(conns0, first, conns, incoming, i, e)
  }

  /**
   What the bundle does not speak of: rows of other names stay as they were, and no row gets
   a jump host that no record of its name sets.
   */
  predicate SshRest(conns0: seq<Connection>, conns: seq<Connection>, incoming: seq<SharedSsh>) {
    && |conns0| <= |conns|
    && (forall k | 0 <= k < |conns0| && !InBundle(incoming, conns0[k].name) :: conns[k] == conns0[k])
    && forall k | 0 <= k < |conns| && !ResetBefore(incoming, |incoming|, conns[k].name) ::
         conns[k].jump == if k < |conns0| then conns0[k].jump else None
  }

  lemma NamesOfRows(conns1: seq<Connection>, conns: seq<Connection>, k: nat)
    requires SameButJumps(conns1, conns) && k < |conns|
    ensures conns[k].id == conns1[k].id && conns[k].name == conns1[k].name && conns[k].endpoint == conns1[k].endpoint
    ensures conns[k].jump == conns1[k].jump ==> conns[k] == conns1[k]
  {
    assert conns[k].(jump := None) == conns1[k].(jump := None);
    assert conns[k].(jump := None).id == conns[k].id && conns1[k].(jump := None).id == conns1[k].id;
    assert conns[k].(jump := None).name == conns[k].name && conns1[k].(jump := None).name == conns1[k].name;
    assert conns[k].(jump := None).endpoint == conns[k].endpoint;
    assert conns1[k].(jump := None).endpoint == conns1[k].endpoint;
  }

  lemma RestStays(conns0: seq<Connection>, conns1: seq<Connection>, conns: seq<Connection>, incoming: seq<SharedSsh>)
    requires JumpsKept(conns0, conns1) && OthersStay(Ssh(), conns0, conns1, incoming)
    requires SameButJumps(conns1, conns) && OthersKeepJumps(conns1, conns, incoming, |incoming|)
    ensures SshRest(conns0, conns, incoming)
  {
    forall k | 0 <= k < |conns0| && !InBundle(incoming, conns0[k].name) ensures conns[k] == conns0[k] {
      NamesOfRows(conns1, conns, k);
      assert Unnamed(Ssh(), conns0[k], incoming);
    }
    forall k | 0 <= k < |conns| && !ResetBefore(incoming, |incoming|, conns[k].name)
      ensures conns[k].jump == if k < |conns0| then conns0[k].jump else None
    {
      NamesOfRows(conns1, conns, k);
    }
  }

  /** What came of the import: of both passes, or of the first alone. */
  ghost predicate SshImported(r: Result<map<string, Id>, SshError>, conns0: seq<Connection>, first: Id,
                              conns: seq<Connection>, incoming: seq<SharedSsh>) {
    match r
    case Err(e) =>
      && Kept(Ssh(), conns0, conns) && SshStopped(conns0, first, conns, incoming, e)
      && !(WellNamed(incoming) && SshApplied(conns0, incoming))
      && (Coherent(incoming) ==> Blocked(conns0, incoming) && conns0 != [])
    case Ok(ids) =>
      && Kept(Ssh(), conns0, conns) && NamesLead(conns, ids, incoming) && SshRan(conns0, first, ids, conns, incoming)
      && (WellNamed(incoming) ==> TidyIn(conns0, conns, ids, incoming) && SshRest(conns0, conns, incoming))
      && (Coherent(incoming) ==> !Blocked(conns0, incoming))
      && (Coherent(incoming) && conns0 == [] ==> IsMirror(conns, incoming, first, |incoming|))
  }

  lemma IdsStay(conns1: seq<Connection>, conns: seq<Connection>, ids: map<string, Id>)
    requires Kept(Ssh(), conns1, conns) && forall name | name in ids :: HasId(conns1, ids[name])
    ensures forall name | name in ids :: HasId(conns, ids[name])
  {
    forall name | name in ids ensures HasId(conns, ids[name]) {
      HasIdStays(conns1, conns, ids[name]);
    }
  }

  lemma BothApplied(conns0: seq<Connection>, conns1: seq<Connection>, first: Id, ids: map<string, Id>,
                    conns: seq<Connection>,
                    incoming: seq<SharedSsh>)
    requires Attaching(conns1, first, ids, conns, incoming, |incoming|) && WellNamed(incoming)
    requires Filed(conns1, ids, incoming) && RecordsApplied(conns1, incoming)
    requires RecordsApplied(conns0, incoming) ==> conns1 == conns0
    ensures TidyIn(conns0, conns, ids, incoming)
  {
    AppliedUnderJumps(conns1, conns, incoming);
    FilesUnderJumps(conns1, conns, ids, incoming);
  }

  lemma NeverBlocked(conns0: seq<Connection>, conns1: seq<Connection>, first: Id, ids: map<string, Id>,
                     conns: seq<Connection>,
                     incoming: seq<SharedSsh>)
    requires Sound(conns0) && Sound(conns1) && JumpsKept(conns0, conns1) && Coherent(incoming)
    requires Filed(conns1, ids, incoming)
    requires Attaching(conns1, first, ids, conns, incoming, |incoming|)
    ensures !Blocked(conns0, incoming)
  {
    BlockedSame(conns0, conns1, incoming);
  }

  lemma SecondPassDone(r: Result<map<string, Id>, SshError>, conns0: seq<Connection>, first: Id,
                       conns1: seq<Connection>, next: Id,
                       ids: map<string, Id>, conns: seq<Connection>, incoming: seq<SharedSsh>)
    requires Sound(conns0) && Sound(conns1) && Importing(conns0, first, conns1, next, ids, incoming, |incoming|)
    requires Attaching(conns1, first, ids, conns, incoming, |incoming|) && r == Ok(ids)
    ensures SshImported(r, conns0, first, conns, incoming)
  {
    assert incoming[..|incoming|] == incoming;
    FiledAtEnd(conns1, ids, incoming);
    SameIsKept(conns1, conns);
    KeptTwice(Ssh(), conns0, conns1, conns);
    IdsStay(conns1, conns, ids);
    if WellNamed(incoming) {
      BothApplied(conns0, conns1, first, ids, conns, incoming);
      RestStays(conns0, conns1, conns, incoming);
      if Coherent(incoming) {
        NeverBlocked(conns0, conns1, first, ids, conns, incoming);
      }
    }
  }

  lemma SecondPassStopped(r: Result<map<string, Id>, SshError>, conns0: seq<Connection>, first: Id,
                          conns1: seq<Connection>, next: Id,
                          ids: map<string, Id>, conns: seq<Connection>, incoming: seq<SharedSsh>)
    requires Sound(conns0) && Sound(conns1) && Importing(conns0, first, conns1, next, ids, incoming, |incoming|)
    requires SameButJumps(conns1, conns) && CannotAttach(conns1, first, ids, incoming) && r.Err?
    requires exists i :: AttachStopsAt(conns1, ids, conns, incoming, i, r.error)
    ensures SshImported(r, conns0, first, conns, incoming)
  {
    assert incoming[..|incoming|] == incoming;
    FiledAtEnd(conns1, ids, incoming);
    SameIsKept(conns1, conns);
    KeptTwice(Ssh(), conns0, conns1, conns);
    BlockedSame(conns0, conns1, incoming);
    var i :| AttachStopsAt(conns1, ids, conns, incoming, i, r.error);
    assert SecondStops(conns0, first, conns, incoming, i, r.error);
  }

  /**
   `import_ssh_connections`. It never removes, renames or renumbers a record. When it
   succeeds, every record and every jump host of the bundle is there; doing it again changes
   nothing; and an empty store takes in any coherent bundle, record for record, in whatever
   order it lists them. A store that is not empty refuses a coherent bundle exactly when
   something in it stands in the way of a jump host, and that does depend on the order.
   */
  method ImportSsh(store: Store, incoming: seq<SharedSsh>) returns (r: Result<map<string, Id>, SshError>)
    requires store.Valid()
    modifies store`conns, store`nextId
    ensures store.Valid() && SshImported(r, old(store.conns), old(store.nextId), store.conns, incoming)
  {
    ghost var conns0, first := store.conns, store.nextId;
    var refused, ids := ImportRecords(store, incoming);
    if refused.Some? {
      r := Err(refused.value);
      return;
    }
    ghost var between, next := store.conns, store.nextId;
    var orphans := AttachAll(store, ids, incoming, first);
    if orphans.Err? {
      r := Err(orphans.error);
      SecondPassStopped(r, conns0, first, between, next, ids, store.conns, incoming);
    } else {
      r := Ok(ids);
      SecondPassDone(r, conns0, first, between, next, ids, store.conns, incoming);
    }
  }

  /**
   A local jump host can stand in the way. Here `a` jumps through `b` on this machine; the
   bundle makes `b` jump through `a`, and `a` direct. The first pass keeps the local jump,
   so the second is refused.
   */
  lemma LocalJumpBlocksBundle(a: Endpoint, b: Endpoint)
    requires Unusable(a).None? && Unusable(b).None?
    ensures var incoming := [SharedSsh("a", a, None), SharedSsh("b", b, Some("a"))];
      var conns := [Connection(0, "a", a, Some(1)), Connection(1, "b", b, None)];
      Coherent(incoming) && Sound(conns) && Blocked(conns, incoming)
  {
    var incoming := [SharedSsh("a", a, None), SharedSsh("b", b, Some("a"))];
    var conns := [Connection(0, "a", a, Some(1)), Connection(1, "b", b, None)];
    assert Tidy(incoming[0]) && Tidy(incoming[1]) && Writable(incoming[0]) && Writable(incoming[1]);
    assert incoming[0].jump.None?;
    assert DirectIn(incoming, "a");
    assert conns[1].id == 1 && conns[1].jump.None?;
    assert JumpIsDirect(conns, 1);
    FindIs(Ssh(), conns, "a", 0);
    assert BlockedAt(conns, incoming, 1);
  }
}
