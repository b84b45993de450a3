/**
 Creating or updating rows by key, over a list of incoming records.

 An import does this to four tables. What a table does to a row is given by a `Table`;
 everything here holds of any table whose rules meet `Lawful`.
 */
module Upserts {
  import opened Common

  type Id = nat

  datatype Table<!R, !I, !K, !E> = Table(
    keyOf: R -> K,
    idOf: R -> Id,
    wanted: I -> K,
    make: (I, Id) -> R,
    patch: (R, I) -> R,
    refuses: (seq<R>, R) -> Option<E>)

  function Find<R, I, K(==), E>(t: Table<R, I, K, E>, rows: seq<R>, key: K): (r: Option<nat>)
    ensures r.Some? ==>
      r.value < |rows| && t.keyOf(rows[r.value]) == key && forall j | 0 <= j < r.value :: t.keyOf(rows[j]) != key
    ensures r.None? ==> forall j | 0 <= j < |rows| :: t.keyOf(rows[j]) != key
  {
    if rows == [] then None
    else if t.keyOf(rows[0]) == key then Some(0)
    else match Find(t, rows[1..], key) case None => None case Some(k) => Some(k + 1)
  }

  lemma {:induction false} FindIs<R, I, K, E>(t: Table<R, I, K, E>, rows: seq<R>, key: K, k: nat)
    requires k < |rows| && t.keyOf(rows[k]) == key && forall j | 0 <= j < k :: t.keyOf(rows[j]) != key
    ensures Find(t, rows, key) == Some(k)
  {
    if k > 0 {
      FindIs(t, rows[1..], key, k - 1);
    }
  }

  /**
   Updates the row with the wanted key, or creates it. A row the table refuses, or whose key is
   taken, is not written.
   */
  function One<R, I, K(==), E>(t: Table<R, I, K, E>, rows: seq<R>, next: Id, i: I): Option<seq<R>> {
    match Find(t, rows, t.wanted(i))
    case Some(k) => if t.refuses(rows, t.patch(rows[k], i)).Some? then None else Some(rows[k := t.patch(rows[k], i)])
    case None =>
      var row := t.make(i, next);
      if t.refuses(rows, row).Some? || Find(t, rows, t.keyOf(row)).Some? then None else Some(rows + [row])
  }

  function NextAfter<R, I, K(==), E>(t: Table<R, I, K, E>, rows: seq<R>, next: Id, i: I): Id {
    if Find(t, rows, t.wanted(i)).Some? then next else next + 1
  }

  ghost predicate Lawful<R(!new), I(!new), K, E>(t: Table<R, I, K, E>) {
    && (forall r: R, i: I :: t.keyOf(t.patch(r, i)) == t.keyOf(r) && t.idOf(t.patch(r, i)) == t.idOf(r))
    && (forall i: I, id: Id :: t.idOf(t.make(i, id)) == id)
    && (forall r: R, i: I :: t.patch(t.patch(r, i), i) == t.patch(r, i))
    && (forall i: I, id: Id :: t.patch(t.make(i, id), i) == t.make(i, id))
  }

  /** Nothing is removed, moved, renamed or renumbered. */
  ghost predicate Kept<R, I, K, E>(t: Table<R, I, K, E>, before: seq<R>, after: seq<R>) {
    && |before| <= |after|
    && forall k | 0 <= k < |before| :: t.idOf(after[k]) == t.idOf(before[k]) && t.keyOf(after[k]) == t.keyOf(before[k])
  }

  lemma OneKeeps<R(!new), I(!new), K, E>(t: Table<R, I, K, E>, rows: seq<R>, next: Id, i: I)
    requires Lawful(t)
    ensures One(t, rows, next, i).Some? ==> Kept(t, rows, One(t, rows, next, i).value)
  {
  }

  lemma KeptTwice<R, I, K, E>(t: Table<R, I, K, E>, a: seq<R>, b: seq<R>, c: seq<R>)
    requires Kept(t, a, b) && Kept(t, b, c)
    ensures Kept(t, a, c)
  {
  }

  /** The incoming record is in the table: patching its row with it changes nothing. */
  ghost predicate Applied<R, I, K, E>(t: Table<R, I, K, E>, rows: seq<R>, i: I) {
    match Find(t, rows, t.wanted(i))
    case None => false
    case Some(k) => t.patch(rows[k], i) == rows[k]
  }

  /** A record written under its own key is then in the table. */
  lemma OneApplies<R(!new), I(!new), K, E>(t: Table<R, I, K, E>, rows: seq<R>, next: Id, i: I)
    requires Lawful(t) && t.keyOf(t.make(i, next)) == t.wanted(i) && One(t, rows, next, i).Some?
    ensures Applied(t, One(t, rows, next, i).value, i)
  {
    var after := One(t, rows, next, i).value;
    var k := match Find(t, rows, t.wanted(i)) case Some(k) => k case None => |rows|;
    FindIs(t, after, t.wanted(i), k);
  }

  /** Writing one record leaves the records of other keys in the table. */
  lemma OneLeavesOthers<R(!new), I(!new), K, E>(t: Table<R, I, K, E>, rows: seq<R>, next: Id, i: I, other: I)
    requires Lawful(t) && One(t, rows, next, i).Some?
    requires Applied(t, rows, other) && t.wanted(other) != t.wanted(i)
    ensures Applied(t, One(t, rows, next, i).value, other)
  {
    var after := One(t, rows, next, i).value;
    var k := Find(t, rows, t.wanted(other)).value;
    assert after[k] == rows[k] && forall j | 0 <= j < k :: t.keyOf(after[j]) == t.keyOf(rows[j]);
    FindIs(t, after, t.wanted(other), k);
  }

  /** Writing a record that is already in the table changes nothing. */
  lemma OneAgain<R(!new), I(!new), K, E>(t: Table<R, I, K, E>, rows: seq<R>, next: Id, i: I)
    requires Applied(t, rows, i)
    ensures NextAfter(t, rows, next, i) == next
    ensures One(t, rows, next, i).Some? ==> One(t, rows, next, i).value == rows
    ensures One(t, rows, next, i).Some? <==> t.refuses(rows, rows[Find(t, rows, t.wanted(i)).value]).None?
  {
  }

  /** A record with a new key, written under it, is added at the end. */
  lemma OneAdds<R(!new), I(!new), K, E>(t: Table<R, I, K, E>, rows: seq<R>, next: Id, i: I)
    requires forall k | 0 <= k < |rows| :: t.keyOf(rows[k]) != t.wanted(i)
    requires t.keyOf(t.make(i, next)) == t.wanted(i) && t.refuses(rows, t.make(i, next)).None?
    ensures One(t, rows, next, i) == Some(rows + [t.make(i, next)]) && NextAfter(t, rows, next, i) == next + 1
  {
  }

  // ── A whole list ──

  /** Record after record; `None` as soon as one is refused. */
  ghost function All<R(!new), I(!new), K, E>(t: Table<R, I, K, E>, rows: seq<R>, next: Id,
                                                        list: seq<I>): Option<(seq<R>, Id)>
    decreases |list|
  {
    if list == [] then Some((rows, next))
    else match All(t, rows, next, list[..|list| - 1])
      case None => None
      case Some((r, n)) =>
        match One(t, r, n, list[|list| - 1])
        case None => None
        case Some(after) => Some((after, NextAfter(t, r, n, list[|list| - 1])))
  }

  lemma AllOn<R(!new), I(!new), K, E>(t: Table<R, I, K, E>, rows: seq<R>, next: Id, list: seq<I>, x: I,
                                                  r: seq<R>, n: Id)
    requires All(t, rows, next, list) == Some((r, n))
    ensures All(t, rows, next, list + [x]) ==
      match One(t, r, n, x) case None => None case Some(after) => Some((after, NextAfter(t, r, n, x)))
  {
    assert (list + [x])[..|list|] == list;
  }

  /** A row whose key no record of the list is for. */
  ghost predicate Unnamed<R, I, K, E>(t: Table<R, I, K, E>, row: R, list: seq<I>) {
    forall k | 0 <= k < |list| :: t.wanted(list[k]) != t.keyOf(row)
  }

  /** Such rows stay exactly as they were. */
  ghost predicate OthersStay<R, I, K, E>(t: Table<R, I, K, E>, before: seq<R>, after: seq<R>, list: seq<I>) {
    |before| <= |after| && forall k | 0 <= k < |before| && Unnamed(t, before[k], list) :: after[k] == before[k]
  }

  lemma OthersStayOn<R(!new), I(!new), K, E>(t: Table<R, I, K, E>, rows0: seq<R>, rows: seq<R>, next: Id,
                                             done: seq<I>, x: I)
    requires OthersStay(t, rows0, rows, done) && One(t, rows, next, x).Some?
    ensures OthersStay(t, rows0, One(t, rows, next, x).value, done + [x])
  {
    var after := One(t, rows, next, x).value;
    forall k | 0 <= k < |rows0| && Unnamed(t, rows0[k], done + [x]) ensures after[k] == rows0[k] {
      assert (done + [x])[|done|] == x && forall j | 0 <= j < |done| :: (done + [x])[j] == done[j];
    }
  }

  lemma {:induction false} AllLeavesOthers<R(!new), I(!new), K, E>(t: Table<R, I, K, E>, rows: seq<R>, next: Id,
                                                                   list: seq<I>)
    requires All(t, rows, next, list).Some?
    ensures OthersStay(t, rows, All(t, rows, next, list).value.0, list)
    decreases |list|
  {
    if list != [] {
      var init, x := list[..|list| - 1], list[|list| - 1];
      AllLeavesOthers(t, rows, next, init);
      var (r, n) := All(t, rows, next, init).value;
      OthersStayOn(t, rows, r, n, init, x);
      assert init + [x] == list;
    }
  }

  /** Ids and keys are unique, and the next id is not used. */
  ghost predicate Unique<R, I, K, E>(t: Table<R, I, K, E>, rows: seq<R>, next: Id) {
    && (forall i, j | 0 <= i < j < |rows| :: t.keyOf(rows[i]) != t.keyOf(rows[j]) && t.idOf(rows[i]) != t.idOf(rows[j]))
    && (forall i | 0 <= i < |rows| :: t.idOf(rows[i]) < next)
  }

  lemma OneStaysUnique<R(!new), I(!new), K, E>(t: Table<R, I, K, E>, rows: seq<R>, next: Id, i: I)
    requires Lawful(t) && Unique(t, rows, next) && One(t, rows, next, i).Some?
    ensures Unique(t, One(t, rows, next, i).value, NextAfter(t, rows, next, i))
  {
  }

  /** The records have keys of their own, and are written under them. */
  ghost predicate Separate<R, I(!new), K, E>(t: Table<R, I, K, E>, list: seq<I>) {
    && (forall i, j | 0 <= i < j < |list| :: t.wanted(list[i]) != t.wanted(list[j]))
    && forall i | 0 <= i < |list| :: OwnKey(t, list[i])
  }

  ghost predicate OwnKey<R, I, K, E>(t: Table<R, I, K, E>, x: I) {
    forall id: Id :: t.keyOf(t.make(x, id)) == t.wanted(x)
  }

  ghost predicate AllApplied<R, I, K, E>(t: Table<R, I, K, E>, rows: seq<R>, list: seq<I>) {
    forall k | 0 <= k < |list| :: Applied(t, rows, list[k])
  }

  /** Row for row what the list makes. */
  ghost predicate Made<R, I, K, E>(t: Table<R, I, K, E>, rows: seq<R>, first: Id, list: seq<I>) {
    |rows| == |list| && forall k | 0 <= k < |list| :: rows[k] == t.make(list[k], first + k)
  }

  /** Where writing the list `done` has brought a table. */
  ghost predicate Written<R(!new), I(!new), K,
    E>(t: Table<R, I, K, E>, rows0: seq<R>, next0: Id, rows: seq<R>, next: Id, done: seq<I>) {
    && Kept(t, rows0, rows) && OthersStay(t, rows0, rows, done)
    && All(t, rows0, next0, done) == Some((rows, next))
    && (Separate(t, done) ==> AllApplied(t, rows, done))
    && (AllApplied(t, rows0, done) ==> rows == rows0 && next == next0)
    && (rows0 == [] && Separate(t, done) ==> Made(t, rows, next0, done) && next == next0 + |done|)
  }

  lemma StartWriting<R(!new), I(!new), K, E>(t: Table<R, I, K, E>, rows: seq<R>, next: Id)
    ensures Written(t, rows, next, rows, next, [])
  {
  }

  lemma SeparateInit<R, I(!new), K, E>(t: Table<R, I, K, E>, done: seq<I>, x: I)
    requires Separate(t, done + [x])
    ensures Separate(t, done) && OwnKey(t, x) && forall k | 0 <= k < |done| :: t.wanted(done[k]) != t.wanted(x)
  {
    var all := done + [x];
    assert forall k | 0 <= k < |done| :: all[k] == done[k];
    assert all[|done|] == x;
  }

  lemma WritesOn<R(!new), I(!new), K,
    E>(t: Table<R, I, K, E>, rows0: seq<R>, next0: Id, rows: seq<R>, next: Id, done: seq<I>, x: I)
    requires Lawful(t) && Written(t, rows0, next0, rows, next, done) && One(t, rows, next, x).Some?
    ensures Written(t, rows0, next0, One(t, rows, next, x).value, NextAfter(t, rows, next, x), done + [x])
  {
    var after := One(t, rows, next, x).value;
    var all := done + [x];
    OneKeeps(t, rows, next, x);
    KeptTwice(t, rows0, rows, after);
    OthersStayOn(t, rows0, rows, next, done, x);
    AllOn(t, rows0, next0, done, x, rows, next);
    if Separate(t, all) {
      SeparateInit(t, done, x);
      AppliesOn(t, rows, next, done, x);
      if rows0 == [] {
        MadeOn(t, rows, next0, next, done, x);
      }
    }
    if AllApplied(t, rows0, all) {
      AppliedInit(t, rows0, done, x);
      OneAgain(t, rows, next, x);
    }
  }

  lemma AppliedInit<R, I, K, E>(t: Table<R, I, K, E>, rows: seq<R>, done: seq<I>, x: I)
    requires AllApplied(t, rows, done + [x])
    ensures AllApplied(t, rows, done) && Applied(t, rows, x)
  {
    assert forall k | 0 <= k < |done| :: (done + [x])[k] == done[k];
    assert (done + [x])[|done|] == x;
  }

  lemma AppliesOn<R(!new), I(!new), K, E>(t: Table<R, I, K, E>, rows: seq<R>, next: Id, done: seq<I>, x: I)
    requires Lawful(t) && AllApplied(t, rows, done) && One(t, rows, next, x).Some? && OwnKey(t, x)
    requires forall k | 0 <= k < |done| :: t.wanted(done[k]) != t.wanted(x)
    ensures AllApplied(t, One(t, rows, next, x).value, done + [x])
  {
    OneApplies(t, rows, next, x);
    forall k | 0 <= k < |done + [x]| ensures Applied(t, One(t, rows, next, x).value, (done + [x])[k]) {
      if k < |done| {
        OneLeavesOthers(t, rows, next, x, done[k]);
      }
    }
  }

  lemma MadeOn<R(!new), I(!new), K, E>(t: Table<R, I, K, E>, rows: seq<R>, first: Id, next: Id, done: seq<I>, x: I)
    requires Made(t, rows, first, done) && next == first + |done| && Separate(t, done + [x])
    requires One(t, rows, next, x).Some?
    ensures Made(t, One(t, rows, next, x).value, first, done + [x]) && NextAfter(t, rows, next, x) == next + 1
  {
    MadeIsNew(t, rows, first, done, x);
    assert One(t, rows, next, x) == Some(rows + [t.make(x, next)]);
    var after, all := rows + [t.make(x, next)], done + [x];
    forall k | 0 <= k < |all| ensures after[k] == t.make(all[k], first + k) {
    }
  }

  lemma MadeIsNew<R(!new), I(!new), K, E>(t: Table<R, I, K, E>, rows: seq<R>, first: Id, done: seq<I>, x: I)
    requires Made(t, rows, first, done) && Separate(t, done + [x])
    ensures Find(t, rows, t.wanted(x)).None?
  {
    SeparateInit(t, done, x);
    forall k | 0 <= k < |rows| ensures t.keyOf(rows[k]) != t.wanted(x) {
      assert OwnKey(t, done[k]);
    }
  }

  /**
   A write is refused neither when its record is in an acceptable table, nor when it makes an
   acceptable row in a table just made.
   */
  lemma RefusedOnlyIfNew<R(!new), I(!new), K,
    E>(t: Table<R, I, K, E>, rows0: seq<R>, next0: Id, rows: seq<R>, next: Id, done: seq<I>, x: I)
    requires Written(t, rows0, next0, rows, next, done) && One(t, rows, next, x).None?
    ensures AllApplied(t, rows0, done + [x]) ==> exists k :: 0 <= k < |rows0| && t.refuses(rows0, rows0[k]).Some?
    ensures rows0 == [] && Separate(t, done + [x]) ==> t.refuses(rows, t.make(x, next)).Some?
  {
    if AllApplied(t, rows0, done + [x]) {
      AppliedInit(t, rows0, done, x);
      OneAgain(t, rows, next, x);
    }
    if rows0 == [] && Separate(t, done + [x]) {
      SeparateInit(t, done, x);
      MadeIsNew(t, rows, next0, done, x);
      assert t.keyOf(t.make(x, next)) == t.wanted(x);
    }
  }
}
