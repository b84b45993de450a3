/**
 Whether the order of a bundle's connections matters.

 An import attaches jump hosts in the order of the bundle, and the store refuses one that
 stands in the way of another at that moment. So on some stores one order is taken in and
 another refused.
 */
module ShareOrder {
  import opened Common
  import opened SshStore
  import opened SshAdoption
  import opened Upserts
  import opened ShareSsh
  import opened ShareAttach

  // ── Whatever the order ──

  /** The jump host of some record jumps through another on this machine. */
  predicate HostIsTaken(conns: seq<Connection>, incoming: seq<SharedSsh>) {
    exists x <- incoming :: x.jump.Some? && HostJumps(conns, x.jump.value)
  }

  /** The bundle gives the record of this name a jump host. */
  predicate GivenJump(incoming: seq<SharedSsh>, name: string) {
    exists x <- incoming :: x.name == name && x.jump.Some?
  }

  /** Row `d` jumps through a record that the bundle gives a jump host. */
  predicate JumpsThroughGiven(conns: seq<Connection>, incoming: seq<SharedSsh>, d: nat)
    requires d < |conns|
  {
    exists x <- incoming :: x.jump.Some? && Through(conns, d, x)
  }

  predicate Through(conns: seq<Connection>, d: nat, x: SharedSsh)
    requires d < |conns|
  {
    var row := Find(Ssh(), conns, x.name);
    row.Some? && conns[d].jump == Some(conns[row.value].id)
  }

  /** Some row jumps through a record that is given a jump host, and is given none itself. */
  predicate HeldForGood(conns: seq<Connection>, incoming: seq<SharedSsh>) {
    exists d :: 0 <= d < |conns| && JumpsThroughGiven(conns, incoming, d) && !GivenJump(incoming, conns[d].name)
  }

  predicate NothingHeld(conns: seq<Connection>, incoming: seq<SharedSsh>) {
    forall d | 0 <= d < |conns| :: !JumpsThroughGiven(conns, incoming, d)
  }

  predicate Reordered(order: seq<SharedSsh>, incoming: seq<SharedSsh>) {
    multiset(order) == multiset(incoming)
  }

  lemma SameMembers(order: seq<SharedSsh>, incoming: seq<SharedSsh>)
    requires Reordered(order, incoming)
    ensures forall x :: x in order <==> x in incoming
  {
    forall x ensures x in order <==> x in incoming {
      assert x in multiset(order) <==> x in multiset(incoming);
    }
  }

  /** Every order of a coherent bundle is one. */
  lemma CoherentInAnyOrder(order: seq<SharedSsh>, incoming: seq<SharedSsh>)
    requires Reordered(order, incoming) && Coherent(incoming)
    ensures Coherent(order)
  {
    SameMembers(order, incoming);
    forall i, j | 0 <= i < j < |order| ensures order[i].name != order[j].name {
      assert order[i] in incoming && order[j] in incoming;
      if order[i] == order[j] {
        Twice(order, i, j);
        Once(incoming, order[i]);
      }
    }
    forall i | 0 <= i < |order| ensures Tidy(order[i]) && Writable(order[i]) {
      assert order[i] in incoming;
      var m :| 0 <= m < |incoming| && incoming[m] == order[i];
      assert Tidy(incoming[m]) && Writable(incoming[m]);
    }
    forall i | 0 <= i < |order| && order[i].jump.Some? ensures DirectIn(order, order[i].jump.value) {
      assert order[i] in incoming;
      var m :| 0 <= m < |incoming| && incoming[m] == order[i];
      var j :| 0 <= j < |incoming| && incoming[j].name == incoming[m].jump.value && incoming[j].jump.None?;
      assert incoming[j] in order;
    }
  }

  lemma Twice(s: seq<SharedSsh>, i: nat, j: nat)
    requires i < j < |s| && s[i] == s[j]
    ensures multiset(s)[s[i]] >= 2
  {
    assert s == s[..j] + s[j..];
    assert s[..j][i] == s[i] && s[j..][0] == s[i];
  }

  lemma Once(s: seq<SharedSsh>, x: SharedSsh)
    requires WellNamed(s) && x in s
    ensures multiset(s)[x] == 1
  {
    var k :| 0 <= k < |s| && s[k] == x;
    assert s == s[..k] + [x] + s[k + 1..];
    assert x !in s[..k] && x !in s[k + 1..];
  }

  // ── Refused in every order, in none, or in some ──

  lemma BlockedInAnyOrder(conns: seq<Connection>, incoming: seq<SharedSsh>, order: seq<SharedSsh>)
    requires Reordered(order, incoming) && (HostIsTaken(conns, incoming) || HeldForGood(conns, incoming))
    ensures Blocked(conns, order)
  {
    SameMembers(order, incoming);
    if HostIsTaken(conns, incoming) {
      var x :| x in incoming && x.jump.Some? && HostJumps(conns, x.jump.value);
      var i :| 0 <= i < |order| && order[i] == x;
      assert BlockedAt(conns, order, i);
    } else {
      var d :| 0 <= d < |conns| && JumpsThroughGiven(conns, incoming, d) && !GivenJump(incoming, conns[d].name);
      var x :| x in incoming && x.jump.Some? && Through(conns, d, x);
      var i :| 0 <= i < |order| && order[i] == x;
      NeverReset(order, incoming, i, conns[d].name);
      assert StillThrough(conns, order, i, d);
      assert BlockedAt(conns, order, i);
    }
  }

  lemma NeverReset(order: seq<SharedSsh>, incoming: seq<SharedSsh>, i: nat, name: string)
    requires i <= |order| && (forall x :: x in order <==> x in incoming) && !GivenJump(incoming, name)
    ensures !ResetBefore(order, i, name)
  {
  }

  lemma FreeInAnyOrder(conns: seq<Connection>, incoming: seq<SharedSsh>, order: seq<SharedSsh>)
    requires Reordered(order, incoming) && !HostIsTaken(conns, incoming) && NothingHeld(conns, incoming)
    ensures !Blocked(conns, order)
  {
    SameMembers(order, incoming);
    forall i | 0 <= i < |order| ensures !BlockedAt(conns, order, i) {
      assert order[i] in incoming;
      forall d | 0 <= d < |conns| ensures !(order[i].jump.Some? && StillThrough(conns, order, i, d)) {
        assert !JumpsThroughGiven(conns, incoming, d);
      }
    }
  }

  /** The record a row jumps through, moved to the front, finds the row in its way. */
  lemma SomeOrderIsBlocked(conns: seq<Connection>, incoming: seq<SharedSsh>, d: nat) returns (order: seq<SharedSsh>)
    requires d < |conns| && JumpsThroughGiven(conns, incoming, d)
    ensures Reordered(order, incoming) && Blocked(conns, order)
  {
    var x :| x in incoming && x.jump.Some? && Through(conns, d, x);
    var k :| 0 <= k < |incoming| && incoming[k] == x;
    order := [x] + incoming[..k] + incoming[k + 1..];
    assert incoming == incoming[..k] + [x] + incoming[k + 1..];
    assert StillThrough(conns, order, 0, d);
    assert BlockedAt(conns, order, 0);
  }

  /** The records of which rows jump on this machine, in order, and then the others. */
  function JumpersFirst(conns: seq<Connection>, incoming: seq<SharedSsh>): (seq<SharedSsh>, seq<SharedSsh>) {
    if incoming == [] then ([], [])
    else
      var (jumpers, others) := JumpersFirst(conns, incoming[1..]);
      if HostJumps(conns, incoming[0].name) then ([incoming[0]] + jumpers, others)
      else (jumpers, [incoming[0]] + others)
  }

  lemma {:induction false} JumpersAre(conns: seq<Connection>, incoming: seq<SharedSsh>)
    ensures var (jumpers, others) := JumpersFirst(conns, incoming);
      && Reordered(jumpers + others, incoming)
      && (forall x <- jumpers :: HostJumps(conns, x.name))
      && (forall x <- incoming | HostJumps(conns, x.name) :: x in jumpers)
  {
    if incoming != [] {
      JumpersAre(conns, incoming[1..]);
      assert incoming == [incoming[0]] + incoming[1..];
    }
  }

  /** A row that jumps is a jumper, and what it jumps through is not: so it comes first. */
  lemma JumpersFirstIsFree(conns: seq<Connection>, incoming: seq<SharedSsh>) returns (order: seq<SharedSsh>)
    requires Sound(conns) && !HostIsTaken(conns, incoming) && !HeldForGood(conns, incoming)
    ensures Reordered(order, incoming) && !Blocked(conns, order)
  {
    var (jumpers, others) := JumpersFirst(conns, incoming);
    order := jumpers + others;
    JumpersAre(conns, incoming);
    SameMembers(order, incoming);
    forall i | 0 <= i < |order| ensures !BlockedAt(conns, order, i) {
      assert order[i] in incoming;
      if order[i].jump.Some? {
        forall d | 0 <= d < |conns| ensures !StillThrough(conns, order, i, d) {
          if Through(conns, d, order[i]) {
            assert JumpsThroughGiven(conns, incoming, d);
            JumperIsReset(conns, incoming, jumpers, others, i, d);
          }
        }
      }
    }
  }

  lemma JumperIsReset(conns: seq<Connection>, incoming: seq<SharedSsh>, jumpers: seq<SharedSsh>,
                      others: seq<SharedSsh>, i: nat, d: nat)
    requires Sound(conns) && i < |jumpers + others| && d < |conns|
    requires forall x <- jumpers :: HostJumps(conns, x.name)
    requires forall x <- incoming | HostJumps(conns, x.name) :: x in jumpers
    requires Through(conns, d, (jumpers + others)[i]) && GivenJump(incoming, conns[d].name)
    ensures ResetBefore(jumpers + others, i, conns[d].name)
  {
    var y :| y in incoming && y.name == conns[d].name && y.jump.Some?;
    FindIs(Ssh(), conns, y.name, d);
    assert HostJumps(conns, y.name);
    var m :| 0 <= m < |jumpers| && jumpers[m] == y;
    DirectRow(conns, d);
    var row := Find(Ssh(), conns, (jumpers + others)[i].name).value;
    assert conns[row].jump.None?;
    assert (jumpers + others)[m] == y;
  }

  /**
   The order of a bundle decides nothing exactly if some jump host is taken here, or some
   row stays in the way in every order, so that all orders are refused; or if no row jumps
   through a record that is given a jump host, so that none is.
   */
  lemma OrderDecidesNothingExactly(conns: seq<Connection>, incoming: seq<SharedSsh>)
    requires Sound(conns)
    ensures (forall order | Reordered(order, incoming) :: Blocked(conns, order)) <==>
      HostIsTaken(conns, incoming) || HeldForGood(conns, incoming)
    ensures (forall order | Reordered(order, incoming) :: !Blocked(conns, order)) <==>
      !HostIsTaken(conns, incoming) && NothingHeld(conns, incoming)
    ensures (forall order | Reordered(order, incoming) :: Blocked(conns, order) == Blocked(conns, incoming)) <==>
      HostIsTaken(conns, incoming) || HeldForGood(conns, incoming) || NothingHeld(conns, incoming)
  {
    assert Reordered(incoming, incoming);
    if HostIsTaken(conns, incoming) || HeldForGood(conns, incoming) {
      forall order | Reordered(order, incoming) ensures Blocked(conns, order) {
        BlockedInAnyOrder(conns, incoming, order);
      }
    } else {
      var free := JumpersFirstIsFree(conns, incoming);
      if NothingHeld(conns, incoming) {
        forall order | Reordered(order, incoming) ensures !Blocked(conns, order) {
          FreeInAnyOrder(conns, incoming, order);
        }
      } else {
        var d :| 0 <= d < |conns| && JumpsThroughGiven(conns, incoming, d);
        var blocked := SomeOrderIsBlocked(conns, incoming, d);
      }
    }
  }

  // ── A store on which it decides ──

  lemma NamesApart(x: SharedSsh, y: SharedSsh, z: SharedSsh)
    requires Coherent([x, y, z])
    ensures x.name != y.name && x.name != z.name && y.name != z.name
  {
    var s := [x, y, z];
    assert s[0] == x && s[1] == y && s[2] == z;
  }

  /**
   `a` jumps through `b` on this machine; in the bundle both jump through `h`. Listed `a`
   first, `b` is free when its turn comes; listed `b` first, `a` still jumps through it.
   */
  lemma OrderDecides(a: SharedSsh, b: SharedSsh, h: SharedSsh, conns: seq<Connection>)
    requires Coherent([h, a, b])
    requires h.jump.None? && a.jump == b.jump == Some(h.name)
    requires conns == [
      Connection(0, h.name, h.endpoint, None), Connection(1, b.name, b.endpoint, None),
        Connection(2, a.name, a.endpoint, Some(1))]
    ensures Sound(conns) && Coherent([h, b, a]) && !Blocked(conns, [h, a, b]) && Blocked(conns, [h, b, a])
  {
    NamesApart(h, a, b);
    CoherentInAnyOrder([h, b, a], [h, a, b]);
    assert JumpIsDirect(conns, 1) by { assert conns[1].id == 1; }
    FindIs(Ssh(), conns, h.name, 0);
    FindIs(Ssh(), conns, b.name, 1);
    FindIs(Ssh(), conns, a.name, 2);
    var free, held := [h, a, b], [h, b, a];
    assert free[1] == a;
    assert ResetBefore(free, 2, a.name);
    assert !BlockedAt(conns, free, 0) && !BlockedAt(conns, free, 1) && !BlockedAt(conns, free, 2);
    assert StillThrough(conns, held, 1, 2);
    assert BlockedAt(conns, held, 1);
  }
}
