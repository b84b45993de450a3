/** Planning which backups to delete, and what that means for a directory over time. */
module Retention {
  import opened Common
  import opened Pipeline

  datatype Candidate = Candidate(path: string, createdAt: int, size: nat)

  const DAY := 86_400_000_000_000

  predicate NewestFirst(s: seq<Candidate>) {
    forall i, j | 0 <= i < j < |s| :: s[i].createdAt >= s[j].createdAt
  }

  /** Before the first that is not newer, so candidates of one instant keep their order. */
  function Insert(c: Candidate, s: seq<Candidate>): seq<Candidate> {
    if s == [] || s[0].createdAt <= c.createdAt then [c] + s else [s[0]] + Insert(c, s[1..])
  }

  /** `sort_by_key` on the reversed time: newest first, and stable. */
  function Sort(s: seq<Candidate>): seq<Candidate> {
    if s == [] then [] else Insert(s[0], Sort(s[1..]))
  }

  function AtTime(s: seq<Candidate>, t: int): seq<Candidate> {
    if s == [] then [] else (if s[0].createdAt == t then [s[0]] else []) + AtTime(s[1..], t)
  }

  lemma {:induction false} InsertKeeps(c: Candidate, s: seq<Candidate>)
    ensures multiset(Insert(c, s)) == multiset(s) + multiset{c}
  {
    if s != [] && s[0].createdAt > c.createdAt {
      InsertKeeps(c, s[1..]);
      assert s == [s[0]] + s[1..];
    }
  }

  lemma {:induction false} InsertSorts(c: Candidate, s: seq<Candidate>)
    requires NewestFirst(s)
    ensures NewestFirst(Insert(c, s))
  {
    if s != [] && s[0].createdAt > c.createdAt {
      var tail := Insert(c, s[1..]);
      InsertSorts(c, s[1..]);
      InsertKeeps(c, s[1..]);
      forall i | 0 <= i < |tail| ensures tail[i].createdAt <= s[0].createdAt {
        assert tail[i] in multiset(tail);
        assert tail[i] == c || tail[i] in s[1..];
      }
    }
  }

  lemma AtTimeCons(c: Candidate, s: seq<Candidate>, t: int)
    ensures AtTime([c] + s, t) == (if c.createdAt == t then [c] else []) + AtTime(s, t)
  {
    assert ([c] + s)[1..] == s;
  }

  lemma {:induction false} InsertIsStable(c: Candidate, s: seq<Candidate>, t: int)
    ensures AtTime(Insert(c, s), t) == AtTime([c] + s, t)
  {
    AtTimeCons(c, s, t);
    if s != [] && s[0].createdAt > c.createdAt {
      InsertIsStable(c, s[1..], t);
      AtTimeCons(c, s[1..], t);
      AtTimeCons(s[0], Insert(c, s[1..]), t);
    }
  }

  /** The sorted list is a permutation, newest first, with ties in their old order. */
  lemma {:induction false} SortSorts(s: seq<Candidate>, t: int)
    ensures NewestFirst(Sort(s)) && multiset(Sort(s)) == multiset(s) && |Sort(s)| == |s|
    ensures AtTime(Sort(s), t) == AtTime(s, t)
  {
    if s != [] {
      SortSorts(s[1..], t);
      InsertKeeps(s[0], Sort(s[1..]));
      InsertSorts(s[0], Sort(s[1..]));
      InsertIsStable(s[0], Sort(s[1..]), t);
      AtTimeCons(s[0], Sort(s[1..]), t);
      assert s == [s[0]] + s[1..];
      assert |Sort(s)| == |multiset(Sort(s))| == |multiset(s)|;
    }
  }

  lemma {:induction false} SortedStays(s: seq<Candidate>)
    requires NewestFirst(s)
    ensures Sort(s) == s
  {
    if s != [] {
      SortedStays(s[1..]);
      assert s == [s[0]] + s[1..];
    }
  }

  function Total(s: seq<Candidate>): nat {
    if s == [] then 0 else s[0].size + Total(s[1..])
  }

  lemma {:induction false} TotalOfSum(a: seq<Candidate>, b: seq<Candidate>)
    ensures Total(a + b) == Total(a) + Total(b)
  {
    if a == [] {
      assert a + b == b;
    } else {
      assert (a + b)[1..] == a[1..] + b;
      TotalOfSum(a[1..], b);
    }
  }

  lemma {:induction false} TotalOfInsert(c: Candidate, s: seq<Candidate>)
    ensures Total(Insert(c, s)) == c.size + Total(s)
  {
    if s == [] || s[0].createdAt <= c.createdAt {
      assert ([c] + s)[1..] == s;
    } else {
      TotalOfInsert(c, s[1..]);
      assert ([s[0]] + Insert(c, s[1..]))[1..] == Insert(c, s[1..]);
    }
  }

  lemma {:induction false} TotalOfSort(s: seq<Candidate>)
    ensures Total(Sort(s)) == Total(s)
  {
    if s != [] {
      TotalOfSort(s[1..]);
      TotalOfInsert(s[0], Sort(s[1..]));
    }
  }

  // ── The plan ──

  /** Whether the policy gives up the candidate at this place of the sorted list. The newest is never given up. */
  predicate Expired(policy: RetentionPolicy, now: int, sorted: seq<Candidate>, i: nat)
    requires i < |sorted|
  {
    && i > 0
    && (|| (policy.keepLast.Some? && i >= (if policy.keepLast.value >= 1 then policy.keepLast.value else 1))
        || (policy.maxAgeDays.Some? && sorted[i].createdAt < now - policy.maxAgeDays.value * DAY))
  }

  /** Whoever is kept comes before whoever is not, and that is exactly those not expired. */
  ghost predicate IsPlan(candidates: seq<Candidate>, policy: RetentionPolicy, now: int, keep: seq<Candidate>,
                         delete: seq<Candidate>) {
    && keep + delete == Sort(candidates)
    && forall i | 0 <= i < |Sort(candidates)| :: i < |keep| <==> !Expired(policy, now, Sort(candidates), i)
  }

  lemma ExpiryGoesOn(policy: RetentionPolicy, now: int, sorted: seq<Candidate>)
    requires NewestFirst(sorted)
    ensures forall i, j | 0 <= i <= j < |sorted| && Expired(policy, now, sorted, i) :: Expired(policy, now, sorted, j)
  {
  }

  lemma PlanMeans(candidates: seq<Candidate>, policy: RetentionPolicy, now: int, keep: seq<Candidate>,
                  delete: seq<Candidate>)
    requires IsPlan(candidates, policy, now, keep, delete)
    ensures multiset(keep) + multiset(delete) == multiset(candidates) && NewestFirst(keep + delete)
    ensures candidates != [] ==> keep != [] && forall c <- candidates :: c.createdAt <= keep[0].createdAt
    ensures Total(delete) == Total(candidates) - Total(keep)
  {
    SortSorts(candidates, 0);
    TotalOfSort(candidates);
    TotalOfSum(keep, delete);
    assert multiset(keep + delete) == multiset(keep) + multiset(delete);
    if candidates != [] {
      assert !Expired(policy, now, Sort(candidates), 0);
      forall c <- candidates ensures c.createdAt <= keep[0].createdAt {
        assert c in multiset(Sort(candidates));
      }
    }
  }

  /** `plan_retention`. */
  method PlanRetention(candidates: seq<Candidate>, policy: RetentionPolicy, now: int)
    returns (keep: seq<Candidate>, delete: seq<Candidate>, reclaimed: nat)
    ensures IsPlan(candidates, policy, now, keep, delete)
    ensures multiset(keep) + multiset(delete) == multiset(candidates) && NewestFirst(keep + delete)
    ensures candidates != [] ==> keep != [] && forall c <- candidates :: c.createdAt <= keep[0].createdAt
    ensures reclaimed == Total(candidates) - Total(keep)
  {
    var sorted := Sort(candidates);
    SortSorts(candidates, 0);
    if !PolicyEnabled(policy) || candidates == [] {
      keep, delete, reclaimed := sorted, [], 0;
      assert sorted + [] == sorted;
    } else {
      keep, delete := Divide(sorted, policy, now);
      reclaimed := Sum(delete);
    }
    PlanMeans(candidates, policy, now, keep, delete);
  }

  /** The loop: each candidate goes onto one list or the other. */
  method Divide(sorted: seq<Candidate>, policy: RetentionPolicy, now: int)
    returns (keep: seq<Candidate>, delete: seq<Candidate>)
    requires NewestFirst(sorted)
    ensures keep + delete == sorted
    ensures forall i | 0 <= i < |sorted| :: i < |keep| <==> !Expired(policy, now, sorted, i)
  {
    ExpiryGoesOn(policy, now, sorted);
    keep, delete := [], [];
    for index := 0 to |sorted|
      invariant keep + delete == sorted[..index]
      invariant delete != [] ==> Expired(policy, now, sorted, |keep|)
      invariant forall i | 0 <= i < |keep| :: !Expired(policy, now, sorted, i)
    {
      var candidate := sorted[index];
      var isNewest := index == 0;
      var overCount := policy.keepLast.Some?
        && index >= (if policy.keepLast.value >= 1 then policy.keepLast.value else 1);
      var tooOld := policy.maxAgeDays.Some? && candidate.createdAt < now - policy.maxAgeDays.value * DAY;
      if !isNewest && (overCount || tooOld) {
        delete := delete + [candidate];
      } else {
        keep := keep + [candidate];
      }
    }
  }

  method Sum(s: seq<Candidate>) returns (total: nat)
    ensures total == Total(s)
  {
    total := 0;
    for i := 0 to |s|
      invariant total == Total(s[..i])
    {
      assert s[..i + 1] == s[..i] + [s[i]];
      TotalOfSum(s[..i], [s[i]]);
      total := total + s[i].size;
    }
    assert s[..|s|] == s;
  }

  /** Cleaning up again at the same time deletes nothing more. */
  lemma ReplanningDeletesNothing(candidates: seq<Candidate>, policy: RetentionPolicy, now: int,
                                 keep: seq<Candidate>, delete: seq<Candidate>, keep': seq<Candidate>,
                                   delete': seq<Candidate>)
    requires IsPlan(candidates, policy, now, keep, delete) && IsPlan(keep, policy, now, keep', delete')
    ensures keep' == keep && delete' == []
  {
    SortSorts(candidates, 0);
    assert forall i | 0 <= i < |keep| :: keep[i] == Sort(candidates)[i];
    SortedStays(keep);
    assert forall i | 0 <= i < |keep| :: Expired(policy, now, keep, i) <==> Expired(policy, now, Sort(candidates), i);
    assert |keep'| + |delete'| == |keep|;
    if keep != [] {
      var i := |keep| - 1;
      assert !Expired(policy, now, Sort(candidates), i) && !Expired(policy, now, keep, i);
    }
    assert keep' == (keep' + delete')[..|keep'|];
  }

  /** A later cleanup under the same policy only ever keeps fewer. */
  lemma LaterKeepsFewer(candidates: seq<Candidate>, policy: RetentionPolicy, now: int, later: int,
                        keep: seq<Candidate>, delete: seq<Candidate>, keep': seq<Candidate>, delete': seq<Candidate>)
    requires IsPlan(candidates, policy, now, keep, delete) && IsPlan(candidates, policy, later, keep', delete')
    requires now <= later
    ensures keep' <= keep
  {
    var sorted := Sort(candidates);
    assert forall i | 0 <= i < |sorted| && Expired(policy, now, sorted, i) :: Expired(policy, later, sorted, i);
    if keep' != [] {
      var i := |keep'| - 1;
      assert !Expired(policy, later, sorted, i) && !Expired(policy, now, sorted, i);
    }
    assert keep == sorted[..|keep|] && keep' == sorted[..|keep'|];
  }

  // ── What the two rules of a policy leave ──

  /** As many of the newest as `keep_last` says, but never fewer than one. */
  function Places(n: nat): nat { if n == 0 then 1 else n }

  /**
   Counted from the newest, a candidate is kept if it is the first; or if it is within the
   number the policy keeps and no older than its days, of 24 hours each.
   */
  lemma KeptExactly(candidates: seq<Candidate>, policy: RetentionPolicy, now: int, keep: seq<Candidate>,
                    delete: seq<Candidate>, i: nat)
    requires IsPlan(candidates, policy, now, keep, delete) && i < |candidates|
    ensures |keep + delete| == |candidates|
    ensures i < |keep| <==>
      || i == 0
      || ((policy.keepLast.Some? ==> i < Places(policy.keepLast.value))
          && (policy.maxAgeDays.Some? ==>
                (keep + delete)[i].createdAt >= now - policy.maxAgeDays.value * 24 * 3_600_000_000_000))
  {
    SortSorts(candidates, 0);
    var sorted := Sort(candidates);
    assert (keep + delete)[i] == sorted[i];
    assert i < |keep| <==> !Expired(policy, now, sorted, i);
  }

  /** With only a number, exactly that many of the newest stay; with neither rule, everything does. */
  lemma KeepLastLeavesExactly(candidates: seq<Candidate>, policy: RetentionPolicy, now: int, keep: seq<Candidate>,
                              delete: seq<Candidate>)
    requires IsPlan(candidates, policy, now, keep, delete)
    ensures policy.keepLast.Some? ==> |keep| <= Places(policy.keepLast.value)
    ensures policy.keepLast.Some? && policy.maxAgeDays.None? ==>
      |keep| == if |candidates| < Places(policy.keepLast.value) then |candidates| else Places(policy.keepLast.value)
    ensures policy.keepLast.None? && policy.maxAgeDays.None? ==> delete == []
  {
    SortSorts(candidates, 0);
    var n := |keep|;
    assert |keep + delete| == |candidates| && |keep + delete| == n + |delete|;
    if n < |candidates| {
      KeptExactly(candidates, policy, now, keep, delete, n);
    }
    if 0 < n {
      KeptExactly(candidates, policy, now, keep, delete, n - 1);
    }
  }

  /** With only an age, exactly the newest and those young enough stay. */
  lemma MaxAgeLeavesExactly(candidates: seq<Candidate>, policy: RetentionPolicy, now: int, keep: seq<Candidate>,
                            delete: seq<Candidate>, c: Candidate)
    requires IsPlan(candidates, policy, now, keep, delete) && policy.keepLast.None? && policy.maxAgeDays.Some?
    ensures c in delete ==>
      c in candidates && c.createdAt < now - policy.maxAgeDays.value * 24 * 3_600_000_000_000
    ensures c in candidates && c.createdAt < now - policy.maxAgeDays.value * 24 * 3_600_000_000_000 ==>
      c in delete || (keep != [] && c == keep[0])
  {
    SortSorts(candidates, 0);
    assert c in multiset(Sort(candidates)) <==> c in multiset(candidates);
    if c in delete {
      var k :| 0 <= k < |delete| && delete[k] == c;
      assert (keep + delete)[|keep| + k] == c;
      KeptExactly(candidates, policy, now, keep, delete, |keep| + k);
      assert c in Sort(candidates);
    }
    if c in candidates && c !in delete {
      assert c in Sort(candidates) && c in keep;
      var k :| 0 <= k < |keep| && keep[k] == c;
      KeptExactly(candidates, policy, now, keep, delete, k);
    }
  }

  // ── A directory over time ──

  datatype Change =
    | Added(candidate: Candidate)
    | Cleaned(policy: RetentionPolicy, now: int, keep: seq<Candidate>, delete: seq<Candidate>)

  /** What each change finds and leaves. */
  ghost predicate Follows(before: seq<Candidate>, changes: seq<Change>, after: seq<Candidate>)
    decreases |changes|
  {
    if changes == [] then before == after
    else match changes[0]
      case Added(c) => Follows(before + [c], changes[1..], after)
      case Cleaned(policy, now, keep, delete) =>
        IsPlan(before, policy, now, keep, delete) && Follows(keep, changes[1..], after)
  }

  ghost predicate HasAtLeast(s: seq<Candidate>, t: int) {
    exists i :: 0 <= i < |s| && s[i].createdAt >= t
  }

  /**
   Over any run of additions and cleanups, under any policies and any clock, a directory
   never loses its newest backup: whatever was once there, one at least as new still is.
   */
  lemma {:induction false} NewestIsNeverLost(before: seq<Candidate>, changes: seq<Change>, after: seq<Candidate>,
                                             t: int)
    requires Follows(before, changes, after) && HasAtLeast(before, t)
    ensures HasAtLeast(after, t) && after != []
    decreases |changes|
  {
    if changes != [] {
      match changes[0]
      case Added(c) =>
        var i :| 0 <= i < |before| && before[i].createdAt >= t;
        assert (before + [c])[i].createdAt >= t;
        NewestIsNeverLost(before + [c], changes[1..], after, t);
      case Cleaned(policy, now, keep, delete) =>
        CleaningKeepsNewest(before, policy, now, keep, delete, t);
        NewestIsNeverLost(keep, changes[1..], after, t);
    }
  }

  lemma CleaningKeepsNewest(before: seq<Candidate>, policy: RetentionPolicy, now: int, keep: seq<Candidate>,
                            delete: seq<Candidate>, t: int)
    requires IsPlan(before, policy, now, keep, delete) && HasAtLeast(before, t)
    ensures HasAtLeast(keep, t)
  {
    SortSorts(before, 0);
    var i :| 0 <= i < |before| && before[i].createdAt >= t;
    assert before[i] in multiset(Sort(before));
    var k :| 0 <= k < |Sort(before)| && Sort(before)[k] == before[i];
    assert !Expired(policy, now, Sort(before), 0);
    assert keep[0] == Sort(before)[0];
  }
}
