/**
 Turning the SSH settings once kept inside each profile into saved connections.

 `Store` is the database; `Adopt` is the function that finding or creating one record
 comes to, and the theorems are about runs of it.
 */
module SshAdoption {
  import opened Common
  import opened Text
  import opened SshStore

  /** A profile's inline settings: an endpoint, and perhaps one to jump through. */
  datatype Legacy = Legacy(profile: Id, endpoint: Endpoint, jump: Option<Endpoint>)

  // ── Names ──

  function Candidate(base: string, n: nat): string {
    base + " (" + Decimal(n) + ")"
  }

  lemma CandidatesDiffer(base: string, m: nat, n: nat)
    requires Candidate(base, m) == Candidate(base, n)
    ensures m == n
  {
    var a, b := Candidate(base, m), Candidate(base, n);
    assert a[|base| + 2..|a| - 1] == Decimal(m);
    assert b[|base| + 2..|b| - 1] == Decimal(n);
    DecimalReadsBack(m);
    DecimalReadsBack(n);
  }

  function NamesOf(conns: seq<Connection>): set<string> {
    set c <- conns :: c.name
  }

  lemma {:induction false} FewNames(conns: seq<Connection>)
    ensures |NamesOf(conns)| <= |conns|
  {
    if conns != [] {
      var rest := conns[1..];
      FewNames(rest);
      assert conns == [conns[0]] + rest;
      assert NamesOf(conns) == NamesOf(rest) + {conns[0].name};
    }
  }

  /** If every candidate from `lo` on is taken, there are that many names. */
  lemma {:induction false} TakenAreMany(taken: set<string>, base: string, lo: nat, count: nat)
    requires forall n | lo <= n < lo + count :: Candidate(base, n) in taken
    ensures |taken| >= count
    decreases count
  {
    if count > 0 {
      forall n | lo + 1 <= n < lo + count ensures Candidate(base, n) in taken - {Candidate(base, lo)} {
        if Candidate(base, n) == Candidate(base, lo) {
          CandidatesDiffer(base, n, lo);
        }
      }
      TakenAreMany(taken - {Candidate(base, lo)}, base, lo + 1, count - 1);
    }
  }

  /** Among any names, one of the first suffixes is free. */
  lemma SomeCandidateIsFree(conns: seq<Connection>, base: string) returns (n: nat)
    ensures 2 <= n <= |conns| + 2 && Candidate(base, n) !in NamesOf(conns)
  {
    FewNames(conns);
    if forall k | 2 <= k < |conns| + 3 :: Candidate(base, k) in NamesOf(conns) {
      TakenAreMany(NamesOf(conns), base, 2, |conns| + 1);
    }
    n :| 2 <= n < |conns| + 3 && Candidate(base, n) !in NamesOf(conns);
  }

  predicate Taken(conns: seq<Connection>, name: string) {
    exists c <- conns :: c.name == name
  }

  /** The base itself, or the first suffix that is free. */
  ghost predicate IsUniqueName(conns: seq<Connection>, base: string, name: string) {
    && !Taken(conns, name)
    && (if !Taken(conns, base) then name == base
        else exists n ::
          n >= 2 && name == Candidate(base, n) && forall k | 2 <= k < n :: Taken(conns, Candidate(base, k)))
  }

  /** `unique_name`: the search always ends. */
  method UniqueName(conns: seq<Connection>, base: string) returns (name: string)
    ensures IsUniqueName(conns, base, name)
  {
    if !Taken(conns, base) {
      return base;
    }
    ghost var free := SomeCandidateIsFree(conns, base);
    var n := 2;
    while Taken(conns, Candidate(base, n))
      invariant 2 <= n <= free
      invariant forall k | 2 <= k < n :: Taken(conns, Candidate(base, k))
      decreases free - n
    {
      n := n + 1;
    }
    name := Candidate(base, n);
  }

  const DEFAULT_SSH_PORT := 22

  function Describe(e: Endpoint): string {
    e.user + "@" + e.host + if e.port == DEFAULT_SSH_PORT then "" else ":" + Decimal(e.port)
  }

  lemma PartsAtMark(a: string, b: string, c: string, d: string, mark: char)
    requires mark !in a && mark !in c && a + [mark] + b == c + [mark] + d
    ensures a == c && b == d
  {
    SplitOnceAt(a, b, mark);
    SplitOnceAt(c, d, mark);
  }

  /** A host, and its port where that is not 22. */
  function Address(host: string, port: nat): string {
    if port == 22 then host else host + [':'] + Decimal(port)
  }

  lemma PortIsAfterAColon(host: string, port: nat)
    requires port != 22
    ensures ':' in Address(host, port)
  {
    assert Address(host, port)[|host|] == ':';
  }

  lemma SameAddress(host: string, port: nat, host': string, port': nat)
    requires ':' !in host && ':' !in host' && Address(host, port) == Address(host', port')
    ensures host == host' && port == port'
  {
    DecimalReadsBack(port);
    DecimalReadsBack(port');
    if port != 22 {
      PortIsAfterAColon(host, port);
    }
    if port' != 22 {
      PortIsAfterAColon(host', port');
    }
    if port != 22 && port' != 22 {
      PartsAtMark(host, Decimal(port), host', Decimal(port'), ':');
    }
  }

  lemma DescribedByAddress(e: Endpoint)
    ensures Describe(e) == e.user + ['@'] + Address(e.host, e.port)
  {
    var number := if e.port == 22 then "" else ":" + Decimal(e.port);
    assert e.host + number == Address(e.host, e.port);
    assert e.user + "@" + e.host + number == e.user + ['@'] + (e.host + number);
  }

  /**
   A name is the user and the address. As long as no user has an @ in it and no host a
   colon, two endpoints are named alike exactly if they differ in nothing but how they
   authenticate.
   */
  lemma SameNameSameAddressExactly(e: Endpoint, f: Endpoint)
    requires '@' !in e.user && '@' !in f.user && ':' !in e.host && ':' !in f.host
    ensures Describe(e) == e.user + ['@'] + Address(e.host, e.port)
    ensures Describe(e) == Describe(f) <==> e.user == f.user && e.host == f.host && e.port == f.port
  {
    DescribedByAddress(e);
    DescribedByAddress(f);
    if Describe(e) == Describe(f) {
      PartsAtMark(e.user, Address(e.host, e.port), f.user, Address(f.host, f.port), '@');
      SameAddress(e.host, e.port, f.host, f.port);
    }
  }

  // ── Finding or creating a record ──

  /** The first record with this endpoint and this jump host. */
  function Match(conns: seq<Connection>, endpoint: Endpoint, jump: Option<Id>): (r: Option<Id>)
    ensures r.Some? ==>
      exists k :: 0 <= k < |conns| && conns[k].id == r.value && conns[k].endpoint == endpoint && conns[k].jump == jump
    ensures r.None? ==> forall c <- conns :: !(c.endpoint == endpoint && c.jump == jump)
  {
    if conns == [] then None
    else if conns[0].endpoint == endpoint && conns[0].jump == jump then Some(conns[0].id)
    else
      var r := Match(conns[1..], endpoint, jump);
      assert r.Some? ==> forall k | 0 <= k < |conns[1..]| :: conns[1..][k] == conns[k + 1];
      r
  }

  /** Of several records with one route, the first is taken. */
  lemma MatchIsFirst(before: seq<Connection>, c: Connection, after: seq<Connection>)
    requires Match(before, c.endpoint, c.jump).None?
    ensures Match(before + [c] + after, c.endpoint, c.jump) == Some(c.id)
  {
    MatchesTheLast(before, c);
    MatchStays(before + [c], after, c.endpoint, c.jump);
  }

  lemma {:induction false} MatchStays(conns: seq<Connection>, more: seq<Connection>, endpoint: Endpoint,
                                      jump: Option<Id>)
    requires Match(conns, endpoint, jump).Some?
    ensures Match(conns + more, endpoint, jump) == Match(conns, endpoint, jump)
  {
    if !(conns[0].endpoint == endpoint && conns[0].jump == jump) {
      assert (conns + more)[1..] == conns[1..] + more;
      MatchStays(conns[1..], more, endpoint, jump);
    }
  }

  lemma {:induction false} MatchesTheLast(conns: seq<Connection>, c: Connection)
    requires Match(conns, c.endpoint, c.jump).None?
    ensures Match(conns + [c], c.endpoint, c.jump) == Some(c.id)
  {
    if conns == [] {
      assert [] + [c] == [c];
    } else {
      assert conns[0] in conns;
      assert (conns + [c])[1..] == conns[1..] + [c];
      MatchesTheLast(conns[1..], c);
    }
  }

  /** No two records reach the same endpoint through the same jump host. */
  predicate Distinct(conns: seq<Connection>) {
    forall i, j | 0 <= i < j < |conns| :: !(conns[i].endpoint == conns[j].endpoint && conns[i].jump == conns[j].jump)
  }

  /** Records were only added, each of them one that was not there yet. */
  predicate Grown(before: seq<Connection>, after: seq<Connection>)
    decreases |after|
  {
    || before == after
    || (|before| < |after| && Grown(before, after[..|after| - 1])
        && Match(after[..|after| - 1], after[|after| - 1].endpoint, after[|after| - 1].jump).None?)
  }

  lemma GrownByOne(before: seq<Connection>, c: Connection)
    requires Match(before, c.endpoint, c.jump).None?
    ensures Grown(before, before + [c])
  {
    assert (before + [c])[..|before|] == before;
  }

  lemma {:induction false} GrownTwice(a: seq<Connection>, b: seq<Connection>, c: seq<Connection>)
    requires Grown(a, b) && Grown(b, c)
    ensures Grown(a, c)
    decreases |c|
  {
    GrownKeeps(a, b);
    GrownKeeps(b, c);
    if b != c {
      GrownTwice(a, b, c[..|c| - 1]);
    }
  }

  /** What grows keeps every record in its place, and takes in no second one for the same route. */
  lemma {:induction false} GrownKeeps(before: seq<Connection>, after: seq<Connection>)
    requires Grown(before, after)
    ensures before <= after && (Distinct(before) ==> Distinct(after))
    decreases |after|
  {
    if before != after {
      var init, c := after[..|after| - 1], after[|after| - 1];
      GrownKeeps(before, init);
      assert after == init + [c];
      forall i | 0 <= i < |init| ensures !(after[i].endpoint == c.endpoint && after[i].jump == c.jump) {
        assert init[i] in init;
      }
    }
  }

  lemma MatchGrown(before: seq<Connection>, after: seq<Connection>, endpoint: Endpoint)
    requires Grown(before, after) && Match(before, endpoint, None).Some?
    ensures Match(after, endpoint, None) == Match(before, endpoint, None)
  {
    GrownKeeps(before, after);
    assert after == before + after[|before|..];
    MatchStays(before, after[|before|..], endpoint, None);
  }

  /** The record a profile with these settings would share, if it is there: its jump host first. */
  function Served(conns: seq<Connection>, endpoint: Endpoint, jump: Option<Endpoint>): Option<Id> {
    if jump.None? then Match(conns, endpoint, None)
    else match Match(conns, jump.value, None)
      case None => None
      case Some(id) => Match(conns, endpoint, Some(id))
  }

  lemma ServedStays(conns: seq<Connection>, more: seq<Connection>, endpoint: Endpoint, jump: Option<Endpoint>)
    requires Served(conns, endpoint, jump).Some?
    ensures Served(conns + more, endpoint, jump) == Served(conns, endpoint, jump)
  {
    if jump.Some? {
      MatchStays(conns, more, jump.value, None);
      MatchStays(conns, more, endpoint, Match(conns, jump.value, None));
    } else {
      MatchStays(conns, more, endpoint, None);
    }
  }

  /** The record has the settings' own endpoint, and jumps through a record with their own jump endpoint. */
  ghost predicate Reaches(conns: seq<Connection>, id: Id, endpoint: Endpoint, jump: Option<Endpoint>) {
    exists k :: 0 <= k < |conns| && conns[k].id == id && conns[k].endpoint == endpoint
      && match jump
         case None => conns[k].jump.None?
         case Some(e) => exists h ::
           0 <= h < |conns| && conns[k].jump == Some(conns[h].id) && conns[h].endpoint == e && conns[h].jump.None?
  }

  lemma ServedReaches(conns: seq<Connection>, endpoint: Endpoint, jump: Option<Endpoint>)
    requires Served(conns, endpoint, jump).Some?
    ensures Reaches(conns, Served(conns, endpoint, jump).value, endpoint, jump)
  {
    if jump.Some? {
      var j := Match(conns, jump.value, None).value;
      var h :| 0 <= h < |conns| && conns[h].id == j && conns[h].endpoint == jump.value && conns[h].jump == None;
      var k :| 0 <= k < |conns| && conns[k].id == Served(conns, endpoint, jump).value
        && conns[k].endpoint == endpoint && conns[k].jump == Some(j);
      assert conns[k].jump == Some(conns[h].id);
    }
  }

  // ── Adoption on values ──

  lemma SomeUniqueName(conns: seq<Connection>, base: string)
    ensures exists name :: IsUniqueName(conns, base, name)
  {
    if Taken(conns, base) {
      var free := SomeCandidateIsFree(conns, base);
      FirstFreeCandidate(conns, base, 2, free);
    } else {
      assert IsUniqueName(conns, base, base);
    }
  }

  lemma {:induction false} FirstFreeCandidate(conns: seq<Connection>, base: string, n: nat, free: nat)
    requires Taken(conns, base) && 2 <= n <= free && Candidate(base, free) !in NamesOf(conns)
    requires forall k | 2 <= k < n :: Taken(conns, Candidate(base, k))
    ensures exists name :: IsUniqueName(conns, base, name)
    decreases free - n
  {
    if Taken(conns, Candidate(base, n)) {
      assert n < free;
      FirstFreeCandidate(conns, base, n + 1, free);
    } else {
      assert IsUniqueName(conns, base, Candidate(base, n));
    }
  }

  lemma UniqueNameIsOne(conns: seq<Connection>, base: string, a: string, b: string)
    requires IsUniqueName(conns, base, a) && IsUniqueName(conns, base, b)
    ensures a == b
  {
  }

  /** The name chosen for a new record of the endpoint. */
  ghost function NameFor(conns: seq<Connection>, endpoint: Endpoint): (name: string)
    ensures IsUniqueName(conns, Describe(endpoint), name)
  {
    SomeUniqueName(conns, Describe(endpoint));
    var name :| IsUniqueName(conns, Describe(endpoint), name);
    name
  }

  /** The records and the next id. */
  datatype Book = Book(conns: seq<Connection>, next: Id)

  /** The endpoint is in nobody's record, and no record can be made for it. */
  ghost predicate NotAdoptable(conns: seq<Connection>, endpoint: Endpoint, jump: Option<Id>) {
    && Match(conns, endpoint, jump).None?
    && (Unusable(endpoint).Some? || Taken(conns, Trim(NameFor(conns, endpoint))))
  }

  /** What the store says to an endpoint that is not adoptable. */
  ghost function Refusal(conns: seq<Connection>, endpoint: Endpoint): SshError {
    if Unusable(endpoint).Some? then Unusable(endpoint).value else DuplicateName(Trim(NameFor(conns, endpoint)))
  }

  /** `adopt_endpoint`: `None` when the store refuses. */
  ghost function EndpointAdopted(b: Book, endpoint: Endpoint, jump: Option<Id>): Option<Book> {
    if Match(b.conns, endpoint, jump).Some? then Some(b)
    else if NotAdoptable(b.conns, endpoint, jump) then None
    else Some(Book(b.conns + [Connection(b.next, Trim(NameFor(b.conns, endpoint)), endpoint, jump)], b.next + 1))
  }

  /** The jump host first, then the connection that goes through it. */
  ghost function RouteAdopted(b: Book, endpoint: Endpoint, jump: Option<Endpoint>): Option<Book> {
    if jump.None? then EndpointAdopted(b, endpoint, None)
    else match EndpointAdopted(b, jump.value, None)
      case None => None
      case Some(between) => EndpointAdopted(between, endpoint, Match(between.conns, jump.value, None))
  }

  /** Where a route that is refused leaves the records: its jump host may have been adopted. */
  ghost function RouteLeft(b: Book, jump: Option<Endpoint>): Book {
    if jump.Some? && EndpointAdopted(b, jump.value, None).Some? then EndpointAdopted(b, jump.value, None).value else b
  }

  ghost function RouteRefusal(b: Book, endpoint: Endpoint, jump: Option<Endpoint>): SshError {
    if jump.Some? && EndpointAdopted(b, jump.value, None).None? then Refusal(b.conns, jump.value)
    else Refusal(RouteLeft(b, jump).conns, endpoint)
  }

  ghost function AllAdopted(b: Book, configs: seq<Legacy>): Option<Book>
    decreases |configs|
  {
    if configs == [] then Some(b)
    else match RouteAdopted(b, configs[0].endpoint, configs[0].jump)
      case None => None
      case Some(next) => AllAdopted(next, configs[1..])
  }

  /** What the store answers to the new record, with the name chosen for it. */
  lemma AdoptedIsCreated(b: Book, endpoint: Endpoint, jump: Option<Id>, name: string)
    requires Sound(b.conns) && IdsBelow(b.conns, b.next) && (jump.Some? ==> JumpIsDirect(b.conns, jump.value))
    requires Match(b.conns, endpoint, jump).None? && IsUniqueName(b.conns, Describe(endpoint), name)
    ensures EndpointAdopted(b, endpoint, jump) ==
      if Create(b.conns, b.next, name, endpoint, jump).Ok?
      then Some(Book(b.conns + [Connection(b.next, Trim(name), endpoint, jump)], b.next + 1)) else None
  {
    UniqueNameIsOne(b.conns, Describe(endpoint), name, NameFor(b.conns, endpoint));
    AdoptionFailsExactly(b.conns, b.next, endpoint, jump, name);
  }

  /**
   What `adopt_endpoint` comes to: the record found, or one record more, or a refusal that
   leaves everything as it was.
   */
  ghost predicate EndpointDone(b: Book, endpoint: Endpoint, jump: Option<Id>, r: Result<(Id, bool), SshError>,
                               after: Book) {
    && Grown(b.conns, after.conns)
    && EndpointAdopted(b, endpoint, jump) == (if r.Ok? then Some(after) else None)
    && match r
       case Ok((id, created)) =>
         && Match(after.conns, endpoint, jump) == Some(id) && (created <==> Match(b.conns, endpoint, jump).None?)
         && (!created ==> after == b)
       case Err(e) =>
         after == b && Match(b.conns, endpoint, jump).None? && e == Refusal(b.conns, endpoint)
  }

  lemma EndpointCreated(b: Book, endpoint: Endpoint, jump: Option<Id>, name: string, r: Result<(Id, bool), SshError>,
                        after: Book)
    requires Sound(b.conns) && IdsBelow(b.conns, b.next) && (jump.Some? ==> JumpIsDirect(b.conns, jump.value))
    requires Match(b.conns, endpoint, jump).None? && IsUniqueName(b.conns, Describe(endpoint), name)
    requires var c := Connection(b.next, Trim(name), endpoint, jump);
      match Create(b.conns, b.next, name, endpoint, jump)
      case Ok(_) => r == Ok((b.next, true)) && after == Book(b.conns + [c], b.next + 1)
      case Err(e) => r == Err(e) && after == b
    ensures EndpointDone(b, endpoint, jump, r, after)
  {
    AdoptedIsCreated(b, endpoint, jump, name);
    UniqueNameIsOne(b.conns, Describe(endpoint), name, NameFor(b.conns, endpoint));
    NameIsNotBlank(endpoint, b.conns, name);
    JumpIsAccepted(b.conns, b.next, jump, Trim(name), endpoint);
    if r.Ok? {
      var c := Connection(b.next, Trim(name), endpoint, jump);
      MatchesTheLast(b.conns, c);
      GrownByOne(b.conns, c);
    }
  }

  /** One turn of the loop over the settings. */
  lemma AllAdoptedFrom(b: Book, configs: seq<Legacy>, i: nat)
    requires i < |configs|
    ensures AllAdopted(b, configs[i..]) ==
      match RouteAdopted(b, configs[i].endpoint, configs[i].jump)
      case None => None
      case Some(next) => AllAdopted(next, configs[i + 1..])
  {
    assert configs[i..][1..] == configs[i + 1..];
  }

  lemma {:induction false} AllAdoptedAppend(b: Book, configs: seq<Legacy>, c: Legacy)
    ensures AllAdopted(b, configs + [c]) ==
      match AllAdopted(b, configs)
      case None => None
      case Some(mid) => RouteAdopted(mid, c.endpoint, c.jump)
    decreases |configs|
  {
    if configs == [] {
      assert [] + [c] == [c];
    } else {
      assert (configs + [c])[1..] == configs[1..] + [c];
      var next := RouteAdopted(b, configs[0].endpoint, configs[0].jump);
      if next.Some? {
        AllAdoptedAppend(next.value, configs[1..], c);
      }
    }
  }

  /** What is reported of one profile's settings. */
  datatype Adoption = Adoption(profile: Id, connection: Id, name: string, created: bool)

  function SavedName(conns: seq<Connection>, id: Id): string {
    match IndexOf(conns, id) case None => [] case Some(k) => conns[k].name
  }

  /** The profile's record and its name, and whether any record served these settings before. */
  ghost predicate Reports(before: Book, after: Book, config: Legacy, a: Adoption) {
    && RouteAdopted(before, config.endpoint, config.jump) == Some(after)
    && a.profile == config.profile && Served(after.conns, config.endpoint, config.jump) == Some(a.connection)
    && a.name == SavedName(after.conns, a.connection)
    && (a.created <==> Served(before.conns, config.endpoint, config.jump).None?)
  }

  /** The settings at this place, on the records their predecessors left. */
  ghost predicate ReportsAt(b: Book, configs: seq<Legacy>, i: nat, a: Adoption)
    requires i < |configs|
  {
    match AllAdopted(b, configs[..i])
    case None => false
    case Some(before) =>
      match AllAdopted(b, configs[..i + 1])
      case None => false
      case Some(after) => Reports(before, after, configs[i], a)
  }

  ghost predicate AllReported(b: Book, configs: seq<Legacy>, done: seq<Adoption>) {
    |done| <= |configs| && forall i | 0 <= i < |done| :: ReportsAt(b, configs, i, done[i])
  }

  function AttachedBy(attached: map<Id, Id>, done: seq<Adoption>): map<Id, Id> {
    if done == [] then attached
    else AttachedBy(attached, done[..|done| - 1])[done[|done| - 1].profile := done[|done| - 1].connection]
  }

  lemma PrefixAdopted(b: Book, configs: seq<Legacy>, i: nat)
    requires i < |configs|
    ensures AllAdopted(b, configs[..i + 1]) ==
      match AllAdopted(b, configs[..i])
      case None => None
      case Some(mid) => RouteAdopted(mid, configs[i].endpoint, configs[i].jump)
  {
    assert configs[..i + 1] == configs[..i] + [configs[i]];
    AllAdoptedAppend(b, configs[..i], configs[i]);
  }

  /** The settings at this place are the first that are refused, and their jump host may be adopted all the same. */
  ghost predicate RefusedAt(b: Book, configs: seq<Legacy>, i: nat, e: SshError, left: Book)
    requires i < |configs|
  {
    match AllAdopted(b, configs[..i])
    case None => false
    case Some(mid) =>
      && RouteAdopted(mid, configs[i].endpoint, configs[i].jump).None?
      && e == RouteRefusal(mid, configs[i].endpoint, configs[i].jump) && left == RouteLeft(mid, configs[i].jump)
  }

  /** Where the run over the settings stands after the first `i`. */
  ghost predicate RunAt(b: Book, attached0: map<Id, Id>, configs: seq<Legacy>, i: nat, now: Book,
                        attached: map<Id, Id>, done: seq<Adoption>) {
    && i <= |configs| && |done| == i && AllReported(b, configs, done) && attached == AttachedBy(attached0, done)
    && AllAdopted(b, configs[..i]) == Some(now) && AllAdopted(now, configs[i..]) == AllAdopted(b, configs)
  }

  ghost function Runs(b: Book, attached0: map<Id, Id>, configs: seq<Legacy>, i: nat)
    : iset<(Book, map<Id, Id>, seq<Adoption>)>
  {
    iset r: (Book, map<Id, Id>, seq<Adoption>) | RunAt(b, attached0, configs, i, r.0, r.1, r.2)
  }

  lemma RunStarts(b: Book, attached: map<Id, Id>, configs: seq<Legacy>)
    ensures (b, attached, []) in Runs(b, attached, configs, 0)
  {
    assert configs[0..] == configs && configs[..0] == [];
  }

  lemma RunGoesOn(b: Book, attached0: map<Id, Id>, configs: seq<Legacy>, i: nat, now: Book, attached: map<Id, Id>,
                  done: seq<Adoption>, after: Book, a: Adoption)
    requires i < |configs| && (now, attached, done) in Runs(b, attached0, configs, i)
    requires Reports(now, after, configs[i], a)
    ensures (after, attached[a.profile := a.connection], done + [a]) in Runs(b, attached0, configs, i + 1)
  {
    AllAdoptedFrom(now, configs, i);
    PrefixAdopted(b, configs, i);
    OneMoreReported(b, configs, done, a);
    assert (done + [a])[..i] == done;
  }

  lemma RunStops(b: Book, attached0: map<Id, Id>, configs: seq<Legacy>, i: nat, now: Book, attached: map<Id, Id>,
                 done: seq<Adoption>, e: SshError, left: Book)
    requires i < |configs| && (now, attached, done) in Runs(b, attached0, configs, i)
    requires RouteAdopted(now, configs[i].endpoint, configs[i].jump).None?
    requires e == RouteRefusal(now, configs[i].endpoint, configs[i].jump) && left == RouteLeft(now, configs[i].jump)
    ensures AllReported(b, configs, done) && attached == AttachedBy(attached0, done) && |done| == i
    ensures AllAdopted(b, configs).None? && RefusedAt(b, configs, i, e, left)
  {
    AllAdoptedFrom(now, configs, i);
  }

  lemma RunEnds(b: Book, attached0: map<Id, Id>, configs: seq<Legacy>, now: Book, attached: map<Id, Id>,
                done: seq<Adoption>)
    requires (now, attached, done) in Runs(b, attached0, configs, |configs|)
    ensures AllReported(b, configs, done) && attached == AttachedBy(attached0, done) && |done| == |configs|
    ensures AllAdopted(b, configs) == Some(now)
  {
    assert configs[..|configs|] == configs;
  }

  lemma OneMoreReported(b: Book, configs: seq<Legacy>, done: seq<Adoption>, a: Adoption)
    requires |done| < |configs| && AllReported(b, configs, done) && ReportsAt(b, configs, |done|, a)
    ensures AllReported(b, configs, done + [a])
  {
    forall k | 0 <= k < |done + [a]| ensures ReportsAt(b, configs, k, (done + [a])[k]) {
      if k < |done| {
        assert (done + [a])[k] == done[k];
      }
    }
  }

  // ── The store ──

  /** No record has, or jumps through, an id from here on. */
  predicate IdsBelow(conns: seq<Connection>, id: Id) {
    forall c <- conns :: c.id < id && (c.jump.Some? ==> c.jump.value < id)
  }

  /** What adopting a route comes to. */
  ghost predicate RouteDone(b: Book, endpoint: Endpoint, jump: Option<Endpoint>, r: Result<(Id, bool), SshError>,
                            after: Book) {
    && Grown(b.conns, after.conns)
    && RouteAdopted(b, endpoint, jump) == (if r.Ok? then Some(after) else None)
    && (Served(b.conns, endpoint, jump).Some? ==> r.Ok? && after.conns == b.conns)
    && match r
       case Ok((id, created)) =>
         && Served(after.conns, endpoint, jump) == Some(id) && (created <==> Served(b.conns, endpoint, jump).None?)
       case Err(e) => e == RouteRefusal(b, endpoint, jump) && after == RouteLeft(b, jump)
  }

  lemma RouteDirect(b: Book, endpoint: Endpoint, r: Result<(Id, bool), SshError>, after: Book)
    requires EndpointDone(b, endpoint, None, r, after)
    ensures RouteDone(b, endpoint, None, r, after)
  {
  }

  lemma RouteStopped(b: Book, endpoint: Endpoint, j: Endpoint, e: SshError, left: Book)
    requires EndpointDone(b, j, None, Err(e), left)
    ensures RouteDone(b, endpoint, Some(j), Err(e), left)
  {
  }

  /** Nothing jumps through an id not given out yet. */
  lemma NothingThroughNew(b: Book, c: Connection, endpoint: Endpoint)
    requires IdsBelow(b.conns, b.next) && c.jump.None?
    ensures Match(b.conns + [c], endpoint, Some(b.next)).None?
  {
    var after := b.conns + [c];
    forall k | 0 <= k < |after| ensures after[k].jump != Some(b.next) {
      assert k < |b.conns| ==> b.conns[k] in b.conns;
    }
  }

  lemma ThroughIsNew(b: Book, endpoint: Endpoint, j: Endpoint, between: Book, id: Id, created: bool)
    requires IdsBelow(b.conns, b.next) && EndpointDone(b, j, None, Ok((id, created)), between)
    ensures Served(b.conns, endpoint, Some(j)).None? <==> Match(between.conns, endpoint, Some(id)).None?
    ensures Served(b.conns, endpoint, Some(j)).Some? ==> between == b
  {
    if created {
      var c := Connection(b.next, Trim(NameFor(b.conns, j)), j, None);
      assert between.conns == b.conns + [c];
      MatchesTheLast(b.conns, c);
      NothingThroughNew(b, c, endpoint);
    }
  }

  lemma RouteThrough(b: Book, endpoint: Endpoint, j: Endpoint, between: Book, id: Id, created: bool,
                     r: Result<(Id, bool), SshError>, after: Book)
    requires IdsBelow(b.conns, b.next) && EndpointDone(b, j, None, Ok((id, created)), between)
    requires EndpointDone(between, endpoint, Some(id), r, after)
    ensures RouteDone(b, endpoint, Some(j), r, after)
  {
    GrownTwice(b.conns, between.conns, after.conns);
    ThroughIsNew(b, endpoint, j, between, id, created);
    MatchGrown(between.conns, after.conns, j);
  }

  class Store {
    var conns: seq<Connection>
    /** Which saved connection a profile points at. */
    var attached: map<Id, Id>
    /** The inline settings not yet adopted. */
    var legacy: seq<Legacy>
    var nextId: Id

    ghost predicate Valid()
      reads `conns, `nextId
    {
      Sound(conns) && AllUsable(conns) && IdsBelow(conns, nextId)
    }

    constructor ()
      ensures Valid() && conns == [] && attached == map[] && legacy == []
    {
      conns, attached, legacy, nextId := [], map[], [], 0;
    }

    /** `create_ssh_connection`. */
    method CreateSsh(name: string, endpoint: Endpoint, jump: Option<Id>) returns (r: Result<Connection, SshError>)
      requires Valid()
      modifies `conns, `nextId
      ensures Valid()
      ensures r.Ok? <==> Create(old(conns), old(nextId), name, endpoint, jump).Ok?
      ensures r.Ok? ==>
        r.value == Connection(old(nextId), Trim(name), endpoint, jump) && conns == old(conns) + [r.value]
      ensures r.Err? ==> conns == old(conns) && r.error == Create(old(conns), old(nextId), name, endpoint, jump).error
      ensures nextId == if r.Ok? then old(nextId) + 1 else old(nextId)
    {
      var created := Create(conns, nextId, name, endpoint, jump);
      CreateKeepsSound(conns, nextId, name, endpoint, jump);
      WritesKeepUsable(conns, nextId, name, endpoint, jump, None, None);
      match created {
        case Err(e) =>
          r := Err(e);
        case Ok(after) =>
          r := Ok(Connection(nextId, Trim(name), endpoint, jump));
          conns := after;
          nextId := nextId + 1;
          JumpWasThere(old(conns), r.value);
      }
    }

    /** `update_ssh_connection`, for the endpoint and the jump host. */
    method UpdateSsh(id: Id, endpoint: Option<Endpoint>, jump: Option<Option<Id>>) returns (r: Option<SshError>)
      requires Valid()
      modifies `conns
      ensures Valid()
      ensures match Update(old(conns), id, endpoint, jump)
        case Ok(after) => r == None && conns == after
        case Err(e) => r == Some(e) && conns == old(conns)
    {
      var updated := Update(conns, id, endpoint, jump);
      UpdateKeepsSound(conns, id, endpoint, jump);
      WritesKeepUsable(conns, id, [], Endpoint([], 0, [], Agent), None, endpoint, jump);
      match updated {
        case Err(e) =>
          r := Some(e);
        case Ok(after) =>
          JumpIsBelow(conns, nextId, Patched(conns[IndexOf(conns, id).value], endpoint, jump));
          conns := after;
          r := None;
      }
    }

    /** `adopt_endpoint`. */
    method AdoptEndpoint(endpoint: Endpoint, jump: Option<Id>) returns (r: Result<(Id, bool), SshError>)
      requires Valid() && (jump.Some? ==> JumpIsDirect(conns, jump.value))
      modifies `conns, `nextId
      ensures Valid()
      ensures EndpointDone(Book(old(conns), old(nextId)), endpoint, jump, r, Book(conns, nextId))
    {
      ghost var b := Book(conns, nextId);
      var found := Match(conns, endpoint, jump);
      if found.Some? {
        r := Ok((found.value, false));
      } else {
        var name := UniqueName(conns, Describe(endpoint));
        var created := CreateSsh(name, endpoint, jump);
        match created {
          case Err(e) => r := Err(e);
          case Ok(c) => r := Ok((c.id, true));
        }
        EndpointCreated(b, endpoint, jump, name, r, Book(conns, nextId));
      }
    }

    /** The jump host first, then the connection that goes through it. */
    method AdoptRoute(endpoint: Endpoint, jump: Option<Endpoint>) returns (r: Result<(Id, bool), SshError>)
      requires Valid()
      modifies `conns, `nextId
      ensures Valid()
      ensures RouteDone(Book(old(conns), old(nextId)), endpoint, jump, r, Book(conns, nextId))
    {
      ghost var b := Book(conns, nextId);
      if jump.None? {
        r := AdoptEndpoint(endpoint, None);
        RouteDirect(b, endpoint, r, Book(conns, nextId));
        return;
      }
      var through := AdoptEndpoint(jump.value, None);
      if through.Err? {
        RouteStopped(b, endpoint, jump.value, through.error, Book(conns, nextId));
        return Err(through.error);
      }
      ghost var between := Book(conns, nextId);
      r := AdoptEndpoint(endpoint, Some(through.value.0));
      RouteThrough(b, endpoint, jump.value, between, through.value.0, through.value.1, r, Book(conns, nextId));
    }

    /** One profile's settings, adopted and attached. */
    method AdoptOne(config: Legacy) returns (r: Result<Adoption, SshError>)
      requires Valid()
      modifies this
      ensures Valid() && Grown(old(conns), conns)
      ensures match r
        case Ok(a) =>
          && Reports(Book(old(conns), old(nextId)), Book(conns, nextId), config, a)
          && attached == old(attached)[a.profile := a.connection] && legacy == Without(old(legacy), a.profile)
        case Err(e) =>
          && RouteAdopted(Book(old(conns), old(nextId)), config.endpoint, config.jump).None?
          && attached == old(attached) && legacy == old(legacy)
          && e == RouteRefusal(Book(old(conns), old(nextId)), config.endpoint, config.jump)
          && Book(conns, nextId) == RouteLeft(Book(old(conns), old(nextId)), config.jump)
      ensures Served(old(conns), config.endpoint, config.jump).Some? ==> r.Ok? && conns == old(conns)
    {
      var route := AdoptRoute(config.endpoint, config.jump);
      if route.Err? {
        return Err(route.error);
      }
      attached := attached[config.profile := route.value.0];
      legacy := Without(legacy, config.profile);
      r := Ok(Adoption(config.profile, route.value.0, SavedName(conns, route.value.0), route.value.1));
    }

    /** `adopt_legacy_configs`; `done` is what was adopted before a refusal. */
    method AdoptLegacyConfigs() returns (r: Result<seq<Adoption>, SshError>, ghost done: seq<Adoption>)
      requires Valid()
      modifies this
      ensures Valid() && Grown(old(conns), conns)
      ensures AllReported(Book(old(conns), old(nextId)), old(legacy), done)
      ensures attached == AttachedBy(old(attached), done)
      ensures legacy == WithoutAll(old(legacy), old(legacy)[..|done|])
      ensures r.Ok? ==> r.value == done && |done| == |old(legacy)| && legacy == [] && AllServed(conns, old(legacy))
      ensures r.Ok? && OncePerProfile(old(legacy)) ==> AllAttached(conns, attached, old(legacy))
      ensures OthersKept(old(attached), attached, old(legacy))
      ensures AllServed(old(conns), old(legacy)) ==> r.Ok? && conns == old(conns)
      ensures AllAdopted(Book(old(conns), old(nextId)), old(legacy)) ==
        if r.Ok? then Some(Book(conns, nextId)) else None
      ensures r.Err? ==>
        && |done| < |old(legacy)|
        && RefusedAt(Book(old(conns), old(nextId)), old(legacy), |done|, r.error, Book(conns, nextId))
    {
      ghost var b := Book(conns, nextId);
      var configs := legacy;
      var adoptions: seq<Adoption> := [];
      done := [];
      StartAdopting(conns, attached, configs);
      RunStarts(b, attached, configs);
      for i := 0 to |configs|
        invariant Valid() && adoptions == done && |done| == i
        invariant (conns, attached, legacy) in Adopteds(old(conns), old(attached), configs, i)
        invariant (Book(conns, nextId), attached, done) in Runs(b, old(attached), configs, i)
      {
        ghost var before, attachedBefore, legacyBefore := Book(conns, nextId), attached, legacy;
        var one := AdoptOne(configs[i]);
        if one.Err? {
          StoppedAdopting(old(conns), old(attached), before.conns, attached, legacyBefore, conns, configs, i);
          RunStops(b, old(attached), configs, i, before, attached, done, one.error, Book(conns, nextId));
          return Err(one.error), done;
        }
        OneMoreAdopted(old(conns), old(attached), before.conns, attachedBefore, legacyBefore, conns, attached, legacy,
          configs, i);
        RunGoesOn(b, old(attached), configs, i, before, attachedBefore, done, Book(conns, nextId), one.value);
        adoptions := adoptions + [one.value];
        done := adoptions;
      }
      DoneAdopting(old(conns), old(attached), conns, attached, legacy, configs);
      RunEnds(b, old(attached), configs, Book(conns, nextId), attached, done);
      r := Ok(adoptions);
    }
  }

  /** The first `i` settings are adopted, and nothing else is touched. */
  ghost predicate Adopting(conns0: seq<Connection>, attached0: map<Id, Id>, conns: seq<Connection>, attached: map<Id,
                           Id>,
                           left: seq<Legacy>, configs: seq<Legacy>, i: nat) {
    && i <= |configs| && Grown(conns0, conns)
    && left == WithoutAll(configs, configs[..i])
    && AllServed(conns, configs[..i])
    && (OncePerProfile(configs) ==> AllAttached(conns, attached, configs[..i]))
    && OthersKept(attached0, attached, configs)
    && (AllServed(conns0, configs) ==> conns == conns0)
  }

  ghost function Adopteds(conns0: seq<Connection>, attached0: map<Id, Id>, configs: seq<Legacy>, i: nat)
    : iset<(seq<Connection>, map<Id, Id>, seq<Legacy>)>
  {
    iset a: (seq<Connection>, map<Id, Id>, seq<Legacy>) | Adopting(conns0, attached0, a.0, a.1, a.2, configs, i)
  }

  lemma StartAdopting(conns: seq<Connection>, attached: map<Id, Id>, configs: seq<Legacy>)
    ensures (conns, attached, configs) in Adopteds(conns, attached, configs, 0)
  {
  }

  lemma OneMoreAdopted(conns0: seq<Connection>, attached0: map<Id, Id>,
                       conns: seq<Connection>, attached: map<Id, Id>, left: seq<Legacy>,
                       conns': seq<Connection>, attached': map<Id, Id>, left': seq<Legacy>, configs: seq<Legacy>,
                         i: nat)
    requires i < |configs| && (conns, attached, left) in Adopteds(conns0, attached0, configs, i)
    requires Grown(conns, conns') && Served(conns', configs[i].endpoint, configs[i].jump).Some?
    requires attached' == attached[configs[i].profile := Served(conns', configs[i].endpoint, configs[i].jump).value]
    requires left' == Without(left, configs[i].profile)
    requires Served(conns, configs[i].endpoint, configs[i].jump).Some? ==> conns' == conns
    ensures (conns', attached', left') in Adopteds(conns0, attached0, configs, i + 1)
  {
    GrownTwice(conns0, conns, conns');
    OneMoreServed(conns, conns', attached, attached', configs, i);
    assert configs[..i + 1] == configs[..i] + [configs[i]];
    assert configs[i] in configs;
  }

  lemma StoppedAdopting(conns0: seq<Connection>, attached0: map<Id, Id>,
                        conns: seq<Connection>, attached: map<Id, Id>, left: seq<Legacy>, conns': seq<Connection>,
                          configs: seq<Legacy>, i: nat)
    requires i < |configs| && (conns, attached, left) in Adopteds(conns0, attached0, configs, i) && Grown(conns, conns')
    requires Served(conns, configs[i].endpoint, configs[i].jump).None?
    ensures Grown(conns0, conns') && OthersKept(attached0, attached, configs) && !AllServed(conns0, configs)
  {
    GrownTwice(conns0, conns, conns');
    assert configs[i] in configs;
  }

  lemma DoneAdopting(conns0: seq<Connection>, attached0: map<Id, Id>, conns: seq<Connection>, attached: map<Id, Id>,
                     left: seq<Legacy>, configs: seq<Legacy>)
    requires (conns, attached, left) in Adopteds(conns0, attached0, configs, |configs|)
    ensures left == [] && AllServed(conns, configs)
    ensures OncePerProfile(configs) ==> AllAttached(conns, attached, configs)
  {
    assert configs[..|configs|] == configs;
    AllAreGone(configs, configs);
  }

  /** Every one of these settings has its record. */
  ghost predicate AllServed(conns: seq<Connection>, configs: seq<Legacy>) {
    forall l <- configs :: Served(conns, l.endpoint, l.jump).Some?
  }

  ghost predicate AllAttached(conns: seq<Connection>, attached: map<Id, Id>, configs: seq<Legacy>) {
    forall l <- configs :: l.profile in attached && Served(conns, l.endpoint, l.jump) == Some(attached[l.profile])
  }

  ghost predicate OthersKept(before: map<Id, Id>, after: map<Id, Id>, configs: seq<Legacy>) {
    forall p | p in before && (forall l <- configs :: l.profile != p) :: p in after && after[p] == before[p]
  }

  lemma OneMoreServed(before: seq<Connection>, after: seq<Connection>, attached: map<Id, Id>, attached': map<Id, Id>,
                      configs: seq<Legacy>, i: nat)
    requires i < |configs| && Grown(before, after) && AllServed(before, configs[..i])
    requires Served(after, configs[i].endpoint, configs[i].jump).Some?
    requires attached' == attached[configs[i].profile := Served(after, configs[i].endpoint, configs[i].jump).value]
    ensures AllServed(after, configs[..i + 1])
    ensures OncePerProfile(configs) && AllAttached(before, attached, configs[..i]) ==>
      AllAttached(after, attached', configs[..i + 1])
  {
    GrownKeeps(before, after);
    assert after == before + after[|before|..];
    forall k | 0 <= k < i ensures Served(after, configs[k].endpoint, configs[k].jump) ==
      Served(before, configs[k].endpoint, configs[k].jump) {
      assert configs[k] in configs[..i];
      ServedStays(before, after[|before|..], configs[k].endpoint, configs[k].jump);
    }
    forall l <- configs[..i + 1] ensures Served(after, l.endpoint, l.jump).Some? {
      var k :| 0 <= k <= i && configs[k] == l;
      assert k < i ==> configs[k] in configs[..i];
    }
    if OncePerProfile(configs) && AllAttached(before, attached, configs[..i]) {
      forall l <- configs[..i + 1] ensures l.profile in attached'
        && Served(after, l.endpoint, l.jump) == Some(attached'[l.profile]) {
        var k :| 0 <= k <= i && configs[k] == l;
        assert k < i ==> configs[k] in configs[..i];
      }
    }
  }

  /**
   After an adoption every profile points at a record with its own endpoint, reached
   through a record with its own jump endpoint; adopting the same settings once more would
   change nothing.
   */
  lemma AdoptedProfilesReachTheirServers(conns: seq<Connection>, attached: map<Id, Id>, configs: seq<Legacy>, l: Legacy)
    requires AllServed(conns, configs) && AllAttached(conns, attached, configs) && l in configs
    ensures Reaches(conns, attached[l.profile], l.endpoint, l.jump)
  {
    ServedReaches(conns, l.endpoint, l.jump);
  }

  /** The settings left once a profile points at a saved connection. */
  function Without(legacy: seq<Legacy>, profile: Id): seq<Legacy> {
    if legacy == [] then []
      else (if legacy[0].profile == profile then [] else [legacy[0]]) + Without(legacy[1..], profile)
  }

  function WithoutAll(legacy: seq<Legacy>, done: seq<Legacy>): seq<Legacy> {
    if done == [] then legacy else Without(WithoutAll(legacy, done[..|done| - 1]), done[|done| - 1].profile)
  }

  predicate OncePerProfile(legacy: seq<Legacy>) {
    forall i, j | 0 <= i < j < |legacy| :: legacy[i].profile != legacy[j].profile
  }

  lemma {:induction false} WithoutKeeps(legacy: seq<Legacy>, profile: Id)
    ensures forall l :: l in Without(legacy, profile) <==> l in legacy && l.profile != profile
  {
    if legacy != [] {
      WithoutKeeps(legacy[1..], profile);
      assert legacy == [legacy[0]] + legacy[1..];
    }
  }

  lemma {:induction false} WithoutAllKeeps(legacy: seq<Legacy>, done: seq<Legacy>)
    ensures forall l <- WithoutAll(legacy, done) :: l in legacy && forall d <- done :: d.profile != l.profile
  {
    if done != [] {
      var init := done[..|done| - 1];
      WithoutAllKeeps(legacy, init);
      WithoutKeeps(WithoutAll(legacy, init), done[|done| - 1].profile);
      assert done == init + [done[|done| - 1]];
    }
  }

  lemma AllAreGone(legacy: seq<Legacy>, done: seq<Legacy>)
    requires done == legacy
    ensures WithoutAll(legacy, done) == []
  {
    WithoutAllKeeps(legacy, done);
    if WithoutAll(legacy, done) != [] {
      HasElement(WithoutAll(legacy, done));
    }
  }

  lemma HasElement(legacy: seq<Legacy>)
    requires legacy != []
    ensures exists l :: l in legacy
  {
    assert legacy[0] in legacy;
  }

  lemma JumpIsBelow(conns: seq<Connection>, id: Id, c: Connection)
    requires IdsBelow(conns, id) && JumpProblem(conns, c).None? && c.id < id
    ensures c.jump.Some? ==> c.jump.value < id
  {
    if c.jump.Some? {
      var k := IndexOf(conns, c.jump.value).value;
      assert conns[k] in conns;
    }
  }

  lemma JumpWasThere(conns: seq<Connection>, c: Connection)
    requires JumpProblem(conns, c).None?
    ensures c.jump.Some? ==> exists k :: 0 <= k < |conns| && conns[k].id == c.jump.value
  {
  }

  lemma NameIsNotBlank(endpoint: Endpoint, conns: seq<Connection>, name: string)
    requires IsUniqueName(conns, Describe(endpoint), name)
    ensures Trim(name) != []
  {
    assert Describe(endpoint)[|endpoint.user|] == '@';
    assert name[|endpoint.user|] == '@';
    assert name[|endpoint.user|] in name && !White(name);
    TrimIsEmptyExactly(name);
  }

  /** A new record is nobody's jump host, so a direct jump host is always accepted for it. */
  lemma JumpIsAccepted(conns: seq<Connection>, id: Id, jump: Option<Id>, name: string, endpoint: Endpoint)
    requires Sound(conns) && IdsBelow(conns, id)
    requires jump.Some? ==> JumpIsDirect(conns, jump.value)
    ensures JumpProblem(conns, Connection(id, name, endpoint, jump)).None?
  {
    JumpAcceptedExactly(conns, Connection(id, name, endpoint, jump));
    if jump.Some? {
      var k :| 0 <= k < |conns| && conns[k].id == jump.value && conns[k].jump.None?;
      assert conns[k] in conns;
    }
  }

  /**
   Adopting an endpoint nobody has yet fails exactly when the endpoint is unusable or when
   the name chosen for it, once trimmed, is taken after all: the check looks at the
   untrimmed name, the store writes the trimmed one.
   */
  lemma AdoptionFailsExactly(conns: seq<Connection>, id: Id, endpoint: Endpoint, jump: Option<Id>, name: string)
    requires Sound(conns) && IdsBelow(conns, id)
    requires jump.Some? ==> JumpIsDirect(conns, jump.value)
    requires IsUniqueName(conns, Describe(endpoint), name)
    ensures Create(conns, id, name, endpoint, jump).Err? <==> Unusable(endpoint).Some? || Taken(conns, Trim(name))
    ensures Trim(name) == name ==> (Create(conns, id, name, endpoint, jump).Err? <==> Unusable(endpoint).Some?)
  {
    NameIsNotBlank(endpoint, conns, name);
    JumpIsAccepted(conns, id, jump, Trim(name), endpoint);
  }

  /** A user name with a space in front of it: the untrimmed name is free, the trimmed one is not. */
  lemma SpacedUserCollides(host: string, auth: Auth)
    requires host != [] && Trimmed(host) && (auth.KeyFile? ==> Trim(auth.path) != [])
    ensures var plain, spaced := Endpoint(host, 22, "a", auth), Endpoint(host, 22, " a", auth);
      var conns := [Connection(0, Describe(plain), plain, None)];
      && Sound(conns) && Unusable(spaced).None?
      && IsUniqueName(conns, Describe(spaced), Describe(spaced)) && Taken(conns, Trim(Describe(spaced)))
  {
    var plain, spaced := Endpoint(host, 22, "a", auth), Endpoint(host, 22, " a", auth);
    var conns := [Connection(0, Describe(plain), plain, None)];
    assert Describe(spaced) == [' '] + Describe(plain);
    assert Describe(plain)[0] == 'a' && Describe(spaced)[0] == ' ';
    SpaceIsTrimmed(Describe(plain));
    assert conns[0].name == Describe(plain);
    UsersAreUsable();
    assert TrimStart(host) == host && TrimEnd(host) == host;
  }

  lemma SpaceIsTrimmed(s: string)
    requires s != [] && Trimmed(s)
    ensures Trim([' '] + s) == s
  {
    assert ([' '] + s)[1..] == s && ([' '] + s)[0] == ' ';
    assert TrimStart(s) == s && TrimEnd(s) == s;
    assert TrimStart([' '] + s) == TrimStart(s);
  }

  lemma UsersAreUsable()
    ensures Trim("a") != [] && Trim(" a") != []
  {
    TrimIsEmptyExactly("a");
    TrimIsEmptyExactly(" a");
    assert "a"[0] in "a" && " a"[1] in " a";
  }

  // ── One address, three ways to authenticate ──

  lemma CandidateIsWritten(base: string)
    ensures Candidate(base, 2) == base + " (2)" && Candidate(base, 3) == base + " (3)"
  {
    assert Decimal(2) == "2" && Decimal(3) == "3";
  }

  lemma NameIsChosen(conns: seq<Connection>, next: Id, endpoint: Endpoint, name: string)
    requires IsUniqueName(conns, Describe(endpoint), name) && Match(conns, endpoint, None).None?
    requires Unusable(endpoint).None? && Trim(name) == name
    ensures EndpointAdopted(Book(conns, next), endpoint, None) ==
      Some(Book(conns + [Connection(next, name, endpoint, None)], next + 1))
  {
    UniqueNameIsOne(conns, Describe(endpoint), name, NameFor(conns, endpoint));
  }

  lemma TidyNames(base: string, n: nat)
    requires base != [] && Trimmed(base)
    ensures Trim(base) == base && Trim(Candidate(base, n)) == Candidate(base, n)
  {
    var c := Candidate(base, n);
    assert c[0] == base[0] && c[|c| - 1] == ')';
    assert TrimStart(c) == c && TrimEnd(c) == c;
  }

  /** The endpoints have one name between them, and each could be a record. */
  ghost predicate NamedAlike(base: string, endpoints: seq<Endpoint>) {
    && base != [] && Trimmed(base)
    && forall e <- endpoints :: Describe(e) == base && Unusable(e).None?
  }

  function NameAt(base: string, i: nat): string {
    if i == 0 then base else Candidate(base, i + 1)
  }

  function Numbered(base: string, endpoints: seq<Endpoint>): seq<Connection> {
    seq(|endpoints|, i requires 0 <= i < |endpoints| => Connection(i, NameAt(base, i), endpoints[i], None))
  }

  lemma NextNameIsFree(base: string, endpoints: seq<Endpoint>)
    ensures IsUniqueName(Numbered(base, endpoints), base, NameAt(base, |endpoints|))
  {
    var n, conns := |endpoints|, Numbered(base, endpoints);
    if n > 0 {
      assert conns[0] in conns && conns[0].name == base;
      forall k | 2 <= k < n + 1 ensures Taken(conns, Candidate(base, k)) {
        assert conns[k - 1] in conns && conns[k - 1].name == Candidate(base, k);
      }
      forall i | 0 <= i < n ensures conns[i].name != NameAt(base, n) {
        if i > 0 && conns[i].name == NameAt(base, n) {
          CandidatesDiffer(base, i + 1, n + 1);
        }
      }
    }
  }

  lemma AlreadyNumbered(base: string, endpoints: seq<Endpoint>, e: Endpoint)
    requires Match(Numbered(base, endpoints), e, None).Some?
    ensures e in endpoints
  {
    var conns := Numbered(base, endpoints);
    var k :| 0 <= k < |conns| && conns[k].endpoint == e;
    assert endpoints[k] == e;
  }

  /** Each further way to authenticate makes one more record, with the next number in its name. */
  lemma NextIsNumbered(base: string, endpoints: seq<Endpoint>, e: Endpoint)
    requires base != [] && Trimmed(base) && Describe(e) == base && Unusable(e).None? && e !in endpoints
    ensures EndpointAdopted(Book(Numbered(base, endpoints), |endpoints|), e, None) ==
      Some(Book(Numbered(base, endpoints + [e]), |endpoints| + 1))
  {
    var n, conns := |endpoints|, Numbered(base, endpoints);
    if Match(conns, e, None).Some? {
      AlreadyNumbered(base, endpoints, e);
    }
    NextNameIsFree(base, endpoints);
    TidyNameAt(base, n);
    NameIsChosen(conns, n, e, NameAt(base, n));
    NumberedGrows(base, endpoints, e);
  }

  lemma TidyNameAt(base: string, i: nat)
    requires base != [] && Trimmed(base)
    ensures Trim(NameAt(base, i)) == NameAt(base, i)
  {
    TidyNames(base, i + 1);
  }

  lemma NumberedGrows(base: string, endpoints: seq<Endpoint>, e: Endpoint)
    ensures Numbered(base, endpoints + [e]) ==
      Numbered(base, endpoints) + [Connection(|endpoints|, NameAt(base, |endpoints|), e, None)]
  {
  }

  function Inline(endpoints: seq<Endpoint>): seq<Legacy> {
    seq(|endpoints|, i requires 0 <= i < |endpoints| => Legacy(i, endpoints[i], None))
  }

  lemma OneMoreRecord(base: string, b: Book, endpoints: seq<Endpoint>, e: Endpoint)
    requires base != [] && Trimmed(base) && Describe(e) == base && Unusable(e).None? && e !in endpoints
    requires AllAdopted(b, Inline(endpoints)) == Some(Book(Numbered(base, endpoints), |endpoints|))
    ensures AllAdopted(b, Inline(endpoints + [e])) == Some(Book(Numbered(base, endpoints + [e]), |endpoints| + 1))
  {
    var l := Legacy(|endpoints|, e, None);
    NextIsNumbered(base, endpoints, e);
    AllAdoptedAppend(b, Inline(endpoints), l);
    assert Inline(endpoints + [e]) == Inline(endpoints) + [l];
  }

  lemma LastIsNew(endpoints: seq<Endpoint>, n: nat)
    requires n < |endpoints| && forall i, j | 0 <= i < j < |endpoints| :: endpoints[i] != endpoints[j]
    ensures endpoints[..n + 1] == endpoints[..n] + [endpoints[n]] && endpoints[n] !in endpoints[..n]
  {
  }

  /** Profiles that differ in how they authenticate only: one record each, named after the address and numbered. */
  lemma {:induction false} OneRecordEach(base: string, b: Book, endpoints: seq<Endpoint>, n: nat)
    requires b == Book([], 0) && NamedAlike(base, endpoints) && n <= |endpoints|
    requires forall i, j | 0 <= i < j < |endpoints| :: endpoints[i] != endpoints[j]
    ensures AllAdopted(b, Inline(endpoints[..n])) == Some(Book(Numbered(base, endpoints[..n]), n))
    decreases n
  {
    if n == 0 {
      assert Numbered(base, endpoints[..0]) == [];
    } else {
      OneRecordEach(base, b, endpoints, n - 1);
      LastIsNew(endpoints, n - 1);
      assert endpoints[n - 1] in endpoints;
      OneMoreRecord(base, b, endpoints[..n - 1], endpoints[n - 1]);
    }
  }

  lemma OpsIsUsable(host: string, auth: Auth)
    requires host != [] && Trimmed(host) && (auth.KeyFile? ==> !White(auth.path))
    ensures Unusable(Endpoint(host, 22, "ops", auth)).None?
    ensures Describe(Endpoint(host, 22, "ops", auth)) == "ops@" + host && Trimmed("ops@" + host)
  {
    var base := "ops@" + host;
    SpacesAre(host[0]);
    assert host[0] in host && "ops"[0] in "ops";
    UnusableExactly(Endpoint(host, 22, "ops", auth));
    assert base[|base| - 1] == host[|host| - 1] && base[0] == 'o';
    assert "ops" + "@" + host + "" == base;
  }

  /** For one user at one address: the records are `ops@host`, `ops@host (2)` and `ops@host (3)`. */
  lemma OneAddressManyRecords(host: string, auths: seq<Auth>, endpoints: seq<Endpoint>)
    requires host != [] && Trimmed(host) && |auths| == 3
    requires forall i, j | 0 <= i < j < 3 :: auths[i] != auths[j]
    requires forall i | 0 <= i < 3 :: auths[i].KeyFile? ==> !White(auths[i].path)
    requires endpoints == seq(3, i requires 0 <= i < 3 => Endpoint(host, 22, "ops", auths[i]))
    ensures AllAdopted(Book([], 0), Inline(endpoints)) == Some(Book(
      [Connection(0, "ops@" + host, endpoints[0], None), Connection(1, "ops@" + host + " (2)", endpoints[1], None),
       Connection(2, "ops@" + host + " (3)", endpoints[2], None)], 3))
  {
    var base := "ops@" + host;
    forall i | 0 <= i < 3 ensures Describe(endpoints[i]) == base && Unusable(endpoints[i]).None? && Trimmed(base) {
      OpsIsUsable(host, auths[i]);
    }
    assert NamedAlike(base, endpoints);
    forall i, j | 0 <= i < j < 3 ensures endpoints[i] != endpoints[j] {
      assert endpoints[i].auth == auths[i] && endpoints[j].auth == auths[j];
    }
    OneRecordEach(base, Book([], 0), endpoints, 3);
    assert endpoints[..3] == endpoints;
    CandidateIsWritten(base);
    assert Numbered(base, endpoints) == [Connection(0, base, endpoints[0], None),
      Connection(1, base + " (2)", endpoints[1], None), Connection(2, base + " (3)", endpoints[2], None)];
  }

  // ── When a whole adoption fails ──

  /** Some of the settings, or of their jump hosts, can never be a record. */
  predicate SomeUnusable(configs: seq<Legacy>) {
    exists l <- configs :: Unusable(l.endpoint).Some? || (l.jump.Some? && Unusable(l.jump.value).Some?)
  }

  /** What names the record has no white space around it. */
  predicate TidyEndpoint(e: Endpoint) {
    Trimmed(Describe(e))
  }

  predicate TidySettings(configs: seq<Legacy>) {
    forall l <- configs :: TidyEndpoint(l.endpoint) && (l.jump.Some? ==> TidyEndpoint(l.jump.value))
  }

  lemma TidyNameStays(conns: seq<Connection>, endpoint: Endpoint)
    requires TidyEndpoint(endpoint)
    ensures Trim(NameFor(conns, endpoint)) == NameFor(conns, endpoint)
  {
    var base, name := Describe(endpoint), NameFor(conns, endpoint);
    assert base[|endpoint.user|] == '@';
    assert name[0] == base[0] && (name == base || name[|name| - 1] == ')');
    assert TrimStart(name) == name && TrimEnd(name) == name;
  }

  /** A tidy endpoint is refused only for being unusable, and an unusable one is in no record. */
  lemma TidyEndpointFailsExactly(b: Book, endpoint: Endpoint, jump: Option<Id>)
    requires AllUsable(b.conns) && TidyEndpoint(endpoint)
    ensures EndpointAdopted(b, endpoint, jump).None? <==> Unusable(endpoint).Some?
    ensures EndpointAdopted(b, endpoint, jump).Some? ==> AllUsable(EndpointAdopted(b, endpoint, jump).value.conns)
  {
    TidyNameStays(b.conns, endpoint);
    var name := NameFor(b.conns, endpoint);
    NameIsNotBlank(endpoint, b.conns, name);
    var added := Connection(b.next, name, endpoint, jump);
    if Match(b.conns, endpoint, jump).Some? {
      var k :| 0 <= k < |b.conns| && b.conns[k].endpoint == endpoint;
      assert CanConnect(b.conns[k]);
    } else if Unusable(endpoint).None? {
      assert CanConnect(added);
      forall i | 0 <= i < |b.conns + [added]| ensures CanConnect((b.conns + [added])[i]) {
        assert (b.conns + [added])[i] == if i < |b.conns| then b.conns[i] else added;
      }
    }
  }

  lemma TidyRouteFailsExactly(b: Book, endpoint: Endpoint, jump: Option<Endpoint>)
    requires AllUsable(b.conns) && TidyEndpoint(endpoint) && (jump.Some? ==> TidyEndpoint(jump.value))
    ensures RouteAdopted(b, endpoint, jump).None? <==>
      Unusable(endpoint).Some? || (jump.Some? && Unusable(jump.value).Some?)
    ensures RouteAdopted(b, endpoint, jump).Some? ==> AllUsable(RouteAdopted(b, endpoint, jump).value.conns)
  {
    if jump.None? {
      TidyEndpointFailsExactly(b, endpoint, None);
    } else {
      TidyEndpointFailsExactly(b, jump.value, None);
      var between := EndpointAdopted(b, jump.value, None);
      if between.Some? {
        TidyEndpointFailsExactly(between.value, endpoint, Match(between.value.conns, jump.value, None));
      }
    }
  }

  /**
   A whole adoption of tidy settings fails exactly if some endpoint among them is unusable:
   never over a name.
   */
  lemma {:induction false} TidyAdoptionFailsExactly(b: Book, configs: seq<Legacy>)
    requires AllUsable(b.conns) && TidySettings(configs)
    ensures AllAdopted(b, configs).None? <==> SomeUnusable(configs)
    decreases |configs|
  {
    if configs != [] {
      var l, rest := configs[0], configs[1..];
      assert configs == [l] + rest && l in configs;
      TidyRouteFailsExactly(b, l.endpoint, l.jump);
      var next := RouteAdopted(b, l.endpoint, l.jump);
      if next.Some? {
        TidyAdoptionFailsExactly(next.value, rest);
      }
      assert SomeUnusable(configs) <==>
        Unusable(l.endpoint).Some? || (l.jump.Some? && Unusable(l.jump.value).Some?) || SomeUnusable(rest);
    }
  }
}
