/**
 Saved SSH connections and the rules the store enforces when it writes one.

 The table is a sequence of records. A new record's id is one not used before.
 */
module SshStore {
  import opened Common
  import opened Text

  type Id = nat

  datatype Auth = Agent | KeyFile(path: string, passphraseInKeychain: bool)

  datatype Endpoint = Endpoint(host: string, port: nat, user: string, auth: Auth)

  datatype Connection = Connection(id: Id, name: string, endpoint: Endpoint, jump: Option<Id>)

  datatype SshError =
    | NoName | NoHost | NoUser | BadPort | NoKeyPath
    | JumpsToItself | ChainedJump(name: string) | WouldChainJump(name: string)
    | NotFound(id: Id) | DuplicateName(name: string)

  /** `SshEndpoint::validate`. */
  function Unusable(e: Endpoint): Option<SshError> {
    if Trim(e.host) == [] then Some(NoHost)
    else if Trim(e.user) == [] then Some(NoUser)
    else if e.port == 0 then Some(BadPort)
    else if e.auth.KeyFile? && Trim(e.auth.path) == [] then Some(NoKeyPath)
    else None
  }

  function IndexOf(conns: seq<Connection>, id: Id): (r: Option<nat>)
    ensures r.Some? ==> r.value < |conns| && conns[r.value].id == id && forall j | 0 <= j < r.value :: conns[j].id != id
    ensures r.None? ==> forall c <- conns :: c.id != id
  {
    if conns == [] then None
    else if conns[0].id == id then Some(0)
    else match IndexOf(conns[1..], id) case None => None case Some(k) => Some(k + 1)
  }

  function Named(conns: seq<Connection>, name: string): (r: Option<nat>)
    ensures r.Some? ==>
      r.value < |conns| && conns[r.value].name == name && forall j | 0 <= j < r.value :: conns[j].name != name
    ensures r.None? ==> forall c <- conns :: c.name != name
  {
    if conns == [] then None
    else if conns[0].name == name then Some(0)
    else match Named(conns[1..], name) case None => None case Some(k) => Some(k + 1)
  }

  /** Every record has a trimmed name and could connect. */
  predicate AllUsable(conns: seq<Connection>) {
    forall i {:trigger CanConnect(conns[i])} | 0 <= i < |conns| :: CanConnect(conns[i])
  }

  predicate CanConnect(c: Connection) {
    c.name != [] && Trim(c.name) == c.name && Unusable(c.endpoint).None?
  }

  /** Ids and names are unique, and a jump host is there and has no jump host. */
  predicate Sound(conns: seq<Connection>) {
    && (forall i, j | 0 <= i < j < |conns| :: conns[i].id != conns[j].id)
    && (forall i, j | 0 <= i < j < |conns| :: conns[i].name != conns[j].name)
    && (forall i | 0 <= i < |conns| && conns[i].jump.Some? :: JumpIsDirect(conns, conns[i].jump.value))
  }

  predicate JumpIsDirect(conns: seq<Connection>, id: Id) {
    exists k :: 0 <= k < |conns| && conns[k].id == id && conns[k].jump.None?
  }

  /** `check_jump_host`, for the record about to be written. */
  function JumpProblem(conns: seq<Connection>, c: Connection): Option<SshError> {
    if c.jump.None? then None
    else if c.jump.value == c.id then Some(JumpsToItself)
    else match IndexOf(conns, c.jump.value)
      case None => Some(NotFound(c.jump.value))
      case Some(k) =>
        if conns[k].jump.Some? then Some(ChainedJump(conns[k].name))
        else if exists d <- conns :: d.jump == Some(c.id) then Some(WouldChainJump(c.name))
        else None
  }

  /** `create_ssh_connection`. */
  function Create(conns: seq<Connection>, id: Id, name: string, endpoint: Endpoint,
    jump: Option<Id>): Result<seq<Connection>, SshError> {
    var c := Connection(id, Trim(name), endpoint, jump);
    if Trim(name) == [] then Err(NoName)
    else if Unusable(endpoint).Some? then Err(Unusable(endpoint).value)
    else if JumpProblem(conns, c).Some? then Err(JumpProblem(conns, c).value)
    else if exists d <- conns :: d.name == c.name then Err(DuplicateName(c.name))
    else Ok(conns + [c])
  }

  /** `update_ssh_connection`, for a patch of the endpoint and the jump host. An omitted field stays. */
  function Update(conns: seq<Connection>, id: Id, endpoint: Option<Endpoint>,
    jump: Option<Option<Id>>): Result<seq<Connection>, SshError> {
    match IndexOf(conns, id)
    case None => Err(NotFound(id))
    case Some(k) =>
      if endpoint.Some? && Unusable(endpoint.value).Some? then Err(Unusable(endpoint.value).value)
      else
        var c := Patched(conns[k], endpoint, jump);
        if JumpProblem(conns, c).Some? then Err(JumpProblem(conns, c).value)
        else Ok(conns[k := c])
  }

  function Patched(c: Connection, endpoint: Option<Endpoint>, jump: Option<Option<Id>>): Connection {
    c.(endpoint := if endpoint.Some? then endpoint.value else c.endpoint, jump := if jump.Some? then jump.value
      else c.jump)
  }

  predicate Unused(conns: seq<Connection>, id: Id) {
    (forall c <- conns :: c.id != id && c.jump != Some(id))
  }

  lemma StillDirect(conns: seq<Connection>, after: seq<Connection>, id: Id)
    requires JumpIsDirect(conns, id) && |conns| <= |after|
    requires forall k | 0 <= k < |conns| && conns[k].id == id :: after[k].id == id && after[k].jump == conns[k].jump
    ensures JumpIsDirect(after, id)
  {
    var k :| 0 <= k < |conns| && conns[k].id == id && conns[k].jump.None?;
    assert after[k].id == id && after[k].jump.None?;
  }

  /** A record that is created leaves the table sound, and every other record as it was. */
  lemma CreateKeepsSound(conns: seq<Connection>, id: Id, name: string, endpoint: Endpoint, jump: Option<Id>)
    requires Sound(conns) && Unused(conns, id)
    ensures var r := Create(conns, id, name, endpoint, jump);
      r.Ok? ==> Sound(r.value) && conns <= r.value && r.value == conns + [Connection(id, Trim(name), endpoint, jump)]
  {
    var r := Create(conns, id, name, endpoint, jump);
    if r.Ok? {
      var after := r.value;
      forall i | 0 <= i < |after| && after[i].jump.Some? ensures JumpIsDirect(after, after[i].jump.value) {
        if i < |conns| {
          StillDirect(conns, after, conns[i].jump.value);
        } else {
          var k := IndexOf(conns, jump.value).value;
          assert after[k].id == jump.value && after[k].jump.None?;
        }
      }
    }
  }

  /** An update changes one record, keeps its id and name, and never makes a chain of two jumps. */
  lemma UpdateKeepsSound(conns: seq<Connection>, id: Id, endpoint: Option<Endpoint>, jump: Option<Option<Id>>)
    requires Sound(conns)
    ensures var r := Update(conns, id, endpoint, jump);
      r.Ok? ==>
        && Sound(r.value) && |r.value| == |conns| && IndexOf(conns, id).Some?
        && r.value == conns[IndexOf(conns, id).value := Patched(conns[IndexOf(conns, id).value], endpoint, jump)]
  {
    var r := Update(conns, id, endpoint, jump);
    if r.Ok? {
      var k := IndexOf(conns, id).value;
      var c := Patched(conns[k], endpoint, jump);
      var after := r.value;
      forall i | 0 <= i < |after| && after[i].jump.Some? ensures JumpIsDirect(after, after[i].jump.value) {
        if i == k {
          var h := IndexOf(conns, c.jump.value).value;
          assert after[h].id == c.jump.value && after[h].jump.None?;
        } else if c.jump.Some? {
          assert conns[i] in conns && conns[i].jump != Some(id);
          StillDirect(conns, after, conns[i].jump.value);
        } else {
          var h :| 0 <= h < |conns| && conns[h].id == conns[i].jump.value && conns[h].jump.None?;
          assert after[h].id == conns[i].jump.value && after[h].jump.None?;
        }
      }
    }
  }

  /** In a sound table a jump host is refused exactly for one of the four reasons the store gives. */
  lemma JumpAcceptedExactly(conns: seq<Connection>, c: Connection)
    requires Sound(conns)
    ensures JumpProblem(conns, c).None? <==>
      c.jump.Some? ==>
        && c.jump.value != c.id
        && JumpIsDirect(conns, c.jump.value)
        && forall d <- conns :: d.jump != Some(c.id)
  {
    if c.jump.Some? && JumpIsDirect(conns, c.jump.value) {
      var k :| 0 <= k < |conns| && conns[k].id == c.jump.value && conns[k].jump.None?;
      assert IndexOf(conns, c.jump.value) == Some(k);
    }
  }

  /** A record of a sound table may be written back as it is. */
  lemma SoundRowIsAccepted(conns: seq<Connection>, k: nat)
    requires Sound(conns) && k < |conns|
    ensures JumpProblem(conns, conns[k]).None?
  {
    var c := conns[k];
    JumpAcceptedExactly(conns, c);
    if c.jump.Some? {
      forall i | 0 <= i < |conns| ensures conns[i].jump != Some(c.id) {
        assert conns[i].jump.Some? ==> JumpIsDirect(conns, conns[i].jump.value);
      }
    }
  }

  /** Only usable records are written. */
  lemma WritesKeepUsable(conns: seq<Connection>, id: Id, name: string, endpoint: Endpoint, jump: Option<Id>,
                         patch: Option<Endpoint>, jumpPatch: Option<Option<Id>>)
    requires AllUsable(conns)
    ensures Create(conns, id, name, endpoint, jump).Ok? ==> AllUsable(Create(conns, id, name, endpoint, jump).value)
    ensures Update(conns, id, patch, jumpPatch).Ok? ==> AllUsable(Update(conns, id, patch, jumpPatch).value)
  {
    TrimIsIdempotent(name);
    var created, updated := Create(conns, id, name, endpoint, jump), Update(conns, id, patch, jumpPatch);
    if created.Ok? {
      forall i | 0 <= i < |created.value| ensures CanConnect(created.value[i]) {
        assert i < |conns| ==> CanConnect(conns[i]);
      }
    }
    if updated.Ok? {
      forall i | 0 <= i < |updated.value| ensures CanConnect(updated.value[i]) {
        assert CanConnect(conns[i]);
      }
    }
  }

  // ── What is refused, and with which error ──

  /** The first part of an endpoint that is missing is what it is turned down for. */
  lemma UnusableExactly(e: Endpoint)
    ensures match Unusable(e)
      case None =>
        !White(e.host) && !White(e.user) && e.port >= 1 && (e.auth.KeyFile? ==> !White(e.auth.path))
      case Some(NoHost) => White(e.host)
      case Some(NoUser) => !White(e.host) && White(e.user)
      case Some(BadPort) => !White(e.host) && !White(e.user) && e.port == 0
      case Some(NoKeyPath) =>
        !White(e.host) && !White(e.user) && e.port >= 1 && e.auth.KeyFile? && White(e.auth.path)
      case Some(_) => false
  {
    TrimIsEmptyExactly(e.host);
    TrimIsEmptyExactly(e.user);
    if e.auth.KeyFile? {
      TrimIsEmptyExactly(e.auth.path);
    }
  }

  predicate SomeJumpThrough(conns: seq<Connection>, id: Id) {
    exists d <- conns :: d.jump == Some(id)
  }

  /** Each refusal of a jump host names the record that stands in the way. */
  lemma JumpRefusedExactly(conns: seq<Connection>, c: Connection, host: Connection)
    requires Sound(conns) && c.jump.Some?
    ensures JumpProblem(conns, c) == Some(JumpsToItself) <==> c.jump.value == c.id
    ensures c.jump.value != c.id ==>
      (JumpProblem(conns, c) == Some(NotFound(c.jump.value)) <==> forall d <- conns :: d.id != c.jump.value)
    ensures host in conns && host.id == c.jump.value != c.id ==>
      JumpProblem(conns, c) ==
        if host.jump.Some? then Some(ChainedJump(host.name))
        else if SomeJumpThrough(conns, c.id) then Some(WouldChainJump(c.name)) else None
  {
  }

  /** A record is created unless its name, its endpoint or its jump host is refused, or its name is taken. */
  lemma CreateExactly(conns: seq<Connection>, id: Id, name: string, endpoint: Endpoint, jump: Option<Id>)
    ensures var c := Connection(id, Trim(name), endpoint, jump);
      match Create(conns, id, name, endpoint, jump)
      case Err(e) =>
        if White(name) then e == NoName
        else if Unusable(endpoint).Some? then Some(e) == Unusable(endpoint)
        else if JumpProblem(conns, c).Some? then Some(e) == JumpProblem(conns, c)
        else e == DuplicateName(Trim(name)) && exists d <- conns :: d.name == Trim(name)
      case Ok(after) =>
        && !White(name) && Unusable(endpoint).None? && JumpProblem(conns, c).None?
        && (forall d <- conns :: d.name != Trim(name)) && after == conns + [c]
  {
    TrimIsEmptyExactly(name);
  }

  /** What a patch leaves out stays, and the whole record is checked before it is written. */
  lemma UpdateExactly(conns: seq<Connection>, c: Connection, endpoint: Option<Endpoint>, jump: Option<Option<Id>>)
    requires Sound(conns)
    ensures (forall d <- conns :: d.id != c.id) ==> Update(conns, c.id, endpoint, jump) == Err(NotFound(c.id))
    ensures c in conns ==>
      var after := Connection(c.id, c.name, if endpoint.None? then c.endpoint else endpoint.value,
                              if jump.None? then c.jump else jump.value);
      var r := Update(conns, c.id, endpoint, jump);
      if endpoint.Some? && Unusable(endpoint.value).Some? then r == Err(Unusable(endpoint.value).value)
      else if JumpProblem(conns, after).Some? then r == Err(JumpProblem(conns, after).value)
      else r.Ok? && exists k :: 0 <= k < |conns| && conns[k] == c && r.value == conns[k := after]
  {
  }
}
