/** Organisations, API keys and principals (`app/routers/admin.py`, `app/auth.py`), and what a
    tenant administrator can reach with them. Token hashes stand for the tokens themselves. */
module KeyRegistry {
  import opened Scopes
  import opened Wrappers
  import Text

  type Hash = nat

  type KeyId = nat

  datatype Key = Key(org: string, hash: Hash, scopes: string, revoked: bool, lastUsed: Option<int>)

  datatype Directory = Directory(orgs: set<string>, keys: map<KeyId, Key>)

  datatype Principal = Principal(hash: Hash, keyId: Option<KeyId>, org: Option<string>, scopes: set<string>)

  datatype Reply<T> = Ok(value: T) | Refused(status: int)

  predicate IsSuperAdmin(p: Principal)
  {
    SUPER_ADMIN in p.scopes
  }

  // ---------------------------------------------------------------- authentication

  /** `EnvAPIKeyStore.validate`: environment keys are bootstrap super admins. */
  function ValidateEnv(env: set<Hash>, hash: Hash): Option<Principal>
  {
    if hash in env then Some(Principal(hash, None, None, {"chat", "admin", SUPER_ADMIN})) else None
  }

  /** The unrevoked row with this hash; the table has at most one. */
  predicate Matches(dir: Directory, id: KeyId, hash: Hash)
  {
    id in dir.keys && dir.keys[id].hash == hash && !dir.keys[id].revoked
  }

  ghost predicate LookupFinds(dir: Directory, hash: Hash, found: Option<KeyId>)
  {
    if found.Some? then Matches(dir, found.value, hash) else forall id :: !Matches(dir, id, hash)
  }

  predicate ShouldUpdate(last: Option<int>, now: int, interval: nat)
  {
    interval == 0 || last == None || last.value <= now - interval
  }

  /** `APIKeyResolver.resolve`: the database row if the lookup works and finds one (noting its
      use), otherwise the environment keys. `found` names the row the query returns. */
  ghost function Resolve(dir: Directory, env: set<Hash>, hash: Hash, available: bool, found: Option<KeyId>,
                         now: int, interval: nat)
    : (Directory, Option<Principal>)
    requires LookupFinds(dir, hash, found)
  {
    if available && found.Some? then
      var key := dir.keys[found.value];
      var used := if ShouldUpdate(key.lastUsed, now, interval) then key.(lastUsed := Some(now)) else key;
      (dir.(keys := dir.keys[found.value := used]),
       Some(Principal(hash, found, Some(key.org), ParseScopes(key.scopes))))
    else (dir, ValidateEnv(env, hash))
  }

  // ---------------------------------------------------------------- key administration

  datatype KeyRequest = KeyRequest(scopes: seq<string>, org: string)

  predicate Occupied(dir: Directory, id: KeyId, hash: Hash)
  {
    id in dir.keys || exists i | i in dir.keys :: dir.keys[i].hash == hash
  }

  /** `create_api_key` with the generated row id and token hash. */
  function CreateKey(dir: Directory, p: Principal, body: KeyRequest, id: KeyId, hash: Hash)
    : (Directory, Reply<seq<string>>)
  {
    var requested := Normalized(body.scopes);
    if "admin" !in p.scopes then (dir, Refused(401))
    else if requested == [] then (dir, Refused(422))
    else if !IsSuperAdmin(p) && p.org == None then (dir, Refused(403))
    else if !IsSuperAdmin(p) && p.org.value != body.org then (dir, Refused(403))
    else
      var granted := if IsSuperAdmin(p) then requested else WithoutSuper(requested);
      if granted == [] then (dir, Refused(400))
      else if body.org !in dir.orgs then (dir, Refused(404))
      else if Occupied(dir, id, hash) then (dir, Refused(409))
      else (dir.(keys := dir.keys[id := Key(body.org, hash, Text.Join(granted), false, None)]), Ok(granted))
  }

  /** `revoke_api_key`. */
  function RevokeKey(dir: Directory, p: Principal, id: KeyId): (Directory, Reply<KeyId>)
  {
    if "admin" !in p.scopes then (dir, Refused(401))
    else if id !in dir.keys then (dir, Refused(404))
    else if !IsSuperAdmin(p) && p.org == None then (dir, Refused(403))
    else if !IsSuperAdmin(p) && dir.keys[id].org != p.org.value then (dir, Refused(404))
    else (dir.(keys := dir.keys[id := dir.keys[id].(revoked := true)]), Ok(id))
  }

  /** `create_organization`, for which only the super admin scope counts. */
  function CreateOrg(dir: Directory, p: Principal, org: string): (Directory, Reply<string>)
  {
    if "admin" !in p.scopes then (dir, Refused(401))
    else if !IsSuperAdmin(p) then (dir, Refused(403))
    else if org in dir.orgs then (dir, Refused(409))
    else (dir.(orgs := dir.orgs + {org}), Ok(org))
  }

  // ---------------------------------------------------------------- a tenant and everyone else

  /** How the tenant authenticates a request: as its starting principal, or with a token it holds. */
  datatype Credential = Direct | Token(hash: Hash, available: bool, found: Option<KeyId>, now: int)

  datatype Move =
    | Create(with: Credential, body: KeyRequest, id: KeyId, hash: Hash)
    | Revoke(with: Credential, id: KeyId)
    | NewOrg(with: Credential, org: string)
    | Use(with: Credential)
    | OtherCreate(actor: Principal, body: KeyRequest, id: KeyId, hash: Hash)
    | OtherRevoke(actor: Principal, id: KeyId)
    | OtherOrg(actor: Principal, org: string)

  /** The directory and the tokens in the tenant's hands. */
  datatype World = World(dir: Directory, held: set<Hash>)

  /** The tenant uses tokens it holds; new tokens are not environment keys, and other people's
      new tokens are not ones the tenant holds. */
  ghost predicate Possible(w: World, env: set<Hash>, m: Move)
  {
    match m
    case Create(c, _, _, hash) => Usable(w, c) && hash !in env
    case Revoke(c, _) => Usable(w, c)
    case NewOrg(c, _) => Usable(w, c)
    case Use(c) => Usable(w, c)
    case OtherCreate(_, _, _, hash) => hash !in w.held
    case OtherRevoke(_, _) => true
    case OtherOrg(_, _) => true
  }

  ghost predicate Usable(w: World, c: Credential)
  {
    c.Token? ==> c.hash in w.held && LookupFinds(w.dir, c.hash, c.found)
  }

  ghost function Authenticate(w: World, env: set<Hash>, start: Principal, interval: nat, c: Credential)
    : (Directory, Option<Principal>)
    requires Usable(w, c)
  {
    match c
    case Direct => (w.dir, Some(start))
    case Token(hash, available, found, now) => Resolve(w.dir, env, hash, available, found, now, interval)
  }

  ghost function Make(w: World, env: set<Hash>, start: Principal, interval: nat, m: Move): World
    requires Possible(w, env, m)
  {
    match m
    case Create(c, body, id, hash) =>
      var (dir, p) := Authenticate(w, env, start, interval, c);
      if p == None then w.(dir := dir)
      else
        var (dir', reply) := CreateKey(dir, p.value, body, id, hash);
        World(dir', if reply.Ok? then w.held + {hash} else w.held)
    case Revoke(c, id) =>
      var (dir, p) := Authenticate(w, env, start, interval, c);
      w.(dir := if p == None then dir else RevokeKey(dir, p.value, id).0)
    case NewOrg(c, org) =>
      var (dir, p) := Authenticate(w, env, start, interval, c);
      w.(dir := if p == None then dir else CreateOrg(dir, p.value, org).0)
    case Use(c) => w.(dir := Authenticate(w, env, start, interval, c).0)
    case OtherCreate(actor, body, id, hash) => w.(dir := CreateKey(w.dir, actor, body, id, hash).0)
    case OtherRevoke(actor, id) => w.(dir := RevokeKey(w.dir, actor, id).0)
    case OtherOrg(actor, org) => w.(dir := CreateOrg(w.dir, actor, org).0)
  }

  // ---------------------------------------------------------------- confinement

  /** A principal of `org` without super admin rights. */
  predicate TenantOf(p: Principal, org: string)
  {
    p.org == Some(org) && !IsSuperAdmin(p)
  }

  /** Every token the tenant holds is a key of its organisation that does not carry super_admin. */
  ghost predicate Confined(w: World, env: set<Hash>, org: string)
  {
    forall h | h in w.held ::
      h !in env && forall id | id in w.dir.keys && w.dir.keys[id].hash == h ::
        w.dir.keys[id].org == org && SUPER_ADMIN !in ParseScopes(w.dir.keys[id].scopes)
  }

  /** Whatever the tenant authenticates as, it is a principal of its organisation. */
  lemma {:induction false} AuthenticatesAsTenant(w: World, env: set<Hash>, start: Principal, interval: nat,
                                                 c: Credential, org: string)
    requires Confined(w, env, org) && TenantOf(start, org) && Usable(w, c)
    ensures var (dir, p) := Authenticate(w, env, start, interval, c);
      && (p.Some? ==> TenantOf(p.value, org))
      && Confined(w.(dir := dir), env, org)
      && OthersUntouched(w.dir, dir, org)
  {
  }

  /** Organisations and the keys of other organisations are the same. */
  ghost predicate OthersUntouched(before: Directory, after: Directory, org: string)
  {
    && after.orgs == before.orgs
    && (forall id | id in before.keys && before.keys[id].org != org ::
          id in after.keys && after.keys[id] == before.keys[id])
    && (forall id | id in after.keys && after.keys[id].org != org ::
          id in before.keys && before.keys[id] == after.keys[id])
  }

  /** The scope column a tenant can store never reads back as super_admin. */
  lemma {:induction false} TenantGrant(requested: seq<string>)
    requires WithoutSuper(Normalized(requested)) != []
    ensures SUPER_ADMIN !in ParseScopes(Text.Join(WithoutSuper(Normalized(requested))))
  {
    GrantRoundTrip(requested);
  }

  lemma {:induction false} CreatedRow(dir: Directory, p: Principal, body: KeyRequest, id: KeyId, hash: Hash)
    requires CreateKey(dir, p, body, id, hash).1.Ok? && !IsSuperAdmin(p)
    ensures WithoutSuper(Normalized(body.scopes)) != [] && p.org == Some(body.org)
    ensures id in CreateKey(dir, p, body, id, hash).0.keys
    ensures CreateKey(dir, p, body, id, hash).0.keys[id]
         == Key(body.org, hash, Text.Join(WithoutSuper(Normalized(body.scopes))), false, None)
  {
  }

  /** A tenant's key creation either changes nothing or adds one key of its own organisation
      that does not carry super_admin. */
  lemma {:induction false} TenantCreates(dir: Directory, p: Principal, body: KeyRequest, id: KeyId, hash: Hash,
                                         org: string)
    requires TenantOf(p, org)
    ensures CreateKey(dir, p, body, id, hash).1.Ok? ==>
      var key := CreateKey(dir, p, body, id, hash).0.keys[id];
      key.org == org && key.hash == hash && SUPER_ADMIN !in ParseScopes(key.scopes)
    ensures !CreateKey(dir, p, body, id, hash).1.Ok? ==> CreateKey(dir, p, body, id, hash).0 == dir
  {
    if CreateKey(dir, p, body, id, hash).1.Ok? {
      CreatedRow(dir, p, body, id, hash);
      TenantGrant(body.scopes);
    }
  }

  lemma {:induction false} CreateKeepsRows(dir: Directory, p: Principal, body: KeyRequest, id: KeyId, hash: Hash)
    ensures forall i | i in dir.keys ::
      i in CreateKey(dir, p, body, id, hash).0.keys && CreateKey(dir, p, body, id, hash).0.keys[i] == dir.keys[i]
    ensures forall i | i in CreateKey(dir, p, body, id, hash).0.keys && i !in dir.keys ::
      i == id && CreateKey(dir, p, body, id, hash).0.keys[i].hash == hash && CreateKey(dir, p, body, id, hash).1.Ok?
    ensures CreateKey(dir, p, body, id, hash).1.Ok? ==>
      !Occupied(dir, id, hash) && id in CreateKey(dir, p, body, id, hash).0.keys
  {
  }

  /** The tenant's own moves. */
  predicate ByTenant(m: Move)
  {
    m.Create? || m.Revoke? || m.NewOrg? || m.Use?
  }

  lemma {:induction false} CreateConfined(w: World, env: set<Hash>, start: Principal, interval: nat, m: Move,
                                          org: string)
    requires Confined(w, env, org) && TenantOf(start, org) && Possible(w, env, m) && m.Create?
    ensures Confined(Make(w, env, start, interval, m), env, org)
    ensures OthersUntouched(w.dir, Make(w, env, start, interval, m).dir, org)
  {
    AuthenticatesAsTenant(w, env, start, interval, m.with, org);
    var (dir, p) := Authenticate(w, env, start, interval, m.with);
    if p.Some? {
      TenantCreateConfined(w.(dir := dir), env, p.value, m.body, m.id, m.hash, org);
      UntouchedTwice(w.dir, dir, CreateKey(dir, p.value, m.body, m.id, m.hash).0, org);
    }
  }

  lemma {:induction false} TenantCreateConfined(w: World, env: set<Hash>, p: Principal, body: KeyRequest,
                                                id: KeyId, hash: Hash, org: string)
    requires Confined(w, env, org) && TenantOf(p, org) && hash !in env
    ensures var (dir, reply) := CreateKey(w.dir, p, body, id, hash);
      && Confined(World(dir, if reply.Ok? then w.held + {hash} else w.held), env, org)
      && OthersUntouched(w.dir, dir, org)
  {
    TenantCreates(w.dir, p, body, id, hash, org);
    CreateKeepsRows(w.dir, p, body, id, hash);
    if CreateKey(w.dir, p, body, id, hash).1.Ok? {
      NewHashIsNew(w.dir, p, body, id, hash);
    }
  }

  /** A key is created only under a hash no stored key has. */
  lemma {:induction false} NewHashIsNew(dir: Directory, p: Principal, body: KeyRequest, id: KeyId, hash: Hash)
    requires CreateKey(dir, p, body, id, hash).1.Ok?
    ensures id !in dir.keys && forall i | i in dir.keys :: dir.keys[i].hash != hash
  {
  }

  lemma {:induction false} UntouchedTwice(a: Directory, b: Directory, c: Directory, org: string)
    requires OthersUntouched(a, b, org) && OthersUntouched(b, c, org)
    ensures OthersUntouched(a, c, org)
  {
  }

  lemma {:induction false} OtherCreateConfined(w: World, env: set<Hash>, start: Principal, interval: nat,
                                               m: Move, org: string)
    requires Confined(w, env, org) && Possible(w, env, m) && m.OtherCreate?
    ensures Confined(Make(w, env, start, interval, m), env, org)
  {
    CreateKeepsRows(w.dir, m.actor, m.body, m.id, m.hash);
  }

  lemma {:induction false} RevokeConfined(w: World, env: set<Hash>, p: Principal, id: KeyId, org: string)
    requires Confined(w, env, org)
    ensures Confined(w.(dir := RevokeKey(w.dir, p, id).0), env, org)
    ensures TenantOf(p, org) ==> OthersUntouched(w.dir, RevokeKey(w.dir, p, id).0, org)
  {
  }

  /** One move, whoever makes it, keeps the tenant confined; the tenant's own moves leave other
      organisations alone. */
  lemma {:induction false} MoveConfined(w: World, env: set<Hash>, start: Principal, interval: nat, m: Move, org: string)
    requires Confined(w, env, org) && TenantOf(start, org) && Possible(w, env, m)
    ensures Confined(Make(w, env, start, interval, m), env, org)
    ensures ByTenant(m) ==> OthersUntouched(w.dir, Make(w, env, start, interval, m).dir, org)
  {
    if ByTenant(m) {
      AuthenticatesAsTenant(w, env, start, interval, m.with, org);
    }
    match m
    case Create(_, _, _, _) => CreateConfined(w, env, start, interval, m, org);
    case OtherCreate(_, _, _, _) => OtherCreateConfined(w, env, start, interval, m, org);
    case Revoke(c, id) =>
      var (dir, p) := Authenticate(w, env, start, interval, c);
      if p.Some? {
        RevokeConfined(w.(dir := dir), env, p.value, id, org);
      }
    case OtherRevoke(actor, id) => RevokeConfined(w, env, actor, id, org);
    case NewOrg(_, _) =>
    case OtherOrg(_, _) =>
    case Use(_) =>
  }

  /** Every move is possible when its turn comes. */
  ghost predicate Playable(w: World, env: set<Hash>, start: Principal, interval: nat, moves: seq<Move>)
    decreases |moves|
  {
    moves == []
    || (Possible(w, env, moves[0])
        && Playable(Make(w, env, start, interval, moves[0]), env, start, interval, moves[1..]))
  }

  ghost function Play(w: World, env: set<Hash>, start: Principal, interval: nat, moves: seq<Move>): World
    requires Playable(w, env, start, interval, moves)
    decreases |moves|
  {
    if moves == [] then w else Play(Make(w, env, start, interval, moves[0]), env, start, interval, moves[1..])
  }

  lemma {:induction false} PlayConfined(w: World, env: set<Hash>, start: Principal, interval: nat,
                                        moves: seq<Move>, org: string)
    requires Confined(w, env, org) && TenantOf(start, org) && Playable(w, env, start, interval, moves)
    ensures Confined(Play(w, env, start, interval, moves), env, org)
    decreases |moves|
  {
    if moves != [] {
      MoveConfined(w, env, start, interval, moves[0], org);
      PlayConfined(Make(w, env, start, interval, moves[0]), env, start, interval, moves[1..], org);
    }
  }

  /** From any non-super principal of an organisation, no sequence of key creations, uses and
      revocations, mixed with anything others do, yields a principal with super_admin or of
      another organisation. */
  lemma {:induction false} NoEscalation(w: World, env: set<Hash>, start: Principal, interval: nat,
                                        moves: seq<Move>, org: string, c: Credential)
    requires Confined(w, env, org) && TenantOf(start, org) && Playable(w, env, start, interval, moves)
    requires Usable(Play(w, env, start, interval, moves), c)
    ensures var p := Authenticate(Play(w, env, start, interval, moves), env, start, interval, c).1;
      p.Some? ==> TenantOf(p.value, org)
  {
    PlayConfined(w, env, start, interval, moves, org);
    AuthenticatesAsTenant(Play(w, env, start, interval, moves), env, start, interval, c, org);
  }

  /** ... and, left to itself, the tenant changes no key of another organisation. */
  lemma {:induction false} NoCrossTenantChange(w: World, env: set<Hash>, start: Principal, interval: nat,
                                               moves: seq<Move>, org: string)
    requires Confined(w, env, org) && TenantOf(start, org) && Playable(w, env, start, interval, moves)
    requires forall i | 0 <= i < |moves| :: ByTenant(moves[i])
    ensures OthersUntouched(w.dir, Play(w, env, start, interval, moves).dir, org)
    decreases |moves|
  {
    if moves != [] {
      assert ByTenant(moves[0]);
      MoveConfined(w, env, start, interval, moves[0], org);
      NoCrossTenantChange(Make(w, env, start, interval, moves[0]), env, start, interval, moves[1..], org);
    }
  }

  /** The tenant walks away with the token of every key it creates, and loses none. */
  lemma {:induction false} CreatedTokenIsHeld(w: World, env: set<Hash>, start: Principal, interval: nat, m: Move)
    requires Possible(w, env, m)
    ensures w.held <= Make(w, env, start, interval, m).held
    ensures m.Create? && Make(w, env, start, interval, m).dir.keys.Keys != w.dir.keys.Keys ==>
      m.hash in Make(w, env, start, interval, m).held
  {
    if m.Create? {
      var (dir, p) := Authenticate(w, env, start, interval, m.with);
      if p.Some? {
        CreateKeepsRows(dir, p.value, m.body, m.id, m.hash);
      }
    }
  }

  // ---------------------------------------------------------------- what a key is good for

  /** The uniqueness constraint on stored hashes. */
  ghost predicate UniqueHashes(dir: Directory)
  {
    forall i, j | i in dir.keys && j in dir.keys && dir.keys[i].hash == dir.keys[j].hash :: i == j
  }

  lemma {:induction false} CreateKeepsUnique(dir: Directory, p: Principal, body: KeyRequest, id: KeyId, hash: Hash)
    requires UniqueHashes(dir)
    ensures UniqueHashes(CreateKey(dir, p, body, id, hash).0)
  {
    CreateKeepsRows(dir, p, body, id, hash);
    var after := CreateKey(dir, p, body, id, hash).0;
    forall i, j | i in after.keys && j in after.keys && after.keys[i].hash == after.keys[j].hash
      ensures i == j
    {
      assert i in dir.keys && dir.keys[i].hash == hash ==> Occupied(dir, id, hash);
      assert j in dir.keys && dir.keys[j].hash == hash ==> Occupied(dir, id, hash);
    }
  }

  /** A new key authenticates with its organisation and exactly the requested scopes, except that
      only a super admin can hand out super_admin. */
  lemma {:induction false} CreatedKeyWorks(dir: Directory, env: set<Hash>, p: Principal, body: KeyRequest,
                                           id: KeyId, hash: Hash,
                                           found: Option<KeyId>, now: int, interval: nat)
    requires UniqueHashes(dir) && CreateKey(dir, p, body, id, hash).1.Ok?
    requires LookupFinds(CreateKey(dir, p, body, id, hash).0, hash, found)
    ensures var q := Resolve(CreateKey(dir, p, body, id, hash).0, env, hash, true, found, now, interval).1;
      && q.Some? && q.value.keyId == Some(id) && q.value.org == Some(body.org)
      && (forall s :: s in q.value.scopes <==> Requested(body.scopes, s) && (s != SUPER_ADMIN || IsSuperAdmin(p)))
  {
    var after := CreateKey(dir, p, body, id, hash).0;
    CreateKeepsUnique(dir, p, body, id, hash);
    assert Matches(after, id, hash);
    NormalizedProps(body.scopes);
    if IsSuperAdmin(p) {
      StoredScopesReadBack(Normalized(body.scopes));
    } else {
      GrantRoundTrip(body.scopes);
    }
  }

  /** Using a key writes its time stamp exactly when at least the interval has passed since the last
      one written, or always if the interval is zero; nothing else is written. */
  lemma {:induction false} UseIsDebounced(dir: Directory, env: set<Hash>, hash: Hash, available: bool,
                                          found: Option<KeyId>, now: int, interval: nat)
    requires LookupFinds(dir, hash, found)
    ensures var after := Resolve(dir, env, hash, available, found, now, interval).0;
      && after.orgs == dir.orgs && after.keys.Keys == dir.keys.Keys
      && (forall id | id in dir.keys && (!available || found != Some(id)) :: after.keys[id] == dir.keys[id])
      && (available && found.Some? ==>
            var last := dir.keys[found.value].lastUsed;
            after.keys[found.value] == dir.keys[found.value].(
              lastUsed := if last.Some? && interval > 0 && now - last.value < interval then last else Some(now)))
  {
  }

  /** Without a stored key to go by, or without the database, a token is good exactly if it is an
      environment key, which is a super admin of no organisation. */
  lemma {:induction false} EnvKeysAreBootstrap(dir: Directory, env: set<Hash>, hash: Hash, available: bool,
                                               found: Option<KeyId>, now: int, interval: nat)
    requires LookupFinds(dir, hash, found) && (!available || forall id :: !Matches(dir, id, hash))
    ensures var (after, p) := Resolve(dir, env, hash, available, found, now, interval);
      && after == dir && (p.Some? <==> hash in env)
      && (p.Some? ==> p.value.org == None && p.value.scopes == {"chat", "admin", "super_admin"})
  {
  }

  /** The hash is taken, by revoked keys only. */
  ghost predicate Dead(dir: Directory, hash: Hash)
  {
    && (exists id | id in dir.keys :: dir.keys[id].hash == hash)
    && (forall id | id in dir.keys && dir.keys[id].hash == hash :: dir.keys[id].revoked)
  }

  /** No key is un-revoked, removed or given another hash. */
  ghost predicate OnlyGrows(before: Directory, after: Directory)
  {
    forall id | id in before.keys :: id in after.keys && after.keys[id].hash == before.keys[id].hash
      && (before.keys[id].revoked ==> after.keys[id].revoked)
  }

  /** Rows that appear have hashes that were not taken. */
  ghost predicate NewHashes(before: Directory, after: Directory)
  {
    forall id, i | id in after.keys && id !in before.keys && i in before.keys ::
      before.keys[i].hash != after.keys[id].hash
  }

  lemma {:induction false} DeadStays(before: Directory, after: Directory, hash: Hash)
    requires Dead(before, hash) && OnlyGrows(before, after) && NewHashes(before, after)
    ensures Dead(after, hash)
  {
    var row :| row in before.keys && before.keys[row].hash == hash;
    assert row in after.keys && after.keys[row].hash == hash;
  }

  lemma {:induction false} CreateKeepsDead(dir: Directory, p: Principal, body: KeyRequest, id: KeyId,
                                           newHash: Hash, hash: Hash)
    requires Dead(dir, hash)
    ensures Dead(CreateKey(dir, p, body, id, newHash).0, hash)
  {
    CreateKeepsRows(dir, p, body, id, newHash);
    var after := CreateKey(dir, p, body, id, newHash).0;
    if CreateKey(dir, p, body, id, newHash).1.Ok? {
      NewHashIsNew(dir, p, body, id, newHash);
    }
    DeadStays(dir, after, hash);
  }

  lemma {:induction false} RevokeKeepsDead(dir: Directory, p: Principal, id: KeyId, hash: Hash)
    requires Dead(dir, hash)
    ensures Dead(RevokeKey(dir, p, id).0, hash)
  {
    DeadStays(dir, RevokeKey(dir, p, id).0, hash);
  }

  lemma {:induction false} UseKeepsDead(w: World, env: set<Hash>, start: Principal, interval: nat,
                                        c: Credential, hash: Hash)
    requires Dead(w.dir, hash) && Usable(w, c)
    ensures Dead(Authenticate(w, env, start, interval, c).0, hash)
  {
    DeadStays(w.dir, Authenticate(w, env, start, interval, c).0, hash);
  }

  lemma {:induction false} MoveKeepsDead(w: World, env: set<Hash>, start: Principal, interval: nat, m: Move, hash: Hash)
    requires Dead(w.dir, hash) && Possible(w, env, m)
    ensures Dead(Make(w, env, start, interval, m).dir, hash)
  {
    if ByTenant(m) {
      UseKeepsDead(w, env, start, interval, m.with, hash);
      var (dir, p) := Authenticate(w, env, start, interval, m.with);
      if p.Some? && m.Create? {
        CreateKeepsDead(dir, p.value, m.body, m.id, m.hash, hash);
      } else if p.Some? && m.Revoke? {
        RevokeKeepsDead(dir, p.value, m.id, hash);
      }
    } else if m.OtherCreate? {
      CreateKeepsDead(w.dir, m.actor, m.body, m.id, m.hash, hash);
    } else if m.OtherRevoke? {
      RevokeKeepsDead(w.dir, m.actor, m.id, hash);
    }
  }

  lemma {:induction false} PlayKeepsDead(w: World, env: set<Hash>, start: Principal, interval: nat,
                                         moves: seq<Move>, hash: Hash)
    requires Dead(w.dir, hash) && Playable(w, env, start, interval, moves)
    ensures Dead(Play(w, env, start, interval, moves).dir, hash)
    decreases |moves|
  {
    if moves != [] {
      MoveKeepsDead(w, env, start, interval, moves[0], hash);
      PlayKeepsDead(Make(w, env, start, interval, moves[0]), env, start, interval, moves[1..], hash);
    }
  }

  /** Revocation is for good: after it, and after any sequence of moves by anyone, the token
      authenticates at most as an environment key. */
  lemma {:induction false} RevokedKeyIsDead(w: World, env: set<Hash>, revoker: Principal, id: KeyId, start: Principal,
                                            moves: seq<Move>, available: bool, found: Option<KeyId>, now: int,
                                            interval: nat, revoked: World, last: World)
    requires UniqueHashes(w.dir) && RevokeKey(w.dir, revoker, id).1.Ok?
    requires revoked == w.(dir := RevokeKey(w.dir, revoker, id).0)
    requires Playable(revoked, env, start, interval, moves) && last == Play(revoked, env, start, interval, moves)
    requires LookupFinds(last.dir, w.dir.keys[id].hash, found)
    ensures Resolve(last.dir, env, w.dir.keys[id].hash, available, found, now, interval).1
         == ValidateEnv(env, w.dir.keys[id].hash)
  {
    assert revoked.dir.keys[id].hash == w.dir.keys[id].hash;
    PlayKeepsDead(revoked, env, start, interval, moves, w.dir.keys[id].hash);
  }

  // ---------------------------------------------------------------- what each operation takes

  /** Without the admin scope all three operations are refused and change nothing. */
  lemma {:induction false} AdminScopeRequired(dir: Directory, p: Principal, body: KeyRequest, id: KeyId, hash: Hash,
                                              org: string)
    requires "admin" !in p.scopes
    ensures CreateKey(dir, p, body, id, hash) == (dir, Refused(401))
    ensures RevokeKey(dir, p, id) == (dir, Refused(401))
    ensures CreateOrg(dir, p, org) == (dir, Refused(401))
  {
  }

  /** Some requested scope is one that a super admin, or anyone else, may hand out. */
  ghost predicate Grantable(scopes: seq<string>, super: bool)
  {
    exists s :: Requested(scopes, s) && (s != SUPER_ADMIN || super)
  }

  lemma {:induction false} GrantableIff(scopes: seq<string>, super: bool)
    ensures (if super then Normalized(scopes) else WithoutSuper(Normalized(scopes))) != [] <==> Grantable(scopes, super)
  {
    NormalizedProps(scopes);
    WithoutSuperProps(Normalized(scopes));
    var granted := if super then Normalized(scopes) else WithoutSuper(Normalized(scopes));
    if granted != [] {
      assert granted[0] in granted;
      assert Requested(scopes, granted[0]);
    }
    if s :| Requested(scopes, s) && (s != SUPER_ADMIN || super) {
      assert s in granted;
    }
  }

  /** Exactly when a key is created: by an admin, for its own organisation unless it is a super admin,
      with a scope it may hand out, for an organisation that exists, under a new id and hash. */
  lemma {:induction false} CreateSucceedsIff(dir: Directory, p: Principal, body: KeyRequest, id: KeyId, hash: Hash)
    ensures CreateKey(dir, p, body, id, hash).1.Ok? <==>
      && "admin" in p.scopes && (IsSuperAdmin(p) || p.org == Some(body.org))
      && Grantable(body.scopes, IsSuperAdmin(p))
      && body.org in dir.orgs && id !in dir.keys && (forall i | i in dir.keys :: dir.keys[i].hash != hash)
    ensures !CreateKey(dir, p, body, id, hash).1.Ok? ==> CreateKey(dir, p, body, id, hash).0 == dir
  {
    GrantableIff(body.scopes, IsSuperAdmin(p));
  }

  /** Exactly when a key is revoked: by an admin, if the key exists and is of its organisation or the
      admin is a super admin; and then this key alone changes. */
  lemma {:induction false} RevokeSucceedsIff(dir: Directory, p: Principal, id: KeyId)
    ensures RevokeKey(dir, p, id).1.Ok? <==>
      "admin" in p.scopes && id in dir.keys && (IsSuperAdmin(p) || p.org == Some(dir.keys[id].org))
    ensures RevokeKey(dir, p, id).1.Ok? ==> RevokeKey(dir, p, id).0.keys[id].revoked
    ensures RevokeKey(dir, p, id).0.orgs == dir.orgs && RevokeKey(dir, p, id).0.keys.Keys == dir.keys.Keys
    ensures forall i | i in dir.keys && (i != id || !RevokeKey(dir, p, id).1.Ok?) ::
      RevokeKey(dir, p, id).0.keys[i] == dir.keys[i]
  {
  }

  /** Organisations are created by super admins who are admins, once each, and change no key. */
  lemma {:induction false} CreateOrgSucceedsIff(dir: Directory, p: Principal, org: string)
    ensures CreateOrg(dir, p, org).1.Ok? <==> "admin" in p.scopes && IsSuperAdmin(p) && org !in dir.orgs
    ensures CreateOrg(dir, p, org).0.keys == dir.keys
    ensures forall o :: o in CreateOrg(dir, p, org).0.orgs
                   <==> o in dir.orgs || (o == org && CreateOrg(dir, p, org).1.Ok?)
  {
  }

  // ---------------------------------------------------------------- a key works until it is revoked

  /** Every stored key is still there with the same organisation, hash and scopes. */
  ghost predicate RowsKept(before: Directory, after: Directory)
  {
    forall id | id in before.keys :: id in after.keys && SameKey(before.keys[id], after.keys[id])
  }

  predicate SameKey(a: Key, b: Key)
  {
    a.org == b.org && a.hash == b.hash && a.scopes == b.scopes
  }

  lemma {:induction false} MoveKeepsRows(w: World, env: set<Hash>, start: Principal, interval: nat, m: Move)
    requires UniqueHashes(w.dir) && Possible(w, env, m)
    ensures RowsKept(w.dir, Make(w, env, start, interval, m).dir)
    ensures UniqueHashes(Make(w, env, start, interval, m).dir)
  {
    if ByTenant(m) {
      var (dir, p) := Authenticate(w, env, start, interval, m.with);
      UseKeepsRows(w, env, start, interval, m.with);
      if p.Some? && m.Create? {
        CreateKeepsRows(dir, p.value, m.body, m.id, m.hash);
        CreateKeepsUnique(dir, p.value, m.body, m.id, m.hash);
        RowsKeptTwice(w.dir, dir, CreateKey(dir, p.value, m.body, m.id, m.hash).0);
      } else if p.Some? && m.Revoke? {
        RevokeKeepsRows(dir, p.value, m.id);
        RowsKeptTwice(w.dir, dir, RevokeKey(dir, p.value, m.id).0);
      }
    } else if m.OtherCreate? {
      CreateKeepsRows(w.dir, m.actor, m.body, m.id, m.hash);
      CreateKeepsUnique(w.dir, m.actor, m.body, m.id, m.hash);
    } else if m.OtherRevoke? {
      RevokeKeepsRows(w.dir, m.actor, m.id);
    }
  }

  lemma {:induction false} UseKeepsRows(w: World, env: set<Hash>, start: Principal, interval: nat, c: Credential)
    requires UniqueHashes(w.dir) && Usable(w, c)
    ensures var dir := Authenticate(w, env, start, interval, c).0; RowsKept(w.dir, dir) && UniqueHashes(dir)
  {
  }

  lemma {:induction false} RevokeKeepsRows(dir: Directory, p: Principal, id: KeyId)
    requires UniqueHashes(dir)
    ensures RowsKept(dir, RevokeKey(dir, p, id).0) && UniqueHashes(RevokeKey(dir, p, id).0)
  {
  }

  lemma {:induction false} RowsKeptTwice(a: Directory, b: Directory, c: Directory)
    requires RowsKept(a, b) && RowsKept(b, c)
    ensures RowsKept(a, c)
  {
  }

  lemma {:induction false} PlayKeepsRows(w: World, env: set<Hash>, start: Principal, interval: nat, moves: seq<Move>)
    requires UniqueHashes(w.dir) && Playable(w, env, start, interval, moves)
    ensures RowsKept(w.dir, Play(w, env, start, interval, moves).dir)
    ensures UniqueHashes(Play(w, env, start, interval, moves).dir)
    decreases |moves|
  {
    if moves != [] {
      var next := Make(w, env, start, interval, moves[0]);
      MoveKeepsRows(w, env, start, interval, moves[0]);
      PlayKeepsRows(next, env, start, interval, moves[1..]);
      RowsKeptTwice(w.dir, next.dir, Play(next, env, start, interval, moves[1..]).dir);
    }
  }

  /** A key works until it is revoked: after any sequence of moves by anyone, as long as its row is
      not revoked and the database answers, its token authenticates as that key, with the
      organisation and the scopes it was stored with. */
  lemma {:induction false} KeyWorksUntilRevoked(w: World, env: set<Hash>, start: Principal, interval: nat,
                                                moves: seq<Move>, id: KeyId, found: Option<KeyId>, now: int,
                                                last: World)
    requires UniqueHashes(w.dir) && id in w.dir.keys && Playable(w, env, start, interval, moves)
    requires last == Play(w, env, start, interval, moves) && LookupFinds(last.dir, w.dir.keys[id].hash, found)
    requires id in last.dir.keys && !last.dir.keys[id].revoked
    ensures Resolve(last.dir, env, w.dir.keys[id].hash, true, found, now, interval).1
         == Some(Principal(w.dir.keys[id].hash, Some(id), Some(w.dir.keys[id].org), ParseScopes(w.dir.keys[id].scopes)))
  {
    PlayKeepsRows(w, env, start, interval, moves);
    assert SameKey(w.dir.keys[id], last.dir.keys[id]);
    assert Matches(last.dir, id, w.dir.keys[id].hash);
  }

  // ---------------------------------------------------------------- a tenant without the admin scope

  /** No token the tenant holds carries the admin scope. */
  ghost predicate Powerless(w: World, env: set<Hash>)
  {
    forall h | h in w.held ::
      h !in env && forall id | id in w.dir.keys && w.dir.keys[id].hash == h ::
        "admin" !in ParseScopes(w.dir.keys[id].scopes)
  }

  lemma {:induction false} AuthenticatesPowerless(w: World, env: set<Hash>, start: Principal, interval: nat,
                                                  c: Credential)
    requires Powerless(w, env) && "admin" !in start.scopes && Usable(w, c)
    ensures var (dir, p) := Authenticate(w, env, start, interval, c);
      (p.Some? ==> "admin" !in p.value.scopes) && Powerless(w.(dir := dir), env)
  {
  }

  /** A tenant without the admin scope gets nothing done by its own moves, and nobody's moves give
      its tokens that scope. */
  lemma {:induction false} MoveKeepsPowerless(w: World, env: set<Hash>, start: Principal, interval: nat, m: Move)
    requires Powerless(w, env) && "admin" !in start.scopes && Possible(w, env, m)
    ensures Powerless(Make(w, env, start, interval, m), env)
    ensures Make(w, env, start, interval, m).held == w.held
  {
    if ByTenant(m) {
      AuthenticatesPowerless(w, env, start, interval, m.with);
    } else if m.OtherCreate? {
      CreateKeepsRows(w.dir, m.actor, m.body, m.id, m.hash);
    }
  }

  /** A tenant that starts without the admin scope never obtains it, whatever it and others do. */
  lemma {:induction false} NoAdminWithoutAdmin(w: World, env: set<Hash>, start: Principal, interval: nat,
                                               moves: seq<Move>, c: Credential)
    requires Powerless(w, env) && "admin" !in start.scopes && Playable(w, env, start, interval, moves)
    requires Usable(Play(w, env, start, interval, moves), c)
    ensures var p := Authenticate(Play(w, env, start, interval, moves), env, start, interval, c).1;
      p.Some? ==> "admin" !in p.value.scopes
    decreases |moves|
  {
    if moves == [] {
      AuthenticatesPowerless(w, env, start, interval, c);
    } else {
      MoveKeepsPowerless(w, env, start, interval, moves[0]);
      NoAdminWithoutAdmin(Make(w, env, start, interval, moves[0]), env, start, interval, moves[1..], c);
    }
  }
}
