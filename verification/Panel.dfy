/** The panel's database and its operations (internal/service), each a function from a database to
    the next one and an outcome. A failed operation is rolled back: it returns its argument. */
module Panel {
  import opened GoStrings
  import opened Models
  import opened Subscription

  /** Whether unique indexes cover soft-deleted rows (GORM's AutoMigrate) or not (the SQL file). */
  datatype IndexScope = AllRows | LiveRows

  /** What the tables enforce: the rows the unique indexes cover, and whether an association's
      inbound is a foreign key (as in the SQL file) or not (as in AutoMigrate, which makes the
      table of UserInbound, a struct without associations). */
  datatype Schema = Schema(unique: IndexScope, foreignKey: bool)

  datatype DB = DB(
    users: map<nat, User>,
    nodes: map<nat, Node>,
    inbounds: map<nat, Inbound>,
    joins: map<(nat, nat), bool>,
    nextUser: nat,
    nextNode: nat,
    nextInbound: nat,
    schema: Schema)

  datatype Error = NotFound | Conflict | Validation | Rejected

  datatype Outcome = Done | Failed(error: Error)

  predicate LiveUser(db: DB, id: nat) {
    id in db.users && !db.users[id].deleted
  }

  predicate LiveNode(db: DB, id: nat) {
    id in db.nodes && !db.nodes[id].deleted
  }

  predicate LiveInbound(db: DB, id: nat) {
    id in db.inbounds && !db.inbounds[id].deleted
  }

  // ---- users ----

  datatype Credentials = Credentials(uuid: Str, trojanPassword: Str, ssPassword: Str, subToken: Str)

  datatype CreateInput = CreateInput(
    username: Str,
    dataLimit: int64,
    expireAt: Option<int>,
    dataStrategy: Str,
    ssMethod: Str,
    note: Str,
    inboundIds: seq<nat>)

  /** None leaves a field unchanged; an expiry can also be set to never. */
  datatype Patch = Patch(
    status: Option<UserStatus>,
    dataLimit: Option<int64>,
    expireAt: Option<Option<int>>,
    dataStrategy: Option<Str>,
    note: Option<Str>,
    inboundIds: Option<seq<nat>>)

  function OrElse<T>(o: Option<T>, x: T): T {
    match o
    case None => x
    case Some(y) => y
  }

  const NO_RESET: Str := "no_reset"

  function NewUser(id: nat, input: CreateInput, c: Credentials): User {
    User(id, input.username, Active, c.uuid, c.trojanPassword, c.ssPassword,
         if input.ssMethod == [] then DEFAULT_SS_METHOD else input.ssMethod,
         c.subToken, input.dataLimit, 0, 0,
         if input.dataStrategy == [] then NO_RESET else input.dataStrategy,
         None, input.expireAt, input.note, None, false)
  }

  /** The rows a unique index covers. */
  predicate Covered(db: DB, id: nat) {
    id in db.users && (db.schema.unique == AllRows || !db.users[id].deleted)
  }

  predicate SameIdentity(u: User, v: User) {
    u.username == v.username || u.uuid == v.uuid || u.subToken == v.subToken
  }

  /** Another covered row has the username, UUID or token of u. */
  predicate Clashes(db: DB, u: User) {
    exists id :: id in db.users && Covered(db, id) && id != u.id && SameIdentity(db.users[id], u)
  }

  predicate NoDuplicates(ids: seq<nat>) {
    forall i, j :: 0 <= i < j < |ids| ==> ids[i] != ids[j]
  }

  /** Whether an association may point to id. */
  predicate Referable(db: DB, id: nat) {
    db.schema.foreignKey ==> id in db.inbounds
  }

  /** The rows (user, id) violate neither the primary key nor the foreign key of the join table. */
  predicate CanAssociate(db: DB, ids: seq<nat>) {
    NoDuplicates(ids) && forall i :: i in ids ==> Referable(db, i)
  }

  function Associate(joins: map<(nat, nat), bool>, user: nat, ids: seq<nat>): map<(nat, nat), bool> {
    joins + map i | i in ids :: (user, i) := true
  }

  function Dissociate(joins: map<(nat, nat), bool>, user: nat): map<(nat, nat), bool> {
    map k | k in joins && k.0 != user :: joins[k]
  }

  function Inserted(db: DB, u: User, ids: seq<nat>): DB {
    db.(users := db.users[u.id := u], joins := Associate(db.joins, u.id, ids), nextUser := u.id + 1)
  }

  function CreateUser(db: DB, input: CreateInput, c: Credentials): (DB, Outcome) {
    var u := NewUser(db.nextUser, input, c);
    if input.username == [] || input.dataLimit < 0 then (db, Failed(Validation))
    else if Clashes(db, u) then (db, Failed(Conflict))
    else if !CanAssociate(db, input.inboundIds) then (db, Failed(Rejected))
    else (Inserted(db, u, input.inboundIds), Done)
  }

  function Patched(u: User, p: Patch): User {
    u.(status := OrElse(p.status, u.status),
       dataLimit := OrElse(p.dataLimit, u.dataLimit),
       expireAt := OrElse(p.expireAt, u.expireAt),
       dataStrategy := OrElse(p.dataStrategy, u.dataStrategy),
       note := OrElse(p.note, u.note))
  }

  function UpdateUser(db: DB, id: nat, p: Patch): (DB, Outcome) {
    if !LiveUser(db, id) then (db, Failed(NotFound))
    else if p.dataLimit.Some? && p.dataLimit.value < 0 then (db, Failed(Validation))
    else
      var db1 := db.(users := db.users[id := Patched(db.users[id], p)]);
      match p.inboundIds
      case None => (db1, Done)
      case Some(ids) =>
        if !CanAssociate(db, ids) then (db, Failed(Rejected))
        else (db1.(joins := Associate(Dissociate(db.joins, id), id, ids)), Done)
  }

  function Reset(u: User, now: int): User {
    u.(usedUp := 0, usedDown := 0, lastResetAt := Some(now), status := if u.status == Limited then Active else u.status)
  }

  function ResetTraffic(db: DB, id: nat, now: int): (DB, Outcome) {
    if !LiveUser(db, id) then (db, Failed(NotFound))
    else (db.(users := db.users[id := Reset(db.users[id], now)]), Done)
  }

  function DeleteUser(db: DB, id: nat): (DB, Outcome) {
    if !LiveUser(db, id) then (db, Failed(NotFound))
    else (db.(users := db.users[id := db.users[id].(deleted := true)], joins := Dissociate(db.joins, id)), Done)
  }

  function RegenerateSubToken(db: DB, id: nat, token: Str): (DB, Outcome) {
    if !LiveUser(db, id) then (db, Failed(NotFound))
    else
      var u := db.users[id].(subToken := token);
      if Clashes(db, u) then (db, Failed(Rejected)) else (db.(users := db.users[id := u]), Done)
  }

  // ---- nodes and inbounds ----

  /** A false is_active is stored as its column default, true. */
  function NewNode(id: nat, n: Node): Node {
    n.(id := id, isActive := true, deleted := false)
  }

  function CreateNode(db: DB, n: Node): (DB, Outcome) {
    if n.name == [] || n.address == [] then (db, Failed(Validation))
    else if n.core != Xray && n.core != SingBox then (db, Failed(Validation))
    else (db.(nodes := db.nodes[db.nextNode := NewNode(db.nextNode, n)], nextNode := db.nextNode + 1), Done)
  }

  /** A soft delete: the row and its inbounds stay. */
  function DeleteNode(db: DB, id: nat): (DB, Outcome) {
    if !LiveNode(db, id) then (db, Failed(NotFound))
    else (db.(nodes := db.nodes[id := db.nodes[id].(deleted := true)]), Done)
  }

  const DEFAULT_LISTEN: Str := "0.0.0.0"
  const DEFAULT_NETWORK: Str := "tcp"
  const DEFAULT_SECURITY: Str := "none"

  /** Zero values are stored as their column defaults. */
  function NewInbound(id: nat, i: Inbound): Inbound {
    i.(id := id,
       listen := if i.listen == [] then DEFAULT_LISTEN else i.listen,
       network := if i.network == [] then DEFAULT_NETWORK else i.network,
       security := if i.security == [] then DEFAULT_SECURITY else i.security,
       isActive := true,
       deleted := false)
  }

  function CreateInbound(db: DB, i: Inbound): (DB, Outcome) {
    if !i.protocol.Valid() then (db, Failed(Validation))
    else if !LiveNode(db, i.nodeId) then (db, Failed(NotFound))
    else if !i.protocol.SupportedBy(db.nodes[i.nodeId].core) then (db, Failed(Validation))
    else if i.port <= 0 || i.port > 65535 then (db, Failed(Validation))
    else (db.(inbounds := db.inbounds[db.nextInbound := NewInbound(db.nextInbound, i)], nextInbound := db.nextInbound + 1), Done)
  }

  function DeleteInbound(db: DB, id: nat): (DB, Outcome) {
    if !LiveInbound(db, id) then (db, Failed(NotFound))
    else (db.(inbounds := db.inbounds[id := db.inbounds[id].(deleted := true)]), Done)
  }

  // ---- reading a subscription ----

  predicate HasToken(db: DB, id: nat, token: Str) {
    LiveUser(db, id) && db.users[id].subToken == token
  }

  predicate FirstWithToken(db: DB, id: nat, token: Str) {
    HasToken(db, id, token) && forall id' :: id' in db.users && HasToken(db, id', token) ==> id <= id'
  }

  lemma FirstExists(db: DB, token: Str, id: nat)
    requires HasToken(db, id, token)
    ensures exists x :: x in db.users && FirstWithToken(db, x, token)
    decreases id
  {
    if id' :| id' in db.users && HasToken(db, id', token) && id' < id {
      FirstExists(db, token, id');
    } else {
      assert FirstWithToken(db, id, token);
    }
  }

  /** The first live row with the token, in primary-key order. */
  function GetBySubToken(db: DB, token: Str): (r: Option<nat>)
    ensures r.Some? ==> FirstWithToken(db, r.value, token)
    ensures r.None? ==> forall id :: id in db.users ==> !HasToken(db, id, token)
  {
    if exists id :: id in db.users && HasToken(db, id, token) then
      assert exists x :: x in db.users && FirstWithToken(db, x, token) by {
        var id :| id in db.users && HasToken(db, id, token);
        FirstExists(db, token, id);
      }
      var id :| id in db.users && FirstWithToken(db, id, token);
      Some(id)
    else None
  }

  /** The preloaded inbounds of a user: its live associated inbounds, once each, in any order. */
  predicate IsPreload(db: DB, user: nat, ins: seq<Inbound>) {
    && (forall a, b :: 0 <= a < b < |ins| ==> ins[a].id != ins[b].id)
    && (forall i :: i in ins ==> (user, i.id) in db.joins && LiveInbound(db, i.id) && i == db.inbounds[i.id])
    && (forall k :: k in db.joins && k.0 == user && LiveInbound(db, k.1) ==> db.inbounds[k.1] in ins)
  }

  /** The naive join: every inbound with its node, skipping those whose node is not live. */
  function Resolve(db: DB, ins: seq<Inbound>): (pairs: seq<NodeInbound>)
    ensures |pairs| <= |ins|
  {
    if ins == [] then []
    else
      (if LiveNode(db, ins[0].nodeId) then [NodeInbound(db.nodes[ins[0].nodeId], ins[0])] else [])
      + Resolve(db, ins[1..])
  }

  function Fetched(db: DB, id: nat, now: int): DB
    requires id in db.users
  {
    db.(users := db.users[id := db.users[id].(subLastAt := Some(now))])
  }

  /** A fetch of the document is recorded on the user. */
  function FetchSubscription(db: DB, token: Str, now: int): (DB, Outcome) {
    match GetBySubToken(db, token)
    case None => (db, Failed(NotFound))
    case Some(id) => (Fetched(db, id, now), Done)
  }

  // ---- the environment ----

  /** Traffic accounting, which the repository leaves to the cores: counters grow. */
  function AddUsage(db: DB, id: nat, up: nat, down: nat): (DB, Outcome) {
    if !LiveUser(db, id) || !CanUse(db.users[id], up, down) then (db, Failed(Rejected))
    else (db.(users := db.users[id := Used(db.users[id], up, down)]), Done)
  }

  predicate CanUse(u: User, up: nat, down: nat) {
    u.usedUp + up < TWO_TO_63 && u.usedDown + down < TWO_TO_63
  }

  function Used(u: User, up: nat, down: nat): User
    requires CanUse(u, up, down)
  {
    u.(usedUp := u.usedUp + up, usedDown := u.usedDown + down)
  }

  datatype Op =
    | OpCreateUser(input: CreateInput, credentials: Credentials)
    | OpUpdateUser(id: nat, patch: Patch)
    | OpResetTraffic(id: nat, now: int)
    | OpDeleteUser(id: nat)
    | OpRegenerate(id: nat, token: Str)
    | OpCreateNode(node: Node)
    | OpDeleteNode(id: nat)
    | OpCreateInbound(inbound: Inbound)
    | OpDeleteInbound(id: nat)
    | OpFetch(token: Str, now: int)
    | OpAddUsage(id: nat, up: nat, down: nat)

  function Apply(db: DB, op: Op): (DB, Outcome) {
    match op
    case OpCreateUser(input, c) => CreateUser(db, input, c)
    case OpUpdateUser(id, p) => UpdateUser(db, id, p)
    case OpResetTraffic(id, now) => ResetTraffic(db, id, now)
    case OpDeleteUser(id) => DeleteUser(db, id)
    case OpRegenerate(id, token) => RegenerateSubToken(db, id, token)
    case OpCreateNode(n) => CreateNode(db, n)
    case OpDeleteNode(id) => DeleteNode(db, id)
    case OpCreateInbound(i) => CreateInbound(db, i)
    case OpDeleteInbound(id) => DeleteInbound(db, id)
    case OpFetch(token, now) => FetchSubscription(db, token, now)
    case OpAddUsage(id, up, down) => AddUsage(db, id, up, down)
  }

  function Step(db: DB, op: Op): DB {
    Apply(db, op).0
  }

  function Run(db: DB, ops: seq<Op>): DB
    decreases |ops|
  {
    if ops == [] then db else Run(Step(db, ops[0]), ops[1..])
  }

  function Empty(schema: Schema): DB {
    DB(map[], map[], map[], map[], 1, 1, 1, schema)
  }

  // ---- the invariant ----

  ghost predicate UsersOk(db: DB) {
    RowsOk(db) && IdentitiesUnique(db)
  }

  ghost predicate RowsOk(db: DB) {
    forall id :: id in db.users ==>
      && db.users[id].id == id && id < db.nextUser
      && db.users[id].dataLimit >= 0 && db.users[id].usedUp >= 0 && db.users[id].usedDown >= 0
  }

  ghost predicate IdentitiesUnique(db: DB) {
    forall a, b :: Covered(db, a) && Covered(db, b) && a != b ==> !SameIdentity(db.users[a], db.users[b])
  }

  ghost predicate JoinsOk(db: DB) {
    JoinsPoint(db, db.joins)
  }

  ghost predicate JoinsPoint(db: DB, joins: map<(nat, nat), bool>) {
    forall k :: k in joins ==> joins[k] && LiveUser(db, k.0) && Referable(db, k.1)
  }

  ghost predicate NodesOk(db: DB) {
    forall id :: id in db.nodes ==>
      && db.nodes[id].id == id && id < db.nextNode
      && db.nodes[id].isActive && db.nodes[id].name != [] && db.nodes[id].address != []
      && (db.nodes[id].core == Xray || db.nodes[id].core == SingBox)
  }

  ghost predicate InboundsOk(db: DB) {
    forall id :: id in db.inbounds ==>
      var i := db.inbounds[id];
      && i.id == id && id < db.nextInbound && i.isActive
      && 1 <= i.port <= 65535
      && i.nodeId in db.nodes && i.protocol.SupportedBy(db.nodes[i.nodeId].core)
  }

  ghost predicate Inv(db: DB) {
    UsersOk(db) && JoinsOk(db) && NodesOk(db) && InboundsOk(db)
  }

  predicate KeepsIdentity(u: User, v: User) {
    u.username == v.username && u.uuid == v.uuid && u.subToken == v.subToken
  }

  /** Fewer covered rows with the same identities are still unique. */
  lemma FewerUnique(db: DB, db': DB)
    requires IdentitiesUnique(db)
    requires forall a :: Covered(db', a) ==> Covered(db, a) && KeepsIdentity(db.users[a], db'.users[a])
    ensures IdentitiesUnique(db')
  {
    forall a, b | Covered(db', a) && Covered(db', b) && a != b ensures !SameIdentity(db'.users[a], db'.users[b]) {
      assert !SameIdentity(db.users[a], db.users[b]);
    }
  }

  /** Writing a row that clashes with no other covered one keeps identities unique. */
  lemma PutUnique(db: DB, u: User)
    requires RowsOk(db) && IdentitiesUnique(db) && !Clashes(db, u)
    ensures IdentitiesUnique(db.(users := db.users[u.id := u]))
  {
    var db' := db.(users := db.users[u.id := u]);
    forall a, b | Covered(db', a) && Covered(db', b) && a != b ensures !SameIdentity(db'.users[a], db'.users[b]) {
      assert a != u.id ==> Covered(db, a) && !SameIdentity(db.users[a], u);
      assert b != u.id ==> Covered(db, b) && !SameIdentity(db.users[b], u);
    }
  }

  lemma InsertKeeps(db: DB, u: User)
    requires UsersOk(db) && u.id == db.nextUser && u.dataLimit >= 0 && u.usedUp == u.usedDown == 0
    requires !Clashes(db, u)
    ensures UsersOk(db.(users := db.users[u.id := u], nextUser := u.id + 1))
  {
    PutUnique(db, u);
    FewerUnique(db.(users := db.users[u.id := u]), db.(users := db.users[u.id := u], nextUser := u.id + 1));
  }

  lemma AssociatePoints(db: DB, joins: map<(nat, nat), bool>, id: nat, ids: seq<nat>)
    requires JoinsPoint(db, joins) && LiveUser(db, id) && CanAssociate(db, ids)
    ensures JoinsPoint(db, Associate(joins, id, ids))
  {
    var all := Associate(joins, id, ids);
    assert forall k :: k in all ==> k in joins || (k.0 == id && k.1 in ids);
  }

  lemma InsertedKeeps(db: DB, u: User, ids: seq<nat>)
    requires Inv(db) && u.id == db.nextUser && !u.deleted && u.dataLimit >= 0 && u.usedUp == u.usedDown == 0
    requires !Clashes(db, u) && CanAssociate(db, ids)
    ensures Inv(Inserted(db, u, ids))
  {
    var db1 := db.(users := db.users[u.id := u], nextUser := u.id + 1);
    InsertKeeps(db, u);
    JoinsStillPoint(db, db1);
    AssociatePoints(db1, db.joins, u.id, ids);
    UsersOkIgnoresJoins(db1, Associate(db.joins, u.id, ids));
  }

  lemma JoinsStillPoint(db: DB, db1: DB)
    requires JoinsOk(db) && db1.inbounds == db.inbounds && db1.schema == db.schema
    requires forall id :: LiveUser(db, id) ==> LiveUser(db1, id)
    ensures JoinsPoint(db1, db.joins)
  {
  }

  lemma UsersOkIgnoresJoins(db: DB, joins: map<(nat, nat), bool>)
    requires UsersOk(db)
    ensures UsersOk(db.(joins := joins))
  {
    FewerUnique(db, db.(joins := joins));
  }

  lemma CreateUserKeeps(db: DB, input: CreateInput, c: Credentials)
    requires Inv(db)
    ensures Inv(CreateUser(db, input, c).0)
  {
    if CreateUser(db, input, c).1.Done? {
      InsertedKeeps(db, NewUser(db.nextUser, input, c), input.inboundIds);
    }
  }

  lemma RegenerateKeeps(db: DB, id: nat, token: Str)
    requires Inv(db)
    ensures Inv(RegenerateSubToken(db, id, token).0)
  {
    if RegenerateSubToken(db, id, token).1.Done? {
      PutKeeps(db, db.users[id].(subToken := token));
    }
  }

  lemma PutKeeps(db: DB, u: User)
    requires Inv(db) && LiveUser(db, u.id) && !u.deleted && !Clashes(db, u)
    requires u.dataLimit >= 0 && u.usedUp >= 0 && u.usedDown >= 0
    ensures Inv(db.(users := db.users[u.id := u]))
  {
    PutUnique(db, u);
    JoinsStillPoint(db, db.(users := db.users[u.id := u]));
  }

  /** Rewriting a user's row without touching what identifies it. */
  lemma RowKeeps(db: DB, id: nat, u: User)
    requires Inv(db) && LiveUser(db, id)
    requires u.id == id && !u.deleted && u.dataLimit >= 0 && u.usedUp >= 0 && u.usedDown >= 0
    requires KeepsIdentity(db.users[id], u)
    ensures Inv(db.(users := db.users[id := u]))
  {
    FewerUnique(db, db.(users := db.users[id := u]));
    JoinsStillPoint(db, db.(users := db.users[id := u]));
  }

  lemma AssociateKeeps(db: DB, id: nat, ids: seq<nat>)
    requires Inv(db) && LiveUser(db, id) && CanAssociate(db, ids)
    ensures Inv(db.(joins := Associate(Dissociate(db.joins, id), id, ids)))
  {
    AssociatePoints(db, Dissociate(db.joins, id), id, ids);
  }

  lemma UpdateUserKeeps(db: DB, id: nat, p: Patch)
    requires Inv(db)
    ensures Inv(UpdateUser(db, id, p).0)
  {
    if LiveUser(db, id) && (p.dataLimit.Some? ==> p.dataLimit.value >= 0) {
      var db1 := db.(users := db.users[id := Patched(db.users[id], p)]);
      RowKeeps(db, id, Patched(db.users[id], p));
      if p.inboundIds.Some? && CanAssociate(db, p.inboundIds.value) {
        AssociateKeeps(db1, id, p.inboundIds.value);
      }
    }
  }

  lemma ResetTrafficKeeps(db: DB, id: nat, now: int)
    requires Inv(db)
    ensures Inv(ResetTraffic(db, id, now).0)
  {
    if LiveUser(db, id) {
      RowKeeps(db, id, Reset(db.users[id], now));
    }
  }

  lemma SoftDeleteKeeps(db: DB, id: nat)
    requires UsersOk(db) && LiveUser(db, id)
    ensures UsersOk(db.(users := db.users[id := db.users[id].(deleted := true)]))
  {
    FewerUnique(db, db.(users := db.users[id := db.users[id].(deleted := true)]));
  }

  lemma DeletedJoins(db: DB, id: nat)
    requires JoinsOk(db) && LiveUser(db, id)
    ensures JoinsOk(DeleteUser(db, id).0)
  {
    assert forall k :: k in Dissociate(db.joins, id) ==> k in db.joins && k.0 != id;
  }

  lemma DeleteUserKeeps(db: DB, id: nat)
    requires Inv(db)
    ensures Inv(DeleteUser(db, id).0)
  {
    if LiveUser(db, id) {
      SoftDeleteKeeps(db, id);
      DeletedJoins(db, id);
    }
  }

  lemma FetchKeeps(db: DB, token: Str, now: int)
    requires Inv(db)
    ensures Inv(FetchSubscription(db, token, now).0)
  {
    var r := GetBySubToken(db, token);
    if r.Some? {
      RowKeeps(db, r.value, db.users[r.value].(subLastAt := Some(now)));
    }
  }

  lemma AddUsageKeeps(db: DB, id: nat, up: nat, down: nat)
    requires Inv(db)
    ensures Inv(AddUsage(db, id, up, down).0)
  {
    if AddUsage(db, id, up, down).1.Done? {
      RowKeeps(db, id, Used(db.users[id], up, down));
    }
  }

  lemma CreateNodeKeeps(db: DB, n: Node)
    requires Inv(db)
    ensures Inv(CreateNode(db, n).0)
  {
  }

  lemma DeleteNodeKeeps(db: DB, id: nat)
    requires Inv(db)
    ensures Inv(DeleteNode(db, id).0)
  {
  }

  lemma CreateInboundKeeps(db: DB, i: Inbound)
    requires Inv(db)
    ensures Inv(CreateInbound(db, i).0)
  {
  }

  lemma DeleteInboundKeeps(db: DB, id: nat)
    requires Inv(db)
    ensures Inv(DeleteInbound(db, id).0)
  {
  }

  /** Every operation keeps the invariant. */
  lemma StepKeeps(db: DB, op: Op)
    requires Inv(db)
    ensures Inv(Step(db, op))
  {
    match op
    case OpCreateUser(input, c) => CreateUserKeeps(db, input, c);
    case OpUpdateUser(id, p) => UpdateUserKeeps(db, id, p);
    case OpResetTraffic(id, now) => ResetTrafficKeeps(db, id, now);
    case OpDeleteUser(id) => DeleteUserKeeps(db, id);
    case OpRegenerate(id, token) => RegenerateKeeps(db, id, token);
    case OpCreateNode(n) => CreateNodeKeeps(db, n);
    case OpDeleteNode(id) => DeleteNodeKeeps(db, id);
    case OpCreateInbound(i) => CreateInboundKeeps(db, i);
    case OpDeleteInbound(id) => DeleteInboundKeeps(db, id);
    case OpFetch(token, now) => FetchKeeps(db, token, now);
    case OpAddUsage(id, up, down) => AddUsageKeeps(db, id, up, down);
  }

  /** An operation that fails changes nothing at all. */
  lemma FailureChangesNothing(db: DB, op: Op)
    ensures Apply(db, op).1.Failed? ==> Step(db, op) == db
  {
  }

  lemma {:induction false} RunKeeps(db: DB, ops: seq<Op>)
    requires Inv(db)
    ensures Inv(Run(db, ops))
    decreases |ops|
  {
    if ops != [] {
      StepKeeps(db, ops[0]);
      RunKeeps(Step(db, ops[0]), ops[1..]);
    }
  }

  /** The invariant holds in every reachable database, under any schema. */
  lemma ReachableInv(schema: Schema, ops: seq<Op>)
    ensures Inv(Run(Empty(schema), ops))
  {
    RunKeeps(Empty(schema), ops);
  }
}
