/** UserService, NodeService and SubscriptionService over one database: the methods run their
    statements one by one on the tables, inside transactions that roll back on error. */
module PanelService {
  import opened GoStrings
  import opened Models
  import opened Subscription
  import opened Panel

  class Service {
    const schema: Schema
    var users: map<nat, User>
    var nodes: map<nat, Node>
    var inbounds: map<nat, Inbound>
    var joins: map<(nat, nat), bool>
    var nextUser: nat
    var nextNode: nat
    var nextInbound: nat

    constructor (schema: Schema)
      ensures View() == Empty(schema)
    {
      this.schema := schema;
      users, nodes, inbounds, joins := map[], map[], map[], map[];
      nextUser, nextNode, nextInbound := 1, 1, 1;
    }

    function View(): DB
      reads this
    {
      DB(users, nodes, inbounds, joins, nextUser, nextNode, nextInbound, schema)
    }

    method Rollback(saved: DB)
      requires saved.schema == schema
      modifies this
      ensures View() == saved
    {
      users, nodes, inbounds, joins := saved.users, saved.nodes, saved.inbounds, saved.joins;
      nextUser, nextNode, nextInbound := saved.nextUser, saved.nextNode, saved.nextInbound;
    }

    // ---- statements ----

    /** INSERT INTO users. */
    method InsertUser(u: User) returns (ok: bool)
      requires u.id == nextUser
      modifies this`users, this`nextUser
      ensures ok == !Clashes(old(View()), u)
      ensures ok ==> users == old(users)[u.id := u] && nextUser == u.id + 1
      ensures !ok ==> View() == old(View())
    {
      ok := !Clashes(View(), u);
      if ok {
        users, nextUser := users[u.id := u], u.id + 1;
      }
    }

    /** UPDATE users, all columns of one row. */
    method SaveUser(u: User) returns (ok: bool)
      requires LiveUser(View(), u.id)
      modifies this`users
      ensures ok == !Clashes(old(View()), u)
      ensures users == if ok then old(users)[u.id := u] else old(users)
    {
      ok := !Clashes(View(), u);
      if ok {
        users := users[u.id := u];
      }
    }

    /** INSERT INTO user_inbounds: stops at the first row that violates a key. */
    method InsertJoins(rows: seq<(nat, nat)>) returns (ok: bool)
      modifies this`joins
      ensures ok == AllInsertable(old(View()), rows)
      ensures ok ==> joins == old(joins) + Marked(rows)
    {
      ghost var db := View();
      for i := 0 to |rows|
        invariant forall k :: 0 <= k < i ==> Insertable(db, rows, k)
        invariant joins == db.joins + Marked(rows[..i])
      {
        NextRow(db, joins, rows, i);
        if rows[i] in joins || (schema.foreignKey && rows[i].1 !in inbounds) {
          return false;
        }
        joins := joins[rows[i] := true];
      }
      assert rows[..|rows|] == rows;
      ok := true;
    }

    method AssociateInbounds(user: nat, ids: seq<nat>) returns (ok: bool)
      requires forall k :: k in joins ==> k.0 != user
      modifies this`joins
      ensures ok == CanAssociate(old(View()), ids)
      ensures ok ==> joins == Associate(old(joins), user, ids)
    {
      if |ids| == 0 {
        return true;
      }
      var rows: seq<(nat, nat)> := [];
      for i := 0 to |ids|
        invariant |rows| == i
        invariant forall k :: 0 <= k < i ==> rows[k] == (user, ids[k])
      {
        rows := rows + [(user, ids[i])];
      }
      RowsOfIds(View(), user, ids, rows);
      MarkedRows(joins, user, ids, rows);
      ok := InsertJoins(rows);
    }

    /** DELETE FROM user_inbounds WHERE user_id = user. */
    method DeleteJoins(user: nat)
      modifies this`joins
      ensures joins == Dissociate(old(joins), user)
    {
      joins := map k | k in joins && k.0 != user :: joins[k];
    }

    // ---- UserService ----

    method Create(input: CreateInput, c: Credentials) returns (r: Outcome)
      requires Inv(View())
      modifies this
      ensures (View(), r) == CreateUser(old(View()), input, c) && Inv(View())
    {
      CreateUserKeeps(View(), input, c);
      if input.username == [] {
        return Failed(Validation);
      }
      if input.dataLimit < 0 {
        return Failed(Validation);
      }
      var u := NewUser(nextUser, input, c);
      var saved := View();
      var ok := InsertUser(u);
      if !ok {
        Rollback(saved);
        return Failed(Conflict);
      }
      ok := AssociateInbounds(u.id, input.inboundIds);
      if !ok {
        Rollback(saved);
        return Failed(Rejected);
      }
      r := Done;
    }

    /** The assignments of Update to the loaded user. */
    method PatchFields(loaded: User, p: Patch) returns (u: User, valid: bool)
      ensures valid <==> p.dataLimit.None? || p.dataLimit.value >= 0
      ensures valid ==> u == Patched(loaded, p)
    {
      u, valid := loaded, true;
      if p.status.Some? {
        u := u.(status := p.status.value);
      }
      if p.dataLimit.Some? {
        if p.dataLimit.value < 0 {
          return u, false;
        }
        u := u.(dataLimit := p.dataLimit.value);
      }
      if p.expireAt.Some? {
        u := u.(expireAt := p.expireAt.value);
      }
      if p.dataStrategy.Some? {
        u := u.(dataStrategy := p.dataStrategy.value);
      }
      if p.note.Some? {
        u := u.(note := p.note.value);
      }
    }

    method Update(id: nat, p: Patch) returns (r: Outcome)
      requires Inv(View())
      modifies this
      ensures (View(), r) == UpdateUser(old(View()), id, p) && Inv(View())
    {
      UpdateUserKeeps(View(), id, p);
      var saved := View();
      if !LiveUser(View(), id) {
        return Failed(NotFound);
      }
      var u, valid := PatchFields(users[id], p);
      if !valid {
        return Failed(Validation);
      }
      SavingKeepsUnique(View(), id, u);
      var ok := SaveUser(u);
      if p.inboundIds.Some? {
        DeleteJoins(id);
        ok := AssociateInbounds(id, p.inboundIds.value);
        if !ok {
          Rollback(saved);
          return Failed(Rejected);
        }
      }
      r := Done;
    }

    method ResetUsage(id: nat, now: int) returns (r: Outcome)
      requires Inv(View())
      modifies this
      ensures (View(), r) == ResetTraffic(old(View()), id, now) && Inv(View())
    {
      ResetTrafficKeeps(View(), id, now);
      if !LiveUser(View(), id) {
        return Failed(NotFound);
      }
      var u := users[id].(usedUp := 0, usedDown := 0, lastResetAt := Some(now));
      if u.status == Limited {
        u := u.(status := Active);
      }
      SavingKeepsUnique(View(), id, u);
      var ok := SaveUser(u);
      r := Done;
    }

    method Delete(id: nat) returns (r: Outcome)
      requires Inv(View())
      modifies this
      ensures (View(), r) == DeleteUser(old(View()), id) && Inv(View())
    {
      DeleteUserKeeps(View(), id);
      var saved := View();
      DeleteJoins(id);
      if !LiveUser(View(), id) {
        Rollback(saved);
        return Failed(NotFound);
      }
      users := users[id := users[id].(deleted := true)];
      r := Done;
    }

    method Regenerate(id: nat, token: Str) returns (r: Outcome)
      requires Inv(View())
      modifies this
      ensures (View(), r) == RegenerateSubToken(old(View()), id, token) && Inv(View())
    {
      RegenerateKeeps(View(), id, token);
      if !LiveUser(View(), id) {
        return Failed(NotFound);
      }
      var ok := SaveUser(users[id].(subToken := token));
      if !ok {
        return Failed(Rejected);
      }
      r := Done;
    }

    // ---- NodeService ----

    method AddNode(n: Node) returns (r: Outcome)
      requires Inv(View())
      modifies this
      ensures (View(), r) == CreateNode(old(View()), n) && Inv(View())
    {
      CreateNodeKeeps(View(), n);
      if n.name == [] || n.address == [] {
        return Failed(Validation);
      }
      if n.core != Xray && n.core != SingBox {
        return Failed(Validation);
      }
      nodes, nextNode := nodes[nextNode := NewNode(nextNode, n)], nextNode + 1;
      r := Done;
    }

    method RemoveNode(id: nat) returns (r: Outcome)
      requires Inv(View())
      modifies this
      ensures (View(), r) == DeleteNode(old(View()), id) && Inv(View())
    {
      DeleteNodeKeeps(View(), id);
      if !LiveNode(View(), id) {
        return Failed(NotFound);
      }
      nodes := nodes[id := nodes[id].(deleted := true)];
      r := Done;
    }

    method AddInbound(i: Inbound) returns (r: Outcome)
      requires Inv(View())
      modifies this
      ensures (View(), r) == CreateInbound(old(View()), i) && Inv(View())
    {
      CreateInboundKeeps(View(), i);
      if !i.protocol.Valid() {
        return Failed(Validation);
      }
      if !LiveNode(View(), i.nodeId) {
        return Failed(NotFound);
      }
      if !i.protocol.SupportedBy(nodes[i.nodeId].core) {
        return Failed(Validation);
      }
      if i.port <= 0 || i.port > 65535 {
        return Failed(Validation);
      }
      inbounds, nextInbound := inbounds[nextInbound := NewInbound(nextInbound, i)], nextInbound + 1;
      r := Done;
    }

    method RemoveInbound(id: nat) returns (r: Outcome)
      requires Inv(View())
      modifies this
      ensures (View(), r) == DeleteInbound(old(View()), id) && Inv(View())
    {
      DeleteInboundKeeps(View(), id);
      if !LiveInbound(View(), id) {
        return Failed(NotFound);
      }
      inbounds := inbounds[id := inbounds[id].(deleted := true)];
      r := Done;
    }

    // ---- SubscriptionService ----

    /** Preload("Inbounds"), in whatever order the database returns the rows. */
    method PreloadInbounds(user: nat) returns (ins: seq<Inbound>)
      requires Inv(View())
      ensures IsPreload(View(), user, ins)
    {
      ins := [];
      var todo := joins.Keys;
      ghost var done: set<(nat, nat)> := {};
      while todo != {}
        invariant done + todo == joins.Keys && done !! todo
        invariant PreloadOf(View(), user, done, ins)
        decreases todo
      {
        var k :| k in todo;
        PreloadNext(View(), user, done, k, ins);
        if k.0 == user && LiveInbound(View(), k.1) {
          ins := ins + [inbounds[k.1]];
        }
        todo, done := todo - {k}, done + {k};
      }
    }

    /** Find(&nodes) WHERE id IN ids: live rows only. */
    method FindNodes(ids: seq<nat>) returns (found: seq<Node>)
      requires Inv(View())
      ensures forall n :: n in found ==> LiveNode(View(), n.id) && n == nodes[n.id]
      ensures forall id :: id in ids && LiveNode(View(), id) ==> nodes[id] in found
    {
      found := [];
      for i := 0 to |ids|
        invariant forall n :: n in found ==> LiveNode(View(), n.id) && n == nodes[n.id]
        invariant forall k :: 0 <= k < i && LiveNode(View(), ids[k]) ==> nodes[ids[k]] in found
      {
        if LiveNode(View(), ids[i]) {
          found := found + [nodes[ids[i]]];
        }
      }
    }

    method ResolvePairs(ins: seq<Inbound>) returns (pairs: seq<NodeInbound>)
      requires Inv(View())
      ensures pairs == Resolve(View(), ins)
    {
      if |ins| == 0 {
        return [];
      }
      var nodeIds: seq<nat> := [];
      var seen: set<nat> := {};
      for i := 0 to |ins|
        invariant forall k :: 0 <= k < i ==> ins[k].nodeId in seen
        invariant forall id :: id in seen <==> id in nodeIds
      {
        if ins[i].nodeId !in seen {
          seen := seen + {ins[i].nodeId};
          nodeIds := nodeIds + [ins[i].nodeId];
        }
      }
      var found := FindNodes(nodeIds);
      var nodeById: map<nat, Node> := map[];
      for i := 0 to |found|
        invariant forall id :: id in nodeById ==> LiveNode(View(), id) && nodeById[id] == nodes[id]
        invariant forall k :: 0 <= k < i ==> found[k].id in nodeById
      {
        nodeById := nodeById[found[i].id := found[i]];
      }
      assert forall id :: id in nodeIds ==> (id in nodeById <==> LiveNode(View(), id));
      pairs := [];
      for i := 0 to |ins|
        invariant pairs == Resolve(View(), ins[..i])
      {
        assert ins[..i + 1] == ins[..i] + [ins[i]];
        ResolveAppend(View(), ins[..i], ins[i]);
        if ins[i].nodeId in nodeById {
          pairs := pairs + [NodeInbound(nodeById[ins[i].nodeId], ins[i])];
        }
      }
      assert ins[..|ins|] == ins;
    }

    /** The pairs and links for a loaded user, none if it cannot connect. */
    method Assemble(u: User, ins: seq<Inbound>, now: int) returns (pairs: seq<NodeInbound>, uris: seq<Str>)
      requires Inv(View())
      ensures pairs == if u.CanConnect(now) then Resolve(View(), ins) else []
      ensures uris == Uris(u, ServedPairs(pairs))
    {
      if !u.CanConnect(now) {
        return [], [];
      }
      pairs := ResolvePairs(ins);
      uris := BuildAll(u, pairs);
    }

    /** The document of a token: the user, its pairs and its links. */
    method Fetch(token: Str, now: int) returns (r: Outcome, user: Option<User>, pairs: seq<NodeInbound>, uris: seq<Str>)
      requires Inv(View())
      modifies this`users
      ensures (View(), r) == FetchSubscription(old(View()), token, now) && Inv(View())
      ensures r.Done? <==> user.Some?
      ensures r.Done? ==> GetBySubToken(old(View()), token) == Some(user.value.id)
      ensures r.Done? ==> LiveUser(View(), user.value.id) && user.value == users[user.value.id]
      ensures r.Done? ==> IsDocument(old(View()), user.value.id, now, pairs, uris)
      ensures r.Failed? ==> pairs == [] && uris == []
    {
      ghost var db := View();
      var found := GetBySubToken(View(), token);
      if found.None? {
        return Failed(NotFound), None, [], [];
      }
      var id := found.value;
      FetchedRow(db, id, token, now);
      var ins := PreloadInbounds(id);
      var u := TouchUser(id, now);
      pairs, uris := Assemble(u, ins, now);
      FetchedDocument(db, View(), id, now, ins, pairs, uris);
      user, r := Some(u), Done;
    }

    /** UPDATE users SET sub_last_at, on the row and on the loaded user. */
    method TouchUser(id: nat, now: int) returns (u: User)
      requires LiveUser(View(), id)
      modifies this`users
      ensures View() == Fetched(old(View()), id, now) && u == users[id]
    {
      u := users[id].(subLastAt := Some(now));
      users := users[id := u];
    }
  }

  lemma FetchedRow(db: DB, id: nat, token: Str, now: int)
    requires Inv(db) && GetBySubToken(db, token) == Some(id)
    ensures LiveUser(db, id) && db.users[id].id == id
    ensures FetchSubscription(db, token, now) == (Fetched(db, id, now), Done) && Inv(Fetched(db, id, now))
  {
    FetchKeeps(db, token, now);
  }

  /** What Fetch puts together is a document of the database it found. */
  lemma FetchedDocument(db: DB, db': DB, id: nat, now: int, ins: seq<Inbound>, pairs: seq<NodeInbound>, uris: seq<Str>)
    requires LiveUser(db, id) && IsPreload(db, id, ins) && db' == Fetched(db, id, now)
    requires pairs == if db'.users[id].CanConnect(now) then Resolve(db', ins) else []
    requires uris == Uris(db'.users[id], ServedPairs(pairs))
    ensures IsDocument(db, id, now, pairs, uris)
  {
    var u := db.users[id];
    assert db'.users[id] == u.(subLastAt := Some(now));
    assert db'.users[id].CanConnect(now) == u.CanConnect(now);
    assert Resolve(db', ins) == Resolve(db, ins) by { ResolveReadsNodes(db, db', ins); }
    assert Uris(db'.users[id], ServedPairs(pairs)) == Uris(u, ServedPairs(pairs)) by {
      UrisIgnoreFetch(u, now, ServedPairs(pairs));
    }
  }

  lemma {:induction false} UrisIgnoreFetch(u: User, now: int, served: seq<NodeInbound>)
    requires forall p :: p in served ==> Served(p)
    ensures Uris(u.(subLastAt := Some(now)), served) == Uris(u, served)
  {
    if served != [] {
      assert LinkOf(u.(subLastAt := Some(now)), served[0]) == LinkOf(u, served[0]);
      UrisIgnoreFetch(u, now, served[1..]);
    }
  }

  function Marked(rows: seq<(nat, nat)>): map<(nat, nat), bool> {
    map r | r in rows :: true
  }

  predicate Insertable(db: DB, rows: seq<(nat, nat)>, i: nat)
    requires i < |rows|
  {
    Referable(db, rows[i].1) && rows[i] !in db.joins && rows[i] !in rows[..i]
  }

  /** One row more: whether it can be inserted, and the table with it. */
  lemma NextRow(db: DB, joins: map<(nat, nat), bool>, rows: seq<(nat, nat)>, i: nat)
    requires i < |rows| && joins == db.joins + Marked(rows[..i])
    ensures Insertable(db, rows, i) <==> Referable(db, rows[i].1) && rows[i] !in joins
    ensures joins[rows[i] := true] == db.joins + Marked(rows[..i + 1])
  {
    assert rows[..i + 1] == rows[..i] + [rows[i]];
  }

  predicate AllInsertable(db: DB, rows: seq<(nat, nat)>) {
    forall i :: 0 <= i < |rows| ==> Insertable(db, rows, i)
  }

  /** The rows of a user without associations can be inserted exactly when the ids can be associated. */
  lemma RowsOfIds(db: DB, user: nat, ids: seq<nat>, rows: seq<(nat, nat)>)
    requires |rows| == |ids| && forall k :: 0 <= k < |ids| ==> rows[k] == (user, ids[k])
    requires forall k :: k in db.joins ==> k.0 != user
    ensures AllInsertable(db, rows) <==> CanAssociate(db, ids)
  {
    if CanAssociate(db, ids) {
      forall i | 0 <= i < |rows| ensures Insertable(db, rows, i) {
        assert ids[i] in ids;
      }
    }
    if AllInsertable(db, rows) {
      forall i, j | 0 <= i < j < |ids| ensures ids[i] != ids[j] {
        assert Insertable(db, rows, j);
        assert rows[..j][i] == rows[i];
      }
      forall i | i in ids ensures Referable(db, i) {
        var k :| 0 <= k < |ids| && ids[k] == i;
        assert Insertable(db, rows, k);
      }
    }
  }

  lemma MarkedRows(joins: map<(nat, nat), bool>, user: nat, ids: seq<nat>, rows: seq<(nat, nat)>)
    requires |rows| == |ids| && forall k :: 0 <= k < |ids| ==> rows[k] == (user, ids[k])
    ensures joins + Marked(rows) == Associate(joins, user, ids)
  {
    forall i | i in ids ensures (user, i) in rows {
      var k :| 0 <= k < |ids| && ids[k] == i;
      assert rows[k] == (user, i);
    }
    assert forall r :: r in rows ==> r.0 == user && r.1 in ids;
  }

  /** IsPreload, for the join rows read so far. */
  ghost predicate PreloadOf(db: DB, user: nat, done: set<(nat, nat)>, ins: seq<Inbound>) {
    && (forall a, b :: 0 <= a < b < |ins| ==> ins[a].id != ins[b].id)
    && (forall i :: i in ins ==> (user, i.id) in done && LiveInbound(db, i.id) && i == db.inbounds[i.id])
    && (forall k :: k in done && k.0 == user && LiveInbound(db, k.1) ==> db.inbounds[k.1] in ins)
  }

  lemma PreloadNext(db: DB, user: nat, done: set<(nat, nat)>, k: (nat, nat), ins: seq<Inbound>)
    requires InboundsOk(db) && PreloadOf(db, user, done, ins) && k !in done
    ensures PreloadOf(db, user, done + {k},
                      if k.0 == user && LiveInbound(db, k.1) then ins + [db.inbounds[k.1]] else ins)
  {
    if k.0 == user && LiveInbound(db, k.1) {
      assert forall a :: 0 <= a < |ins| ==> ins[a] in ins;
      assert k == (user, k.1);
    }
  }

  /** Saving a row that keeps its identifying columns cannot violate a unique index. */
  lemma SavingKeepsUnique(db: DB, id: nat, u: User)
    requires UsersOk(db) && LiveUser(db, id) && u.id == id
    requires KeepsIdentity(db.users[id], u)
    ensures !Clashes(db, u)
  {
  }

  function ResolveOne(db: DB, i: Inbound): seq<NodeInbound> {
    if LiveNode(db, i.nodeId) then [NodeInbound(db.nodes[i.nodeId], i)] else []
  }

  lemma ResolveCons(db: DB, i: Inbound, ins: seq<Inbound>)
    ensures Resolve(db, [i] + ins) == ResolveOne(db, i) + Resolve(db, ins)
  {
    assert ([i] + ins)[1..] == ins;
  }

  lemma {:induction false} ResolveAppend(db: DB, ins: seq<Inbound>, i: Inbound)
    ensures Resolve(db, ins + [i]) == Resolve(db, ins) + ResolveOne(db, i)
  {
    if ins == [] {
      assert ins + [i] == [i];
    } else {
      ResolveAppend(db, ins[1..], i);
      ResolveCons(db, ins[0], ins[1..]);
      ResolveCons(db, ins[0], ins[1..] + [i]);
      assert ins == [ins[0]] + ins[1..];
      ConcatAssoc([ins[0]], ins[1..], [i]);
      ConcatAssoc(ResolveOne(db, ins[0]), Resolve(db, ins[1..]), ResolveOne(db, i));
    }
  }

  lemma {:induction false} ResolveReadsNodes(db: DB, db': DB, ins: seq<Inbound>)
    requires db.nodes == db'.nodes
    ensures Resolve(db, ins) == Resolve(db', ins)
  {
    if ins != [] {
      ResolveReadsNodes(db, db', ins[1..]);
    }
  }

  /** What a fetch returns: nothing if the user cannot connect, else the pairs of some preload
      and their links. */
  ghost predicate IsDocument(db: DB, id: nat, now: int, pairs: seq<NodeInbound>, uris: seq<Str>) {
    && LiveUser(db, id)
    && uris == Uris(db.users[id], ServedPairs(pairs))
    && if db.users[id].CanConnect(now)
       then exists ins :: IsPreload(db, id, ins) && pairs == Resolve(db, ins)
       else pairs == []
  }
}
