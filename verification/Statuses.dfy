/** Stored statuses other than disabled and on_hold are one and the same to every reader: no
    later document depends on which of them a row holds. */
module Statuses {
  import opened GoStrings
  import opened Models
  import opened Subscription
  import opened Panel
  import opened PanelService

  /** The same database up to statuses no reader can tell apart. */
  ghost predicate Alike(a: DB, b: DB) {
    && b == a.(users := b.users)
    && b.users.Keys == a.users.Keys
    && (forall id :: id in a.users ==> AlikeRows(a.users[id], b.users[id]))
  }

  predicate AlikeRows(u: User, v: User) {
    v == u.(status := v.status) && SameForReaders(u.status, v.status)
  }

  lemma SameClashes(a: DB, b: DB, u: User, v: User)
    requires Alike(a, b) && v == u.(status := v.status)
    ensures Clashes(a, u) == Clashes(b, v)
  {
    if Clashes(a, u) {
      var id :| id in a.users && Covered(a, id) && id != u.id && SameIdentity(a.users[id], u);
      assert Covered(b, id) && SameIdentity(b.users[id], v);
    }
    if Clashes(b, v) {
      var id :| id in b.users && Covered(b, id) && id != v.id && SameIdentity(b.users[id], v);
      assert Covered(a, id) && SameIdentity(a.users[id], u);
    }
  }

  lemma SameTokenHolder(a: DB, b: DB, token: Str)
    requires Alike(a, b)
    ensures GetBySubToken(a, token) == GetBySubToken(b, token)
  {
    assert forall id :: id in a.users ==> HasToken(a, id, token) == HasToken(b, id, token);
    var r, r' := GetBySubToken(a, token), GetBySubToken(b, token);
    if r.Some? {
      assert HasToken(b, r.value, token);
    }
    if r'.Some? {
      assert HasToken(a, r'.value, token);
    }
  }

  lemma RowAlike(a: DB, b: DB, id: nat, u: User, v: User)
    requires Alike(a, b) && AlikeRows(u, v)
    ensures Alike(a.(users := a.users[id := u]), b.(users := b.users[id := v]))
  {
  }

  lemma CreateAlike(a: DB, b: DB, input: CreateInput, c: Credentials)
    requires Alike(a, b)
    ensures Alike(CreateUser(a, input, c).0, CreateUser(b, input, c).0)
    ensures CreateUser(a, input, c).1 == CreateUser(b, input, c).1
  {
    var u := NewUser(a.nextUser, input, c);
    SameClashes(a, b, u, u);
    if CreateUser(a, input, c).1.Done? {
      RowAlike(a, b, u.id, u, u);
    }
  }

  lemma UpdateAlike(a: DB, b: DB, id: nat, p: Patch)
    requires Alike(a, b)
    ensures Alike(UpdateUser(a, id, p).0, UpdateUser(b, id, p).0)
    ensures UpdateUser(a, id, p).1 == UpdateUser(b, id, p).1
  {
    if LiveUser(a, id) {
      RowAlike(a, b, id, Patched(a.users[id], p), Patched(b.users[id], p));
    }
  }

  lemma ResetAlike(a: DB, b: DB, id: nat, now: int)
    requires Alike(a, b)
    ensures Alike(ResetTraffic(a, id, now).0, ResetTraffic(b, id, now).0)
    ensures ResetTraffic(a, id, now).1 == ResetTraffic(b, id, now).1
  {
    if LiveUser(a, id) {
      RowAlike(a, b, id, Reset(a.users[id], now), Reset(b.users[id], now));
    }
  }

  lemma DeleteAlike(a: DB, b: DB, id: nat)
    requires Alike(a, b)
    ensures Alike(DeleteUser(a, id).0, DeleteUser(b, id).0)
    ensures DeleteUser(a, id).1 == DeleteUser(b, id).1
  {
    if LiveUser(a, id) {
      RowAlike(a, b, id, a.users[id].(deleted := true), b.users[id].(deleted := true));
    }
  }

  lemma RegenerateAlike(a: DB, b: DB, id: nat, token: Str)
    requires Alike(a, b)
    ensures Alike(RegenerateSubToken(a, id, token).0, RegenerateSubToken(b, id, token).0)
    ensures RegenerateSubToken(a, id, token).1 == RegenerateSubToken(b, id, token).1
  {
    if LiveUser(a, id) {
      var u, v := a.users[id].(subToken := token), b.users[id].(subToken := token);
      SameClashes(a, b, u, v);
      RowAlike(a, b, id, u, v);
    }
  }

  lemma FetchAlike(a: DB, b: DB, token: Str, now: int)
    requires Alike(a, b)
    ensures Alike(FetchSubscription(a, token, now).0, FetchSubscription(b, token, now).0)
    ensures FetchSubscription(a, token, now).1 == FetchSubscription(b, token, now).1
  {
    SameTokenHolder(a, b, token);
    var r := GetBySubToken(a, token);
    if r.Some? {
      RowAlike(a, b, r.value, a.users[r.value].(subLastAt := Some(now)), b.users[r.value].(subLastAt := Some(now)));
    }
  }

  lemma UsageAlike(a: DB, b: DB, id: nat, up: nat, down: nat)
    requires Alike(a, b)
    ensures Alike(AddUsage(a, id, up, down).0, AddUsage(b, id, up, down).0)
    ensures AddUsage(a, id, up, down).1 == AddUsage(b, id, up, down).1
  {
    if AddUsage(a, id, up, down).1.Done? {
      RowAlike(a, b, id, Used(a.users[id], up, down), Used(b.users[id], up, down));
    }
  }

  lemma NodeOpAlike(a: DB, b: DB, op: Op)
    requires Alike(a, b) && (op.OpCreateNode? || op.OpDeleteNode?)
    ensures Alike(Step(a, op), Step(b, op)) && Apply(a, op).1 == Apply(b, op).1
  {
    match op
    case OpCreateNode(n) =>
    case OpDeleteNode(id) =>
  }

  lemma CreateInboundAlike(a: DB, b: DB, i: Inbound)
    requires Alike(a, b)
    ensures Alike(CreateInbound(a, i).0, CreateInbound(b, i).0) && CreateInbound(a, i).1 == CreateInbound(b, i).1
  {
  }

  lemma DeleteInboundAlike(a: DB, b: DB, id: nat)
    requires Alike(a, b)
    ensures Alike(DeleteInbound(a, id).0, DeleteInbound(b, id).0) && DeleteInbound(a, id).1 == DeleteInbound(b, id).1
  {
  }

  /** Alike databases answer every operation alike and stay alike. */
  lemma StepAlike(a: DB, b: DB, op: Op)
    requires Alike(a, b)
    ensures Alike(Step(a, op), Step(b, op)) && Apply(a, op).1 == Apply(b, op).1
  {
    match op
    case OpCreateUser(input, c) => CreateAlike(a, b, input, c);
    case OpUpdateUser(id, p) => UpdateAlike(a, b, id, p);
    case OpResetTraffic(id, now) => ResetAlike(a, b, id, now);
    case OpDeleteUser(id) => DeleteAlike(a, b, id);
    case OpRegenerate(id, token) => RegenerateAlike(a, b, id, token);
    case OpFetch(token, now) => FetchAlike(a, b, token, now);
    case OpAddUsage(id, up, down) => UsageAlike(a, b, id, up, down);
    case OpCreateNode(_) => NodeOpAlike(a, b, op);
    case OpDeleteNode(_) => NodeOpAlike(a, b, op);
    case OpCreateInbound(i) => CreateInboundAlike(a, b, i);
    case OpDeleteInbound(id) => DeleteInboundAlike(a, b, id);
  }

  lemma {:induction false} RunAlike(a: DB, b: DB, ops: seq<Op>)
    requires Alike(a, b)
    ensures Alike(Run(a, ops), Run(b, ops))
    decreases |ops|
  {
    if ops != [] {
      StepAlike(a, b, ops[0]);
      RunAlike(Step(a, ops[0]), Step(b, ops[0]), ops[1..]);
    }
  }

  lemma LinkIgnoresStatus(u: User, v: User, p: NodeInbound)
    requires v == u.(status := v.status)
    ensures LinkOf(u, p) == LinkOf(v, p)
  {
  }

  lemma {:induction false} UrisIgnoreStatus(u: User, v: User, served: seq<NodeInbound>)
    requires v == u.(status := v.status)
    requires forall p :: p in served ==> Served(p)
    ensures Uris(u, served) == Uris(v, served)
  {
    if served != [] {
      LinkIgnoresStatus(u, v, served[0]);
      UrisIgnoreStatus(u, v, served[1..]);
    }
  }

  lemma PairsAlike(a: DB, b: DB, id: nat, ins: seq<Inbound>)
    requires Alike(a, b) && IsPreload(a, id, ins)
    ensures IsPreload(b, id, ins) && Resolve(b, ins) == Resolve(a, ins)
  {
    ResolveReadsNodes(a, b, ins);
  }

  lemma DocumentsAlike(a: DB, b: DB, id: nat, now: int, pairs: seq<NodeInbound>, uris: seq<Str>)
    requires Alike(a, b) && IsDocument(a, id, now, pairs, uris)
    ensures IsDocument(b, id, now, pairs, uris)
  {
    var u, v := a.users[id], b.users[id];
    assert uris == Uris(v, ServedPairs(pairs)) by { UrisIgnoreStatus(u, v, ServedPairs(pairs)); }
    StatusesIndistinguishable(u, v.status, now);
    if u.CanConnect(now) {
      var ins :| IsPreload(a, id, ins) && pairs == Resolve(a, ins);
      PairsAlike(a, b, id, ins);
    }
  }

  lemma AlikeSymmetric(a: DB, b: DB)
    requires Alike(a, b)
    ensures Alike(b, a)
  {
  }

  /** Swapping one such status for another changes no later document of anybody. */
  lemma StatusIndistinguishable(db: DB, id: nat, s: UserStatus, ops: seq<Op>, reader: nat, now: int,
                                pairs: seq<NodeInbound>, uris: seq<Str>)
    requires id in db.users && SameForReaders(db.users[id].status, s)
    ensures var other := db.(users := db.users[id := db.users[id].(status := s)]);
            IsDocument(Run(db, ops), reader, now, pairs, uris) <==> IsDocument(Run(other, ops), reader, now, pairs, uris)
  {
    var other := db.(users := db.users[id := db.users[id].(status := s)]);
    assert Alike(db, other);
    RunAlike(db, other, ops);
    AlikeSymmetric(Run(db, ops), Run(other, ops));
    if IsDocument(Run(db, ops), reader, now, pairs, uris) {
      DocumentsAlike(Run(db, ops), Run(other, ops), reader, now, pairs, uris);
    }
    if IsDocument(Run(other, ops), reader, now, pairs, uris) {
      DocumentsAlike(Run(other, ops), Run(db, ops), reader, now, pairs, uris);
    }
  }

  /** A reset that left a limited status as it is would lead to the same documents as the one
      that rewrites it to active. */
  lemma ResetRewriteInvisible(db: DB, id: nat, at: int, ops: seq<Op>, reader: nat, now: int,
                              pairs: seq<NodeInbound>, uris: seq<Str>)
    requires LiveUser(db, id)
    ensures var rewritten := ResetTraffic(db, id, at).0;
            var kept := rewritten.(users := rewritten.users[id := rewritten.users[id].(status := db.users[id].status)]);
            IsDocument(Run(rewritten, ops), reader, now, pairs, uris) <==> IsDocument(Run(kept, ops), reader, now, pairs, uris)
  {
    var rewritten := ResetTraffic(db, id, at).0;
    StatusIndistinguishable(rewritten, id, db.users[id].status, ops, reader, now, pairs, uris);
  }
}
