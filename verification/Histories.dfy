/** Properties of whole runs of the panel: who a token resolves to, who can connect, which stored
    statuses matter, and how updates compose. */
module Histories {
  import opened GoStrings
  import opened Models
  import opened Panel

  // ---- tokens ----

  /** The last token issued to each user, and every token ever issued. */
  datatype Tokens = Tokens(last: map<nat, Str>, issued: set<Str>)

  /** The token an operation issues, if it succeeds, and to whom. */
  function Issues(db: DB, op: Op): Option<(nat, Str)> {
    if Apply(db, op).1.Failed? then None
    else
      match op
      case OpCreateUser(_, c) => Some((db.nextUser, c.subToken))
      case OpRegenerate(id, token) => Some((id, token))
      case _ => None
  }

  function Note(t: Tokens, issue: Option<(nat, Str)>): Tokens {
    match issue
    case None => t
    case Some((id, token)) => Tokens(t.last[id := token], t.issued + {token})
  }

  function History(db: DB, ops: seq<Op>, t: Tokens): Tokens
    decreases |ops|
  {
    if ops == [] then t else History(Step(db, ops[0]), ops[1..], Note(t, Issues(db, ops[0])))
  }

  /** Every token issued during ops is new. */
  predicate Fresh(db: DB, ops: seq<Op>, t: Tokens)
    decreases |ops|
  {
    ops == [] ||
    (&& (Issues(db, ops[0]).Some? ==> Issues(db, ops[0]).value.1 !in t.issued)
     && Fresh(Step(db, ops[0]), ops[1..], Note(t, Issues(db, ops[0]))))
  }

  /** Every row holds the token last issued to it. */
  predicate HoldsLast(db: DB, t: Tokens) {
    && (forall id :: id in db.users ==> id in t.last && t.last[id] == db.users[id].subToken)
    && (forall id :: id in t.last ==> id in db.users && t.last[id] in t.issued)
  }

  /** Operations on nodes and inbounds leave the users alone. */
  lemma NodeOpsFrame(db: DB, op: Op)
    requires op.OpCreateNode? || op.OpDeleteNode? || op.OpCreateInbound? || op.OpDeleteInbound?
    ensures Step(db, op).users == db.users && Issues(db, op).None?
  {
    match op
    case OpCreateNode(n) => assert CreateNode(db, n).0.users == db.users;
    case OpDeleteNode(id) => assert DeleteNode(db, id).0.users == db.users;
    case OpCreateInbound(i) => assert CreateInbound(db, i).0.users == db.users;
    case OpDeleteInbound(id) => assert DeleteInbound(db, id).0.users == db.users;
  }

  /** The operations on users that issue no token. */
  predicate RewritesRow(op: Op) {
    op.OpUpdateUser? || op.OpResetTraffic? || op.OpDeleteUser? || op.OpFetch? || op.OpAddUsage?
  }

  /** The same users, each with its token; deleted ones stay deleted. */
  predicate SameTokens(db: DB, db': DB) {
    && db'.users.Keys == db.users.Keys
    && (forall id :: id in db.users ==>
          db'.users[id].subToken == db.users[id].subToken && (db.users[id].deleted ==> db'.users[id].deleted))
  }

  /** An operator step on the account: its limits, status or counters are rewritten. */
  predicate Rewrites(op: Op, id: nat) {
    (op.OpUpdateUser? || op.OpResetTraffic?) && op.id == id
  }

  /** What the row operations have in common: at most one live row is written; it keeps its token,
      and unless the operator rewrites it, it only ages. */
  ghost predicate WritesRow(db: DB, db': DB, id: nat, rewrites: bool) {
    || db'.users == db.users
    || (&& LiveUser(db, id) && id in db'.users && db'.users == db.users[id := db'.users[id]]
        && db'.users[id].subToken == db.users[id].subToken
        && (rewrites || Ages(db.users[id], db'.users[id])))
  }

  lemma UpdateWrites(db: DB, id: nat, p: Patch)
    ensures WritesRow(db, UpdateUser(db, id, p).0, id, true)
  {
  }

  lemma OtherRowOpsWrite(db: DB, id: nat, now: int, up: nat, down: nat)
    ensures WritesRow(db, ResetTraffic(db, id, now).0, id, true)
    ensures WritesRow(db, DeleteUser(db, id).0, id, false)
    ensures WritesRow(db, AddUsage(db, id, up, down).0, id, false)
  {
  }

  lemma FetchWrites(db: DB, token: Str, now: int) returns (id: nat)
    ensures WritesRow(db, FetchSubscription(db, token, now).0, id, false)
  {
    var r := GetBySubToken(db, token);
    id := if r.Some? then r.value else 0;
  }

  lemma RowOpWrites(db: DB, op: Op) returns (id: nat)
    requires RewritesRow(op)
    ensures WritesRow(db, Step(db, op), id, Rewrites(op, id))
  {
    match op
    case OpUpdateUser(id', p) => id := id'; UpdateWrites(db, id, p);
    case OpResetTraffic(id', now) => id := id'; OtherRowOpsWrite(db, id, now, 0, 0);
    case OpDeleteUser(id') => id := id'; OtherRowOpsWrite(db, id, 0, 0, 0);
    case OpFetch(token, now) => id := FetchWrites(db, token, now);
    case OpAddUsage(id', up, down) => id := id'; OtherRowOpsWrite(db, id, 0, up, down);
  }

  lemma QuietFrame(db: DB, op: Op)
    requires !op.OpCreateUser? && !op.OpRegenerate?
    ensures SameTokens(db, Step(db, op)) && Issues(db, op).None?
  {
    if RewritesRow(op) {
      var id := RowOpWrites(db, op);
    } else {
      NodeOpsFrame(db, op);
    }
  }

  lemma CreateHoldsLast(db: DB, input: CreateInput, c: Credentials, t: Tokens)
    requires Inv(db) && HoldsLast(db, t)
    ensures var op := OpCreateUser(input, c);
            HoldsLast(Step(db, op), Note(t, Issues(db, op)))
  {
  }

  lemma RegenerateHoldsLast(db: DB, id: nat, token: Str, t: Tokens)
    requires Inv(db) && HoldsLast(db, t)
    ensures var op := OpRegenerate(id, token);
            HoldsLast(Step(db, op), Note(t, Issues(db, op)))
  {
  }

  lemma StepHoldsLast(db: DB, op: Op, t: Tokens)
    requires Inv(db) && HoldsLast(db, t)
    ensures HoldsLast(Step(db, op), Note(t, Issues(db, op)))
  {
    match op
    case OpCreateUser(input, c) => CreateHoldsLast(db, input, c, t);
    case OpRegenerate(id, token) => RegenerateHoldsLast(db, id, token, t);
    case _ =>
      QuietFrame(db, op);
      QuietHoldsLast(db, Step(db, op), t);
  }

  lemma QuietHoldsLast(db: DB, db': DB, t: Tokens)
    requires HoldsLast(db, t) && SameTokens(db, db')
    ensures HoldsLast(db', t)
  {
  }

  lemma {:induction false} RunHoldsLast(db: DB, ops: seq<Op>, t: Tokens)
    requires Inv(db) && HoldsLast(db, t)
    ensures HoldsLast(Run(db, ops), History(db, ops, t))
    decreases |ops|
  {
    if ops != [] {
      StepHoldsLast(db, ops[0], t);
      StepKeeps(db, ops[0]);
      RunHoldsLast(Step(db, ops[0]), ops[1..], Note(t, Issues(db, ops[0])));
    }
  }

  const NO_TOKENS: Tokens := Tokens(map[], {})

  /** At every point of every run a token resolves to a user exactly when the user is live and
      the token is the last one issued to it. */
  lemma TokenResolves(schema: Schema, ops: seq<Op>, token: Str, id: nat)
    ensures var db := Run(Empty(schema), ops);
            var t := History(Empty(schema), ops, NO_TOKENS);
            GetBySubToken(db, token) == Some(id) <==> LiveUser(db, id) && id in t.last && t.last[id] == token
  {
    ReachableInv(schema, ops);
    RunHoldsLast(Empty(schema), ops, NO_TOKENS);
    ResolvesTheHolder(Run(Empty(schema), ops), token, id);
  }

  lemma ResolvesTheHolder(db: DB, token: Str, id: nat)
    requires UsersOk(db)
    ensures GetBySubToken(db, token) == Some(id) <==> HasToken(db, id, token)
  {
    var r := GetBySubToken(db, token);
    if r.Some? {
      assert HasToken(db, r.value, token);
    }
  }

  /** No live user holds the token. */
  ghost predicate Dead(db: DB, token: Str) {
    forall id :: id in db.users ==> !HasToken(db, id, token)
  }

  lemma CreateStaysDead(db: DB, input: CreateInput, c: Credentials, token: Str)
    requires Inv(db) && Dead(db, token) && (CreateUser(db, input, c).1.Done? ==> c.subToken != token)
    ensures Dead(CreateUser(db, input, c).0, token)
  {
  }

  lemma RegenerateStaysDead(db: DB, id: nat, next: Str, token: Str)
    requires Inv(db) && Dead(db, token) && (RegenerateSubToken(db, id, next).1.Done? ==> next != token)
    ensures Dead(RegenerateSubToken(db, id, next).0, token)
  {
    assert forall x :: x in db.users ==> !HasToken(db, x, token);
  }

  lemma StepStaysDead(db: DB, op: Op, t: Tokens, token: Str)
    requires Inv(db) && HoldsLast(db, t) && token in t.issued && Dead(db, token)
    requires Issues(db, op).Some? ==> Issues(db, op).value.1 !in t.issued
    ensures Dead(Step(db, op), token)
  {
    match op
    case OpCreateUser(input, c) => CreateStaysDead(db, input, c, token);
    case OpRegenerate(id, next) => RegenerateStaysDead(db, id, next, token);
    case _ =>
      QuietFrame(db, op);
      QuietStaysDead(db, Step(db, op), token);
  }

  lemma QuietStaysDead(db: DB, db': DB, token: Str)
    requires SameTokens(db, db') && Dead(db, token)
    ensures Dead(db', token)
  {
    assert forall x :: x in db.users ==> !HasToken(db, x, token);
  }

  lemma {:induction false} RunStaysDead(db: DB, ops: seq<Op>, t: Tokens, token: Str)
    requires Inv(db) && HoldsLast(db, t) && token in t.issued && Dead(db, token) && Fresh(db, ops, t)
    ensures Dead(Run(db, ops), token)
    decreases |ops|
  {
    if ops != [] {
      var op := ops[0];
      StepStaysDead(db, op, t, token);
      StepHoldsLast(db, op, t);
      StepKeeps(db, op);
      RunStaysDead(Step(db, op), ops[1..], Note(t, Issues(db, op)), token);
    }
  }

  /** A token that was issued and does not resolve, because it was rotated away or its user was
      deleted, never resolves again while generated tokens are fresh. */
  lemma RevokedForever(schema: Schema, before: seq<Op>, after: seq<Op>, token: Str)
    requires var db := Run(Empty(schema), before);
             var t := History(Empty(schema), before, NO_TOKENS);
             token in t.issued && GetBySubToken(db, token).None? && Fresh(db, after, t)
    ensures GetBySubToken(Run(Run(Empty(schema), before), after), token).None?
  {
    var db := Run(Empty(schema), before);
    ReachableInv(schema, before);
    RunHoldsLast(Empty(schema), before, NO_TOKENS);
    RunStaysDead(db, after, History(Empty(schema), before, NO_TOKENS), token);
  }

  /** Nobody else holds a live user's token. */
  lemma OnlyHolder(db: DB, id: nat)
    requires Inv(db) && LiveUser(db, id)
    ensures forall x :: LiveUser(db, x) && x != id ==> db.users[x].subToken != db.users[id].subToken
  {
    assert forall x :: LiveUser(db, x) && x != id ==> Covered(db, x) && Covered(db, id) && !SameIdentity(db.users[x], db.users[id]);
  }

  lemma DeletionRevokes(db: DB, id: nat)
    requires Inv(db) && LiveUser(db, id)
    ensures Dead(DeleteUser(db, id).0, db.users[id].subToken)
  {
    OnlyHolder(db, id);
  }

  lemma RegenerationRevokes(db: DB, id: nat, token: Str)
    requires Inv(db) && LiveUser(db, id) && RegenerateSubToken(db, id, token).1.Done? && token != db.users[id].subToken
    ensures var db' := RegenerateSubToken(db, id, token).0;
            Dead(db', db.users[id].subToken) && HasToken(db', id, token)
  {
    OnlyHolder(db, id);
  }

  /** Rotating and deleting do revoke: the old token stops resolving at once. */
  lemma RotationRevokes(db: DB, id: nat, token: Str)
    requires Inv(db) && LiveUser(db, id)
    ensures GetBySubToken(DeleteUser(db, id).0, db.users[id].subToken).None?
    ensures RegenerateSubToken(db, id, token).1.Done? && token != db.users[id].subToken ==>
              && GetBySubToken(RegenerateSubToken(db, id, token).0, db.users[id].subToken).None?
              && GetBySubToken(RegenerateSubToken(db, id, token).0, token) == Some(id)
  {
    DeletionRevokes(db, id);
    if RegenerateSubToken(db, id, token).1.Done? && token != db.users[id].subToken {
      RegenerateKeeps(db, id, token);
      RegenerationRevokes(db, id, token);
      ResolvesTheHolder(RegenerateSubToken(db, id, token).0, token, id);
    }
  }

  // ---- connectability ----

  lemma CreateAges(db: DB, input: CreateInput, c: Credentials, id: nat)
    requires Inv(db) && id in db.users
    ensures var db' := CreateUser(db, input, c).0; id in db'.users && db'.users[id] == db.users[id]
  {
  }

  lemma RegenerateAges(db: DB, id': nat, token: Str, id: nat)
    requires Inv(db) && id in db.users
    ensures var db' := RegenerateSubToken(db, id', token).0; id in db'.users && Ages(db.users[id], db'.users[id])
  {
  }

  lemma StepAges(db: DB, op: Op, id: nat)
    requires Inv(db) && id in db.users && !Rewrites(op, id)
    ensures id in Step(db, op).users && Ages(db.users[id], Step(db, op).users[id])
  {
    if RewritesRow(op) {
      var written := RowOpWrites(db, op);
    } else {
      match op
      case OpCreateUser(input, c) => CreateAges(db, input, c, id);
      case OpRegenerate(id', token) => RegenerateAges(db, id', token, id);
      case _ => NodeOpsFrame(db, op);
    }
  }

  lemma {:induction false} RunAges(db: DB, ops: seq<Op>, id: nat)
    requires Inv(db) && id in db.users && forall op :: op in ops ==> !Rewrites(op, id)
    ensures id in Run(db, ops).users && Ages(db.users[id], Run(db, ops).users[id])
    decreases |ops|
  {
    if ops != [] {
      StepAges(db, ops[0], id);
      StepKeeps(db, ops[0]);
      RunAges(Step(db, ops[0]), ops[1..], id);
    }
  }

  /** Without an operator step on it, an account that cannot connect never can again, whatever else
      happens and however late, exactly when its usage sum still fits, or it was not over its cap to
      begin with, or it is disabled or on hold. */
  lemma AccessOnlyEndsExactly(db: DB, ops: seq<Op>, id: nat)
    requires Inv(db) && id in db.users && forall op :: op in ops ==> !Rewrites(op, id)
    ensures id in Run(db, ops).users
    ensures var u, final := db.users[id], Run(db, ops).users[id];
            (forall t0, t1 :: t0 <= t1 && final.CanConnect(t1) ==> u.CanConnect(t0))
            <==> final.UsageFits() || !u.IsLimited() || u.status in {Disabled, OnHold}
  {
    RunAges(db, ops, id);
    ConnectabilityDecaysExactly(db.users[id], Run(db, ops).users[id]);
  }

  lemma AccessOnlyEnds(db: DB, ops: seq<Op>, id: nat, t0: int, t1: int)
    requires Inv(db) && id in db.users && forall op :: op in ops ==> !Rewrites(op, id)
    requires t0 <= t1
    requires id in Run(db, ops).users && !CapWrapped(db.users[id], Run(db, ops).users[id])
    requires Run(db, ops).users[id].CanConnect(t1)
    ensures db.users[id].CanConnect(t0)
  {
    AccessOnlyEndsExactly(db, ops, id);
  }

  /** Once the sum wraps, traffic alone gives access back: this run's account is over its cap after
      two operations and connects again after the third. */
  lemma OverflowReconnects(schema: Schema, input: CreateInput, c: Credentials, now: int)
    requires input.username != [] && input.dataLimit > 0 && input.expireAt.None? && input.inboundIds == []
    ensures var capped := Run(Empty(schema), [OpCreateUser(input, c), OpAddUsage(1, TWO_TO_63 - 1, 0)]);
            var wrapped := Run(capped, [OpAddUsage(1, 0, 1)]);
            && LiveUser(capped, 1) && !capped.users[1].CanConnect(now)
            && LiveUser(wrapped, 1) && wrapped.users[1].CanConnect(now)
  {
    var create, first, second := OpCreateUser(input, c), OpAddUsage(1, TWO_TO_63 - 1, 0), OpAddUsage(1, 0, 1);
    var db1 := Step(Empty(schema), create);
    FirstUser(schema, input, c);
    var db2 := Step(db1, first);
    var db3 := Step(db2, second);
    assert db3.users[1] == NewUser(1, input, c).(usedUp := TWO_TO_63 - 1, usedDown := 1);
    OverflowGivesAccessBack(db3.users[1], now);
    RunOne(db1, first);
    RunOne(db2, second);
    assert [create, first][1..] == [first];
    assert Run(Empty(schema), [create, first]) == Run(db1, [first]);
  }

  lemma RunOne(db: DB, op: Op)
    ensures Run(db, [op]) == Step(db, op)
  {
    assert [op][1..] == [];
  }

  lemma FirstUser(schema: Schema, input: CreateInput, c: Credentials)
    requires input.username != [] && input.dataLimit >= 0 && input.inboundIds == []
    ensures Step(Empty(schema), OpCreateUser(input, c)).users == map[1 := NewUser(1, input, c)]
  {
    assert CanAssociate(Empty(schema), []);
    assert CreateUser(Empty(schema), input, c).1.Done?;
  }

  /** After a reset an account is not limited, at any time. */
  lemma ResetLiftsLimit(db: DB, id: nat, now: int, t: int)
    requires LiveUser(db, id)
    ensures ResetTraffic(db, id, now).1.Done?
    ensures ResetTraffic(db, id, now).0.users[id].EffectiveStatus(t) != Limited
    ensures !ResetTraffic(db, id, now).0.users[id].IsLimited() && ResetTraffic(db, id, now).0.users[id].status != Limited
  {
  }

  // ---- updates as patches ----

  function Later<T>(first: Option<T>, second: Option<T>): Option<T> {
    if second.Some? then second else first
  }

  /** Both patches at once, the second winning. */
  function Merge(p: Patch, q: Patch): Patch {
    Patch(Later(p.status, q.status), Later(p.dataLimit, q.dataLimit), Later(p.expireAt, q.expireAt),
          Later(p.dataStrategy, q.dataStrategy), Later(p.note, q.note), Later(p.inboundIds, q.inboundIds))
  }

  /** After a successful update, a second one ends as the merged one would have: the same outcome
      and, if it succeeds, the same tables; if it fails, the tables of the first. */
  lemma UpdatesCompose(db: DB, id: nat, p: Patch, q: Patch)
    requires Inv(db) && UpdateUser(db, id, p).1.Done?
    ensures var db1 := UpdateUser(db, id, p).0;
            && UpdateUser(db1, id, q).1 == UpdateUser(db, id, Merge(p, q)).1
            && UpdateUser(db1, id, q).0 == if UpdateUser(db1, id, q).1.Done? then UpdateUser(db, id, Merge(p, q)).0 else db1
  {
    var db1 := UpdateUser(db, id, p).0;
    UpdatedIs(db, id, p);
    PatchTwice(db.users[id], p, q);
    JoinsTwice(db.joins, id, p, q);
    FailureChangesNothing(db1, OpUpdateUser(id, q));
    if UpdateUser(db1, id, q).1.Done? {
      UpdatedIs(db1, id, q);
      UpdatedIs(db, id, Merge(p, q));
      assert db1.users[id := Patched(db1.users[id], q)] == db.users[id := Patched(db.users[id], Merge(p, q))];
    }
  }

  /** The associations after a patch. */
  function PatchedJoins(joins: map<(nat, nat), bool>, id: nat, p: Patch): map<(nat, nat), bool> {
    match p.inboundIds
    case None => joins
    case Some(ids) => Associate(Dissociate(joins, id), id, ids)
  }

  lemma UpdatedIs(db: DB, id: nat, p: Patch)
    requires UpdateUser(db, id, p).1.Done?
    ensures LiveUser(db, id)
    ensures UpdateUser(db, id, p).0 ==
            db.(users := db.users[id := Patched(db.users[id], p)], joins := PatchedJoins(db.joins, id, p))
  {
  }

  lemma JoinsTwice(joins: map<(nat, nat), bool>, id: nat, p: Patch, q: Patch)
    ensures PatchedJoins(PatchedJoins(joins, id, p), id, q) == PatchedJoins(joins, id, Merge(p, q))
  {
    if p.inboundIds.Some? {
      DissociateAgain(joins, id, p.inboundIds.value);
    }
  }

  lemma PatchTwice(u: User, p: Patch, q: Patch)
    ensures Patched(Patched(u, p), q) == Patched(u, Merge(p, q))
  {
  }

  lemma DissociateAgain(joins: map<(nat, nat), bool>, id: nat, ids: seq<nat>)
    ensures Dissociate(Associate(Dissociate(joins, id), id, ids), id) == Dissociate(joins, id)
  {
  }
}
