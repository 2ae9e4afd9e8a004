/** What the operations on users do, column by column: when each succeeds, with which error it fails,
    what the tables hold afterwards, and what a disabled user is served. */
module UserOperations {
  import opened GoStrings
  import opened Models
  import opened Panel
  import opened Subscription
  import opened PanelService
  import Histories

  /** A unique index refuses the identity: another row it covers has the username, UUID or token. */
  predicate Taken(db: DB, me: nat, username: Str, uuid: Str, token: Str) {
    exists id :: id in db.users && id != me && (db.schema.unique == AllRows || !db.users[id].deleted)
                 && (db.users[id].username == username || db.users[id].uuid == uuid || db.users[id].subToken == token)
  }

  /** The keys of the join table accept the inbounds: none twice, and if there is a foreign key, all exist. */
  predicate Assignable(db: DB, ids: seq<nat>) {
    && (forall i, j :: 0 <= i < j < |ids| ==> ids[i] != ids[j])
    && (db.schema.foreignKey ==> forall i :: i in ids ==> i in db.inbounds)
  }

  /** Everything but users and associations. */
  predicate SameElsewhere(db: DB, db': DB) {
    && db'.nodes == db.nodes && db'.inbounds == db.inbounds && db'.schema == db.schema
    && db'.nextNode == db.nextNode && db'.nextInbound == db.nextInbound
  }

  /** No row but that of id is touched. */
  ghost predicate OnlyRow(db: DB, db': DB, id: nat) {
    && SameElsewhere(db, db')
    && id in db'.users
    && forall x :: x != id ==> (x in db'.users <==> x in db.users) && (x in db.users ==> db'.users[x] == db.users[x])
  }

  /** id is associated with exactly the ids, and nobody else's associations are touched. */
  ghost predicate AssociatedWith(db: DB, db': DB, id: nat, ids: seq<nat>) {
    && (forall k :: k in db'.joins <==> if k.0 == id then k.1 in ids else k in db.joins)
    && (forall k :: k in db'.joins ==> db'.joins[k] == (k.0 == id || db.joins[k]))
  }

  lemma TakenIsClash(db: DB, u: User)
    ensures Clashes(db, u) <==> Taken(db, u.id, u.username, u.uuid, u.subToken)
  {
    if Clashes(db, u) {
      var id :| id in db.users && Covered(db, id) && id != u.id && SameIdentity(db.users[id], u);
    }
    if Taken(db, u.id, u.username, u.uuid, u.subToken) {
      var id :| id in db.users && id != u.id && (db.schema.unique == AllRows || !db.users[id].deleted)
        && (db.users[id].username == u.username || db.users[id].uuid == u.uuid || db.users[id].subToken == u.subToken);
      assert Covered(db, id) && SameIdentity(db.users[id], u);
    }
  }

  lemma AssignableIsAssociable(db: DB, ids: seq<nat>)
    ensures CanAssociate(db, ids) <==> Assignable(db, ids)
  {
  }

  // ---- Create ----

  /** When a user is created, and which error it is otherwise. */
  lemma CreateOutcome(db: DB, input: CreateInput, c: Credentials)
    ensures CreateUser(db, input, c).1 ==
            if input.username == [] || input.dataLimit < 0 then Failed(Validation)
            else if Taken(db, db.nextUser, input.username, c.uuid, c.subToken) then Failed(Conflict)
            else if !Assignable(db, input.inboundIds) then Failed(Rejected)
            else Done
  {
    TakenIsClash(db, NewUser(db.nextUser, input, c));
    AssignableIsAssociable(db, input.inboundIds);
  }

  /** The columns a created user stores. */
  lemma CreatedRow(db: DB, input: CreateInput, c: Credentials)
    requires Inv(db) && CreateUser(db, input, c).1.Done?
    ensures var (db', id) := (CreateUser(db, input, c).0, db.nextUser);
            && id !in db.users && OnlyRow(db, db', id) && db'.nextUser == id + 1
            && var u := db'.users[id];
               && u.id == id && u.username == input.username && u.status == Active && !u.deleted
               && u.uuid == c.uuid && u.trojanPassword == c.trojanPassword && u.ssPassword == c.ssPassword && u.subToken == c.subToken
               && u.ssMethod == (if input.ssMethod == "" then "chacha20-ietf-poly1305" else input.ssMethod)
               && u.dataStrategy == (if input.dataStrategy == "" then "no_reset" else input.dataStrategy)
               && u.dataLimit == input.dataLimit && u.usedUp == 0 && u.usedDown == 0
               && u.expireAt == input.expireAt && u.note == input.note && u.lastResetAt.None? && u.subLastAt.None?
  {
  }

  lemma CreatedJoins(db: DB, input: CreateInput, c: Credentials)
    requires Inv(db) && CreateUser(db, input, c).1.Done?
    ensures AssociatedWith(db, CreateUser(db, input, c).0, db.nextUser, input.inboundIds)
  {
    assert forall k :: k in db.joins ==> k.0 in db.users && db.joins[k];
  }

  // ---- Update ----

  /** When an update succeeds, and which error it is otherwise. */
  lemma UpdateOutcome(db: DB, id: nat, p: Patch)
    ensures UpdateUser(db, id, p).1 ==
            if id !in db.users || db.users[id].deleted then Failed(NotFound)
            else if p.dataLimit.Some? && p.dataLimit.value < 0 then Failed(Validation)
            else if p.inboundIds.Some? && !Assignable(db, p.inboundIds.value) then Failed(Rejected)
            else Done
  {
    if p.inboundIds.Some? {
      AssignableIsAssociable(db, p.inboundIds.value);
    }
  }

  /** Each column of the patch is stored if the patch has it, and every other keeps its value. */
  lemma UpdatedRow(db: DB, id: nat, p: Patch)
    requires UpdateUser(db, id, p).1.Done?
    ensures var db' := UpdateUser(db, id, p).0;
            && OnlyRow(db, db', id) && db'.nextUser == db.nextUser
            && var (u, u') := (db.users[id], db'.users[id]);
               && u'.status == (if p.status.Some? then p.status.value else u.status)
               && u'.dataLimit == (if p.dataLimit.Some? then p.dataLimit.value else u.dataLimit)
               && u'.expireAt == (if p.expireAt.Some? then p.expireAt.value else u.expireAt)
               && u'.dataStrategy == (if p.dataStrategy.Some? then p.dataStrategy.value else u.dataStrategy)
               && u'.note == (if p.note.Some? then p.note.value else u.note)
               && u' == u.(status := u'.status, dataLimit := u'.dataLimit, expireAt := u'.expireAt,
                           dataStrategy := u'.dataStrategy, note := u'.note)
  {
    Histories.UpdatedIs(db, id, p);
  }

  /** And the associations are replaced if the patch has any, and otherwise kept. */
  lemma UpdatedJoins(db: DB, id: nat, p: Patch)
    requires UpdateUser(db, id, p).1.Done?
    ensures var db' := UpdateUser(db, id, p).0;
            if p.inboundIds.Some? then AssociatedWith(db, db', id, p.inboundIds.value) else db'.joins == db.joins
  {
    Histories.UpdatedIs(db, id, p);
  }

  lemma ResetKeepsDisabled(db: DB, id: nat, now: int)
    requires LiveUser(db, id) && db.users[id].status == Disabled
    ensures ResetTraffic(db, id, now).0.users[id].status == Disabled
  {
  }

  lemma StepStaysDisabled(db: DB, op: Op, id: nat)
    requires Inv(db) && id in db.users && db.users[id].status == Disabled && !(op.OpUpdateUser? && op.id == id)
    ensures id in Step(db, op).users && Step(db, op).users[id].status == Disabled
  {
    if op.OpResetTraffic? && op.id == id {
      if LiveUser(db, id) {
        ResetKeepsDisabled(db, id, op.now);
      }
    } else {
      Histories.StepAges(db, op, id);
    }
  }

  lemma {:induction false} RunStaysDisabled(db: DB, ops: seq<Op>, id: nat)
    requires Inv(db) && id in db.users && db.users[id].status == Disabled
    requires forall op :: op in ops ==> !(op.OpUpdateUser? && op.id == id)
    ensures id in Run(db, ops).users && Run(db, ops).users[id].status == Disabled
    decreases |ops|
  {
    if ops != [] {
      assert ops[0] in ops;
      StepStaysDisabled(db, ops[0], id);
      StepKeeps(db, ops[0]);
      RunStaysDisabled(Step(db, ops[0]), ops[1..], id);
    }
  }

  /** After an update to disabled the user is served nothing, at any time and whatever else happens,
      until it is updated again. */
  lemma DisabledIsServedNothing(db: DB, id: nat, p: Patch, ops: seq<Op>, now: int, pairs: seq<NodeInbound>, uris: seq<Str>)
    requires Inv(db) && UpdateUser(db, id, p).1.Done? && p.status == Some(Disabled)
    requires forall op :: op in ops ==> !(op.OpUpdateUser? && op.id == id)
    requires IsDocument(Run(UpdateUser(db, id, p).0, ops), id, now, pairs, uris)
    ensures pairs == [] && uris == []
  {
    var db1 := UpdateUser(db, id, p).0;
    UpdatedRow(db, id, p);
    UpdateUserKeeps(db, id, p);
    RunStaysDisabled(db1, ops, id);
  }

  // ---- ResetTraffic, Delete, RegenerateSubToken ----

  /** A reset zeroes the counters, notes the time, and makes a limited status active; nothing else. */
  lemma ResetDone(db: DB, id: nat, now: int)
    ensures ResetTraffic(db, id, now).1 == if id in db.users && !db.users[id].deleted then Done else Failed(NotFound)
    ensures ResetTraffic(db, id, now).1.Done? ==>
              var db' := ResetTraffic(db, id, now).0;
              && OnlyRow(db, db', id) && db'.joins == db.joins && db'.nextUser == db.nextUser
              && var (u, u') := (db.users[id], db'.users[id]);
                 && u'.usedUp == 0 && u'.usedDown == 0 && u'.lastResetAt == Some(now)
                 && u'.status == (if u.status == Limited then Active else u.status)
                 && u' == u.(usedUp := 0, usedDown := 0, lastResetAt := Some(now), status := u'.status)
  {
  }

  /** A deletion marks the row and removes its associations; nothing else. */
  lemma DeleteDone(db: DB, id: nat)
    ensures DeleteUser(db, id).1 == if id in db.users && !db.users[id].deleted then Done else Failed(NotFound)
    ensures DeleteUser(db, id).1.Done? ==>
              var db' := DeleteUser(db, id).0;
              && OnlyRow(db, db', id) && db'.users[id] == db.users[id].(deleted := true) && db'.nextUser == db.nextUser
              && AssociatedWith(db, db', id, [])
  {
  }

  /** A rotation stores the new token unless another covered row has it, or anything else of this
      row's identity; nothing else changes. */
  lemma RegenerateDone(db: DB, id: nat, token: Str)
    ensures RegenerateSubToken(db, id, token).1 ==
            if id !in db.users || db.users[id].deleted then Failed(NotFound)
            else if Taken(db, db.users[id].id, db.users[id].username, db.users[id].uuid, token) then Failed(Rejected)
            else Done
    ensures RegenerateSubToken(db, id, token).1.Done? ==>
              var db' := RegenerateSubToken(db, id, token).0;
              && OnlyRow(db, db', id) && db'.users[id] == db.users[id].(subToken := token)
              && db'.joins == db.joins && db'.nextUser == db.nextUser
  {
    if id in db.users {
      TakenIsClash(db, db.users[id].(subToken := token));
    }
  }

  /** In a consistent database a rotation fails for its token only. */
  lemma RegenerateFailsOnTokenOnly(db: DB, id: nat, token: Str)
    requires Inv(db) && id in db.users && !db.users[id].deleted
    ensures RegenerateSubToken(db, id, token).1.Done? <==>
              !exists x :: x in db.users && x != id && (db.schema.unique == AllRows || !db.users[x].deleted)
                           && db.users[x].subToken == token
  {
    RegenerateDone(db, id, token);
    var u := db.users[id];
    if Taken(db, u.id, u.username, u.uuid, token) {
      var x :| x in db.users && x != u.id && (db.schema.unique == AllRows || !db.users[x].deleted)
        && (db.users[x].username == u.username || db.users[x].uuid == u.uuid || db.users[x].subToken == token);
      assert Covered(db, x) && Covered(db, id) && !SameIdentity(db.users[x], u);
    }
  }

  // ---- fetches and traffic ----

  /** A fetch succeeds exactly when a live user has the token; it notes the time on that user's row and
      changes nothing else. */
  lemma FetchDone(db: DB, token: Str, now: int)
    requires Inv(db)
    ensures FetchSubscription(db, token, now).1 ==
            if exists id :: id in db.users && !db.users[id].deleted && db.users[id].subToken == token then Done else Failed(NotFound)
    ensures forall id :: id in db.users && !db.users[id].deleted && db.users[id].subToken == token ==>
              var db' := FetchSubscription(db, token, now).0;
              && OnlyRow(db, db', id) && db'.users[id] == db.users[id].(subLastAt := Some(now))
              && db'.joins == db.joins && db'.nextUser == db.nextUser
  {
    forall id | id in db.users && !db.users[id].deleted && db.users[id].subToken == token
      ensures GetBySubToken(db, token) == Some(id)
    {
      Histories.ResolvesTheHolder(db, token, id);
    }
    if GetBySubToken(db, token).Some? {
      assert HasToken(db, GetBySubToken(db, token).value, token);
    }
  }

  /** Traffic is added to the counters of a live user if both still fit; nothing else. */
  lemma UsageDone(db: DB, id: nat, up: nat, down: nat)
    ensures AddUsage(db, id, up, down).1.Done? <==>
              && id in db.users && !db.users[id].deleted
              && db.users[id].usedUp + up < 0x8000_0000_0000_0000 && db.users[id].usedDown + down < 0x8000_0000_0000_0000
    ensures AddUsage(db, id, up, down).1.Done? ==>
              var db' := AddUsage(db, id, up, down).0;
              && OnlyRow(db, db', id) && db'.joins == db.joins && db'.nextUser == db.nextUser
              && db'.users[id].usedUp == db.users[id].usedUp + up && db'.users[id].usedDown == db.users[id].usedDown + down
              && db'.users[id] == db.users[id].(usedUp := db'.users[id].usedUp, usedDown := db'.users[id].usedDown)
  {
  }
}
