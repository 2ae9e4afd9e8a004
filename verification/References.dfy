/** Whether associations point to inbounds that exist: it depends on the foreign key alone. */
module References {
  import opened GoStrings
  import opened Models
  import opened Panel
  import Documents

  /** Every association points to an inbound row. */
  predicate Resolves(db: DB) {
    forall k :: k in db.joins ==> k.1 in db.inbounds
  }

  /** The inbounds an operation asks to associate. */
  predicate Names(op: Op, id: nat) {
    match op
    case OpCreateUser(input, _) => id in input.inboundIds
    case OpUpdateUser(_, p) => p.inboundIds.Some? && id in p.inboundIds.value
    case _ => false
  }

  lemma CreateResolvesExactly(db: DB, input: CreateInput, c: Credentials)
    requires Resolves(db) && CreateUser(db, input, c).1.Done?
    ensures Resolves(CreateUser(db, input, c).0) <==> forall i :: i in input.inboundIds ==> i in db.inbounds
  {
    var db' := CreateUser(db, input, c).0;
    forall i | i in input.inboundIds ensures (db.nextUser, i) in db'.joins {
    }
  }

  lemma UpdateResolvesExactly(db: DB, id: nat, p: Patch)
    requires Resolves(db) && UpdateUser(db, id, p).1.Done?
    ensures Resolves(UpdateUser(db, id, p).0) <==>
              forall i :: p.inboundIds.Some? && i in p.inboundIds.value ==> i in db.inbounds
  {
    var db' := UpdateUser(db, id, p).0;
    forall i | p.inboundIds.Some? && i in p.inboundIds.value ensures (id, i) in db'.joins {
    }
  }

  /** Other operations add no association and remove no inbound. */
  lemma OthersResolve(db: DB, op: Op)
    requires Inv(db) && Resolves(db) && !op.OpCreateUser? && !op.OpUpdateUser?
    ensures Resolves(Step(db, op))
  {
    Documents.StepRowsStay(db, op);
    OthersAddNone(db, op);
  }

  lemma OthersAddNone(db: DB, op: Op)
    requires !op.OpCreateUser? && !op.OpUpdateUser?
    ensures forall k :: k in Step(db, op).joins ==> k in db.joins
  {
    match op
    case OpResetTraffic(id, now) => assert ResetTraffic(db, id, now).0.joins == db.joins;
    case OpDeleteUser(id) => assert forall k :: k in Dissociate(db.joins, id) ==> k in db.joins;
    case OpRegenerate(id, token) => assert RegenerateSubToken(db, id, token).0.joins == db.joins;
    case OpFetch(token, now) => assert FetchSubscription(db, token, now).0.joins == db.joins;
    case OpAddUsage(id, up, down) => assert AddUsage(db, id, up, down).0.joins == db.joins;
    case OpCreateNode(n) => assert CreateNode(db, n).0.joins == db.joins;
    case OpDeleteNode(id) => assert DeleteNode(db, id).0.joins == db.joins;
    case OpCreateInbound(i) => assert CreateInbound(db, i).0.joins == db.joins;
    case OpDeleteInbound(id) => assert DeleteInbound(db, id).0.joins == db.joins;
  }

  /** A step leaves a dangling association exactly when it succeeds in naming a missing inbound. */
  lemma StepResolvesExactly(db: DB, op: Op)
    requires Inv(db) && Resolves(db)
    ensures Resolves(Step(db, op)) <==> Apply(db, op).1.Failed? || forall i :: Names(op, i) ==> i in db.inbounds
  {
    FailureChangesNothing(db, op);
    if Apply(db, op).1.Done? {
      match op
      case OpCreateUser(input, c) => CreateResolvesExactly(db, input, c);
      case OpUpdateUser(id, p) => UpdateResolvesExactly(db, id, p);
      case _ => OthersResolve(db, op);
    }
  }

  // ---- what can happen without the foreign key ----

  /** A user created with the id of an inbound that does not exist yet. */
  function EagerUser(): Op {
    OpCreateUser(CreateInput("u", 0, None, [], [], [], [1]), Credentials([], [], [], []))
  }

  function SomeNode(): Node {
    Node(0, "n", "a", Xray, true, false)
  }

  function SomeInbound(): Inbound {
    Inbound(0, 1, [], VLESS, [], 443, [], [], [], [], [], [], [], None, true, false)
  }

  lemma EagerUserAccepted(schema: Schema)
    requires !schema.foreignKey
    ensures Apply(Empty(schema), EagerUser()).1.Done?
    ensures var db := Step(Empty(schema), EagerUser());
            (1, 1) in db.joins && 1 !in db.inbounds && db.nextNode == 1 && db.nextInbound == 1 && LiveUser(db, 1)
  {
    var db0 := Empty(schema);
    assert CanAssociate(db0, [1]);
    assert !Clashes(db0, NewUser(1, EagerUser().input, EagerUser().credentials));
  }

  lemma ThenNodeAndInbound(schema: Schema)
    requires !schema.foreignKey
    ensures var db := Run(Empty(schema), [EagerUser(), OpCreateNode(SomeNode())]);
            var (after, outcome) := CreateInbound(db, SomeInbound());
            && outcome.Done? && db.nextInbound == 1 && (1, 1) in db.joins
            && Documents.Deliverable(after, 1, (1, 1))
  {
    var db1 := Step(Empty(schema), EagerUser());
    EagerUserAccepted(schema);
    var db2 := Step(db1, OpCreateNode(SomeNode()));
    assert LiveNode(db2, 1) && db2.nodes[1].core == Xray;
    assert [EagerUser(), OpCreateNode(SomeNode())][1..] == [OpCreateNode(SomeNode())];
    assert [OpCreateNode(SomeNode())][1..] == [];
    assert Run(Empty(schema), [EagerUser(), OpCreateNode(SomeNode())]) == Run(db1, [OpCreateNode(SomeNode())]) == db2;
  }

  // ---- main results ----

  /** In every reachable database every association points to an inbound, exactly when the schema
      has the foreign key. */
  lemma ReferencesExactly(schema: Schema)
    ensures (forall ops :: Resolves(Run(Empty(schema), ops))) <==> schema.foreignKey
  {
    if schema.foreignKey {
      forall ops ensures Resolves(Run(Empty(schema), ops)) {
        ReachableInv(schema, ops);
        RunSchema(Empty(schema), ops);
      }
    } else {
      EagerUserAccepted(schema);
      assert [EagerUser()][1..] == [];
      assert Run(Empty(schema), [EagerUser()]) == Step(Empty(schema), EagerUser());
    }
  }

  lemma StepSchema(db: DB, op: Op)
    ensures Step(db, op).schema == db.schema
  {
    match op
    case OpCreateUser(input, c) => assert CreateUser(db, input, c).0.schema == db.schema;
    case OpUpdateUser(id, p) => assert UpdateUser(db, id, p).0.schema == db.schema;
    case OpResetTraffic(id, now) => assert ResetTraffic(db, id, now).0.schema == db.schema;
    case OpDeleteUser(id) => assert DeleteUser(db, id).0.schema == db.schema;
    case OpRegenerate(id, token) => assert RegenerateSubToken(db, id, token).0.schema == db.schema;
    case OpFetch(token, now) => assert FetchSubscription(db, token, now).0.schema == db.schema;
    case OpAddUsage(id, up, down) => assert AddUsage(db, id, up, down).0.schema == db.schema;
    case OpCreateNode(n) => assert CreateNode(db, n).0.schema == db.schema;
    case OpDeleteNode(id) => assert DeleteNode(db, id).0.schema == db.schema;
    case OpCreateInbound(i) => assert CreateInbound(db, i).0.schema == db.schema;
    case OpDeleteInbound(id) => assert DeleteInbound(db, id).0.schema == db.schema;
  }

  lemma {:induction false} RunSchema(db: DB, ops: seq<Op>)
    ensures Run(db, ops).schema == db.schema
    decreases |ops|
  {
    if ops != [] {
      StepSchema(db, ops[0]);
      RunSchema(Step(db, ops[0]), ops[1..]);
    }
  }

  /** Nobody is associated with the next inbound before it exists. */
  predicate NextIsFree(db: DB) {
    forall k :: k in db.joins ==> k.1 != db.nextInbound
  }

  /** A newly created inbound is associated with nobody, in every reachable database, exactly when
      the schema has the foreign key. */
  lemma NewInboundIsFreeExactly(schema: Schema)
    ensures (forall ops, i ::
               CreateInbound(Run(Empty(schema), ops), i).1.Done? ==> NextIsFree(Run(Empty(schema), ops)))
            <==> schema.foreignKey
  {
    if schema.foreignKey {
      forall ops, i | CreateInbound(Run(Empty(schema), ops), i).1.Done? ensures NextIsFree(Run(Empty(schema), ops)) {
        ReachableInv(schema, ops);
        RunSchema(Empty(schema), ops);
      }
    } else {
      ThenNodeAndInbound(schema);
      var db := Run(Empty(schema), [EagerUser(), OpCreateNode(SomeNode())]);
      assert CreateInbound(db, SomeInbound()).1.Done? && !NextIsFree(db);
    }
  }

  /** Without the key a later inbound is delivered at once to whoever named its id before. */
  lemma EagerlyDelivered(schema: Schema)
    requires !schema.foreignKey
    ensures exists ops, i ::
              var db := Run(Empty(schema), ops);
              CreateInbound(db, i).1.Done? && Documents.Deliverable(CreateInbound(db, i).0, 1, (1, db.nextInbound))
  {
    ThenNodeAndInbound(schema);
    var ops, i := [EagerUser(), OpCreateNode(SomeNode())], SomeInbound();
    var db := Run(Empty(schema), ops);
    assert CreateInbound(db, i).1.Done? && Documents.Deliverable(CreateInbound(db, i).0, 1, (1, db.nextInbound));
  }
}
