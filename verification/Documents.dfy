/** What a fetched subscription holds, in every reachable database. */
module Documents {
  import opened GoStrings
  import opened Models
  import opened Subscription
  import opened Panel
  import opened PanelService
  import Histories

  /** The join row k gives user a link: its inbound and the inbound's node are live. */
  predicate Deliverable(db: DB, user: nat, k: (nat, nat)) {
    k in db.joins && k.0 == user && LiveInbound(db, k.1) && LiveNode(db, db.inbounds[k.1].nodeId)
  }

  function PairOf(db: DB, k: (nat, nat)): NodeInbound
    requires k.1 in db.inbounds && db.inbounds[k.1].nodeId in db.nodes
  {
    NodeInbound(db.nodes[db.inbounds[k.1].nodeId], db.inbounds[k.1])
  }

  /** p is what some deliverable association of the user stands for. */
  predicate DeliverablePair(db: DB, user: nat, p: NodeInbound) {
    var k := (user, p.inbound.id);
    Deliverable(db, user, k) && p == PairOf(db, k)
  }

  lemma {:induction false} ResolveMembers(db: DB, ins: seq<Inbound>)
    ensures forall p :: p in Resolve(db, ins) <==>
              p.inbound in ins && LiveNode(db, p.inbound.nodeId) && p.node == db.nodes[p.inbound.nodeId]
  {
    if ins != [] {
      ResolveMembers(db, ins[1..]);
      assert forall i :: i in ins <==> i == ins[0] || i in ins[1..];
    }
  }

  predicate DistinctInbounds(pairs: seq<NodeInbound>) {
    forall a, b :: 0 <= a < b < |pairs| ==> pairs[a].inbound.id != pairs[b].inbound.id
  }

  lemma {:induction false} ResolveDistinct(db: DB, ins: seq<Inbound>)
    requires forall a, b :: 0 <= a < b < |ins| ==> ins[a].id != ins[b].id
    ensures DistinctInbounds(Resolve(db, ins))
  {
    if ins != [] {
      var rest := Resolve(db, ins[1..]);
      ResolveDistinct(db, ins[1..]);
      ResolveMembers(db, ins[1..]);
      forall b | 0 <= b < |rest| ensures rest[b].inbound.id != ins[0].id {
        assert rest[b] in rest;
        var j :| 0 <= j < |ins[1..]| && ins[1..][j] == rest[b].inbound;
        assert ins[j + 1] == rest[b].inbound;
      }
    }
  }

  lemma {:induction false} AllServed(pairs: seq<NodeInbound>)
    requires forall p :: p in pairs ==> Served(p)
    ensures ServedPairs(pairs) == pairs
  {
    if pairs != [] {
      AllServed(pairs[1..]);
      assert pairs == [pairs[0]] + pairs[1..];
    }
  }

  lemma PairsAreDeliverable(db: DB, id: nat, ins: seq<Inbound>)
    requires Inv(db) && IsPreload(db, id, ins)
    ensures forall p :: p in Resolve(db, ins) <==> DeliverablePair(db, id, p)
    ensures DistinctInbounds(Resolve(db, ins))
  {
    ResolveMembers(db, ins);
    ResolveDistinct(db, ins);
  }

  lemma DeliverableIsServed(db: DB, id: nat, p: NodeInbound)
    requires Inv(db) && DeliverablePair(db, id, p)
    ensures Served(p)
  {
  }

  lemma DocumentPairs(db: DB, id: nat, now: int, pairs: seq<NodeInbound>, uris: seq<Str>)
    requires Inv(db) && IsDocument(db, id, now, pairs, uris)
    ensures DistinctInbounds(pairs)
    ensures forall p :: p in pairs <==> db.users[id].CanConnect(now) && DeliverablePair(db, id, p)
  {
    if db.users[id].CanConnect(now) {
      var ins :| IsPreload(db, id, ins) && pairs == Resolve(db, ins);
      PairsAreDeliverable(db, id, ins);
    }
  }

  /** A document has one pair for each deliverable association of its user and nothing else, and
      the filters of BuildAll drop none of them. Nobody who cannot connect gets a pair. */
  lemma DocumentIsExact(db: DB, id: nat, now: int, pairs: seq<NodeInbound>, uris: seq<Str>)
    requires Inv(db) && IsDocument(db, id, now, pairs, uris)
    ensures DistinctInbounds(pairs)
    ensures forall p :: p in pairs <==> db.users[id].CanConnect(now) && DeliverablePair(db, id, p)
    ensures ServedPairs(pairs) == pairs
  {
    DocumentPairs(db, id, now, pairs, uris);
    PairsServed(db, id, pairs);
  }

  lemma PairsServed(db: DB, id: nat, pairs: seq<NodeInbound>)
    requires Inv(db) && forall p :: p in pairs ==> DeliverablePair(db, id, p)
    ensures ServedPairs(pairs) == pairs
  {
    forall p | p in pairs ensures Served(p) {
      DeliverableIsServed(db, id, p);
    }
    AllServed(pairs);
  }

  /** Every pair of a document has its link, in the same place. */
  lemma DocumentLinks(db: DB, id: nat, now: int, pairs: seq<NodeInbound>, uris: seq<Str>)
    requires Inv(db) && IsDocument(db, id, now, pairs, uris)
    ensures |uris| == |pairs|
    ensures forall i :: 0 <= i < |pairs| ==> LinkOf(db.users[id], pairs[i]) == Some(uris[i])
  {
    DocumentIsExact(db, id, now, pairs, uris);
    forall i | 0 <= i < |pairs| ensures LinkOf(db.users[id], pairs[i]) == Some(uris[i]) {
      UrisAt(db.users[id], pairs, i);
    }
  }

  /** End to end: in every reachable database the document a client decodes says what each
      deliverable pair means, in every format, exactly when each of them fits in a link. */
  lemma ReachableDocument(schema: Schema, ops: seq<Op>, id: nat, now: int,
                          pairs: seq<NodeInbound>, uris: seq<Str>, format: SubFormat)
    requires IsDocument(Run(Empty(schema), ops), id, now, pairs, uris)
    ensures forall p :: p in pairs ==> Served(p)
    ensures var u := Run(Empty(schema), ops).users[id];
            ParseDocument(Render(uris, format), format) == Some(Meanings(u, pairs)) <==> forall p :: p in pairs ==> Fits(u, p)
  {
    var db := Run(Empty(schema), ops);
    ReachableInv(schema, ops);
    DocumentIsExact(db, id, now, pairs, uris);
    DocumentExact(db.users[id], pairs, format);
  }

  // ---- reads that are not one step ----

  /** Node rows stay what they were created as, but for the deleted flag. */
  predicate SameNodes(db: DB, db': DB) {
    forall n :: n in db.nodes ==> n in db'.nodes && db'.nodes[n] == db.nodes[n].(deleted := db'.nodes[n].deleted)
  }

  lemma CreateNodeKeepsRows(db: DB, n: Node)
    requires Inv(db)
    ensures var db' := CreateNode(db, n).0;
            && db'.inbounds == db.inbounds
            && forall k :: k in db.nodes ==> k in db'.nodes && db'.nodes[k] == db.nodes[k]
  {
  }

  lemma DeleteNodeKeepsRows(db: DB, id: nat)
    ensures var db' := DeleteNode(db, id).0;
            && db'.inbounds == db.inbounds
            && forall k :: k in db.nodes ==>
                 && k in db'.nodes && db'.nodes[k] == db.nodes[k].(deleted := db'.nodes[k].deleted)
                 && (db.nodes[k].deleted ==> db'.nodes[k].deleted)
  {
  }

  lemma CreateInboundKeepsRows(db: DB, i: Inbound)
    requires Inv(db)
    ensures var db' := CreateInbound(db, i).0;
            && db'.nodes == db.nodes
            && forall k :: k in db.inbounds ==> k in db'.inbounds && db'.inbounds[k] == db.inbounds[k]
  {
  }

  lemma DeleteInboundKeepsRows(db: DB, id: nat)
    ensures var db' := DeleteInbound(db, id).0;
            && db'.nodes == db.nodes
            && forall k :: k in db.inbounds ==>
                 k in db'.inbounds && (db.inbounds[k].deleted ==> db'.inbounds[k].deleted)
  {
  }

  /** What any operation does to the nodes and inbounds there are. */
  predicate RowsStay(db: DB, db': DB) {
    && SameNodes(db, db')
    && (forall n :: n in db.nodes ==> (db.nodes[n].deleted ==> db'.nodes[n].deleted))
    && (forall i :: i in db.inbounds ==> i in db'.inbounds && (db.inbounds[i].deleted ==> db'.inbounds[i].deleted))
  }

  /** User operations, fetches and traffic leave nodes and inbounds alone. */
  lemma UserOpsFrame(db: DB, op: Op)
    requires !op.OpCreateNode? && !op.OpDeleteNode? && !op.OpCreateInbound? && !op.OpDeleteInbound?
    ensures Step(db, op).nodes == db.nodes && Step(db, op).inbounds == db.inbounds
    ensures Step(db, op).nextNode == db.nextNode && Step(db, op).nextInbound == db.nextInbound
  {
    match op
    case OpCreateUser(input, c) => assert CreateUser(db, input, c).0.nodes == db.nodes;
    case OpUpdateUser(id, p) => assert UpdateUser(db, id, p).0.nodes == db.nodes;
    case OpResetTraffic(id, now) =>
    case OpDeleteUser(id) =>
    case OpRegenerate(id, token) => assert RegenerateSubToken(db, id, token).0.nodes == db.nodes;
    case OpFetch(token, now) => assert FetchSubscription(db, token, now).0.nodes == db.nodes;
    case OpAddUsage(id, up, down) => assert AddUsage(db, id, up, down).0.nodes == db.nodes;
  }

  lemma NodeOpRowsStay(db: DB, op: Op)
    requires Inv(db) && (op.OpCreateNode? || op.OpDeleteNode?)
    ensures RowsStay(db, Step(db, op))
  {
    match op
    case OpCreateNode(n) => CreateNodeKeepsRows(db, n);
    case OpDeleteNode(id) => DeleteNodeKeepsRows(db, id);
  }

  lemma InboundOpRowsStay(db: DB, op: Op)
    requires Inv(db) && (op.OpCreateInbound? || op.OpDeleteInbound?)
    ensures RowsStay(db, Step(db, op))
  {
    match op
    case OpCreateInbound(i) => CreateInboundKeepsRows(db, i);
    case OpDeleteInbound(id) => DeleteInboundKeepsRows(db, id);
  }

  lemma StepRowsStay(db: DB, op: Op)
    requires Inv(db)
    ensures RowsStay(db, Step(db, op))
  {
    if op.OpCreateNode? || op.OpDeleteNode? {
      NodeOpRowsStay(db, op);
    } else if op.OpCreateInbound? || op.OpDeleteInbound? {
      InboundOpRowsStay(db, op);
    } else {
      UserOpsFrame(db, op);
    }
  }

  lemma {:induction false} RunSameNodes(db: DB, ops: seq<Op>)
    requires Inv(db)
    ensures SameNodes(db, Run(db, ops))
    decreases |ops|
  {
    if ops != [] {
      StepRowsStay(db, ops[0]);
      StepKeeps(db, ops[0]);
      RunSameNodes(Step(db, ops[0]), ops[1..]);
    }
  }

  /** A fetch reads the user with its inbounds first and the nodes later. Whatever operations come
      in between, its pairs are the associations as first read whose node is live when the nodes
      are read, one each, and the filters of BuildAll still drop none. */
  lemma InterleavedDocument(db: DB, id: nat, ins: seq<Inbound>, between: seq<Op>, pairs: seq<NodeInbound>)
    requires Inv(db) && IsPreload(db, id, ins) && pairs == Resolve(Run(db, between), ins)
    ensures DistinctInbounds(pairs) && ServedPairs(pairs) == pairs
    ensures forall p :: p in pairs <==>
              && (id, p.inbound.id) in db.joins && LiveInbound(db, p.inbound.id) && p.inbound == db.inbounds[p.inbound.id]
              && LiveNode(Run(db, between), p.inbound.nodeId) && p.node == Run(db, between).nodes[p.inbound.nodeId]
  {
    var later := Run(db, between);
    RunKeeps(db, between);
    RunSameNodes(db, between);
    ResolveMembers(later, ins);
    ResolveDistinct(later, ins);
    forall p | p in pairs ensures Served(p) {
      ReadLaterIsServed(db, later, p);
    }
    AllServed(pairs);
  }

  lemma ReadLaterIsServed(db: DB, later: DB, p: NodeInbound)
    requires Inv(db) && Inv(later) && SameNodes(db, later)
    requires LiveInbound(db, p.inbound.id) && p.inbound == db.inbounds[p.inbound.id]
    requires LiveNode(later, p.inbound.nodeId) && p.node == later.nodes[p.inbound.nodeId]
    ensures Served(p)
  {
  }

  // ---- deletion is permanent ----

  predicate Buried(db: DB, db': DB) {
    && (forall n :: n in db.nodes ==> n in db'.nodes && (db.nodes[n].deleted ==> db'.nodes[n].deleted))
    && (forall i :: i in db.inbounds ==> i in db'.inbounds && (db.inbounds[i].deleted ==> db'.inbounds[i].deleted))
    && (forall u :: u in db.users ==> u in db'.users && (db.users[u].deleted ==> db'.users[u].deleted))
  }

  lemma CreateUserBuries(db: DB, input: CreateInput, c: Credentials)
    requires Inv(db)
    ensures var db' := CreateUser(db, input, c).0; forall u :: u in db.users ==> u in db'.users && db'.users[u] == db.users[u]
  {
  }

  lemma RegenerateBuries(db: DB, id: nat, token: Str)
    requires Inv(db)
    ensures var db' := RegenerateSubToken(db, id, token).0;
            forall u :: u in db.users ==> u in db'.users && db'.users[u].deleted == db.users[u].deleted
  {
  }

  lemma IssuingOpBuries(db: DB, op: Op)
    requires Inv(db) && (op.OpCreateUser? || op.OpRegenerate?)
    ensures forall u :: u in db.users ==> u in Step(db, op).users && Step(db, op).users[u].deleted == db.users[u].deleted
  {
    match op
    case OpCreateUser(input, c) => CreateUserBuries(db, input, c);
    case OpRegenerate(id, token) => RegenerateBuries(db, id, token);
  }

  lemma StepBuriesUsers(db: DB, op: Op)
    requires Inv(db)
    ensures forall u :: u in db.users ==> u in Step(db, op).users && (db.users[u].deleted ==> Step(db, op).users[u].deleted)
  {
    if op.OpCreateUser? || op.OpRegenerate? {
      IssuingOpBuries(db, op);
    } else {
      Histories.QuietFrame(db, op);
    }
  }

  lemma StepBuries(db: DB, op: Op)
    requires Inv(db)
    ensures Buried(db, Step(db, op))
  {
    StepRowsStay(db, op);
    StepBuriesUsers(db, op);
  }

  /** Rows are never removed and deleted rows never come back. */
  lemma {:induction false} RunBuries(db: DB, ops: seq<Op>)
    requires Inv(db)
    ensures Buried(db, Run(db, ops))
    decreases |ops|
  {
    if ops != [] {
      StepBuries(db, ops[0]);
      StepKeeps(db, ops[0]);
      RunBuries(Step(db, ops[0]), ops[1..]);
    }
  }

  lemma DeadNotServed(db: DB, id: nat, now: int, pairs: seq<NodeInbound>, uris: seq<Str>)
    requires Inv(db) && IsDocument(db, id, now, pairs, uris)
    ensures forall p :: p in pairs ==> LiveNode(db, p.node.id) && LiveInbound(db, p.inbound.id)
  {
    DocumentPairs(db, id, now, pairs, uris);
  }

  /** After a successful node deletion no later document of anybody has a pair on that node,
      although its inbounds and their associations stay in the tables. */
  lemma DeletedNodeNeverServed(db: DB, node: nat, ops: seq<Op>, id: nat, now: int, pairs: seq<NodeInbound>, uris: seq<Str>)
    requires Inv(db) && DeleteNode(db, node).1.Done?
    requires IsDocument(Run(DeleteNode(db, node).0, ops), id, now, pairs, uris)
    ensures DeleteNode(db, node).0.inbounds == db.inbounds && DeleteNode(db, node).0.joins == db.joins
    ensures forall p :: p in pairs ==> p.node.id != node
  {
    var db1 := DeleteNode(db, node).0;
    DeleteNodeKeeps(db, node);
    assert node in db1.nodes && db1.nodes[node].deleted;
    RunBuries(db1, ops);
    RunKeeps(db1, ops);
    DeadNotServed(Run(db1, ops), id, now, pairs, uris);
  }

  lemma DeletedInboundNeverServed(db: DB, inbound: nat, ops: seq<Op>, id: nat, now: int, pairs: seq<NodeInbound>, uris: seq<Str>)
    requires Inv(db) && DeleteInbound(db, inbound).1.Done?
    requires IsDocument(Run(DeleteInbound(db, inbound).0, ops), id, now, pairs, uris)
    ensures DeleteInbound(db, inbound).0.joins == db.joins
    ensures forall p :: p in pairs ==> p.inbound.id != inbound
  {
    var db1 := DeleteInbound(db, inbound).0;
    DeleteInboundKeeps(db, inbound);
    assert inbound in db1.inbounds && db1.inbounds[inbound].deleted;
    RunBuries(db1, ops);
    RunKeeps(db1, ops);
    DeadNotServed(Run(db1, ops), id, now, pairs, uris);
  }
}
