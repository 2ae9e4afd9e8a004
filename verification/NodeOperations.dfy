/** What the operations on nodes and inbounds do, column by column, and which core ends up serving
    which protocol. */
module NodeOperations {
  import opened GoStrings
  import opened Models
  import opened Panel
  import opened Subscription
  import opened PanelService
  import Documents

  /** Users and associations are left alone. */
  predicate SameUsers(db: DB, db': DB) {
    db'.users == db.users && db'.joins == db.joins && db'.nextUser == db.nextUser && db'.schema == db.schema
  }

  ghost predicate OnlyNode(db: DB, db': DB, id: nat) {
    && SameUsers(db, db') && db'.inbounds == db.inbounds && db'.nextInbound == db.nextInbound
    && id in db'.nodes
    && forall x :: x != id ==> (x in db'.nodes <==> x in db.nodes) && (x in db.nodes ==> db'.nodes[x] == db.nodes[x])
  }

  ghost predicate OnlyInbound(db: DB, db': DB, id: nat) {
    && SameUsers(db, db') && db'.nodes == db.nodes && db'.nextNode == db.nextNode
    && id in db'.inbounds
    && forall x :: x != id ==> (x in db'.inbounds <==> x in db.inbounds) && (x in db.inbounds ==> db'.inbounds[x] == db.inbounds[x])
  }

  /** A node is created exactly with a name, an address and one of the two cores; it is active. */
  lemma CreateNodeDone(db: DB, n: Node)
    ensures CreateNode(db, n).1 ==
            if n.name != [] && n.address != [] && n.core in {Xray, SingBox} then Done else Failed(Validation)
    ensures CreateNode(db, n).1.Done? ==>
              var (db', id) := (CreateNode(db, n).0, db.nextNode);
              && OnlyNode(db, db', id) && db'.nextNode == id + 1
              && db'.nodes[id] == Node(id, n.name, n.address, n.core, true, false)
  {
  }

  /** A node is deleted exactly when there is one, whatever inbounds it has. */
  lemma DeleteNodeDone(db: DB, id: nat)
    ensures DeleteNode(db, id).1 == if id in db.nodes && !db.nodes[id].deleted then Done else Failed(NotFound)
    ensures DeleteNode(db, id).1.Done? ==>
              var db' := DeleteNode(db, id).0;
              OnlyNode(db, db', id) && db'.nextNode == db.nextNode && db'.nodes[id] == db.nodes[id].(deleted := true)
    ensures !DeleteNode(db, id).1.Done? ==> DeleteNode(db, id).0 == db
  {
  }

  /** When an inbound is created, and which error it is otherwise. */
  lemma CreateInboundOutcome(db: DB, i: Inbound)
    ensures CreateInbound(db, i).1 ==
            if i.protocol !in {VLESS, VMess, Trojan, Shadowsocks, Hysteria2, TUIC} then Failed(Validation)
            else if i.nodeId !in db.nodes || db.nodes[i.nodeId].deleted then Failed(NotFound)
            else if i.protocol in {Hysteria2, TUIC} && db.nodes[i.nodeId].core != SingBox then Failed(Validation)
            else if i.port < 1 || i.port > 65535 then Failed(Validation)
            else Done
  {
    SupportedExactly(i.protocol, if i.nodeId in db.nodes then db.nodes[i.nodeId].core else Xray);
  }

  /** Exactly when: on a live node, on a port of 1 to 65535, one of the four common protocols, or
      Hysteria2 or TUIC with core sing-box. */
  lemma InboundAcceptedExactly(db: DB, i: Inbound)
    ensures CreateInbound(db, i).1.Done? <==>
              && i.nodeId in db.nodes && !db.nodes[i.nodeId].deleted && 1 <= i.port <= 65535
              && CoreServes(db.nodes[i.nodeId].core, i.protocol)
  {
    CreateInboundOutcome(db, i);
  }

  /** The columns a created inbound stores: as given, with the column defaults for blanks. */
  lemma CreatedInboundRow(db: DB, i: Inbound)
    requires CreateInbound(db, i).1.Done?
    ensures var (db', id) := (CreateInbound(db, i).0, db.nextInbound);
            && OnlyInbound(db, db', id) && db'.nextInbound == id + 1
            && var r := db'.inbounds[id];
               && r.id == id && r.isActive && !r.deleted
               && r.listen == (if i.listen == "" then "0.0.0.0" else i.listen)
               && r.network == (if i.network == "" then "tcp" else i.network)
               && r.security == (if i.security == "" then "none" else i.security)
               && r == i.(id := id, listen := r.listen, network := r.network, security := r.security, isActive := true, deleted := false)
  {
  }

  /** An inbound is deleted exactly when there is one. */
  lemma DeleteInboundDone(db: DB, id: nat)
    ensures DeleteInbound(db, id).1 == if id in db.inbounds && !db.inbounds[id].deleted then Done else Failed(NotFound)
    ensures DeleteInbound(db, id).1.Done? ==>
              var db' := DeleteInbound(db, id).0;
              OnlyInbound(db, db', id) && db'.nextInbound == db.nextInbound && db'.inbounds[id] == db.inbounds[id].(deleted := true)
    ensures !DeleteInbound(db, id).1.Done? ==> DeleteInbound(db, id).0 == db
  {
  }

  // ---- cores and protocols over runs ----

  /** In every reachable database each Hysteria2 or TUIC pair of a document is on a sing-box node. */
  lemma ServedByTheRightCore(schema: Schema, ops: seq<Op>, id: nat, now: int, pairs: seq<NodeInbound>, uris: seq<Str>)
    requires IsDocument(Run(Empty(schema), ops), id, now, pairs, uris)
    ensures forall p :: p in pairs && (p.inbound.protocol == Hysteria2 || p.inbound.protocol == TUIC) ==> p.node.core == SingBox
  {
    var db := Run(Empty(schema), ops);
    ReachableInv(schema, ops);
    Documents.DocumentPairs(db, id, now, pairs, uris);
    forall p | p in pairs ensures CoreServes(p.node.core, p.inbound.protocol) {
      SupportedExactly(p.inbound.protocol, p.node.core);
    }
  }

  /** And every live node, of either core, takes inbounds of the four common protocols. */
  lemma CommonProtocolsAccepted(schema: Schema, ops: seq<Op>, i: Inbound)
    requires var db := Run(Empty(schema), ops); i.nodeId in db.nodes && !db.nodes[i.nodeId].deleted
    requires i.protocol in {VLESS, VMess, Trojan, Shadowsocks} && 1 <= i.port <= 65535
    ensures CreateInbound(Run(Empty(schema), ops), i).1.Done?
    ensures Run(Empty(schema), ops).nodes[i.nodeId].core in {Xray, SingBox}
  {
    ReachableInv(schema, ops);
    InboundAcceptedExactly(Run(Empty(schema), ops), i);
  }

  /** The rows a document shows: the user's associations whose inbound and node are not deleted, and
      none if the user cannot connect. */
  lemma DocumentRows(db: DB, id: nat, now: int, pairs: seq<NodeInbound>, uris: seq<Str>)
    requires Inv(db) && IsDocument(db, id, now, pairs, uris)
    ensures forall p :: p in pairs <==>
              && db.users[id].CanConnect(now)
              && (id, p.inbound.id) in db.joins
              && p.inbound.id in db.inbounds && !db.inbounds[p.inbound.id].deleted && p.inbound == db.inbounds[p.inbound.id]
              && p.inbound.nodeId in db.nodes && !db.nodes[p.inbound.nodeId].deleted && p.node == db.nodes[p.inbound.nodeId]
  {
    Documents.DocumentPairs(db, id, now, pairs, uris);
  }
}
