/** What single operations do, said without their definitions: what a reader sees after them,
    and what they leave alone. */
module Effects {
  import opened GoStrings
  import opened Models
  import opened Links
  import opened Client
  import opened Subscription
  import opened Panel
  import Histories
  import Json
  import NodeOperations
  import Tokens
  import Uri

  /** A created user is found by its token, is associated with exactly the given inbounds, and can
      connect until it expires. */
  lemma CreatedUser(db: DB, input: CreateInput, c: Credentials, now: int)
    requires Inv(db) && CreateUser(db, input, c).1.Done?
    ensures var db', id := CreateUser(db, input, c).0, db.nextUser;
            && id !in db.users && GetBySubToken(db', c.subToken) == Some(id)
            && (forall i :: (id, i) in db'.joins <==> i in input.inboundIds)
            && (db'.users[id].CanConnect(now) <==> input.expireAt.None? || now <= input.expireAt.value)
  {
    var db', id := CreateUser(db, input, c).0, db.nextUser;
    CreateUserKeeps(db, input, c);
    Histories.ResolvesTheHolder(db', c.subToken, id);
    assert forall k :: k in db.joins ==> k.0 in db.users;
  }

  predicate Carries(l: Link, c: Credentials) {
    && (l.VlessLink? || l.TuicLink? ==> l.uuid == c.uuid)
    && (l.VMessLink? ==> l.id == c.uuid)
    && (l.TrojanLink? || l.Hysteria2Link? || l.TuicLink? ==> l.password == c.trojanPassword)
    && (l.ShadowsocksLink? ==> l.password == c.ssPassword)
  }

  /** What a client reads from a created user's links carries the generated credentials of their
      protocols, whenever the link can be read back at all. */
  lemma CreatedUserLinks(id: nat, input: CreateInput, c: Credentials, p: NodeInbound)
    requires Served(p)
    ensures var u := NewUser(id, input, c);
            && Carries(MeaningOf(u, p), c)
            && LinkOf(u, p).Some?
            && (Representable(u, p.inbound, Address(p.inbound, p.node), LinkLabel(u, p.inbound)) ==>
                  var l := ParseLink(LinkOf(u, p).value);
                  l == Some(MeaningOf(u, p)) && Carries(l.value, c))
  {
    MeaningCarries(id, input, c, p);
    ReadAsMeant(NewUser(id, input, c), p);
  }

  lemma MeaningCarries(id: nat, input: CreateInput, c: Credentials, p: NodeInbound)
    requires Served(p)
    ensures Carries(MeaningOf(NewUser(id, input, c), p), c)
  {
  }

  lemma ReadAsMeant(u: User, p: NodeInbound)
    requires Served(p)
    ensures LinkOf(u, p).Some?
    ensures Representable(u, p.inbound, Address(p.inbound, p.node), LinkLabel(u, p.inbound)) ==>
              ParseLink(LinkOf(u, p).value) == Some(MeaningOf(u, p))
  {
    LinkExact(u, p.inbound, p.node, LinkLabel(u, p.inbound));
  }

  /** After an update with associations the user has exactly those, and a patch of nothing does
      nothing. */
  lemma UpdatedAssociations(db: DB, id: nat, p: Patch)
    requires UpdateUser(db, id, p).1.Done?
    ensures p.inboundIds.Some? ==>
              forall i :: (id, i) in UpdateUser(db, id, p).0.joins <==> i in p.inboundIds.value
    ensures UpdateUser(db, id, Patch(None, None, None, None, None, None)) == (db, Done)
  {
    assert db.users[id := Patched(db.users[id], Patch(None, None, None, None, None, None))] == db.users;
  }

  /** The row and the associations of a user. */
  predicate SameAccount(db: DB, db': DB, id: nat) {
    && (id in db.users <==> id in db'.users) && (id in db.users ==> db'.users[id] == db.users[id])
    && (forall k :: k in db.joins && k.0 == id ==> k in db'.joins)
    && (forall k :: k in db'.joins && k.0 == id ==> k in db.joins)
  }

  /** The user an operation is about. */
  predicate About(op: Op, id: nat) {
    match op
    case OpUpdateUser(id', _) => id' == id
    case OpResetTraffic(id', _) => id' == id
    case OpDeleteUser(id') => id' == id
    case OpRegenerate(id', _) => id' == id
    case OpAddUsage(id', _, _) => id' == id
    case _ => false
  }

  lemma OthersNotUpdated(db: DB, id': nat, p: Patch, id: nat)
    requires id' != id
    ensures SameAccount(db, UpdateUser(db, id', p).0, id)
  {
  }

  /** An operation about one user leaves the row and the associations of every other alone. */
  lemma OthersUntouched(db: DB, op: Op, id: nat)
    requires op.OpUpdateUser? || op.OpResetTraffic? || op.OpDeleteUser? || op.OpRegenerate? || op.OpAddUsage?
    requires !About(op, id)
    ensures SameAccount(db, Step(db, op), id)
  {
    match op
    case OpUpdateUser(id', p) => OthersNotUpdated(db, id', p, id);
    case OpResetTraffic(id', now) => assert SameAccount(db, ResetTraffic(db, id', now).0, id);
    case OpDeleteUser(id') => assert SameAccount(db, DeleteUser(db, id').0, id);
    case OpRegenerate(id', token) => assert SameAccount(db, RegenerateSubToken(db, id', token).0, id);
    case OpAddUsage(id', up, down) => assert SameAccount(db, AddUsage(db, id', up, down).0, id);
  }

  /** An inbound is accepted exactly when its node is live and can serve it on its port, and what
      is stored makes the links the given one would: the column defaults are invisible on a node
      with an address. */
  lemma CreatedInbound(db: DB, i: Inbound, u: User, n: Node, linkLabel: Str)
    ensures CreateInbound(db, i).1.Done? <==>
              && i.nodeId in db.nodes && !db.nodes[i.nodeId].deleted && 1 <= i.port <= 65535
              && CoreServes(db.nodes[i.nodeId].core, i.protocol)
    ensures n.address != [] ==> Build(u, NewInbound(db.nextInbound, i), n, linkLabel) == Build(u, i, n, linkLabel)
  {
    NodeOperations.InboundAcceptedExactly(db, i);
    SameCanon(db.nextInbound, i);
  }

  lemma SameCanon(id: nat, i: Inbound)
    ensures Canon(NewInbound(id, i)) == Canon(i)
    ensures OrDefault(NewInbound(id, i).network, "tcp") == OrDefault(i.network, "tcp")
    ensures TlsField(NewInbound(id, i).security) == TlsField(i.security)
  {
    assert Blank([]);
    CarryingIsNotBlank("tcp");
    assert !Blank("tcp");
  }

  /** The texts of a VMess link that an operator gives. */
  predicate SettingsUtf8(u: User, p: NodeInbound) {
    && Json.ValidUtf8(LinkLabel(u, p.inbound)) && Json.ValidUtf8(Address(p.inbound, p.node))
    && Json.ValidUtf8(OrDefault(p.inbound.network, "tcp")) && Json.ValidUtf8(p.inbound.host)
    && Json.ValidUtf8(p.inbound.path) && Json.ValidUtf8(p.inbound.sni) && Json.ValidUtf8(p.inbound.fingerprint)
  }

  predicate CleanLine(s: Str) {
    Uri.Clean(s) && '\n' !in s
  }

  /** With a generated uuid, a link can be read back exactly when: its address is clean and on one
      line; for Shadowsocks also the method has no ':'; for VMess instead, what the operator gave is
      UTF-8. */
  lemma OperatorDecides(u: User, p: NodeInbound)
    requires Served(p) && Tokens.UuidText(u.uuid)
    ensures Fits(u, p) <==>
              match p.inbound.protocol
              case VMess => SettingsUtf8(u, p)
              case Shadowsocks => ':' !in SSMethod(u) && CleanLine(Address(p.inbound, p.node))
              case _ => CleanLine(Address(p.inbound, p.node))
  {
    Tokens.UuidFits(u.uuid);
    Json.AsciiIsUtf8(u.uuid);
  }
}
