/** What the text of a link determines, whatever its raw parts hold: when two links are the same. */
module LinkText {
  import opened GoStrings
  import opened Models
  import opened UrlEscape
  import opened Links
  import opened Client
  import Base64
  import Json
  import Query
  import Uri

  /** Everything a link tells. A raw uuid and the address are told as one text, and so are
      method and password of Shadowsocks; VMess tells its fields, but for which byte an invalid
      one is. */
  datatype Told =
    | ToldVless(uuidAtAddr: Str, port: int, linkLabel: Str, stream: Stream)
    | ToldTrojan(password: Str, addr: Str, port: int, linkLabel: Str, stream: Stream)
    | ToldVMess(fields: map<Str, Str>)
    | ToldShadowsocks(methodAndPassword: Str, addr: Str, port: int, linkLabel: Str)
    | ToldHysteria2(password: Str, addr: Str, port: int, linkLabel: Str, sni: Str, obfs: bool)
    | ToldTuic(userinfoAtAddr: Str, port: int, linkLabel: Str, sni: Str)

  function Tells(u: User, inbound: Inbound, addr: Str, linkLabel: Str): Told
    requires inbound.protocol.Valid()
  {
    match inbound.protocol
    case VLESS => ToldVless(u.uuid + "@" + addr, inbound.port, linkLabel, Canon(inbound))
    case Trojan => ToldTrojan(u.trojanPassword, addr, inbound.port, linkLabel, Canon(inbound))
    case VMess => ToldVMess(Json.Blurred(VMessFields(u, inbound, addr, linkLabel)))
    case Shadowsocks => ToldShadowsocks(SSMethod(u) + ":" + u.ssPassword, addr, inbound.port, linkLabel)
    case Hysteria2 => ToldHysteria2(u.trojanPassword, addr, inbound.port, linkLabel, inbound.sni, inbound.host != [])
    case TUIC =>
      ToldTuic(u.uuid + ":" + Escape(QueryComponent, u.trojanPassword) + "@" + addr, inbound.port, linkLabel, inbound.sni)
  }

  // ---- the parts ----

  lemma SameQueryExactly(m: map<Str, Str>, m': map<Str, Str>)
    ensures Query.Encode(m) == Query.Encode(m') <==> m == m'
  {
    Query.EncodeRoundTrip(m);
    Query.EncodeRoundTrip(m');
  }

  lemma SameEscapedExactly(s: Str, s': Str)
    ensures Escape(QueryComponent, s) == Escape(QueryComponent, s') <==> s == s'
  {
    RoundTrip(QueryComponent, s);
    RoundTrip(QueryComponent, s');
  }

  lemma SameUriExactly(u: Str, h: Str, p: int, m: map<Str, Str>, l: Str, u': Str, h': Str, p': int, m': map<Str, Str>, l': Str)
    ensures Uri.Print(u, h, p, Some(Query.Encode(m)), l) == Uri.Print(u', h', p', Some(Query.Encode(m')), l')
            <==> u + "@" + h == u' + "@" + h' && p == p' && m == m' && l == l'
  {
    Query.EncodeBytes(m);
    Query.EncodeBytes(m');
    SameQueryExactly(m, m');
    Uri.SamePrintExactly(u, h, p, Some(Query.Encode(m)), l, u', h', p', Some(Query.Encode(m')), l');
  }

  lemma SameHeadExactly(u: Str, h: Str, u': Str, h': Str)
    requires '@' !in u && '@' !in u'
    ensures u + "@" + h == u' + "@" + h' <==> u == u' && h == h'
  {
    if u + "@" + h == u' + "@" + h' {
      Uri.SplitHead(u, h, u', h');
    }
  }

  // ---- the bodies ----

  lemma SameVless(u: User, i: Inbound, a: Str, l: Str, u': User, i': Inbound, a': Str, l': Str)
    ensures VlessBody(u, i, a, l) == VlessBody(u', i', a', l')
            <==> u.uuid + "@" + a == u'.uuid + "@" + a' && i.port == i'.port && l == l' && Canon(i) == Canon(i')
  {
    SameUriExactly(u.uuid, a, i.port, VlessParams(i), l, u'.uuid, a', i'.port, VlessParams(i'), l');
    VlessRead(i);
    VlessRead(i');
  }

  lemma SameTrojan(u: User, i: Inbound, a: Str, l: Str, u': User, i': Inbound, a': Str, l': Str)
    ensures TrojanBody(u, i, a, l) == TrojanBody(u', i', a', l')
            <==> u.trojanPassword == u'.trojanPassword && a == a' && i.port == i'.port && l == l' && Canon(i) == Canon(i')
  {
    var p, p' := Escape(QueryComponent, u.trojanPassword), Escape(QueryComponent, u'.trojanPassword);
    CleanEscaped(u.trojanPassword);
    CleanEscaped(u'.trojanPassword);
    SameEscapedExactly(u.trojanPassword, u'.trojanPassword);
    SameHeadExactly(p, a, p', a');
    SameUriExactly(p, a, i.port, StreamParams(map[], Canon(i)), l, p', a', i'.port, StreamParams(map[], Canon(i')), l');
    StreamRoundTrip(map[], Canon(i));
    StreamRoundTrip(map[], Canon(i'));
  }

  lemma SameShadowsocks(u: User, i: Inbound, a: Str, l: Str, u': User, i': Inbound, a': Str, l': Str)
    ensures ShadowsocksBody(u, i, a, l) == ShadowsocksBody(u', i', a', l')
            <==> && SSMethod(u) + ":" + u.ssPassword == SSMethod(u') + ":" + u'.ssPassword
                 && a == a' && i.port == i'.port && l == l'
  {
    var t, t' := SSMethod(u) + ":" + u.ssPassword, SSMethod(u') + ":" + u'.ssPassword;
    var c, c' := Base64.Encode(Base64.Url, false, t), Base64.Encode(Base64.Url, false, t');
    CleanBase64(t);
    CleanBase64(t');
    Base64.RoundTrip(Base64.Url, false, t);
    Base64.RoundTrip(Base64.Url, false, t');
    SameHeadExactly(c, a, c', a');
    Uri.SamePrintExactly(c, a, i.port, None, l, c', a', i'.port, None, l');
  }

  function Hysteria2Query(i: Inbound): Option<Str> {
    var m := Hysteria2Params(i);
    if m == map[] then None else Some(Query.Encode(m))
  }

  lemma SameHysteria2Query(i: Inbound, i': Inbound)
    ensures Hysteria2Query(i) == Hysteria2Query(i') <==> i.sni == i'.sni && (i.host != [] <==> i'.host != [])
    ensures Hysteria2Query(i).Some? ==> ':' !in Hysteria2Query(i).value
  {
    Query.EncodeBytes(Hysteria2Params(i));
    SameQueryExactly(Hysteria2Params(i), Hysteria2Params(i'));
    Hysteria2Read(i);
    Hysteria2Read(i');
  }

  lemma SameHysteria2(u: User, i: Inbound, a: Str, l: Str, u': User, i': Inbound, a': Str, l': Str)
    ensures Hysteria2Body(u, i, a, l) == Hysteria2Body(u', i', a', l')
            <==> && u.trojanPassword == u'.trojanPassword && a == a' && i.port == i'.port && l == l'
                 && i.sni == i'.sni && (i.host != [] <==> i'.host != [])
  {
    var p, p' := Escape(QueryComponent, u.trojanPassword), Escape(QueryComponent, u'.trojanPassword);
    CleanEscaped(u.trojanPassword);
    CleanEscaped(u'.trojanPassword);
    SameEscapedExactly(u.trojanPassword, u'.trojanPassword);
    SameHeadExactly(p, a, p', a');
    SameHysteria2Query(i, i');
    SameHysteria2Query(i', i);
    Uri.SamePrintExactly(p, a, i.port, Hysteria2Query(i), l, p', a', i'.port, Hysteria2Query(i'), l');
  }

  lemma SameTuic(u: User, i: Inbound, a: Str, l: Str, u': User, i': Inbound, a': Str, l': Str)
    ensures TuicBody(u, i, a, l) == TuicBody(u', i', a', l')
            <==> && u.uuid + ":" + Escape(QueryComponent, u.trojanPassword) + "@" + a ==
                    u'.uuid + ":" + Escape(QueryComponent, u'.trojanPassword) + "@" + a'
                 && i.port == i'.port && l == l' && i.sni == i'.sni
  {
    SameUriExactly(u.uuid + ":" + Escape(QueryComponent, u.trojanPassword), a, i.port, TuicParams(i), l,
                   u'.uuid + ":" + Escape(QueryComponent, u'.trojanPassword), a', i'.port, TuicParams(i'), l');
    TuicRead(i);
    TuicRead(i');
  }

  lemma SameVMess(u: User, i: Inbound, a: Str, l: Str, u': User, i': Inbound, a': Str, l': Str)
    ensures VMessBody(u, i, a, l) == VMessBody(u', i', a', l')
            <==> Json.Blurred(VMessFields(u, i, a, l)) == Json.Blurred(VMessFields(u', i', a', l'))
  {
    var m, m' := VMessFields(u, i, a, l), VMessFields(u', i', a', l');
    Base64.RoundTrip(Base64.Std, true, Json.Marshal(m));
    Base64.RoundTrip(Base64.Std, true, Json.Marshal(m'));
    Json.SameMarshalExactly(m, m');
  }

  // ---- main results ----

  function SchemeOf(p: Protocol): Str
    requires p.Valid()
  {
    match p
    case VLESS => VLESS_SCHEME
    case VMess => VMESS_SCHEME
    case Trojan => TROJAN_SCHEME
    case Shadowsocks => SHADOWSOCKS_SCHEME
    case Hysteria2 => HYSTERIA2_SCHEME
    case TUIC => TUIC_SCHEME
  }

  function BodyOf(u: User, i: Inbound, a: Str, l: Str): Str
    requires i.protocol.Valid()
  {
    match i.protocol
    case VLESS => VlessBody(u, i, a, l)
    case VMess => VMessBody(u, i, a, l)
    case Trojan => TrojanBody(u, i, a, l)
    case Shadowsocks => ShadowsocksBody(u, i, a, l)
    case Hysteria2 => Hysteria2Body(u, i, a, l)
    case TUIC => TuicBody(u, i, a, l)
  }

  lemma SchemeAndBody(p: Protocol, body: Str, p': Protocol, body': Str)
    requires p.Valid() && p'.Valid()
    ensures SchemeOf(p) + body == SchemeOf(p') + body' <==> p == p' && body == body'
  {
    CutOwnScheme(p, body);
    CutOwnScheme(p', body');
  }

  lemma CutOwnScheme(p: Protocol, body: Str)
    requires p.Valid()
    ensures CutScheme(SchemeOf(p) + body) == Some((p, body))
  {
    SchemesDoNotCollide(body);
  }

  /** Two links of one protocol are the same text exactly when they tell the same. */
  lemma SameBodyExactly(u: User, i: Inbound, a: Str, l: Str, u': User, i': Inbound, a': Str, l': Str)
    requires i.protocol.Valid() && i'.protocol == i.protocol
    ensures BodyOf(u, i, a, l) == BodyOf(u', i', a', l') <==> Tells(u, i, a, l) == Tells(u', i', a', l')
  {
    match i.protocol
    case VLESS => SameVless(u, i, a, l, u', i', a', l');
    case VMess => SameVMess(u, i, a, l, u', i', a', l');
    case Trojan => SameTrojan(u, i, a, l, u', i', a', l');
    case Shadowsocks => SameShadowsocks(u, i, a, l, u', i', a', l');
    case Hysteria2 => SameHysteria2(u, i, a, l, u', i', a', l');
    case TUIC => SameTuic(u, i, a, l, u', i', a', l');
  }

  lemma BuildIs(u: User, i: Inbound, n: Node, l: Str)
    requires i.protocol.Valid()
    ensures Build(u, i, n, l) == Some(SchemeOf(i.protocol) + BodyOf(u, i, Address(i, n), l))
  {
  }

  /** Any two links, of any users, inbounds, nodes and labels, whatever their raw parts hold, are the
      same text exactly when they are of one protocol and tell the same. */
  lemma LinksTellExactly(u: User, i: Inbound, n: Node, l: Str, u': User, i': Inbound, n': Node, l': Str)
    requires i.protocol.Valid() && i'.protocol.Valid()
    ensures Build(u, i, n, l) == Build(u', i', n', l') <==>
              i.protocol == i'.protocol && Tells(u, i, Address(i, n), l) == Tells(u', i', Address(i', n'), l')
  {
    var a, a' := Address(i, n), Address(i', n');
    BuildIs(u, i, n, l);
    BuildIs(u', i', n', l');
    SchemeAndBody(i.protocol, BodyOf(u, i, a, l), i'.protocol, BodyOf(u', i', a', l'));
    if i.protocol == i'.protocol {
      SameBodyExactly(u, i, a, l, u', i', a', l');
    }
  }

  /** With uuids that hold no '@', as generated ones, VLESS and TUIC links tell all their parts. */
  lemma UuidsTellApart(u: User, a: Str, u': User, a': Str)
    requires '@' !in u.uuid && '@' !in u'.uuid
    ensures u.uuid + "@" + a == u'.uuid + "@" + a' <==> u.uuid == u'.uuid && a == a'
    ensures u.uuid + ":" + Escape(QueryComponent, u.trojanPassword) + "@" + a ==
            u'.uuid + ":" + Escape(QueryComponent, u'.trojanPassword) + "@" + a'
            <==> u.uuid == u'.uuid && u.trojanPassword == u'.trojanPassword && a == a'
  {
    var p, p' := Escape(QueryComponent, u.trojanPassword), Escape(QueryComponent, u'.trojanPassword);
    CleanEscaped(u.trojanPassword);
    CleanEscaped(u'.trojanPassword);
    SameEscapedExactly(u.trojanPassword, u'.trojanPassword);
    SameHeadExactly(u.uuid, a, u'.uuid, a');
    SameHeadExactly(u.uuid + ":" + p, a, u'.uuid + ":" + p', a');
    SameUserinfo(u.uuid, p, u'.uuid, p');
  }

  lemma SameUserinfo(uuid: Str, p: Str, uuid': Str, p': Str)
    requires ':' !in p && ':' !in p'
    ensures uuid + ":" + p == uuid' + ":" + p' <==> uuid == uuid' && p == p'
  {
    Uri.CutAtLast(uuid, ':', p);
    Uri.CutAtLast(uuid', ':', p');
    assert uuid + ":" + p == uuid + [':'] + p && uuid' + ":" + p' == uuid' + [':'] + p';
  }

  /** Two stream inbounds give one user the same link exactly when they have the same port and
      the same canonical form. */
  lemma SameLinkExactly(u: User, a: Inbound, b: Inbound, node: Node, linkLabel: Str)
    requires a.protocol == b.protocol && (a.protocol == Protocol.VLESS || a.protocol == Protocol.Trojan)
    requires Address(a, node) == Address(b, node)
    ensures Build(u, a, node, linkLabel) == Build(u, b, node, linkLabel) <==> a.port == b.port && Canon(a) == Canon(b)
  {
    LinksTellExactly(u, a, node, linkLabel, u, b, node, linkLabel);
  }
}
