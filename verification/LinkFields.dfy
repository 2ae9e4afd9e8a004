/** What the links say, field by field: the texts of the six schemes with their literal names and
    separators, and the parameters a client finds in them. */
module LinkFields {
  import opened GoStrings
  import opened Models
  import opened UrlEscape
  import opened Links
  import Base64
  import Client
  import Json
  import Query
  import SortedKeys
  import Uri

  /** m has the key exactly under the condition, and then with that value. */
  predicate Has(m: map<Str, Str>, key: Str, when: bool, value: Str) {
    (key in m <==> when) && (when ==> m[key] == value)
  }

  /** The text of a REALITY setting, if it is one. */
  function RealitySetting(i: Inbound, key: Str): Str {
    match i.reality
    case None => []
    case Some(settings) => if key in settings && settings[key].Text? then settings[key].text else []
  }

  /** The parameters of VLESS and Trojan links, by the columns of the inbound. */
  predicate StreamFields(i: Inbound, m: map<Str, Str>) {
    && Has(m, "type", true, if Blank(i.network) then "tcp" else i.network)
    && Has(m, "security", i.security != "" && i.security != "none", i.security)
    && Has(m, "sni", i.sni != "", i.sni)
    && Has(m, "fp", i.fingerprint != "", i.fingerprint)
    && Has(m, "flow", i.flow != "", i.flow)
    && Has(m, "path", (i.network == "ws" || i.network == "http" || i.network == "h2") && i.path != "", i.path)
    && Has(m, "host", (i.network == "ws" || i.network == "http" || i.network == "h2") && i.host != "", i.host)
    && Has(m, "serviceName", i.network == "grpc" && i.path != "", i.path)
    && Has(m, "pbk", i.security == "reality" && RealitySetting(i, "public_key") != "", RealitySetting(i, "public_key"))
    && Has(m, "sid", i.security == "reality" && RealitySetting(i, "short_id") != "", RealitySetting(i, "short_id"))
  }

  const STREAM_KEYS: set<Str> :=
    {"type", "security", "sni", "fp", "flow", "path", "host", "serviceName", "pbk", "sid"}

  // ---- the parameters set ----

  predicate NoEmpty(m: map<Str, Str>) {
    forall k :: k in m ==> m[k] != []
  }

  lemma NoEmptyParams(m: map<Str, Str>, s: Stream)
    requires NoEmpty(m) && s.network != []
    ensures NoEmpty(StreamParams(m, s))
  {
    var plain := PlainParams(m, s);
    assert NoEmpty(plain);
    assert NoEmpty(TransportParams(plain, s));
  }

  lemma HasParam(m: map<Str, Str>, s: Stream, key: Str)
    requires NoEmpty(m) && s.network != [] && key !in m
    ensures var p := StreamParams(m, s);
            var v := Client.Get(p, key);
            Has(p, key, v != [], v)
  {
    NoEmptyParams(m, s);
  }

  lemma OnlyStreamKeys(m: map<Str, Str>, s: Stream, key: Str)
    requires key in StreamParams(m, s)
    ensures key in m || key in STREAM_KEYS
  {
  }

  lemma CanonNetwork(i: Inbound)
    ensures Canon(i).network == (if Blank(i.network) then "tcp" else i.network) && Canon(i).network != []
  {
    assert Blank([]);
  }

  lemma PlainFields(m: map<Str, Str>, i: Inbound)
    requires NoEmpty(m) && forall k :: k in m ==> k == "encryption"
    ensures var p := StreamParams(m, Canon(i));
            && Has(p, "type", true, if Blank(i.network) then "tcp" else i.network)
            && Has(p, "security", i.security != "" && i.security != "none", i.security)
            && Has(p, "sni", i.sni != "", i.sni)
  {
    var s := Canon(i);
    CanonNetwork(i);
    HasParam(m, s, "type");
    HasParam(m, s, "security");
    HasParam(m, s, "sni");
    Client.ParamRead(m, s, "type");
    Client.ParamRead(m, s, "security");
    Client.ParamRead(m, s, "sni");
  }

  lemma TlsFields(m: map<Str, Str>, i: Inbound)
    requires NoEmpty(m) && forall k :: k in m ==> k == "encryption"
    ensures var p := StreamParams(m, Canon(i));
            && Has(p, "fp", i.fingerprint != "", i.fingerprint)
            && Has(p, "flow", i.flow != "", i.flow)
  {
    var s := Canon(i);
    CanonNetwork(i);
    HasParam(m, s, "fp");
    HasParam(m, s, "flow");
    Client.ParamRead(m, s, "fp");
    Client.ParamRead(m, s, "flow");
  }

  lemma TransportFields(m: map<Str, Str>, i: Inbound)
    requires NoEmpty(m) && forall k :: k in m ==> k == "encryption"
    ensures var p := StreamParams(m, Canon(i));
            && Has(p, "path", (i.network == "ws" || i.network == "http" || i.network == "h2") && i.path != "", i.path)
            && Has(p, "host", (i.network == "ws" || i.network == "http" || i.network == "h2") && i.host != "", i.host)
            && Has(p, "serviceName", i.network == "grpc" && i.path != "", i.path)
  {
    var s := Canon(i);
    CanonNetwork(i);
    CarryingIsNotBlank(i.network);
    HasParam(m, s, "path");
    HasParam(m, s, "host");
    HasParam(m, s, "serviceName");
    Client.ParamRead(m, s, "path");
    Client.ParamRead(m, s, "host");
    Client.ParamRead(m, s, "serviceName");
  }

  lemma RealityFields(m: map<Str, Str>, i: Inbound)
    requires NoEmpty(m) && forall k :: k in m ==> k == "encryption"
    ensures var p := StreamParams(m, Canon(i));
            && Has(p, "pbk", i.security == "reality" && RealitySetting(i, "public_key") != "", RealitySetting(i, "public_key"))
            && Has(p, "sid", i.security == "reality" && RealitySetting(i, "short_id") != "", RealitySetting(i, "short_id"))
  {
    var s := Canon(i);
    CanonNetwork(i);
    HasParam(m, s, "pbk");
    HasParam(m, s, "sid");
    Client.ParamRead(m, s, "pbk");
    Client.ParamRead(m, s, "sid");
  }

  lemma StreamParamsHave(m: map<Str, Str>, i: Inbound)
    requires NoEmpty(m) && forall k :: k in m ==> k == "encryption"
    ensures StreamFields(i, StreamParams(m, Canon(i)))
    ensures forall k :: k in StreamParams(m, Canon(i)) ==> k in m || k in STREAM_KEYS
    ensures forall k :: k in m ==> k in StreamParams(m, Canon(i)) && StreamParams(m, Canon(i))[k] == m[k]
  {
    PlainFields(m, i);
    TlsFields(m, i);
    TransportFields(m, i);
    RealityFields(m, i);
    forall k | k in StreamParams(m, Canon(i)) ensures k in m || k in STREAM_KEYS {
      OnlyStreamKeys(m, Canon(i), k);
    }
    KeptParam(m, Canon(i));
  }

  lemma KeptParam(m: map<Str, Str>, s: Stream)
    requires forall k :: k in m ==> k == "encryption"
    ensures forall k :: k in m ==> k in StreamParams(m, s) && StreamParams(m, s)[k] == m[k]
  {
  }

  // ---- the texts ----

  function QueryText(query: Option<Str>): Str {
    match query
    case None => ""
    case Some(q) => "?" + q
  }

  function TailText(port: int, query: Option<Str>, linkLabel: Str): Str {
    ":" + PrintInt(port) + QueryText(query) + "#" + Escape(PathSegment, linkLabel)
  }

  /** scheme, userinfo, '@', address, ':', port, and after '?' a query, if there is one, after '#' the
      label. */
  function UriText(scheme: Str, userinfo: Str, addr: Str, port: int, query: Option<Str>, linkLabel: Str): Str {
    scheme + ((userinfo + "@" + addr) + TailText(port, query, linkLabel))
  }

  /** Where clients connect: the node's address, or the inbound's listen address if it has none. */
  function ConnectTo(i: Inbound, n: Node): Str {
    if n.address != "" then n.address else i.listen
  }

  lemma PrintedText(scheme: Str, userinfo: Str, addr: Str, port: int, query: Option<Str>, linkLabel: Str)
    ensures scheme + Uri.Print(userinfo, addr, port, query, linkLabel) == UriText(scheme, userinfo, addr, port, query, linkLabel)
  {
    Uri.PrintIsHeadAndTail(userinfo, addr, port, query, linkLabel);
    TailPrinted(port, query, linkLabel);
  }

  lemma TailPrinted(port: int, query: Option<Str>, linkLabel: Str)
    ensures Uri.PrintTail(port, query, linkLabel) == TailText(port, query, linkLabel)
  {
    assert Uri.WithQuery(PrintInt(port), query) == PrintInt(port) + QueryText(query);
  }

  const VLESS_PREFIX: Str := "vless://"
  const TROJAN_PREFIX: Str := "trojan://"
  const ENCRYPTION: Str := "encryption"

  /** q is the printed query of exactly the inbound's columns and, if encryption, encryption=none. */
  predicate SaysStream(i: Inbound, q: Str, encryption: bool) {
    match Query.Parse(q)
    case None => false
    case Some(m) =>
      && StreamFields(i, m) && Has(m, ENCRYPTION, encryption, "none")
      && forall k :: k in m ==> k == ENCRYPTION || k in STREAM_KEYS
  }

  lemma Says(i: Inbound, q: Str, m: map<Str, Str>, encryption: bool)
    requires Query.Parse(q) == Some(m) && StreamFields(i, m) && Has(m, ENCRYPTION, encryption, "none")
    requires forall k :: k in m ==> k == ENCRYPTION || k in STREAM_KEYS
    ensures SaysStream(i, q, encryption)
  {
  }

  lemma VlessSays(i: Inbound)
    ensures SaysStream(i, Query.Encode(VlessParams(i)), true)
  {
    Query.EncodeRoundTrip(VlessParams(i));
    VlessParamsHave(i);
    Says(i, Query.Encode(VlessParams(i)), VlessParams(i), true);
  }

  lemma VlessParamsHave(i: Inbound)
    ensures var m := VlessParams(i);
            && StreamFields(i, m) && Has(m, ENCRYPTION, true, "none")
            && forall k :: k in m ==> k == ENCRYPTION || k in STREAM_KEYS
  {
    var base := map[ENCRYPTION := "none"];
    assert VlessParams(i) == StreamParams(base, Canon(i));
    StreamParamsHave(base, i);
    assert ENCRYPTION in base;
  }

  lemma TrojanSays(i: Inbound)
    ensures SaysStream(i, Query.Encode(StreamParams(map[], Canon(i))), false)
  {
    var m := StreamParams(map[], Canon(i));
    Query.EncodeRoundTrip(m);
    StreamParamsHave(map[], i);
    NotAStreamKey();
    assert ENCRYPTION !in m;
    Says(i, Query.Encode(m), m, false);
  }

  lemma NotAStreamKey()
    ensures ENCRYPTION !in STREAM_KEYS
  {
  }

  /** A VLESS link: uuid and address as they are, and a query whose parameters are those of the
      inbound's columns and encryption=none, no other. */
  lemma VlessLink(u: User, i: Inbound, n: Node, linkLabel: Str) returns (q: Str)
    requires i.protocol == Protocol.VLESS
    ensures Build(u, i, n, linkLabel) == Some(UriText(VLESS_PREFIX, u.uuid, ConnectTo(i, n), i.port, Some(q), linkLabel))
    ensures SaysStream(i, q, true)
  {
    q := Query.Encode(VlessParams(i));
    VlessSays(i);
    PrintedText(VLESS_PREFIX, u.uuid, ConnectTo(i, n), i.port, Some(q), linkLabel);
  }

  /** A Trojan link: the password escaped, the same parameters but for encryption. */
  lemma TrojanLink(u: User, i: Inbound, n: Node, linkLabel: Str) returns (q: Str)
    requires i.protocol == Protocol.Trojan
    ensures Build(u, i, n, linkLabel) ==
            Some(UriText(TROJAN_PREFIX, Escape(QueryComponent, u.trojanPassword), ConnectTo(i, n), i.port, Some(q), linkLabel))
    ensures SaysStream(i, q, false)
  {
    q := Query.Encode(StreamParams(map[], Canon(i)));
    TrojanSays(i);
    PrintedText(TROJAN_PREFIX, Escape(QueryComponent, u.trojanPassword), ConnectTo(i, n), i.port, Some(q), linkLabel);
  }

  /** A VMess link: the base64 of a JSON object with these 14 members. */
  lemma VMessLink(u: User, i: Inbound, n: Node, linkLabel: Str)
    requires i.protocol == Protocol.VMess
    ensures Build(u, i, n, linkLabel) ==
            Some("vmess://" + Base64.Encode(Base64.Std, true, Json.Marshal(
                   map["v" := "2", "ps" := linkLabel, "add" := ConnectTo(i, n), "port" := PrintInt(i.port), "id" := u.uuid,
                       "aid" := "0", "scy" := "auto", "net" := if Blank(i.network) then "tcp" else i.network,
                       "type" := "none", "host" := i.host, "path" := i.path,
                       "tls" := if i.security == "tls" || i.security == "reality" then "tls" else "",
                       "sni" := i.sni, "fp" := i.fingerprint])))
  {
  }

  /** A Shadowsocks link: unpadded base64url of method and password, no query. */
  lemma ShadowsocksLink(u: User, i: Inbound, n: Node, linkLabel: Str)
    requires i.protocol == Protocol.Shadowsocks
    ensures var ssMethod := if Blank(u.ssMethod) then "chacha20-ietf-poly1305" else u.ssMethod;
            Build(u, i, n, linkLabel) ==
            Some(UriText("ss://", Base64.Encode(Base64.Url, false, ssMethod + ":" + u.ssPassword), ConnectTo(i, n), i.port,
                         None, linkLabel))
  {
    PrintedText("ss://", Base64.Encode(Base64.Url, false, SSMethod(u) + ":" + u.ssPassword), ConnectTo(i, n), i.port, None, linkLabel);
  }

  const SNI: Str := "sni"
  const OBFS: Str := "obfs"
  const ALPN: Str := "alpn"
  const CONTROL: Str := "congestion_control"
  const H3: Str := "h3"
  const BBR: Str := "bbr"

  lemma KeyPrinted(key: Str, value: Str)
    requires forall c :: c in key ==> Alphanumeric(c) || c == '_'
    ensures Query.PrintPair(key, value) == key + ['='] + Escape(QueryComponent, value)
  {
    EscapeIdentity(QueryComponent, key);
  }

  lemma KeysSorted()
    ensures SortedKeys.Less(OBFS, SNI) && SortedKeys.Less(ALPN, CONTROL) && SortedKeys.Less(CONTROL, SNI)
  {
  }

  const SNI_IS: Str := "sni="
  const OBFS_IS: Str := "obfs="
  const ALPN_H3: Str := "alpn=h3"
  const CONTROL_BBR: Str := "congestion_control=bbr"

  lemma SniPrinted(sni: Str)
    ensures Query.PrintPair(SNI, sni) == SNI_IS + Escape(QueryComponent, sni)
  {
    KeyPrinted(SNI, sni);
  }

  lemma ObfsPrinted()
    ensures Query.PrintPair(OBFS, []) == OBFS_IS
  {
    KeyPrinted(OBFS, []);
  }

  lemma AlpnPrinted()
    ensures Query.PrintPair(ALPN, H3) == ALPN_H3
  {
    KeyPrinted(ALPN, H3);
    EscapeIdentity(QueryComponent, H3);
  }

  lemma ControlIsKey()
    ensures forall c :: c in CONTROL ==> Alphanumeric(c) || c == '_'
  {
  }

  lemma ControlText(value: Str)
    requires value == BBR
    ensures CONTROL + ['='] + value == CONTROL_BBR
  {
  }

  lemma BbrPrinted()
    ensures Escape(QueryComponent, BBR) == BBR
  {
    EscapeIdentity(QueryComponent, BBR);
  }

  lemma ControlPrinted()
    ensures Query.PrintPair(CONTROL, BBR) == CONTROL_BBR
  {
    ControlIsKey();
    BbrPrinted();
    ControlText(Escape(QueryComponent, BBR));
    KeyPrinted(CONTROL, BBR);
  }

  /** The query of a Hysteria2 link, if there is one. */
  function Hysteria2Text(i: Inbound): Option<Str> {
    if i.sni == [] && i.host == [] then None
    else if i.host == [] then Some(SNI_IS + Escape(QueryComponent, i.sni))
    else if i.sni == [] then Some(OBFS_IS)
    else Some(OBFS_IS + ['&'] + (SNI_IS + Escape(QueryComponent, i.sni)))
  }

  lemma Hysteria2ParamsAre(i: Inbound)
    ensures Hysteria2Params(i) ==
            if i.sni == [] && i.host == [] then map[]
            else if i.host == [] then map[SNI := i.sni]
            else if i.sni == [] then map[OBFS := []]
            else map[OBFS := [], SNI := i.sni]
  {
  }

  lemma Hysteria2Query(i: Inbound)
    ensures var m := Hysteria2Params(i);
            Hysteria2Text(i) == if m == map[] then None else Some(Query.Encode(m))
  {
    var m := Hysteria2Params(i);
    Hysteria2ParamsAre(i);
    if i.sni != [] && i.host != [] {
      KeysSorted();
      Query.EncodeTwo(m, OBFS, [], SNI, i.sni);
      ObfsPrinted();
      SniPrinted(i.sni);
    } else if i.sni != [] {
      Query.EncodeOne(m, SNI, i.sni);
      SniPrinted(i.sni);
    } else if i.host != [] {
      Query.EncodeOne(m, OBFS, []);
      ObfsPrinted();
    }
  }

  const HYSTERIA2: Str := "hysteria2://"
  const TUIC_PREFIX: Str := "tuic://"

  /** A Hysteria2 link: the password escaped, and the SNI and an empty obfs, sorted, if set. */
  lemma Hysteria2Link(u: User, i: Inbound, n: Node, linkLabel: Str)
    requires i.protocol == Protocol.Hysteria2
    ensures Build(u, i, n, linkLabel) ==
            Some(UriText(HYSTERIA2, Escape(QueryComponent, u.trojanPassword), ConnectTo(i, n), i.port, Hysteria2Text(i), linkLabel))
  {
    Hysteria2Query(i);
    PrintedText(HYSTERIA2, Escape(QueryComponent, u.trojanPassword), ConnectTo(i, n), i.port, Hysteria2Text(i), linkLabel);
  }

  function TuicText(i: Inbound): Str {
    if i.sni == [] then ALPN_H3 + ['&'] + CONTROL_BBR
    else ALPN_H3 + ['&'] + (CONTROL_BBR + ['&'] + (SNI_IS + Escape(QueryComponent, i.sni)))
  }

  lemma TuicParamsAre(i: Inbound)
    ensures TuicParams(i) ==
            if i.sni == [] then map[ALPN := H3, CONTROL := BBR] else map[ALPN := H3, CONTROL := BBR, SNI := i.sni]
  {
  }

  lemma TuicQuery(i: Inbound)
    ensures Query.Encode(TuicParams(i)) == TuicText(i)
  {
    TuicParamsAre(i);
    KeysSorted();
    if i.sni == [] {
      Query.EncodeTwo(TuicParams(i), ALPN, H3, CONTROL, BBR);
    } else {
      Query.EncodeThree(TuicParams(i), ALPN, H3, CONTROL, BBR, SNI, i.sni);
      SniPrinted(i.sni);
    }
    AlpnPrinted();
    ControlPrinted();
  }

  function TuicUserinfo(u: User): Str {
    u.uuid + ":" + Escape(QueryComponent, u.trojanPassword)
  }

  lemma TuicBodyText(u: User, i: Inbound, addr: Str, linkLabel: Str)
    ensures TuicBody(u, i, addr, linkLabel) == Uri.Print(TuicUserinfo(u), addr, i.port, Some(Query.Encode(TuicParams(i))), linkLabel)
  {
  }

  /** A TUIC link: uuid as it is and the password escaped, and three parameters, sorted. */
  lemma TuicLink(u: User, i: Inbound, n: Node, linkLabel: Str)
    requires i.protocol == Protocol.TUIC
    ensures Build(u, i, n, linkLabel) ==
            Some(UriText(TUIC_PREFIX, TuicUserinfo(u), ConnectTo(i, n), i.port, Some(TuicText(i)), linkLabel))
  {
    TuicQuery(i);
    TuicBodyText(u, i, ConnectTo(i, n), linkLabel);
    PrintedText(TUIC_PREFIX, TuicUserinfo(u), ConnectTo(i, n), i.port, Some(TuicText(i)), linkLabel);
  }

  /** Every other protocol name has no link. */
  lemma NoOtherLink(u: User, i: Inbound, n: Node, linkLabel: Str)
    ensures Build(u, i, n, linkLabel).None? <==> i.protocol.UnknownProtocol?
  {
  }
}
