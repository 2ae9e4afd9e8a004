/** The share links of internal/links/links.go: what each builder prints, as functions and as the
    builders themselves, which fill a url.Values in place. */
module Links {
  import opened GoStrings
  import opened Models
  import opened UrlEscape
  import Base64
  import Json
  import Query
  import Uri

  function OrDefault(v: Str, def: Str): Str {
    if Blank(v) then def else v
  }

  /** The transport and TLS settings a link carries, "" standing for absent. */
  datatype Stream = Stream(
    network: Str,
    security: Str,
    sni: Str,
    fingerprint: Str,
    flow: Str,
    path: Str,
    host: Str,
    publicKey: Str,
    shortId: Str)

  predicate CarriesPath(network: Str) {
    network in {"ws", "grpc", "http", "h2"}
  }

  predicate CarriesHost(network: Str) {
    network in {"ws", "http", "h2"}
  }

  function RealityText(inbound: Inbound, key: Str): Str {
    if inbound.security == "reality" && inbound.reality.Some? && key in inbound.reality.value && inbound.reality.value[key].Text?
    then inbound.reality.value[key].text
    else []
  }

  /** The canonical form of an inbound: what a link says of its transport. */
  function Canon(inbound: Inbound): Stream {
    Stream(
      OrDefault(inbound.network, "tcp"),
      if inbound.security == "none" then [] else inbound.security,
      inbound.sni,
      inbound.fingerprint,
      inbound.flow,
      if CarriesPath(inbound.network) then inbound.path else [],
      if CarriesHost(inbound.network) then inbound.host else [],
      RealityText(inbound, "public_key"),
      RealityText(inbound, "short_id"))
  }

  /** An inbound whose own settings are the given ones. */
  function WithStream(inbound: Inbound, s: Stream): Inbound {
    inbound.(network := s.network, security := s.security, sni := s.sni, fingerprint := s.fingerprint, flow := s.flow,
         path := s.path, host := s.host,
         reality := Some(map["public_key" := Text(s.publicKey), "short_id" := Text(s.shortId)]))
  }

  /** m with k set to v, unless v is empty. */
  function SetNonEmpty(m: map<Str, Str>, k: Str, v: Str): map<Str, Str> {
    if v == [] then m else m[k := v]
  }

  function PathKey(network: Str): Str {
    if network == "grpc" then "serviceName" else "path"
  }

  /** The parameters that do not depend on the kind of network. */
  function PlainParams(m: map<Str, Str>, s: Stream): map<Str, Str> {
    var m1 := SetNonEmpty(m["type" := s.network], "security", s.security);
    SetNonEmpty(SetNonEmpty(SetNonEmpty(m1, "sni", s.sni), "fp", s.fingerprint), "flow", s.flow)
  }

  function TransportParams(m: map<Str, Str>, s: Stream): map<Str, Str> {
    SetNonEmpty(SetNonEmpty(m, PathKey(s.network), s.path), "host", s.host)
  }

  function RealityParams(m: map<Str, Str>, s: Stream): map<Str, Str> {
    SetNonEmpty(SetNonEmpty(m, "pbk", s.publicKey), "sid", s.shortId)
  }

  /** m with the parameters that print a canonical stream. */
  function StreamParams(m: map<Str, Str>, s: Stream): map<Str, Str> {
    RealityParams(TransportParams(PlainParams(m, s), s), s)
  }

  const VLESS_SCHEME: Str := "vless://"
  const VMESS_SCHEME: Str := "vmess://"
  const TROJAN_SCHEME: Str := "trojan://"
  const SHADOWSOCKS_SCHEME: Str := "ss://"
  const HYSTERIA2_SCHEME: Str := "hysteria2://"
  const TUIC_SCHEME: Str := "tuic://"

  // What each builder prints after its scheme.

  function VlessParams(inbound: Inbound): map<Str, Str> {
    StreamParams(map["encryption" := "none"], Canon(inbound))
  }

  function VlessBody(u: User, inbound: Inbound, addr: Str, linkLabel: Str): Str {
    Uri.Print(u.uuid, addr, inbound.port, Some(Query.Encode(VlessParams(inbound))), linkLabel)
  }

  function TrojanBody(u: User, inbound: Inbound, addr: Str, linkLabel: Str): Str {
    Uri.Print(Escape(QueryComponent, u.trojanPassword), addr, inbound.port,
              Some(Query.Encode(StreamParams(map[], Canon(inbound)))), linkLabel)
  }

  function TlsField(security: Str): Str {
    if security == "tls" || security == "reality" then "tls" else []
  }

  function VMessFields(u: User, inbound: Inbound, addr: Str, linkLabel: Str): map<Str, Str> {
    map["v" := "2",
        "ps" := linkLabel,
        "add" := addr,
        "port" := PrintInt(inbound.port),
        "id" := u.uuid,
        "aid" := "0",
        "scy" := "auto",
        "net" := OrDefault(inbound.network, "tcp"),
        "type" := "none",
        "host" := inbound.host,
        "path" := inbound.path,
        "tls" := TlsField(inbound.security),
        "sni" := inbound.sni,
        "fp" := inbound.fingerprint]
  }

  function VMessBody(u: User, inbound: Inbound, addr: Str, linkLabel: Str): Str {
    Base64.Encode(Base64.Std, true, Json.Marshal(VMessFields(u, inbound, addr, linkLabel)))
  }

  function SSMethod(u: User): Str {
    OrDefault(u.ssMethod, DEFAULT_SS_METHOD)
  }

  function ShadowsocksBody(u: User, inbound: Inbound, addr: Str, linkLabel: Str): Str {
    Uri.Print(Base64.Encode(Base64.Url, false, SSMethod(u) + ":" + u.ssPassword), addr, inbound.port, None, linkLabel)
  }

  function Hysteria2Params(inbound: Inbound): map<Str, Str> {
    var m := SetNonEmpty(map[], "sni", inbound.sni);
    if inbound.host == [] then m else m["obfs" := []]
  }

  function Hysteria2Body(u: User, inbound: Inbound, addr: Str, linkLabel: Str): Str {
    var m := Hysteria2Params(inbound);
    Uri.Print(Escape(QueryComponent, u.trojanPassword), addr, inbound.port,
              if m == map[] then None else Some(Query.Encode(m)), linkLabel)
  }

  function TuicParams(inbound: Inbound): map<Str, Str> {
    var m := SetNonEmpty(map[], "sni", inbound.sni);
    m["congestion_control" := "bbr"]["alpn" := "h3"]
  }

  function TuicBody(u: User, inbound: Inbound, addr: Str, linkLabel: Str): Str {
    Uri.Print(u.uuid + ":" + Escape(QueryComponent, u.trojanPassword), addr, inbound.port,
              Some(Query.Encode(TuicParams(inbound))), linkLabel)
  }

  /** The address clients connect to. */
  function Address(inbound: Inbound, node: Node): Str {
    if node.address == [] then inbound.listen else node.address
  }

  /** The link of a user on an inbound; None is the unsupported-protocol error. */
  function Build(u: User, inbound: Inbound, node: Node, linkLabel: Str): Option<Str> {
    var addr := Address(inbound, node);
    match inbound.protocol
    case VLESS => Some(VLESS_SCHEME + VlessBody(u, inbound, addr, linkLabel))
    case VMess => Some(VMESS_SCHEME + VMessBody(u, inbound, addr, linkLabel))
    case Trojan => Some(TROJAN_SCHEME + TrojanBody(u, inbound, addr, linkLabel))
    case Shadowsocks => Some(SHADOWSOCKS_SCHEME + ShadowsocksBody(u, inbound, addr, linkLabel))
    case Hysteria2 => Some(HYSTERIA2_SCHEME + Hysteria2Body(u, inbound, addr, linkLabel))
    case TUIC => Some(TUIC_SCHEME + TuicBody(u, inbound, addr, linkLabel))
    case UnknownProtocol(_) => None
  }

  // ---- the builders ----

  method CommonStreamParams(q: Query.Values, inbound: Inbound)
    modifies q
    ensures q.m == StreamParams(old(q.m), Canon(inbound))
  {
    SetPlainParams(q, inbound);
    SetTransportParams(q, inbound);
    SetRealityParams(q, inbound);
  }

  method SetPlainParams(q: Query.Values, inbound: Inbound)
    modifies q
    ensures q.m == PlainParams(old(q.m), Canon(inbound))
  {
    q.Set("type", OrDefault(inbound.network, "tcp"));
    if inbound.security != [] && inbound.security != "none" {
      q.Set("security", inbound.security);
    }
    if inbound.sni != [] {
      q.Set("sni", inbound.sni);
    }
    if inbound.fingerprint != [] {
      q.Set("fp", inbound.fingerprint);
    }
    if inbound.flow != [] {
      q.Set("flow", inbound.flow);
    }
  }

  method SetTransportParams(q: Query.Values, inbound: Inbound)
    modifies q
    ensures q.m == TransportParams(old(q.m), Canon(inbound))
  {
    CarryingIsNotBlank(inbound.network);
    if inbound.network == "ws" || inbound.network == "http" || inbound.network == "h2" {
      if inbound.path != [] {
        q.Set("path", inbound.path);
      }
      if inbound.host != [] {
        q.Set("host", inbound.host);
      }
    } else if inbound.network == "grpc" {
      if inbound.path != [] {
        q.Set("serviceName", inbound.path);
      }
    }
  }

  method SetRealityParams(q: Query.Values, inbound: Inbound)
    modifies q
    ensures q.m == RealityParams(old(q.m), Canon(inbound))
  {
    if inbound.security == "reality" && inbound.reality.Some? {
      var settings := inbound.reality.value;
      if "public_key" in settings && settings["public_key"].Text? && settings["public_key"].text != [] {
        q.Set("pbk", settings["public_key"].text);
      }
      if "short_id" in settings && settings["short_id"].Text? && settings["short_id"].text != [] {
        q.Set("sid", settings["short_id"].text);
      }
    }
  }

  lemma CarryingIsNotBlank(network: Str)
    ensures CarriesPath(network) ==> !Blank(network)
  {
  }

  method VlessValues(inbound: Inbound) returns (q: Query.Values)
    ensures q.m == VlessParams(inbound)
  {
    q := new Query.Values();
    q.Set("encryption", "none");
    assert q.m == map["encryption" := "none"];
    CommonStreamParams(q, inbound);
  }

  method BuildVless(u: User, inbound: Inbound, addr: Str, linkLabel: Str) returns (uri: Str)
    ensures uri == VLESS_SCHEME + VlessBody(u, inbound, addr, linkLabel)
  {
    var q := VlessValues(inbound);
    uri := VLESS_SCHEME + Uri.Print(u.uuid, addr, inbound.port, Some(Query.Encode(q.m)), linkLabel);
  }

  method BuildTrojan(u: User, inbound: Inbound, addr: Str, linkLabel: Str) returns (uri: Str)
    ensures uri == TROJAN_SCHEME + TrojanBody(u, inbound, addr, linkLabel)
  {
    var q := new Query.Values();
    CommonStreamParams(q, inbound);
    uri := TROJAN_SCHEME + Uri.Print(Escape(QueryComponent, u.trojanPassword), addr, inbound.port,
                                   Some(Query.Encode(q.m)), linkLabel);
  }

  method Hysteria2Values(inbound: Inbound) returns (q: Query.Values)
    ensures q.m == Hysteria2Params(inbound)
  {
    q := new Query.Values();
    if inbound.sni != [] {
      q.Set("sni", inbound.sni);
    }
    if inbound.host != [] {
      q.Set("obfs", []);
    }
  }

  method BuildHysteria2(u: User, inbound: Inbound, addr: Str, linkLabel: Str) returns (uri: Str)
    ensures uri == HYSTERIA2_SCHEME + Hysteria2Body(u, inbound, addr, linkLabel)
  {
    var q := Hysteria2Values(inbound);
    var query := None;
    if |q.m| > 0 {
      query := Some(Query.Encode(q.m));
    }
    uri := HYSTERIA2_SCHEME + Uri.Print(Escape(QueryComponent, u.trojanPassword), addr, inbound.port, query, linkLabel);
  }

  method TuicValues(inbound: Inbound) returns (q: Query.Values)
    ensures q.m == TuicParams(inbound)
  {
    q := new Query.Values();
    if inbound.sni != [] {
      q.Set("sni", inbound.sni);
    }
    q.Set("congestion_control", "bbr");
    q.Set("alpn", "h3");
  }

  method BuildTuic(u: User, inbound: Inbound, addr: Str, linkLabel: Str) returns (uri: Str)
    ensures uri == TUIC_SCHEME + TuicBody(u, inbound, addr, linkLabel)
  {
    var q := TuicValues(inbound);
    uri := TUIC_SCHEME + Uri.Print(u.uuid + ":" + Escape(QueryComponent, u.trojanPassword), addr, inbound.port,
                                 Some(Query.Encode(q.m)), linkLabel);
  }

  method BuildLink(u: User, inbound: Inbound, node: Node, linkLabel: Str) returns (uri: Option<Str>)
    ensures uri == Build(u, inbound, node, linkLabel)
  {
    var addr := node.address;
    if addr == [] {
      addr := inbound.listen;
    }
    match inbound.protocol {
      case VLESS =>
        var s := BuildVless(u, inbound, addr, linkLabel);
        uri := Some(s);
      case VMess =>
        uri := Some(VMESS_SCHEME + VMessBody(u, inbound, addr, linkLabel));
      case Trojan =>
        var s := BuildTrojan(u, inbound, addr, linkLabel);
        uri := Some(s);
      case Shadowsocks =>
        uri := Some(SHADOWSOCKS_SCHEME + ShadowsocksBody(u, inbound, addr, linkLabel));
      case Hysteria2 =>
        var s := BuildHysteria2(u, inbound, addr, linkLabel);
        uri := Some(s);
      case TUIC =>
        var s := BuildTuic(u, inbound, addr, linkLabel);
        uri := Some(s);
      case UnknownProtocol(_) =>
        uri := None;
    }
  }

  /** Defaulting the network settles it and does not change what it carries. */
  lemma NetworkSettles(network: Str)
    ensures var n := OrDefault(network, "tcp");
            OrDefault(n, "tcp") == n && CarriesPath(n) == CarriesPath(network) && CarriesHost(n) == CarriesHost(network)
  {
    CarryingIsNotBlank(network);
    CarryingIsNotBlank("tcp");
    assert !Blank("tcp");
  }

  lemma RealitySettles(inbound: Inbound, base: Inbound)
    ensures var i := WithStream(base, Canon(inbound));
            && RealityText(i, "public_key") == RealityText(inbound, "public_key")
            && RealityText(i, "short_id") == RealityText(inbound, "short_id")
  {
  }

  /** The canonical form of an inbound in canonical form is its own. */
  lemma CanonIdempotent(inbound: Inbound, base: Inbound)
    ensures Canon(WithStream(base, Canon(inbound))) == Canon(inbound)
  {
    NetworkSettles(inbound.network);
    RealitySettles(inbound, base);
  }
}
