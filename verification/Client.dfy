/** A client's reader for share links. The repository prints links and never reads them; this
    reader says what a link means, and every builder is proved against it. */
module Client {
  import opened GoStrings
  import opened Models
  import opened UrlEscape
  import opened Links
  import Base64
  import Json
  import Query
  import Uri

  datatype Link =
    | VlessLink(uuid: Str, addr: Str, port: int, linkLabel: Str, stream: Stream)
    | TrojanLink(password: Str, addr: Str, port: int, linkLabel: Str, stream: Stream)
    | VMessLink(v: Str, ps: Str, add: Str, port: int, id: Str, aid: Str, scy: Str, net: Str, kind: Str,
                host: Str, path: Str, tls: Str, sni: Str, fp: Str)
    | ShadowsocksLink(ssMethod: Str, password: Str, addr: Str, port: int, linkLabel: Str)
    | Hysteria2Link(password: Str, addr: Str, port: int, linkLabel: Str, sni: Str, obfs: bool)
    | TuicLink(uuid: Str, password: Str, addr: Str, port: int, linkLabel: Str, sni: Str, congestion: Str, alpn: Str)

  /** What the link of a user on an inbound is meant to say. */
  function Meaning(u: User, inbound: Inbound, addr: Str, linkLabel: Str): Link
    requires inbound.protocol.Valid()
  {
    match inbound.protocol
    case VLESS => VlessLink(u.uuid, addr, inbound.port, linkLabel, Canon(inbound))
    case Trojan => TrojanLink(u.trojanPassword, addr, inbound.port, linkLabel, Canon(inbound))
    case VMess =>
      VMessLink("2", linkLabel, addr, inbound.port, u.uuid, "0", "auto", OrDefault(inbound.network, "tcp"), "none",
                inbound.host, inbound.path, TlsField(inbound.security), inbound.sni, inbound.fingerprint)
    case Shadowsocks => ShadowsocksLink(SSMethod(u), u.ssPassword, addr, inbound.port, linkLabel)
    case Hysteria2 => Hysteria2Link(u.trojanPassword, addr, inbound.port, linkLabel, inbound.sni, inbound.host != [])
    case TUIC => TuicLink(u.uuid, u.trojanPassword, addr, inbound.port, linkLabel, inbound.sni, "bbr", "h3")
  }

  /** When a link can say it: the parts printed raw hold no delimiter, the parts put into JSON
      are UTF-8, the Shadowsocks method has no ':'. */
  predicate Representable(u: User, inbound: Inbound, addr: Str, linkLabel: Str)
    requires inbound.protocol.Valid()
  {
    match inbound.protocol
    case VLESS => Uri.Clean(u.uuid) && Uri.Clean(addr)
    case Trojan => Uri.Clean(addr)
    case VMess =>
      && Json.ValidUtf8(linkLabel) && Json.ValidUtf8(addr) && Json.ValidUtf8(u.uuid)
      && Json.ValidUtf8(OrDefault(inbound.network, "tcp"))
      && Json.ValidUtf8(inbound.host) && Json.ValidUtf8(inbound.path)
      && Json.ValidUtf8(inbound.sni) && Json.ValidUtf8(inbound.fingerprint)
    case Shadowsocks => ':' !in SSMethod(u) && Uri.Clean(addr)
    case Hysteria2 => Uri.Clean(addr)
    case TUIC => ':' !in u.uuid && Uri.Clean(u.uuid) && Uri.Clean(addr)
  }

  // ---- reading ----

  function Get(m: map<Str, Str>, k: Str): Str {
    if k in m then m[k] else []
  }

  function ReadStream(m: map<Str, Str>): Stream {
    var network := Get(m, "type");
    Stream(network, Get(m, "security"), Get(m, "sni"), Get(m, "fp"), Get(m, "flow"),
           Get(m, PathKey(network)), Get(m, "host"), Get(m, "pbk"), Get(m, "sid"))
  }

  function ParseQuery(query: Option<Str>): Option<map<Str, Str>> {
    match query
    case None => Some(map[])
    case Some(q) => Query.Parse(q)
  }

  function ParseVless(s: Str): Option<Link> {
    match Uri.Parse(s)
    case None => None
    case Some(uri) =>
      match ParseQuery(uri.query)
      case None => None
      case Some(m) =>
        if Get(m, "encryption") != "none" then None
        else Some(VlessLink(uri.userinfo, uri.host, uri.port, uri.linkLabel, ReadStream(m)))
  }

  function ParseTrojan(s: Str): Option<Link> {
    match Uri.Parse(s)
    case None => None
    case Some(uri) =>
      var m := ParseQuery(uri.query);
      var password := Unescape(QueryComponent, uri.userinfo);
      if m.None? || password.None? then None
      else Some(TrojanLink(password.value, uri.host, uri.port, uri.linkLabel, ReadStream(m.value)))
  }

  function ReadVMess(m: map<Str, Str>): Option<Link> {
    match ParseInt(Get(m, "port"))
    case None => None
    case Some(port) =>
      Some(VMessLink(Get(m, "v"), Get(m, "ps"), Get(m, "add"), port, Get(m, "id"), Get(m, "aid"), Get(m, "scy"),
                     Get(m, "net"), Get(m, "type"), Get(m, "host"), Get(m, "path"), Get(m, "tls"), Get(m, "sni"), Get(m, "fp")))
  }

  function ParseVMess(s: Str): Option<Link> {
    match Base64.Decode(Base64.Std, true, s)
    case None => None
    case Some(text) =>
      match Json.Unmarshal(text)
      case None => None
      case Some(m) => ReadVMess(m)
  }

  function ParseShadowsocks(s: Str): Option<Link> {
    match Uri.Parse(s)
    case None => None
    case Some(uri) =>
      match Base64.Decode(Base64.Url, false, uri.userinfo)
      case None => None
      case Some(text) =>
        var i := IndexByte(text, ':');
        if i == |text| then None
        else Some(ShadowsocksLink(text[..i], text[i + 1..], uri.host, uri.port, uri.linkLabel))
  }

  function ParseHysteria2(s: Str): Option<Link> {
    match Uri.Parse(s)
    case None => None
    case Some(uri) =>
      var m := ParseQuery(uri.query);
      var password := Unescape(QueryComponent, uri.userinfo);
      if m.None? || password.None? then None
      else Some(Hysteria2Link(password.value, uri.host, uri.port, uri.linkLabel, Get(m.value, "sni"), "obfs" in m.value))
  }

  function ParseTuic(s: Str): Option<Link> {
    match Uri.Parse(s)
    case None => None
    case Some(uri) =>
      var i := IndexByte(uri.userinfo, ':');
      if i == |uri.userinfo| then None
      else
        var m := ParseQuery(uri.query);
        var password := Unescape(QueryComponent, uri.userinfo[i + 1..]);
        if m.None? || password.None? then None
        else Some(TuicLink(uri.userinfo[..i], password.value, uri.host, uri.port, uri.linkLabel,
                           Get(m.value, "sni"), Get(m.value, "congestion_control"), Get(m.value, "alpn")))
  }

  /** The protocol a link's scheme names, and what follows the scheme. */
  function CutScheme(s: Str): Option<(Protocol, Str)> {
    if VLESS_SCHEME <= s then Some((VLESS, s[|VLESS_SCHEME|..]))
    else if VMESS_SCHEME <= s then Some((VMess, s[|VMESS_SCHEME|..]))
    else if TROJAN_SCHEME <= s then Some((Trojan, s[|TROJAN_SCHEME|..]))
    else if SHADOWSOCKS_SCHEME <= s then Some((Shadowsocks, s[|SHADOWSOCKS_SCHEME|..]))
    else if HYSTERIA2_SCHEME <= s then Some((Hysteria2, s[|HYSTERIA2_SCHEME|..]))
    else if TUIC_SCHEME <= s then Some((TUIC, s[|TUIC_SCHEME|..]))
    else None
  }

  /** The scheme decides how the rest is read. */
  function ParseLink(s: Str): Option<Link> {
    match CutScheme(s)
    case None => None
    case Some((protocol, body)) =>
      match protocol
      case VLESS => ParseVless(body)
      case VMess => ParseVMess(body)
      case Trojan => ParseTrojan(body)
      case Shadowsocks => ParseShadowsocks(body)
      case Hysteria2 => ParseHysteria2(body)
      case TUIC => ParseTuic(body)
      case UnknownProtocol(_) => None
  }

  // ---- the parameters read back ----

  lemma GetSet(m: map<Str, Str>, k: Str, v: Str, x: Str)
    ensures Get(SetNonEmpty(m, k, v), x) == if x == k && v != [] then v else Get(m, x)
  {
  }

  /** PlainParams sets its five keys to the canonical values and leaves the others. */
  lemma PlainRead(m: map<Str, Str>, s: Stream, x: Str)
    requires forall k :: k in m ==> k == "encryption"
    ensures Get(PlainParams(m, s), x) ==
            if x == "type" then s.network
            else if x == "security" then s.security
            else if x == "sni" then s.sni
            else if x == "fp" then s.fingerprint
            else if x == "flow" then s.flow
            else Get(m, x)
  {
    var m0 := m["type" := s.network];
    var m1 := SetNonEmpty(m0, "security", s.security);
    var m2 := SetNonEmpty(m1, "sni", s.sni);
    var m3 := SetNonEmpty(m2, "fp", s.fingerprint);
    GetSet(m0, "security", s.security, x);
    GetSet(m1, "sni", s.sni, x);
    GetSet(m2, "fp", s.fingerprint, x);
    GetSet(m3, "flow", s.flow, x);
  }

  lemma TransportRead(m: map<Str, Str>, s: Stream, x: Str)
    ensures Get(TransportParams(m, s), x) ==
            if x == "host" && s.host != [] then s.host
            else if x == PathKey(s.network) && s.path != [] then s.path
            else Get(m, x)
  {
    GetSet(m, PathKey(s.network), s.path, x);
    GetSet(SetNonEmpty(m, PathKey(s.network), s.path), "host", s.host, x);
  }

  lemma RealityRead(m: map<Str, Str>, s: Stream, x: Str)
    ensures Get(RealityParams(m, s), x) ==
            if x == "sid" && s.shortId != [] then s.shortId
            else if x == "pbk" && s.publicKey != [] then s.publicKey
            else Get(m, x)
  {
    GetSet(m, "pbk", s.publicKey, x);
    GetSet(SetNonEmpty(m, "pbk", s.publicKey), "sid", s.shortId, x);
  }

  /** One parameter of the printed stream, by its key. */
  lemma ParamRead(m: map<Str, Str>, s: Stream, x: Str)
    requires forall k :: k in m ==> k == "encryption"
    ensures Get(StreamParams(m, s), x) ==
            if x == "type" then s.network
            else if x == "security" then s.security
            else if x == "sni" then s.sni
            else if x == "fp" then s.fingerprint
            else if x == "flow" then s.flow
            else if x == "host" then s.host
            else if x == PathKey(s.network) then s.path
            else if x == "pbk" then s.publicKey
            else if x == "sid" then s.shortId
            else Get(m, x)
  {
    var plain := PlainParams(m, s);
    PlainRead(m, s, x);
    TransportRead(plain, s, x);
    RealityRead(TransportParams(plain, s), s, x);
  }

  lemma ReadStreamIs(p: map<Str, Str>, s: Stream)
    requires Get(p, "type") == s.network && Get(p, "security") == s.security && Get(p, "sni") == s.sni
    requires Get(p, "fp") == s.fingerprint && Get(p, "flow") == s.flow && Get(p, "host") == s.host
    requires Get(p, PathKey(s.network)) == s.path && Get(p, "pbk") == s.publicKey && Get(p, "sid") == s.shortId
    ensures ReadStream(p) == s
  {
  }

  /** The printed parameters say the canonical stream, and keep the encryption parameter. */
  lemma StreamRoundTrip(m: map<Str, Str>, s: Stream)
    requires forall k :: k in m ==> k == "encryption"
    ensures ReadStream(StreamParams(m, s)) == s
    ensures Get(StreamParams(m, s), "encryption") == Get(m, "encryption")
  {
    var p := StreamParams(m, s);
    assert Get(p, "encryption") == Get(m, "encryption") by { ParamRead(m, s, "encryption"); }
    assert ReadStream(p) == s by {
      assert Get(p, "type") == s.network by { ParamRead(m, s, "type"); }
      assert Get(p, "security") == s.security by { ParamRead(m, s, "security"); }
      assert Get(p, "sni") == s.sni by { ParamRead(m, s, "sni"); }
      assert Get(p, "fp") == s.fingerprint by { ParamRead(m, s, "fp"); }
      assert Get(p, "flow") == s.flow by { ParamRead(m, s, "flow"); }
      assert Get(p, "host") == s.host by { ParamRead(m, s, "host"); }
      assert Get(p, PathKey(s.network)) == s.path by { ParamRead(m, s, PathKey(s.network)); }
      assert Get(p, "pbk") == s.publicKey by { ParamRead(m, s, "pbk"); }
      assert Get(p, "sid") == s.shortId by { ParamRead(m, s, "sid"); }
      ReadStreamIs(p, s);
    }
  }

  // ---- every builder against the reader ----

  lemma UriWithQuery(userinfo: Str, addr: Str, port: int, m: map<Str, Str>, linkLabel: Str)
    ensures ParseQuery(Some(Query.Encode(m))) == Some(m)
    ensures Uri.Parse(Uri.Print(userinfo, addr, port, Some(Query.Encode(m)), linkLabel)) ==
              Some(Uri.Uri(userinfo, addr, port, Some(Query.Encode(m)), linkLabel))
            <==> Uri.Clean(userinfo) && Uri.Clean(addr)
  {
    Query.EncodeRoundTrip(m);
    Query.EncodeBytes(m);
    assert '#' in "#?/\n";
    Uri.PrintExact(userinfo, addr, port, Some(Query.Encode(m)), linkLabel);
  }

  lemma VlessExact(u: User, inbound: Inbound, addr: Str, linkLabel: Str)
    ensures ParseVless(VlessBody(u, inbound, addr, linkLabel)) ==
              Some(VlessLink(u.uuid, addr, inbound.port, linkLabel, Canon(inbound)))
            <==> Uri.Clean(u.uuid) && Uri.Clean(addr)
  {
    var m := VlessParams(inbound);
    UriWithQuery(u.uuid, addr, inbound.port, m, linkLabel);
    VlessRead(inbound);
  }

  lemma VlessRead(inbound: Inbound)
    ensures ReadStream(VlessParams(inbound)) == Canon(inbound)
    ensures Get(VlessParams(inbound), "encryption") == "none"
  {
    StreamRoundTrip(map["encryption" := "none"], Canon(inbound));
  }

  lemma TrojanExact(u: User, inbound: Inbound, addr: Str, linkLabel: Str)
    ensures ParseTrojan(TrojanBody(u, inbound, addr, linkLabel)) ==
              Some(TrojanLink(u.trojanPassword, addr, inbound.port, linkLabel, Canon(inbound)))
            <==> Uri.Clean(addr)
  {
    var m := StreamParams(map[], Canon(inbound));
    CleanEscaped(u.trojanPassword);
    UriWithQuery(Escape(QueryComponent, u.trojanPassword), addr, inbound.port, m, linkLabel);
    RoundTrip(QueryComponent, u.trojanPassword);
    StreamRoundTrip(map[], Canon(inbound));
  }

  lemma CleanEscaped(s: Str)
    ensures Uri.Clean(Escape(QueryComponent, s)) && ':' !in Escape(QueryComponent, s) && '\n' !in Escape(QueryComponent, s)
  {
    EscapedBytes(QueryComponent, s);
    assert '#' in "#?/\n " && '?' in "#?/\n " && '/' in "#?/\n " && '\n' in "#?/\n ";
    assert '@' in "@:&=" && ':' in "@:&=";
  }

  lemma CleanJoin(a: Str, b: Str)
    requires Uri.Clean(b)
    ensures Uri.Clean(a + ":" + b) <==> Uri.Clean(a)
  {
  }

  lemma CleanBase64(s: Str)
    ensures Uri.Clean(Base64.Encode(Base64.Url, false, s)) && '\n' !in Base64.Encode(Base64.Url, false, s)
  {
    Base64.EncodeSymbols(Base64.Url, false, s);
  }

  lemma CutAtColon(a: Str, b: Str)
    ensures ':' !in a ==> var s := a + ":" + b; var i := IndexByte(s, ':'); i == |a| < |s| && s[..i] == a && s[i + 1..] == b
  {
    if ':' !in a {
      IndexByteAppend(a, ':', b);
      assert a + ":" + b == a + [':'] + b;
    }
  }

  lemma ShadowsocksExact(u: User, inbound: Inbound, addr: Str, linkLabel: Str)
    ensures ParseShadowsocks(ShadowsocksBody(u, inbound, addr, linkLabel)) ==
              Some(ShadowsocksLink(SSMethod(u), u.ssPassword, addr, inbound.port, linkLabel))
            <==> ':' !in SSMethod(u) && Uri.Clean(addr)
  {
    var text := SSMethod(u) + ":" + u.ssPassword;
    CleanBase64(text);
    Uri.PrintExact(Base64.Encode(Base64.Url, false, text), addr, inbound.port, None, linkLabel);
    Base64.RoundTrip(Base64.Url, false, text);
    CutAtColon(SSMethod(u), u.ssPassword);
  }

  lemma Hysteria2Exact(u: User, inbound: Inbound, addr: Str, linkLabel: Str)
    ensures ParseHysteria2(Hysteria2Body(u, inbound, addr, linkLabel)) ==
              Some(Hysteria2Link(u.trojanPassword, addr, inbound.port, linkLabel, inbound.sni, inbound.host != []))
            <==> Uri.Clean(addr)
  {
    var m := Hysteria2Params(inbound);
    var password := Escape(QueryComponent, u.trojanPassword);
    CleanEscaped(u.trojanPassword);
    RoundTrip(QueryComponent, u.trojanPassword);
    if m == map[] {
      Uri.PrintExact(password, addr, inbound.port, None, linkLabel);
    } else {
      UriWithQuery(password, addr, inbound.port, m, linkLabel);
    }
    Hysteria2Read(inbound);
  }

  lemma Hysteria2Read(inbound: Inbound)
    ensures Get(Hysteria2Params(inbound), "sni") == inbound.sni
    ensures "obfs" in Hysteria2Params(inbound) <==> inbound.host != []
  {
  }

  lemma TuicRead(inbound: Inbound)
    ensures Get(TuicParams(inbound), "sni") == inbound.sni
    ensures Get(TuicParams(inbound), "congestion_control") == "bbr"
    ensures Get(TuicParams(inbound), "alpn") == "h3"
  {
  }

  lemma TuicExact(u: User, inbound: Inbound, addr: Str, linkLabel: Str)
    ensures ParseTuic(TuicBody(u, inbound, addr, linkLabel)) ==
              Some(TuicLink(u.uuid, u.trojanPassword, addr, inbound.port, linkLabel, inbound.sni, "bbr", "h3"))
            <==> ':' !in u.uuid && Uri.Clean(u.uuid) && Uri.Clean(addr)
  {
    var m := TuicParams(inbound);
    var password := Escape(QueryComponent, u.trojanPassword);
    var userinfo := u.uuid + ":" + password;
    CleanEscaped(u.trojanPassword);
    CleanJoin(u.uuid, password);
    UriWithQuery(userinfo, addr, inbound.port, m, linkLabel);
    RoundTrip(QueryComponent, u.trojanPassword);
    TuicRead(inbound);
    CutAtColon(u.uuid, password);
  }

  predicate Ascii(s: Str) {
    forall c :: c in s ==> c as int < 0x80
  }

  lemma AsciiKeys()
    ensures Ascii("v") && Ascii("ps") && Ascii("add") && Ascii("port") && Ascii("id")
    ensures Ascii("aid") && Ascii("scy") && Ascii("net") && Ascii("type")
    ensures Ascii("host") && Ascii("path") && Ascii("tls") && Ascii("sni") && Ascii("fp")
  {
  }

  lemma VMessKeysValid(u: User, inbound: Inbound, addr: Str, linkLabel: Str)
    ensures forall k :: k in VMessFields(u, inbound, addr, linkLabel) ==> Json.ValidUtf8(k)
  {
    AsciiKeys();
    forall k | k in VMessFields(u, inbound, addr, linkLabel) ensures Json.ValidUtf8(k) {
      Json.AsciiIsUtf8(k);
    }
  }

  lemma ParsePayload(body: Str, raw: Str, m: map<Str, Str>)
    requires Base64.Decode(Base64.Std, true, body) == Some(raw) && Json.Unmarshal(raw) == Some(m)
    ensures ParseVMess(body) == ReadVMess(m)
  {
  }

  lemma Payload(fields: map<Str, Str>)
    requires forall k :: k in fields ==> Json.ValidUtf8(k)
    ensures ParseVMess(Base64.Encode(Base64.Std, true, Json.Marshal(fields))) == ReadVMess(Json.Coerced(fields))
  {
    var raw := Json.Marshal(fields);
    Json.RoundTrip(fields);
    Base64.RoundTrip(Base64.Std, true, raw);
    ParsePayload(Base64.Encode(Base64.Std, true, raw), raw, Json.Coerced(fields));
  }

  lemma AsciiKept(s: Str)
    requires Ascii(s)
    ensures Json.Coerce(s) == s
  {
    Json.AsciiIsUtf8(s);
    Json.CoerceIdentity(s);
  }

  lemma DigitsKept()
    ensures Json.Coerce("2") == "2" && Json.Coerce("0") == "0"
  {
    AsciiKept("2");
    AsciiKept("0");
  }

  lemma AutoKept()
    ensures Json.Coerce("auto") == "auto"
  {
    AsciiKept("auto");
  }

  lemma NoneKept()
    ensures Json.Coerce("none") == "none"
  {
    AsciiKept("none");
  }

  lemma TlsKept(security: Str)
    ensures Json.Coerce(TlsField(security)) == TlsField(security)
  {
    AsciiKept(TlsField(security));
  }

  lemma PortKept(port: int)
    ensures ParseInt(Json.Coerce(PrintInt(port))) == Some(port)
  {
    PrintIntRoundTrip(port);
    AsciiKept(PrintInt(port));
  }

  lemma VMessLookup(u: User, inbound: Inbound, addr: Str, linkLabel: Str)
    ensures var m := VMessFields(u, inbound, addr, linkLabel);
            && Get(m, "v") == "2" && Get(m, "ps") == linkLabel && Get(m, "add") == addr
            && Get(m, "port") == PrintInt(inbound.port) && Get(m, "id") == u.uuid && Get(m, "aid") == "0"
            && Get(m, "scy") == "auto" && Get(m, "net") == OrDefault(inbound.network, "tcp") && Get(m, "type") == "none"
            && Get(m, "host") == inbound.host && Get(m, "path") == inbound.path
            && Get(m, "tls") == TlsField(inbound.security) && Get(m, "sni") == inbound.sni && Get(m, "fp") == inbound.fingerprint
  {
  }

  lemma GetCoerced(m: map<Str, Str>, k: Str)
    ensures Get(Json.Coerced(m), k) == Json.Coerce(Get(m, k))
  {
  }

  /** What a reader gets from a VMess link: every field, coerced to UTF-8. */
  function CoercedMeaning(u: User, inbound: Inbound, addr: Str, linkLabel: Str): Link {
    VMessLink("2", Json.Coerce(linkLabel), Json.Coerce(addr), inbound.port, Json.Coerce(u.uuid), "0", "auto",
              Json.Coerce(OrDefault(inbound.network, "tcp")), "none", Json.Coerce(inbound.host),
              Json.Coerce(inbound.path), TlsField(inbound.security), Json.Coerce(inbound.sni),
              Json.Coerce(inbound.fingerprint))
  }

  lemma VMessRead(u: User, inbound: Inbound, addr: Str, linkLabel: Str)
    ensures ReadVMess(Json.Coerced(VMessFields(u, inbound, addr, linkLabel))) == Some(CoercedMeaning(u, inbound, addr, linkLabel))
  {
    var m := VMessFields(u, inbound, addr, linkLabel);
    VMessLookup(u, inbound, addr, linkLabel);
    DigitsKept();
    AutoKept();
    NoneKept();
    TlsKept(inbound.security);
    PortKept(inbound.port);
    forall k ensures Get(Json.Coerced(m), k) == Json.Coerce(Get(m, k)) {
      GetCoerced(m, k);
    }
  }

  lemma CoercedMeaningExact(u: User, inbound: Inbound, addr: Str, linkLabel: Str)
    requires inbound.protocol == Protocol.VMess
    ensures CoercedMeaning(u, inbound, addr, linkLabel) == Meaning(u, inbound, addr, linkLabel)
            <==> Representable(u, inbound, addr, linkLabel)
  {
    Json.CoerceIdentity(linkLabel);
    Json.CoerceIdentity(addr);
    Json.CoerceIdentity(u.uuid);
    Json.CoerceIdentity(OrDefault(inbound.network, "tcp"));
    Json.CoerceIdentity(inbound.host);
    Json.CoerceIdentity(inbound.path);
    Json.CoerceIdentity(inbound.sni);
    Json.CoerceIdentity(inbound.fingerprint);
  }

  lemma VMessExact(u: User, inbound: Inbound, addr: Str, linkLabel: Str)
    requires inbound.protocol == Protocol.VMess
    ensures ParseVMess(VMessBody(u, inbound, addr, linkLabel)) == Some(CoercedMeaning(u, inbound, addr, linkLabel))
    ensures CoercedMeaning(u, inbound, addr, linkLabel) == Meaning(u, inbound, addr, linkLabel)
            <==> Representable(u, inbound, addr, linkLabel)
  {
    VMessKeysValid(u, inbound, addr, linkLabel);
    Payload(VMessFields(u, inbound, addr, linkLabel));
    VMessRead(u, inbound, addr, linkLabel);
    CoercedMeaningExact(u, inbound, addr, linkLabel);
  }

  // ---- main results ----

  lemma AfterPrefix(a: Str, body: Str)
    ensures a <= a + body && (a + body)[|a|..] == body
  {
  }

  lemma NotPrefix(a: Str, b: Str, body: Str, i: nat)
    requires i < |a| && i < |b| && a[i] != b[i]
    ensures !(a <= b + body)
  {
  }

  lemma VSchemesDoNotCollide(body: Str)
    ensures CutScheme(VLESS_SCHEME + body) == Some((VLESS, body))
    ensures CutScheme(VMESS_SCHEME + body) == Some((VMess, body))
  {
    AfterPrefix(VLESS_SCHEME, body);
    AfterPrefix(VMESS_SCHEME, body);
    NotPrefix(VLESS_SCHEME, VMESS_SCHEME, body, 1);
  }

  lemma TSchemesDoNotCollide(body: Str)
    ensures CutScheme(TROJAN_SCHEME + body) == Some((Trojan, body))
    ensures CutScheme(TUIC_SCHEME + body) == Some((TUIC, body))
  {
    AfterPrefix(TROJAN_SCHEME, body);
    AfterPrefix(TUIC_SCHEME, body);
    NotPrefix(TROJAN_SCHEME, TUIC_SCHEME, body, 1);
    NotPrefix(VLESS_SCHEME, TROJAN_SCHEME, body, 0);
    NotPrefix(VMESS_SCHEME, TROJAN_SCHEME, body, 0);
    NotPrefix(VLESS_SCHEME, TUIC_SCHEME, body, 0);
    NotPrefix(VMESS_SCHEME, TUIC_SCHEME, body, 0);
    NotPrefix(SHADOWSOCKS_SCHEME, TUIC_SCHEME, body, 0);
    NotPrefix(HYSTERIA2_SCHEME, TUIC_SCHEME, body, 0);
  }

  lemma OtherSchemesDoNotCollide(body: Str)
    ensures CutScheme(SHADOWSOCKS_SCHEME + body) == Some((Shadowsocks, body))
    ensures CutScheme(HYSTERIA2_SCHEME + body) == Some((Hysteria2, body))
  {
    AfterPrefix(SHADOWSOCKS_SCHEME, body);
    AfterPrefix(HYSTERIA2_SCHEME, body);
    NotPrefix(VLESS_SCHEME, SHADOWSOCKS_SCHEME, body, 0);
    NotPrefix(VMESS_SCHEME, SHADOWSOCKS_SCHEME, body, 0);
    NotPrefix(TROJAN_SCHEME, SHADOWSOCKS_SCHEME, body, 0);
    NotPrefix(VLESS_SCHEME, HYSTERIA2_SCHEME, body, 0);
    NotPrefix(VMESS_SCHEME, HYSTERIA2_SCHEME, body, 0);
    NotPrefix(TROJAN_SCHEME, HYSTERIA2_SCHEME, body, 0);
    NotPrefix(SHADOWSOCKS_SCHEME, HYSTERIA2_SCHEME, body, 0);
  }

  /** Whatever follows a scheme, only that scheme is found. */
  lemma SchemesDoNotCollide(body: Str)
    ensures CutScheme(VLESS_SCHEME + body) == Some((VLESS, body))
    ensures CutScheme(VMESS_SCHEME + body) == Some((VMess, body))
    ensures CutScheme(TROJAN_SCHEME + body) == Some((Trojan, body))
    ensures CutScheme(SHADOWSOCKS_SCHEME + body) == Some((Shadowsocks, body))
    ensures CutScheme(HYSTERIA2_SCHEME + body) == Some((Hysteria2, body))
    ensures CutScheme(TUIC_SCHEME + body) == Some((TUIC, body))
  {
    VSchemesDoNotCollide(body);
    TSchemesDoNotCollide(body);
    OtherSchemesDoNotCollide(body);
  }

  /** Build succeeds on the known protocols and no others, and its link is read back as what it
      is meant to say exactly when the raw parts allow it. */
  lemma LinkExact(u: User, inbound: Inbound, node: Node, linkLabel: Str)
    ensures Build(u, inbound, node, linkLabel).Some? <==> inbound.protocol.Valid()
    ensures inbound.protocol.Valid() ==>
              (ParseLink(Build(u, inbound, node, linkLabel).value) == Some(Meaning(u, inbound, Address(inbound, node), linkLabel))
               <==> Representable(u, inbound, Address(inbound, node), linkLabel))
  {
    var addr := Address(inbound, node);
    match inbound.protocol
    case VLESS =>
      SchemesDoNotCollide(VlessBody(u, inbound, addr, linkLabel));
      VlessExact(u, inbound, addr, linkLabel);
    case VMess =>
      SchemesDoNotCollide(VMessBody(u, inbound, addr, linkLabel));
      VMessExact(u, inbound, addr, linkLabel);
    case Trojan =>
      SchemesDoNotCollide(TrojanBody(u, inbound, addr, linkLabel));
      TrojanExact(u, inbound, addr, linkLabel);
    case Shadowsocks =>
      SchemesDoNotCollide(ShadowsocksBody(u, inbound, addr, linkLabel));
      ShadowsocksExact(u, inbound, addr, linkLabel);
    case Hysteria2 =>
      SchemesDoNotCollide(Hysteria2Body(u, inbound, addr, linkLabel));
      Hysteria2Exact(u, inbound, addr, linkLabel);
    case TUIC =>
      SchemesDoNotCollide(TuicBody(u, inbound, addr, linkLabel));
      TuicExact(u, inbound, addr, linkLabel);
    case UnknownProtocol(_) =>
  }
}
