/** The subscription document of internal/links/subscription.go: the filtered list of links,
    joined by newlines and encoded, and what a client reads from it. */
module Subscription {
  import opened GoStrings
  import opened Models
  import opened UrlEscape
  import opened Links
  import opened Client
  import Base64
  import Json
  import Query
  import Uri

  datatype SubFormat = FormatBase64 | FormatPlain | OtherFormat(name: Str)

  datatype NodeInbound = NodeInbound(node: Node, inbound: Inbound)

  function LinkLabel(u: User, inbound: Inbound): Str {
    u.username + "-" + inbound.tag
  }

  /** The filter: both ends active, and the node's core can serve the protocol. */
  predicate Served(p: NodeInbound) {
    p.inbound.isActive && p.node.isActive && p.inbound.protocol.SupportedBy(p.node.core)
  }

  function ServedPairs(pairs: seq<NodeInbound>): (served: seq<NodeInbound>)
    ensures forall p :: p in served ==> Served(p) && p in pairs
  {
    if pairs == [] then []
    else (if Served(pairs[0]) then [pairs[0]] else []) + ServedPairs(pairs[1..])
  }

  function LinkOf(u: User, p: NodeInbound): Option<Str> {
    Build(u, p.inbound, p.node, LinkLabel(u, p.inbound))
  }

  /** What a link can be built for is what a core can serve. */
  lemma ServedIsBuildable(u: User, p: NodeInbound)
    requires Served(p)
    ensures p.inbound.protocol.Valid() && LinkOf(u, p).Some?
  {
  }

  /** One link for each served pair, in order and with multiplicity. */
  function Uris(u: User, served: seq<NodeInbound>): (uris: seq<Str>)
    requires forall p :: p in served ==> Served(p)
    ensures |uris| == |served|
  {
    if served == [] then []
    else
      ServedIsBuildable(u, served[0]);
      [LinkOf(u, served[0]).value] + Uris(u, served[1..])
  }

  /** The i-th link is the i-th pair's. */
  lemma {:induction false} UrisAt(u: User, served: seq<NodeInbound>, i: nat)
    requires i < |served| && forall p :: p in served ==> Served(p)
    ensures LinkOf(u, served[i]) == Some(Uris(u, served)[i])
  {
    ServedIsBuildable(u, served[0]);
    if i > 0 {
      UrisAt(u, served[1..], i - 1);
      assert Uris(u, served) == [LinkOf(u, served[0]).value] + Uris(u, served[1..]);
    }
  }

  function ServedOne(p: NodeInbound): seq<NodeInbound> {
    if Served(p) then [p] else []
  }

  lemma ServedCons(p: NodeInbound, pairs: seq<NodeInbound>)
    ensures ServedPairs([p] + pairs) == ServedOne(p) + ServedPairs(pairs)
  {
    assert ([p] + pairs)[1..] == pairs;
  }

  lemma {:induction false} ServedAppend(pairs: seq<NodeInbound>, p: NodeInbound)
    ensures ServedPairs(pairs + [p]) == ServedPairs(pairs) + ServedOne(p)
  {
    if pairs == [] {
      ServedCons(p, []);
      assert pairs + [p] == [p] + [];
    } else {
      ServedAppend(pairs[1..], p);
      ServedCons(pairs[0], pairs[1..]);
      ServedCons(pairs[0], pairs[1..] + [p]);
      assert pairs == [pairs[0]] + pairs[1..];
      ConcatAssoc([pairs[0]], pairs[1..], [p]);
      ConcatAssoc(ServedOne(pairs[0]), ServedPairs(pairs[1..]), ServedOne(p));
    }
  }

  lemma {:induction false} UrisAppend(u: User, served: seq<NodeInbound>, p: NodeInbound)
    requires Served(p) && forall q :: q in served ==> Served(q)
    requires LinkOf(u, p).Some?
    ensures Uris(u, served + [p]) == Uris(u, served) + [LinkOf(u, p).value]
  {
    if served == [] {
      assert served + [p] == [p];
    } else {
      UrisAppend(u, served[1..], p);
      assert (served + [p])[1..] == served[1..] + [p];
    }
  }

  /** The list after one more pair. */
  lemma UrisOfNext(u: User, pairs: seq<NodeInbound>, i: nat)
    requires i < |pairs|
    ensures !Served(pairs[i]) ==> Uris(u, ServedPairs(pairs[..i + 1])) == Uris(u, ServedPairs(pairs[..i]))
    ensures Served(pairs[i]) ==> LinkOf(u, pairs[i]).Some?
    ensures Served(pairs[i]) ==>
              Uris(u, ServedPairs(pairs[..i + 1])) == Uris(u, ServedPairs(pairs[..i])) + [LinkOf(u, pairs[i]).value]
  {
    var p := pairs[i];
    assert pairs[..i + 1] == pairs[..i] + [p];
    ServedAppend(pairs[..i], p);
    if Served(p) {
      ServedIsBuildable(u, p);
      UrisAppend(u, ServedPairs(pairs[..i]), p);
    } else {
      assert ServedPairs(pairs[..i]) + [] == ServedPairs(pairs[..i]);
    }
  }

  method BuildAll(u: User, pairs: seq<NodeInbound>) returns (out: seq<Str>)
    ensures out == Uris(u, ServedPairs(pairs))
  {
    out := [];
    for i := 0 to |pairs|
      invariant out == Uris(u, ServedPairs(pairs[..i]))
    {
      var p := pairs[i];
      UrisOfNext(u, pairs, i);
      if !p.inbound.isActive || !p.node.isActive {
        continue;
      }
      if !p.inbound.protocol.SupportedBy(p.node.core) {
        continue;
      }
      var uri := BuildLink(u, p.inbound, p.node, LinkLabel(u, p.inbound));
      if uri.None? {
        continue;
      }
      out := out + [uri.value];
    }
    assert pairs[..|pairs|] == pairs;
  }

  function Render(uris: seq<Str>, format: SubFormat): Str {
    var joined := Join(uris, '\n');
    match format
    case FormatPlain => joined
    case FormatBase64 | OtherFormat(_) => Base64.Encode(Base64.Std, true, joined)
  }

  // ---- the client's side ----

  function ParseLines(lines: seq<Str>): (r: Option<seq<Link>>)
    ensures r.Some? ==> |r.value| == |lines|
  {
    if lines == [] then Some([])
    else
      match ParseLink(lines[0])
      case None => None
      case Some(l) =>
        match ParseLines(lines[1..])
        case None => None
        case Some(rest) => Some([l] + rest)
  }

  function ParseText(text: Str): Option<seq<Link>> {
    if text == [] then Some([]) else ParseLines(Split(text, '\n'))
  }

  function ParseDocument(doc: Str, format: SubFormat): Option<seq<Link>> {
    match format
    case FormatPlain => ParseText(doc)
    case FormatBase64 | OtherFormat(_) =>
      match Base64.Decode(Base64.Std, true, doc)
      case None => None
      case Some(text) => ParseText(text)
  }

  function MeaningOf(u: User, p: NodeInbound): Link
    requires Served(p)
  {
    Meaning(u, p.inbound, Address(p.inbound, p.node), LinkLabel(u, p.inbound))
  }

  function Meanings(u: User, served: seq<NodeInbound>): (ls: seq<Link>)
    requires forall p :: p in served ==> Served(p)
    ensures |ls| == |served|
  {
    if served == [] then [] else [MeaningOf(u, served[0])] + Meanings(u, served[1..])
  }

  /** No newline in what the link prints raw. */
  predicate OneLine(u: User, p: NodeInbound) {
    match p.inbound.protocol
    case VLESS | TUIC => '\n' !in u.uuid && '\n' !in Address(p.inbound, p.node)
    case VMess => true
    case _ => '\n' !in Address(p.inbound, p.node)
  }

  /** A pair whose link survives the document: it fits on a line and is representable. */
  predicate Fits(u: User, p: NodeInbound)
    requires Served(p)
  {
    OneLine(u, p) && Representable(u, p.inbound, Address(p.inbound, p.node), LinkLabel(u, p.inbound))
  }

  lemma QueryNewlines(m: map<Str, Str>)
    ensures '\n' !in Query.Encode(m)
  {
    Query.EncodeBytes(m);
    assert '\n' in "#?/\n";
  }

  lemma SchemeNewlines()
    ensures '\n' !in VLESS_SCHEME && '\n' !in VMESS_SCHEME && '\n' !in TROJAN_SCHEME
    ensures '\n' !in SHADOWSOCKS_SCHEME && '\n' !in HYSTERIA2_SCHEME && '\n' !in TUIC_SCHEME
  {
  }

  /** A printed link is one non-empty line exactly when its raw parts hold no newline. */
  lemma LinkIsLine(u: User, p: NodeInbound)
    requires Served(p)
    ensures LinkOf(u, p).Some? && LinkOf(u, p).value != []
    ensures '\n' !in LinkOf(u, p).value <==> OneLine(u, p)
  {
    var addr, inbound, linkLabel := Address(p.inbound, p.node), p.inbound, LinkLabel(u, p.inbound);
    SchemeNewlines();
    CleanEscaped(u.trojanPassword);
    match inbound.protocol
    case VLESS => WithQueryNewlines(u.uuid, addr, inbound.port, VlessParams(inbound), linkLabel);
    case Trojan =>
      WithQueryNewlines(Escape(QueryComponent, u.trojanPassword), addr, inbound.port,
                        StreamParams(map[], Canon(inbound)), linkLabel);
    case VMess => Base64Newlines(Json.Marshal(VMessFields(u, inbound, addr, linkLabel)));
    case Shadowsocks =>
      CleanBase64(SSMethod(u) + ":" + u.ssPassword);
      Uri.PrintNewlines(Base64.Encode(Base64.Url, false, SSMethod(u) + ":" + u.ssPassword), addr, inbound.port, None, linkLabel);
    case Hysteria2 =>
      var m := Hysteria2Params(inbound);
      QueryNewlines(m);
      Uri.PrintNewlines(Escape(QueryComponent, u.trojanPassword), addr, inbound.port,
                        if m == map[] then None else Some(Query.Encode(m)), linkLabel);
    case TUIC =>
      WithQueryNewlines(u.uuid + ":" + Escape(QueryComponent, u.trojanPassword), addr, inbound.port,
                        TuicParams(inbound), linkLabel);
  }

  lemma Base64Newlines(s: Str)
    ensures '\n' !in Base64.Encode(Base64.Std, true, s)
  {
    Base64.EncodeSymbols(Base64.Std, true, s);
    assert Base64.Value(Base64.Std, '\n') == -1;
  }

  lemma WithQueryNewlines(userinfo: Str, addr: Str, port: int, m: map<Str, Str>, linkLabel: Str)
    ensures '\n' in Uri.Print(userinfo, addr, port, Some(Query.Encode(m)), linkLabel) <==> '\n' in userinfo || '\n' in addr
  {
    QueryNewlines(m);
    Uri.PrintNewlines(userinfo, addr, port, Some(Query.Encode(m)), linkLabel);
  }

  lemma {:induction false} UrisAreLines(u: User, served: seq<NodeInbound>)
    requires forall p :: p in served ==> Served(p)
    ensures forall s :: s in Uris(u, served) ==> s != []
    ensures (forall s :: s in Uris(u, served) ==> '\n' !in s) <==> (forall p :: p in served ==> OneLine(u, p))
  {
    if served != [] {
      LinkIsLine(u, served[0]);
      UrisAreLines(u, served[1..]);
      var uris := Uris(u, served);
      assert uris == [LinkOf(u, served[0]).value] + Uris(u, served[1..]);
      assert forall s :: s in uris <==> s == uris[0] || s in Uris(u, served[1..]);
      assert forall p :: p in served <==> p == served[0] || p in served[1..];
    }
  }

  lemma {:induction false} LinesExact(u: User, served: seq<NodeInbound>)
    requires forall p :: p in served ==> Served(p)
    ensures ParseLines(Uris(u, served)) == Some(Meanings(u, served)) <==>
            forall p :: p in served ==> Representable(u, p.inbound, Address(p.inbound, p.node), LinkLabel(u, p.inbound))
  {
    if served != [] {
      var p := served[0];
      LinkExact(u, p.inbound, p.node, LinkLabel(u, p.inbound));
      LinesExact(u, served[1..]);
      assert served == [p] + served[1..];
      assert Uris(u, served)[1..] == Uris(u, served[1..]);
      assert Meanings(u, served)[0] == MeaningOf(u, p) && Meanings(u, served)[1..] == Meanings(u, served[1..]);
    }
  }

  lemma {:induction false} JoinEmpty(pieces: seq<Str>, sep: byte)
    requires forall p :: p in pieces ==> p != []
    ensures Join(pieces, sep) == [] <==> pieces == []
  {
    if pieces != [] {
      assert pieces[0] in pieces;
    }
  }

  lemma TextExact(u: User, served: seq<NodeInbound>)
    requires forall p :: p in served ==> Served(p)
    ensures ParseText(Join(Uris(u, served), '\n')) == Some(Meanings(u, served)) <==> forall p :: p in served ==> Fits(u, p)
  {
    var uris := Uris(u, served);
    UrisAreLines(u, served);
    LinesExact(u, served);
    JoinEmpty(uris, '\n');
    if served != [] {
      SplitJoinCount(uris, '\n');
      if forall s :: s in uris ==> '\n' !in s {
        SplitJoin(uris, '\n');
      }
    }
  }

  /** The document of any pairs in any format is read back as the meanings of exactly the served
      pairs, in order and with multiplicity, exactly when each of them fits. */
  lemma DocumentExact(u: User, pairs: seq<NodeInbound>, format: SubFormat)
    ensures ParseDocument(Render(Uris(u, ServedPairs(pairs)), format), format) == Some(Meanings(u, ServedPairs(pairs)))
            <==> forall p :: p in ServedPairs(pairs) ==> Fits(u, p)
  {
    TextExact(u, ServedPairs(pairs));
    Base64.RoundTrip(Base64.Std, true, Join(Uris(u, ServedPairs(pairs)), '\n'));
  }

  // ---- the list and the text, said without their definitions ----

  /** The label of a link: username, '-', tag. */
  function LabelText(u: User, i: Inbound): Str {
    u.username + ['-'] + i.tag
  }

  /** A pair gets its link exactly when both ends are active and the node's core serves the protocol:
      Hysteria2 and TUIC only on sing-box. */
  lemma LinkOfOnePair(u: User, p: NodeInbound)
    ensures Uris(u, ServedPairs([p])) ==
            if p.inbound.isActive && p.node.isActive && CoreServes(p.node.core, p.inbound.protocol)
            then [Build(u, p.inbound, p.node, LabelText(u, p.inbound)).value] else []
    ensures p.inbound.isActive && p.node.isActive && CoreServes(p.node.core, p.inbound.protocol) ==>
              Build(u, p.inbound, p.node, LabelText(u, p.inbound)).Some?
  {
    SupportedExactly(p.inbound.protocol, p.node.core);
    assert [p][1..] == [];
    assert LabelText(u, p.inbound) == LinkLabel(u, p.inbound);
    if Served(p) {
      ServedIsBuildable(u, p);
      assert ServedPairs([p]) == [p];
    }
  }

  lemma {:induction false} ServedConcat(a: seq<NodeInbound>, b: seq<NodeInbound>)
    ensures ServedPairs(a + b) == ServedPairs(a) + ServedPairs(b)
  {
    if a == [] {
      assert a + b == b;
    } else {
      assert a + b == [a[0]] + (a[1..] + b) && a == [a[0]] + a[1..];
      ServedConcat(a[1..], b);
      ServedCons(a[0], a[1..] + b);
      ServedCons(a[0], a[1..]);
      ConcatAssoc(ServedOne(a[0]), ServedPairs(a[1..]), ServedPairs(b));
    }
  }

  lemma {:induction false} UrisConcat(u: User, a: seq<NodeInbound>, b: seq<NodeInbound>)
    requires forall p :: p in a ==> Served(p)
    requires forall p :: p in b ==> Served(p)
    ensures Uris(u, a + b) == Uris(u, a) + Uris(u, b)
  {
    if a == [] {
      assert a + b == b;
    } else {
      assert (a + b)[1..] == a[1..] + b;
      UrisConcat(u, a[1..], b);
    }
  }

  /** And the list of a longer list is that of its parts, in order. */
  lemma LinksOfParts(u: User, a: seq<NodeInbound>, b: seq<NodeInbound>)
    ensures Uris(u, ServedPairs(a + b)) == Uris(u, ServedPairs(a)) + Uris(u, ServedPairs(b))
  {
    ServedConcat(a, b);
    UrisConcat(u, ServedPairs(a), ServedPairs(b));
  }

  /** The plain document: the links with a newline between any two; any other format is its padded
      standard base64. */
  lemma RenderedText(first: Str, rest: seq<Str>, format: SubFormat)
    ensures Render([], FormatPlain) == [] && Render([first], FormatPlain) == first
    ensures rest != [] ==> Render([first] + rest, FormatPlain) == first + ['\n'] + Render(rest, FormatPlain)
    ensures format != FormatPlain ==> Render(rest, format) == Base64.Encode(Base64.Std, true, Render(rest, FormatPlain))
  {
    assert ([first] + rest)[1..] == rest;
  }
}
