/** The shape shared by five of the six share links, and a client's reader for it:
    userinfo "@" host ":" port [ "?" query ] "#" escaped label. */
module Uri {
  import opened GoStrings
  import opened UrlEscape

  datatype Uri = Uri(userinfo: Str, host: Str, port: int, query: Option<Str>, linkLabel: Str)

  /** Text that delimits nothing in a URI (section 3 of RFC 3986). */
  predicate Clean(s: Str) {
    '#' !in s && '?' !in s && '/' !in s && '@' !in s
  }

  function PrintHostPort(host: Str, port: int): Str {
    host + ":" + PrintInt(port)
  }

  function PrintAuthority(userinfo: Str, host: Str, port: int): Str {
    userinfo + "@" + PrintHostPort(host, port)
  }

  function WithQuery(s: Str, query: Option<Str>): Str {
    s + (if query.Some? then "?" + query.value else "")
  }

  function WithFragment(s: Str, fragment: Str): Str {
    s + "#" + fragment
  }

  function PrintFront(userinfo: Str, host: Str, port: int, query: Option<Str>): Str {
    WithQuery(PrintAuthority(userinfo, host, port), query)
  }

  /** What the fmt.Sprintf calls of the link builders print after the scheme. */
  function Print(userinfo: Str, host: Str, port: int, query: Option<Str>, linkLabel: Str): Str {
    WithFragment(PrintFront(userinfo, host, port, query), Escape(PathSegment, linkLabel))
  }

  /** The port is what follows the last ':'. */
  function ParseHostPort(s: Str): (r: Option<(Str, int)>)
    ensures r.Some? && Clean(s) ==> Clean(r.value.0)
  {
    var j := AfterLastByte(s, ':');
    if j == 0 then None
    else
      assert forall c :: c in s[..j - 1] ==> c in s;
      match ParseInt(s[j..])
      case None => None
      case Some(port) => Some((s[..j - 1], port))
  }

  /** The userinfo is what precedes the first '@'. */
  function ParseAuthority(s: Str): (r: Option<(Str, Str, int)>)
    ensures r.Some? ==> Clean(r.value.0) && Clean(r.value.1)
  {
    var i := IndexByte(s, '@');
    if i == |s| || !Clean(s[..i]) || !Clean(s[i + 1..]) then None
    else
      match ParseHostPort(s[i + 1..])
      case None => None
      case Some((host, port)) => Some((s[..i], host, port))
  }

  function Parse(s: Str): (r: Option<Uri>)
    ensures r.Some? ==> Clean(r.value.userinfo) && Clean(r.value.host)
  {
    var h := IndexByte(s, '#');
    ParseFront(s[..h], if h < |s| then s[h + 1..] else [])
  }

  function ParseFront(front: Str, fragment: Str): (r: Option<Uri>)
    ensures r.Some? ==> Clean(r.value.userinfo) && Clean(r.value.host)
  {
    var q := IndexByte(front, '?');
    var query := if q < |front| then Some(front[q + 1..]) else None;
    match ParseAuthority(front[..q])
    case None => None
    case Some((userinfo, host, port)) =>
      match Unescape(PathSegment, fragment)
      case None => None
      case Some(linkLabel) => Some(Uri(userinfo, host, port, query, linkLabel))
  }

  lemma PortBytes(port: int)
    ensures forall c :: c in "#?/@:\n" ==> c !in PrintInt(port)
  {
    PrintIntRoundTrip(port);
  }

  lemma HostPortClean(host: Str, port: int)
    requires Clean(host)
    ensures Clean(PrintHostPort(host, port))
  {
    PortBytes(port);
  }

  lemma HostPortRoundTrip(host: Str, port: int)
    ensures ParseHostPort(PrintHostPort(host, port)) == Some((host, port))
  {
    PortBytes(port);
    PrintIntRoundTrip(port);
    var s, p := PrintHostPort(host, port), PrintInt(port);
    assert ':' !in p by { assert ':' in "#?/@:\n"; }
    CutAtLast(host, ':', p);
    assert s == host + [':'] + p;
  }

  lemma CutAtLast(a: Str, c: byte, b: Str)
    requires c !in b
    ensures var s := a + [c] + b; AfterLastByte(s, c) == |a| + 1 && s[..|a|] == a && s[|a| + 1..] == b
  {
    AfterLastByteAppend(a, c, b);
  }

  lemma AuthorityRoundTrip(userinfo: Str, host: Str, port: int)
    requires Clean(userinfo) && Clean(host)
    ensures ParseAuthority(PrintAuthority(userinfo, host, port)) == Some((userinfo, host, port))
    ensures '#' !in PrintAuthority(userinfo, host, port) && '?' !in PrintAuthority(userinfo, host, port)
  {
    var hostport := PrintHostPort(host, port);
    HostPortRoundTrip(host, port);
    HostPortClean(host, port);
    var s := PrintAuthority(userinfo, host, port);
    assert s == userinfo + ['@'] + hostport;
    IndexByteAppend(userinfo, '@', hostport);
    assert s[..|userinfo|] == userinfo && s[|userinfo| + 1..] == hostport;
  }

  lemma CutQuery(authority: Str, query: Option<Str>)
    requires '?' !in authority
    ensures var s := WithQuery(authority, query);
            var q := IndexByte(s, '?');
            q == |authority| && s[..q] == authority && (if q < |s| then Some(s[q + 1..]) else None) == query
  {
    var s := WithQuery(authority, query);
    if query.Some? {
      assert s == authority + ['?'] + query.value;
      IndexByteAppend(authority, '?', query.value);
      assert s[|authority| + 1..] == query.value;
    } else {
      assert s == authority;
      IndexByteAbsent(authority, '?');
    }
  }

  lemma CutFragment(front: Str, fragment: Str)
    requires '#' !in front
    ensures var s := WithFragment(front, fragment);
            IndexByte(s, '#') == |front| < |s| && s[..|front|] == front && s[|front| + 1..] == fragment
  {
    var s := WithFragment(front, fragment);
    assert s == front + ['#'] + fragment;
    IndexByteAppend(front, '#', fragment);
  }

  lemma ParseWithQuery(authority: Str, query: Option<Str>, fragment: Str, userinfo: Str, host: Str, port: int, linkLabel: Str)
    requires '?' !in authority && ParseAuthority(authority) == Some((userinfo, host, port))
    requires Unescape(PathSegment, fragment) == Some(linkLabel)
    ensures ParseFront(WithQuery(authority, query), fragment) == Some(Uri(userinfo, host, port, query, linkLabel))
  {
    CutQuery(authority, query);
  }

  lemma FrontRoundTrip(userinfo: Str, host: Str, port: int, query: Option<Str>, linkLabel: Str)
    requires Clean(userinfo) && Clean(host)
    ensures ParseFront(PrintFront(userinfo, host, port, query), Escape(PathSegment, linkLabel)) ==
            Some(Uri(userinfo, host, port, query, linkLabel))
  {
    AuthorityRoundTrip(userinfo, host, port);
    RoundTrip(PathSegment, linkLabel);
    ParseWithQuery(PrintAuthority(userinfo, host, port), query, Escape(PathSegment, linkLabel), userinfo, host, port, linkLabel);
  }

  lemma FrontHasNoFragment(userinfo: Str, host: Str, port: int, query: Option<Str>)
    requires query.Some? ==> '#' !in query.value
    requires Clean(userinfo) && Clean(host)
    ensures '#' !in PrintFront(userinfo, host, port, query)
  {
    AuthorityRoundTrip(userinfo, host, port);
  }

  lemma PrintRoundTrip(userinfo: Str, host: Str, port: int, query: Option<Str>, linkLabel: Str)
    requires query.Some? ==> '#' !in query.value
    requires Clean(userinfo) && Clean(host)
    ensures Parse(Print(userinfo, host, port, query, linkLabel)) == Some(Uri(userinfo, host, port, query, linkLabel))
  {
    FrontRoundTrip(userinfo, host, port, query, linkLabel);
    FrontHasNoFragment(userinfo, host, port, query);
    CutFragment(PrintFront(userinfo, host, port, query), Escape(PathSegment, linkLabel));
  }

  /** A printed URI is read back as its parts exactly when userinfo and host, which are printed
      raw, hold no delimiter; the label can be any byte string. */
  lemma PrintExact(userinfo: Str, host: Str, port: int, query: Option<Str>, linkLabel: Str)
    requires query.Some? ==> '#' !in query.value
    ensures Parse(Print(userinfo, host, port, query, linkLabel)) == Some(Uri(userinfo, host, port, query, linkLabel))
            <==> Clean(userinfo) && Clean(host)
  {
    if Clean(userinfo) && Clean(host) {
      PrintRoundTrip(userinfo, host, port, query, linkLabel);
    }
  }

  lemma OneAt(userinfo: Str, host: Str, userinfo': Str, host': Str)
    requires '@' !in userinfo && '@' !in host
    requires userinfo' + "@" + host' == userinfo + "@" + host
    ensures userinfo' == userinfo && host' == host
  {
    var s := userinfo + ['@'] + host;
    var i := |userinfo'|;
    assert (userinfo' + "@" + host')[i] == '@';
    assert forall k :: 0 <= k < |userinfo| ==> s[k] in userinfo;
    assert forall k :: |userinfo| < k < |s| ==> s[k] in host;
    assert s[..i] == userinfo' && s[i + 1..] == host';
  }

  /** A second userinfo and host around another '@' of the text. */
  lemma OtherAt(userinfo: Str, host: Str) returns (userinfo': Str, host': Str)
    requires '@' in userinfo || '@' in host
    ensures userinfo' != userinfo && userinfo' + "@" + host' == userinfo + "@" + host
  {
    if '@' in userinfo {
      var i := IndexByte(userinfo, '@');
      userinfo', host' := userinfo[..i], userinfo[i + 1..] + "@" + host;
      CutAt(userinfo, i);
    } else {
      var i := IndexByte(host, '@');
      userinfo', host' := userinfo + "@" + host[..i], host[i + 1..];
      CutAt(host, i);
    }
  }

  /** The text itself does not tell which userinfo and host were printed exactly when one of them
      holds an '@': no reader could do better. */
  lemma AmbiguousExactly(userinfo: Str, host: Str, port: int, query: Option<Str>, linkLabel: Str)
    ensures (exists userinfo': Str, host': Str :: (userinfo', host') != (userinfo, host) &&
               Print(userinfo', host', port, query, linkLabel) == Print(userinfo, host, port, query, linkLabel))
            <==> '@' in userinfo || '@' in host
  {
    var tail := PrintTail(port, query, linkLabel);
    PrintIsHeadAndTail(userinfo, host, port, query, linkLabel);
    if '@' in userinfo || '@' in host {
      var userinfo', host' := OtherAt(userinfo, host);
      PrintIsHeadAndTail(userinfo', host', port, query, linkLabel);
    } else {
      forall userinfo': Str, host': Str |
        Print(userinfo', host', port, query, linkLabel) == Print(userinfo, host, port, query, linkLabel)
        ensures (userinfo', host') == (userinfo, host)
      {
        PrintIsHeadAndTail(userinfo', host', port, query, linkLabel);
        CancelTail(userinfo' + "@" + host', userinfo + "@" + host, tail);
        OneAt(userinfo, host, userinfo', host');
      }
    }
  }

  lemma CancelTail(a: Str, b: Str, tail: Str)
    requires a + tail == b + tail
    ensures a == b
  {
    assert |a| == |b|;
    assert (a + tail)[..|a|] == a && (b + tail)[..|b|] == b;
  }

  /** Newlines can only come from the raw parts. */
  lemma PrintNewlines(userinfo: Str, host: Str, port: int, query: Option<Str>, linkLabel: Str)
    requires query.Some? ==> '\n' !in query.value
    ensures '\n' in Print(userinfo, host, port, query, linkLabel) <==> '\n' in userinfo || '\n' in host
  {
    PortBytes(port);
    EscapedBytes(PathSegment, linkLabel);
    assert '\n' in "#?/\n ";
    assert '\n' in "#?/@:\n";
  }

  /** What a printed URI says after its host. */
  function PrintTail(port: int, query: Option<Str>, linkLabel: Str): Str {
    ":" + WithFragment(WithQuery(PrintInt(port), query), Escape(PathSegment, linkLabel))
  }

  lemma PrintIsHeadAndTail(userinfo: Str, host: Str, port: int, query: Option<Str>, linkLabel: Str)
    ensures Print(userinfo, host, port, query, linkLabel) == (userinfo + "@" + host) + PrintTail(port, query, linkLabel)
  {
  }

  lemma CancelHead(head: Str, a: Str, b: Str)
    requires head + a == head + b
    ensures a == b
  {
    assert (head + a)[|head|..] == a && (head + b)[|head|..] == b;
  }

  /** For one userinfo, host and label, clean or not, the port and the query can be told from
      the printed URI. */
  lemma PrintInjective(userinfo: Str, host: Str, p: int, q: Option<Str>, p': int, q': Option<Str>, linkLabel: Str)
    requires q.Some? ==> '#' !in q.value
    requires q'.Some? ==> '#' !in q'.value
    requires Print(userinfo, host, p, q, linkLabel) == Print(userinfo, host, p', q', linkLabel)
    ensures p == p' && q == q'
  {
    PrintIsHeadAndTail(userinfo, host, p, q, linkLabel);
    PrintIsHeadAndTail(userinfo, host, p', q', linkLabel);
    CancelHead(userinfo + "@" + host, PrintTail(p, q, linkLabel), PrintTail(p', q', linkLabel));
    PrintIsHeadAndTail([], [], p, q, linkLabel);
    PrintIsHeadAndTail([], [], p', q', linkLabel);
    PrintExact([], [], p, q, linkLabel);
    PrintExact([], [], p', q', linkLabel);
  }

  // ---- reading from the right ----

  /** What can be read of any printed URI: userinfo and host as one text, port, query and label.
      The label follows the last '#', the port the last ':' before it. */
  function ReadRight(s: Str): Option<(Str, int, Option<Str>, Str)> {
    var h := AfterLastByte(s, '#');
    if h == 0 then None
    else
      match Unescape(PathSegment, s[h..])
      case None => None
      case Some(linkLabel) =>
        match ReadRightFront(s[..h - 1])
        case None => None
        case Some((head, port, query)) => Some((head, port, query, linkLabel))
  }

  function ReadRightFront(front: Str): Option<(Str, int, Option<Str>)> {
    var k := AfterLastByte(front, ':');
    if k == 0 then None
    else
      var rest := front[k..];
      var q := IndexByte(rest, '?');
      match ParseInt(rest[..q])
      case None => None
      case Some(port) => Some((front[..k - 1], port, if q < |rest| then Some(rest[q + 1..]) else None))
  }

  /** What a printed URI says between its host and its label. */
  function PortAndQuery(port: int, query: Option<Str>): Str {
    WithQuery(PrintInt(port), query)
  }

  lemma PortAndQueryBytes(port: int, query: Option<Str>)
    requires query.Some? ==> ':' !in query.value
    ensures ':' !in PortAndQuery(port, query)
  {
    PortBytes(port);
    assert ':' in "#?/@:\n";
  }

  lemma CutPortAndQuery(port: int, query: Option<Str>)
    ensures var s := PortAndQuery(port, query);
            var q := IndexByte(s, '?');
            ParseInt(s[..q]) == Some(port) && (if q < |s| then Some(s[q + 1..]) else None) == query
  {
    PortBytes(port);
    assert '?' in "#?/@:\n";
    CutQuery(PrintInt(port), query);
    PrintIntRoundTrip(port);
  }

  lemma ReadFrontExact(head: Str, port: int, query: Option<Str>)
    requires query.Some? ==> ':' !in query.value
    ensures ReadRightFront(head + [':'] + PortAndQuery(port, query)) == Some((head, port, query))
  {
    PortAndQueryBytes(port, query);
    CutAtLast(head, ':', PortAndQuery(port, query));
    CutPortAndQuery(port, query);
  }

  lemma ReadCut(front: Str, linkLabel: Str, head: Str, port: int, query: Option<Str>)
    requires ReadRightFront(front) == Some((head, port, query))
    ensures ReadRight(WithFragment(front, Escape(PathSegment, linkLabel))) == Some((head, port, query, linkLabel))
  {
    assert WithFragment(front, Escape(PathSegment, linkLabel)) == front + ['#'] + Escape(PathSegment, linkLabel);
    EscapedBytes(PathSegment, linkLabel);
    assert '#' in "#?/\n ";
    CutAtLast(front, '#', Escape(PathSegment, linkLabel));
    RoundTrip(PathSegment, linkLabel);
  }

  lemma FrontFromRight(userinfo: Str, host: Str, port: int, query: Option<Str>)
    ensures PrintFront(userinfo, host, port, query) == (userinfo + "@" + host) + [':'] + PortAndQuery(port, query)
  {
  }

  /** Whatever was printed raw, the text determines the label, the query, the port, and userinfo
      and host as one text. */
  lemma ReadRightExact(userinfo: Str, host: Str, port: int, query: Option<Str>, linkLabel: Str)
    requires query.Some? ==> ':' !in query.value
    ensures ReadRight(Print(userinfo, host, port, query, linkLabel)) == Some((userinfo + "@" + host, port, query, linkLabel))
  {
    var head := userinfo + "@" + host;
    FrontFromRight(userinfo, host, port, query);
    ReadFrontExact(head, port, query);
    ReadCut(PrintFront(userinfo, host, port, query), linkLabel, head, port, query);
  }

  /** Two printed URIs are the same text exactly when they agree on all of that. */
  lemma SamePrintExactly(u: Str, h: Str, p: int, q: Option<Str>, l: Str, u': Str, h': Str, p': int, q': Option<Str>, l': Str)
    requires q.Some? ==> ':' !in q.value
    requires q'.Some? ==> ':' !in q'.value
    ensures Print(u, h, p, q, l) == Print(u', h', p', q', l')
            <==> u + "@" + h == u' + "@" + h' && p == p' && q == q' && l == l'
  {
    ReadRightExact(u, h, p, q, l);
    ReadRightExact(u', h', p', q', l');
    PrintIsHeadAndTail(u, h, p, q, l);
    PrintIsHeadAndTail(u', h', p', q', l');
  }

  /** A userinfo without '@' ends at the first '@'. */
  lemma SplitHead(u: Str, h: Str, u': Str, h': Str)
    requires '@' !in u && '@' !in u' && u + "@" + h == u' + "@" + h'
    ensures u == u' && h == h'
  {
    var s := u + ['@'] + h;
    assert s == u' + ['@'] + h';
    IndexByteAppend(u, '@', h);
    IndexByteAppend(u', '@', h');
    assert s[..|u|] == u && s[..|u'|] == u' && s[|u| + 1..] == h && s[|u'| + 1..] == h';
  }
}
