/** json.Marshal of a string-to-string map (section 7 of RFC 8259, with the HTML-safe escapes of
    package encoding/json), and a reader for the result. */
module Json {
  import opened GoStrings
  import opened SortedKeys

  predicate Continuation(c: byte) {
    0x80 <= c as int < 0xC0
  }

  /** The bounds on the second byte of a rune of three or four bytes (section 4 of RFC 3629). */
  predicate SecondByte(b0: byte, b1: byte) {
    match b0 as int
    case 0xE0 => 0xA0 <= b1 as int < 0xC0
    case 0xED => 0x80 <= b1 as int < 0xA0
    case 0xF0 => 0x90 <= b1 as int < 0xC0
    case 0xF4 => 0x80 <= b1 as int < 0x90
    case _ => Continuation(b1)
  }

  /** The length of the UTF-8 rune s starts with; 0 if its first byte starts none. */
  function RuneLen(s: Str): (n: nat)
    requires s != []
    ensures n <= 4 && n <= |s|
  {
    var b0 := s[0] as int;
    if b0 < 0x80 then 1
    else if 0xC2 <= b0 <= 0xDF && |s| >= 2 && Continuation(s[1]) then 2
    else if 0xE0 <= b0 <= 0xEF && |s| >= 3 && SecondByte(s[0], s[1]) && Continuation(s[2]) then 3
    else if 0xF0 <= b0 <= 0xF4 && |s| >= 4 && SecondByte(s[0], s[1]) && Continuation(s[2]) && Continuation(s[3]) then 4
    else 0
  }

  predicate ValidUtf8(s: Str)
    decreases |s|
  {
    s == [] || (RuneLen(s) > 0 && ValidUtf8(s[RuneLen(s)..]))
  }

  const REPLACEMENT: Str := [0xEF as char, 0xBF as char, 0xBD as char]

  /** How many bytes are read together: a rune, or one byte that starts none. */
  function HeadLen(s: Str): (n: nat)
    requires s != []
    ensures 0 < n <= |s|
  {
    if RuneLen(s) == 0 then 1 else RuneLen(s)
  }

  function HeadValue(s: Str): Str
    requires s != []
  {
    if RuneLen(s) == 0 then REPLACEMENT else s[..RuneLen(s)]
  }

  /** s with U+FFFD for every byte that starts no rune. */
  function Coerce(s: Str): Str
    decreases |s|
  {
    if s == [] then [] else HeadValue(s) + Coerce(s[HeadLen(s)..])
  }

  /** Coercion is the identity on valid UTF-8 and on nothing else. */
  lemma {:induction false} CoerceIdentity(s: Str)
    ensures Coerce(s) == s <==> ValidUtf8(s)
    decreases |s|
  {
    if s != [] {
      var n := RuneLen(s);
      if n > 0 {
        CoerceIdentity(s[n..]);
        assert s == s[..n] + s[n..];
        assert Coerce(s)[n..] == Coerce(s[n..]);
      } else {
        assert Coerce(s)[0] == REPLACEMENT[0] && Coerce(s)[1] == REPLACEMENT[1] && Coerce(s)[2] == REPLACEMENT[2];
      }
    }
  }

  function QuoteAscii(c: byte): Str
    requires c as int < 0x80
  {
    if c == '\\' || c == '"' then ['\\', c]
    else if c as int == 8 then "\\b"
    else if c as int == 12 then "\\f"
    else if c == '\n' then "\\n"
    else if c == '\r' then "\\r"
    else if c == '\t' then "\\t"
    else if c as int < 0x20 || c in "<>&" then "\\u00" + [LowerHex(c as int / 16), LowerHex(c as int % 16)]
    else [c]
  }

  /** U+2028 and U+2029. */
  predicate LineSeparator(rune: Str) {
    |rune| == 3 && rune[0] as int == 0xE2 && rune[1] as int == 0x80 && 0xA8 <= rune[2] as int <= 0xA9
  }

  function QuoteRune(rune: Str): Str
    requires rune != [] && RuneLen(rune) == |rune|
  {
    if |rune| == 1 then QuoteAscii(rune[0])
    else if LineSeparator(rune) then "\\u202" + [LowerHex(rune[2] as int % 16)]
    else rune
  }

  lemma RuneLenPrefix(s: Str, more: Str)
    requires s != [] && RuneLen(s) > 0
    ensures RuneLen(s[..RuneLen(s)]) == RuneLen(s)
    ensures RuneLen(s[..RuneLen(s)] + more) == RuneLen(s)
  {
  }

  function QuoteHead(s: Str): Str
    requires s != []
  {
    if RuneLen(s) == 0 then "\\ufffd"
    else
      RuneLenPrefix(s, []);
      QuoteRune(s[..RuneLen(s)])
  }

  function QuoteBody(s: Str): Str
    decreases |s|
  {
    if s == [] then [] else QuoteHead(s) + QuoteBody(s[HeadLen(s)..])
  }

  function Quote(s: Str): Str {
    "\"" + QuoteBody(s) + "\""
  }

  /** The UTF-8 form of a code point below U+10000 that is no surrogate. */
  function Utf8(cp: nat): Option<Str>
    requires cp < 0x10000
  {
    if cp < 0x80 then Some([cp as char])
    else if cp < 0x800 then Some([(0xC0 + cp / 64) as char, (0x80 + cp % 64) as char])
    else if 0xD800 <= cp < 0xE000 then None
    else Some([(0xE0 + cp / 4096) as char, (0x80 + cp / 64 % 64) as char, (0x80 + cp % 64) as char])
  }

  /** What a reader takes from the front of a string body: the bytes and how much they took. */
  datatype Chunk = Bad | End | Chunk(bytes: Str, taken: nat)

  function ReadChunk(s: Str): (c: Chunk)
    ensures c.Chunk? ==> 0 < c.taken <= |s|
    ensures c.End? ==> s != []
  {
    if s == [] then Bad
    else if s[0] == '"' then End
    else if s[0] == '\\' then
      if |s| < 2 then Bad
      else if s[1] in "\"\\/" then Chunk([s[1]], 2)
      else if s[1] == 'b' then Chunk([8 as char], 2)
      else if s[1] == 'f' then Chunk([12 as char], 2)
      else if s[1] == 'n' then Chunk("\n", 2)
      else if s[1] == 'r' then Chunk("\r", 2)
      else if s[1] == 't' then Chunk("\t", 2)
      else if s[1] == 'u' && |s| >= 6 then ReadHex(s)
      else Bad
    else if s[0] as int < 0x20 || RuneLen(s) == 0 then Bad
    else Chunk(s[..RuneLen(s)], RuneLen(s))
  }

  function ReadHex(s: Str): (c: Chunk)
    requires |s| >= 6
    ensures c.Bad? || (c.Chunk? && c.taken == 6)
  {
    var h0, h1, h2, h3 := HexValue(s[2]), HexValue(s[3]), HexValue(s[4]), HexValue(s[5]);
    if h0 < 0 || h1 < 0 || h2 < 0 || h3 < 0 then Bad
    else
      match Utf8(h0 * 4096 + h1 * 256 + h2 * 16 + h3)
      case None => Bad
      case Some(bytes) => Chunk(bytes, 6)
  }

  /** The text of a string body up to its closing quote, and what follows the quote. */
  function ReadBody(s: Str): (r: Option<(Str, Str)>)
    ensures r.Some? ==> |r.value.1| < |s|
    decreases |s|
  {
    match ReadChunk(s)
    case Bad => None
    case End => Some(([], s[1..]))
    case Chunk(bytes, n) =>
      match ReadBody(s[n..])
      case None => None
      case Some((text, rest)) => Some((bytes + text, rest))
  }

  function ReadString(s: Str): (r: Option<(Str, Str)>)
    ensures r.Some? ==> |r.value.1| < |s|
  {
    if s == [] || s[0] != '"' then None else ReadBody(s[1..])
  }

  lemma ReadQuotedAscii(c: byte, more: Str)
    requires c as int < 0x80
    ensures ReadChunk(QuoteAscii(c) + more) == Chunk([c], |QuoteAscii(c)|)
  {
  }

  lemma ReadQuotedRune(rune: Str, more: Str)
    requires rune != [] && RuneLen(rune) == |rune|
    ensures ReadChunk(QuoteRune(rune) + more) == Chunk(rune, |QuoteRune(rune)|)
  {
    var s := QuoteRune(rune) + more;
    if |rune| == 1 {
      ReadQuotedAscii(rune[0], more);
      assert rune == [rune[0]];
    } else if LineSeparator(rune) {
      assert ReadHex(s) == Chunk(rune, 6);
    } else {
      assert rune[..|rune|] == rune;
      RuneLenPrefix(rune, more);
      assert s[..|rune|] == rune;
    }
  }

  lemma ReadHead(s: Str, more: Str)
    requires s != []
    ensures ReadChunk(QuoteHead(s) + more) == Chunk(HeadValue(s), |QuoteHead(s)|)
  {
    if RuneLen(s) > 0 {
      RuneLenPrefix(s, []);
      ReadQuotedRune(s[..RuneLen(s)], more);
    }
  }

  lemma ReadStep(q: Str, more: Str, bytes: Str, text: Str, rest: Str)
    requires ReadChunk(q + more) == Chunk(bytes, |q|) && ReadBody(more) == Some((text, rest))
    ensures ReadBody(q + more) == Some((bytes + text, rest))
  {
    assert (q + more)[|q|..] == more;
  }

  lemma ReadHeadThen(s: Str, body: Str, tail: Str, text: Str, rest: Str)
    requires s != [] && ReadBody(body + tail) == Some((text, rest))
    ensures ReadBody(QuoteHead(s) + body + tail) == Some((HeadValue(s) + text, rest))
  {
    ReadHead(s, body + tail);
    ReadStep(QuoteHead(s), body + tail, HeadValue(s), text, rest);
    ConcatAssoc(QuoteHead(s), body, tail);
  }

  /** Reading a printed string gives the string back with its invalid bytes replaced. */
  lemma {:induction false} BodyRoundTrip(s: Str, tail: Str)
    requires tail != [] && tail[0] == '"'
    ensures ReadBody(QuoteBody(s) + tail) == Some((Coerce(s), tail[1..]))
    decreases |s|
  {
    if s == [] {
      assert QuoteBody(s) + tail == tail;
    } else {
      var s' := s[HeadLen(s)..];
      BodyRoundTrip(s', tail);
      ReadHeadThen(s, QuoteBody(s'), tail, Coerce(s'), tail[1..]);
    }
  }

  lemma ReadQuoted(body: Str, rest: Str)
    ensures ReadString("\"" + body + "\"" + rest) == ReadBody(body + (['"'] + rest))
  {
    var s := "\"" + body + "\"" + rest;
    assert s == ['"'] + (body + (['"'] + rest));
    assert s[1..] == body + (['"'] + rest);
  }

  lemma StringRoundTrip(s: Str, rest: Str)
    ensures ReadString(Quote(s) + rest) == Some((Coerce(s), rest))
  {
    ReadQuoted(QuoteBody(s), rest);
    BodyRoundTrip(s, ['"'] + rest);
    assert (['"'] + rest)[1..] == rest;
  }

  function PrintMember(k: Str, v: Str): Str {
    Quote(k) + ":" + Quote(v)
  }

  function PrintMembers(ks: seq<Str>, m: map<Str, Str>): Str
    requires ks != [] && forall k :: k in ks ==> k in m
  {
    if |ks| == 1 then PrintMember(ks[0], m[ks[0]])
    else PrintMember(ks[0], m[ks[0]]) + "," + PrintMembers(ks[1..], m)
  }

  /** json.Marshal of a map whose values are all strings. */
  function Marshal(m: map<Str, Str>): Str {
    if m == map[] then "{}" else "{" + PrintMembers(Sorted(m.Keys), m) + "}"
  }

  /** The members up to the closing brace, which must end the text. Of a repeated key the last
      value counts, as for json.Unmarshal. */
  function ReadMembers(s: Str): Option<map<Str, Str>>
    decreases |s|
  {
    match ReadString(s)
    case None => None
    case Some((k, s1)) =>
      if s1 == [] || s1[0] != ':' then None
      else
        match ReadString(s1[1..])
        case None => None
        case Some((v, s2)) =>
          if s2 == "}" then Some(map[k := v])
          else if s2 == [] || s2[0] != ',' then None
          else
            match ReadMembers(s2[1..])
            case None => None
            case Some(rest) => Some(map[k := v] + rest)
  }

  function Unmarshal(s: Str): Option<map<Str, Str>> {
    if s == "{}" then Some(map[])
    else if s == [] || s[0] != '{' then None
    else ReadMembers(s[1..])
  }

  lemma ReadMember(s: Str, k: Str, s1: Str, v: Str, s2: Str)
    requires ReadString(s) == Some((k, [':'] + s1)) && ReadString(s1) == Some((v, s2))
    ensures s2 == "}" ==> ReadMembers(s) == Some(map[k := v])
    ensures s2 != [] && s2[0] == ',' ==>
              ReadMembers(s) == match ReadMembers(s2[1..])
                                case None => None
                                case Some(rest) => Some(map[k := v] + rest)
  {
    assert ([':'] + s1)[1..] == s1;
  }

  lemma ReadPrintedMember(k: Str, v: Str, s2: Str)
    requires ValidUtf8(k)
    ensures ReadString(PrintMember(k, v) + s2) == Some((k, [':'] + (Quote(v) + s2)))
    ensures ReadString(Quote(v) + s2) == Some((Coerce(v), s2))
  {
    CoerceIdentity(k);
    StringRoundTrip(k, [':'] + (Quote(v) + s2));
    StringRoundTrip(v, s2);
    Regroup(Quote(k), Quote(v), s2);
  }

  lemma Regroup(a: Str, b: Str, c: Str)
    ensures a + ":" + b + c == a + ([':'] + (b + c))
  {
  }

  lemma RegroupMembers(a: Str, b: Str)
    ensures a + "," + b + "}" == a + ([','] + (b + "}"))
    ensures ([','] + (b + "}"))[1..] == b + "}"
  {
  }

  lemma ReadLastMember(k: Str, v: Str)
    requires ValidUtf8(k)
    ensures ReadMembers(PrintMember(k, v) + "}") == Some(map[k := Coerce(v)])
  {
    ReadPrintedMember(k, v, "}");
    ReadMember(PrintMember(k, v) + "}", k, Quote(v) + "}", Coerce(v), "}");
  }

  lemma ReadNextMember(k: Str, v: Str, more: Str, rest: map<Str, Str>)
    requires ValidUtf8(k)
    requires ReadMembers(more + "}") == Some(rest)
    ensures ReadMembers(PrintMember(k, v) + "," + more + "}") == Some(map[k := Coerce(v)] + rest)
  {
    var s2 := [','] + (more + "}");
    RegroupMembers(PrintMember(k, v), more);
    ReadPrintedMember(k, v, s2);
    ReadMember(PrintMember(k, v) + s2, k, Quote(v) + s2, Coerce(v), s2);
  }

  function CoercedEntries(ks: seq<Str>, m: map<Str, Str>): map<Str, Str>
    requires forall k :: k in ks ==> k in m
  {
    map k | k in ks :: Coerce(m[k])
  }

  lemma CoercedFirst(ks: seq<Str>, m: map<Str, Str>)
    requires ks != [] && forall k :: k in ks ==> k in m
    ensures CoercedEntries(ks, m) == map[ks[0] := Coerce(m[ks[0]])] + CoercedEntries(ks[1..], m)
    ensures |ks| == 1 ==> CoercedEntries(ks, m) == map[ks[0] := Coerce(m[ks[0]])]
  {
    assert ks == [ks[0]] + ks[1..];
  }

  lemma {:induction false} MembersRoundTrip(ks: seq<Str>, m: map<Str, Str>)
    requires ks != [] && forall k :: k in ks ==> k in m && ValidUtf8(k)
    ensures ReadMembers(PrintMembers(ks, m) + "}") == Some(CoercedEntries(ks, m))
  {
    CoercedFirst(ks, m);
    if |ks| == 1 {
      ReadLastMember(ks[0], m[ks[0]]);
    } else {
      MembersRoundTrip(ks[1..], m);
      ReadNextMember(ks[0], m[ks[0]], PrintMembers(ks[1..], m), CoercedEntries(ks[1..], m));
    }
  }

  lemma UnmarshalBraces(body: Str)
    requires body != []
    ensures Unmarshal("{" + body + "}") == ReadMembers(body + "}")
  {
    var s := "{" + body + "}";
    assert s[1..] == body + "}";
    assert |s| > 2;
  }

  function Coerced(m: map<Str, Str>): map<Str, Str> {
    map k | k in m :: Coerce(m[k])
  }

  lemma SortedEntries(m: map<Str, Str>)
    ensures CoercedEntries(Sorted(m.Keys), m) == Coerced(m)
  {
  }

  /** Reading a printed object gives every entry back, its value coerced to valid UTF-8. */
  lemma RoundTrip(m: map<Str, Str>)
    requires forall k :: k in m ==> ValidUtf8(k)
    ensures Unmarshal(Marshal(m)) == Some(Coerced(m))
  {
    SortedEntries(m);
    if m != map[] {
      var ks := Sorted(m.Keys);
      MembersRoundTrip(ks, m);
      UnmarshalBraces(PrintMembers(ks, m));
    }
  }

  lemma {:induction false} AsciiIsUtf8(s: Str)
    requires forall c :: c in s ==> c as int < 0x80
    ensures ValidUtf8(s)
  {
    if s != [] {
      assert forall i :: 0 <= i < |s| ==> s[i] in s;
      AsciiIsUtf8(s[1..]);
    }
  }

  // ---- when two printed objects are the same text ----

  /** s with 0xFF, which starts no rune, for every byte that starts none. */
  function Blur(s: Str): Str
    decreases |s|
  {
    if s == [] then [] else BlurHead(s) + Blur(s[HeadLen(s)..])
  }

  function BlurHead(s: Str): Str
    requires s != []
  {
    if RuneLen(s) == 0 then [0xFF as char] else s[..RuneLen(s)]
  }

  lemma BlurredHead(s: Str, more: Str)
    requires s != []
    ensures var t := BlurHead(s) + more;
            QuoteHead(t) == QuoteHead(s) && HeadLen(t) == |BlurHead(s)|
  {
    if RuneLen(s) > 0 {
      RuneLenPrefix(s, more);
      assert (s[..RuneLen(s)] + more)[..RuneLen(s)] == s[..RuneLen(s)];
    }
  }

  lemma {:induction false} QuoteBlur(s: Str)
    ensures QuoteBody(Blur(s)) == QuoteBody(s)
    decreases |s|
  {
    if s != [] {
      var rest := Blur(s[HeadLen(s)..]);
      BlurredHead(s, rest);
      QuoteBlur(s[HeadLen(s)..]);
      assert (BlurHead(s) + rest)[|BlurHead(s)|..] == rest;
    }
  }

  /** Printed heads are told apart by what follows no less than by themselves. */
  lemma SameHeads(s: Str, t: Str, more: Str, more': Str)
    requires s != [] && t != [] && QuoteHead(s) + more == QuoteHead(t) + more'
    ensures BlurHead(s) == BlurHead(t) && more == more'
  {
    ReadHead(s, more);
    ReadHead(t, more');
    var q, q' := QuoteHead(s) + more, QuoteHead(t) + more';
    assert q[..|QuoteHead(s)|] == QuoteHead(s) && q'[..|QuoteHead(t)|] == QuoteHead(t);
    assert q[|QuoteHead(s)|..] == more && q'[|QuoteHead(t)|..] == more';
    if RuneLen(s) == 0 && RuneLen(t) > 0 {
      RawReplacement(t);
    }
    if RuneLen(t) == 0 && RuneLen(s) > 0 {
      RawReplacement(s);
    }
  }

  /** U+FFFD itself is printed as it is. */
  lemma RawReplacement(s: Str)
    requires s != [] && RuneLen(s) > 0
    ensures s[..RuneLen(s)] == REPLACEMENT ==> QuoteHead(s) == REPLACEMENT
  {
  }

  lemma HeadPrinted(s: Str)
    requires s != []
    ensures QuoteHead(s) != []
  {
  }

  lemma {:induction false} SameBodies(s: Str, t: Str)
    requires QuoteBody(s) == QuoteBody(t)
    ensures Blur(s) == Blur(t)
    decreases |s|
  {
    if s != [] {
      HeadPrinted(s);
    }
    if t != [] {
      HeadPrinted(t);
    }
    if s != [] && t != [] {
      SameHeads(s, t, QuoteBody(s[HeadLen(s)..]), QuoteBody(t[HeadLen(t)..]));
      SameBodies(s[HeadLen(s)..], t[HeadLen(t)..]);
    }
  }

  /** Two strings are printed alike exactly when they differ in bytes that start no rune only. */
  lemma SameQuoteExactly(s: Str, t: Str)
    ensures Quote(s) == Quote(t) <==> Blur(s) == Blur(t)
  {
    QuoteBlur(s);
    QuoteBlur(t);
    if Quote(s) == Quote(t) {
      assert Quote(s)[1..|Quote(s)| - 1] == QuoteBody(s) && Quote(t)[1..|Quote(t)| - 1] == QuoteBody(t);
      SameBodies(s, t);
    }
  }

  lemma SameStrings(v: Str, rest: Str, v': Str, rest': Str)
    requires Quote(v) + rest == Quote(v') + rest'
    ensures Quote(v) == Quote(v') && rest == rest'
  {
    StringRoundTrip(v, rest);
    StringRoundTrip(v', rest');
    var s, s' := Quote(v) + rest, Quote(v') + rest';
    assert |Quote(v)| == |Quote(v')|;
    assert s[..|Quote(v)|] == Quote(v) && s'[..|Quote(v')|] == Quote(v');
  }

  lemma MemberHead(k: Str, v: Str, rest: Str)
    ensures PrintMember(k, v) + rest == (Quote(k) + [':']) + (Quote(v) + rest)
  {
  }

  lemma SameTails(head: Str, a: Str, b: Str)
    requires head + a == head + b
    ensures a == b
  {
    assert (head + a)[|head|..] == a && (head + b)[|head|..] == b;
  }

  lemma SameMember(k: Str, v: Str, rest: Str, v': Str, rest': Str)
    requires PrintMember(k, v) + rest == PrintMember(k, v') + rest'
    ensures Quote(v) == Quote(v') && rest == rest'
  {
    MemberHead(k, v, rest);
    MemberHead(k, v', rest');
    SameTails(Quote(k) + [':'], Quote(v) + rest, Quote(v') + rest');
    SameStrings(v, rest, v', rest');
  }

  lemma NextMembers(k: Str, v: Str, more: Str)
    ensures PrintMember(k, v) + "," + more == PrintMember(k, v) + ([','] + more)
    ensures ([','] + more)[1..] == more
  {
  }

  lemma SameFirst(k: Str, v: Str, more: Str, v': Str, more': Str)
    requires PrintMember(k, v) + "," + more == PrintMember(k, v') + "," + more'
    ensures Quote(v) == Quote(v') && more == more'
  {
    NextMembers(k, v, more);
    NextMembers(k, v', more');
    SameMember(k, v, [','] + more, v', [','] + more');
  }

  lemma SameLast(k: Str, v: Str, v': Str)
    requires PrintMember(k, v) == PrintMember(k, v')
    ensures Quote(v) == Quote(v')
  {
    assert PrintMember(k, v) + [] == PrintMember(k, v') + [];
    SameMember(k, v, [], v', []);
  }

  lemma {:induction false} SameMembers(ks: seq<Str>, m: map<Str, Str>, m': map<Str, Str>)
    requires ks != [] && forall k :: k in ks ==> k in m && k in m'
    requires PrintMembers(ks, m) == PrintMembers(ks, m')
    ensures forall k :: k in ks ==> Quote(m[k]) == Quote(m'[k])
  {
    if |ks| == 1 {
      SameLast(ks[0], m[ks[0]], m'[ks[0]]);
    } else {
      SameFirst(ks[0], m[ks[0]], PrintMembers(ks[1..], m), m'[ks[0]], PrintMembers(ks[1..], m'));
      SameMembers(ks[1..], m, m');
    }
    assert forall x :: x in ks ==> x == ks[0] || x in ks[1..];
  }

  lemma {:induction false} AlikeMembers(ks: seq<Str>, m: map<Str, Str>, m': map<Str, Str>)
    requires ks != [] && forall k :: k in ks ==> k in m && k in m' && Quote(m[k]) == Quote(m'[k])
    ensures PrintMembers(ks, m) == PrintMembers(ks, m')
  {
    if |ks| > 1 {
      AlikeMembers(ks[1..], m, m');
    }
  }

  function Blurred(m: map<Str, Str>): map<Str, Str> {
    map k | k in m :: Blur(m[k])
  }

  lemma BlurredExactly(m: map<Str, Str>, m': map<Str, Str>)
    requires m.Keys == m'.Keys
    ensures Blurred(m) == Blurred(m') <==> forall k :: k in m ==> Quote(m[k]) == Quote(m'[k])
  {
    forall k | k in m ensures Quote(m[k]) == Quote(m'[k]) <==> Blurred(m)[k] == Blurred(m')[k] {
      SameQuoteExactly(m[k], m'[k]);
    }
  }

  lemma MembersExactly(ks: seq<Str>, m: map<Str, Str>, m': map<Str, Str>)
    requires ks != [] && forall k :: k in ks ==> k in m && k in m'
    ensures PrintMembers(ks, m) == PrintMembers(ks, m') <==> forall k :: k in ks ==> Quote(m[k]) == Quote(m'[k])
  {
    if PrintMembers(ks, m) == PrintMembers(ks, m') {
      SameMembers(ks, m, m');
    }
    if forall k :: k in ks ==> Quote(m[k]) == Quote(m'[k]) {
      AlikeMembers(ks, m, m');
    }
  }

  /** Two objects of the same keys are the same text exactly when their values differ in bytes that
      start no rune only. */
  lemma SameMarshalExactly(m: map<Str, Str>, m': map<Str, Str>)
    requires m.Keys == m'.Keys
    ensures Marshal(m) == Marshal(m') <==> Blurred(m) == Blurred(m')
  {
    var ks := Sorted(m.Keys);
    BlurredExactly(m, m');
    if ks == [] {
      assert m == map[] && m' == map[];
    } else {
      assert m != map[] && m' != map[];
      MembersExactly(ks, m, m');
      if Marshal(m) == Marshal(m') {
        SameBraces(PrintMembers(ks, m), PrintMembers(ks, m'));
      }
    }
  }

  lemma SameBraces(a: Str, b: Str)
    requires "{" + a + "}" == "{" + b + "}"
    ensures a == b
  {
    assert ("{" + a + "}")[1..1 + |a|] == a && ("{" + b + "}")[1..1 + |b|] == b;
  }

  /** How single ASCII bytes are printed inside a string. */
  lemma QuotedAscii(c: byte)
    requires c as int < 0x80
    ensures QuoteBody([c]) ==
            if c == '"' then "\\\"" else if c == '\\' then "\\\\"
            else if c as int == 8 then "\\b" else if c as int == 9 then "\\t" else if c as int == 10 then "\\n"
            else if c as int == 12 then "\\f" else if c as int == 13 then "\\r"
            else if c as int < 32 || c == '<' || c == '>' || c == '&' then "\\u00" + [LowerHex(c as int / 16), LowerHex(c as int % 16)]
            else [c]
  {
    assert [c][..1] == [c] && [c][1..] == [];
    assert RuneLen([c]) == 1;
    assert QuoteBody([c]) == QuoteAscii(c) + [];
  }

  /** A member: key and value, both in quotes, with a colon between. */
  lemma MemberText(k: Str, v: Str)
    ensures PrintMember(k, v) == ['"'] + QuoteBody(k) + ['"', ':', '"'] + QuoteBody(v) + ['"']
  {
  }

  /** An object: braces around its members, a comma between any two, in the order of the keys. */
  lemma ObjectText(ks: seq<Str>, m: map<Str, Str>)
    requires StrictlySorted(ks) && forall k :: k in ks <==> k in m
    ensures ks == [] ==> Marshal(m) == ['{', '}']
    ensures ks != [] ==> Marshal(m) == ['{'] + PrintMembers(ks, m) + ['}']
  {
    SortedUnique(m.Keys, ks);
    if ks == [] {
      assert m == map[];
    } else {
      assert ks[0] in m;
    }
  }

  lemma MembersText(first: Str, rest: seq<Str>, m: map<Str, Str>)
    requires first in m && forall k :: k in rest ==> k in m
    ensures PrintMembers([first] + rest, m) ==
            if rest == [] then PrintMember(first, m[first]) else PrintMember(first, m[first]) + [','] + PrintMembers(rest, m)
  {
    assert ([first] + rest)[1..] == rest;
  }

  /** A byte beyond ASCII that starts no rune is printed as an escaped U+FFFD. */
  lemma QuotedInvalid(s: Str)
    requires s != [] && RuneLen(s) == 0
    ensures QuoteBody(s) == ['\\', 'u', 'f', 'f', 'f', 'd'] + QuoteBody(s[1..])
  {
  }

  lemma QuoteOneRune(rune: Str)
    requires rune != [] && RuneLen(rune) == |rune|
    ensures QuoteBody(rune) == QuoteRune(rune)
  {
    assert rune[..|rune|] == rune && rune[|rune|..] == [];
    assert QuoteBody(rune) == QuoteRune(rune) + [];
  }

  const SEPARATOR: Str := "\\u202"

  lemma SeparatorQuoted(rune: Str)
    requires LineSeparator(rune) && RuneLen(rune) == 3
    ensures QuoteRune(rune) == SEPARATOR + [if rune[2] as int == 0xA8 then '8' else '9']
  {
  }

  /** A rune of more bytes is printed as it is, but for U+2028 and U+2029. */
  lemma QuotedRune(rune: Str)
    requires |rune| > 1 && RuneLen(rune) == |rune|
    ensures var separator := |rune| == 3 && rune[0] as int == 0xE2 && rune[1] as int == 0x80;
            && (separator && rune[2] as int == 0xA8 ==> QuoteBody(rune) == SEPARATOR + ['8'])
            && (separator && rune[2] as int == 0xA9 ==> QuoteBody(rune) == SEPARATOR + ['9'])
            && (!(separator && 0xA8 <= rune[2] as int <= 0xA9) ==> QuoteBody(rune) == rune)
  {
    QuoteOneRune(rune);
    if LineSeparator(rune) {
      SeparatorQuoted(rune);
    }
  }

  function Payload(c: byte): int {
    c as int - 0x80
  }

  /** The runes of UTF-8 (section 3 of RFC 3629) by the code points they stand for: the shortest form, no
      surrogates, nothing beyond U+10FFFF. */
  lemma RunesExactly(s: Str)
    requires s != []
    ensures RuneLen(s) == 1 <==> s[0] as int < 0x80
    ensures RuneLen(s) == 2 <==> |s| >= 2 && 0xC0 <= s[0] as int < 0xE0 && Continuation(s[1])
                                 && (s[0] as int - 0xC0) * 64 + Payload(s[1]) >= 0x80
    ensures RuneLen(s) == 3 <==> |s| >= 3 && 0xE0 <= s[0] as int < 0xF0 && Continuation(s[1]) && Continuation(s[2])
                                 && var cp := (s[0] as int - 0xE0) * 4096 + Payload(s[1]) * 64 + Payload(s[2]);
                                    cp >= 0x800 && !(0xD800 <= cp < 0xE000)
    ensures RuneLen(s) == 4 <==> |s| >= 4 && 0xF0 <= s[0] as int < 0xF8 && Continuation(s[1]) && Continuation(s[2]) && Continuation(s[3])
                                 && var cp := (s[0] as int - 0xF0) * 262144 + Payload(s[1]) * 4096 + Payload(s[2]) * 64 + Payload(s[3]);
                                    0x10000 <= cp <= 0x10FFFF
  {
  }
}
