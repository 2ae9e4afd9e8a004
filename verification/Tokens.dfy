/** Random credentials (internal/security/token.go). The random bytes are a parameter: None is a
    failing reader. */
module Tokens {
  import opened GoStrings
  import opened UrlEscape
  import Base64
  import Uri

  /** rand.Read: fills the buffer, or fails. */
  method ReadRandom(b: array<byte>, random: Option<Str>) returns (ok: bool)
    requires random.Some? ==> |random.value| == b.Length
    modifies b
    ensures ok == random.Some?
    ensures ok ==> b[..] == random.value
  {
    if random.None? {
      return false;
    }
    for i := 0 to b.Length
      invariant b[..i] == random.value[..i]
    {
      b[i] := random.value[i];
    }
    ok := true;
  }

  /** hex.EncodeToString. */
  function Hex(s: Str): Str {
    if s == [] then [] else [LowerHex(s[0] as int / 16), LowerHex(s[0] as int % 16)] + Hex(s[1..])
  }

  function UnHex(s: Str): Option<Str> {
    if s == [] then Some([])
    else if |s| == 1 || HexValue(s[0]) < 0 || HexValue(s[1]) < 0 then None
    else Prepend((HexValue(s[0]) * 16 + HexValue(s[1])) as char, UnHex(s[2..]))
  }

  function Token(random: Str): Str {
    Base64.Encode(Base64.Url, false, random)
  }

  method NewToken(n: nat, random: Option<Str>) returns (token: Option<Str>)
    requires random.Some? ==> |random.value| == n
    ensures token == match random case None => None case Some(bytes) => Some(Token(bytes))
  {
    var b := new byte[n](_ => '\0');
    var ok := ReadRandom(b, random);
    if !ok {
      return None;
    }
    token := Some(Base64.Encode(Base64.Url, false, b[..]));
  }

  method NewPassword(n: nat, random: Option<Str>) returns (password: Option<Str>)
    requires random.Some? ==> |random.value| == n
    ensures password == match random case None => None case Some(bytes) => Some(Hex(bytes))
  {
    var b := new byte[n](_ => '\0');
    var ok := ReadRandom(b, random);
    if !ok {
      return None;
    }
    password := Some(Hex(b[..]));
  }

  /** No entropy is lost: different random bytes give different tokens, and a token of n bytes
      is as long as n bytes need. */
  lemma TokenInjective(a: Str, b: Str)
    ensures Token(a) == Token(b) <==> a == b
    ensures |Token(a)| == (|a| * 4 + 2) / 3
  {
    Base64.RoundTrip(Base64.Url, false, a);
    Base64.RoundTrip(Base64.Url, false, b);
    Base64.EncodeLength(Base64.Url, false, a);
  }

  /** A token can stand in a URL path as it is. */
  lemma TokenUrlSafe(random: Str)
    ensures Escape(PathSegment, Token(random)) == Token(random)
    ensures '/' !in Token(random)
  {
    Base64.EncodeSymbols(Base64.Url, false, random);
    EscapeIdentity(PathSegment, Token(random));
  }

  lemma {:induction false} HexRoundTrip(s: Str)
    ensures UnHex(Hex(s)) == Some(s)
    ensures |Hex(s)| == 2 * |s|
    ensures forall c :: c in Hex(s) ==> Alphanumeric(c)
  {
    if s != [] {
      HexRoundTrip(s[1..]);
      assert Hex(s)[2..] == Hex(s[1..]);
      assert s == [s[0]] + s[1..];
    }
  }

  /** A generated password needs no escaping: it is printed as it is in a query component and in
      a path segment, so a client that decodes either way reads the same password. */
  lemma PasswordEscapesToItself(random: Str, mode: Mode)
    ensures Escape(mode, Hex(random)) == Hex(random)
    ensures Unescape(mode, Hex(random)) == Some(Hex(random))
  {
    HexRoundTrip(random);
    EscapeIdentity(mode, Hex(random));
    RoundTrip(mode, Hex(random));
  }

  /** The form of a printed UUID: hexadecimal digits and '-'. */
  predicate UuidText(s: Str) {
    forall c :: c in s ==> HexValue(c) >= 0 || c == '-'
  }

  /** Generated identifiers satisfy every condition a link puts on its raw parts. */
  lemma UuidFits(s: Str)
    requires UuidText(s)
    ensures Uri.Clean(s) && ':' !in s && '\n' !in s
  {
  }

  /** Hexadecimal notation, by example. */
  lemma HexVector()
    ensures Hex([0x00 as char, 0x9A as char, 0xFB as char]) == "009afb"
  {
    assert Hex([0xFB as char]) == "fb";
    assert Hex([0x9A as char, 0xFB as char]) == "9afb";
  }
}
