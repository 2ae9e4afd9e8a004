/** url.QueryEscape, url.PathEscape and their inverses (section 2.1 of RFC 3986, with the
    '+'-for-space form of the query component). */
module UrlEscape {
  import opened GoStrings

  datatype Mode = QueryComponent | PathSegment

  predicate Alphanumeric(c: byte) {
    'a' <= c <= 'z' || 'A' <= c <= 'Z' || '0' <= c <= '9'
  }

  predicate ShouldEscape(mode: Mode, c: byte) {
    if Alphanumeric(c) || c in "-_.~" then false
    else if c in "$&+:=@" then mode.QueryComponent?
    else true
  }

  function UpperHex(v: nat): byte
    requires v < 16
  {
    if v < 10 then ('0' as int + v) as char else ('A' as int + v - 10) as char
  }

  function EscapeByte(mode: Mode, c: byte): Str {
    if mode.QueryComponent? && c == ' ' then "+"
    else if ShouldEscape(mode, c) then ['%', UpperHex(c as int / 16), UpperHex(c as int % 16)]
    else [c]
  }

  function Escape(mode: Mode, s: Str): Str {
    if s == [] then [] else EscapeByte(mode, s[0]) + Escape(mode, s[1..])
  }

  function Unescape(mode: Mode, s: Str): Option<Str>
    decreases |s|
  {
    if s == [] then Some([])
    else if s[0] == '%' then
      if |s| < 3 || HexValue(s[1]) < 0 || HexValue(s[2]) < 0 then None
      else Prepend((HexValue(s[1]) * 16 + HexValue(s[2])) as char, Unescape(mode, s[3..]))
    else if mode.QueryComponent? && s[0] == '+' then Prepend(' ', Unescape(mode, s[1..]))
    else Prepend(s[0], Unescape(mode, s[1..]))
  }

  function Prepend(c: byte, rest: Option<Str>): Option<Str> {
    match rest
    case None => None
    case Some(s) => Some([c] + s)
  }

  /** What can appear in escaped text. */
  predicate Printed(mode: Mode, c: byte) {
    !ShouldEscape(mode, c) || c == '%' || c == '+'
  }

  lemma UnescapeByte(mode: Mode, c: byte, rest: Str)
    ensures Unescape(mode, EscapeByte(mode, c) + rest) == Prepend(c, Unescape(mode, rest))
  {
    var s := EscapeByte(mode, c) + rest;
    if s[0] == '%' {
      assert s[3..] == rest;
    } else {
      assert s[1..] == rest;
    }
  }

  /** Unescaping inverts escaping on every byte string, in both modes. */
  lemma {:induction false} RoundTrip(mode: Mode, s: Str)
    ensures Unescape(mode, Escape(mode, s)) == Some(s)
  {
    if s != [] {
      RoundTrip(mode, s[1..]);
      UnescapeByte(mode, s[0], Escape(mode, s[1..]));
      assert s == [s[0]] + s[1..];
    }
  }

  lemma PrintedIsClean(mode: Mode, c: byte)
    requires Printed(mode, c)
    ensures c !in "#?/\n "
    ensures mode.QueryComponent? ==> c !in "@:&="
  {
  }

  /** Escaped text never holds a delimiter of the URI, a blank or a newline. */
  lemma {:induction false} EscapedBytes(mode: Mode, s: Str)
    ensures forall c :: c in Escape(mode, s) ==> Printed(mode, c)
    ensures forall c :: c in "#?/\n " ==> c !in Escape(mode, s)
    ensures mode.QueryComponent? ==> forall c :: c in "@:&=" ==> c !in Escape(mode, s)
  {
    if s != [] {
      EscapedBytes(mode, s[1..]);
      forall c | c in EscapeByte(mode, s[0]) ensures Printed(mode, c) {
      }
    }
    forall c | c in Escape(mode, s) ensures Printed(mode, c) {
      PrintedIsClean(mode, c);
    }
  }

  /** Text of unreserved bytes is printed as it is. */
  lemma {:induction false} EscapeIdentity(mode: Mode, s: Str)
    requires forall c :: c in s ==> Alphanumeric(c) || c in "-_.~"
    ensures Escape(mode, s) == s
  {
    if s != [] {
      assert s[0] in s;
      EscapeIdentity(mode, s[1..]);
    }
  }

  const HEX_DIGITS: Str := "0123456789ABCDEF"

  lemma UpperHexDigit(v: nat)
    requires v < 16
    ensures UpperHex(v) == HEX_DIGITS[v]
  {
  }

  /** Which bytes are printed as they are, and how the others are. */
  lemma EscapedByte(mode: Mode, c: byte)
    ensures var same := 'a' <= c <= 'z' || 'A' <= c <= 'Z' || '0' <= c <= '9' || c in "-_.~" || (mode.PathSegment? && c in "$&+:=@");
            Escape(mode, [c]) ==
            if same then [c]
            else if mode.QueryComponent? && c == ' ' then ['+']
            else ['%', HEX_DIGITS[c as int / 16], HEX_DIGITS[c as int % 16]]
  {
    UpperHexDigit(c as int / 16);
    UpperHexDigit(c as int % 16);
    assert Escape(mode, [c]) == EscapeByte(mode, c) + [];
  }

  /** And byte by byte. */
  lemma {:induction false} EscapeConcat(mode: Mode, a: Str, b: Str)
    ensures Escape(mode, a + b) == Escape(mode, a) + Escape(mode, b)
  {
    if a == [] {
      assert a + b == b;
    } else {
      assert (a + b)[1..] == a[1..] + b;
      EscapeConcat(mode, a[1..], b);
    }
  }
}
