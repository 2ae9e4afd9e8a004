/** Package encoding/base64 (sections 4 and 5 of RFC 4648): both alphabets, with and without
    padding. The decoder is Go's: it skips CR and LF and accepts non-zero trailing bits. */
module Base64 {
  import opened GoStrings

  datatype Alphabet = Std | Url

  function Symbol(a: Alphabet, v: nat): byte
    requires v < 64
  {
    if v < 26 then ('A' as int + v) as char
    else if v < 52 then ('a' as int + v - 26) as char
    else if v < 62 then ('0' as int + v - 52) as char
    else if v == 62 then (if a.Std? then '+' else '-')
    else (if a.Std? then '/' else '_')
  }

  /** The 6-bit value of a symbol, or -1. */
  function Value(a: Alphabet, c: byte): (v: int)
    ensures -1 <= v < 64
    ensures 0 <= v ==> Symbol(a, v) == c
  {
    if 'A' <= c <= 'Z' then c as int - 'A' as int
    else if 'a' <= c <= 'z' then c as int - 'a' as int + 26
    else if '0' <= c <= '9' then c as int - '0' as int + 52
    else if c == (if a.Std? then '+' else '-') then 62
    else if c == (if a.Std? then '/' else '_') then 63
    else -1
  }

  lemma SymbolValue(a: Alphabet, v: nat)
    requires v < 64
    ensures Value(a, Symbol(a, v)) == v
  {
  }

  function Sextet0(b0: byte): (v: nat)
    ensures v < 64
  {
    b0 as int / 4
  }

  function Sextet1(b0: byte, b1: byte): (v: nat)
    ensures v < 64
  {
    b0 as int % 4 * 16 + b1 as int / 16
  }

  function Sextet2(b1: byte, b2: byte): (v: nat)
    ensures v < 64
  {
    b1 as int % 16 * 4 + b2 as int / 64
  }

  function Sextet3(b2: byte): (v: nat)
    ensures v < 64
  {
    b2 as int % 64
  }

  /** Missing bytes of the last group count as zero bits. */
  function Encode(a: Alphabet, pad: bool, s: Str): Str {
    if s == [] then []
    else if |s| == 1 then
      [Symbol(a, Sextet0(s[0])), Symbol(a, Sextet1(s[0], '\0'))] + (if pad then "==" else "")
    else if |s| == 2 then
      [Symbol(a, Sextet0(s[0])), Symbol(a, Sextet1(s[0], s[1])), Symbol(a, Sextet2(s[1], '\0'))]
      + (if pad then "=" else "")
    else
      [Symbol(a, Sextet0(s[0])), Symbol(a, Sextet1(s[0], s[1])),
       Symbol(a, Sextet2(s[1], s[2])), Symbol(a, Sextet3(s[2]))] + Encode(a, pad, s[3..])
  }

  function Byte0(v0: nat, v1: nat): byte
    requires v0 < 64 && v1 < 64
  {
    (v0 * 4 + v1 / 16) as char
  }

  function Byte1(v1: nat, v2: nat): byte
    requires v1 < 64 && v2 < 64
  {
    (v1 % 16 * 16 + v2 / 4) as char
  }

  function Byte2(v2: nat, v3: nat): byte
    requires v2 < 64 && v3 < 64
  {
    (v2 % 4 * 64 + v3) as char
  }

  function DecodeQuads(a: Alphabet, pad: bool, s: Str): Option<Str> {
    if s == [] then Some([])
    else if |s| == 1 then None
    else
      var v0, v1 := Value(a, s[0]), Value(a, s[1]);
      if v0 < 0 || v1 < 0 then None
      else if |s| == 2 then (if pad then None else Some([Byte0(v0, v1)]))
      else
        var v2 := Value(a, s[2]);
        if |s| == 3 then (if pad || v2 < 0 then None else Some([Byte0(v0, v1), Byte1(v1, v2)]))
        else if pad && |s| == 4 && s[2] == '=' && s[3] == '=' then Some([Byte0(v0, v1)])
        else if v2 < 0 then None
        else if pad && |s| == 4 && s[3] == '=' then Some([Byte0(v0, v1), Byte1(v1, v2)])
        else
          var v3 := Value(a, s[3]);
          if v3 < 0 then None
          else
            match DecodeQuads(a, pad, s[4..])
            case None => None
            case Some(rest) => Some([Byte0(v0, v1), Byte1(v1, v2), Byte2(v2, v3)] + rest)
  }

  function DropNewlines(s: Str): Str {
    if s == [] then []
    else if s[0] == '\r' || s[0] == '\n' then DropNewlines(s[1..])
    else [s[0]] + DropNewlines(s[1..])
  }

  function Decode(a: Alphabet, pad: bool, s: Str): Option<Str> {
    DecodeQuads(a, pad, DropNewlines(s))
  }

  /** Only symbols of the alphabet, and '=' under padding, are ever printed. */
  lemma {:induction false} EncodeSymbols(a: Alphabet, pad: bool, s: Str)
    ensures forall c :: c in Encode(a, pad, s) ==> 0 <= Value(a, c) || (pad && c == '=')
    decreases |s|
  {
    forall v: nat | v < 64 ensures Value(a, Symbol(a, v)) == v { SymbolValue(a, v); }
    if |s| >= 3 {
      EncodeSymbols(a, pad, s[3..]);
    }
  }

  lemma {:induction false} DropNewlinesNothing(s: Str)
    requires '\r' !in s && '\n' !in s
    ensures DropNewlines(s) == s
  {
    if s != [] {
      assert s[0] in s;
      DropNewlinesNothing(s[1..]);
    }
  }

  /** Cutting three bytes into four 6-bit values and gluing them again. */
  lemma Bits(b0: byte, b1: byte, b2: byte)
    ensures Byte0(Sextet0(b0), Sextet1(b0, b1)) == b0
    ensures Byte1(Sextet1(b0, b1), Sextet2(b1, b2)) == b1
    ensures Byte2(Sextet2(b1, b2), Sextet3(b2)) == b2
  {
  }

  lemma DecodeQuad(a: Alphabet, pad: bool, v0: nat, v1: nat, v2: nat, v3: nat, rest: Str, out: Str)
    requires v0 < 64 && v1 < 64 && v2 < 64 && v3 < 64
    requires DecodeQuads(a, pad, rest) == Some(out)
    ensures DecodeQuads(a, pad, [Symbol(a, v0), Symbol(a, v1), Symbol(a, v2), Symbol(a, v3)] + rest)
         == Some([Byte0(v0, v1), Byte1(v1, v2), Byte2(v2, v3)] + out)
  {
    var s := [Symbol(a, v0), Symbol(a, v1), Symbol(a, v2), Symbol(a, v3)] + rest;
    SymbolValue(a, v0);
    SymbolValue(a, v1);
    SymbolValue(a, v2);
    SymbolValue(a, v3);
    assert Value(a, '=') == -1;
    assert s[2] != '=' && s[3] != '=';
    assert s[4..] == rest;
  }

  lemma DecodeThreeSymbols(a: Alphabet, pad: bool, v0: nat, v1: nat, v2: nat)
    requires v0 < 64 && v1 < 64 && v2 < 64
    ensures DecodeQuads(a, pad, [Symbol(a, v0), Symbol(a, v1), Symbol(a, v2)] + (if pad then "=" else ""))
         == Some([Byte0(v0, v1), Byte1(v1, v2)])
  {
    SymbolValue(a, v0);
    SymbolValue(a, v1);
    SymbolValue(a, v2);
    assert Value(a, '=') == -1;
  }

  lemma DecodeTwoSymbols(a: Alphabet, pad: bool, v0: nat, v1: nat)
    requires v0 < 64 && v1 < 64
    ensures DecodeQuads(a, pad, [Symbol(a, v0), Symbol(a, v1)] + (if pad then "==" else ""))
         == Some([Byte0(v0, v1)])
  {
    SymbolValue(a, v0);
    SymbolValue(a, v1);
  }

  lemma {:induction false} QuadsRoundTrip(a: Alphabet, pad: bool, s: Str)
    ensures DecodeQuads(a, pad, Encode(a, pad, s)) == Some(s)
    decreases |s|
  {
    if |s| == 1 {
      Bits(s[0], '\0', '\0');
      DecodeTwoSymbols(a, pad, Sextet0(s[0]), Sextet1(s[0], '\0'));
      assert s == [s[0]];
    } else if |s| == 2 {
      Bits(s[0], s[1], '\0');
      DecodeThreeSymbols(a, pad, Sextet0(s[0]), Sextet1(s[0], s[1]), Sextet2(s[1], '\0'));
      assert s == [s[0], s[1]];
    } else if |s| >= 3 {
      Bits(s[0], s[1], s[2]);
      QuadsRoundTrip(a, pad, s[3..]);
      DecodeQuad(a, pad, Sextet0(s[0]), Sextet1(s[0], s[1]), Sextet2(s[1], s[2]), Sextet3(s[2]),
                 Encode(a, pad, s[3..]), s[3..]);
      assert s == [s[0], s[1], s[2]] + s[3..];
    }
  }

  /** Decoding inverts encoding on every byte string, for both alphabets and both paddings. */
  lemma RoundTrip(a: Alphabet, pad: bool, s: Str)
    ensures Decode(a, pad, Encode(a, pad, s)) == Some(s)
  {
    EncodeSymbols(a, pad, s);
    DropNewlinesNothing(Encode(a, pad, s));
    QuadsRoundTrip(a, pad, s);
  }

  /** The bits of the last symbol that stand for no byte are zero. */
  predicate ZeroSpareBits(a: Alphabet, s: Str)
    decreases |s|
  {
    if |s| <= 1 then true
    else if |s| == 2 || (|s| == 4 && s[2] == '=' && s[3] == '=') then Value(a, s[1]) % 16 == 0
    else if |s| == 3 || (|s| == 4 && s[3] == '=') then Value(a, s[2]) % 4 == 0
    else ZeroSpareBits(a, s[4..])
  }

  /** Gluing four 6-bit values into three bytes and cutting them again. */
  lemma Sextets(v0: nat, v1: nat, v2: nat, v3: nat)
    requires v0 < 64 && v1 < 64 && v2 < 64 && v3 < 64
    ensures Sextet0(Byte0(v0, v1)) == v0
    ensures Sextet1(Byte0(v0, v1), Byte1(v1, v2)) == v1
    ensures Sextet2(Byte1(v1, v2), Byte2(v2, v3)) == v2
    ensures Sextet3(Byte2(v2, v3)) == v3
  {
  }

  lemma LastOfTwo(v0: nat, v1: nat)
    requires v0 < 64 && v1 < 64
    ensures Sextet1(Byte0(v0, v1), '\0') == v1 <==> v1 % 16 == 0
  {
    assert Byte0(v0, v1) as int % 4 == v1 / 16;
    assert v1 == v1 / 16 * 16 + v1 % 16;
  }

  lemma LastOfThree(v1: nat, v2: nat)
    requires v1 < 64 && v2 < 64
    ensures Sextet2(Byte1(v1, v2), '\0') == v2 <==> v2 % 4 == 0
  {
    assert Byte1(v1, v2) as int % 16 == v2 / 4;
    assert v2 == v2 / 4 * 4 + v2 % 4;
  }

  lemma TwoSymbolsExact(a: Alphabet, pad: bool, v0: nat, v1: nat)
    requires v0 < 64 && v1 < 64
    ensures Encode(a, pad, [Byte0(v0, v1)]) == [Symbol(a, v0), Symbol(a, v1)] + (if pad then "==" else "")
            <==> v1 % 16 == 0
  {
    var w := Sextet1(Byte0(v0, v1), '\0');
    Sextets(v0, v1, 0, 0);
    LastOfTwo(v0, v1);
    SymbolValue(a, v1);
    SymbolValue(a, w);
    assert Encode(a, pad, [Byte0(v0, v1)])[1] == Symbol(a, w);
    assert ([Symbol(a, v0), Symbol(a, v1)] + (if pad then "==" else ""))[1] == Symbol(a, v1);
  }

  lemma ThreeSymbolsExact(a: Alphabet, pad: bool, v0: nat, v1: nat, v2: nat)
    requires v0 < 64 && v1 < 64 && v2 < 64
    ensures Encode(a, pad, [Byte0(v0, v1), Byte1(v1, v2)])
            == [Symbol(a, v0), Symbol(a, v1), Symbol(a, v2)] + (if pad then "=" else "")
            <==> v2 % 4 == 0
  {
    var w := Sextet2(Byte1(v1, v2), '\0');
    Sextets(v0, v1, v2, 0);
    LastOfThree(v1, v2);
    SymbolValue(a, v2);
    SymbolValue(a, w);
    assert Encode(a, pad, [Byte0(v0, v1), Byte1(v1, v2)])[2] == Symbol(a, w);
    assert ([Symbol(a, v0), Symbol(a, v1), Symbol(a, v2)] + (if pad then "=" else ""))[2] == Symbol(a, v2);
  }

  lemma EncodeQuad(a: Alphabet, pad: bool, v0: nat, v1: nat, v2: nat, v3: nat, rest: Str)
    requires v0 < 64 && v1 < 64 && v2 < 64 && v3 < 64
    ensures Encode(a, pad, [Byte0(v0, v1), Byte1(v1, v2), Byte2(v2, v3)] + rest)
            == [Symbol(a, v0), Symbol(a, v1), Symbol(a, v2), Symbol(a, v3)] + Encode(a, pad, rest)
  {
    var s := [Byte0(v0, v1), Byte1(v1, v2), Byte2(v2, v3)] + rest;
    Sextets(v0, v1, v2, v3);
    assert s[3..] == rest;
  }

  lemma SameHead(h: Str, x: Str, y: Str)
    ensures h + x == h + y <==> x == y
  {
    assert (h + x)[|h|..] == x && (h + y)[|h|..] == y;
  }

  lemma {:induction false} QuadsExact(a: Alphabet, pad: bool, s: Str)
    requires DecodeQuads(a, pad, s).Some?
    ensures Encode(a, pad, DecodeQuads(a, pad, s).value) == s <==> ZeroSpareBits(a, s)
    decreases |s|, 1
  {
    if s != [] {
      var v0, v1 := Value(a, s[0]), Value(a, s[1]);
      assert Value(a, '=') == -1;
      if |s| == 2 || (|s| == 4 && s[2] == '=' && s[3] == '=') {
        TwoSymbolsExact(a, pad, v0, v1);
        assert s == [s[0], s[1]] + (if pad then "==" else "");
      } else if |s| == 3 || (|s| == 4 && s[3] == '=') {
        var v2 := Value(a, s[2]);
        ThreeSymbolsExact(a, pad, v0, v1, v2);
        assert s == [s[0], s[1], s[2]] + (if pad then "=" else "");
      } else {
        FullQuadExact(a, pad, s);
      }
    }
  }

  lemma {:induction false} FullQuadExact(a: Alphabet, pad: bool, s: Str)
    requires |s| >= 4 && Value(a, s[2]) >= 0 && Value(a, s[3]) >= 0
    requires DecodeQuads(a, pad, s).Some?
    ensures Encode(a, pad, DecodeQuads(a, pad, s).value) == s <==> ZeroSpareBits(a, s)
    decreases |s|, 0
  {
    var rest := s[4..];
    var out := DecodeQuads(a, pad, rest).value;
    QuadsExact(a, pad, rest);
    EncodeQuad(a, pad, Value(a, s[0]), Value(a, s[1]), Value(a, s[2]), Value(a, s[3]), out);
    SameHead(s[..4], Encode(a, pad, out), rest);
    assert s == s[..4] + rest;
    assert s[..4] == [s[0], s[1], s[2], s[3]];
  }

  /** A text that decodes is what its bytes encode to exactly when it holds no CR or LF and its
      spare bits are zero. */
  lemma DecodeExact(a: Alphabet, pad: bool, s: Str)
    requires Decode(a, pad, s).Some?
    ensures Encode(a, pad, Decode(a, pad, s).value) == s <==> '\r' !in s && '\n' !in s && ZeroSpareBits(a, s)
  {
    if '\r' !in s && '\n' !in s {
      DropNewlinesNothing(s);
      QuadsExact(a, pad, s);
    } else {
      EncodeSymbols(a, pad, Decode(a, pad, s).value);
      assert Value(a, '\r') == -1 && Value(a, '\n') == -1;
    }
  }

  /** Four characters for three bytes: padded output is a whole number of quads, unpadded
      output is as short as the bits allow. */
  lemma {:induction false} EncodeLength(a: Alphabet, pad: bool, s: Str)
    ensures |Encode(a, pad, s)| == if pad then (|s| + 2) / 3 * 4 else (|s| * 4 + 2) / 3
    decreases |s|
  {
    if |s| >= 3 {
      EncodeLength(a, pad, s[3..]);
      assert |Encode(a, pad, s)| == 4 + |Encode(a, pad, s[3..])|;
    }
  }

  /** Test vectors of section 10 of RFC 4648, and the two places where the alphabets differ. */
  lemma Vectors()
    ensures Encode(Std, true, "f") == "Zg==" && Encode(Std, false, "f") == "Zg"
    ensures Encode(Std, true, "fo") == "Zm8=" && Encode(Std, false, "fo") == "Zm8"
    ensures Encode(Std, true, "foo") == "Zm9v"
    ensures Encode(Std, true, "foobar") == "Zm9vYmFy"
    ensures Encode(Std, false, [0xFB as char, 0xFF as char]) == "+/8"
    ensures Encode(Url, false, [0xFB as char, 0xFF as char]) == "-_8"
  {
    assert "foobar"[3..] == "bar";
    assert Encode(Std, true, "bar") == "YmFy";
  }

  const UPPER: string := "ABCDEFGHIJKLMNOPQRSTUVWXYZ"
  const LOWER: string := "abcdefghijklmnopqrstuvwxyz"
  const DIGITS: string := "0123456789"

  /** The alphabets of tables 1 and 2 of RFC 4648: they differ in the last two symbols. */
  lemma Alphabets(a: Alphabet, v: nat)
    requires v < 64
    ensures |UPPER| == |LOWER| == 26 && |DIGITS| == 10
    ensures v < 26 ==> Symbol(a, v) == UPPER[v]
    ensures 26 <= v < 52 ==> Symbol(a, v) == LOWER[v - 26]
    ensures 52 <= v < 62 ==> Symbol(a, v) == DIGITS[v - 52]
    ensures v == 62 ==> Symbol(a, v) == if a.Std? then '+' else '-'
    ensures v == 63 ==> Symbol(a, v) == if a.Std? then '/' else '_'
  {
  }

  // ---- what the decoder accepts ----

  /** CR and LF count for nothing, wherever they are. */
  lemma {:induction false} NewlinesIgnored(a: Alphabet, pad: bool, s: Str, c: byte, t: Str)
    requires c == '\r' || c == '\n'
    ensures Decode(a, pad, s + [c] + t) == Decode(a, pad, s + t)
  {
    NewlineDropped(s, c, t);
  }

  lemma {:induction false} NewlineDropped(s: Str, c: byte, t: Str)
    requires c == '\r' || c == '\n'
    ensures DropNewlines(s + [c] + t) == DropNewlines(s + t)
  {
    if s == [] {
      assert s + [c] + t == [c] + t && s + t == t;
    } else {
      NewlineDropped(s[1..], c, t);
      assert (s + [c] + t)[1..] == s[1..] + [c] + t;
      assert (s + t)[1..] == s[1..] + t;
    }
  }

  /** Otherwise an unpadded text is accepted exactly when it is all symbols of the alphabet and no single
      one is left over, whatever its spare bits are. */
  lemma {:induction false} AcceptedExactly(a: Alphabet, s: Str)
    requires '\r' !in s && '\n' !in s
    ensures Decode(a, false, s).Some? <==> AllSymbols(a, s) && |s| % 4 != 1
  {
    DropNewlinesNothing(s);
    QuadsAccepted(a, s);
  }

  predicate AllSymbols(a: Alphabet, s: Str) {
    forall c :: c in s ==> Value(a, c) >= 0
  }

  lemma QuadSymbols(a: Alphabet, s: Str)
    requires |s| >= 4
    ensures AllSymbols(a, s) <==>
              Value(a, s[0]) >= 0 && Value(a, s[1]) >= 0 && Value(a, s[2]) >= 0 && Value(a, s[3]) >= 0 && AllSymbols(a, s[4..])
  {
    assert s == [s[0], s[1], s[2], s[3]] + s[4..];
    assert forall c :: c in s <==> c in [s[0], s[1], s[2], s[3]] || c in s[4..];
  }

  lemma FewSymbols(a: Alphabet, s: Str)
    requires |s| < 4
    ensures AllSymbols(a, s) <==> forall i :: 0 <= i < |s| ==> Value(a, s[i]) >= 0
  {
    assert forall i :: 0 <= i < |s| ==> s[i] in s;
  }

  lemma {:induction false} QuadsAccepted(a: Alphabet, s: Str)
    ensures DecodeQuads(a, false, s).Some? <==> AllSymbols(a, s) && |s| % 4 != 1
    decreases |s|
  {
    if |s| >= 4 {
      QuadsAccepted(a, s[4..]);
      QuadSymbols(a, s);
    } else {
      FewSymbols(a, s);
    }
  }
}
