/** Go strings are byte sequences. A byte is modelled as a character below 256, so
    that ASCII literals can be written as strings. This module also has the parts of
    package strings the repository uses: IndexByte, Split, Join and TrimSpace. */
module GoStrings {

  datatype Option<+T> = None | Some(value: T)

  type byte = c: char | c as int < 256

  type Str = seq<byte>

  lemma ConcatAssoc<T>(a: seq<T>, b: seq<T>, c: seq<T>)
    ensures a + b + c == a + (b + c)
  {
  }

  /** The position of the first c in s, or |s| when there is none. */
  function IndexByte(s: Str, c: byte): (i: nat)
    ensures i <= |s|
    ensures c !in s[..i]
    ensures i < |s| ==> s[i] == c
  {
    if s == [] || s[0] == c then 0
    else
      var j := IndexByte(s[1..], c);
      assert s[..j + 1] == [s[0]] + s[1..][..j];
      j + 1
  }

  /** The position just after the last c in s, or 0 when there is none. */
  function AfterLastByte(s: Str, c: byte): (i: nat)
    ensures i <= |s|
    ensures c !in s[i..]
    ensures i > 0 ==> s[i - 1] == c
  {
    if s == [] || s[|s| - 1] == c then |s|
    else
      var t := s[..|s| - 1];
      var j := AfterLastByte(t, c);
      assert s[j..] == t[j..] + [s[|s| - 1]];
      j
  }

  lemma IndexByteAppend(a: Str, c: byte, b: Str)
    requires c !in a
    ensures IndexByte(a + [c] + b, c) == |a|
  {
    var s := a + [c] + b;
    var i := IndexByte(s, c);
    assert s[|a|] == c;
    assert forall j :: 0 <= j < |a| ==> s[j] == a[j];
    assert forall j :: 0 <= j < i ==> s[j] == s[..i][j];
  }

  lemma {:induction false} AfterLastByteAppend(a: Str, c: byte, b: Str)
    requires c !in b
    ensures AfterLastByte(a + [c] + b, c) == |a| + 1
  {
    var s := a + [c] + b;
    if b == [] {
      assert s[|s| - 1] == c;
    } else {
      AfterLastByteAppend(a, c, b[..|b| - 1]);
      assert s[|s| - 1] == b[|b| - 1];
      assert s[..|s| - 1] == a + [c] + b[..|b| - 1];
    }
  }

  lemma IndexByteAbsent(s: Str, c: byte)
    requires c !in s
    ensures IndexByte(s, c) == |s|
  {
    assert forall j :: 0 <= j < |s| ==> s[j] in s;
  }

  /** strings.Split with a one-byte separator: never empty, a separator more is a piece more. */
  function Split(s: Str, sep: byte): (pieces: seq<Str>)
    ensures pieces != []
    decreases |s|
  {
    var i := IndexByte(s, sep);
    if i == |s| then [s] else [s[..i]] + Split(s[i + 1..], sep)
  }

  /** strings.Join with a one-byte separator. */
  function Join(pieces: seq<Str>, sep: byte): Str {
    if pieces == [] then []
    else if |pieces| == 1 then pieces[0]
    else pieces[0] + [sep] + Join(pieces[1..], sep)
  }

  /** Splitting at a known separator-free first piece. */
  lemma SplitFirst(a: Str, sep: byte, rest: Str)
    requires sep !in a
    ensures Split(a + [sep] + rest, sep) == [a] + Split(rest, sep)
  {
    var s := a + [sep] + rest;
    IndexByteAppend(a, sep, rest);
    assert s[..|a|] == a;
    assert s[|a| + 1..] == rest;
  }

  lemma SplitWhole(a: Str, sep: byte)
    ensures sep !in a <==> |Split(a, sep)| == 1
    ensures sep !in a ==> Split(a, sep) == [a]
  {
    if sep !in a {
      IndexByteAbsent(a, sep);
    } else {
      var i := IndexByte(a, sep);
      assert a[..|a|] == a;
    }
  }

  /** Split inverts Join on pieces without the separator. */
  lemma {:induction false} SplitJoin(pieces: seq<Str>, sep: byte)
    requires pieces != []
    requires forall p :: p in pieces ==> sep !in p
    ensures Split(Join(pieces, sep), sep) == pieces
  {
    SplitWhole(pieces[0], sep);
    if |pieces| > 1 {
      SplitJoin(pieces[1..], sep);
      SplitFirst(pieces[0], sep, Join(pieces[1..], sep));
      assert pieces == [pieces[0]] + pieces[1..];
    }
  }

  lemma Regroup(a: Str, c: byte, b: Str, d: byte, e: Str)
    ensures a + [c] + b + [d] + e == a + [c] + (b + [d] + e)
  {
  }

  lemma CutAt(s: Str, i: nat)
    requires i < |s|
    ensures s == s[..i] + [s[i]] + s[i + 1..]
  {
  }

  /** Join inverts Split. */
  lemma {:induction false} JoinSplit(s: Str, sep: byte)
    ensures Join(Split(s, sep), sep) == s
    decreases |s|
  {
    var i := IndexByte(s, sep);
    if i < |s| {
      var rest := Split(s[i + 1..], sep);
      JoinSplit(s[i + 1..], sep);
      CutAt(s, i);
      assert ([s[..i]] + rest)[1..] == rest;
    }
  }

  /** The pieces of a concatenation add up, whatever the two halves hold. */
  lemma {:induction false} SplitCount(a: Str, sep: byte, b: Str)
    ensures |Split(a + [sep] + b, sep)| == |Split(a, sep)| + |Split(b, sep)|
    decreases |a|
  {
    var i := IndexByte(a, sep);
    if i == |a| {
      assert sep !in a by { assert a[..i] == a; }
      SplitFirst(a, sep, b);
      SplitWhole(a, sep);
    } else {
      var head, tail := a[..i], a[i + 1..];
      CutAt(a, i);
      Regroup(head, sep, tail, sep, b);
      SplitFirst(head, sep, tail + [sep] + b);
      SplitCount(tail, sep, b);
    }
  }

  /** A separator inside any piece makes Split return more pieces than were joined. */
  lemma {:induction false} SplitJoinCount(pieces: seq<Str>, sep: byte)
    requires pieces != []
    ensures |Split(Join(pieces, sep), sep)| >= |pieces|
    ensures |Split(Join(pieces, sep), sep)| == |pieces| ==> forall p :: p in pieces ==> sep !in p
  {
    SplitWhole(pieces[0], sep);
    if |pieces| == 1 {
      assert forall p :: p in pieces ==> p == pieces[0];
    } else {
      SplitJoinCount(pieces[1..], sep);
      SplitCount(pieces[0], sep, Join(pieces[1..], sep));
      assert forall p :: p in pieces ==> p == pieces[0] || p in pieces[1..];
    }
  }

  /** The number of bytes of the Unicode White_Space rune s starts with, in UTF-8; 0 if it
      starts with none. */
  function SpaceLen(s: Str): (n: nat)
    ensures n <= |s|
  {
    if |s| >= 1 && (s[0] == ' ' || 9 <= s[0] as int <= 13) then 1
    else if |s| >= 2 && s[0] as int == 0xC2 && (s[1] as int == 0x85 || s[1] as int == 0xA0) then 2
    else if |s| >= 3 && Space3(s[0] as int, s[1] as int, s[2] as int) then 3
    else 0
  }

  /** U+1680, U+2000-U+200A, U+2028, U+2029, U+202F, U+205F and U+3000. */
  predicate Space3(a: int, b: int, c: int) {
    || (a == 0xE1 && b == 0x9A && c == 0x80)
    || (a == 0xE2 && b == 0x80 && (0x80 <= c <= 0x8A || c == 0xA8 || c == 0xA9 || c == 0xAF))
    || (a == 0xE2 && b == 0x81 && c == 0x9F)
    || (a == 0xE3 && b == 0x80 && c == 0x80)
  }

  /** strings.TrimSpace(s) == "": s is a run of white space runes. */
  predicate Blank(s: Str)
    decreases |s|
  {
    s == [] || (SpaceLen(s) > 0 && Blank(s[SpaceLen(s)..]))
  }

  function LowerHex(v: nat): byte
    requires v < 16
  {
    if v < 10 then ('0' as int + v) as char else ('a' as int + v - 10) as char
  }

  /** The value of a hexadecimal digit of either case, or -1. */
  function HexValue(c: byte): (v: int)
    ensures -1 <= v < 16
  {
    if '0' <= c <= '9' then c as int - '0' as int
    else if 'a' <= c <= 'f' then c as int - 'a' as int + 10
    else if 'A' <= c <= 'F' then c as int - 'A' as int + 10
    else -1
  }

  predicate IsDigit(c: byte) {
    '0' <= c <= '9'
  }

  /** The decimal digits of n, as %d and strconv.Itoa print them. */
  function PrintNat(n: nat): (s: Str)
    ensures s != [] && forall c :: c in s ==> IsDigit(c)
  {
    var last := [('0' as int + n % 10) as char];
    if n < 10 then last else PrintNat(n / 10) + last
  }

  function PrintInt(n: int): Str {
    if n < 0 then "-" + PrintNat(-n) else PrintNat(n)
  }

  /** The value of a digit string, most significant digit first; "" counts as 0. */
  function DigitsValue(s: Str): nat
    requires forall c :: c in s ==> IsDigit(c)
  {
    if s == [] then 0
    else
      assert IsDigit(s[|s| - 1]);
      10 * DigitsValue(s[..|s| - 1]) + (s[|s| - 1] as int - '0' as int)
  }

  function ParseNat(s: Str): Option<nat> {
    if s != [] && forall c :: c in s ==> IsDigit(c) then Some(DigitsValue(s)) else None
  }

  function ParseInt(s: Str): Option<int> {
    if s != [] && s[0] == '-' then
      match ParseNat(s[1..])
      case None => None
      case Some(n) => Some(0 - n)
    else
      match ParseNat(s)
      case None => None
      case Some(n) => Some(n)
  }

  lemma {:induction false} PrintNatRoundTrip(n: nat)
    ensures DigitsValue(PrintNat(n)) == n
    decreases n
  {
    if n >= 10 {
      var p := PrintNat(n);
      assert p[..|p| - 1] == PrintNat(n / 10);
      PrintNatRoundTrip(n / 10);
    }
  }

  /** Decimal digits as they are printed: no leading zero but that of 0 itself. */
  predicate CanonicalDecimal(s: Str) {
    s != [] && (forall c :: c in s ==> IsDigit(c)) && (s[0] == '0' ==> |s| == 1)
  }

  lemma {:induction false} PrintNatCanonical(n: nat)
    ensures CanonicalDecimal(PrintNat(n))
    decreases n
  {
    if n >= 10 {
      var p := PrintNat(n / 10);
      PrintNatCanonical(n / 10);
      PrintNatRoundTrip(n / 10);
      assert p[0] == '0' ==> p == ['0'];
    }
  }

  /** Canonical digits are what their value prints. */
  lemma {:induction false} CanonicalIsPrinted(s: Str)
    requires CanonicalDecimal(s)
    ensures PrintNat(DigitsValue(s)) == s
    decreases |s|
  {
    var p, last := s[..|s| - 1], s[|s| - 1];
    assert IsDigit(last);
    assert s == p + [last];
    if p != [] {
      CanonicalIsPrinted(p);
      assert PrintNat(0) == ['0'];
    }
  }

  /** Printing a port and reading it back is the identity, on negative numbers too. */
  lemma PrintIntRoundTrip(n: int)
    ensures ParseInt(PrintInt(n)) == Some(n)
    ensures forall c :: c in PrintInt(n) ==> IsDigit(c) || c == '-'
  {
    if n < 0 {
      PrintNatRoundTrip(-n);
      assert PrintInt(n)[1..] == PrintNat(-n);
    } else {
      PrintNatRoundTrip(n);
      assert IsDigit(PrintNat(n)[0]);
    }
  }

  /** Decimal notation, by example: most significant digit first, a '-' before negative numbers. */
  lemma PrintIntVectors()
    ensures PrintInt(0) == "0" && PrintInt(443) == "443" && PrintInt(65535) == "65535" && PrintInt(-10) == "-10"
  {
    assert PrintNat(4) == "4" && PrintNat(44) == "44";
    assert PrintNat(6) == "6" && PrintNat(65) == "65" && PrintNat(655) == "655" && PrintNat(6553) == "6553";
    assert PrintNat(1) == "1" && PrintNat(10) == "10";
  }

  /** A string of ASCII is blank exactly when it holds only tabs, line breaks and spaces. */
  lemma {:induction false} BlankAscii(s: Str)
    requires forall c :: c in s ==> c as int < 0x80
    ensures Blank(s) <==> forall c :: c in s ==> c as int in {9, 10, 11, 12, 13, 32}
    decreases |s|
  {
    if s != [] {
      assert s[0] in s;
      assert forall c :: c in s[1..] ==> c in s;
      BlankAscii(s[1..]);
      assert forall c :: c in s ==> c == s[0] || c in s[1..];
      assert SpaceLen(s) == if s[0] as int in {9, 10, 11, 12, 13, 32} then 1 else 0;
    }
  }

  function Bytes2(a: int, b: int): Str
    requires 0 <= a < 256 && 0 <= b < 256
  {
    [a as char, b as char]
  }

  function Bytes3(a: int, b: int, c: int): Str
    requires 0 <= a < 256 && 0 <= b < 256 && 0 <= c < 256
  {
    [a as char, b as char, c as char]
  }

  /** White space beyond ASCII, in UTF-8: U+0085 and U+00A0, and of three bytes U+1680, U+2000 to U+200A,
      U+2028, U+2029, U+202F, U+205F and U+3000; nothing else of two or three bytes that starts beyond ASCII. */
  lemma BlankRunes(a: int, b: int, c: int)
    requires 0x80 <= a < 256 && 0 <= b < 256 && 0 <= c < 256
    ensures Blank(Bytes2(a, b)) <==> (a, b) in {(0xC2, 0x85), (0xC2, 0xA0)}
    ensures SpaceLen(Bytes3(a, b, c)) == 3 <==>
              || (a, b, c) in {(0xE1, 0x9A, 0x80), (0xE2, 0x80, 0xA8), (0xE2, 0x80, 0xA9), (0xE2, 0x80, 0xAF), (0xE2, 0x81, 0x9F),
                               (0xE3, 0x80, 0x80)}
              || (a == 0xE2 && b == 0x80 && 0x80 <= c <= 0x8A)
  {
    var s := Bytes2(a, b);
    assert s[2..] == [];
    assert SpaceLen(s) != 1;
  }
}
