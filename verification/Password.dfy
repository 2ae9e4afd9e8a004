/** Admin password hashes (internal/security/password.go): the PHC string
    $argon2id$v=19$m=...,t=...,p=...$salt$hash, printed and scanned. The key derivation is a
    parameter, any function of its inputs. */
module Password {
  import opened GoStrings
  import Base64
  import Tokens

  const ARGON_VERSION: nat := 19
  const ARGON_MEMORY: nat := 65536
  const ARGON_TIME: nat := 3
  const ARGON_THREADS: nat := 2
  const ARGON_KEY_LEN: nat := 32
  const ARGON_SALT_LEN: nat := 16

  const MAX_UINT32: nat := 0xFFFF_FFFF
  const MAX_UINT8: nat := 255

  /** argon2.IDKey(password, salt, time, memory, threads, keyLen). */
  type Kdf = (Str, Str, nat, nat, nat, nat) -> Str

  datatype Error = EmptyPassword | NoEntropy | InvalidHash | IncompatibleVersion

  datatype Result<+T> = Ok(value: T) | Err(error: Error)

  datatype Params = Params(mem: nat, time: nat, threads: nat, salt: Str, hash: Str)

  const DOLLAR: Str := "$"
  const ALGORITHM_NAME: Str := "argon2id"
  const VERSION_KEY: Str := "v="
  const MEM_KEY: Str := "m="
  const TIME_KEY: Str := ",t="
  const THREADS_KEY: Str := ",p="

  function PrintCosts(mem: nat, time: nat, threads: nat): Str {
    MEM_KEY + PrintNat(mem) + TIME_KEY + PrintNat(time) + THREADS_KEY + PrintNat(threads)
  }

  function RawStd(s: Str): Str {
    Base64.Encode(Base64.Std, false, s)
  }

  function PrintPhc(p: Params): Str {
    DOLLAR + ALGORITHM_NAME + DOLLAR + (VERSION_KEY + PrintNat(ARGON_VERSION)) + DOLLAR
    + PrintCosts(p.mem, p.time, p.threads) + DOLLAR + RawStd(p.salt) + DOLLAR + RawStd(p.hash)
  }

  function Hash(kdf: Kdf, password: Str, random: Option<Str>): Result<Str> {
    if password == [] then Err(EmptyPassword)
    else if random.None? then Err(NoEntropy)
    else
      var salt := random.value;
      Ok(PrintPhc(Params(ARGON_MEMORY, ARGON_TIME, ARGON_THREADS, salt,
                         kdf(password, salt, ARGON_TIME, ARGON_MEMORY, ARGON_THREADS, ARGON_KEY_LEN))))
  }

  method HashPassword(kdf: Kdf, password: Str, random: Option<Str>) returns (r: Result<Str>)
    requires random.Some? ==> |random.value| == 16
    ensures r == Hash(kdf, password, random)
    ensures password != [] && random.Some? ==>
              r == Ok(HashText(random.value, kdf(password, random.value, 3, 65536, 2, 32)))
  {
    if password != [] && random.Some? {
      HashedText(kdf, password, random.value);
    }
    if password == [] {
      return Err(EmptyPassword);
    }
    var salt := new byte[ARGON_SALT_LEN](_ => '\0');
    var ok := Tokens.ReadRandom(salt, random);
    if !ok {
      return Err(NoEntropy);
    }
    var hash := kdf(password, salt[..], ARGON_TIME, ARGON_MEMORY, ARGON_THREADS, ARGON_KEY_LEN);
    r := Ok(PrintPhc(Params(ARGON_MEMORY, ARGON_TIME, ARGON_THREADS, salt[..], hash)));
  }

  // ---- fmt.Sscanf ----

  /** A scanned value and the input after it; None is a scan error. */
  type Scan<T> = Option<(T, Str)>

  /** Sscanf's SkipSpace: a newline is an error. */
  function SkipSpace(s: Str): Option<Str>
    decreases |s|
  {
    if s == [] then Some([])
    else if s[0] == '\n' || (s[0] == '\r' && |s| > 1 && s[1] == '\n') then None
    else if SpaceLen(s) > 0 then SkipSpace(s[SpaceLen(s)..])
    else Some(s)
  }

  function Expect(lit: Str, s: Str): Option<Str> {
    if lit <= s then Some(s[|lit|..]) else None
  }

  /** The number of digits s starts with. */
  function DigitRun(s: Str): (n: nat)
    ensures n <= |s|
    ensures forall c :: c in s[..n] ==> IsDigit(c)
    ensures n < |s| ==> !IsDigit(s[n])
  {
    if s == [] || !IsDigit(s[0]) then 0
    else
      var n := 1 + DigitRun(s[1..]);
      assert s[..n] == [s[0]] + s[1..][..n - 1];
      n
  }

  /** The digits of %d, at least one. */
  function ScanDigits(s: Str): Scan<nat> {
    var n := DigitRun(s);
    if n == 0 then None else Some((DigitsValue(s[..n]), s[n..]))
  }

  /** %d into an unsigned integer of at most max. */
  function ScanUint(s: Str, max: nat): Scan<nat> {
    match SkipSpace(s)
    case None => None
    case Some(t) =>
      match ScanDigits(t)
      case None => None
      case Some((v, rest)) => if v > max then None else Some((v, rest))
  }

  /** %d into an int: a sign is accepted. */
  function ScanInt(s: Str): Scan<int> {
    match SkipSpace(s)
    case None => None
    case Some(t) =>
      var signed := t != [] && (t[0] == '+' || t[0] == '-');
      match ScanDigits(if signed then t[1..] else t)
      case None => None
      case Some((v, rest)) =>
        var n: int := if signed && t[0] == '-' then 0 - v else v;
        if -0x8000_0000_0000_0000 <= n < 0x8000_0000_0000_0000 then Some((n, rest)) else None
  }

  /** Sscanf(s, "v=%d"): what follows the number is ignored. */
  function ScanVersion(s: Str): Option<int> {
    match Expect(VERSION_KEY, s)
    case None => None
    case Some(t) =>
      match ScanInt(t)
      case None => None
      case Some((v, _)) => Some(v)
  }

  /** A literal of the format, then %d into an unsigned integer of at most max. */
  function ScanKeyed(key: Str, s: Str, max: nat): Scan<nat> {
    match Expect(key, s)
    case None => None
    case Some(t) => ScanUint(t, max)
  }

  /** Sscanf(s, "m=%d,t=%d,p=%d"): what follows the last number is ignored. */
  function ScanCosts(s: Str): Option<(nat, nat, nat)> {
    match ScanKeyed(MEM_KEY, s, MAX_UINT32)
    case None => None
    case Some((mem, s1)) =>
      match ScanKeyed(TIME_KEY, s1, MAX_UINT32)
      case None => None
      case Some((time, s2)) =>
        match ScanKeyed(THREADS_KEY, s2, MAX_UINT8)
        case None => None
        case Some((threads, _)) => Some((mem, time, threads))
  }

  function DecodeFields(parts: seq<Str>): Result<Params> {
    if |parts| != 6 || parts[1] != ALGORITHM_NAME then Err(InvalidHash)
    else
      var version := ScanVersion(parts[2]);
      if version.None? then Err(InvalidHash)
      else if version.value != ARGON_VERSION then Err(IncompatibleVersion)
      else
        var costs := ScanCosts(parts[3]);
        var salt := Base64.Decode(Base64.Std, false, parts[4]);
        var hash := Base64.Decode(Base64.Std, false, parts[5]);
        if costs.None? || salt.None? || hash.None? then Err(InvalidHash)
        else Ok(Params(costs.value.0, costs.value.1, costs.value.2, salt.value, hash.value))
  }

  function Decode(encoded: Str): Result<Params> {
    DecodeFields(Split(encoded, '$'))
  }

  method DecodeArgon2(encoded: Str)
    returns (mem: nat, time: nat, threads: nat, salt: Str, hash: Str, err: Option<Error>)
    ensures Decode(encoded) == if err.None? then Ok(Params(mem, time, threads, salt, hash)) else Err(err.value)
  {
    mem, time, threads, salt, hash, err := 0, 0, 0, [], [], None;
    var parts := Split(encoded, '$');
    if |parts| != 6 || parts[1] != ALGORITHM_NAME {
      err := Some(InvalidHash);
      return;
    }
    var version := ScanVersion(parts[2]);
    if version.None? {
      err := Some(InvalidHash);
      return;
    }
    if version.value != ARGON_VERSION {
      err := Some(IncompatibleVersion);
      return;
    }
    var costs := ScanCosts(parts[3]);
    if costs.None? {
      err := Some(InvalidHash);
      return;
    }
    mem, time, threads := costs.value.0, costs.value.1, costs.value.2;
    var s := Base64.Decode(Base64.Std, false, parts[4]);
    if s.None? {
      err := Some(InvalidHash);
      return;
    }
    salt := s.value;
    var h := Base64.Decode(Base64.Std, false, parts[5]);
    if h.None? {
      err := Some(InvalidHash);
      return;
    }
    hash := h.value;
  }

  function Verify(kdf: Kdf, password: Str, encoded: Str): Result<bool> {
    match Decode(encoded)
    case Err(e) => Err(e)
    case Ok(p) => Ok(kdf(password, p.salt, p.time, p.mem, p.threads, |p.hash|) == p.hash)
  }

  // ---- the scanner against the printer ----

  lemma {:induction false} DigitRunOf(digits: Str, rest: Str)
    requires forall c :: c in digits ==> IsDigit(c)
    requires rest == [] || !IsDigit(rest[0])
    ensures DigitRun(digits + rest) == |digits|
  {
    if digits == [] {
      assert digits + rest == rest;
    } else {
      assert IsDigit(digits[0]);
      assert (digits + rest)[1..] == digits[1..] + rest;
      DigitRunOf(digits[1..], rest);
    }
  }

  lemma ScanPrinted(n: nat, rest: Str)
    requires rest == [] || !IsDigit(rest[0])
    ensures SkipSpace(PrintNat(n) + rest) == Some(PrintNat(n) + rest)
    ensures ScanDigits(PrintNat(n) + rest) == Some((n, rest))
  {
    var d := PrintNat(n);
    assert IsDigit(d[0]);
    PrintNatRoundTrip(n);
    DigitRunOf(d, rest);
    assert (d + rest)[..|d|] == d && (d + rest)[|d|..] == rest;
  }

  lemma ExpectPrinted(lit: Str, rest: Str)
    ensures Expect(lit, lit + rest) == Some(rest)
  {
  }

  /** Anything that does not go on with a digit can follow the version. */
  lemma VersionRoundTrip(tail: Str)
    requires tail == [] || !IsDigit(tail[0])
    ensures ScanVersion(VERSION_KEY + PrintNat(ARGON_VERSION) + tail) == Some(ARGON_VERSION)
  {
    var d := PrintNat(ARGON_VERSION);
    assert VERSION_KEY + d + tail == VERSION_KEY + (d + tail);
    ExpectPrinted(VERSION_KEY, d + tail);
    ScanPrinted(ARGON_VERSION, tail);
    assert IsDigit(d[0]);
  }

  lemma KeyedRoundTrip(key: Str, n: nat, max: nat, rest: Str)
    requires rest == [] || !IsDigit(rest[0])
    ensures ScanKeyed(key, key + PrintNat(n) + rest, max) == if n <= max then Some((n, rest)) else None
  {
    assert key + PrintNat(n) + rest == key + (PrintNat(n) + rest);
    ExpectPrinted(key, PrintNat(n) + rest);
    ScanPrinted(n, rest);
  }

  lemma RegroupCosts(mem: nat, time: nat, threads: nat, tail: Str)
    ensures PrintCosts(mem, time, threads) + tail ==
            MEM_KEY + PrintNat(mem) + (TIME_KEY + PrintNat(time) + (THREADS_KEY + PrintNat(threads) + tail))
  {
  }

  lemma CostsRoundTrip(mem: nat, time: nat, threads: nat, tail: Str)
    requires tail == [] || !IsDigit(tail[0])
    ensures ScanCosts(PrintCosts(mem, time, threads) + tail) ==
            if mem <= MAX_UINT32 && time <= MAX_UINT32 && threads <= MAX_UINT8 then Some((mem, time, threads)) else None
  {
    var s2 := THREADS_KEY + PrintNat(threads) + tail;
    var s1 := TIME_KEY + PrintNat(time) + s2;
    RegroupCosts(mem, time, threads, tail);
    KeyedRoundTrip(MEM_KEY, mem, MAX_UINT32, s1);
    KeyedRoundTrip(TIME_KEY, time, MAX_UINT32, s2);
    KeyedRoundTrip(THREADS_KEY, threads, MAX_UINT8, tail);
  }

  lemma JoinSix(z: Str, a: Str, b: Str, c: Str, d: Str, e: Str)
    ensures Join([z, a, b, c, d, e], '$') == z + DOLLAR + a + DOLLAR + b + DOLLAR + c + DOLLAR + d + DOLLAR + e
  {
    assert Join([e], '$') == e;
    assert Join([d, e], '$') == d + ['$'] + e;
    assert Join([c, d, e], '$') == c + ['$'] + Join([d, e], '$');
    assert Join([b, c, d, e], '$') == b + ['$'] + Join([c, d, e], '$');
    assert Join([a, b, c, d, e], '$') == a + ['$'] + Join([b, c, d, e], '$');
    assert Join([z, a, b, c, d, e], '$') == z + ['$'] + Join([a, b, c, d, e], '$');
  }

  lemma EncodedHasNoDollar(s: Str)
    ensures '$' !in RawStd(s)
  {
    Base64.EncodeSymbols(Base64.Std, false, s);
    assert Base64.Value(Base64.Std, '$') == -1;
  }

  /** The six fields of a hash with any of its looser spellings. */
  function LooseParts(p: Params, prefix: Str, versionTail: Str, costsTail: Str): seq<Str> {
    [prefix, ALGORITHM_NAME, VERSION_KEY + PrintNat(ARGON_VERSION) + versionTail,
     PrintCosts(p.mem, p.time, p.threads) + costsTail, RawStd(p.salt), RawStd(p.hash)]
  }

  lemma LoosePartsHaveNoDollar(p: Params, prefix: Str, versionTail: Str, costsTail: Str)
    requires '$' !in prefix && '$' !in versionTail && '$' !in costsTail
    ensures forall f :: f in LooseParts(p, prefix, versionTail, costsTail) ==> '$' !in f
  {
    EncodedHasNoDollar(p.salt);
    EncodedHasNoDollar(p.hash);
    assert '$' !in PrintCosts(p.mem, p.time, p.threads) + costsTail;
    assert '$' !in VERSION_KEY + PrintNat(ARGON_VERSION) + versionTail;
  }

  /** The PHC string with something written before it, after its version and after its costs. */
  function PrintLoosely(p: Params, prefix: Str, versionTail: Str, costsTail: Str): Str {
    prefix + DOLLAR + ALGORITHM_NAME + DOLLAR + (VERSION_KEY + PrintNat(ARGON_VERSION) + versionTail) + DOLLAR
    + (PrintCosts(p.mem, p.time, p.threads) + costsTail) + DOLLAR + RawStd(p.salt) + DOLLAR + RawStd(p.hash)
  }

  lemma SplitLoosely(p: Params, prefix: Str, versionTail: Str, costsTail: Str)
    requires '$' !in prefix && '$' !in versionTail && '$' !in costsTail
    ensures Split(PrintLoosely(p, prefix, versionTail, costsTail), '$') == LooseParts(p, prefix, versionTail, costsTail)
  {
    LoosePartsHaveNoDollar(p, prefix, versionTail, costsTail);
    SplitJoin(LooseParts(p, prefix, versionTail, costsTail), '$');
    JoinSix(prefix, ALGORITHM_NAME, VERSION_KEY + PrintNat(ARGON_VERSION) + versionTail,
            PrintCosts(p.mem, p.time, p.threads) + costsTail, RawStd(p.salt), RawStd(p.hash));
  }

  predicate InRange(p: Params) {
    p.mem <= MAX_UINT32 && p.time <= MAX_UINT32 && p.threads <= MAX_UINT8
  }

  lemma LooseVersion(p: Params, prefix: Str, versionTail: Str, costsTail: Str)
    requires versionTail == [] || !IsDigit(versionTail[0])
    ensures ScanVersion(LooseParts(p, prefix, versionTail, costsTail)[2]) == Some(ARGON_VERSION)
  {
    VersionRoundTrip(versionTail);
  }

  lemma LooseCosts(p: Params, prefix: Str, versionTail: Str, costsTail: Str)
    requires InRange(p)
    requires costsTail == [] || !IsDigit(costsTail[0])
    ensures ScanCosts(LooseParts(p, prefix, versionTail, costsTail)[3]) == Some((p.mem, p.time, p.threads))
  {
    CostsRoundTrip(p.mem, p.time, p.threads, costsTail);
  }

  lemma LooseBytes(p: Params, prefix: Str, versionTail: Str, costsTail: Str)
    ensures Base64.Decode(Base64.Std, false, LooseParts(p, prefix, versionTail, costsTail)[4]) == Some(p.salt)
    ensures Base64.Decode(Base64.Std, false, LooseParts(p, prefix, versionTail, costsTail)[5]) == Some(p.hash)
  {
    Base64.RoundTrip(Base64.Std, false, p.salt);
    Base64.RoundTrip(Base64.Std, false, p.hash);
  }

  lemma DecodeSix(encoded: Str, f: seq<Str>, p: Params)
    requires Split(encoded, '$') == f && |f| == 6 && f[1] == ALGORITHM_NAME
    requires ScanVersion(f[2]) == Some(ARGON_VERSION)
    requires ScanCosts(f[3]) == Some((p.mem, p.time, p.threads))
    requires Base64.Decode(Base64.Std, false, f[4]) == Some(p.salt)
    requires Base64.Decode(Base64.Std, false, f[5]) == Some(p.hash)
    ensures Decode(encoded) == Ok(p)
  {
  }

  /** The parser recovers every parameter, for all of uint32 and uint8 and all byte strings, and
      does so whatever comes before the first '$', and even when something that does not go on
      with a digit follows the version or the costs. */
  lemma DecodeLoose(p: Params, prefix: Str, versionTail: Str, costsTail: Str)
    requires InRange(p)
    requires versionTail == [] || !IsDigit(versionTail[0])
    requires costsTail == [] || !IsDigit(costsTail[0])
    requires '$' !in prefix && '$' !in versionTail && '$' !in costsTail
    ensures Decode(PrintLoosely(p, prefix, versionTail, costsTail)) == Ok(p)
  {
    SplitLoosely(p, prefix, versionTail, costsTail);
    LooseVersion(p, prefix, versionTail, costsTail);
    LooseCosts(p, prefix, versionTail, costsTail);
    LooseBytes(p, prefix, versionTail, costsTail);
    DecodeSix(PrintLoosely(p, prefix, versionTail, costsTail), LooseParts(p, prefix, versionTail, costsTail), p);
  }

  lemma PrintPlainly(p: Params)
    ensures PrintPhc(p) == PrintLoosely(p, [], [], [])
  {
    var version, costs := VERSION_KEY + PrintNat(ARGON_VERSION), PrintCosts(p.mem, p.time, p.threads);
    assert version + [] == version && costs + [] == costs && [] + DOLLAR == DOLLAR;
  }

  lemma DecodeRoundTrip(p: Params)
    requires InRange(p)
    ensures Decode(PrintPhc(p)) == Ok(p)
  {
    PrintPlainly(p);
    DecodeLoose(p, [], [], []);
  }

  // ---- which accepted texts are the standard ones ----

  /** key and then a decimal as %d prints it: no sign, blank or leading zero, nothing after it. */
  predicate StandardNumber(key: Str, s: Str) {
    key <= s && CanonicalDecimal(s[|key|..])
  }

  predicate StandardCosts(s: Str) {
    var f := Split(s, ',');
    |f| == 3 && StandardNumber("m=", f[0]) && StandardNumber("t=", f[1]) && StandardNumber("p=", f[2])
  }

  /** Base64 without line breaks and without stray bits at its end. */
  predicate StandardBytes(s: Str) {
    '\r' !in s && '\n' !in s && Base64.ZeroSpareBits(Base64.Std, s)
  }

  /** Nothing before the first '$', and every field spelled as the PHC format spells it. */
  predicate Standard(encoded: Str) {
    var f := Split(encoded, '$');
    && |f| == 6 && f[0] == [] && f[1] == ALGORITHM_NAME
    && StandardNumber(VERSION_KEY, f[2]) && StandardCosts(f[3]) && StandardBytes(f[4]) && StandardBytes(f[5])
  }

  lemma NumberPrinted(key: Str, s: Str) returns (n: nat)
    requires StandardNumber(key, s)
    ensures s == key + PrintNat(n)
  {
    n := DigitsValue(s[|key|..]);
    CanonicalIsPrinted(s[|key|..]);
  }

  lemma PrintedNumberIsStandard(key: Str, n: nat)
    ensures StandardNumber(key, key + PrintNat(n))
  {
    PrintNatCanonical(n);
    assert (key + PrintNat(n))[|key|..] == PrintNat(n);
  }

  lemma VersionPrinted(n: nat)
    ensures ScanVersion(VERSION_KEY + PrintNat(n)).Some? ==> ScanVersion(VERSION_KEY + PrintNat(n)) == Some(n)
  {
    ExpectPrinted(VERSION_KEY, PrintNat(n));
    ScanPrinted(n, []);
    assert PrintNat(n) + [] == PrintNat(n);
    assert IsDigit(PrintNat(n)[0]);
  }

  lemma VersionExact(s: Str)
    requires ScanVersion(s) == Some(ARGON_VERSION)
    ensures StandardNumber(VERSION_KEY, s) <==> s == VERSION_KEY + PrintNat(ARGON_VERSION)
  {
    if StandardNumber(VERSION_KEY, s) {
      var n := NumberPrinted(VERSION_KEY, s);
      VersionPrinted(n);
    }
    PrintedNumberIsStandard(VERSION_KEY, ARGON_VERSION);
  }

  function CostPieces(mem: nat, time: nat, threads: nat): seq<Str> {
    ["m=" + PrintNat(mem), "t=" + PrintNat(time), "p=" + PrintNat(threads)]
  }

  lemma JoinCosts(mem: nat, time: nat, threads: nat)
    ensures Join(CostPieces(mem, time, threads), ',') == PrintCosts(mem, time, threads)
    ensures Split(PrintCosts(mem, time, threads), ',') == CostPieces(mem, time, threads)
  {
    var a, b, c := "m=" + PrintNat(mem), "t=" + PrintNat(time), "p=" + PrintNat(threads);
    assert Join([c], ',') == c;
    assert Join([b, c], ',') == b + [','] + c;
    assert Join([a, b, c], ',') == a + [','] + (b + [','] + c);
    assert TIME_KEY == [','] + "t=" && THREADS_KEY == [','] + "p=";
    assert Join([a, b, c], ',') == PrintCosts(mem, time, threads);
    SplitJoin([a, b, c], ',');
  }

  lemma PiecesPrinted(f: seq<Str>) returns (mem: nat, time: nat, threads: nat)
    requires |f| == 3 && StandardNumber("m=", f[0]) && StandardNumber("t=", f[1]) && StandardNumber("p=", f[2])
    ensures f == CostPieces(mem, time, threads)
  {
    mem := NumberPrinted("m=", f[0]);
    time := NumberPrinted("t=", f[1]);
    threads := NumberPrinted("p=", f[2]);
    assert f == [f[0], f[1], f[2]];
  }

  lemma PrintedCostsAreStandard(mem: nat, time: nat, threads: nat)
    ensures StandardCosts(PrintCosts(mem, time, threads))
  {
    JoinCosts(mem, time, threads);
    PrintedNumberIsStandard("m=", mem);
    PrintedNumberIsStandard("t=", time);
    PrintedNumberIsStandard("p=", threads);
  }

  lemma CostsPrinted(mem: nat, time: nat, threads: nat)
    ensures ScanCosts(PrintCosts(mem, time, threads)).Some? ==>
              ScanCosts(PrintCosts(mem, time, threads)) == Some((mem, time, threads))
  {
    CostsRoundTrip(mem, time, threads, []);
    assert PrintCosts(mem, time, threads) + [] == PrintCosts(mem, time, threads);
  }

  lemma CostsExact(s: Str, mem: nat, time: nat, threads: nat)
    requires ScanCosts(s) == Some((mem, time, threads))
    ensures StandardCosts(s) <==> s == PrintCosts(mem, time, threads)
  {
    if StandardCosts(s) {
      var m, t, p := PiecesPrinted(Split(s, ','));
      JoinSplit(s, ',');
      JoinCosts(m, t, p);
      CostsPrinted(m, t, p);
    }
    PrintedCostsAreStandard(mem, time, threads);
  }

  lemma PartsExact(encoded: Str, p: Params)
    ensures encoded == PrintPhc(p) <==> Split(encoded, '$') == LooseParts(p, [], [], [])
  {
    PrintPlainly(p);
    SplitLoosely(p, [], [], []);
    JoinSplit(encoded, '$');
    JoinSplit(PrintPhc(p), '$');
  }

  /** An accepted text is the PHC string of what it decodes to exactly when it is spelled in the
      standard way; the string of what it decodes to is always accepted. */
  lemma AcceptedIsStandardExactly(encoded: Str, p: Params)
    requires Decode(encoded) == Ok(p)
    ensures InRange(p) && Decode(PrintPhc(p)) == Ok(p)
    ensures encoded == PrintPhc(p) <==> Standard(encoded)
  {
    var f := Split(encoded, '$');
    DecodeRoundTrip(p);
    PartsExact(encoded, p);
    VersionExact(f[2]);
    CostsExact(f[3], p.mem, p.time, p.threads);
    Base64.DecodeExact(Base64.Std, false, f[4]);
    Base64.DecodeExact(Base64.Std, false, f[5]);
    PartsFieldByField(f, p);
  }

  lemma PartsFieldByField(f: seq<Str>, p: Params)
    requires |f| == 6
    ensures f == LooseParts(p, [], [], []) <==>
              && f[0] == [] && f[1] == ALGORITHM_NAME && f[2] == VERSION_KEY + PrintNat(ARGON_VERSION)
              && f[3] == PrintCosts(p.mem, p.time, p.threads) && f[4] == RawStd(p.salt) && f[5] == RawStd(p.hash)
  {
    var version, costs := VERSION_KEY + PrintNat(ARGON_VERSION), PrintCosts(p.mem, p.time, p.threads);
    assert version + [] == version && costs + [] == costs;
    var g := LooseParts(p, [], [], []);
    assert f == [f[0], f[1], f[2], f[3], f[4], f[5]];
  }

  /** Not every accepted text is standard: here something stands before the first '$'. */
  lemma AcceptedNotStandard()
    ensures exists encoded, p :: Decode(encoded) == Ok(p) && encoded != PrintPhc(p)
  {
    var p := Params(ARGON_MEMORY, ARGON_TIME, ARGON_THREADS, [], []);
    DecodeLoose(p, "x", [], []);
    var encoded := PrintLoosely(p, "x", [], []);
    assert encoded[0] == 'x' && PrintPhc(p)[0] == '$';
  }

  /** Any non-empty password has a hash, and against that hash another password verifies exactly
      when the derived keys coincide; the password itself always does. */
  lemma VerifyAgainstHash(kdf: Kdf, password: Str, salt: Str, attempt: Str)
    requires password != []
    requires |kdf(password, salt, ARGON_TIME, ARGON_MEMORY, ARGON_THREADS, ARGON_KEY_LEN)| == ARGON_KEY_LEN
    ensures var encoded := Hash(kdf, password, Some(salt));
            && encoded.Ok?
            && Verify(kdf, attempt, encoded.value) ==
               Ok(kdf(attempt, salt, ARGON_TIME, ARGON_MEMORY, ARGON_THREADS, ARGON_KEY_LEN) ==
                  kdf(password, salt, ARGON_TIME, ARGON_MEMORY, ARGON_THREADS, ARGON_KEY_LEN))
            && Verify(kdf, password, encoded.value) == Ok(true)
  {
    DecodeRoundTrip(Params(ARGON_MEMORY, ARGON_TIME, ARGON_THREADS, salt,
                           kdf(password, salt, ARGON_TIME, ARGON_MEMORY, ARGON_THREADS, ARGON_KEY_LEN)));
  }

  /** Hashes made with different salts differ, even of one password. */
  lemma SaltsSeparateHashes(kdf: Kdf, password: Str, password': Str, salt: Str, salt': Str)
    requires password != [] && password' != [] && salt != salt'
    ensures Hash(kdf, password, Some(salt)).value != Hash(kdf, password', Some(salt')).value
  {
    DecodeRoundTrip(Params(ARGON_MEMORY, ARGON_TIME, ARGON_THREADS, salt,
                           kdf(password, salt, ARGON_TIME, ARGON_MEMORY, ARGON_THREADS, ARGON_KEY_LEN)));
    DecodeRoundTrip(Params(ARGON_MEMORY, ARGON_TIME, ARGON_THREADS, salt',
                           kdf(password', salt', ARGON_TIME, ARGON_MEMORY, ARGON_THREADS, ARGON_KEY_LEN)));
  }

  // ---- the text itself ----

  const PHC_HEAD: Str := "$argon2id$v=19$m=65536,t=3,p=2$"

  /** The costs of HashPassword as they are printed. */
  lemma HeadPrinted()
    ensures DOLLAR + ALGORITHM_NAME + DOLLAR + (VERSION_KEY + PrintNat(ARGON_VERSION)) + DOLLAR
            + PrintCosts(65536, 3, 2) + DOLLAR == PHC_HEAD
  {
    CostsText();
    VersionText();
    HeadText(VERSION_KEY + PrintNat(ARGON_VERSION), PrintCosts(65536, 3, 2));
  }

  const VERSION_TEXT: Str := "v=19"
  const COSTS_TEXT: Str := "m=65536,t=3,p=2"

  lemma VersionText()
    ensures VERSION_KEY + PrintNat(ARGON_VERSION) == VERSION_TEXT
  {
    assert PrintNat(1) == "1" && PrintNat(19) == "19";
  }

  lemma MemoryText()
    ensures PrintNat(65536) == "65536"
  {
    assert PrintNat(6) == "6" && PrintNat(65) == "65" && PrintNat(655) == "655" && PrintNat(6553) == "6553";
  }

  lemma CostsText()
    ensures PrintCosts(65536, 3, 2) == COSTS_TEXT
  {
    MemoryText();
    assert PrintNat(3) == "3" && PrintNat(2) == "2";
  }

  lemma HeadText(version: Str, costs: Str)
    requires version == VERSION_TEXT && costs == COSTS_TEXT
    ensures DOLLAR + ALGORITHM_NAME + DOLLAR + version + DOLLAR + costs + DOLLAR == PHC_HEAD
  {
  }

  /** The text of a hash with version 19 and the costs the panel uses. */
  function HashText(salt: Str, hash: Str): Str {
    PHC_HEAD + Base64.Encode(Base64.Std, false, salt) + ['$'] + Base64.Encode(Base64.Std, false, hash)
  }

  lemma PrintedHash(salt: Str, hash: Str)
    ensures PrintPhc(Params(65536, 3, 2, salt, hash)) == HashText(salt, hash)
  {
    HeadPrinted();
  }

  /** What HashPassword prints, literally. */
  lemma HashedText(kdf: Kdf, password: Str, salt: Str)
    requires password != []
    ensures Hash(kdf, password, Some(salt)) == Ok(HashText(salt, kdf(password, salt, 3, 65536, 2, 32)))
  {
    PrintedHash(salt, kdf(password, salt, 3, 65536, 2, 32));
  }

  /** And what is read from such a text, whoever wrote it. */
  lemma StoredHash(salt: Str, hash: Str)
    ensures Decode(HashText(salt, hash)) == Ok(Params(65536, 3, 2, salt, hash))
  {
    PrintedHash(salt, hash);
    DecodeRoundTrip(Params(65536, 3, 2, salt, hash));
  }

  /** A stored hash is verified by deriving a key of its length with its salt and costs: three passes
      over 64 MiB on two lanes. */
  lemma StoredHashVerified(kdf: Kdf, password: Str, salt: Str, hash: Str)
    ensures Verify(kdf, password, HashText(salt, hash)) == Ok(kdf(password, salt, 3, 65536, 2, |hash|) == hash)
  {
    StoredHash(salt, hash);
  }

  const VERSION_PREFIX: Str := "$argon2id$v="

  /** Any version printed in decimal. */
  function VersionedText(version: nat, rest: Str): Str {
    VERSION_PREFIX + PrintNat(version) + ['$'] + rest
  }

  /** Every version but 19 is refused, whatever follows in three more fields: as another version, or,
      if it does not fit an int, as no hash at all. */
  lemma OtherVersionRefused(version: nat, costs: Str, salt: Str, hash: Str)
    requires '$' !in costs && '$' !in salt && '$' !in hash
    ensures var r := Decode(VersionedText(version, costs + ['$'] + salt + ['$'] + hash));
            && (r == Err(IncompatibleVersion) <==> version != 19 && version < 0x8000_0000_0000_0000)
            && (version >= 0x8000_0000_0000_0000 ==> r == Err(InvalidHash))
  {
    SplitVersioned(version, costs, salt, hash);
    VersionScans(version);
  }

  lemma VersionScans(version: nat)
    ensures ScanVersion(VERSION_KEY + PrintNat(version)) == if version < 0x8000_0000_0000_0000 then Some(version) else None
  {
    ExpectPrinted(VERSION_KEY, PrintNat(version));
    ScanPrinted(version, []);
    assert PrintNat(version) + [] == PrintNat(version);
    assert IsDigit(PrintNat(version)[0]);
  }

  lemma SplitVersioned(version: nat, costs: Str, salt: Str, hash: Str)
    requires '$' !in costs && '$' !in salt && '$' !in hash
    ensures Split(VersionedText(version, costs + ['$'] + salt + ['$'] + hash), '$') ==
            [[], ALGORITHM_NAME, VERSION_KEY + PrintNat(version), costs, salt, hash]
  {
    var parts := [[], ALGORITHM_NAME, VERSION_KEY + PrintNat(version), costs, salt, hash];
    assert '$' !in VERSION_KEY + PrintNat(version);
    assert '$' !in ALGORITHM_NAME;
    SplitJoin(parts, '$');
    JoinSix([], ALGORITHM_NAME, VERSION_KEY + PrintNat(version), costs, salt, hash);
    JoinedVersioned(PrintNat(version), costs, salt, hash);
  }

  lemma JoinedVersioned(version: Str, costs: Str, salt: Str, hash: Str)
    ensures [] + DOLLAR + ALGORITHM_NAME + DOLLAR + (VERSION_KEY + version) + DOLLAR + costs + DOLLAR + salt + DOLLAR + hash
            == VERSION_PREFIX + version + ['$'] + (costs + ['$'] + salt + ['$'] + hash)
  {
  }

  // ---- what else the scanner takes ----

  predicate SpacesOnly(s: Str) {
    forall c :: c in s ==> c == ' ' || c == '\t'
  }

  predicate ZerosOnly(s: Str) {
    forall c :: c in s ==> c == '0'
  }

  lemma {:induction false} SpacesSkipped(spaces: Str, s: Str)
    requires SpacesOnly(spaces)
    ensures SkipSpace(spaces + s) == SkipSpace(s)
  {
    if spaces == [] {
      assert spaces + s == s;
    } else {
      assert spaces[0] in spaces;
      assert forall c :: c in spaces[1..] ==> c in spaces;
      assert (spaces + s)[1..] == spaces[1..] + s;
      SpacesSkipped(spaces[1..], s);
    }
  }

  lemma {:induction false} ZerosAreZero(zeros: Str)
    requires ZerosOnly(zeros)
    ensures forall c :: c in zeros ==> IsDigit(c)
    ensures DigitsValue(zeros) == 0
  {
    if zeros != [] {
      var front := zeros[..|zeros| - 1];
      assert zeros[|zeros| - 1] in zeros;
      forall c | c in front ensures c == '0' {
        assert c in zeros;
      }
      ZerosAreZero(front);
    }
  }

  lemma {:induction false} ZerosIgnored(zeros: Str, digits: Str)
    requires ZerosOnly(zeros) && forall c :: c in digits ==> IsDigit(c)
    ensures forall c :: c in zeros + digits ==> IsDigit(c)
    ensures DigitsValue(zeros + digits) == DigitsValue(digits)
    decreases |digits|
  {
    var all := zeros + digits;
    if digits == [] {
      ZerosAreZero(zeros);
      assert all == zeros;
    } else {
      assert all[..|all| - 1] == zeros + digits[..|digits| - 1];
      ZerosIgnored(zeros, digits[..|digits| - 1]);
    }
  }

  lemma DigitsScanned(zeros: Str, n: nat, rest: Str)
    requires ZerosOnly(zeros) && (rest == [] || !IsDigit(rest[0]))
    ensures ScanDigits(zeros + PrintNat(n) + rest) == Some((n, rest))
  {
    var d := zeros + PrintNat(n);
    ZerosIgnored(zeros, PrintNat(n));
    PrintNatRoundTrip(n);
    DigitRunOf(d, rest);
    assert (d + rest)[..|d|] == d && (d + rest)[|d|..] == rest;
  }

  lemma StartsWithDigit(zeros: Str, n: nat, rest: Str)
    requires ZerosOnly(zeros)
    ensures var s := zeros + PrintNat(n) + rest; s != [] && IsDigit(s[0]) && SkipSpace(s) == Some(s)
  {
    var s := zeros + PrintNat(n) + rest;
    assert IsDigit(PrintNat(n)[0]);
    if zeros != [] {
      assert zeros[0] in zeros;
    }
  }

  /** A cost is read with spaces and zeros before it, up to its maximum. */
  lemma CostScannedLoosely(spaces: Str, zeros: Str, n: nat, rest: Str, max: nat)
    requires SpacesOnly(spaces) && ZerosOnly(zeros) && (rest == [] || !IsDigit(rest[0]))
    ensures ScanUint(spaces + (zeros + PrintNat(n) + rest), max) == if n <= max then Some((n, rest)) else None
  {
    SpacesSkipped(spaces, zeros + PrintNat(n) + rest);
    StartsWithDigit(zeros, n, rest);
    DigitsScanned(zeros, n, rest);
  }

  /** A version also with a sign, if it fits an int. */
  lemma VersionScannedLoosely(spaces: Str, sign: Str, zeros: Str, n: nat, rest: Str)
    requires SpacesOnly(spaces) && ZerosOnly(zeros) && (rest == [] || !IsDigit(rest[0]))
    requires sign in {[], ['+'], ['-']} && n < 0x8000_0000_0000_0000
    ensures ScanInt(spaces + (sign + (zeros + PrintNat(n) + rest))) == Some((if sign == ['-'] then 0 - n else n, rest))
  {
    var number := zeros + PrintNat(n) + rest;
    SpacesSkipped(spaces, sign + number);
    StartsWithDigit(zeros, n, rest);
    DigitsScanned(zeros, n, rest);
    SignedScanned(spaces + (sign + number), sign, number, n, rest);
  }

  lemma SignedScanned(s: Str, sign: Str, number: Str, n: nat, rest: Str)
    requires SkipSpace(s) == SkipSpace(sign + number) && SkipSpace(number) == Some(number)
    requires number != [] && IsDigit(number[0]) && ScanDigits(number) == Some((n, rest))
    requires sign in {[], ['+'], ['-']} && n < 0x8000_0000_0000_0000
    ensures ScanInt(s) == Some((if sign == ['-'] then 0 - n else n, rest))
  {
    if sign == [] {
      assert sign + number == number;
    } else {
      SignKept(sign[0], number);
      assert sign == [sign[0]];
    }
  }

  lemma SignKept(c: byte, number: Str)
    requires c == '+' || c == '-'
    ensures SkipSpace([c] + number) == Some([c] + number) && ([c] + number)[1..] == number
  {
  }

  /** A line break before a number is an error, of either number. */
  lemma LineBreakRefused(s: Str, max: nat)
    ensures ScanUint(['\n'] + s, max).None? && ScanInt(['\n'] + s).None?
    ensures ScanUint(['\r', '\n'] + s, max).None? && ScanInt(['\r', '\n'] + s).None?
  {
  }

  // ---- what is refused ----

  /** Hashing fails for an empty password first, then for a failing reader, and for nothing else. */
  lemma HashRefused(kdf: Kdf, password: Str, random: Option<Str>)
    ensures Hash(kdf, [], random) == Err(EmptyPassword)
    ensures password != [] ==> Hash(kdf, password, None) == Err(NoEntropy)
    ensures password != [] && random.Some? ==> Hash(kdf, password, random).Ok?
  {
  }

  const ARGON2ID: Str := "argon2id"

  /** The costs, the salt and the hash can be read. */
  predicate Readable(costs: Str, salt: Str, hash: Str) {
    && ScanCosts(costs).Some?
    && Base64.Decode(Base64.Std, false, salt).Some?
    && Base64.Decode(Base64.Std, false, hash).Some?
  }

  /** A text is no hash if it has not six fields, or its second is not argon2id, or the version, the
      costs, the salt or the hash cannot be read; a version that can be read is looked at before the rest. */
  lemma DecodeRefused(encoded: Str)
    ensures var f := Split(encoded, '$');
            if |f| != 6 || f[1] != ARGON2ID || ScanVersion(f[2]).None? then Decode(encoded) == Err(InvalidHash)
            else if ScanVersion(f[2]).value != 19 then Decode(encoded) == Err(IncompatibleVersion)
            else if Readable(f[3], f[4], f[5]) then Decode(encoded).Ok?
            else Decode(encoded) == Err(InvalidHash)
  {
  }

  /** Verification fails with the decoder's error. */
  lemma VerifyRefused(kdf: Kdf, password: Str, encoded: Str)
    ensures Decode(encoded).Err? ==> Verify(kdf, password, encoded) == Err(Decode(encoded).error)
    ensures Decode(encoded).Ok? ==> Verify(kdf, password, encoded).Ok?
  {
  }
}
