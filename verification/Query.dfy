/** url.Values and its printed form: key=value pairs, escaped, sorted by key, joined by '&'. */
module Query {
  import opened GoStrings
  import opened SortedKeys
  import opened UrlEscape

  /** url.Values as the link builders use it: filled with Set only, one value a key. */
  class Values {
    var m: map<Str, Str>

    constructor ()
      ensures m == map[]
    {
      m := map[];
    }

    method Set(key: Str, value: Str)
      modifies this
      ensures m == old(m)[key := value]
    {
      m := m[key := value];
    }
  }

  function PrintPair(k: Str, v: Str): Str {
    Escape(QueryComponent, k) + "=" + Escape(QueryComponent, v)
  }

  function PrintPairs(ks: seq<Str>, m: map<Str, Str>): (pairs: seq<Str>)
    requires forall k :: k in ks ==> k in m
    ensures |pairs| == |ks|
  {
    if ks == [] then [] else [PrintPair(ks[0], m[ks[0]])] + PrintPairs(ks[1..], m)
  }

  /** Values.Encode. */
  function Encode(m: map<Str, Str>): Str {
    Join(PrintPairs(Sorted(m.Keys), m), '&')
  }

  /** url.ParseQuery; of a repeated key the first value counts, as for Values.Get. */
  function Parse(s: Str): Option<map<Str, Str>> {
    ParsePairs(Split(s, '&'))
  }

  function ParsePairs(pairs: seq<Str>): Option<map<Str, Str>> {
    if pairs == [] then Some(map[])
    else if pairs[0] == [] then ParsePairs(pairs[1..])
    else if ';' in pairs[0] then None
    else
      var p := pairs[0];
      var i := IndexByte(p, '=');
      var k := Unescape(QueryComponent, p[..i]);
      var v := Unescape(QueryComponent, if i < |p| then p[i + 1..] else []);
      match ParsePairs(pairs[1..])
      case None => None
      case Some(rest) => if k.None? || v.None? then None else Some(rest[k.value := v.value])
  }

  lemma PairBytes(k: Str, v: Str)
    ensures forall c :: c in PrintPair(k, v) ==> Printed(QueryComponent, c) || c == '='
    ensures forall c :: c in "#?/\n&;:" ==> c !in PrintPair(k, v)
  {
    EscapedBytes(QueryComponent, k);
    EscapedBytes(QueryComponent, v);
  }

  lemma {:induction false} PairsBytes(ks: seq<Str>, m: map<Str, Str>)
    requires forall k :: k in ks ==> k in m
    ensures forall p :: p in PrintPairs(ks, m) ==> forall c :: c in "#?/\n&;:" ==> c !in p
  {
    if ks != [] {
      PairBytes(ks[0], m[ks[0]]);
      PairsBytes(ks[1..], m);
    }
  }

  lemma {:induction false} JoinBytes(pieces: seq<Str>, sep: byte, c: byte)
    requires c != sep && forall p :: p in pieces ==> c !in p
    ensures c !in Join(pieces, sep)
  {
    if |pieces| > 1 {
      JoinBytes(pieces[1..], sep, c);
    }
  }

  /** The printed query cannot be mistaken for another part of the URI. */
  lemma EncodeBytes(m: map<Str, Str>)
    ensures forall c :: c in "#?/\n" ==> c !in Encode(m)
    ensures ':' !in Encode(m)
  {
    var pairs := PrintPairs(Sorted(m.Keys), m);
    PairsBytes(Sorted(m.Keys), m);
    forall c | c in "#?/\n" ensures c !in Encode(m) {
      JoinBytes(pairs, '&', c);
    }
    assert ':' in "#?/\n&;:";
    JoinBytes(pairs, '&', ':');
  }

  lemma ParsePrintedPair(k: Str, v: Str, rest: seq<Str>)
    ensures ParsePairs([PrintPair(k, v)] + rest) ==
            match ParsePairs(rest) case None => None case Some(m) => Some(m[k := v])
  {
    var p := PrintPair(k, v);
    EscapedBytes(QueryComponent, k);
    IndexByteAppend(Escape(QueryComponent, k), '=', Escape(QueryComponent, v));
    PairBytes(k, v);
    RoundTrip(QueryComponent, k);
    RoundTrip(QueryComponent, v);
    var i := IndexByte(p, '=');
    assert p[..i] == Escape(QueryComponent, k) && p[i + 1..] == Escape(QueryComponent, v);
    assert ([p] + rest)[1..] == rest;
  }

  lemma {:induction false} PairsRoundTrip(ks: seq<Str>, m: map<Str, Str>)
    requires forall k :: k in ks ==> k in m
    ensures ParsePairs(PrintPairs(ks, m)) == Some(map k | k in ks :: m[k])
  {
    if ks != [] {
      PairsRoundTrip(ks[1..], m);
      ParsePrintedPair(ks[0], m[ks[0]], PrintPairs(ks[1..], m));
      assert (map k | k in ks :: m[k]) == (map k | k in ks[1..] :: m[k])[ks[0] := m[ks[0]]];
    }
  }

  /** Parsing inverts printing on every finite string-to-string map. */
  lemma EncodeRoundTrip(m: map<Str, Str>)
    ensures Parse(Encode(m)) == Some(m)
  {
    var ks := Sorted(m.Keys);
    PairsRoundTrip(ks, m);
    assert (map k | k in ks :: m[k]) == m;
    if ks == [] {
      SplitWhole([], '&');
      assert ParsePairs([[]] + []) == Some(map[]);
    } else {
      PairsBytes(ks, m);
      SplitJoin(PrintPairs(ks, m), '&');
    }
  }

  lemma {:induction false} PrintPairsOf(ks: seq<Str>, m: map<Str, Str>, pairs: seq<Str>)
    requires forall k :: k in ks ==> k in m
    requires |pairs| == |ks|
    requires forall i :: 0 <= i < |ks| ==> pairs[i] == PrintPair(ks[i], m[ks[i]])
    ensures pairs == PrintPairs(ks, m)
  {
    if ks != [] {
      PrintPairsOf(ks[1..], m, pairs[1..]);
      assert pairs == [pairs[0]] + pairs[1..];
    }
  }

  /** The printed text depends on the entries only: any listing of the keys in strictly
      increasing order, however the map was filled, prints the same text. */
  lemma EncodeCanonical(m: map<Str, Str>, ks: seq<Str>, pairs: seq<Str>)
    requires StrictlySorted(ks)
    requires forall k :: k in ks <==> k in m
    requires |pairs| == |ks|
    requires forall i :: 0 <= i < |ks| ==> pairs[i] == PrintPair(ks[i], m[ks[i]])
    ensures Join(pairs, '&') == Encode(m)
  {
    SortedUnique(m.Keys, ks);
    PrintPairsOf(ks, m, pairs);
  }

  /** Every map has such a listing. */
  lemma Listing(m: map<Str, Str>) returns (ks: seq<Str>, pairs: seq<Str>)
    ensures StrictlySorted(ks) && (forall k :: k in ks <==> k in m)
    ensures |pairs| == |ks| && forall i :: 0 <= i < |ks| ==> pairs[i] == PrintPair(ks[i], m[ks[i]])
  {
    ks := Sorted(m.Keys);
    SortedIsSorted(m.Keys);
    pairs := seq(|ks|, i requires 0 <= i < |ks| => assert ks[i] in ks; PrintPair(ks[i], m[ks[i]]));
  }

  /** Queries of one, two and three parameters. */
  lemma EncodeOne(m: map<Str, Str>, k: Str, v: Str)
    requires m == map[k := v]
    ensures Encode(m) == PrintPair(k, v)
  {
    EncodeCanonical(m, [k], [PrintPair(k, v)]);
  }

  lemma EncodeTwo(m: map<Str, Str>, k: Str, v: Str, k': Str, v': Str)
    requires m == map[k := v, k' := v'] && Less(k, k')
    ensures Encode(m) == PrintPair(k, v) + ['&'] + PrintPair(k', v')
  {
    LessTrichotomy(k, k');
    EncodeCanonical(m, [k, k'], [PrintPair(k, v), PrintPair(k', v')]);
    JoinTwo(PrintPair(k, v), PrintPair(k', v'));
  }

  lemma JoinTwo(a: Str, b: Str)
    ensures Join([a, b], '&') == a + ['&'] + b
  {
    assert [a, b][1..] == [b];
  }

  lemma JoinThree(a: Str, b: Str, c: Str)
    ensures Join([a, b, c], '&') == a + ['&'] + (b + ['&'] + c)
  {
    assert [a, b, c][1..] == [b, c];
    JoinTwo(b, c);
  }

  lemma SortedThree(k: Str, k': Str, k'': Str)
    requires Less(k, k') && Less(k', k'')
    ensures StrictlySorted([k, k', k'']) && k != k' && k' != k'' && k != k''
  {
    LessTransitive(k, k', k'');
    LessTrichotomy(k, k');
    LessTrichotomy(k', k'');
    LessTrichotomy(k, k'');
  }

  lemma EncodeThree(m: map<Str, Str>, k: Str, v: Str, k': Str, v': Str, k'': Str, v'': Str)
    requires m == map[k := v, k' := v', k'' := v''] && Less(k, k') && Less(k', k'')
    ensures Encode(m) == PrintPair(k, v) + ['&'] + (PrintPair(k', v') + ['&'] + PrintPair(k'', v''))
  {
    SortedThree(k, k', k'');
    var ks := [k, k', k''];
    assert m[k] == v && m[k'] == v' && m[k''] == v'';
    assert forall x :: x in ks <==> x in m;
    ThreePairs(m, k, k', k'');
    JoinThree(PrintPair(k, v), PrintPair(k', v'), PrintPair(k'', v''));
  }

  lemma ThreePairs(m: map<Str, Str>, k: Str, k': Str, k'': Str)
    requires StrictlySorted([k, k', k'']) && k in m && k' in m && k'' in m
    requires forall x :: x in [k, k', k''] <==> x in m
    ensures Encode(m) == Join([PrintPair(k, m[k]), PrintPair(k', m[k']), PrintPair(k'', m[k''])], '&')
  {
    EncodeCanonical(m, [k, k', k''], [PrintPair(k, m[k]), PrintPair(k', m[k']), PrintPair(k'', m[k''])]);
  }
}
