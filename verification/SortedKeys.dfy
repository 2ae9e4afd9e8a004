/** The order in which Go prints the keys of a map: url.Values.Encode and json.Marshal both
    sort them by their bytes. */
module SortedKeys {
  import opened GoStrings

  /** Byte-lexicographic order. */
  predicate Less(a: Str, b: Str) {
    if b == [] then false
    else if a == [] then true
    else a[0] < b[0] || (a[0] == b[0] && Less(a[1..], b[1..]))
  }

  lemma {:induction false} LessTrichotomy(a: Str, b: Str)
    ensures Less(a, b) || a == b || Less(b, a)
    ensures !(Less(a, b) && Less(b, a)) && !Less(a, a)
  {
    if a != [] && b != [] {
      LessTrichotomy(a[1..], b[1..]);
      LessTrichotomy(a[1..], a[1..]);
      assert a == [a[0]] + a[1..] && b == [b[0]] + b[1..];
    } else if a != [] {
      LessTrichotomy(a[1..], a[1..]);
    }
  }

  lemma {:induction false} LessTransitive(a: Str, b: Str, c: Str)
    requires Less(a, b) && Less(b, c)
    ensures Less(a, c)
  {
    if a != [] && b[0] == a[0] && c[0] == a[0] {
      LessTransitive(a[1..], b[1..], c[1..]);
    }
  }

  predicate IsMin(k: Str, ks: set<Str>) {
    k in ks && forall x :: x in ks ==> x == k || Less(k, x)
  }

  lemma {:induction false} MinExists(ks: set<Str>) returns (k: Str)
    requires ks != {}
    ensures IsMin(k, ks)
  {
    k :| k in ks;
    if ks != {k} {
      var m := MinExists(ks - {k});
      LessTrichotomy(k, m);
      if Less(m, k) {
        k := m;
      } else {
        forall x | x in ks ensures x == k || Less(k, x) {
          if x != k && x != m {
            LessTransitive(k, m, x);
          }
        }
      }
    }
  }

  lemma MinUnique(k: Str, k': Str, ks: set<Str>)
    requires IsMin(k, ks) && IsMin(k', ks)
    ensures k == k'
  {
    LessTrichotomy(k, k');
  }

  function Min(ks: set<Str>): (k: Str)
    requires ks != {}
    ensures IsMin(k, ks)
  {
    assert exists k :: IsMin(k, ks) by {
      var k := MinExists(ks);
    }
    assert forall k, k' :: IsMin(k, ks) && IsMin(k', ks) ==> k == k' by {
      forall k, k' | IsMin(k, ks) && IsMin(k', ks) ensures k == k' {
        MinUnique(k, k', ks);
      }
    }
    var k :| k in ks && IsMin(k, ks);
    k
  }

  function Sorted(ks: set<Str>): (s: seq<Str>)
    ensures forall k :: k in s <==> k in ks
    ensures s == [] <==> ks == {}
  {
    if ks == {} then []
    else
      var k := Min(ks);
      assert forall x :: x in ks <==> x == k || x in ks - {k};
      [k] + Sorted(ks - {k})
  }

  predicate StrictlySorted(s: seq<Str>) {
    forall i, j :: 0 <= i < j < |s| ==> Less(s[i], s[j])
  }

  lemma {:induction false} SortedIsSorted(ks: set<Str>)
    ensures StrictlySorted(Sorted(ks))
  {
    if ks != {} {
      SortedIsSorted(ks - {Min(ks)});
      var t := Sorted(ks - {Min(ks)});
      assert forall j :: 0 <= j < |t| ==> t[j] in t;
    }
  }

  /** There is only one sorted enumeration of a key set, so the printed order cannot depend
      on the order in which the entries were set. */
  lemma {:induction false} SortedUnique(ks: set<Str>, s: seq<Str>)
    requires StrictlySorted(s)
    requires forall k :: k in s <==> k in ks
    ensures s == Sorted(ks)
  {
    if s == [] {
      assert ks == {};
    } else {
      assert s[0] in ks;
      forall x | x in ks ensures x == s[0] || Less(s[0], x) {
        var i :| 0 <= i < |s| && s[i] == x;
      }
      MinUnique(s[0], Min(ks), ks);
      var rest := s[1..];
      forall k | k in rest ensures k in ks - {s[0]} {
        var i :| 0 <= i < |rest| && rest[i] == k;
        assert s[i + 1] == k;
        LessTrichotomy(s[0], k);
      }
      SortedUnique(ks - {s[0]}, rest);
      assert s == [s[0]] + rest;
    }
  }

  /** a comes before b exactly when it is a proper beginning of b, or has the smaller byte at the first
      place where they differ. */
  lemma {:induction false} LessIsLexicographic(a: Str, b: Str)
    ensures Less(a, b) <==> exists i :: 0 <= i <= |a| && i < |b| && a[..i] == b[..i] && (i == |a| || a[i] < b[i])
    decreases |a|
  {
    if b != [] && a != [] {
      LessIsLexicographic(a[1..], b[1..]);
      if Less(a, b) && a[0] == b[0] {
        var i :| 0 <= i <= |a[1..]| && i < |b[1..]| && a[1..][..i] == b[1..][..i] && (i == |a[1..]| || a[1..][i] < b[1..][i]);
        assert a[..i + 1] == [a[0]] + a[1..][..i] && b[..i + 1] == [b[0]] + b[1..][..i];
      }
      forall i | 0 <= i <= |a| && i < |b| && a[..i] == b[..i] && (i == |a| || a[i] < b[i]) ensures Less(a, b) {
        if i > 0 {
          assert a[0] == a[..i][0] && b[0] == b[..i][0];
          assert a[1..][..i - 1] == a[..i][1..] && b[1..][..i - 1] == b[..i][1..];
        }
      }
    } else if b != [] {
      assert a[..0] == b[..0];
    }
  }
}
