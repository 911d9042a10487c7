/**
 Go's order on strings and the ascending list of a set of strings, the order in which
 the stores visit event IDs and in which object keys are printed.
 Strings are sequences of Unicode scalar values, where code point order and the byte
 order of the UTF-8 encodings coincide.
 */
module Ordering {

  /** The strict lexicographic order. */
  predicate Less(a: string, b: string) {
    if b == "" then false
    else if a == "" then true
    else a[0] < b[0] || (a[0] == b[0] && Less(a[1..], b[1..]))
  }

  lemma {:induction false} LessIrreflexive(a: string)
    ensures !Less(a, a)
  {
    if a != "" {
      LessIrreflexive(a[1..]);
    }
  }

  lemma {:induction false} LessTransitive(a: string, b: string, c: string)
    requires Less(a, b) && Less(b, c)
    ensures Less(a, c)
  {
    if a != "" && a[0] == b[0] == c[0] {
      LessTransitive(a[1..], b[1..], c[1..]);
    }
  }

  lemma {:induction false} LessTotal(a: string, b: string)
    ensures a == b || Less(a, b) || Less(b, a)
  {
    if a != "" && b != "" && a[0] == b[0] {
      LessTotal(a[1..], b[1..]);
      assert a == [a[0]] + a[1..] && b == [b[0]] + b[1..];
    }
  }

  lemma {:induction false} LessAsymmetric(a: string, b: string)
    requires Less(a, b)
    ensures !Less(b, a) && a != b
  {
    LessIrreflexive(a);
    if Less(b, a) {
      LessTransitive(a, b, a);
    }
  }

  /** A common prefix does not change the order. */
  lemma {:induction false} LessAfterPrefix(prefix: string, a: string, b: string)
    ensures Less(prefix + a, prefix + b) == Less(a, b)
  {
    if prefix == "" {
      assert prefix + a == a && prefix + b == b;
    } else {
      LessAfterPrefix(prefix[1..], a, b);
      assert (prefix + a)[1..] == prefix[1..] + a && (prefix + b)[1..] == prefix[1..] + b;
    }
  }

  /** Two strings of one length that differ decide the order whatever follows them. */
  lemma {:induction false} LessDecidedEarly(a: string, b: string, x: string, y: string)
    requires |a| == |b| && a != b
    ensures Less(a + x, b + y) == Less(a, b)
  {
    assert a == [a[0]] + a[1..] && b == [b[0]] + b[1..];
    assert (a + x)[1..] == a[1..] + x && (b + y)[1..] == b[1..] + y;
    if a[0] == b[0] {
      LessDecidedEarly(a[1..], b[1..], x, y);
    }
  }

  /** The first k characters agree, and behind them the first string ends or has the smaller character. */
  ghost predicate SmallerAt(a: string, b: string, k: nat) {
    k <= |a| && k < |b| && a[..k] == b[..k] && (k == |a| || a[k] < b[k])
  }

  lemma SameFirst(a: string, b: string, k: nat)
    requires SmallerAt(a, b, k) && k > 0
    ensures a[0] == b[0]
  {
    assert a[0] == a[..k][0] && b[0] == b[..k][0];
  }

  /** The order is decided by code points at the first difference. */
  lemma {:induction false} LessExactly(a: string, b: string)
    ensures Less(a, b) <==> exists k: nat :: SmallerAt(a, b, k)
  {
    if b != "" && a != "" && a[0] == b[0] {
      LessExactly(a[1..], b[1..]);
      assert a == [a[0]] + a[1..] && b == [b[0]] + b[1..];
      forall k: nat | SmallerAt(a[1..], b[1..], k) ensures SmallerAt(a, b, k + 1) {
        assert a[..k + 1] == [a[0]] + a[1..][..k] && b[..k + 1] == [b[0]] + b[1..][..k];
      }
      forall k: nat | SmallerAt(a, b, k) ensures k > 0 && SmallerAt(a[1..], b[1..], k - 1) {
        assert a[1..][..k - 1] == a[..k][1..] && b[1..][..k - 1] == b[..k][1..];
      }
    } else if b != "" {
      assert Less(a, b) ==> SmallerAt(a, b, 0);
      forall k: nat | SmallerAt(a, b, k) ensures k == 0 {
        if k > 0 {
          SameFirst(a, b, k);
        }
      }
    }
  }

  predicate Ascending(s: seq<string>) {
    forall i, j | 0 <= i < j < |s| :: Less(s[i], s[j])
  }

  function Elements(s: seq<string>): set<string> {
    set x | x in s
  }

  predicate Distinct(s: seq<string>) {
    forall i, j | 0 <= i < j < |s| :: s[i] != s[j]
  }

  lemma AscendingIsDistinct(s: seq<string>)
    requires Ascending(s)
    ensures Distinct(s)
  {
    forall i, j | 0 <= i < j < |s| ensures s[i] != s[j] {
      LessIrreflexive(s[i]);
    }
  }

  lemma LastIsNew(s: seq<string>)
    requires s != [] && Distinct(s)
    ensures s == s[..|s| - 1] + [s[|s| - 1]] && Distinct(s[..|s| - 1])
    ensures forall i | 0 <= i < |s| - 1 :: s[i] != s[|s| - 1] && s[..|s| - 1][i] == s[i]
  {
  }

  lemma DistinctSize(ids: seq<string>)
    requires Distinct(ids)
    ensures |Elements(ids)| == |ids|
  {
    if ids != [] {
      LastIsNew(ids);
      DistinctSize(ids[..|ids| - 1]);
      assert Elements(ids) == Elements(ids[..|ids| - 1]) + {ids[|ids| - 1]};
    }
  }

  lemma SubsetFits(a: set<string>, b: set<string>)
    requires a <= b
    ensures |a| <= |b| && (|a| == |b| ==> a == b)
  {
    if a != {} {
      var x :| x in a;
      SubsetFits(a - {x}, b - {x});
    }
  }

  predicate IsLeast(least: string, keys: set<string>) {
    least in keys && forall k | k in keys :: k == least || Less(least, k)
  }

  lemma LeastExists(keys: set<string>)
    requires keys != {}
    ensures exists least :: IsLeast(least, keys)
    decreases |keys|
  {
    var k :| k in keys;
    var rest := keys - {k};
    if rest == {} {
      assert keys == {k};
      assert IsLeast(k, keys);
    } else {
      LeastExists(rest);
      var m :| IsLeast(m, rest);
      LessTotal(k, m);
      var least := if Less(k, m) then k else m;
      forall x | x in keys ensures x == least || Less(least, x) {
        if x != m && x != k && least == k {
          LessTransitive(k, m, x);
        }
      }
      assert IsLeast(least, keys);
    }
  }

  lemma LeastUnique(keys: set<string>)
    ensures forall a, b | IsLeast(a, keys) && IsLeast(b, keys) :: a == b
  {
    forall a, b | IsLeast(a, keys) && IsLeast(b, keys) ensures a == b {
      if a != b {
        LessAsymmetric(a, b);
      }
    }
  }

  /** The members of a set in ascending order. */
  function Sort(keys: set<string>): seq<string>
    decreases |keys|
  {
    if keys == {} then []
    else
      LeastExists(keys);
      LeastUnique(keys);
      var least :| least in keys && IsLeast(least, keys);
      [least] + Sort(keys - {least})
  }

  lemma {:induction false} SortCorrect(keys: set<string>)
    ensures Ascending(Sort(keys)) && Elements(Sort(keys)) == keys && |Sort(keys)| == |keys|
    decreases |keys|
  {
    if keys != {} {
      var least := Sort(keys)[0];
      LeastExists(keys);
      LeastUnique(keys);
      assert IsLeast(least, keys);
      SortCorrect(keys - {least});
      PrependLeast(least, Sort(keys - {least}), keys);
    }
  }

  lemma PrependLeast(least: string, rest: seq<string>, keys: set<string>)
    requires IsLeast(least, keys) && Ascending(rest) && Elements(rest) == keys - {least}
    ensures Ascending([least] + rest) && Elements([least] + rest) == keys
  {
    forall i | 0 <= i < |rest| ensures Less(least, rest[i]) {
      assert rest[i] in Elements(rest);
    }
    assert Elements([least] + rest) == {least} + Elements(rest);
  }

  /** An ascending list is determined by its members. */
  lemma AscendingUnique(s: seq<string>, t: seq<string>)
    requires Ascending(s) && Ascending(t) && Elements(s) == Elements(t)
    ensures s == t
  {
    if s == [] {
      if t != [] {
        NonEmptyElements(t);
      }
    } else {
      assert s[0] in Elements(t) && (t != [] ==> t[0] in Elements(s));
      HeadsAgree(s, t);
      forall x ensures x in Elements(s[1..]) <==> x in Elements(t[1..]) {
        TailElements(s, x);
        TailElements(t, x);
      }
      AscendingUnique(s[1..], t[1..]);
      assert s == [s[0]] + s[1..] && t == [t[0]] + t[1..];
    }
  }

  lemma NonEmptyElements(s: seq<string>)
    requires s != []
    ensures Elements(s) != {}
  {
    assert s[0] in Elements(s);
  }

  lemma HeadsAgree(s: seq<string>, t: seq<string>)
    requires Ascending(s) && Ascending(t) && s != [] && t != []
    requires s[0] in t && t[0] in s
    ensures s[0] == t[0]
  {
    if s[0] != t[0] {
      assert Less(s[0], t[0]) && Less(t[0], s[0]);
      LessAsymmetric(s[0], t[0]);
    }
  }

  lemma TailElements(s: seq<string>, x: string)
    requires Ascending(s) && s != []
    ensures x in Elements(s[1..]) <==> x in Elements(s) && x != s[0]
  {
    if x in s[1..] {
      var i :| 0 <= i < |s| - 1 && s[1..][i] == x;
      assert s[i + 1] == x && Less(s[0], x);
      LessIrreflexive(x);
    }
    if x in s && x != s[0] {
      var i :| 0 <= i < |s| && s[i] == x;
      assert s[1..][i - 1] == x;
    }
  }

  /** Sorting by insertion, for the sort of a map's keys in a store. */
  method SortStrings(keys: set<string>) returns (ids: seq<string>)
    ensures ids == Sort(keys)
  {
    ids := [];
    var rest := keys;
    while rest != {}
      invariant Ascending(ids) && Elements(ids) + rest == keys && Elements(ids) !! rest
      decreases |rest|
    {
      var k :| k in rest;
      ids := Insert(ids, k);
      rest := rest - {k};
    }
    SortCorrect(keys);
    AscendingUnique(ids, Sort(keys));
  }

  function Insert(ids: seq<string>, k: string): (s: seq<string>)
    requires Ascending(ids) && k !in ids
    ensures Ascending(s) && Elements(s) == Elements(ids) + {k}
  {
    if ids == [] then [k]
    else if Less(k, ids[0]) then
      InsertFront(ids, k);
      [k] + ids
    else
      LessTotal(k, ids[0]);
      var tail := Insert(ids[1..], k);
      assert ids == [ids[0]] + ids[1..];
      assert forall i | 0 <= i < |tail| :: tail[i] in Elements(ids[1..]) + {k};
      [ids[0]] + tail
  }

  lemma {:induction false} InsertFront(ids: seq<string>, k: string)
    requires Ascending(ids) && ids != [] && Less(k, ids[0])
    ensures Ascending([k] + ids)
    ensures Elements([k] + ids) == Elements(ids) + {k}
  {
    forall i | 0 < i < |ids| ensures Less(k, ids[i]) {
      LessTransitive(k, ids[0], ids[i]);
    }
  }
}
