/** The iteration order of the `std::map<std::string, T>` symbol tables.
    A `std::map` keyed by `std::string` iterates its keys in ascending
    lexicographic order (characters compared as unsigned bytes, a proper
    prefix first), whatever the order of insertion. */
module KeyOrder {

  /** `a < b` for `std::string`: lexicographic, a proper prefix is smaller. */
  predicate Less(a: string, b: string)
    decreases |a|
  {
    if |a| == 0 then |b| > 0
    else if |b| == 0 then false
    else if a[0] == b[0] then Less(a[1..], b[1..])
    else a[0] < b[0]
  }

  lemma {:induction false} LessIrreflexive(a: string)
    ensures !Less(a, a)
    decreases |a|
  {
    if |a| > 0 {
      LessIrreflexive(a[1..]);
    }
  }

  lemma {:induction false} LessAsymmetric(a: string, b: string)
    requires Less(a, b)
    ensures !Less(b, a)
    decreases |a|
  {
    if |a| > 0 && |b| > 0 && a[0] == b[0] {
      LessAsymmetric(a[1..], b[1..]);
    }
  }

  lemma {:induction false} LessTransitive(a: string, b: string, c: string)
    requires Less(a, b) && Less(b, c)
    ensures Less(a, c)
    decreases |a|
  {
    if |a| > 0 && |b| > 0 && |c| > 0 && a[0] == b[0] && b[0] == c[0] {
      LessTransitive(a[1..], b[1..], c[1..]);
    }
  }

  lemma {:induction false} LessTotal(a: string, b: string)
    ensures a == b || Less(a, b) || Less(b, a)
    decreases |a|
  {
    if |a| > 0 && |b| > 0 && a[0] == b[0] {
      LessTotal(a[1..], b[1..]);
      if a[1..] == b[1..] {
        assert a == [a[0]] + a[1..] && b == [b[0]] + b[1..];
      }
    }
  }

  /** `keys` lists only keys of `m`. */
  ghost predicate KeysIn<V>(keys: seq<string>, m: map<string, V>)
  {
    forall j :: 0 <= j < |keys| ==> keys[j] in m
  }

  /** The keys of `s` listed in strictly ascending order. */
  ghost predicate StrictlyAscending(s: seq<string>)
  {
    forall i, j :: 0 <= i < j < |s| ==> Less(s[i], s[j])
  }

  /** `m` is the smallest key of `s`. */
  predicate IsLeast(m: string, s: set<string>)
  {
    m in s && forall k :: k in s ==> m == k || Less(m, k)
  }

  lemma {:induction false} LeastExists(s: set<string>)
    requires s != {}
    ensures exists m :: IsLeast(m, s)
    decreases s
  {
    var x :| x in s;
    if s == {x} {
      assert IsLeast(x, s);
    } else {
      LeastExists(s - {x});
      var m :| IsLeast(m, s - {x});
      LessTotal(x, m);
      if Less(x, m) {
        forall k | k in s
          ensures x == k || Less(x, k)
        {
          if k != x && k != m {
            LessTransitive(x, m, k);
          }
        }
        assert IsLeast(x, s);
      } else {
        assert IsLeast(m, s);
      }
    }
  }

  /** The smallest key of a non-empty key set. */
  function Least(s: set<string>): (m: string)
    requires s != {}
    ensures IsLeast(m, s)
  {
    LeastExists(s);
    assert forall a, b :: Less(a, b) ==> !Less(b, a) by {
      forall a, b | Less(a, b) ensures !Less(b, a) { LessAsymmetric(a, b); }
    }
    var m :| IsLeast(m, s);
    m
  }

  /** The order in which a `std::map` with key set `s` is iterated; its
      ordering and completeness are `SortedKeysSpec`. */
  function SortedKeys(s: set<string>): (r: seq<string>)
    ensures |r| == |s|
    ensures forall j :: 0 <= j < |r| ==> r[j] in s
    decreases s
  {
    if s == {} then []
    else
      var m := Least(s);
      [m] + SortedKeys(s - {m})
  }

  /** `SortedKeys(s)` lists exactly the keys of `s`, in strictly ascending order. */
  lemma {:induction false} SortedKeysSpec(s: set<string>)
    ensures forall k :: k in SortedKeys(s) <==> k in s
    ensures StrictlyAscending(SortedKeys(s))
    decreases s
  {
    if s != {} {
      var m := Least(s);
      var rest := SortedKeys(s - {m});
      SortedKeysSpec(s - {m});
      assert SortedKeys(s) == [m] + rest;
      assert forall j :: 0 <= j < |rest| ==> Less(m, rest[j]);
    }
  }

  /** Iteration order depends only on the key set: any strictly ascending
      listing of the same keys is the sorted one. */
  lemma {:induction false} AscendingListingIsUnique(s: set<string>, r: seq<string>)
    requires forall k :: k in r <==> k in s
    requires StrictlyAscending(r)
    ensures r == SortedKeys(s)
    decreases |r|
  {
    if r != [] {
      forall j | 1 <= j < |r| ensures r[0] != r[j] {
        LessIrreflexive(r[0]);
      }
      assert r[0] in s;
      var m := Least(s);
      assert r[0] == m by {
        if r[0] != m {
          var j :| 0 <= j < |r| && r[j] == m;
          assert Less(m, r[0]);
          assert j > 0 && Less(r[0], r[j]);
          LessAsymmetric(m, r[0]);
        }
      }
      forall k ensures k in r[1..] <==> k in s - {m} {
        if k in r[1..] {
          var j :| 1 <= j < |r| && r[j] == k;
          LessIrreflexive(m);
        }
        if k in s - {m} {
          var j :| 0 <= j < |r| && r[j] == k;
        }
      }
      AscendingListingIsUnique(s - {m}, r[1..]);
    } else {
      assert forall k :: k !in s;
    }
  }
}
