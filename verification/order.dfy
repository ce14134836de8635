/**
 * Python's `sorted(xs, key=...)`: a stable sort by a key. Keys are integer
 * sequences compared lexicographically (a proper prefix is smaller), which
 * covers both datetimes (year, month, day) and strings (code points).
 */
module Order {

  predicate LexLe(a: seq<int>, b: seq<int>)
    decreases |a|
  {
    if |a| == 0 then true
    else if |b| == 0 then false
    else if a[0] != b[0] then a[0] < b[0]
    else LexLe(a[1..], b[1..])
  }

  lemma {:induction false} LexLeReflexive(a: seq<int>)
    ensures LexLe(a, a)
    decreases |a|
  {
    if |a| > 0 { LexLeReflexive(a[1..]); }
  }

  lemma {:induction false} LexLeTotal(a: seq<int>, b: seq<int>)
    ensures LexLe(a, b) || LexLe(b, a)
    decreases |a|
  {
    if |a| > 0 && |b| > 0 && a[0] == b[0] { LexLeTotal(a[1..], b[1..]); }
  }

  lemma {:induction false} LexLeTransitive(a: seq<int>, b: seq<int>, c: seq<int>)
    requires LexLe(a, b) && LexLe(b, c)
    ensures LexLe(a, c)
    decreases |a|
  {
    if |a| > 0 && |b| > 0 && |c| > 0 && a[0] == b[0] && b[0] == c[0] {
      LexLeTransitive(a[1..], b[1..], c[1..]);
    }
  }

  lemma {:induction false} LexLeAntisymmetric(a: seq<int>, b: seq<int>)
    requires LexLe(a, b) && LexLe(b, a)
    ensures a == b
    decreases |a|
  {
    if |a| > 0 {
      LexLeAntisymmetric(a[1..], b[1..]);
      assert a == [a[0]] + a[1..] && b == [b[0]] + b[1..];
    }
  }

  /** An element paired with its sort key. */
  datatype Keyed<T> = Keyed(key: seq<int>, item: T)

  ghost predicate SortedByKey<T>(s: seq<Keyed<T>>)
  {
    forall i, j :: 0 <= i < j < |s| ==> LexLe(s[i].key, s[j].key)
  }

  /** The elements of `s` whose key is `k`, in their order in `s`. */
  function WithKey<T>(s: seq<Keyed<T>>, k: seq<int>): seq<Keyed<T>>
  {
    if |s| == 0 then [] else (if s[0].key == k then [s[0]] else []) + WithKey(s[1..], k)
  }

  /** Put `x` before the first element whose key is not below its own. */
  function Insert<T>(x: Keyed<T>, s: seq<Keyed<T>>): (r: seq<Keyed<T>>)
    ensures |r| == |s| + 1
  {
    if |s| == 0 then [x]
    else if LexLe(x.key, s[0].key) then [x] + s
    else [s[0]] + Insert(x, s[1..])
  }

  function Sort<T>(s: seq<Keyed<T>>): (r: seq<Keyed<T>>)
    ensures |r| == |s|
  {
    if |s| == 0 then [] else Insert(s[0], Sort(s[1..]))
  }

  /** The items of a keyed sequence, keys dropped. */
  function Items<T>(s: seq<Keyed<T>>): (r: seq<T>)
    ensures |r| == |s| && forall i :: 0 <= i < |s| ==> r[i] == s[i].item
  {
    if |s| == 0 then [] else [s[0].item] + Items(s[1..])
  }

  lemma {:induction false} InsertElements<T>(x: Keyed<T>, s: seq<Keyed<T>>)
    ensures multiset(Insert(x, s)) == multiset(s) + multiset{x}
    decreases |s|
  {
    if |s| > 0 && !LexLe(x.key, s[0].key) {
      InsertElements(x, s[1..]);
      assert s == [s[0]] + s[1..];
    }
  }

  lemma {:induction false} InsertSorted<T>(x: Keyed<T>, s: seq<Keyed<T>>)
    requires SortedByKey(s)
    ensures SortedByKey(Insert(x, s))
    decreases |s|
  {
    if |s| == 0 {
    } else if LexLe(x.key, s[0].key) {
      var r := Insert(x, s);
      forall i, j | 0 <= i < j < |r| ensures LexLe(r[i].key, r[j].key) {
        if i == 0 && j > 1 {
          LexLeTransitive(x.key, s[0].key, s[j - 1].key);
        }
      }
    } else {
      InsertSorted(x, s[1..]);
      var r := Insert(x, s);
      var t := Insert(x, s[1..]);
      assert r == [s[0]] + t;
      InsertElements(x, s[1..]);
      LexLeTotal(x.key, s[0].key);
      forall j | 0 < j < |r| ensures LexLe(s[0].key, r[j].key) {
        assert r[j] in multiset(t);
        assert r[j] in multiset(s[1..]) + multiset{x};
        if r[j] != x {
          assert r[j] in s[1..];
          var k :| 0 <= k < |s[1..]| && s[1..][k] == r[j];
          assert s[k + 1] == r[j];
        }
      }
    }
  }

  lemma {:induction false} InsertWithKey<T>(x: Keyed<T>, s: seq<Keyed<T>>, k: seq<int>)
    requires SortedByKey(s)
    ensures WithKey(Insert(x, s), k) == (if x.key == k then [x] else []) + WithKey(s, k)
    decreases |s|
  {
    if |s| == 0 {
    } else if LexLe(x.key, s[0].key) {
    } else {
      // s[0] has a key strictly below x's, so it is not among x's key class
      if s[0].key == x.key { LexLeReflexive(x.key); }
      assert WithKey(s, k) == (if s[0].key == k then [s[0]] else []) + WithKey(s[1..], k);
      InsertWithKey(x, s[1..], k);
    }
  }

  /** The three facts that together say `Sort` is Python's stable sort. */
  lemma {:induction false} SortCorrect<T>(s: seq<Keyed<T>>)
    ensures SortedByKey(Sort(s))
    ensures multiset(Sort(s)) == multiset(s)
    ensures forall k :: WithKey(Sort(s), k) == WithKey(s, k)
    decreases |s|
  {
    if |s| > 0 {
      SortCorrect(s[1..]);
      InsertSorted(s[0], Sort(s[1..]));
      InsertElements(s[0], Sort(s[1..]));
      assert s == [s[0]] + s[1..];
      forall k ensures WithKey(Sort(s), k) == WithKey(s, k) {
        InsertWithKey(s[0], Sort(s[1..]), k);
      }
    }
  }

  lemma {:induction false} ItemsAppend<T>(a: seq<Keyed<T>>, b: seq<Keyed<T>>)
    ensures Items(a + b) == Items(a) + Items(b)
  {
    assert |Items(a + b)| == |Items(a) + Items(b)|;
    forall i | 0 <= i < |a| + |b| ensures Items(a + b)[i] == (Items(a) + Items(b))[i] {
      if i >= |a| {
        assert (a + b)[i] == b[i - |a|];
      }
    }
  }

  /** Reordering keyed elements reorders their items alike. */
  lemma {:induction false} ItemsPermutation<T>(s: seq<Keyed<T>>, t: seq<Keyed<T>>)
    requires multiset(s) == multiset(t)
    ensures multiset(Items(s)) == multiset(Items(t))
    decreases |s|
  {
    if |s| == 0 {
      assert |t| == 0;
    } else {
      var x := s[0];
      assert x in multiset(t);
      var k :| 0 <= k < |t| && t[k] == x;
      var rest := t[..k] + t[k + 1..];
      assert t == t[..k] + [x] + t[k + 1..];
      assert s == [x] + s[1..];
      assert multiset(t) == multiset(t[..k]) + multiset{x} + multiset(t[k + 1..]);
      assert multiset(rest) == multiset(t[..k]) + multiset(t[k + 1..]);
      assert multiset(s) == multiset{x} + multiset(s[1..]);
      assert multiset(s[1..]) == multiset(s) - multiset{x};
      assert multiset(rest) == multiset(t) - multiset{x};
      ItemsPermutation(s[1..], rest);
      ItemsAppend(t[..k], t[k + 1..]);
      ItemsAppend(t[..k] + [x], t[k + 1..]);
      ItemsAppend(t[..k], [x]);
      ItemsAppend([x], s[1..]);
    }
  }
}
