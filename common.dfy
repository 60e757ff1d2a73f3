/** Helpers shared by every table and query: optional values, JavaScript's
    truthiness and `slice`, filtering, and the stable sort that the queries
    apply to their results before truncating them. */
module Common {

  datatype Option<+T> = None | Some(value: T)

  /** Business identifiers (orderId, productId, driverId, ...) are strings. */
  type Id = string

  /** JavaScript truthiness of an optional string: absent and "" are falsy. */
  predicate Truthy(o: Option<string>) {
    o.Some? && o.value != ""
  }

  /** `a || fallback` for an optional string. */
  function OrElse(a: Option<string>, fallback: string): string {
    if Truthy(a) then a.value else fallback
  }

  /** `limit || fallback` for an optional number: absent and 0 are falsy. */
  function LimitOr(limit: Option<int>, fallback: int): int {
    if limit.Some? && limit.value != 0 then limit.value else fallback
  }

  function Min(a: int, b: int): int { if a <= b then a else b }

  function Max(a: int, b: int): int { if a <= b then b else a }

  /** JavaScript `s.slice(0, n)`: a non-negative `n` keeps the first `n`
      elements, a negative `n` drops the last `-n` elements. */
  function Take<T>(s: seq<T>, n: int): (r: seq<T>)
    ensures r <= s
    ensures n >= 0 ==> |r| == Min(n, |s|)
    ensures n < 0 ==> |r| == Max(|s| + n, 0)
  {
    if n >= 0 then s[..Min(n, |s|)] else s[..Max(|s| + n, 0)]
  }

  /** What a prefix holds, the whole holds. */
  lemma PrefixMembers<T>(r: seq<T>, s: seq<T>)
    requires r <= s
    ensures forall x :: x in r ==> x in s
  {
    forall x | x in r ensures x in s {
      var m :| 0 <= m < |r| && r[m] == x;
      assert s[m] == x;
    }
  }

  /** The `if (args.limit) return filtered.slice(0, args.limit)` idiom:
      an absent or zero limit returns everything. */
  function ApplyLimit<T>(s: seq<T>, limit: Option<int>): (r: seq<T>)
    ensures r <= s
    ensures limit.Some? && limit.value > 0 ==> |r| == Min(limit.value, |s|)
    ensures limit == None || limit == Some(0) ==> r == s
  {
    if limit.Some? && limit.value != 0 then Take(s, limit.value) else s
  }

  /** `Array.prototype.filter`, defined element by element from the left so
      that a loop over a prefix can be proved against it. */
  function Filter<T>(s: seq<T>, p: T -> bool): (r: seq<T>)
    ensures |r| <= |s|
    ensures forall i :: 0 <= i < |r| ==> r[i] in s && p(r[i])
    ensures forall i :: 0 <= i < |s| && p(s[i]) ==> s[i] in r
    ensures multiset(r) <= multiset(s)
    decreases |s|
  {
    if |s| == 0 then []
    else
      var init := Filter(s[..|s| - 1], p);
      assert s == s[..|s| - 1] + [s[|s| - 1]];
      if p(s[|s| - 1]) then init + [s[|s| - 1]] else init
  }

  lemma {:induction false} FilterAppend<T>(s: seq<T>, t: seq<T>, p: T -> bool)
    ensures Filter(s + t, p) == Filter(s, p) + Filter(t, p)
    decreases |t|
  {
    if |t| == 0 {
      assert s + t == s;
    } else {
      var t' := t[..|t| - 1];
      assert (s + t)[..|s + t| - 1] == s + t';
      FilterAppend(s, t', p);
    }
  }

  /** Two predicates that agree on every element of `s` filter it alike. */
  lemma {:induction false} FilterCongruent<T>(s: seq<T>, p: T -> bool, q: T -> bool)
    requires forall i :: 0 <= i < |s| ==> p(s[i]) == q(s[i])
    ensures Filter(s, p) == Filter(s, q)
    decreases |s|
  {
    if |s| > 0 {
      FilterCongruent(s[..|s| - 1], p, q);
    }
  }

  /** Filtering twice is filtering once by the conjunction. */
  lemma {:induction false} FilterTwice<T>(s: seq<T>, p: T -> bool, q: T -> bool, pq: T -> bool)
    requires forall i :: 0 <= i < |s| ==> pq(s[i]) == (p(s[i]) && q(s[i]))
    ensures Filter(Filter(s, p), q) == Filter(s, pq)
    decreases |s|
  {
    if |s| > 0 {
      var s' := s[..|s| - 1];
      FilterTwice(s', p, q, pq);
      if p(s[|s| - 1]) {
        FilterAppend(Filter(s', p), [s[|s| - 1]], q);
      }
    }
  }

  /** Both filters at once. */
  function And<T>(p: T -> bool, q: T -> bool): T -> bool {
    x => p(x) && q(x)
  }

  /** A filter that every element passes keeps the sequence. */
  lemma {:induction false} FilterKeepsAll<T>(s: seq<T>, p: T -> bool)
    requires forall i :: 0 <= i < |s| ==> p(s[i])
    ensures Filter(s, p) == s
    decreases |s|
  {
    if |s| > 0 {
      var init := s[..|s| - 1];
      FilterKeepsAll(init, p);
      assert p(s[|s| - 1]);
      assert Filter(s, p) == Filter(init, p) + [s[|s| - 1]];
      Snoc(s);
    }
  }

  /** A non-empty sequence is its front and then its last element. */
  lemma Snoc<T>(s: seq<T>)
    requires |s| > 0
    ensures s == s[..|s| - 1] + [s[|s| - 1]]
  {
  }

  /** The filter holds exactly the passing elements. */
  lemma FilterMembers<T>(s: seq<T>, p: T -> bool)
    ensures forall x :: x in Filter(s, p) <==> x in s && p(x)
  {
    forall x | x in s && p(x) ensures x in Filter(s, p) {
      var i :| 0 <= i < |s| && s[i] == x;
    }
    forall x | x in Filter(s, p) ensures x in s && p(x) {
      var i :| 0 <= i < |Filter(s, p)| && Filter(s, p)[i] == x;
    }
  }

  /** A filter of a sequence listing a set keeps every member of the set
      that passes. */
  lemma FilterFrom<T>(s: seq<T>, p: T -> bool, members: set<T>)
    requires forall x :: x in s <==> x in members
    ensures forall x :: x in members && p(x) ==> x in Filter(s, p)
  {
    forall x | x in members && p(x) ensures x in Filter(s, p) {
      var i :| 0 <= i < |s| && s[i] == x;
    }
  }

  /** What a sub-multiset of a filter holds passes the filter. */
  lemma FilterSubMembers<T>(s: seq<T>, p: T -> bool, r: seq<T>)
    requires multiset(r) <= multiset(Filter(s, p))
    ensures forall i :: 0 <= i < |r| ==> p(r[i])
  {
    var f := Filter(s, p);
    forall i | 0 <= i < |r| ensures p(r[i]) {
      assert r[i] in multiset(f);
      var k :| 0 <= k < |f| && f[k] == r[i];
    }
  }

  /** Either filter. */
  function Or<T>(p: T -> bool, q: T -> bool): T -> bool {
    x => p(x) || q(x)
  }

  /** Two filters no element passes both of select, together, what their
      disjunction selects. */
  lemma {:induction false} FilterDisjointUnion<T>(s: seq<T>, p: T -> bool, q: T -> bool)
    requires forall i :: 0 <= i < |s| ==> !(p(s[i]) && q(s[i]))
    ensures multiset(Filter(s, p)) + multiset(Filter(s, q)) == multiset(Filter(s, Or(p, q)))
    decreases |s|
  {
    if |s| > 0 {
      FilterDisjointUnion(s[..|s| - 1], p, q);
    }
  }

  ghost predicate Distinct<T>(s: seq<T>) {
    forall i, j :: 0 <= i < j < |s| ==> s[i] != s[j]
  }

  /** `keys` lists the keys of a table exactly once each. */
  ghost predicate Enumerates<K>(keys: seq<K>, dom: set<K>) {
    && Distinct(keys)
    && (forall i :: 0 <= i < |keys| ==> keys[i] in dom)
    && (forall k :: k in dom ==> k in keys)
  }

  /** The elements of a sequence, as a set. */
  function Elems<T>(s: seq<T>): (r: set<T>)
    ensures forall i :: 0 <= i < |s| ==> s[i] in r
    ensures forall x :: x in r ==> x in s
    decreases |s|
  {
    if |s| == 0 then {} else Elems(s[..|s| - 1]) + {s[|s| - 1]}
  }

  /** A sequence has at most as many distinct elements as it is long, and
      exactly as many when no element repeats. */
  lemma {:induction false} ElemsCard<T>(s: seq<T>)
    ensures |Elems(s)| <= |s|
    ensures |Elems(s)| == |s| <==> Distinct(s)
    decreases |s|
  {
    if |s| > 0 {
      var init := s[..|s| - 1];
      var x := s[|s| - 1];
      ElemsCard(init);
      DistinctSnoc(s);
      assert Elems(s) == Elems(init) + {x};
      if x in init {
        assert x in Elems(init);
        assert Elems(s) == Elems(init);
      } else {
        assert x !in Elems(init);
      }
    }
  }

  /** A non-empty sequence repeats nothing exactly when its front repeats
      nothing and its last element is new. */
  lemma DistinctSnoc<T>(s: seq<T>)
    requires |s| > 0
    ensures Distinct(s) <==> Distinct(s[..|s| - 1]) && s[|s| - 1] !in s[..|s| - 1]
  {
    var init := s[..|s| - 1];
    if Distinct(s) {
      forall i, j | 0 <= i < j < |init| ensures init[i] != init[j] {
        assert init[i] == s[i] && init[j] == s[j];
      }
      forall i | 0 <= i < |init| ensures init[i] != s[|s| - 1] {
        assert init[i] == s[i];
      }
    }
    if Distinct(init) && s[|s| - 1] !in init {
      forall i, j | 0 <= i < j < |s| ensures s[i] != s[j] {
        assert s[i] == init[i];
        if j < |s| - 1 {
          assert s[j] == init[j];
        }
      }
    }
  }

  /** A subset is no larger, and one as large is the whole set. */
  lemma {:induction false} SubsetCard<T>(a: set<T>, b: set<T>)
    requires a <= b
    ensures |a| <= |b|
    ensures |a| == |b| ==> a == b
    decreases b
  {
    if b != {} {
      var x :| x in b;
      SubsetCard(a - {x}, b - {x});
      if x in a {
        assert |a - {x}| == |a| - 1 && |b - {x}| == |b| - 1;
        if |a| == |b| {
          assert a == (a - {x}) + {x} && b == (b - {x}) + {x};
        }
      } else {
        assert a - {x} == a && |b - {x}| == |b| - 1;
      }
    }
  }

  /** Filtering keeps a sequence free of repeats. */
  lemma {:induction false} FilterDistinct<T>(s: seq<T>, p: T -> bool)
    requires Distinct(s)
    ensures Distinct(Filter(s, p))
    decreases |s|
  {
    if |s| > 0 {
      var init := s[..|s| - 1];
      var x := s[|s| - 1];
      assert Distinct(init) by {
        forall i, j | 0 <= i < j < |init| ensures init[i] != init[j] {
          assert init[i] == s[i] && init[j] == s[j];
        }
      }
      FilterDistinct(init, p);
      var f := Filter(init, p);
      if p(x) {
        forall i | 0 <= i < |f| ensures f[i] != x {
          var k :| 0 <= k < |init| && init[k] == f[i];
          assert s[k] == init[k];
        }
        var r := f + [x];
        forall i, j | 0 <= i < j < |r| ensures r[i] != r[j] {
          if j < |f| {
            assert r[i] == f[i] && r[j] == f[j];
          } else {
            assert r[i] == f[i];
          }
        }
      }
    }
  }

  /** Filtering two sequences that match up element by element, with
      conditions that agree on matching elements, keeps as many of each. */
  lemma {:induction false} FilterLengthCongruent<A, B>(s: seq<A>, t: seq<B>, p: A -> bool, q: B -> bool)
    requires |s| == |t|
    requires forall i :: 0 <= i < |s| ==> p(s[i]) == q(t[i])
    ensures |Filter(s, p)| == |Filter(t, q)|
    decreases |s|
  {
    if |s| > 0 {
      FilterLengthCongruent(s[..|s| - 1], t[..|t| - 1], p, q);
    }
  }

  /** Nothing passes, nothing is kept. */
  lemma {:induction false} FilterNone<T>(s: seq<T>, p: T -> bool)
    requires forall i :: 0 <= i < |s| ==> !p(s[i])
    ensures Filter(s, p) == []
    decreases |s|
  {
    if |s| > 0 {
      FilterNone(s[..|s| - 1], p);
    }
  }

  /** Membership in a requested list of keys. */
  function InSeq<T(==)>(ids: seq<T>): T -> bool {
    (k: T) => k in ids
  }

  /** The keys a request names, found in a list of keys without repeats:
      the set of those found is the requested set cut down to the listed
      keys. */
  lemma SelectElems<T>(keys: seq<T>, ids: seq<T>)
    ensures Elems(Filter(keys, InSeq(ids))) == Elems(ids) * Elems(keys)
  {
    var found := Filter(keys, InSeq(ids));
    forall x | x in Elems(ids) * Elems(keys) ensures x in Elems(found) {
      var j :| 0 <= j < |keys| && keys[j] == x;
      assert InSeq(ids)(keys[j]);
    }
  }

  /** Selecting from a key list without repeats the keys a request names
      finds as many keys as the request is long exactly when the request
      names no key twice and names only listed keys. */
  lemma SelectCount<T>(keys: seq<T>, ids: seq<T>)
    requires Distinct(keys)
    ensures |Filter(keys, InSeq(ids))| == |ids| <==>
            Distinct(ids) && forall i :: 0 <= i < |ids| ==> ids[i] in keys
  {
    var found := Filter(keys, InSeq(ids));
    var want, have := Elems(ids), Elems(keys);
    FilterDistinct(keys, InSeq(ids));
    ElemsCard(found);
    ElemsCard(ids);
    SelectElems(keys, ids);
    SubsetCard(want * have, want);
    if Distinct(ids) && forall i :: 0 <= i < |ids| ==> ids[i] in keys {
      assert want * have == want;
    }
    if |found| == |ids| {
      assert want * have == want;
      forall i | 0 <= i < |ids| ensures ids[i] in keys {
        assert ids[i] in want;
      }
    }
  }

  /** Inserting a new key keeps the key list in step with the table. */
  lemma EnumeratesAppend<K>(keys: seq<K>, dom: set<K>, k: K)
    requires Enumerates(keys, dom) && k !in dom
    ensures Enumerates(keys + [k], dom + {k})
  {
    var ks := keys + [k];
    forall i, j | 0 <= i < j < |ks| ensures ks[i] != ks[j] {
      if j == |keys| {
        assert ks[i] == keys[i] && keys[i] in dom;
      }
    }
  }

  /** Every element but `k`. */
  function Other<K(==)>(k: K): K -> bool {
    (x: K) => x != k
  }

  /** Deleting a key keeps the key list in step with the table. */
  lemma EnumeratesRemove<K>(keys: seq<K>, dom: set<K>, k: K)
    requires Enumerates(keys, dom)
    ensures Enumerates(Filter(keys, Other(k)), dom - {k})
  {
    var r := Filter(keys, Other(k));
    FilterDistinct(keys, Other(k));
    forall x | x in dom - {k} ensures x in r {
      var j :| 0 <= j < |keys| && keys[j] == x;
      assert Other(k)(keys[j]);
    }
  }

  /** `collect()` of a table: its records in the order of `keys`. */
  function Collect<T>(m: map<Id, T>, keys: seq<Id>): (r: seq<T>)
    requires forall k :: k in keys ==> k in m
    ensures |r| == |keys|
  {
    seq(|keys|, i requires 0 <= i < |keys| => m[keys[i]])
  }

  lemma CollectMembers<T>(m: map<Id, T>, keys: seq<Id>)
    requires Enumerates(keys, m.Keys)
    ensures forall x :: x in Collect(m, keys) <==> x in m.Values
  {
    var c := Collect(m, keys);
    forall x | x in m.Values ensures x in c {
      var k :| k in m && m[k] == x;
      var i :| 0 <= i < |keys| && keys[i] == k;
      assert c[i] == x;
    }
  }

  // ---------------------------------------------------------------------
  // Stable sorting. Every query sorts with a comparator of the form
  // `(a, b) => key(b) - key(a)` (newest first); `Array.prototype.sort` is
  // stable, so the result is the stable descending sort defined here. An
  // ascending sort is the descending sort on the negated key.

  ghost predicate SortedDesc<T>(s: seq<T>, key: T -> int) {
    forall i, j :: 0 <= i < j < |s| ==> key(s[i]) >= key(s[j])
  }

  /** Puts `x` in front of the first element whose key is not larger, so
      that `x` stays ahead of the equal keys that followed it. */
  function Insert<T>(x: T, t: seq<T>, key: T -> int): seq<T>
    decreases |t|
  {
    if |t| == 0 || key(t[0]) <= key(x) then [x] + t
    else [t[0]] + Insert(x, t[1..], key)
  }

  function SortDesc<T>(s: seq<T>, key: T -> int): seq<T>
    decreases |s|
  {
    if |s| == 0 then [] else Insert(s[0], SortDesc(s[1..], key), key)
  }

  lemma {:induction false} InsertElements<T>(x: T, t: seq<T>, key: T -> int)
    ensures |Insert(x, t, key)| == |t| + 1
    ensures multiset(Insert(x, t, key)) == multiset(t) + multiset{x}
    ensures forall j :: 0 <= j < |Insert(x, t, key)| ==> Insert(x, t, key)[j] == x || Insert(x, t, key)[j] in t
    decreases |t|
  {
    if |t| > 0 && key(t[0]) > key(x) {
      InsertElements(x, t[1..], key);
      assert t == [t[0]] + t[1..];
      var r := Insert(x, t, key);
      forall j | 0 <= j < |r| ensures r[j] == x || r[j] in t {
        if j > 0 {
          assert r[j] == Insert(x, t[1..], key)[j - 1];
        }
      }
    }
  }

  lemma {:induction false} InsertKeepsSorted<T>(x: T, t: seq<T>, key: T -> int)
    requires SortedDesc(t, key)
    ensures SortedDesc(Insert(x, t, key), key)
    decreases |t|
  {
    if |t| > 0 && key(t[0]) > key(x) {
      var r := Insert(x, t[1..], key);
      InsertKeepsSorted(x, t[1..], key);
      InsertElements(x, t[1..], key);
      var res := [t[0]] + r;
      assert res == Insert(x, t, key);
      forall i, j | 0 <= i < j < |res| ensures key(res[i]) >= key(res[j]) {
        if i == 0 {
          assert res[j] == r[j - 1];
          if r[j - 1] != x {
            assert r[j - 1] in t[1..];
            var k :| 0 <= k < |t[1..]| && t[1..][k] == r[j - 1];
            assert t[k + 1] == r[j - 1];
          }
        } else {
          assert res[i] == r[i - 1] && res[j] == r[j - 1];
        }
      }
    }
  }

  /** The sorted result is sorted, newest first, and holds exactly the
      input's elements. */
  lemma {:induction false} SortDescCorrect<T>(s: seq<T>, key: T -> int)
    ensures SortedDesc(SortDesc(s, key), key)
    ensures multiset(SortDesc(s, key)) == multiset(s)
    ensures |SortDesc(s, key)| == |s|
    decreases |s|
  {
    if |s| > 0 {
      SortDescCorrect(s[1..], key);
      InsertKeepsSorted(s[0], SortDesc(s[1..], key), key);
      InsertElements(s[0], SortDesc(s[1..], key), key);
      assert s == [s[0]] + s[1..];
    }
  }

  lemma SortDescMembers<T>(s: seq<T>, key: T -> int)
    ensures forall x :: x in SortDesc(s, key) <==> x in s
  {
    SortDescCorrect(s, key);
    forall x ensures x in SortDesc(s, key) <==> x in s {
      assert x in SortDesc(s, key) <==> x in multiset(SortDesc(s, key));
      assert x in s <==> x in multiset(s);
    }
  }
  /** The first element of a descending sort has the largest key. */
  lemma SortDescHead<T>(s: seq<T>, key: T -> int)
    requires |s| > 0
    ensures |SortDesc(s, key)| > 0 && SortDesc(s, key)[0] in s
    ensures forall x :: x in s ==> key(x) <= key(SortDesc(s, key)[0])
  {
    var r := SortDesc(s, key);
    SortDescCorrect(s, key);
    SortDescMembers(s, key);
    forall x | x in s ensures key(x) <= key(r[0]) {
      var j :| 0 <= j < |r| && r[j] == x;
      if j > 0 {
        assert key(r[0]) >= key(r[j]);
      }
    }
  }


  /** Where the in-place insertion loop stops is where `Insert` puts `x`. */
  lemma {:induction false} InsertSplit<T>(x: T, t: seq<T>, k: nat, key: T -> int)
    requires k <= |t|
    requires forall m :: 0 <= m < k ==> key(t[m]) > key(x)
    requires k == |t| || key(t[k]) <= key(x)
    ensures Insert(x, t, key) == t[..k] + [x] + t[k..]
    decreases k
  {
    if k > 0 {
      InsertSplit(x, t[1..], k - 1, key);
      assert t[..k] == [t[0]] + t[1..][..k - 1];
    }
  }

  /** One step of the insertion sort: `a[i]` is moved right, past the
      larger keys of the sorted suffix `a[i + 1..]`. */
  method InsertStep<T>(a: array<T>, i: nat, key: T -> int)
    requires i < a.Length
    modifies a
    ensures a[..i] == old(a[..i])
    ensures a[i..] == Insert(old(a[i]), old(a[i + 1..]), key)
  {
    ghost var orig := a[..];
    ghost var t := a[i + 1..];
    var x := a[i];
    var j := i;
    while j + 1 < a.Length && key(a[j + 1]) > key(x)
      invariant i <= j < a.Length
      invariant forall m :: 0 <= m < a.Length ==> a[m] == if i <= m < j then old(a[m + 1]) else old(a[m])
      invariant forall m :: 0 <= m < j - i ==> key(t[m]) > key(x)
    {
      a[j] := a[j + 1];
      j := j + 1;
    }
    a[j] := x;
    InsertSplit(x, t, j - i, key);
    PlacedAt(a[..], orig, i, j, x);
  }

  /** After the shift and the store, the prefix is untouched and the
      suffix is the shifted run, then `x`, then the rest. */
  lemma PlacedAt<T>(s: seq<T>, orig: seq<T>, i: nat, j: nat, x: T)
    requires i <= j < |s| == |orig|
    requires forall m {:trigger s[m]} :: 0 <= m < |s| ==> s[m] == if m == j then x else if i <= m < j then orig[m + 1] else orig[m]
    ensures s[..i] == orig[..i]
    ensures s[i..] == orig[i + 1..][..j - i] + [x] + orig[i + 1..][j - i..]
  {
    var t := orig[i + 1..];
    var front, back := s[i..j], s[j + 1..];
    forall m | 0 <= m < |front| ensures front[m] == t[m] {
      assert s[i + m] == orig[i + m + 1];
    }
    assert front == t[..j - i];
    forall m | 0 <= m < |back| ensures back[m] == t[j - i + m] {
      assert s[j + 1 + m] == orig[j + 1 + m];
    }
    assert back == t[j - i..];
    assert s[i..] == s[i..j] + [s[j]] + s[j + 1..];
  }

  /** Insertion sort in place, from the right end: after each outer step the
      suffix `a[i..]` is the stable sort of the original suffix. */
  method SortInPlace<T>(a: array<T>, key: T -> int)
    modifies a
    ensures a[..] == SortDesc(old(a[..]), key)
  {
    ghost var orig := a[..];
    var i := a.Length;
    while i > 0
      invariant 0 <= i <= a.Length
      invariant a[..i] == orig[..i]
      invariant a[i..] == SortDesc(orig[i..], key)
    {
      i := i - 1;
      assert orig[i..][1..] == orig[i + 1..];
      InsertStep(a, i, key);
    }
  }

  /** A prefix of the newest-first order is itself newest first, draws on
      the input, and nothing it leaves out is newer than anything it keeps. */
  lemma SortedPrefix<T>(s: seq<T>, key: T -> int, r: seq<T>)
    requires r <= SortDesc(s, key)
    ensures SortedDesc(r, key) && multiset(r) <= multiset(s)
    ensures forall x :: x in r ==> x in s
    ensures forall x :: x in multiset(s) - multiset(r) ==> forall i :: 0 <= i < |r| ==> key(x) <= key(r[i])
  {
    var t := SortDesc(s, key);
    SortDescCorrect(s, key);
    var rest := t[|r|..];
    assert t == r + rest;
    assert multiset(s) == multiset(r) + multiset(rest);
    PrefixMembers(r, t);
    SortDescMembers(s, key);
    forall x | x in multiset(s) - multiset(r) ensures forall i :: 0 <= i < |r| ==> key(x) <= key(r[i]) {
      RestOlder(t, key, |r|, x);
    }
  }

  /** The `sort newest first, then apply the limit` idiom over any order of
      the same elements as `passing`. */
  lemma LimitedNewest<T>(sel: seq<T>, passing: seq<T>, key: T -> int, limit: Option<int>)
    requires multiset(sel) == multiset(passing)
    ensures var r := ApplyLimit(SortDesc(sel, key), limit);
      && SortedDesc(r, key)
      && (forall x :: x in r ==> x in passing)
      && (limit == None || limit == Some(0) ==> forall x :: x in passing ==> x in r)
      && (limit.Some? && limit.value > 0 ==> |r| == Min(limit.value, |passing|))
      && (forall x :: x in multiset(passing) - multiset(r) ==> forall i :: 0 <= i < |r| ==> key(x) <= key(r[i]))
  {
    var r := ApplyLimit(SortDesc(sel, key), limit);
    SortedPrefix(sel, key, r);
    SortDescCorrect(sel, key);
    assert |sel| == |passing| by {
      assert |multiset(sel)| == |multiset(passing)|;
    }
    forall x | x in r ensures x in passing {
      assert x in multiset(passing);
    }
    if limit == None || limit == Some(0) {
      forall x | x in passing ensures x in r {
        assert x in multiset(SortDesc(sel, key));
      }
    }
  }

  lemma RestOlder<T>(t: seq<T>, key: T -> int, n: nat, x: T)
    requires SortedDesc(t, key) && n <= |t| && x in multiset(t[n..])
    ensures forall i :: 0 <= i < n ==> key(x) <= key(t[i])
  {
    var j :| 0 <= j < |t[n..]| && t[n..][j] == x;
    assert t[n + j] == x;
  }

  /** Copies a sequence into an array and sorts it in place, as the queries
      do with the array they collected. */
  method SortedCopy<T>(s: seq<T>, key: T -> int) returns (r: seq<T>)
    ensures r == SortDesc(s, key)
    ensures SortedDesc(r, key) && multiset(r) == multiset(s)
  {
    var a := new T[|s|](i requires 0 <= i < |s| => s[i]);
    assert a[..] == s;
    SortInPlace(a, key);
    r := a[..];
    SortDescCorrect(s, key);
  }
}
