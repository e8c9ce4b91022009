/** Shared vocabulary: results, machine-word constants, duplicate-free sequences and a stable sort. */
module Prelude {
  datatype Option<+T> = None | Some(value: T)
  datatype Result<+T, +E> = Ok(value: T) | Err(error: E)

  type Byte = b: nat | b < 256 witness 0
  type Bytes = seq<Byte>

  const U32_MAX: nat := 0xFFFF_FFFF
  const U64_MAX: nat := 0xFFFF_FFFF_FFFF_FFFF

  /** A counter that sticks at `max`. */
  function Saturate(x: nat, max: nat): nat {
    if x < max then x else max
  }

  function Max(a: nat, b: nat): nat {
    if a < b then b else a
  }

  function Min(a: nat, b: nat): nat {
    if a < b then a else b
  }

  /** Integer square root. */
  function Isqrt(n: nat): (r: nat)
    ensures r * r <= n < (r + 1) * (r + 1)
  {
    if n == 0 then 0 else
      var r := Isqrt(n - 1);
      if (r + 1) * (r + 1) <= n then r + 1 else r
  }

  lemma {:induction false} IsqrtMonotone(m: nat, n: nat)
    requires m <= n
    ensures Isqrt(m) <= Isqrt(n)
    decreases n
  {
    if m < n {
      IsqrtMonotone(m, n - 1);
    }
  }

  lemma SquareMonotone(a: nat, b: nat)
    requires a <= b
    ensures a * a <= b * b
  {
    assert b * b == a * a + (b - a) * (b + a);
  }

  // ---- Sequences without duplicates ----

  ghost predicate Distinct<T>(s: seq<T>) {
    forall i, j :: 0 <= i < j < |s| ==> s[i] != s[j]
  }

  function Elems<T>(s: seq<T>): set<T> {
    set x | x in s
  }

  lemma ElemsEmpty<T>(s: seq<T>)
    ensures |s| == 0 <==> Elems(s) == {}
  {
    if s != [] {
      assert s[0] in Elems(s);
    }
  }

  lemma ElemsEnds<T>(s: seq<T>)
    ensures Elems(s[..0]) == {} && Elems(s[..|s|]) == Elems(s)
  {
    assert s[..|s|] == s;
  }

  lemma ElemsTake<T>(s: seq<T>, k: nat)
    requires k < |s|
    ensures Elems(s[..k + 1]) == Elems(s[..k]) + {s[k]}
    ensures Distinct(s) ==> s[k] !in Elems(s[..k])
  {
    assert s[..k + 1] == s[..k] + [s[k]];
  }

  lemma {:induction false} DistinctCard<T>(s: seq<T>)
    requires Distinct(s)
    ensures |Elems(s)| == |s|
  {
    if s != [] {
      var rest := s[..|s| - 1];
      DistinctCard(rest);
      assert s == rest + [s[|s| - 1]];
      assert Elems(s) == Elems(rest) + {s[|s| - 1]};
      assert s[|s| - 1] !in rest;
    }
  }

  lemma MultisetDistinct<T>(s: seq<T>, t: seq<T>)
    requires multiset(s) == multiset(t) && Distinct(s)
    ensures Distinct(t) && Elems(s) == Elems(t) && |s| == |t|
  {
    forall x ensures x in s <==> x in t {
      assert x in multiset(s) <==> x in multiset(t);
    }
    assert |multiset(s)| == |s| && |multiset(t)| == |t|;
    if !Distinct(t) {
      var i, j :| 0 <= i < j < |t| && t[i] == t[j];
      assert t == t[..i] + [t[i]] + t[i + 1..j] + [t[j]] + t[j + 1..];
      assert multiset(t)[t[i]] >= 2;
      DistinctMultiplicity(s, t[i]);
    }
  }

  lemma {:induction false} DistinctMultiplicity<T>(s: seq<T>, x: T)
    requires Distinct(s)
    ensures multiset(s)[x] <= 1
  {
    if s != [] {
      var rest := s[..|s| - 1];
      DistinctMultiplicity(rest, x);
      assert s == rest + [s[|s| - 1]];
      if multiset(rest)[x] == 1 {
        assert x in multiset(rest);
        assert x in rest;
      }
    }
  }

  /** The first of `keys` that `m` does not have. */
  function FirstMissing<K(!new), V>(m: map<K, V>, keys: seq<K>): (r: Option<K>)
    ensures r.None? <==> forall d :: d in keys ==> d in m
    ensures r.Some? ==> r.value in keys && r.value !in m
  {
    if keys == [] then None
    else if keys[0] !in m then Some(keys[0])
    else
      var r := FirstMissing(m, keys[1..]);
      assert forall d :: d in keys <==> d == keys[0] || d in keys[1..];
      r
  }

  /** It is the first: `m` has whatever is listed before it. */
  lemma {:induction false} FirstOfMissing<K(!new), V>(m: map<K, V>, keys: seq<K>) returns (k: nat)
    requires FirstMissing(m, keys).Some?
    ensures k < |keys| && keys[k] == FirstMissing(m, keys).value && forall i :: 0 <= i < k ==> keys[i] in m
  {
    if keys[0] !in m {
      k := 0;
    } else {
      k := FirstOfMissing(m, keys[1..]);
      k := k + 1;
    }
  }

  /** `s` without the occurrences of `x` (`Vec::retain`). */
  function Without<T(==, !new)>(s: seq<T>, x: T): (r: seq<T>)
    ensures forall y :: y in r <==> y in s && y != x
    ensures x !in s ==> r == s
    ensures |r| <= |s|
  {
    if s == [] then []
    else if s[0] == x then Without(s[1..], x)
    else [s[0]] + Without(s[1..], x)
  }

  lemma {:induction false} WithoutDistinct<T(!new)>(s: seq<T>, x: T)
    requires Distinct(s)
    ensures Distinct(Without(s, x))
  {
    if s != [] {
      WithoutDistinct(s[1..], x);
      assert s[0] !in s[1..];
    }
  }

  /** Taking out what occurs once leaves everything else in its order. */
  lemma {:induction false} WithoutOne<T(!new)>(s: seq<T>, k: nat)
    requires Distinct(s) && k < |s|
    ensures Without(s, s[k]) == s[..k] + s[k + 1..]
  {
    if k == 0 {
      assert s[0] !in s[1..];
    } else {
      WithoutOne(s[1..], k - 1);
      assert s[0] != s[k];
      assert s[..k] == [s[0]] + s[1..][..k - 1];
    }
  }

  /** First occurrences of `s`, in order: what inserting into a seen-set filters. */
  function Dedup<T(==, !new)>(s: seq<T>): (r: seq<T>)
    ensures Distinct(r)
    ensures forall x :: x in r <==> x in s
    ensures Distinct(s) ==> r == s
  {
    if s == [] then []
    else
      var r := Dedup(s[..|s| - 1]);
      var x := s[|s| - 1];
      assert s == s[..|s| - 1] + [x];
      if x in r then r else r + [x]
  }

  /** What comes earlier in `r` is mentioned in `s` before every mention of what comes later. */
  ghost predicate InMentionOrder<T(!new)>(s: seq<T>, r: seq<T>) {
    forall i, j, k :: 0 <= i < j < |r| && 0 <= k < |s| && s[k] == r[j] ==> r[i] in s[..k]
  }

  lemma {:induction false} DedupOrder<T(!new)>(s: seq<T>)
    ensures InMentionOrder(s, Dedup(s))
    decreases |s|
  {
    if s != [] {
      var init, x := s[..|s| - 1], s[|s| - 1];
      DedupOrder(init);
      var r0, r := Dedup(init), Dedup(s);
      assert s == init + [x];
      forall i, j, k | 0 <= i < j < |r| && 0 <= k < |s| && s[k] == r[j] ensures r[i] in s[..k] {
        assert r[i] == r0[i] && r0[i] in init;
        if k < |init| {
          assert init[k] in r0 && init[k] == r0[j];
          assert r0[i] in init[..k] && init[..k] == s[..k];
        } else {
          assert s[..k] == init;
        }
      }
    }
  }

  // ---- Stable sorting by a key of up to three machine words, compared lexicographically ----

  type Key = (nat, nat, nat)

  predicate KeyLe(a: Key, b: Key) {
    a.0 < b.0 || (a.0 == b.0 && (a.1 < b.1 || (a.1 == b.1 && a.2 <= b.2)))
  }

  ghost predicate SortedBy<T>(s: seq<T>, key: T -> Key) {
    forall i, j :: 0 <= i < j < |s| ==> KeyLe(key(s[i]), key(s[j]))
  }

  lemma SortedSnoc<T>(s: seq<T>, x: T, key: T -> Key)
    requires SortedBy(s, key)
    requires forall i :: 0 <= i < |s| ==> KeyLe(key(s[i]), key(x))
    ensures SortedBy(s + [x], key)
  {
  }

  function InsertBy<T>(s: seq<T>, x: T, key: T -> Key): (r: seq<T>)
    requires SortedBy(s, key)
    ensures SortedBy(r, key)
    ensures multiset(r) == multiset(s) + multiset{x}
  {
    if s == [] then [x]
    else
      var init, last := s[..|s| - 1], s[|s| - 1];
      assert s == init + [last];
      if KeyLe(key(last), key(x)) then
        SortedSnoc(s, x, key);
        s + [x]
      else
        var r := InsertBy(init, x, key);
        assert forall i :: 0 <= i < |r| ==> KeyLe(key(r[i]), key(last)) by {
          forall i | 0 <= i < |r| ensures KeyLe(key(r[i]), key(last)) {
            assert r[i] in multiset(r);
            assert r[i] == x || r[i] in init;
          }
        }
        SortedSnoc(r, last, key);
        r + [last]
  }

  /** `sort_by_key`: equal keys keep their order. */
  function SortBy<T>(s: seq<T>, key: T -> Key): (r: seq<T>)
    ensures SortedBy(r, key)
    ensures multiset(r) == multiset(s)
  {
    if s == [] then []
    else
      assert s == s[..|s| - 1] + [s[|s| - 1]];
      InsertBy(SortBy(s[..|s| - 1], key), s[|s| - 1], key)
  }

  /** Sorting a duplicate-free list permutes it. */
  lemma SortByPermutes<T>(s: seq<T>, key: T -> Key)
    requires Distinct(s)
    ensures Distinct(SortBy(s, key)) && Elems(SortBy(s, key)) == Elems(s) && |SortBy(s, key)| == |s|
  {
    MultisetDistinct(s, SortBy(s, key));
  }

  /** No element of a prefix comes after an element left out. */
  lemma SortedPrefix<T(!new)>(s: seq<T>, key: T -> Key, k: nat)
    requires Distinct(s) && SortedBy(s, key) && k <= |s|
    ensures Distinct(s[..k]) && forall x :: x in s[..k] ==> x in s
    ensures forall x, y :: x in s[..k] && y in s && y !in s[..k] ==> KeyLe(key(x), key(y))
    ensures k == |s| ==> s[..k] == s
  {
    assert forall j :: 0 <= j < k ==> s[..k][j] == s[j] && s[j] in s[..k];
    forall x, y | x in s[..k] && y in s && y !in s[..k] ensures KeyLe(key(x), key(y)) {
      var i :| 0 <= i < k && s[i] == x;
      var j :| 0 <= j < |s| && s[j] == y;
    }
  }

  /** Equal keys keep an order that the list had before sorting. */
  ghost predicate Stable<T>(s: seq<T>, key: T -> Key, tie: T -> Key) {
    forall i, j :: 0 <= i < j < |s| && key(s[i]) == key(s[j]) ==> KeyLe(tie(s[i]), tie(s[j]))
  }

  lemma {:induction false} InsertByStable<T>(s: seq<T>, x: T, key: T -> Key, tie: T -> Key)
    requires SortedBy(s, key) && Stable(s, key, tie)
    requires forall i :: 0 <= i < |s| ==> KeyLe(tie(s[i]), tie(x))
    ensures Stable(InsertBy(s, x, key), key, tie)
  {
    if s != [] && !KeyLe(key(s[|s| - 1]), key(x)) {
      var init, last := s[..|s| - 1], s[|s| - 1];
      InsertByStable(init, x, key, tie);
      var r := InsertBy(init, x, key);
      forall i | 0 <= i < |r| && key(r[i]) == key(last) ensures KeyLe(tie(r[i]), tie(last)) {
        assert r[i] in multiset(r);
        assert r[i] == x || r[i] in init;
      }
    }
  }

  lemma {:induction false} SortByStable<T>(s: seq<T>, key: T -> Key, tie: T -> Key)
    requires SortedBy(s, tie)
    ensures Stable(SortBy(s, key), key, tie)
  {
    if s != [] {
      var init, last := s[..|s| - 1], s[|s| - 1];
      SortByStable(init, key, tie);
      var r := SortBy(init, key);
      forall i | 0 <= i < |r| ensures KeyLe(tie(r[i]), tie(last)) {
        assert r[i] in multiset(r);
        assert r[i] in init;
      }
      InsertByStable(r, last, key, tie);
    }
  }

  // ---- Maps ----

  lemma MapRemoveCard<K, V>(m: map<K, V>, k: K)
    requires k in m
    ensures |m - {k}| == |m| - 1
  {
    assert (m - {k}).Keys == m.Keys - {k};
    assert |m.Keys| == |m| && |(m - {k}).Keys| == |m - {k}|;
  }

  lemma MapInsertCard<K, V>(m: map<K, V>, k: K, v: V)
    requires k !in m
    ensures |m[k := v]| == |m| + 1
  {
    assert m[k := v].Keys == m.Keys + {k};
    assert |m.Keys| == |m| && |m[k := v].Keys| == |m[k := v]|;
  }

  lemma MapRemoveAllCard<K(!new), V>(m: map<K, V>, s: seq<K>)
    requires Distinct(s) && forall k :: k in s ==> k in m
    ensures (m - Elems(s)).Keys == m.Keys - Elems(s) && |m - Elems(s)| + |s| == |m|
    ensures m.Keys - (m - Elems(s)).Keys == Elems(s)
  {
    DistinctCard(s);
    assert Elems(s) <= m.Keys;
    hide Elems, Distinct;
    var r := m - Elems(s);
    assert r.Keys == m.Keys - Elems(s);
    assert |r| == |r.Keys| && |m| == |m.Keys|;
  }

  lemma SubsetCard<T>(a: set<T>, b: set<T>)
    requires a <= b
    ensures |a| <= |b|
    ensures |a| == |b| ==> a == b
  {
    assert b == a + (b - a);
  }
}
