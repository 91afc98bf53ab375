/**
 SELECT ... ORDER BY ... LIMIT n FOR UPDATE SKIP LOCKED, as every claim in the
 pipeline uses it: which rows such a statement may pick, that it always can pick,
 and that it has no freedom when the ordering has no ties.
 */
module Selection {
  import opened Prelude


  /** `chosen` is a prefix of `eligible` in the order `before`, of at most `limit` rows. */
  predicate IsOldest<K(==)>(eligible: set<K>, before: (K, K) -> bool, limit: nat, chosen: set<K>) {
    && chosen <= eligible
    && |chosen| <= limit
    && forall k | k in eligible && k !in chosen ::
         && |chosen| == limit
         && forall c | c in chosen :: before(c, k)
  }

  ghost predicate TotalPreorder<K(!new)>(before: (K, K) -> bool) {
    && (forall a, b :: before(a, b) || before(b, a))
    && (forall a, b, c :: before(a, b) && before(b, c) ==> before(a, c))
  }

  ghost predicate Antisymmetric<K(!new)>(before: (K, K) -> bool) {
    forall a, b :: before(a, b) && before(b, a) ==> a == b
  }

  lemma HasFirst<K(!new)>(s: set<K>, before: (K, K) -> bool) returns (first: K)
    requires TotalPreorder(before) && s != {}
    ensures first in s && forall k | k in s :: before(first, k)
  {
    first :| first in s;
    if s != {first} {
      var rest := s - {first};
      var other := HasFirst(rest, before);
      if !before(first, other) {
        first := other;
      } else {
        forall k | k in s ensures before(first, k) {
          if k != first { assert k in rest; }
        }
      }
    }
  }

  /** The statement never gets stuck: some prefix exists for every limit. */
  lemma {:induction false} OldestExists<K(!new)>(eligible: set<K>, before: (K, K) -> bool, limit: nat)
      returns (chosen: set<K>)
    requires TotalPreorder(before)
    ensures IsOldest(eligible, before, limit, chosen)
    decreases limit
  {
    if limit == 0 {
      chosen := {};
    } else {
      var shorter := OldestExists(eligible, before, limit - 1);
      if eligible <= shorter {
        chosen := shorter;
      } else {
        var missed :| missed in eligible && missed !in shorter;
        assert missed in eligible - shorter;
        var next := HasFirst(eligible - shorter, before);
        assert next in eligible && next !in shorter;
        chosen := shorter + {next};
      }
    }
  }

  /** With a total order (no ties) two runs of the statement over the same rows pick the same rows. */
  lemma OldestUnique<K(!new)>(eligible: set<K>, before: (K, K) -> bool, limit: nat, s: set<K>, t: set<K>)
    requires Antisymmetric(before)
    requires IsOldest(eligible, before, limit, s) && IsOldest(eligible, before, limit, t)
    ensures s == t
  {
    if s != t {
      var x, y := OneSidedDifferences(eligible, before, limit, s, t);
    }
  }

  /** Two different prefixes would each hold a row the other misses, and the order would rank both first. */
  lemma OneSidedDifferences<K(!new)>(eligible: set<K>, before: (K, K) -> bool, limit: nat, s: set<K>, t: set<K>)
      returns (x: K, y: K)
    requires IsOldest(eligible, before, limit, s) && IsOldest(eligible, before, limit, t) && s != t
    ensures x != y && before(x, y) && before(y, x)
  {
    NotSmaller(eligible, before, limit, s, t);
    NotSmaller(eligible, before, limit, t, s);
    x :| x in s && x !in t;
    y :| y in t && y !in s;
  }

  lemma NotSmaller<K(!new)>(eligible: set<K>, before: (K, K) -> bool, limit: nat, s: set<K>, t: set<K>)
    requires IsOldest(eligible, before, limit, s) && IsOldest(eligible, before, limit, t) && s != t
    ensures !(s <= t)
  {
    if s <= t {
      var k := ProperSubset(s, t);
    }
  }

  lemma ProperSubset<K>(a: set<K>, b: set<K>) returns (k: K)
    requires a < b
    ensures k in b && k !in a && |a| < |b|
  {
    k :| k in b && k !in a;
    assert b == a + (b - a);
    assert k in b - a;
  }

  lemma SubsetSize<K>(a: set<K>, b: set<K>)
    requires a <= b
    ensures |a| <= |b|
  {
    assert b == a + (b - a);
  }

  /** The rows a statement returns come in some order, each exactly once. */
  lemma {:induction false} ListingExists<K>(s: set<K>) returns (listing: seq<K>)
    ensures multiset(listing) == multiset(s)
    decreases s
  {
    if s == {} {
      listing := [];
    } else {
      var k :| k in s;
      var rest := ListingExists(s - {k});
      listing := [k] + rest;
      assert multiset(s) == multiset(s - {k}) + multiset{k};
    }
  }

  method InSomeOrder<K(==)>(chosen: set<K>) returns (order: seq<K>)
    ensures multiset(order) == multiset(chosen)
  {
    ghost var listing := ListingExists(chosen);
    order :| multiset(order) == multiset(chosen);
  }

  lemma ListingFacts<K>(order: seq<K>, chosen: set<K>)
    requires multiset(order) == multiset(chosen)
    ensures |order| == |chosen| && Distinct(order) && forall k :: k in order <==> k in chosen
  {
    assert |multiset(order)| == |multiset(chosen)|;
    forall k ensures k in order <==> k in chosen {
      assert k in order <==> k in multiset(order);
    }
    forall i, j | 0 <= i < j < |order| ensures order[i] != order[j] {
      TwoPlaces(order, i, j);
    }
  }

  lemma TwoPlaces<K>(s: seq<K>, i: int, j: int)
    requires 0 <= i < j < |s|
    ensures s[i] == s[j] ==> multiset(s)[s[i]] >= 2
  {
    assert s == s[..j] + s[j..];
    assert s[i] in s[..j] && s[j] in s[j..];
  }
}
