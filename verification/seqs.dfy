/**
 * Sequence vocabulary shared by the list views: order-preserving filters,
 * subsequences, orderings, a key-sorting function and grouping by an integer
 * key.  The views work on in-memory snapshots of the task store, so every
 * derived list is one of these operations applied to a `seq`.
 */
module Seqs {

  // ---------------------------------------------------------------------------
  // Subsequences and orderings
  // ---------------------------------------------------------------------------

  /** `r` can be obtained from `s` by deleting elements (order kept). */
  predicate IsSubseq<T(==,!new)>(r: seq<T>, s: seq<T>)
    decreases |s|
  {
    if r == [] then true
    else if s == [] then false
    else (r[0] == s[0] && IsSubseq(r[1..], s[1..])) || IsSubseq(r, s[1..])
  }

  /** Every pair of positions, earlier first, is related by `le`. */
  predicate Ordered<T>(s: seq<T>, le: (T, T) -> bool) {
    forall i, j :: 0 <= i < j < |s| ==> le(s[i], s[j])
  }

  /** Ascending (ties allowed) by an integer key. */
  predicate SortedBy<T>(s: seq<T>, key: T -> int) {
    forall i, j :: 0 <= i < j < |s| ==> key(s[i]) <= key(s[j])
  }

  predicate StrictlyIncreasing(ks: seq<int>) {
    forall i, j :: 0 <= i < j < |ks| ==> ks[i] < ks[j]
  }

  lemma {:induction false} SubseqMembers<T(!new)>(r: seq<T>, s: seq<T>)
    requires IsSubseq(r, s)
    ensures forall x :: x in r ==> x in s
    decreases |s|
  {
    if r != [] {
      if r[0] == s[0] && IsSubseq(r[1..], s[1..]) {
        SubseqMembers(r[1..], s[1..]);
        forall x | x in r ensures x in s {
          if x != r[0] {
            assert x in r[1..];
          }
        }
      } else {
        SubseqMembers(r, s[1..]);
      }
    }
  }

  /** A subsequence of a subsequence is a subsequence. */
  lemma {:induction false} SubseqTransitive<T(!new)>(r: seq<T>, s: seq<T>, u: seq<T>)
    requires IsSubseq(r, s) && IsSubseq(s, u)
    ensures IsSubseq(r, u)
    decreases |u|
  {
    if r != [] {
      if IsSubseq(s, u[1..]) {
        SubseqTransitive(r, s, u[1..]);
      } else if r[0] == s[0] && IsSubseq(r[1..], s[1..]) {
        SubseqTransitive(r[1..], s[1..], u[1..]);
      } else {
        SubseqTransitive(r, s[1..], u[1..]);
      }
    }
  }

  /** Deleting elements never breaks an ordering the whole sequence had. */
  lemma {:induction false} SubseqKeepsOrder<T(!new)>(r: seq<T>, s: seq<T>, le: (T, T) -> bool)
    requires IsSubseq(r, s)
    requires Ordered(s, le)
    ensures Ordered(r, le)
    decreases |s|
  {
    if r != [] {
      assert Ordered(s[1..], le) by {
        forall i, j | 0 <= i < j < |s[1..]| ensures le(s[1..][i], s[1..][j]) {
          assert s[1..][i] == s[i + 1] && s[1..][j] == s[j + 1];
        }
      }
      if r[0] == s[0] && IsSubseq(r[1..], s[1..]) {
        SubseqKeepsOrder(r[1..], s[1..], le);
        SubseqMembers(r[1..], s[1..]);
        forall i, j | 0 <= i < j < |r| ensures le(r[i], r[j]) {
          if i == 0 {
            assert r[j] in r[1..] by { assert r[j] == r[1..][j - 1]; }
            var k :| 0 <= k < |s[1..]| && s[1..][k] == r[j];
            assert s[k + 1] == r[j];
          } else {
            assert r[i] == r[1..][i - 1] && r[j] == r[1..][j - 1];
          }
        }
      } else {
        SubseqKeepsOrder(r, s[1..], le);
      }
    }
  }

  // ---------------------------------------------------------------------------
  // Filtering
  // ---------------------------------------------------------------------------

  /** The elements of `s` satisfying `p`, in their original order (Swift's `filter`). */
  function Filter<T(==,!new)>(s: seq<T>, p: T -> bool): (r: seq<T>)
    ensures |r| <= |s|
    ensures forall x :: x in r <==> x in s && p(x)
    ensures IsSubseq(r, s)
  {
    if s == [] then []
    else if p(s[0]) then
      var rest := Filter(s[1..], p);
      assert ([s[0]] + rest)[1..] == rest;
      [s[0]] + rest
    else Filter(s[1..], p)
  }

  /** A filter that accepts every element is the identity. */
  lemma {:induction false} FilterAll<T(!new)>(s: seq<T>, p: T -> bool)
    requires forall x :: x in s ==> p(x)
    ensures Filter(s, p) == s
  {
    if s != [] {
      assert s[0] in s;
      assert forall x :: x in s[1..] ==> x in s;
      FilterAll(s[1..], p);
    }
  }

  lemma FilterKeepsOrder<T(!new)>(s: seq<T>, p: T -> bool, le: (T, T) -> bool)
    requires Ordered(s, le)
    ensures Ordered(Filter(s, p), le)
  {
    SubseqKeepsOrder(Filter(s, p), s, le);
  }

  /**
   * When `p` holds exactly where one of two mutually exclusive predicates holds,
   * filtering by `p` yields, as a multiset, the two filters together.
   */
  lemma {:induction false} FilterSplit<T(!new)>(s: seq<T>, p: T -> bool, q: T -> bool, r: T -> bool)
    requires forall x :: x in s ==> (p(x) <==> q(x) || r(x))
    requires forall x :: x in s ==> !(q(x) && r(x))
    ensures multiset(Filter(s, p)) == multiset(Filter(s, q)) + multiset(Filter(s, r))
  {
    if s != [] {
      FilterSplit(s[1..], p, q, r);
    }
  }

  /** A filter and its complement share the elements of `s` out. */
  lemma {:induction false} FilterComplement<T(!new)>(s: seq<T>, p: T -> bool, q: T -> bool)
    requires forall x :: x in s ==> (q(x) <==> !p(x))
    ensures |Filter(s, p)| + |Filter(s, q)| == |s|
  {
    if s != [] {
      FilterComplement(s[1..], p, q);
    }
  }

  // ---------------------------------------------------------------------------
  // Sorting by an integer key
  // ---------------------------------------------------------------------------

  /** Putting a key no larger than any in a sorted sequence in front keeps it sorted. */
  lemma ConsSorted<T>(h: T, rest: seq<T>, key: T -> int)
    requires SortedBy(rest, key)
    requires forall y :: y in rest ==> key(h) <= key(y)
    ensures SortedBy([h] + rest, key)
  {
    var r := [h] + rest;
    forall i, j | 0 <= i < j < |r| ensures key(r[i]) <= key(r[j]) {
      assert r[j] == rest[j - 1];
      if i > 0 {
        assert r[i] == rest[i - 1];
      } else {
        assert r[j] in rest;
      }
    }
  }

  /** The least key of a sorted sequence is its first. */
  lemma SortedHeadLeast<T>(s: seq<T>, key: T -> int)
    requires SortedBy(s, key) && s != []
    ensures forall y :: y in s ==> key(s[0]) <= key(y)
  {
    forall y | y in s ensures key(s[0]) <= key(y) {
      var k :| 0 <= k < |s| && s[k] == y;
    }
  }

  function Insert<T(==,!new)>(x: T, s: seq<T>, key: T -> int): (r: seq<T>)
    requires SortedBy(s, key)
    ensures SortedBy(r, key)
    ensures multiset(r) == multiset(s) + multiset{x}
    ensures forall y :: y in r ==> y == x || y in s
  {
    if s == [] || key(x) < key(s[0]) then
      assert SortedBy([x] + s, key) by {
        if s != [] { SortedHeadLeast(s, key); }
        ConsSorted(x, s, key);
      }
      [x] + s
    else
      assert s == [s[0]] + s[1..];
      var rest := Insert(x, s[1..], key);
      SortedHeadLeast(s, key);
      ConsSorted(s[0], rest, key);
      [s[0]] + rest
  }

  /**
   * An ascending arrangement of `s` by `key`.  Swift's `sorted(by:)` does not
   * promise how ties are ordered; this one is one admissible arrangement.
   */
  function SortBy<T(==,!new)>(s: seq<T>, key: T -> int): (r: seq<T>)
    ensures SortedBy(r, key)
    ensures multiset(r) == multiset(s)
    ensures |r| == |s|
  {
    if s == [] then []
    else
      assert s == [s[0]] + s[1..];
      Insert(s[0], SortBy(s[1..], key), key)
  }

  // ---------------------------------------------------------------------------
  // Grouping by an integer key (Swift's `Dictionary(grouping:by:)` followed by
  // `keys.sorted()`)
  // ---------------------------------------------------------------------------

  datatype Group<T> = Group(key: int, items: seq<T>)

  /** The elements of `s` whose key is `k`, in their original order. */
  function Matching<T(==,!new)>(s: seq<T>, key: T -> int, k: int): (r: seq<T>)
    ensures forall x :: x in r <==> x in s && key(x) == k
    ensures IsSubseq(r, s)
  {
    Filter(s, x => key(x) == k)
  }

  function InsertKey(k: int, ks: seq<int>): (r: seq<int>)
    requires StrictlyIncreasing(ks)
    ensures StrictlyIncreasing(r)
    ensures forall j :: j in r <==> j == k || j in ks
  {
    if ks == [] || k < ks[0] then
      var r := [k] + ks;
      assert StrictlyIncreasing(r) by {
        forall i, j | 0 <= i < j < |r| ensures r[i] < r[j] {
          assert r[j] == ks[j - 1];
          if i > 0 { assert r[i] == ks[i - 1]; }
        }
      }
      r
    else if k == ks[0] then ks
    else
      var rest := InsertKey(k, ks[1..]);
      var r := [ks[0]] + rest;
      assert ks == [ks[0]] + ks[1..];
      assert StrictlyIncreasing(r) by {
        forall i, j | 0 <= i < j < |r| ensures r[i] < r[j] {
          assert r[j] == rest[j - 1];
          if i > 0 {
            assert r[i] == rest[i - 1];
          } else {
            assert r[j] in rest;
            if r[j] != k {
              var m :| 0 <= m < |ks[1..]| && ks[1..][m] == r[j];
              assert ks[m + 1] == r[j];
            }
          }
        }
      }
      r
  }

  /** The distinct keys occurring in `s`, ascending. */
  function SortedKeys<T(==,!new)>(s: seq<T>, key: T -> int): (r: seq<int>)
    ensures StrictlyIncreasing(r)
    ensures forall x :: x in s ==> key(x) in r
    ensures forall k :: k in r ==> exists x :: x in s && key(x) == k
  {
    if s == [] then []
    else
      var rest := SortedKeys(s[1..], key);
      var r := InsertKey(key(s[0]), rest);
      assert forall k :: k in r ==> exists x :: x in s && key(x) == k by {
        forall k | k in r ensures exists x :: x in s && key(x) == k {
          if k == key(s[0]) {
            assert s[0] in s;
          } else {
            var x :| x in s[1..] && key(x) == k;
            assert x in s;
          }
        }
      }
      r
  }

  function GroupsFor<T(==,!new)>(s: seq<T>, key: T -> int, ks: seq<int>): (gs: seq<Group<T>>)
    ensures |gs| == |ks|
    ensures forall i :: 0 <= i < |ks| ==> gs[i] == Group(ks[i], Matching(s, key, ks[i]))
  {
    if ks == [] then []
    else [Group(ks[0], Matching(s, key, ks[0]))] + GroupsFor(s, key, ks[1..])
  }

  function TotalSize<T>(gs: seq<Group<T>>): nat {
    if gs == [] then 0 else |gs[0].items| + TotalSize(gs[1..])
  }

  /** How many entries of `ks` equal `k`. */
  function Occurrences(ks: seq<int>, k: int): nat {
    if ks == [] then 0 else (if ks[0] == k then 1 else 0) + Occurrences(ks[1..], k)
  }

  lemma {:induction false} OccursOnce(ks: seq<int>, k: int)
    requires StrictlyIncreasing(ks)
    requires k in ks
    ensures Occurrences(ks, k) == 1
  {
    if ks[0] == k {
      assert forall j :: j in ks[1..] ==> k < j by {
        forall j | j in ks[1..] ensures k < j {
          var m :| 0 <= m < |ks[1..]| && ks[1..][m] == j;
          assert ks[m + 1] == j;
        }
      }
      OccursNot(ks[1..], k);
    } else {
      OccursOnce(ks[1..], k);
    }
  }

  lemma {:induction false} OccursNot(ks: seq<int>, k: int)
    requires forall j :: j in ks ==> k < j
    ensures Occurrences(ks, k) == 0
  {
    if ks != [] {
      assert ks[0] in ks;
      assert forall j :: j in ks[1..] ==> j in ks by {
        forall j | j in ks[1..] ensures j in ks {
          var m :| 0 <= m < |ks[1..]| && ks[1..][m] == j;
          assert ks[m + 1] == j;
        }
      }
      OccursNot(ks[1..], k);
    }
  }

  /** Adding one element in front of `s` adds it to exactly the groups whose key is its key. */
  lemma {:induction false} TotalSizeCons<T(!new)>(x: T, s: seq<T>, key: T -> int, ks: seq<int>)
    ensures TotalSize(GroupsFor([x] + s, key, ks))
         == Occurrences(ks, key(x)) + TotalSize(GroupsFor(s, key, ks))
  {
    if ks != [] {
      assert ([x] + s)[1..] == s;
      TotalSizeCons(x, s, key, ks[1..]);
    }
  }

  /** With distinct keys covering every element, the groups hold `|s|` elements in all. */
  lemma {:induction false} TotalSizeCovers<T(!new)>(s: seq<T>, key: T -> int, ks: seq<int>)
    requires StrictlyIncreasing(ks)
    requires forall x :: x in s ==> key(x) in ks
    ensures TotalSize(GroupsFor(s, key, ks)) == |s|
  {
    if s == [] {
      EmptyGroups(key, ks);
    } else {
      assert s == [s[0]] + s[1..];
      TotalSizeCovers(s[1..], key, ks);
      TotalSizeCons(s[0], s[1..], key, ks);
      OccursOnce(ks, key(s[0]));
    }
  }

  lemma {:induction false} EmptyGroups<T(!new)>(key: T -> int, ks: seq<int>)
    ensures TotalSize(GroupsFor([], key, ks)) == 0
  {
    if ks != [] {
      EmptyGroups(key, ks[1..]);
    }
  }

  lemma GroupsNonEmpty<T(!new)>(s: seq<T>, key: T -> int, ks: seq<int>, gs: seq<Group<T>>)
    requires forall k :: k in ks ==> exists x :: x in s && key(x) == k
    requires gs == GroupsFor(s, key, ks)
    ensures forall i :: 0 <= i < |gs| ==> gs[i].items != []
  {
    forall i | 0 <= i < |gs| ensures gs[i].items != [] {
      assert ks[i] in ks;
      var x :| x in s && key(x) == ks[i];
      assert x in gs[i].items;
    }
  }

  lemma GroupsCover<T(!new)>(s: seq<T>, key: T -> int, ks: seq<int>, gs: seq<Group<T>>)
    requires forall x :: x in s ==> key(x) in ks
    requires gs == GroupsFor(s, key, ks)
    ensures forall x :: x in s ==> exists i :: 0 <= i < |gs| && gs[i].key == key(x)
  {
    forall x | x in s ensures exists i :: 0 <= i < |gs| && gs[i].key == key(x) {
      var i :| 0 <= i < |ks| && ks[i] == key(x);
      assert gs[i].key == key(x);
    }
  }

  lemma GroupsMatch<T(!new)>(s: seq<T>, key: T -> int, ks: seq<int>, gs: seq<Group<T>>)
    requires StrictlyIncreasing(ks)
    requires gs == GroupsFor(s, key, ks)
    ensures forall i, j :: 0 <= i < j < |gs| ==> gs[i].key < gs[j].key
    ensures forall i, x :: 0 <= i < |gs| ==> (x in gs[i].items <==> x in s && key(x) == gs[i].key)
    ensures forall i :: 0 <= i < |gs| ==> IsSubseq(gs[i].items, s)
  {
    forall i, j | 0 <= i < j < |gs| ensures gs[i].key < gs[j].key {
      assert gs[i].key == ks[i] && gs[j].key == ks[j];
    }
  }

  /**
   * Groups of `s` by `key`: one per distinct key, keys strictly ascending,
   * each group non-empty and holding exactly the elements with its key in
   * their original order, and no element lost or duplicated in count.
   */
  function GroupByKey<T(==,!new)>(s: seq<T>, key: T -> int): (gs: seq<Group<T>>)
    ensures forall i, j :: 0 <= i < j < |gs| ==> gs[i].key < gs[j].key
    ensures forall i :: 0 <= i < |gs| ==> gs[i].items != []
    ensures forall i, x :: 0 <= i < |gs| ==> (x in gs[i].items <==> x in s && key(x) == gs[i].key)
    ensures forall i :: 0 <= i < |gs| ==> IsSubseq(gs[i].items, s)
    ensures forall x :: x in s ==> exists i :: 0 <= i < |gs| && gs[i].key == key(x)
    ensures TotalSize(gs) == |s|
  {
    var ks := SortedKeys(s, key);
    var gs := GroupsFor(s, key, ks);
    GroupsMatch(s, key, ks, gs);
    GroupsNonEmpty(s, key, ks, gs);
    GroupsCover(s, key, ks, gs);
    TotalSizeCovers(s, key, ks);
    gs
  }
}
