/** Sequence helpers for the library calls app.js relies on: a stable
    `sort` by an integer key, and the concatenation of per-region lists
    that repeated `push(...list)` builds.

    app.js sorts with `Array.prototype.sort` and a comparator of the form
    `(a, b) => key(a) - key(b)` (ascending) or `(a, b) => key(b) - key(a)`
    (descending, written here as an ascending sort on the negated key).
    That sort is stable (ECMAScript 2019 onwards), so it is modelled as a
    stable insertion sort: equal keys keep their input order. */
module ArrayLib {

  /** Keys never decrease from left to right. */
  predicate SortedBy<T>(s: seq<T>, key: T -> int)
  {
    forall i, j :: 0 <= i < j < |s| ==> key(s[i]) <= key(s[j])
  }

  /** Sorted by `key`, and within equal keys sorted by `key2`. */
  predicate LexSortedBy<T>(s: seq<T>, key: T -> int, key2: T -> int)
  {
    forall i, j :: 0 <= i < j < |s| ==>
      key(s[i]) < key(s[j]) || (key(s[i]) == key(s[j]) && key2(s[i]) <= key2(s[j]))
  }

  /** Inserts `x` after every element whose key is at most `key(x)`. */
  function Insert<T>(s: seq<T>, x: T, key: T -> int): (r: seq<T>)
    ensures |r| == |s| + 1
    ensures multiset(r) == multiset(s) + multiset{x}
  {
    if s == [] || key(s[|s| - 1]) <= key(x) then s + [x]
    else
      var init := s[..|s| - 1];
      assert s == init + [s[|s| - 1]];
      Insert(init, x, key) + [s[|s| - 1]]
  }

  lemma {:induction false} InsertSorted<T>(s: seq<T>, x: T, key: T -> int)
    requires SortedBy(s, key)
    ensures SortedBy(Insert(s, x, key), key)
  {
    if s == [] || key(s[|s| - 1]) <= key(x) {
    } else {
      var init, last := s[..|s| - 1], s[|s| - 1];
      InsertSorted(init, x, key);
      var t := Insert(init, x, key);
      var r := t + [last];
      forall i | 0 <= i < |t| ensures key(t[i]) <= key(last) {
        assert t[i] in multiset(t);
        if t[i] != x {
          assert t[i] in multiset(init);
          var k :| 0 <= k < |init| && init[k] == t[i];
          assert s[k] == t[i];
        }
      }
    }
  }

  /** The stable sort: the result is the input reordered so that keys
      ascend. */
  function SortBy<T>(s: seq<T>, key: T -> int): (r: seq<T>)
    ensures |r| == |s|
    ensures multiset(r) == multiset(s)
    ensures SortedBy(r, key)
  {
    if s == [] then []
    else
      var init := s[..|s| - 1];
      assert s == init + [s[|s| - 1]];
      InsertSorted(SortBy(init, key), s[|s| - 1], key);
      Insert(SortBy(init, key), s[|s| - 1], key)
  }

  lemma {:induction false} InsertKeepsTies<T>(s: seq<T>, x: T, key: T -> int, key2: T -> int)
    requires LexSortedBy(s, key, key2)
    requires forall k :: 0 <= k < |s| ==> key2(s[k]) <= key2(x)
    ensures LexSortedBy(Insert(s, x, key), key, key2)
  {
    if s == [] || key(s[|s| - 1]) <= key(x) {
      forall i | 0 <= i < |s| ensures key(s[i]) <= key(x) {
        if i < |s| - 1 {
          assert key(s[i]) <= key(s[|s| - 1]);
        }
      }
      AppendLexSorted(s, x, key, key2);
    } else {
      var init, last := s[..|s| - 1], s[|s| - 1];
      assert forall k :: 0 <= k < |init| ==> init[k] == s[k];
      InsertKeepsTies(init, x, key, key2);
      var t := Insert(init, x, key);
      forall i | 0 <= i < |t|
        ensures key(t[i]) < key(last) || (key(t[i]) == key(last) && key2(t[i]) <= key2(last))
      {
        assert t[i] in multiset(t);
        if t[i] != x {
          assert t[i] in multiset(init);
          var k :| 0 <= k < |init| && init[k] == t[i];
          assert s[k] == t[i];
        }
      }
      AppendLexSorted(t, last, key, key2);
    }
  }

  /** Appending an element that comes after every element keeps the
      lexicographic order. */
  lemma AppendLexSorted<T>(t: seq<T>, last: T, key: T -> int, key2: T -> int)
    requires LexSortedBy(t, key, key2)
    requires forall i :: 0 <= i < |t| ==>
      key(t[i]) < key(last) || (key(t[i]) == key(last) && key2(t[i]) <= key2(last))
    ensures LexSortedBy(t + [last], key, key2)
  {
  }

  /** Stability as the pipeline uses it: sorting a sequence that is already
      ordered by `key2` leaves elements with equal `key` in `key2` order. */
  lemma {:induction false} SortByKeepsTies<T>(s: seq<T>, key: T -> int, key2: T -> int)
    requires SortedBy(s, key2)
    ensures LexSortedBy(SortBy(s, key), key, key2)
  {
    if s != [] {
      var init, x := s[..|s| - 1], s[|s| - 1];
      assert SortedBy(init, key2);
      SortByKeepsTies(init, key, key2);
      var t := SortBy(init, key);
      forall k | 0 <= k < |t| ensures key2(t[k]) <= key2(x) {
        assert t[k] in multiset(t);
        assert t[k] in multiset(init);
        var j :| 0 <= j < |init| && init[j] == t[k];
        assert s[j] == t[k];
      }
      InsertKeepsTies(t, x, key, key2);
    }
  }

  /** After sorting, each of the first `n` elements has a key no larger than
      any element left out, which is what `.sort(...).slice(0, n)` relies on. */
  lemma SortedPrefixSmallest<T>(r: seq<T>, key: T -> int, n: nat)
    requires SortedBy(r, key) && n <= |r|
    ensures multiset(r[..n]) <= multiset(r)
    ensures forall x :: x in r[..n] ==> x in r
    ensures forall x, y :: x in r[..n] && y in multiset(r) - multiset(r[..n]) ==> key(x) <= key(y)
  {
    PrefixRest(r, n);
    forall x | x in r[..n] ensures x in r {
      assert x in multiset(r[..n]);
    }
    forall x, y | x in r[..n] && y in multiset(r) - multiset(r[..n]) ensures key(x) <= key(y) {
      assert y in multiset(r[n..]);
      PrefixBeforeRest(r, key, n, x, y);
    }
  }

  /** Removing a prefix's elements from a sequence's leaves the rest. */
  lemma PrefixRest<T>(r: seq<T>, n: nat)
    requires n <= |r|
    ensures multiset(r[..n]) <= multiset(r)
    ensures multiset(r) - multiset(r[..n]) == multiset(r[n..])
  {
    assert r == r[..n] + r[n..];
  }

  /** In a sorted sequence an element of the first `n` has a key no larger
      than an element after them. */
  lemma PrefixBeforeRest<T>(r: seq<T>, key: T -> int, n: nat, x: T, y: T)
    requires SortedBy(r, key) && n <= |r|
    requires x in r[..n] && y in r[n..]
    ensures key(x) <= key(y)
  {
    var i :| 0 <= i < n && r[..n][i] == x;
    var j :| 0 <= j < |r| - n && r[n..][j] == y;
    assert r[i] == x && r[n + j] == y;
  }

  /** Sorting keeps exactly the elements of the input. */
  lemma SortByMembers<T>(s: seq<T>, key: T -> int)
    ensures forall x :: x in SortBy(s, key) <==> x in s
  {
    var r := SortBy(s, key);
    forall x | x in s ensures x in r {
      assert x in multiset(s);
    }
    forall x | x in r ensures x in s {
      assert x in multiset(r);
    }
  }

  /** No element of a sorted sequence has a key strictly between those of
      two neighbours. */
  lemma SortedNeighbours<T>(r: seq<T>, key: T -> int, i: nat)
    requires SortedBy(r, key) && i + 1 < |r|
    ensures forall x :: x in r ==> key(x) <= key(r[i]) || key(r[i + 1]) <= key(x)
  {
    forall x | x in r ensures key(x) <= key(r[i]) || key(r[i + 1]) <= key(x) {
      var j :| 0 <= j < |r| && r[j] == x;
      if j <= i {
        assert key(r[j]) <= key(r[i]);
      } else {
        assert key(r[i + 1]) <= key(r[j]);
      }
    }
  }

  /** The concatenation of the lists in `css`, in order. */
  function Flatten<T>(css: seq<seq<T>>): seq<T>
  {
    if css == [] then [] else Flatten(css[..|css| - 1]) + css[|css| - 1]
  }

  lemma FlattenAppend<T>(css: seq<seq<T>>, cs: seq<T>)
    ensures Flatten(css + [cs]) == Flatten(css) + cs
  {
    assert (css + [cs])[..|css|] == css;
  }

  /** An element of the concatenation comes from one of the lists, and
      every element of every list is in the concatenation. */
  lemma {:induction false} FlattenMembers<T>(css: seq<seq<T>>)
    ensures forall x :: x in Flatten(css) ==> exists i :: 0 <= i < |css| && x in css[i]
    ensures forall x, i :: 0 <= i < |css| && x in css[i] ==> x in Flatten(css)
  {
    if css != [] {
      var init := css[..|css| - 1];
      FlattenMembers(init);
      assert Flatten(css) == Flatten(init) + css[|css| - 1];
      forall x | x in Flatten(css) ensures exists i :: 0 <= i < |css| && x in css[i] {
        if x !in css[|css| - 1] {
          assert x in Flatten(init);
          var i :| 0 <= i < |init| && x in init[i];
          assert css[i] == init[i];
        }
      }
      forall x, i | 0 <= i < |css| && x in css[i] ensures x in Flatten(css) {
        if i < |css| - 1 {
          assert x in init[i];
        }
      }
    }
  }

  /** Concatenating `k` lists of at most two elements each gives at most
      `2 * k` elements. */
  lemma {:induction false} FlattenLength<T>(css: seq<seq<T>>)
    requires forall i :: 0 <= i < |css| ==> |css[i]| <= 2
    ensures |Flatten(css)| <= 2 * |css|
  {
    if css != [] {
      FlattenLength(css[..|css| - 1]);
    }
  }
}
