/** Counting over a sequence of keys, as the reporting scripts do with dictionaries of lists:
    how often a key occurs, the distinct keys in first-occurrence order (a dictionary's key
    order), and how a per-key sum over the distinct keys equals a per-element count. */
module Grouping {

  /** The number of positions holding `k`. */
  function Occ<K(==,!new)>(ks: seq<K>, k: K): (n: nat)
    ensures n <= |ks|
    ensures n == 0 <==> k !in ks
  {
    if ks == [] then 0
    else
      assert ks == ks[..|ks| - 1] + [ks[|ks| - 1]];
      Occ(ks[..|ks| - 1], k) + (if ks[|ks| - 1] == k then 1 else 0)
  }

  predicate NoDups<K(==,!new)>(d: seq<K>)
  {
    forall i, j :: 0 <= i < j < |d| ==> d[i] != d[j]
  }

  /** The keys of a dictionary filled from `ks` in order: each key once, where it first occurs. */
  function Distinct<K(==,!new)>(ks: seq<K>): (d: seq<K>)
    ensures NoDups(d)
    ensures forall k :: k in d <==> k in ks
    ensures |d| <= |ks|
  {
    if ks == [] then []
    else
      assert ks == ks[..|ks| - 1] + [ks[|ks| - 1]];
      var d := Distinct(ks[..|ks| - 1]);
      if ks[|ks| - 1] in d then d else d + [ks[|ks| - 1]]
  }

  /** The number of positions whose key lies in `s`. */
  function CountIn<K(==,!new)>(ks: seq<K>, s: set<K>): (n: nat)
    ensures n <= |ks|
  {
    if ks == [] then 0
    else CountIn(ks[..|ks| - 1], s) + (if ks[|ks| - 1] in s then 1 else 0)
  }

  /** The sum, over the keys of `d` lying in `s`, of how often each occurs in `ks`. */
  function SumOcc<K(==,!new)>(d: seq<K>, ks: seq<K>, s: set<K>): nat
  {
    if d == [] then 0
    else SumOcc(d[..|d| - 1], ks, s) + (if d[|d| - 1] in s then Occ(ks, d[|d| - 1]) else 0)
  }

  /** What appending one key does to the counts and to the distinct keys. */
  lemma SnocFacts<K(!new)>(ks: seq<K>, x: K)
    ensures (ks + [x])[..|ks|] == ks
    ensures forall k :: Occ(ks + [x], k) == Occ(ks, k) + (if x == k then 1 else 0)
    ensures Distinct(ks + [x]) == if x in ks then Distinct(ks) else Distinct(ks) + [x]
  {
    assert (ks + [x])[..|ks + [x]| - 1] == ks;
  }

  lemma {:induction false} SumOccSnoc<K(!new)>(d: seq<K>, ks: seq<K>, x: K, s: set<K>)
    requires NoDups(d)
    ensures SumOcc(d, ks + [x], s) == SumOcc(d, ks, s) + (if x in d && x in s then 1 else 0)
  {
    assert (ks + [x])[..|ks + [x]| - 1] == ks;
    if d != [] {
      var init := d[..|d| - 1];
      assert d == init + [d[|d| - 1]];
      SumOccSnoc(init, ks, x, s);
    }
  }

  /** Summing the group sizes of the selected keys counts the selected elements. */
  lemma {:induction false} Partition<K(!new)>(ks: seq<K>, s: set<K>)
    ensures SumOcc(Distinct(ks), ks, s) == CountIn(ks, s)
  {
    if ks != [] {
      var init := ks[..|ks| - 1];
      var x := ks[|ks| - 1];
      assert ks == init + [x];
      var d := Distinct(init);
      Partition(init, s);
      SumOccSnoc(d, init, x, s);
      if x !in d {
        assert Distinct(ks) == d + [x];
        assert (d + [x])[..|d + [x]| - 1] == d;
        assert Occ(init, x) == 0;
      }
    }
  }

  /** Two sets that split the keys present split the count. */
  lemma {:induction false} CountComplement<K(!new)>(ks: seq<K>, a: set<K>, b: set<K>)
    requires forall k :: k in ks ==> (k in a <==> k !in b)
    ensures CountIn(ks, a) + CountIn(ks, b) == |ks|
  {
    if ks != [] {
      assert ks == ks[..|ks| - 1] + [ks[|ks| - 1]];
      CountComplement(ks[..|ks| - 1], a, b);
    }
  }

  /** Every key is selected exactly when the count is the whole length. */
  lemma {:induction false} CountAll<K(!new)>(ks: seq<K>, s: set<K>)
    ensures CountIn(ks, s) == |ks| <==> forall k :: k in ks ==> k in s
  {
    if ks != [] {
      assert ks == ks[..|ks| - 1] + [ks[|ks| - 1]];
      CountAll(ks[..|ks| - 1], s);
    }
  }

  /** No key is selected exactly when the count is zero. */
  lemma {:induction false} CountNone<K(!new)>(ks: seq<K>, s: set<K>)
    ensures CountIn(ks, s) == 0 <==> forall k :: k in ks ==> k !in s
  {
    if ks != [] {
      assert ks == ks[..|ks| - 1] + [ks[|ks| - 1]];
      CountNone(ks[..|ks| - 1], s);
    }
  }

  lemma NoDupsSnoc<K(!new)>(ks: seq<K>, x: K)
    ensures NoDups(ks + [x]) <==> NoDups(ks) && x !in ks
  {
    assert forall i :: 0 <= i < |ks| ==> (ks + [x])[i] == ks[i];
    if x in ks {
      var i :| 0 <= i < |ks| && ks[i] == x;
      assert (ks + [x])[i] == (ks + [x])[|ks|];
      assert !NoDups(ks + [x]);
    }
    if NoDups(ks) && x !in ks {
      forall i, j | 0 <= i < j < |ks| + 1 ensures (ks + [x])[i] != (ks + [x])[j] {
        if j == |ks| {
          assert ks[i] in ks;
        }
      }
    }
  }

  /** A sequence has no duplicates exactly when every key in it occurs once. */
  lemma {:induction false} NoDupsOcc<K(!new)>(ks: seq<K>)
    ensures NoDups(ks) <==> forall k :: k in ks ==> Occ(ks, k) == 1
  {
    if ks != [] {
      var init := ks[..|ks| - 1];
      var x := ks[|ks| - 1];
      assert ks == init + [x];
      NoDupsOcc(init);
      if NoDups(ks) {
        assert NoDups(init) by {
          forall i, j | 0 <= i < j < |init| ensures init[i] != init[j] {
            assert init[i] == ks[i] && init[j] == ks[j];
          }
        }
        assert x !in init;
      }
      if forall k :: k in ks ==> Occ(ks, k) == 1 {
        assert Occ(ks, x) == Occ(init, x) + 1;
        assert x !in init;
        forall k | k in init ensures Occ(init, k) == 1 {
          assert Occ(ks, k) == Occ(init, k);
        }
        forall i, j | 0 <= i < j < |ks| ensures ks[i] != ks[j] {
          if j < |init| {
            assert ks[i] == init[i] && ks[j] == init[j];
          } else {
            assert ks[i] in init;
          }
        }
      }
    }
  }
}
