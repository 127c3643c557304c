/**
 * What a "group into a dict" loop computes, stated over the sequence of
 * keys `ks` and the parallel sequence of values `vs`: the keys in
 * first-seen order (the dict's insertion order) and, per key, the values
 * carrying that key in their original order.
 */
module Grouping {

  /** No element occurs twice. */
  predicate Distinct<K(==,!new)>(ks: seq<K>) {
    forall i, j :: 0 <= i < j < |ks| ==> ks[i] != ks[j]
  }

  /** Each key once, in the order of its first occurrence. */
  function FirstSeen<K(==,!new)>(ks: seq<K>): (r: seq<K>)
    ensures Distinct(r)
    ensures forall k :: k in r <==> k in ks
    ensures |r| <= |ks|
  {
    if ks == [] then []
    else
      var prev := FirstSeen(ks[..|ks| - 1]);
      var k := ks[|ks| - 1];
      if k in prev then prev else prev + [k]
  }

  /** The index of the first occurrence of `k` in `ks`. */
  function FirstIndex<K(==)>(ks: seq<K>, k: K): (i: nat)
    requires k in ks
    ensures i < |ks| && ks[i] == k
    ensures forall j :: 0 <= j < i ==> ks[j] != k
  {
    if ks[0] == k then 0
    else
      var i := FirstIndex(ks[1..], k);
      assert forall j :: 1 <= j <= i ==> ks[j] == ks[1..][j - 1];
      1 + i
  }

  /** A key first seen in a prefix is first seen at the same index in the whole sequence. */
  lemma FirstIndexPrefix<K(!new)>(ks: seq<K>, n: nat, k: K)
    requires n <= |ks| && k in ks[..n]
    ensures FirstIndex(ks, k) == FirstIndex(ks[..n], k)
  {
    var b := FirstIndex(ks[..n], k);
    assert ks[b] == k;
    forall j | 0 <= j < b ensures ks[j] != k {
      assert ks[..n][j] == ks[j];
    }
  }

  /** The dict's keys come in the order of their first occurrence in `ks`. */
  lemma {:induction false} FirstSeenOrder<K(!new)>(ks: seq<K>, i: nat, j: nat)
    requires i < j < |FirstSeen(ks)|
    ensures FirstIndex(ks, FirstSeen(ks)[i]) < FirstIndex(ks, FirstSeen(ks)[j])
    decreases |ks|
  {
    var n := |ks| - 1;
    var prev := FirstSeen(ks[..n]);
    var r := FirstSeen(ks);
    assert r[i] == prev[i] && r[i] in ks[..n];
    FirstIndexPrefix(ks, n, r[i]);
    if j < |prev| {
      assert r[j] == prev[j] && r[j] in ks[..n];
      FirstIndexPrefix(ks, n, r[j]);
      FirstSeenOrder(ks[..n], i, j);
    } else {
      assert r[j] == ks[n] && ks[n] !in ks[..n];
      assert FirstIndex(ks, r[j]) == n;
    }
  }

  /** The values whose key is `k`, in their original order. */
  function Members<K(==,!new), V(!new)>(ks: seq<K>, vs: seq<V>, k: K): (r: seq<V>)
    requires |ks| == |vs|
    ensures |r| <= |vs|
  {
    if ks == [] then []
    else
      Members(ks[..|ks| - 1], vs[..|vs| - 1], k) + (if ks[|ks| - 1] == k then [vs[|vs| - 1]] else [])
  }

  /** A key that does not occur has no members. */
  lemma {:induction false} MembersAbsent<K(!new), V(!new)>(ks: seq<K>, vs: seq<V>, k: K)
    requires |ks| == |vs| && k !in ks
    ensures Members(ks, vs, k) == []
    decreases |ks|
  {
    if ks != [] {
      var prev := ks[..|ks| - 1];
      assert k !in prev by {
        forall i | 0 <= i < |prev| ensures prev[i] != k {
          assert prev[i] == ks[i];
        }
      }
      MembersAbsent(prev, vs[..|vs| - 1], k);
    }
  }

  /** Every member of group `k` is a value whose key is `k`. */
  lemma {:induction false} MembersIndexed<K(!new), V(!new)>(ks: seq<K>, vs: seq<V>, k: K, x: V)
    requires |ks| == |vs| && x in Members(ks, vs, k)
    ensures exists i :: 0 <= i < |ks| && ks[i] == k && vs[i] == x
    decreases |ks|
  {
    var n := |ks| - 1;
    if x in Members(ks[..n], vs[..n], k) {
      MembersIndexed(ks[..n], vs[..n], k, x);
      var i :| 0 <= i < n && ks[..n][i] == k && vs[..n][i] == x;
      assert ks[i] == k && vs[i] == x;
    } else {
      assert ks[n] == k && vs[n] == x;
    }
  }

  /** The groups of the keys of `order`, one after the other. */
  function Regrouped<K(==,!new), V(!new)>(order: seq<K>, ks: seq<K>, vs: seq<V>): seq<V>
    requires |ks| == |vs|
  {
    if order == [] then []
    else Regrouped(order[..|order| - 1], ks, vs) + Members(ks, vs, order[|order| - 1])
  }

  /** Equal keys sit next to each other: between two occurrences of a key there is only that key. */
  predicate Contiguous<K(==,!new)>(ks: seq<K>) {
    forall i, j, l :: 0 <= i < j < l < |ks| && ks[i] == ks[l] ==> ks[j] == ks[i]
  }

  /** With contiguous keys the most recently first-seen key is the last key. */
  lemma {:induction false} LastFirstSeen<K(!new)>(ks: seq<K>)
    requires ks != [] && Contiguous(ks)
    ensures FirstSeen(ks) != [] && FirstSeen(ks)[|FirstSeen(ks)| - 1] == ks[|ks| - 1]
    decreases |ks|
  {
    var n := |ks| - 1;
    var prev := ks[..n];
    var k := ks[n];
    if k in FirstSeen(prev) {
      var i :| 0 <= i < n && prev[i] == k;
      assert ks[i] == k;
      assert ks[n - 1] == k by {
        if i < n - 1 {
          assert ks[i] == ks[n];
        }
      }
      assert Contiguous(prev) by {
        forall a, b, c | 0 <= a < b < c < |prev| && prev[a] == prev[c] ensures prev[b] == prev[a] {
          assert ks[a] == prev[a] && ks[b] == prev[b] && ks[c] == prev[c];
        }
      }
      LastFirstSeen(prev);
    }
  }

  /** A non-empty sequence is its front followed by its last element. */
  lemma LastSplit<T>(s: seq<T>)
    requires s != []
    ensures s == s[..|s| - 1] + [s[|s| - 1]]
  {
  }

  /** One more key: the first-seen order grows by it exactly when it is new. */
  lemma FirstSeenSnoc<K(!new)>(ks: seq<K>, k: K)
    ensures FirstSeen(ks + [k]) == if k in FirstSeen(ks) then FirstSeen(ks) else FirstSeen(ks) + [k]
  {
    assert (ks + [k])[..|ks|] == ks;
  }

  /** One more value: it joins the group of its own key only. */
  lemma MembersSnoc<K(!new), V(!new)>(ks: seq<K>, vs: seq<V>, k: K, v: V, d: K)
    requires |ks| == |vs|
    ensures Members(ks + [k], vs + [v], d) == Members(ks, vs, d) + (if k == d then [v] else [])
  {
    assert (ks + [k])[..|ks|] == ks;
    assert (vs + [v])[..|vs|] == vs;
  }

  /**
   * With contiguous keys, listing the groups in first-seen order gives back
   * the values in their original order: every value lands in exactly one
   * group and no group reorders its values.
   */
  lemma {:induction false} Regroup<K(!new), V(!new)>(ks: seq<K>, vs: seq<V>)
    requires |ks| == |vs| && Contiguous(ks)
    ensures Regrouped(FirstSeen(ks), ks, vs) == vs
    decreases |ks|
  {
    if ks != [] {
      var n := |ks| - 1;
      var ks', vs', k, v := ks[..n], vs[..n], ks[n], vs[n];
      LastSplit(ks);
      LastSplit(vs);
      assert Contiguous(ks') by {
        forall a, b, c | 0 <= a < b < c < |ks'| && ks'[a] == ks'[c] ensures ks'[b] == ks'[a] {
          assert ks[a] == ks'[a] && ks[b] == ks'[b] && ks[c] == ks'[c];
        }
      }
      Regroup(ks', vs');
      if k in FirstSeen(ks') {
        LastFirstSeen(ks);
        FirstSeenSnoc(ks', k);
        RegroupOld(ks', vs', k, v);
      } else {
        RegroupNew(ks', vs', k, v);
      }
    }
  }

  /** The groups of keys other than `k` do not see a value appended under `k`. */
  lemma {:induction false} RegroupedOthers<K(!new), V(!new)>(order: seq<K>, ks: seq<K>, vs: seq<V>, k: K, v: V)
    requires |ks| == |vs| && k !in order
    ensures Regrouped(order, ks + [k], vs + [v]) == Regrouped(order, ks, vs)
    decreases |order|
  {
    if order != [] {
      var m := |order| - 1;
      assert k !in order[..m] by {
        forall j | 0 <= j < m ensures order[..m][j] != k {
          assert order[..m][j] == order[j];
        }
      }
      RegroupedOthers(order[..m], ks, vs, k, v);
      MembersSnoc(ks, vs, k, v, order[m]);
    }
  }

  /** Listing one more key appends its group. */
  lemma RegroupedSnoc<K(!new), V(!new)>(order: seq<K>, k: K, ks: seq<K>, vs: seq<V>)
    requires |ks| == |vs|
    ensures Regrouped(order + [k], ks, vs) == Regrouped(order, ks, vs) + Members(ks, vs, k)
  {
    assert (order + [k])[..|order|] == order;
  }

  lemma AppendAssoc<T>(a: seq<T>, b: seq<T>, c: seq<T>)
    ensures a + (b + c) == (a + b) + c
  {
  }

  /** A value appended under the last listed key joins the last group. */
  lemma RegroupedLast<K(!new), V(!new)>(prev: seq<K>, k: K, ks: seq<K>, vs: seq<V>, v: V)
    requires |ks| == |vs| && k !in prev
    ensures Regrouped(prev + [k], ks + [k], vs + [v]) == Regrouped(prev + [k], ks, vs) + [v]
  {
    RegroupedSnoc(prev, k, ks + [k], vs + [v]);
    RegroupedOthers(prev, ks, vs, k, v);
    MembersSnoc(ks, vs, k, v, k);
    RegroupedSnoc(prev, k, ks, vs);
    AppendAssoc(Regrouped(prev, ks, vs), Members(ks, vs, k), [v]);
  }

  /** A value appended under the last first-seen key joins the last group. */
  lemma RegroupOld<K(!new), V(!new)>(ks: seq<K>, vs: seq<V>, k: K, v: V)
    requires |ks| == |vs|
    requires FirstSeen(ks) != [] && FirstSeen(ks)[|FirstSeen(ks)| - 1] == k
    ensures Regrouped(FirstSeen(ks + [k]), ks + [k], vs + [v]) == Regrouped(FirstSeen(ks), ks, vs) + [v]
  {
    var order := FirstSeen(ks);
    var m := |order| - 1;
    var prev := order[..m];
    LastSplit(order);
    assert k !in prev by {
      forall j | 0 <= j < m ensures prev[j] != k {
        assert prev[j] == order[j] && order[j] != order[m];
      }
    }
    FirstSeenSnoc(ks, k);
    RegroupedLast(prev, k, ks, vs, v);
  }

  /** A value appended under a new key opens a group of its own. */
  lemma RegroupNew<K(!new), V(!new)>(ks: seq<K>, vs: seq<V>, k: K, v: V)
    requires |ks| == |vs| && k !in FirstSeen(ks)
    ensures Regrouped(FirstSeen(ks + [k]), ks + [k], vs + [v]) == Regrouped(FirstSeen(ks), ks, vs) + [v]
  {
    var order := FirstSeen(ks);
    FirstSeenSnoc(ks, k);
    RegroupedSnoc(order, k, ks + [k], vs + [v]);
    RegroupedOthers(order, ks, vs, k, v);
    MembersSnoc(ks, vs, k, v, k);
    MembersAbsent(ks, vs, k);
  }

  /** Non-decreasing keys. */
  predicate Ascending(ks: seq<int>) {
    forall i, j :: 0 <= i < j < |ks| ==> ks[i] <= ks[j]
  }

  /** Strictly increasing keys. */
  predicate StrictlyAscending(ks: seq<int>) {
    forall i, j :: 0 <= i < j < |ks| ==> ks[i] < ks[j]
  }

  lemma AscendingContiguous(ks: seq<int>)
    requires Ascending(ks)
    ensures Contiguous(ks)
  {
    forall i, j, l | 0 <= i < j < l < |ks| && ks[i] == ks[l] ensures ks[j] == ks[i] {
      assert ks[i] <= ks[j] <= ks[l];
    }
  }

  /** The first-seen keys of non-decreasing keys are strictly increasing. */
  lemma {:induction false} FirstSeenAscending(ks: seq<int>)
    requires Ascending(ks)
    ensures StrictlyAscending(FirstSeen(ks))
    decreases |ks|
  {
    if ks != [] {
      var n := |ks| - 1;
      var prev := ks[..n];
      assert Ascending(prev) by {
        forall i, j | 0 <= i < j < |prev| ensures prev[i] <= prev[j] {
          assert prev[i] == ks[i] && prev[j] == ks[j];
        }
      }
      FirstSeenAscending(prev);
      var order' := FirstSeen(prev);
      if ks[n] !in order' {
        forall j | 0 <= j < |order'| ensures order'[j] < ks[n] {
          assert order'[j] in prev;
          var i :| 0 <= i < n && prev[i] == order'[j];
          assert ks[i] <= ks[n];
        }
      }
    }
  }

  /** One more key: the first-seen order grows by it exactly when it is new. */
  lemma FirstSeenStep<K(!new)>(ks: seq<K>, i: nat)
    requires i < |ks|
    ensures FirstSeen(ks[..i + 1]) ==
      if ks[i] in FirstSeen(ks[..i]) then FirstSeen(ks[..i]) else FirstSeen(ks[..i]) + [ks[i]]
  {
    assert ks[..i + 1][..i] == ks[..i];
  }

  /** One more value: it joins the group of its own key only. */
  lemma MembersStep<K(!new), V(!new)>(ks: seq<K>, vs: seq<V>, i: nat, k: K)
    requires |ks| == |vs| && i < |ks|
    ensures Members(ks[..i + 1], vs[..i + 1], k) ==
      Members(ks[..i], vs[..i], k) + (if ks[i] == k then [vs[i]] else [])
  {
    assert ks[..i + 1][..i] == ks[..i];
    assert vs[..i + 1][..i] == vs[..i];
  }

  /**
   * A dict that groups `vs` by `ks`: its keys in insertion order are the
   * keys in order of first appearance, and each key's list holds that key's
   * values in their original order.
   */
  ghost predicate GroupedBy<K(!new), V(!new)>(ks: seq<K>, vs: seq<V>, order: seq<K>, grouped: map<K, seq<V>>) {
    |ks| == |vs| &&
    order == FirstSeen(ks) &&
    (forall k :: k in grouped <==> k in order) &&
    (forall k :: k in grouped ==> grouped[k] == Members(ks, vs, k))
  }

  /** The state of a grouping loop after `i` values: the first `i` values grouped. */
  ghost predicate GroupedSoFar<K(!new), V(!new)>(ks: seq<K>, vs: seq<V>, i: nat,
                                                  order: seq<K>, grouped: map<K, seq<V>>) {
    |ks| == |vs| && i <= |ks| && GroupedBy(ks[..i], vs[..i], order, grouped)
  }

  /** Once every value is seen, the loop's dict groups them all. */
  lemma GroupedDone<K(!new), V(!new)>(ks: seq<K>, vs: seq<V>, order: seq<K>, grouped: map<K, seq<V>>)
    requires GroupedSoFar(ks, vs, |ks|, order, grouped)
    ensures GroupedBy(ks, vs, order, grouped)
  {
    assert ks[..|ks|] == ks && vs[..|vs|] == vs;
  }

  /** One loop step: open the key's list if it is new, then append the value. */
  lemma GroupedStep<K(!new), V(!new)>(ks: seq<K>, vs: seq<V>, i: nat,
                                      order: seq<K>, grouped: map<K, seq<V>>)
    requires GroupedSoFar(ks, vs, i, order, grouped) && i < |ks|
    ensures
      var k := ks[i];
      var order' := if k in grouped then order else order + [k];
      var grouped' := grouped[k := (if k in grouped then grouped[k] else []) + [vs[i]]];
      GroupedSoFar(ks, vs, i + 1, order', grouped')
  {
    var k := ks[i];
    var order' := if k in grouped then order else order + [k];
    var grouped' := grouped[k := (if k in grouped then grouped[k] else []) + [vs[i]]];
    GroupedStepKeys(ks, vs, i, order, grouped);
    GroupedStepMembers(ks, vs, i, order, grouped);
    GroupedByIntro(ks[..i + 1], vs[..i + 1], order', grouped');
  }

  /** The keys half of a loop step: a new key is listed last, and the dict's keys follow. */
  lemma GroupedStepKeys<K(!new), V(!new)>(ks: seq<K>, vs: seq<V>, i: nat,
                                          order: seq<K>, grouped: map<K, seq<V>>)
    requires GroupedSoFar(ks, vs, i, order, grouped) && i < |ks|
    ensures
      var k := ks[i];
      var order' := if k in grouped then order else order + [k];
      var grouped' := grouped[k := (if k in grouped then grouped[k] else []) + [vs[i]]];
      order' == FirstSeen(ks[..i + 1]) &&
      forall d :: d in grouped' <==> d in order'
  {
    FirstSeenStep(ks, i);
  }

  lemma GroupedByIntro<K(!new), V(!new)>(ks: seq<K>, vs: seq<V>, order: seq<K>, grouped: map<K, seq<V>>)
    requires |ks| == |vs| && order == FirstSeen(ks)
    requires forall k :: k in grouped <==> k in order
    requires forall k :: k in grouped ==> grouped[k] == Members(ks, vs, k)
    ensures GroupedBy(ks, vs, order, grouped)
  {
  }

  /** The members half of a loop step: every list, old or new, holds its key's values so far. */
  lemma GroupedStepMembers<K(!new), V(!new)>(ks: seq<K>, vs: seq<V>, i: nat,
                                             order: seq<K>, grouped: map<K, seq<V>>)
    requires GroupedSoFar(ks, vs, i, order, grouped) && i < |ks|
    ensures
      var k := ks[i];
      var grouped' := grouped[k := (if k in grouped then grouped[k] else []) + [vs[i]]];
      forall d :: d in grouped' ==> grouped'[d] == Members(ks[..i + 1], vs[..i + 1], d)
  {
    var k := ks[i];
    var grouped' := grouped[k := (if k in grouped then grouped[k] else []) + [vs[i]]];
    forall d | d in grouped' ensures grouped'[d] == Members(ks[..i + 1], vs[..i + 1], d) {
      MembersStep(ks, vs, i, d);
      if d == k && k !in grouped {
        MembersAbsent(ks[..i], vs[..i], k);
      }
    }
  }
}
