/**
 * The ORM queries the views run over the video table: `filter` on the
 * category or the channel, `count`, and the `Sum('duration_seconds')`
 * aggregate, stated over the table's rows in storage order.
 */
module Queries {
  import opened Models

  /** `filter(type=...)`: the rows of one category, in order. */
  function OfCategory(rows: seq<VideoRow>, c: Category): (r: seq<VideoRow>)
    ensures |r| <= |rows|
    ensures forall k :: 0 <= k < |r| ==> r[k].category == c && r[k] in rows
    ensures forall k :: 0 <= k < |rows| && rows[k].category == c ==> rows[k] in r
  {
    if rows == [] then []
    else
      var last := rows[|rows| - 1];
      OfCategory(rows[..|rows| - 1], c) + (if last.category == c then [last] else [])
  }

  /** `filter(channel_name=...)`: the rows of one channel, in order. */
  function OfChannel(rows: seq<VideoRow>, channel: string): (r: seq<VideoRow>)
    ensures |r| <= |rows|
    ensures forall k :: 0 <= k < |r| ==> r[k].channelName == channel && r[k] in rows
    ensures forall k :: 0 <= k < |rows| && rows[k].channelName == channel ==> rows[k] in r
  {
    if rows == [] then []
    else
      var last := rows[|rows| - 1];
      OfChannel(rows[..|rows| - 1], channel) + (if last.channelName == channel then [last] else [])
  }

  /**
   * The category filter keeps every row of the category exactly as often as
   * the table holds it, and no other row.
   */
  lemma {:induction false} OfCategoryCounts(rows: seq<VideoRow>, c: Category)
    ensures forall v :: multiset(OfCategory(rows, c))[v] == if v.category == c then multiset(rows)[v] else 0
    decreases |rows|
  {
    if rows != [] {
      var n := |rows| - 1;
      assert rows == rows[..n] + [rows[n]];
      OfCategoryCounts(rows[..n], c);
    }
  }

  /**
   * The channel filter keeps every row of the channel exactly as often as
   * the table holds it, and no other row.
   */
  lemma {:induction false} OfChannelCounts(rows: seq<VideoRow>, channel: string)
    ensures forall v :: multiset(OfChannel(rows, channel))[v]
                     == if v.channelName == channel then multiset(rows)[v] else 0
    decreases |rows|
  {
    if rows != [] {
      var n := |rows| - 1;
      assert rows == rows[..n] + [rows[n]];
      OfChannelCounts(rows[..n], channel);
    }
  }

  /** The sum of `duration_seconds` over `rows` (0 for none). */
  function SumDurations(rows: seq<VideoRow>): nat {
    if rows == [] then 0
    else SumDurations(rows[..|rows| - 1]) + rows[|rows| - 1].durationSeconds
  }

  lemma {:induction false} SumDurationsAppend(a: seq<VideoRow>, b: seq<VideoRow>)
    ensures SumDurations(a + b) == SumDurations(a) + SumDurations(b)
    decreases |b|
  {
    if b == [] {
      assert a + b == a;
    } else {
      var b' := b[..|b| - 1];
      assert (a + b)[..|a + b| - 1] == a + b';
      SumDurationsAppend(a, b');
    }
  }

  /** Every row's duration is part of the sum. */
  lemma {:induction false} SumDurationsBound(rows: seq<VideoRow>, k: nat)
    requires k < |rows|
    ensures rows[k].durationSeconds <= SumDurations(rows)
    decreases |rows|
  {
    if k < |rows| - 1 {
      SumDurationsBound(rows[..|rows| - 1], k);
    }
  }

  lemma {:induction false} OfChannelAppend(a: seq<VideoRow>, b: seq<VideoRow>, channel: string)
    ensures OfChannel(a + b, channel) == OfChannel(a, channel) + OfChannel(b, channel)
    decreases |b|
  {
    if b == [] {
      assert a + b == a;
    } else {
      var b' := b[..|b| - 1];
      assert (a + b)[..|a + b| - 1] == a + b';
      OfChannelAppend(a, b', channel);
    }
  }

  /** The sum does not depend on the order of the rows. */
  lemma {:induction false} SumDurationsPermutation(a: seq<VideoRow>, b: seq<VideoRow>)
    requires multiset(a) == multiset(b)
    ensures SumDurations(a) == SumDurations(b)
    decreases |a|
  {
    if a == [] {
      assert |b| == |multiset(b)| == 0;
    } else {
      var n := |a| - 1;
      var x := a[n];
      assert a == a[..n] + [x];
      assert x in multiset(b);
      var i :| 0 <= i < |b| && b[i] == x;
      var b' := b[..i] + b[i + 1..];
      assert b == b[..i] + [x] + b[i + 1..];
      calc {
        multiset(a[..n]) + multiset{x};
        multiset(a);
        multiset(b);
        multiset(b[..i]) + multiset{x} + multiset(b[i + 1..]);
        multiset(b') + multiset{x};
      }
      assert multiset(a[..n]) == multiset(a[..n]) + multiset{x} - multiset{x};
      assert multiset(b') == multiset(b') + multiset{x} - multiset{x};
      SumDurationsPermutation(a[..n], b');
      SumDurationsAppend(b[..i], [x]);
      SumDurationsAppend(b[..i] + [x], b[i + 1..]);
      SumDurationsAppend(b[..i], b[i + 1..]);
      SumDurationsAppend(a[..n], [x]);
      assert SumDurations([x]) == x.durationSeconds by {
        assert [x][..0] == [];
      }
    }
  }
}
