/**
 * The three listing views of list/views.py: `view_table` (all rows and
 * their total duration), `video_list_by_date` (long videos grouped by
 * creation day) and `video_list_by_channel` (short videos grouped by
 * channel, with per-channel totals). Each loop builds a dict in place,
 * modelled as a map together with the sequence of its keys in insertion
 * order.
 *
 * The queries' `filter(type=...)` and `order_by(...)` are preconditions
 * on the input sequence, a rearrangement of the table's rows of that
 * type. `created_at.date()` is the parameter `day`, which only has to be
 * monotone.
 */
module Aggregation {
  import opened Common
  import opened Models
  import opened Queries
  import opened Grouping
  import Text
  import DurationFormat

  /** `view_table`: whether the table is empty and its total duration, formatted. */
  method ViewTable(data: seq<VideoRow>) returns (empty: bool, totalLength: string)
    ensures empty <==> data == []
    ensures totalLength == DurationFormat.FormatDuration(SumDurations(data))
  {
    var length := 0;
    for i := 0 to |data|
      invariant length == SumDurations(data[..i])
    {
      assert data[..i + 1][..i] == data[..i];
      length := length + data[i].durationSeconds;
    }
    assert data[..|data|] == data;
    empty := |data| == 0;
    totalLength := DurationFormat.FormatDuration(length);
  }

  /** The creation day of each video. */
  function Dates(videos: seq<VideoRow>, day: int -> int): (r: seq<int>)
    ensures |r| == |videos|
    ensures forall i :: 0 <= i < |videos| ==> r[i] == day(videos[i].createdAt)
  {
    seq(|videos|, i requires 0 <= i < |videos| => day(videos[i].createdAt))
  }

  /** The channel of each video. */
  function Channels(videos: seq<VideoRow>): (r: seq<string>)
    ensures |r| == |videos|
    ensures forall i :: 0 <= i < |videos| ==> r[i] == videos[i].channelName
  {
    seq(|videos|, i requires 0 <= i < |videos| => videos[i].channelName)
  }

  /** `order_by('created_at')`. */
  predicate SortedByCreation(videos: seq<VideoRow>) {
    forall i, j :: 0 <= i < j < |videos| ==> videos[i].createdAt <= videos[j].createdAt
  }

  /** A later timestamp never falls on an earlier day. */
  ghost predicate Monotone(day: int -> int) {
    forall a, b :: a <= b ==> day(a) <= day(b)
  }

  /** The rows of a query result all come from the table and have the category. */
  lemma QueryRows(table: seq<VideoRow>, videos: seq<VideoRow>, c: Category, v: VideoRow)
    requires multiset(videos) == multiset(OfCategory(table, c))
    requires v in videos
    ensures v.category == c && v in table
  {
    assert v in multiset(OfCategory(table, c));
  }

  lemma QueryEmpty(table: seq<VideoRow>, videos: seq<VideoRow>, c: Category)
    requires multiset(videos) == multiset(OfCategory(table, c))
    ensures videos == [] <==> OfCategory(table, c) == []
  {
    if videos != [] {
      assert videos[0] in multiset(OfCategory(table, c));
    }
    if OfCategory(table, c) != [] {
      assert OfCategory(table, c)[0] in multiset(videos);
    }
  }

  /** Each group holds long videos of the table created on the group's day. */
  predicate GroupedByDay(table: seq<VideoRow>, grouped: map<int, seq<VideoRow>>, day: int -> int) {
    forall d, v :: d in grouped && v in grouped[d] ==>
      v.category == Long && v in table && day(v.createdAt) == d
  }

  /**
   * `video_list_by_date`: the days in ascending order, each with its long
   * videos in creation order; every long video sits in exactly one group.
   */
  method VideoListByDate(table: seq<VideoRow>, videos: seq<VideoRow>, day: int -> int)
    returns (order: seq<int>, grouped: map<int, seq<VideoRow>>, empty: bool)
    requires multiset(videos) == multiset(OfCategory(table, Long))
    requires SortedByCreation(videos) && Monotone(day)
    ensures GroupedBy(Dates(videos, day), videos, order, grouped)
    ensures StrictlyAscending(order)
    ensures Regrouped(order, Dates(videos, day), videos) == videos
    ensures GroupedByDay(table, grouped, day)
    ensures empty <==> OfCategory(table, Long) == []
  {
    ghost var ks := Dates(videos, day);
    order := [];
    grouped := map[];
    for i := 0 to |videos|
      invariant GroupedSoFar(ks, videos, i, order, grouped)
    {
      var video := videos[i];
      var videoDate := day(video.createdAt);
      assert ks[i] == videoDate;
      GroupedStep(ks, videos, i, order, grouped);
      var group := [];
      if videoDate in grouped {
        group := grouped[videoDate];
      } else {
        order := order + [videoDate];
      }
      grouped := grouped[videoDate := group + [video]];
    }
    GroupedDone(ks, videos, order, grouped);
    ByDateComplete(table, videos, day, order, grouped);
    empty := |grouped| == 0;
  }

  /** What the finished loop of `video_list_by_date` has built. */
  lemma ByDateComplete(table: seq<VideoRow>, videos: seq<VideoRow>, day: int -> int,
                       order: seq<int>, grouped: map<int, seq<VideoRow>>)
    requires multiset(videos) == multiset(OfCategory(table, Long))
    requires SortedByCreation(videos) && Monotone(day)
    requires GroupedBy(Dates(videos, day), videos, order, grouped)
    ensures StrictlyAscending(order)
    ensures Regrouped(order, Dates(videos, day), videos) == videos
    ensures GroupedByDay(table, grouped, day)
    ensures |grouped| == 0 <==> OfCategory(table, Long) == []
  {
    var ks := Dates(videos, day);
    DateKeysAscending(videos, day);
    FirstSeenAscending(ks);
    AscendingContiguous(ks);
    Regroup(ks, videos);
    DayGroupsFromTable(table, videos, day, grouped);
    QueryEmpty(table, videos, Long);
    if order != [] {
      assert order[0] in grouped;
    } else {
      assert grouped == map[];
    }
  }

  /** Groups made of the query's values by creation day hold long rows of the table, of that day. */
  lemma DayGroupsFromTable(table: seq<VideoRow>, videos: seq<VideoRow>, day: int -> int,
                           grouped: map<int, seq<VideoRow>>)
    requires multiset(videos) == multiset(OfCategory(table, Long))
    requires forall d :: d in grouped ==> grouped[d] == Members(Dates(videos, day), videos, d)
    ensures GroupedByDay(table, grouped, day)
  {
    forall d, v | d in grouped && v in grouped[d]
      ensures v.category == Long && v in table && day(v.createdAt) == d
    {
      var ks := Dates(videos, day);
      MembersIndexed(ks, videos, d, v);
      var i :| 0 <= i < |ks| && ks[i] == d && videos[i] == v;
      QueryRows(table, videos, Long, v);
    }
  }

  lemma DateKeysAscending(videos: seq<VideoRow>, day: int -> int)
    requires SortedByCreation(videos) && Monotone(day)
    ensures Ascending(Dates(videos, day))
  {
  }

  /** One channel's entry: its videos, their total, and the total formatted once the second loop ran. */
  datatype ChannelGroup = ChannelGroup(
    videos: seq<VideoRow>, totalDurationSeconds: nat, totalDurationHuman: Option<string>)

  /** The sum of the group totals, in key order. */
  function GroupedTotal(order: seq<string>, grouped: map<string, ChannelGroup>): nat
    requires forall c :: c in order ==> c in grouped
  {
    if order == [] then 0
    else GroupedTotal(order[..|order| - 1], grouped) + grouped[order[|order| - 1]].totalDurationSeconds
  }

  /** The sum over the listed keys of the durations in their groups. */
  function GroupSums(order: seq<string>, ks: seq<string>, vs: seq<VideoRow>): nat
    requires |ks| == |vs|
  {
    if order == [] then 0
    else GroupSums(order[..|order| - 1], ks, vs) + SumDurations(Members(ks, vs, order[|order| - 1]))
  }

  /** One more value adds its duration to its own key's group sum only. */
  lemma GroupSumStep(ks: seq<string>, vs: seq<VideoRow>, k: string)
    requires |ks| == |vs| && ks != []
    ensures ks[|ks| - 1] == k ==>
      SumDurations(Members(ks, vs, k)) ==
      SumDurations(Members(ks[..|ks| - 1], vs[..|vs| - 1], k)) + vs[|vs| - 1].durationSeconds
    ensures ks[|ks| - 1] != k ==>
      SumDurations(Members(ks, vs, k)) == SumDurations(Members(ks[..|ks| - 1], vs[..|vs| - 1], k))
  {
    var n := |ks| - 1;
    var before := Members(ks[..n], vs[..n], k);
    if ks[n] == k {
      var after := before + [vs[n]];
      assert Members(ks, vs, k) == after;
      assert after[..|after| - 1] == before;
      assert SumDurations(after) == SumDurations(before) + vs[n].durationSeconds;
    } else {
      assert Members(ks, vs, k) == before + [];
      assert before + [] == before;
    }
  }

  /** One more value adds its duration to the sum exactly when its key is listed. */
  lemma {:induction false} GroupSumsStep(order: seq<string>, ks: seq<string>, vs: seq<VideoRow>)
    requires |ks| == |vs| && ks != [] && Distinct(order)
    ensures ks[|ks| - 1] in order ==>
      GroupSums(order, ks, vs) == GroupSums(order, ks[..|ks| - 1], vs[..|vs| - 1]) + vs[|vs| - 1].durationSeconds
    ensures ks[|ks| - 1] !in order ==>
      GroupSums(order, ks, vs) == GroupSums(order, ks[..|ks| - 1], vs[..|vs| - 1])
    decreases |order|
  {
    if order != [] {
      var m := |order| - 1;
      var n := |ks| - 1;
      var prev := order[..m];
      var k := order[m];
      assert order == prev + [k];
      assert Distinct(prev) by {
        forall i, j | 0 <= i < j < |prev| ensures prev[i] != prev[j] {
          assert prev[i] == order[i] && prev[j] == order[j];
        }
      }
      GroupSumsStep(prev, ks, vs);
      GroupSumStep(ks, vs, k);
      var total := GroupSums(order, ks, vs);
      var total' := GroupSums(order, ks[..n], vs[..n]);
      assert total == GroupSums(prev, ks, vs) + SumDurations(Members(ks, vs, k));
      assert total' == GroupSums(prev, ks[..n], vs[..n]) + SumDurations(Members(ks[..n], vs[..n], k));
      if ks[n] == k {
        assert ks[n] !in prev by {
          forall i | 0 <= i < m ensures prev[i] != k {
            assert order[i] != order[m];
          }
        }
        assert total == total' + vs[n].durationSeconds;
      } else if ks[n] in prev {
        assert total == total' + vs[n].durationSeconds;
      } else {
        assert ks[n] !in order;
        assert total == total';
      }
    }
  }

  /** Summing every group gives the total of all values, whatever their order. */
  lemma {:induction false} GroupSumsAll(ks: seq<string>, vs: seq<VideoRow>)
    requires |ks| == |vs|
    ensures GroupSums(FirstSeen(ks), ks, vs) == SumDurations(vs)
    decreases |ks|
  {
    if ks != [] {
      var n := |ks| - 1;
      var ks', vs' := ks[..n], vs[..n];
      var order' := FirstSeen(ks');
      GroupSumsAll(ks', vs');
      GroupSumsStep(order', ks, vs);
      if ks[n] !in order' {
        GroupSumsNew(ks, vs);
      }
    }
  }

  /** A value with a new key adds a group of its own, holding just that value. */
  lemma GroupSumsNew(ks: seq<string>, vs: seq<VideoRow>)
    requires |ks| == |vs| && ks != [] && ks[|ks| - 1] !in FirstSeen(ks[..|ks| - 1])
    ensures GroupSums(FirstSeen(ks), ks, vs)
         == GroupSums(FirstSeen(ks[..|ks| - 1]), ks, vs) + vs[|vs| - 1].durationSeconds
  {
    var n := |ks| - 1;
    var ks', vs', k, v := ks[..n], vs[..n], ks[n], vs[n];
    var order' := FirstSeen(ks');
    LastSplit(ks);
    LastSplit(vs);
    FirstSeenSnoc(ks', k);
    MembersAbsent(ks', vs', k);
    MembersSnoc(ks', vs', k, v, k);
    GroupSumsSnoc(order', k, ks, vs);
    assert SumDurations([v]) == v.durationSeconds by {
      assert [v][..0] == [];
    }
  }

  /** Listing one more key adds the sum of its group. */
  lemma GroupSumsSnoc(order: seq<string>, k: string, ks: seq<string>, vs: seq<VideoRow>)
    requires |ks| == |vs|
    ensures GroupSums(order + [k], ks, vs) == GroupSums(order, ks, vs) + SumDurations(Members(ks, vs, k))
  {
  }

  /** Group totals that are the sums of their groups add up like the groups do. */
  lemma {:induction false} GroupedTotalIsGroupSums(order: seq<string>, grouped: map<string, ChannelGroup>,
                                                   ks: seq<string>, vs: seq<VideoRow>)
    requires |ks| == |vs|
    requires forall c :: c in order ==>
      c in grouped && grouped[c].totalDurationSeconds == SumDurations(Members(ks, vs, c))
    ensures GroupedTotal(order, grouped) == GroupSums(order, ks, vs)
    decreases |order|
  {
    if order != [] {
      var prev := order[..|order| - 1];
      assert forall c :: c in prev ==> c in order;
      GroupedTotalIsGroupSums(prev, grouped, ks, vs);
    }
  }

  /** A finished channel entry: the channel's videos, their total, and the total formatted. */
  ghost predicate Summarised(ks: seq<string>, vs: seq<VideoRow>, c: string, data: ChannelGroup)
    requires |ks| == |vs|
  {
    data.videos == Members(ks, vs, c) &&
    data.totalDurationSeconds == SumDurations(data.videos) &&
    data.totalDurationHuman == Some(DurationFormat.FormatDuration(data.totalDurationSeconds))
  }

  /** The dict `video_list_by_channel` renders: every channel once, in order of first appearance, summarised. */
  ghost predicate ChannelsGrouped(ks: seq<string>, vs: seq<VideoRow>,
                                  order: seq<string>, grouped: map<string, ChannelGroup>) {
    |ks| == |vs| &&
    order == FirstSeen(ks) &&
    (forall c :: c in grouped <==> c in order) &&
    (forall c :: c in grouped ==> Summarised(ks, vs, c, grouped[c]))
  }

  /**
   * `video_list_by_channel`: each channel of the short videos once, with
   * its videos, their total duration and that total formatted; the totals
   * add up to the total over all short videos.
   */
  method VideoListByChannel(table: seq<VideoRow>, videos: seq<VideoRow>)
    returns (order: seq<string>, grouped: map<string, ChannelGroup>, empty: bool)
    requires multiset(videos) == multiset(OfCategory(table, Short))
    ensures ChannelsGrouped(Channels(videos), videos, order, grouped)
    ensures ChannelGroupsFromTable(table, grouped)
    ensures GroupedTotal(order, grouped) == SumDurations(OfCategory(table, Short))
    ensures empty <==> OfCategory(table, Short) == []
  {
    ghost var ks := Channels(videos);
    order := [];
    grouped := map[];
    for i := 0 to |videos|
      invariant ChannelsSoFar(ks, videos, i, order, grouped)
    {
      var video := videos[i];
      var channel := video.channelName;
      ChannelsStep(ks, videos, i, order, grouped);
      var data := ChannelGroup([], 0, None);
      if channel in grouped {
        data := grouped[channel];
      } else {
        order := order + [channel];
      }
      grouped := grouped[channel := WithVideo(data, video)];
    }
    HumanStart(ks, videos, order, grouped);
    for j := 0 to |order|
      invariant HumanSoFar(ks, videos, j, order, grouped)
    {
      HumanStep(ks, videos, j, order, grouped);
      var channel := order[j];
      var data := grouped[channel];
      grouped := grouped[channel := data.(totalDurationHuman :=
        Some(DurationFormat.FormatDuration(data.totalDurationSeconds)))];
    }
    ByChannelComplete(table, videos, order, grouped);
    empty := |grouped| == 0;
  }

  /**
   * The first loop of `video_list_by_channel` after `i` values: the
   * channels seen so far in insertion order, each with its videos so far,
   * their total, and no formatted total yet.
   */
  ghost predicate ChannelsSoFar(ks: seq<string>, vs: seq<VideoRow>, i: nat,
                                order: seq<string>, grouped: map<string, ChannelGroup>) {
    |ks| == |vs| && i <= |ks| &&
    order == FirstSeen(ks[..i]) &&
    (forall c :: c in grouped <==> c in order) &&
    (forall c :: c in grouped ==> EntrySoFar(ks, vs, i, c, grouped[c]))
  }

  ghost predicate EntrySoFar(ks: seq<string>, vs: seq<VideoRow>, i: nat, c: string, data: ChannelGroup)
    requires |ks| == |vs| && i <= |ks|
  {
    data.videos == Members(ks[..i], vs[..i], c) &&
    data.totalDurationSeconds == SumDurations(data.videos) &&
    data.totalDurationHuman == None
  }

  /** Adding the next video to its channel's entry. */
  function WithVideo(data: ChannelGroup, v: VideoRow): ChannelGroup {
    ChannelGroup(data.videos + [v], data.totalDurationSeconds + v.durationSeconds, None)
  }

  /** The entry of the next video's channel, given its entry so far (blank when new). */
  lemma EntryStep(ks: seq<string>, vs: seq<VideoRow>, i: nat, data: ChannelGroup)
    requires |ks| == |vs| && i < |ks|
    requires EntrySoFar(ks, vs, i, ks[i], data)
    ensures EntrySoFar(ks, vs, i + 1, ks[i], WithVideo(data, vs[i]))
  {
    MembersStep(ks, vs, i, ks[i]);
    var after := data.videos + [vs[i]];
    assert after[..|after| - 1] == data.videos;
  }

  /** The entries of the other channels stay as they were. */
  lemma EntryOther(ks: seq<string>, vs: seq<VideoRow>, i: nat, c: string, data: ChannelGroup)
    requires |ks| == |vs| && i < |ks| && c != ks[i]
    requires EntrySoFar(ks, vs, i, c, data)
    ensures EntrySoFar(ks, vs, i + 1, c, data)
  {
    MembersStep(ks, vs, i, c);
  }

  /** One step of the first loop: open the channel's entry if new, then add the video. */
  lemma ChannelsStep(ks: seq<string>, vs: seq<VideoRow>, i: nat,
                     order: seq<string>, grouped: map<string, ChannelGroup>)
    requires ChannelsSoFar(ks, vs, i, order, grouped) && i < |ks|
    ensures
      var c := ks[i];
      var data := if c in grouped then grouped[c] else ChannelGroup([], 0, None);
      var order' := if c in grouped then order else order + [c];
      ChannelsSoFar(ks, vs, i + 1, order', grouped[c := WithVideo(data, vs[i])])
  {
    var c := ks[i];
    var data := if c in grouped then grouped[c] else ChannelGroup([], 0, None);
    var order' := if c in grouped then order else order + [c];
    var grouped' := grouped[c := WithVideo(data, vs[i])];
    ChannelsStepKeys(ks, vs, i, order, grouped);
    ChannelsStepEntries(ks, vs, i, order, grouped);
    ChannelsSoFarIntro(ks, vs, i + 1, order', grouped');
  }

  /** The keys half of a step: a new channel is listed last, and the dict's keys follow. */
  lemma ChannelsStepKeys(ks: seq<string>, vs: seq<VideoRow>, i: nat,
                         order: seq<string>, grouped: map<string, ChannelGroup>)
    requires ChannelsSoFar(ks, vs, i, order, grouped) && i < |ks|
    ensures
      var c := ks[i];
      var data := if c in grouped then grouped[c] else ChannelGroup([], 0, None);
      var order' := if c in grouped then order else order + [c];
      order' == FirstSeen(ks[..i + 1]) &&
      forall d :: d in grouped[c := WithVideo(data, vs[i])] <==> d in order'
  {
    FirstSeenStep(ks, i);
  }

  /** The entries half of a step: the video's channel gains it, the other channels stay. */
  lemma ChannelsStepEntries(ks: seq<string>, vs: seq<VideoRow>, i: nat,
                            order: seq<string>, grouped: map<string, ChannelGroup>)
    requires ChannelsSoFar(ks, vs, i, order, grouped) && i < |ks|
    ensures
      var c := ks[i];
      var data := if c in grouped then grouped[c] else ChannelGroup([], 0, None);
      var grouped' := grouped[c := WithVideo(data, vs[i])];
      forall d :: d in grouped' ==> EntrySoFar(ks, vs, i + 1, d, grouped'[d])
  {
    var c := ks[i];
    var data := if c in grouped then grouped[c] else ChannelGroup([], 0, None);
    var grouped' := grouped[c := WithVideo(data, vs[i])];
    if c !in grouped {
      MembersAbsent(ks[..i], vs[..i], c);
    }
    EntryStep(ks, vs, i, data);
    forall d | d in grouped' ensures EntrySoFar(ks, vs, i + 1, d, grouped'[d]) {
      if d != c {
        EntryOther(ks, vs, i, d, grouped[d]);
      }
    }
  }

  lemma ChannelsSoFarIntro(ks: seq<string>, vs: seq<VideoRow>, i: nat,
                           order: seq<string>, grouped: map<string, ChannelGroup>)
    requires |ks| == |vs| && i <= |ks| && order == FirstSeen(ks[..i])
    requires forall c :: c in grouped <==> c in order
    requires forall c :: c in grouped ==> EntrySoFar(ks, vs, i, c, grouped[c])
    ensures ChannelsSoFar(ks, vs, i, order, grouped)
  {
  }

  /** The second loop after `j` keys: the first `j` channels have their total formatted. */
  ghost predicate HumanSoFar(ks: seq<string>, vs: seq<VideoRow>, j: nat,
                             order: seq<string>, grouped: map<string, ChannelGroup>) {
    |ks| == |vs| &&
    order == FirstSeen(ks) &&
    (forall c :: c in grouped <==> c in order) &&
    (forall c :: c in grouped ==>
      grouped[c].videos == Members(ks, vs, c) &&
      grouped[c].totalDurationSeconds == SumDurations(grouped[c].videos)) &&
    (forall k :: 0 <= k < |order| ==>
      grouped[order[k]].totalDurationHuman ==
        if k < j then Some(DurationFormat.FormatDuration(grouped[order[k]].totalDurationSeconds)) else None)
  }

  /** The first loop's result is where the second loop starts. */
  lemma HumanStart(ks: seq<string>, vs: seq<VideoRow>,
                   order: seq<string>, grouped: map<string, ChannelGroup>)
    requires ChannelsSoFar(ks, vs, |ks|, order, grouped)
    ensures HumanSoFar(ks, vs, 0, order, grouped)
  {
    assert ks[..|ks|] == ks && vs[..|vs|] == vs;
    forall c | c in grouped ensures grouped[c].videos == Members(ks, vs, c) {
      assert EntrySoFar(ks, vs, |ks|, c, grouped[c]);
    }
  }

  /** One step of the second loop: the next channel's total is formatted, the others stay. */
  lemma HumanStep(ks: seq<string>, vs: seq<VideoRow>, j: nat,
                  order: seq<string>, grouped: map<string, ChannelGroup>)
    requires HumanSoFar(ks, vs, j, order, grouped) && j < |order|
    ensures
      var data := grouped[order[j]];
      HumanSoFar(ks, vs, j + 1, order, grouped[order[j] := data.(totalDurationHuman :=
        Some(DurationFormat.FormatDuration(data.totalDurationSeconds)))])
  {
    var c := order[j];
    var data := grouped[c];
    var grouped' := grouped[c := data.(totalDurationHuman := Some(DurationFormat.FormatDuration(data.totalDurationSeconds)))];
    assert c in order;
    HumanStepFormatted(ks, vs, j, order, grouped);
    HumanSoFarIntro(ks, vs, j + 1, order, grouped');
  }

  /** The formatted totals after a step: exactly the first `j + 1` channels have one. */
  lemma HumanStepFormatted(ks: seq<string>, vs: seq<VideoRow>, j: nat,
                           order: seq<string>, grouped: map<string, ChannelGroup>)
    requires HumanSoFar(ks, vs, j, order, grouped) && j < |order|
    ensures
      var data := grouped[order[j]];
      var grouped' := grouped[order[j] := data.(totalDurationHuman :=
        Some(DurationFormat.FormatDuration(data.totalDurationSeconds)))];
      forall k :: 0 <= k < |order| ==>
        grouped'[order[k]].totalDurationHuman ==
          if k < j + 1 then Some(DurationFormat.FormatDuration(grouped'[order[k]].totalDurationSeconds)) else None
  {
    assert Distinct(order);
  }

  lemma HumanSoFarIntro(ks: seq<string>, vs: seq<VideoRow>, j: nat,
                        order: seq<string>, grouped: map<string, ChannelGroup>)
    requires |ks| == |vs| && order == FirstSeen(ks)
    requires forall c :: c in grouped <==> c in order
    requires forall c :: c in grouped ==>
      grouped[c].videos == Members(ks, vs, c) &&
      grouped[c].totalDurationSeconds == SumDurations(grouped[c].videos)
    requires forall k :: 0 <= k < |order| ==>
      grouped[order[k]].totalDurationHuman ==
        if k < j then Some(DurationFormat.FormatDuration(grouped[order[k]].totalDurationSeconds)) else None
    ensures HumanSoFar(ks, vs, j, order, grouped)
  {
  }

  /** What the two finished loops of `video_list_by_channel` have built. */
  lemma ByChannelComplete(table: seq<VideoRow>, videos: seq<VideoRow>,
                          order: seq<string>, grouped: map<string, ChannelGroup>)
    requires multiset(videos) == multiset(OfCategory(table, Short))
    requires HumanSoFar(Channels(videos), videos, |order|, order, grouped)
    ensures ChannelsGrouped(Channels(videos), videos, order, grouped)
    ensures ChannelGroupsFromTable(table, grouped)
    ensures GroupedTotal(order, grouped) == SumDurations(OfCategory(table, Short))
    ensures |grouped| == 0 <==> OfCategory(table, Short) == []
  {
    var ks := Channels(videos);
    forall c | c in grouped ensures Summarised(ks, videos, c, grouped[c]) {
      var k :| 0 <= k < |order| && order[k] == c;
    }
    ChannelMembersFromTable(table, videos, grouped);
    GroupedTotalIsGroupSums(order, grouped, ks, videos);
    GroupSumsAll(ks, videos);
    SumDurationsPermutation(videos, OfCategory(table, Short));
    QueryEmpty(table, videos, Short);
    if order != [] {
      assert order[0] in grouped;
    } else {
      assert grouped == map[];
    }
  }

  /** Each channel's entry holds short videos of the table from that channel. */
  predicate ChannelGroupsFromTable(table: seq<VideoRow>, grouped: map<string, ChannelGroup>) {
    forall c, v :: c in grouped && v in grouped[c].videos ==>
      v.category == Short && v in table && v.channelName == c
  }

  lemma ChannelMembersFromTable(table: seq<VideoRow>, videos: seq<VideoRow>,
                                grouped: map<string, ChannelGroup>)
    requires multiset(videos) == multiset(OfCategory(table, Short))
    requires forall c :: c in grouped ==> grouped[c].videos == Members(Channels(videos), videos, c)
    ensures ChannelGroupsFromTable(table, grouped)
  {
    forall c, v | c in grouped && v in grouped[c].videos
      ensures v.category == Short && v in table && v.channelName == c
    {
      var ks := Channels(videos);
      MembersIndexed(ks, videos, c, v);
      var i :| 0 <= i < |ks| && ks[i] == c && videos[i] == v;
      QueryRows(table, videos, Short, v);
    }
  }

  /** `order_by('channel_name')`, with channel names compared code point by code point. */
  predicate SortedByChannel(videos: seq<VideoRow>) {
    forall i, j :: 0 <= i < j < |videos| ==> Text.LexLe(videos[i].channelName, videos[j].channelName)
  }

  /** Distinct names in ascending order. */
  predicate StrictlyLexAscending(cs: seq<string>) {
    forall i, j :: 0 <= i < j < |cs| ==> cs[i] != cs[j] && Text.LexLe(cs[i], cs[j])
  }

  /**
   * On the channel-ordered query the dict lists the channels in ascending
   * order, and reading the groups one after the other gives back the
   * query's videos in their order: each video is in exactly one group, and
   * no group reorders its videos.
   */
  lemma ChannelOrder(videos: seq<VideoRow>)
    requires SortedByChannel(videos)
    ensures StrictlyLexAscending(FirstSeen(Channels(videos)))
    ensures Regrouped(FirstSeen(Channels(videos)), Channels(videos), videos) == videos
  {
    var ks := Channels(videos);
    assert Contiguous(ks) by {
      forall i, j, l | 0 <= i < j < l < |ks| && ks[i] == ks[l] ensures ks[j] == ks[i] {
        Text.LexLeAntisymmetric(ks[i], ks[j]);
      }
    }
    Regroup(ks, videos);
    FirstSeenLexAscending(ks);
  }

  /** The first-seen names of names in ascending order are strictly ascending. */
  lemma {:induction false} FirstSeenLexAscending(ks: seq<string>)
    requires forall i, j :: 0 <= i < j < |ks| ==> Text.LexLe(ks[i], ks[j])
    ensures StrictlyLexAscending(FirstSeen(ks))
    decreases |ks|
  {
    if ks != [] {
      var n := |ks| - 1;
      var prev := ks[..n];
      assert forall i, j :: 0 <= i < j < |prev| ==> Text.LexLe(prev[i], prev[j]) by {
        forall i, j | 0 <= i < j < |prev| ensures Text.LexLe(prev[i], prev[j]) {
          assert prev[i] == ks[i] && prev[j] == ks[j];
        }
      }
      FirstSeenLexAscending(prev);
      var order' := FirstSeen(prev);
      if ks[n] !in order' {
        forall j | 0 <= j < |order'| ensures Text.LexLe(order'[j], ks[n]) {
          assert order'[j] in prev;
          var i :| 0 <= i < n && prev[i] == order'[j];
          assert ks[i] == prev[i];
        }
        LastSplit(ks);
        FirstSeenSnoc(prev, ks[n]);
      }
    }
  }
}
