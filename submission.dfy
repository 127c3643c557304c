/**
 * The `POST` halves of `create_list` and `create_short_video_list` in
 * list/views.py. Both validate the link, extract its id, refuse an id
 * already stored, look the video up and create one row, of type `Long` or
 * `Short`. The short-video view then reports the channel's count and
 * total duration.
 *
 * The answers of the YouTube Data API are the parameters `detailsById`
 * (channel and duration, `get_channel_name_and_duration`) and `titleById`
 * (`get_video_title`), both keyed by the video id. An id missing from a
 * map stands for the `ValueError` the call raises when no item comes back.
 */
module Submission {
  import opened Common
  import opened VideoLinks
  import opened Models
  import opened Queries
  import opened Store
  import DurationFormat

  datatype VideoDetails = VideoDetails(channelName: string, durationSeconds: nat)

  /** How a submission ends: the three messages the views show, or the raised lookup error. */
  datatype Outcome = InvalidLink | AlreadyInList | LookupFailed | Added(video: VideoRow)

  /**
   * The store half of a submission whose link passed `is_invalid` and gave
   * `videoId`: a stored id is a duplicate, a failed lookup raises, and
   * otherwise the saved row is the result.
   */
  function NewVideoOutcome(rows: seq<VideoRow>, link: string, videoId: string, category: Category,
                           detailsById: map<string, VideoDetails>,
                           titleById: map<string, string>,
                           addedBy: Option<nat>, now: int): (r: Outcome)
    ensures r != InvalidLink
    ensures r == AlreadyInList <==> HasId(rows, videoId)
    ensures r == LookupFailed <==> !HasId(rows, videoId) && (videoId !in detailsById || videoId !in titleById)
    ensures r.Added? ==>
      r.video.videoId == videoId && !HasId(rows, videoId) && Consistent(r.video) &&
      r.video.url == link && r.video.imageUrl == None && r.video.category == category &&
      r.video.channelName == detailsById[videoId].channelName &&
      r.video.durationSeconds == detailsById[videoId].durationSeconds &&
      r.video.title == titleById[videoId] &&
      r.video.addedBy == addedBy && r.video.createdAt == now
  {
    if HasId(rows, videoId) then AlreadyInList
    else if videoId !in detailsById || videoId !in titleById then LookupFailed
    else
      var details := detailsById[videoId];
      Added(Saved(VideoRow(link, None, videoId, details.channelName, titleById[videoId], category,
                           details.durationSeconds, "", addedBy, now)))
  }

  /** The outcome of submitting `link` when the table holds `rows`. */
  function SubmitOutcome(rows: seq<VideoRow>, link: string, category: Category,
                         detailsById: map<string, VideoDetails>,
                         titleById: map<string, string>,
                         addedBy: Option<nat>, now: int): (r: Outcome)
    ensures r == InvalidLink <==> IsInvalid(link)
    ensures r.Added? ==>
      ExtractVideoId(link) == Ok(r.video.videoId) && |r.video.videoId| == VIDEO_ID_LENGTH &&
      !HasId(rows, r.video.videoId) && Consistent(r.video) &&
      r.video.url == link && r.video.category == category &&
      r.video.addedBy == addedBy && r.video.createdAt == now
  {
    if IsInvalid(link) then InvalidLink
    else NewVideoOutcome(rows, link, ExtractVideoId(link).value, category, detailsById, titleById, addedBy, now)
  }

  /** The table after a submission: one row more when it was added, otherwise unchanged. */
  function AfterSubmit(rows: seq<VideoRow>, outcome: Outcome): seq<VideoRow> {
    if outcome.Added? then rows + [outcome.video] else rows
  }

  /** A submission keeps the table invariant, in particular unique video ids. */
  lemma SubmitKeepsWellFormed(rows: seq<VideoRow>, link: string, category: Category,
                              detailsById: map<string, VideoDetails>,
                              titleById: map<string, string>,
                              addedBy: Option<nat>, now: int)
    requires WellFormed(rows)
    ensures WellFormed(AfterSubmit(rows, SubmitOutcome(rows, link, category, detailsById, titleById, addedBy, now)))
  {
    var outcome := SubmitOutcome(rows, link, category, detailsById, titleById, addedBy, now);
    if outcome.Added? {
      var r := Inserted(rows, outcome.video);
      assert r.Ok?;
    }
  }

  /** Submitting the same link again, after it was added, reports that it is already in the list. */
  lemma ResubmitIsDuplicate(rows: seq<VideoRow>, link: string, category: Category, category2: Category,
                            detailsById: map<string, VideoDetails>,
                            titleById: map<string, string>,
                            addedBy: Option<nat>, addedBy2: Option<nat>, now: int, now2: int)
    requires SubmitOutcome(rows, link, category, detailsById, titleById, addedBy, now).Added?
    ensures
      var rows2 := AfterSubmit(rows, SubmitOutcome(rows, link, category, detailsById, titleById, addedBy, now));
      SubmitOutcome(rows2, link, category2, detailsById, titleById, addedBy2, now2) == AlreadyInList
  {
    var v := SubmitOutcome(rows, link, category, detailsById, titleById, addedBy, now).video;
    var rows2 := rows + [v];
    assert rows2[|rows|].videoId == v.videoId;
    assert HasId(rows2, ExtractVideoId(link).value);
  }

  /** An accepted link whose id is new and whose lookups succeed is added. */
  lemma SubmitAddsWhenAllowed(rows: seq<VideoRow>, link: string, category: Category,
                              detailsById: map<string, VideoDetails>,
                              titleById: map<string, string>,
                              addedBy: Option<nat>, now: int)
    requires !IsInvalid(link)
    requires !HasId(rows, ExtractVideoId(link).value)
    requires ExtractVideoId(link).value in detailsById && ExtractVideoId(link).value in titleById
    ensures
      var r := SubmitOutcome(rows, link, category, detailsById, titleById, addedBy, now);
      var details := detailsById[ExtractVideoId(link).value];
      r.Added? && r.video.channelName == details.channelName &&
      r.video.durationSeconds == details.durationSeconds &&
      r.video.title == titleById[ExtractVideoId(link).value]
  {
  }

  /**
   * The shared body of both views: the store's rows and the outcome follow
   * `SubmitOutcome`, and the table invariant is kept.
   */
  method Submit(store: VideoStore, link: string, category: Category,
                detailsById: map<string, VideoDetails>,
                titleById: map<string, string>,
                addedBy: Option<nat>, now: int)
    returns (outcome: Outcome)
    requires store.Valid()
    modifies store
    ensures store.Valid()
    ensures outcome == SubmitOutcome(old(store.rows), link, category, detailsById, titleById, addedBy, now)
    ensures store.rows == AfterSubmit(old(store.rows), outcome)
  {
    if IsInvalid(link) {
      return InvalidLink;
    }
    var videoId := ExtractVideoId(link).value;
    outcome := AddVideo(store, link, videoId, category, detailsById, titleById, addedBy, now);
  }

  /**
   * The rest of both views once the link passed: refuse a stored id, look
   * the video up and create its row.
   */
  method AddVideo(store: VideoStore, link: string, videoId: string, category: Category,
                  detailsById: map<string, VideoDetails>,
                  titleById: map<string, string>,
                  addedBy: Option<nat>, now: int)
    returns (outcome: Outcome)
    requires store.Valid()
    modifies store
    ensures store.Valid()
    ensures outcome == NewVideoOutcome(old(store.rows), link, videoId, category, detailsById, titleById, addedBy, now)
    ensures store.rows == AfterSubmit(old(store.rows), outcome)
  {
    if HasId(store.rows, videoId) {
      return AlreadyInList;
    }
    if videoId !in detailsById {
      return LookupFailed;
    }
    var details := detailsById[videoId];
    if videoId !in titleById {
      return LookupFailed;
    }
    var title := titleById[videoId];
    var created := store.Create(link, videoId, details.channelName, title, category,
                                details.durationSeconds, addedBy, now);
    outcome := Added(created.value);
  }

  /** `create_list`: a long video. */
  method CreateList(store: VideoStore, link: string,
                    detailsById: map<string, VideoDetails>,
                    titleById: map<string, string>,
                    addedBy: Option<nat>, now: int)
    returns (outcome: Outcome)
    requires store.Valid()
    modifies store
    ensures store.Valid()
    ensures outcome == SubmitOutcome(old(store.rows), link, Long, detailsById, titleById, addedBy, now)
    ensures store.rows == AfterSubmit(old(store.rows), outcome)
  {
    outcome := Submit(store, link, Long, detailsById, titleById, addedBy, now);
  }

  /** The channel summary `create_short_video_list` reports after adding a video. */
  datatype ChannelSummary = ChannelSummary(count: nat, totalSeconds: nat, inHours: string)

  /** `count()` and `Sum('duration_seconds')` over the channel's rows, and the total formatted. */
  function SummaryOf(rows: seq<VideoRow>, channel: string): ChannelSummary {
    var videos := OfChannel(rows, channel);
    var total := SumDurations(videos);
    ChannelSummary(|videos|, total, DurationFormat.FormatDuration(total))
  }

  /** Adding a row to a channel counts it once and adds its duration to the channel's total. */
  lemma SummaryAfterAdd(rows: seq<VideoRow>, v: VideoRow)
    ensures SummaryOf(rows + [v], v.channelName).count == SummaryOf(rows, v.channelName).count + 1
    ensures SummaryOf(rows + [v], v.channelName).totalSeconds
         == SummaryOf(rows, v.channelName).totalSeconds + v.durationSeconds
  {
    var before := OfChannel(rows, v.channelName);
    assert (rows + [v])[..|rows|] == rows;
    assert OfChannel(rows + [v], v.channelName) == before + [v];
    assert (before + [v])[..|before|] == before;
    assert SumDurations(before + [v]) == SumDurations(before) + v.durationSeconds;
  }

  /**
   * `create_short_video_list`: a short video, and on success the summary
   * of its channel over the table that now includes it.
   */
  method CreateShortVideoList(store: VideoStore, link: string,
                              detailsById: map<string, VideoDetails>,
                              titleById: map<string, string>,
                              addedBy: Option<nat>, now: int)
    returns (outcome: Outcome, summary: Option<ChannelSummary>)
    requires store.Valid()
    modifies store
    ensures store.Valid()
    ensures outcome == SubmitOutcome(old(store.rows), link, Short, detailsById, titleById, addedBy, now)
    ensures store.rows == AfterSubmit(old(store.rows), outcome)
    ensures summary.Some? <==> outcome.Added?
    ensures outcome.Added? ==> summary == Some(SummaryOf(store.rows, outcome.video.channelName))
    ensures outcome.Added? ==>
      summary.value.count >= 1 && summary.value.totalSeconds >= outcome.video.durationSeconds
  {
    outcome := Submit(store, link, Short, detailsById, titleById, addedBy, now);
    if outcome.Added? {
      var channel := outcome.video.channelName;
      summary := Some(SummaryOf(store.rows, channel));
      SummaryAfterAdd(old(store.rows), outcome.video);
    } else {
      summary := None;
    }
  }
}
