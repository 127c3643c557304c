/**
 * The `YouTubeVideo` model of list/models.py: one stored video, its
 * derived human-readable `duration` column, which `save` recomputes, and
 * its display string.
 */
module Models {
  import opened Common
  import opened Text
  import DurationFormat

  /** The two values the views write into the `type` column, `"Long"` and `"Short"`. */
  datatype Category = Long | Short

  /** Column widths (`max_length`) of the model's character fields. */
  const VIDEO_ID_MAX_LENGTH := 50
  const CHANNEL_NAME_MAX_LENGTH := 255
  const TITLE_MAX_LENGTH := 1000
  const TYPE_MAX_LENGTH := 20
  const DURATION_MAX_LENGTH := 20

  /**
   * One stored row. `addedBy` is the submitting user's key (`None` when
   * anonymous or when the user was deleted); `createdAt` is the creation
   * timestamp in seconds.
   */
  datatype VideoRow = VideoRow(
    url: string,
    imageUrl: Option<string>,
    videoId: string,
    channelName: string,
    title: string,
    category: Category,
    durationSeconds: nat,
    duration: string,
    addedBy: Option<nat>,
    createdAt: int)

  /** The derived column agrees with the stored number of seconds. */
  predicate Consistent(row: VideoRow) {
    row.duration == YouTubeVideo.FormatDuration(row.durationSeconds)
  }

  /** What `save` makes of a row: the derived column recomputed, nothing else touched. */
  function Saved(row: VideoRow): (r: VideoRow)
    ensures Consistent(r)
    ensures r.(duration := row.duration) == row
    ensures Consistent(row) ==> r == row
  {
    row.(duration := YouTubeVideo.FormatDuration(row.durationSeconds))
  }

  /** Saving twice is saving once. */
  lemma SavedIdempotent(row: VideoRow)
    ensures Saved(Saved(row)) == Saved(row)
  {
  }

  /**
   * The `[9000, 10800]` range of the initial migration's validators. No
   * code path checks it; when it holds, the derived column fits its width.
   */
  predicate InMigrationRange(row: VideoRow) {
    9000 <= row.durationSeconds <= 10800
  }

  lemma SavedDurationFits(row: VideoRow)
    requires InMigrationRange(row)
    ensures |Saved(row).duration| <= DURATION_MAX_LENGTH
    ensures Saved(row).duration[..2] == "2h" || Saved(row).duration == "3h"
  {
    FormatDurationAgrees(row.durationSeconds);
    DurationFormat.LongVideoDuration(row.durationSeconds);
  }

  /** `f"{title} ({video_id})"`. */
  function DisplayName(title: string, videoId: string): (r: string)
    ensures |r| == |title| + |videoId| + 3
    ensures r[..|title|] == title && r[|title|..|title| + 2] == " ("
    ensures r[|title| + 2..|r| - 1] == videoId && r[|r| - 1] == ')'
  {
    title + " (" + videoId + ")"
  }

  /** Two display strings for ids of the same length are equal only for equal titles and ids. */
  lemma DisplayNameInjective(t1: string, v1: string, t2: string, v2: string)
    requires |v1| == |v2|
    requires DisplayName(t1, v1) == DisplayName(t2, v2)
    ensures t1 == t2 && v1 == v2
  {
    var d := DisplayName(t1, v1);
    assert |t1| == |t2|;
    assert t1 == d[..|t1|] == t2;
    assert v1 == d[|t1| + 2..|d| - 1] == v2;
  }

  class YouTubeVideo {
    var url: string
    var imageUrl: Option<string>
    var videoId: string
    var channelName: string
    var title: string
    var category: Category
    var durationSeconds: nat
    var duration: string
    var addedBy: Option<nat>
    var createdAt: int

    /** An unsaved instance: every field given except the derived `duration`, which is blank. */
    constructor (url: string, videoId: string, channelName: string, title: string,
                 category: Category, durationSeconds: nat, addedBy: Option<nat>, createdAt: int)
      ensures Row() == VideoRow(url, None, videoId, channelName, title, category,
                                durationSeconds, "", addedBy, createdAt)
    {
      this.url := url;
      this.imageUrl := None;
      this.videoId := videoId;
      this.channelName := channelName;
      this.title := title;
      this.category := category;
      this.durationSeconds := durationSeconds;
      this.duration := "";
      this.addedBy := addedBy;
      this.createdAt := createdAt;
    }

    /** The instance's fields as a row value. */
    function Row(): VideoRow
      reads this
    {
      VideoRow(url, imageUrl, videoId, channelName, title, category,
               durationSeconds, duration, addedBy, createdAt)
    }

    /**
     * `YouTubeVideo.format_duration`, the model's own copy of the formatter:
     * hours, minutes and seconds by integer division, each unit kept only
     * when nonzero, joined with spaces, `"0s"` when none is left.
     */
    static function FormatDuration(totalSeconds: nat): (r: string)
    {
      var hours := totalSeconds / 3600;
      var remainder := totalSeconds % 3600;
      var minutes := remainder / 60;
      var seconds := remainder % 60;
      var parts :=
        (if hours > 0 then [Digits(hours) + "h"] else []) +
        (if minutes > 0 then [Digits(minutes) + "m"] else []) +
        (if seconds > 0 then [Digits(seconds) + "s"] else []);
      if parts == [] then "0s" else Join(parts, ' ')
    }

    /**
     * The derived column is recomputed from `durationSeconds`; the
     * persisting half of `save` is the store's insertion.
     */
    method Save()
      modifies this`duration
      ensures Row() == Saved(old(Row()))
    {
      duration := FormatDuration(durationSeconds);
    }

    /** `__str__`. */
    function Str(): string
      reads this
    {
      DisplayName(title, videoId)
    }
  }

  /** The model's copy of the formatter agrees with the views' on every input. */
  lemma FormatDurationAgrees(n: nat)
    ensures YouTubeVideo.FormatDuration(n) == DurationFormat.FormatDuration(n)
  {
    var d := DurationFormat.Decompose(n);
    assert d == DurationFormat.Hms(n / 3600, n % 3600 / 60, n % 3600 % 60);
    assert DurationFormat.Token(d.hours, 'h') == Digits(d.hours) + "h";
    assert DurationFormat.Token(d.minutes, 'm') == Digits(d.minutes) + "m";
    assert DurationFormat.Token(d.seconds, 's') == Digits(d.seconds) + "s";
  }
}
