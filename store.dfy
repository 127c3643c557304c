/**
 * The `YouTubeVideo` table: rows in insertion order, with the column's
 * `unique=True` constraint on `video_id` and the invariant that every row
 * went through `save`, so its derived `duration` is current.
 */
module Store {
  import opened Common
  import opened Models

  /** No two rows share a video id. */
  predicate UniqueIds(rows: seq<VideoRow>) {
    forall i, j :: 0 <= i < j < |rows| ==> rows[i].videoId != rows[j].videoId
  }

  /** `filter(video_id=...).exists()`. */
  predicate HasId(rows: seq<VideoRow>, videoId: string) {
    exists i :: 0 <= i < |rows| && rows[i].videoId == videoId
  }

  /** The table invariant. */
  predicate WellFormed(rows: seq<VideoRow>) {
    UniqueIds(rows) && forall i :: 0 <= i < |rows| ==> Consistent(rows[i])
  }

  /** An insert the unique constraint refuses raises `IntegrityError`. */
  datatype StoreError = IntegrityError

  /**
   * The table after inserting `row`: refused when its id is taken,
   * otherwise appended.
   */
  function Inserted(rows: seq<VideoRow>, row: VideoRow): (r: Result<seq<VideoRow>, StoreError>)
    ensures r.Err? <==> HasId(rows, row.videoId)
    ensures r.Ok? ==> r.value == rows + [row]
    ensures r.Ok? && WellFormed(rows) && Consistent(row) ==> WellFormed(r.value)
  {
    if HasId(rows, row.videoId) then Err(IntegrityError)
    else
      var next := rows + [row];
      assert forall i :: 0 <= i < |rows| ==> next[i] == rows[i];
      Ok(next)
  }

  class VideoStore {
    var rows: seq<VideoRow>

    ghost predicate Valid()
      reads this
    {
      WellFormed(rows)
    }

    constructor ()
      ensures rows == [] && Valid()
    {
      rows := [];
    }

    /**
     * `YouTubeVideo.objects.create(...)`: build the instance, `save` it
     * (which fills in `duration`) and insert it; `createdAt` is the clock
     * reading `auto_now_add` takes.
     */
    method Create(url: string, videoId: string, channelName: string, title: string,
                  category: Category, durationSeconds: nat, addedBy: Option<nat>, createdAt: int)
      returns (r: Result<VideoRow, StoreError>)
      requires Valid()
      modifies this
      ensures Valid()
      ensures r.Err? <==> old(HasId(rows, videoId))
      ensures r.Ok? ==> r.value == Saved(VideoRow(url, None, videoId, channelName, title, category,
                                                   durationSeconds, "", addedBy, createdAt))
      ensures r.Ok? ==> rows == old(rows) + [r.value]
      ensures r.Err? ==> rows == old(rows)
    {
      var video := new YouTubeVideo(url, videoId, channelName, title, category,
                                   durationSeconds, addedBy, createdAt);
      video.Save();
      var row := video.Row();
      match Inserted(rows, row)
      case Err(e) =>
        r := Err(e);
      case Ok(next) =>
        rows := next;
        r := Ok(row);
    }
  }
}
