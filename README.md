# VideoListCollect link list — Dafny model

This project models the core of the VideoListCollect Django app. Users paste YouTube
links. A link is checked (`is_invalid`) and its video id is extracted
(`extract_video_id`). The link is refused if the id is already stored. Otherwise the
video is looked up and stored as one `YouTubeVideo` row of type `"Long"` or `"Short"`.
Three listing views then aggregate the rows: the whole table with its total duration,
long videos grouped by creation day, and short videos grouped by channel with
per-channel totals. Every duration shown is rendered by `format_duration`.

Modules, leaves first:

- `Common`: `Option` and `Result`.
- `Text`: the Python string operations the core uses: decimal rendering, `find`,
  `split`/`join`, `lstrip`, substring `in`, ASCII lower-casing, code-point order.
- `UrlSplit`: the part of `urllib.parse` the link checks rely on. It covers
  `urlparse`, the `hostname` attribute and the first `parse_qs` value of a key.
- `DurationFormat`: `format_duration` of `list/views.py`, plus a reader for its output.
  The round-trip lemmas use the reader.
- `VideoLinks`: `is_invalid` and `extract_video_id`.
- `Models`: the `YouTubeVideo` row. This covers its own `format_duration` copy, `save`
  (which recomputes the derived `duration` column) and `__str__`.
- `Store`: the video table as a class holding a sequence of rows. `video_id` is unique.
- `Queries`: the ORM `filter`, `count` and `Sum` the views run.
- `Submission`: `create_list` and `create_short_video_list`.
- `Grouping`: what a "group into a dict" loop computes, as specification functions.
- `Aggregation`: `view_table`, `video_list_by_date` and `video_list_by_channel`. Each is
  written as a loop building its dict.

Modelling choices:

- The YouTube Data API calls become two maps keyed by video id, passed in as
  parameters. `detailsById` gives channel and duration in whole seconds (the answer of
  `get_channel_name_and_duration`). `titleById` gives the title (`get_video_title`). A
  missing id stands for the `ValueError` raised when the API returns no item.
- The creation timestamp (`auto_now_add`) is a parameter `now`. `created_at.date()` is a
  parameter `day`, an arbitrary monotone function from timestamp to day.
- `order_by` is a precondition: the input is a rearrangement of the filtered rows,
  sorted by `created_at`, or by channel name in code-point order.
- `urlparse` is modelled closely: the leading-control strip, tab/CR/LF removal, the scheme rule, the `//netloc` split, the
  unbalanced-bracket `ValueError`, `#`, `?` and `;params`, and the hostname via the last
  `@`, brackets or `:`, lower-cased.
- `filter(video_id=...).exists()` is the predicate `Store.HasId`. The duplicate test it
  makes is stated in the contracts of `Store.Inserted` and `Store.VideoStore.Create`.
- The `type` column is the `Category` datatype, whose two values stand for the
  strings `"Long"` and `"Short"` the views write.

Where the source's comments and its code differ, the model follows the code:

- The comment at list/views.py:127 says the id is "the path without the leading '/'",
  but `lstrip('/')` removes every leading `/`, and so does the model.
- The `youtu.be` test is a substring test on the raw netloc, not on the hostname. So an
  upper-case `https://YOUTU.BE/...` link has an allowed hostname, is read as a watch
  link, yields no `v` value and is refused (`VideoLinks.UpperCaseShareLinkRejected`).
- The help text at list/models.py:30 names "9000s to 10800s", and the initial
  migration carries validators for that range, but the model at list/models.py:29-31 has
  none and neither submission path checks it. The model does not check it either. The
  range appears only as the optional predicate `Models.InMigrationRange`.
- A bare `https://youtu.be/<id>` (28 characters) and a bare
  `https://www.youtube.com/watch?v=<id>` (43) are refused by the 45..64 length band.
  The band is kept as written (`VideoLinks.BareLinksRejected`).

## Model

| member | source | states |
|---|---|---|
| `DurationFormat.Decompose` | list/views.py:58-61 | minutes and seconds are below 60, and hours*3600 + minutes*60 + seconds is the input |
| `DurationFormat.ReadFormatted` | list/views.py:58-76 | reading the rendering back (`"0s"`, or space-separated tokens with non-zero values written without leading zeros, in the unit order h, m, s) recovers exactly the hours, minutes and seconds computed from the input |
| `DurationFormat.FormatDurationRoundTrip` | list/views.py:58-76 | the rendering is always readable, and the values read back have minutes and seconds below 60 and add up to exactly the input |
| `DurationFormat.FormatDurationZero` | list/views.py:63-76 | the result is `"0s"` exactly when the input is 0, and it is never empty |
| `DurationFormat.FormatDurationInjective` | list/views.py:52-76 | distinct second counts render to distinct strings |
| `DurationFormat.FormatDurationLength` | list/views.py:58-76 | the rendering is at most 9 characters longer than the decimal hour count |
| `DurationFormat.LongVideoDuration` | list/models.py:29-35 | for 9000..10800 seconds the result starts with `2h` (or is exactly `3h`) and fits the 20-character `duration` column |
| `DurationFormat.FormatDurationExamples` | list/views.py:52-76 | 7200 renders as `2h` and 600 as `10m` |
| `DurationFormat.FormatDurationExamplesMixed` | list/views.py:52-76 | 61 renders as `1m 1s` and 3661 as `1h 1m 1s` |
| `DurationFormat.FormatDurationExampleLong` | list/views.py:52-76 | 9263 renders as `2h 34m 23s` |
| `UrlSplit.Parse` | list/views.py:94 | a link `urlparse` accepts has a netloc free of `/`, `?` and `#` |
| `UrlSplit.HttpsNetlocBrackets` | list/views.py:93-96 | an `https` link is refused exactly when its netloc has a `[` without a `]` or the reverse; otherwise its netloc is kept as written |
| `UrlSplit.Hostname` | list/views.py:99 | the hostname, when there is one, is not empty |
| `UrlSplit.FirstQueryValue` | list/views.py:131-132 | the first `v` value `parse_qs` gives is never blank |
| `UrlSplit.ParseHttpsLink` | list/views.py:123 | an ordinary `https://host/path?query` link splits into exactly that scheme, netloc, path and query |
| `UrlSplit.HostnameOfPlain` | list/views.py:99 | a netloc without userinfo, port, brackets or zone has its lower-cased self as hostname |
| `UrlSplit.HostnameWithUserinfoAndPort` | list/views.py:99 | for `user@host:port` the hostname is `host` lower-cased: userinfo up to the last `@` and the port after the first `:` are dropped |
| `VideoLinks.ExtractVideoId` | list/views.py:117-137 | a refused parse is an error; a netloc containing `youtu.be` gives the path with all leading `/` removed, which succeeds exactly when the path has a non-`/` character; any other netloc gives the first non-blank `v` query value, which succeeds exactly when there is one; a success is never empty |
| `VideoLinks.IsInvalid` | list/views.py:79-114 | true for every length outside 45..64, for a link `urlparse` refuses and for a hostname outside the three YouTube domains; when false, extraction succeeds with exactly 11 characters (the unguarded calls at list/views.py:242 and 287) |
| `VideoLinks.AcceptedWhenAllChecksPass` | list/views.py:89-114 | conversely, a link in the length band with an allowed hostname and an 11-character id is accepted |
| `VideoLinks.BareLinksRejected` | list/views.py:89-90 | a bare share link and a bare watch link with an 11-character id are both refused by the length band |
| `VideoLinks.ShareLinkAccepted` | list/views.py:79-137 | `https://youtu.be/<id>?si=<token>` with an 11-character id and a 13- to 32-character token is accepted, and its id is `<id>` |
| `VideoLinks.WatchLinkAccepted` | list/views.py:79-137 | `https://www.youtube.com/watch?v=<id>&<extra>` with an 11-character id and 1 to 20 extra characters is accepted, and its id is `<id>` |
| `VideoLinks.UpperCaseShareLinkRejected` | list/views.py:98-135 | an upper-case `YOUTU.BE` share link passes the hostname check but yields no id and is refused |
| `VideoLinks.ShortIdFromParsed` | list/views.py:126-128 | a `youtu.be` netloc with path `/<id>` gives `<id>` |
| `VideoLinks.QueryIdFromParsed` | list/views.py:129-132 | any other netloc gives the first `v` value |
| `VideoLinks.NoIdFromParsed` | list/views.py:129-135 | any other netloc with no `v` value is an extraction error |
| `VideoLinks.WatchQueryValue` | list/views.py:131-132 | in a query `v=<id>&...` the first `v` value is `<id>` |
| `VideoLinks.NoVInShareQuery` | list/views.py:131-132 | a query `si=<token>` without `&` has no `v` value |
| `Models.Saved` | list/models.py:49-55 | after `save` the `duration` column equals the rendering of `duration_seconds`, no other field changes, and a consistent row is left as it is |
| `Models.SavedIdempotent` | list/models.py:54 | saving twice gives the same row as saving once |
| `Models.SavedDurationFits` | list/migrations/0001_initial.py:26-27 | a row within the migration's 9000..10800 range has a saved `duration` that fits the column and starts with `2h` or is `3h` |
| `Models.DisplayName` | list/models.py:85-86 | the display string is the title, then ` (`, the video id and `)` |
| `Models.DisplayNameInjective` | list/models.py:85-86 | for ids of equal length, equal display strings mean equal titles and ids |
| `Models.FormatDurationAgrees` | list/models.py:57-82 | the model's own `format_duration` copy agrees with the views' one on every input |
| `Models.YouTubeVideo.constructor` | list/models.py:6-46 | a new instance holds the given fields, no image URL and a blank `duration` |
| `Models.YouTubeVideo.Save` | list/models.py:49-55 | the instance's row becomes `Saved` of its old row: only `duration` changes |
| `Store.Inserted` | list/models.py:11-15 | an insert is refused exactly when the id is already stored; otherwise the row is appended, and a well-formed table stays well-formed |
| `Store.VideoStore.Create` | list/views.py:264-272 | `objects.create` saves the new row and appends it, keeping ids unique and every row consistent; a taken id leaves the table unchanged |
| `Queries.OfCategory` | list/views.py:346 | the filtered rows all have the category, and every row of the category is among them |
| `Queries.OfChannel` | list/views.py:317-324 | the filtered rows all have the channel, and every row of the channel is among them |
| `Queries.OfCategoryCounts` | list/views.py:346 | each row of the category appears in the result exactly as often as in the table, and no other row appears |
| `Queries.OfChannelCounts` | list/views.py:317-324 | each row of the channel appears in the result exactly as often as in the table, and no other row appears, so `count()` is the number of the channel's rows |
| `Queries.SumDurationsAppend` | list/views.py:334-336 | the duration sum of two runs of rows is the sum of their sums |
| `Queries.SumDurationsPermutation` | list/views.py:334-336 | the duration sum does not depend on the order of the rows |
| `Queries.SumDurationsBound` | list/views.py:334-336 | every row's duration is at most the sum |
| `Queries.OfChannelAppend` | list/views.py:317-324 | filtering by channel distributes over concatenation |
| `Submission.NewVideoOutcome` | list/views.py:244-272 | a stored id is a duplicate; a failed lookup raises; otherwise the result is the saved row with the link, id, looked-up channel, duration and title, the category, user and creation time |
| `Submission.SubmitOutcome` | list/views.py:237-272 | the link is refused exactly when `is_invalid` holds; an added row has the extracted 11-character id, which was not stored before |
| `Submission.SubmitKeepsWellFormed` | list/views.py:237-272 | every submission keeps ids unique and every row's `duration` current |
| `Submission.ResubmitIsDuplicate` | list/views.py:244-246 | submitting a link again after it was added reports that it is already in the list |
| `Submission.SubmitAddsWhenAllowed` | list/views.py:242-272 | an accepted link with a new id and successful lookups is added with the looked-up channel, duration and title |
| `Submission.AddVideo` | list/views.py:244-272 | after validation, the store and outcome follow `NewVideoOutcome`: unchanged on a duplicate or failed lookup, one row more otherwise |
| `Submission.Submit` | list/views.py:237-272 | the store and outcome follow `SubmitOutcome`: unchanged on every error, exactly the new row appended on success |
| `Submission.CreateList` | list/views.py:233-275 | `create_list` is a submission of type `Long` |
| `Submission.CreateShortVideoList` | list/views.py:278-329 | `create_short_video_list` is a submission of type `Short`, and on success reports the channel's count and total over the table that now includes the video |
| `Submission.SummaryAfterAdd` | list/views.py:317-326 | adding a row counts it once more in its channel and adds its duration to the channel total |
| `Grouping.FirstSeen` | list/views.py:352-353 | the dict's keys, in insertion order, are distinct and are exactly the keys that occur |
| `Grouping.FirstSeenOrder` | list/views.py:352-353 | the dict's keys come in the order of their first occurrence in the input |
| `Grouping.Regroup` | list/views.py:348-355 | with equal keys adjacent, reading the groups in key order gives back the values in their original order |
| `Grouping.FirstSeenAscending` | list/views.py:346-355 | on non-decreasing keys, the dict's keys are strictly increasing |
| `Grouping.GroupedStep` | list/views.py:349-355 | one loop step (open the key's list if new, append the value) keeps the dict equal to the grouping of the values seen so far |
| `Grouping.MembersIndexed` | list/views.py:355 | every member of a key's list is a value carrying that key |
| `Aggregation.ViewTable` | list/views.py:332-342 | `empty` holds exactly for an empty table, and `total_length` is the rendering of the sum of all durations |
| `Aggregation.VideoListByDate` | list/views.py:345-361 | the days are distinct and ascending, in first-seen order; each day's list holds that day's long videos in creation order; reading the groups in order gives back the query result; `empty` holds exactly when there is no long video |
| `Aggregation.ByDateComplete` | list/views.py:345-361 | what the finished by-date loop built has the properties above |
| `Aggregation.VideoListByChannel` | list/views.py:364-392 | each channel once, with its short videos in order, `total_duration_seconds` their sum, `total_duration_human` its rendering; the totals add up to the total over all short videos; `empty` holds exactly when there is none |
| `Aggregation.ByChannelComplete` | list/views.py:364-392 | what the two finished by-channel loops built has the properties above |
| `Aggregation.ChannelOrder` | list/views.py:365-380 | on the channel-ordered query the channels are listed in strictly ascending order, and the groups read in order give back the query result |
| `Aggregation.GroupSumsAll` | list/views.py:379-380 | the per-channel sums add up to the sum over all videos, whatever their order |
| `Aggregation.ChannelsStep` | list/views.py:368-380 | one step of the first by-channel loop keeps every entry equal to its channel's videos so far and their total |
| `Aggregation.HumanStep` | list/views.py:383-386 | one step of the second by-channel loop formats exactly one more channel's total |

## Left out

- HTTP and framework plumbing: request objects, `redirect`, `render`, the `messages`
  calls, `time.sleep` and the routing table in `list/urls.py`. The views' observable
  result is the outcome value and the new store contents.
- The authentication views `logOutUser`, `create_user` and `login_user`. They are calls
  into Django's auth framework.
- The YouTube Data API client, `isodate` duration parsing and the float from
  `total_seconds()`. They are replaced by the `detailsById` and `titleById` maps, which
  give durations in whole seconds.
- `has_bangla_auto_transcript`: it is never called, and it queries an external
  transcript service.
- `human_readable_duration`: it is never called. It always prints all three units, so it
  is not the same as `format_duration`.
- The unused `total_duration` / `total` computations at list/views.py:250-258 and
  295-303. They have no effect on the result.
- IPv6 literal validation of `urlparse` (Python 3.11.4 and later). It changes the answer
  of `is_invalid`: such a Python raises on `https://[youtu.be]/<id>?si=<token>`, so
  list/views.py:94-96 reports the link invalid, while the model accepts it and extracts
  `<id>`.
- Other `urlparse` details: the NFKC check on the netloc, Unicode (non-ASCII)
  lower-casing, and percent-decoding in `parse_qs`.
- Database ordering and atomicity. `order_by` is a precondition on the input sequence,
  with channel names compared by code point rather than by the database collation. The
  race between the existence check and the insert is not modelled. The store applies
  both steps one after the other.
- The `max_length` limits on `channel_name` and `title`. `objects.create` does not
  check them, and what an overlong value does depends on the database backend.
- The `image_url` field is never written by the core, so it stays `None`.
