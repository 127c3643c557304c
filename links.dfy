/**
 * `is_invalid` and `extract_video_id` of list/views.py: whether a submitted
 * string is an admissible YouTube link, and the video id it carries.
 */
module VideoLinks {
  import opened Common
  import opened Text
  import opened UrlSplit

  /** The length band a link must fall in (kept exactly as the source has it). */
  const MIN_LINK_LENGTH := 45
  const MAX_LINK_LENGTH := 64

  const VIDEO_ID_LENGTH := 11

  const VALID_DOMAINS: set<string> := {"youtube.com", "www.youtube.com", "youtu.be"}

  /** Both are a `ValueError` in the source: `urlparse` refused the link, or no id was found. */
  datatype ExtractError = MalformedUrl | NoVideoId

  /**
   * A netloc containing `youtu.be` takes the id from the path, with every
   * leading `/` removed; any other takes the first non-blank `v` query value.
   * An empty or missing id is an error.
   */
  function ExtractVideoId(url: string): (r: Result<string, ExtractError>)
    ensures r.Ok? ==> r.value != ""
    ensures Parse(url).Err? ==> r == Err(MalformedUrl)
    ensures Parse(url).Ok? && Contains(Parse(url).value.netloc, "youtu.be") ==>
      var path := Parse(url).value.path;
      (r.Ok? <==> exists j :: 0 <= j < |path| && path[j] != '/') &&
      (r.Ok? ==> |r.value| <= |path| && path[|path| - |r.value|..] == r.value && r.value[0] != '/' &&
                 forall j :: 0 <= j < |path| - |r.value| ==> path[j] == '/')
    ensures Parse(url).Ok? && !Contains(Parse(url).value.netloc, "youtu.be") ==>
      var pieces := Split(Parse(url).value.query, '&');
      var k := FirstValueIndex(pieces, "v");
      (r.Ok? <==> k < |pieces|) && (r.Ok? ==> Some(r.value) == PieceValue(pieces[k], "v"))
  {
    match Parse(url)
    case Err(_) => Err(MalformedUrl)
    case Ok(parsed) =>
      var videoId :=
        if Contains(parsed.netloc, "youtu.be") then Some(LStrip(parsed.path, '/'))
        else FirstQueryValue(parsed.query, "v");
      if videoId.None? || videoId.value == "" then Err(NoVideoId) else Ok(videoId.value)
  }

  /** `parsed.hostname in valid_domains` for a link that `urlparse` accepts. */
  predicate HostAllowed(parsed: ParsedUrl) {
    var host := Hostname(parsed.netloc);
    host.Some? && host.value in VALID_DOMAINS
  }

  /**
   * True when the link is refused: its length is outside 45..64, `urlparse`
   * refuses it, its hostname is not one of the three YouTube domains, or the
   * extracted id is missing or not 11 characters long.
   */
  function IsInvalid(url: string): (r: bool)
    ensures |url| < MIN_LINK_LENGTH || |url| > MAX_LINK_LENGTH ==> r
    ensures Parse(url).Err? ==> r
    ensures Parse(url).Ok? && !HostAllowed(Parse(url).value) ==> r
    ensures !r ==> ExtractVideoId(url).Ok? && |ExtractVideoId(url).value| == VIDEO_ID_LENGTH
  {
    if |url| < MIN_LINK_LENGTH || |url| > MAX_LINK_LENGTH then true
    else match Parse(url)
      case Err(_) => true
      case Ok(parsed) =>
        if !HostAllowed(parsed) then true
        else match ExtractVideoId(url)
          case Err(_) => true
          case Ok(videoId) => |videoId| != VIDEO_ID_LENGTH
  }

  /** The converse: a link that passes all three checks is accepted. */
  lemma AcceptedWhenAllChecksPass(url: string, parsed: ParsedUrl, videoId: string)
    requires MIN_LINK_LENGTH <= |url| <= MAX_LINK_LENGTH
    requires Parse(url) == Ok(parsed) && HostAllowed(parsed)
    requires ExtractVideoId(url) == Ok(videoId) && |videoId| == VIDEO_ID_LENGTH
    ensures !IsInvalid(url)
  {
  }

  /** Letters, digits, `-` and `_`: the characters YouTube uses in video ids. */
  predicate IdAlphabet(id: string) {
    forall j :: 0 <= j < |id| ==> IsAsciiLetter(id[j]) || IsDigit(id[j]) || id[j] == '-' || id[j] == '_'
  }

  /**
   * The links people actually paste. A bare `https://youtu.be/<id>` (28
   * characters) and a bare `https://www.youtube.com/watch?v=<id>` (43) are
   * both refused by the length check alone.
   */
  lemma BareLinksRejected(id: string)
    requires |id| == VIDEO_ID_LENGTH
    ensures IsInvalid("https://youtu.be/" + id)
    ensures IsInvalid("https://www.youtube.com/watch?v=" + id)
  {
  }

  /** A share link `https://youtu.be/<id>?si=<token>` splits as expected. */
  lemma ShareLinkParse(id: string, si: string)
    requires IdAlphabet(id) && id != ""
    requires Visible(si) && NoneOf(si, {'#'})
    ensures Parse("https://youtu.be/" + id + "?si=" + si)
         == Ok(ParsedUrl("https", "youtu.be", "/" + id, "", "si=" + si, ""))
  {
    var path := "/" + id;
    var query := "si=" + si;
    assert Visible(path) && NoneOf(path, {'?', '#', ';'}) by {
      forall j | 0 < j < |path| ensures path[j] == id[j - 1] { }
    }
    assert Visible(query) && NoneOf(query, {'#'}) by {
      forall j | 3 <= j < |query| ensures query[j] == si[j - 3] { }
    }
    assert NoneOf("youtu.be", {'/', '?', '#', '[', ']'}) && Visible("youtu.be");
    assert "https://" + "youtu.be" + path + "?" + query == "https://youtu.be/" + id + "?si=" + si;
    ParseHttpsLink("youtu.be", path, query);
  }

  /** A `youtu.be` netloc takes the id from the path. */
  lemma ShortIdFromParsed(url: string, parsed: ParsedUrl, videoId: string)
    requires Parse(url) == Ok(parsed) && parsed.netloc == "youtu.be"
    requires parsed.path == "/" + videoId && videoId != "" && videoId[0] != '/'
    ensures ExtractVideoId(url) == Ok(videoId)
  {
    ContainsSelf("youtu.be");
    LStripOneSlash(videoId);
  }

  lemma ShortHostAllowed(parsed: ParsedUrl)
    requires parsed.netloc == "youtu.be"
    ensures HostAllowed(parsed)
  {
    HostnameOfPlain("youtu.be", "youtu.be");
  }

  /**
   * A share link with an 11-character id and a 13- to 32-character `si`
   * token is accepted, and its id is the path after the slash.
   */
  lemma ShareLinkAccepted(id: string, si: string)
    requires |id| == VIDEO_ID_LENGTH && IdAlphabet(id)
    requires 13 <= |si| <= 32 && Visible(si) && NoneOf(si, {'#'})
    ensures ExtractVideoId("https://youtu.be/" + id + "?si=" + si) == Ok(id)
    ensures !IsInvalid("https://youtu.be/" + id + "?si=" + si)
  {
    var url := "https://youtu.be/" + id + "?si=" + si;
    var parsed := ParsedUrl("https", "youtu.be", "/" + id, "", "si=" + si, "");
    ShareLinkParse(id, si);
    assert id[0] != '/';
    ShortIdFromParsed(url, parsed, id);
    ShortHostAllowed(parsed);
    AcceptedWhenAllChecksPass(url, parsed, id);
  }

  /** `v=<id>&...` gives `id` as the first `v` value. */
  lemma WatchQueryValue(id: string, extra: string)
    requires IdAlphabet(id) && id != ""
    ensures FirstQueryValue("v=" + id + "&" + extra, "v") == Some(id)
  {
    var piece := "v=" + id;
    assert '&' !in piece && '=' !in id && '+' !in id by {
      forall j | 0 <= j < |piece| ensures piece[j] != '&' {
        if j >= 2 { assert piece[j] == id[j - 2]; }
      }
      forall j | 0 <= j < |id| ensures id[j] != '=' && id[j] != '+' { }
    }
    SplitHead(piece, extra, '&');
    assert piece[0] == 'v' && piece[1] == '=';
    assert IndexOf(piece, '=') == 1;
    assert BeforeFirst(piece, '=') == piece[..1] == "v";
    assert AfterFirst(piece, '=') == piece[2..] == id;
    assert Replace("v", '+', ' ') == "v";
    assert Replace(id, '+', ' ') == id;
  }

  /** A watch link `https://www.youtube.com/watch?v=<id>&<extra>` splits as expected. */
  lemma WatchLinkParse(id: string, extra: string)
    requires IdAlphabet(id)
    requires Visible(extra) && NoneOf(extra, {'#'})
    ensures Parse("https://www.youtube.com/watch?v=" + id + "&" + extra)
         == Ok(ParsedUrl("https", "www.youtube.com", "/watch", "", "v=" + id + "&" + extra, ""))
  {
    var query := "v=" + id + "&" + extra;
    forall j | 0 <= j < |query| ensures query[j] > ' ' && query[j] != '#' {
      if 2 <= j < 2 + |id| { assert query[j] == id[j - 2]; }
      else if j > 2 + |id| { assert query[j] == extra[j - 3 - |id|]; }
    }
    assert NoneOf("www.youtube.com", {'/', '?', '#', '[', ']'}) && Visible("www.youtube.com");
    assert Visible("/watch") && NoneOf("/watch", {'?', '#', ';'});
    assert "https://" + "www.youtube.com" + "/watch" + "?" + query
        == "https://www.youtube.com/watch?v=" + id + "&" + extra;
    ParseHttpsLink("www.youtube.com", "/watch", query);
  }

  /** `youtu.be` does not occur in `www.youtube.com`, so watch links read the query. */
  lemma WatchHostNotShort()
    ensures !Contains("www.youtube.com", "youtu.be")
  {
    var host := "www.youtube.com";
    assert forall i :: 0 <= i <= 7 ==> host[i] != 'y' || host[i + 5] != '.';
    forall i: nat ensures !OccursAt(host, "youtu.be", i) {
      if i + 8 <= |host| {
        assert "youtu.be"[0] == 'y' && "youtu.be"[5] == '.';
      }
    }
  }

  /** Any other netloc takes the id from the first `v` value. */
  lemma QueryIdFromParsed(url: string, parsed: ParsedUrl, videoId: string)
    requires Parse(url) == Ok(parsed) && !Contains(parsed.netloc, "youtu.be")
    requires FirstQueryValue(parsed.query, "v") == Some(videoId)
    ensures ExtractVideoId(url) == Ok(videoId)
  {
  }

  lemma WatchHostAllowed(parsed: ParsedUrl)
    requires parsed.netloc == "www.youtube.com"
    ensures HostAllowed(parsed)
  {
    HostnameOfPlain("www.youtube.com", "www.youtube.com");
  }

  /**
   * A watch link with an 11-character id followed by `&` and 1 to 20 more
   * characters (`t=42s`, `list=...`) is accepted, and its id is the `v` value.
   */
  lemma WatchLinkAccepted(id: string, extra: string)
    requires |id| == VIDEO_ID_LENGTH && IdAlphabet(id)
    requires 1 <= |extra| <= 20 && Visible(extra) && NoneOf(extra, {'#'})
    ensures ExtractVideoId("https://www.youtube.com/watch?v=" + id + "&" + extra) == Ok(id)
    ensures !IsInvalid("https://www.youtube.com/watch?v=" + id + "&" + extra)
  {
    var url := "https://www.youtube.com/watch?v=" + id + "&" + extra;
    var parsed := ParsedUrl("https", "www.youtube.com", "/watch", "", "v=" + id + "&" + extra, "");
    WatchLinkParse(id, extra);
    WatchHostNotShort();
    WatchQueryValue(id, extra);
    QueryIdFromParsed(url, parsed, id);
    WatchHostAllowed(parsed);
    AcceptedWhenAllChecksPass(url, parsed, id);
  }

  /**
   * The hostname check lower-cases the netloc but the `youtu.be` test does
   * not: an upper-case share link has an allowed hostname, is read as a watch
   * link, finds no `v` value and is refused.
   */
  lemma UpperCaseShareLinkRejected(id: string, si: string)
    requires IdAlphabet(id) && id != ""
    requires Visible(si) && NoneOf(si, {'#', '&'})
    ensures HostAllowed(ParsedUrl("https", "YOUTU.BE", "/" + id, "", "si=" + si, ""))
    ensures ExtractVideoId("https://YOUTU.BE/" + id + "?si=" + si) == Err(NoVideoId)
    ensures IsInvalid("https://YOUTU.BE/" + id + "?si=" + si)
  {
    var url := "https://YOUTU.BE/" + id + "?si=" + si;
    var parsed := ParsedUrl("https", "YOUTU.BE", "/" + id, "", "si=" + si, "");
    UpperCaseShareLinkParse(id, si);
    UpperCaseHost(parsed);
    UpperCaseHostNotShort();
    NoVInShareQuery(si);
    NoIdFromParsed(url, parsed);
  }

  lemma UpperCaseHostNotShort()
    ensures !Contains("YOUTU.BE", "youtu.be")
  {
    forall i: nat ensures !OccursAt("YOUTU.BE", "youtu.be", i) {
      if i + 8 <= 8 { assert "YOUTU.BE"[0] != "youtu.be"[0]; }
    }
  }

  /** A netloc without `youtu.be` and a query without a `v` value give no id. */
  lemma NoIdFromParsed(url: string, parsed: ParsedUrl)
    requires Parse(url) == Ok(parsed) && !Contains(parsed.netloc, "youtu.be")
    requires FirstQueryValue(parsed.query, "v") == None
    ensures ExtractVideoId(url) == Err(NoVideoId)
  {
  }

  lemma UpperCaseShareLinkParse(id: string, si: string)
    requires IdAlphabet(id) && id != ""
    requires Visible(si) && NoneOf(si, {'#'})
    ensures Parse("https://YOUTU.BE/" + id + "?si=" + si)
         == Ok(ParsedUrl("https", "YOUTU.BE", "/" + id, "", "si=" + si, ""))
  {
    var path := "/" + id;
    var query := "si=" + si;
    assert Visible(path) && NoneOf(path, {'?', '#', ';'}) by {
      forall j | 0 < j < |path| ensures path[j] == id[j - 1] { }
    }
    assert Visible(query) && NoneOf(query, {'#'}) by {
      forall j | 3 <= j < |query| ensures query[j] == si[j - 3] { }
    }
    assert NoneOf("YOUTU.BE", {'/', '?', '#', '[', ']'}) && Visible("YOUTU.BE");
    assert "https://" + "YOUTU.BE" + path + "?" + query == "https://YOUTU.BE/" + id + "?si=" + si;
    ParseHttpsLink("YOUTU.BE", path, query);
  }

  lemma UpperCaseHost(parsed: ParsedUrl)
    requires parsed.netloc == "YOUTU.BE"
    ensures HostAllowed(parsed)
  {
    HostnameOfPlain("YOUTU.BE", "youtu.be");
  }

  /** `si=<token>` with no `&` in the token has no `v` value. */
  lemma NoVInShareQuery(si: string)
    requires NoneOf(si, {'&'})
    ensures FirstQueryValue("si=" + si, "v") == None
  {
    var query := "si=" + si;
    assert '&' !in query by {
      forall j | 3 <= j < |query| ensures query[j] == si[j - 3] { }
    }
    assert Split(query, '&') == [query];
    assert query[2] == '=';
    assert IndexOf(query, '=') == 2;
    assert BeforeFirst(query, '=') == "si";
    assert Replace("si", '+', ' ') == "si";
  }
}
