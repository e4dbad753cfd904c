/** The YouTube helpers of src/extractor.py: finding the video id in a URL with
    the search `(?:v=|\/)([0-9A-Za-z_-]{11}).*`, and joining a fetched
    transcript into one text. */
module Extractor {
  import opened Wrappers
  import opened Strings

  /** The id group matches exactly this many characters. */
  const IdLength: nat := 11

  /** The character class `[0-9A-Za-z_-]` (the final `-` is a literal hyphen). */
  predicate IsIdChar(c: char)
  {
    ('0' <= c <= '9') || ('A' <= c <= 'Z') || ('a' <= c <= 'z') || c == '_' || c == '-'
  }

  predicate IsId(s: string)
  {
    |s| == IdLength && forall i :: 0 <= i < |s| ==> IsIdChar(s[i])
  }

  /** Length of the prefix alternation `v=|/` matched at position `p`: 2 for `v=`,
      1 for `/`, 0 when neither matches. At one position at most one branch can. */
  function PrefixLength(url: string, p: nat): (n: nat)
    ensures n <= 2
    ensures n == 2 ==> p + 2 <= |url| && url[p..p + 2] == "v="
    ensures n == 1 ==> p < |url| && url[p] == '/'
    ensures n == 0 ==> !(p < |url| && url[p] == '/') && !(p + 2 <= |url| && url[p..p + 2] == "v=")
  {
    if p + 2 <= |url| && url[p] == 'v' && url[p + 1] == '=' then 2
    else if p < |url| && url[p] == '/' then 1
    else 0
  }

  /** Eleven id characters start at index `k`. */
  predicate IdRunAt(url: string, k: nat)
  {
    k + IdLength <= |url| && forall j :: k <= j < k + IdLength ==> IsIdChar(url[j])
  }

  /** The whole pattern matches when the search tries position `p`. The trailing
      `.*` matches any rest of the line, even an empty one, so it never decides. */
  predicate MatchesAt(url: string, p: nat)
  {
    PrefixLength(url, p) > 0 && IdRunAt(url, p + PrefixLength(url, p))
  }

  /** The text captured by group 1 for a match at `p`. */
  function IdAt(url: string, p: nat): (id: string)
    requires MatchesAt(url, p)
    ensures IsId(id)
  {
    var k := p + PrefixLength(url, p);
    url[k..k + IdLength]
  }

  /** The search loop: try positions `from`, `from + 1`, ... and stop at the
      first one where the pattern matches. */
  function FirstMatch(url: string, from: nat): (r: Option<nat>)
    ensures r.Some? ==> from <= r.value < |url| && MatchesAt(url, r.value)
    ensures r.Some? ==> forall q :: from <= q < r.value ==> !MatchesAt(url, q)
    ensures r.None? <==> forall q :: from <= q < |url| ==> !MatchesAt(url, q)
    decreases |url| - from
  {
    if from >= |url| then None
    else if MatchesAt(url, from) then Some(from)
    else FirstMatch(url, from + 1)
  }

  /** `get_video_id`: group 1 of the leftmost match, or `None` when the search fails. */
  function GetVideoId(url: string): (r: Option<string>)
    ensures r.Some? ==> IsId(r.value)
    ensures r.Some? ==> exists p :: 0 <= p < |url| && MatchesAt(url, p) && r.value == IdAt(url, p)
    ensures r.None? <==> forall p :: 0 <= p < |url| ==> !MatchesAt(url, p)
  {
    match FirstMatch(url, 0)
    case None => None
    case Some(p) => Some(IdAt(url, p))
  }

  /** `id` occupies `url[k..k + 11]` and is immediately preceded by `/` or by `v=`. */
  predicate FollowsPrefixAt(url: string, id: string, k: nat)
  {
    1 <= k && k + IdLength <= |url| && url[k..k + IdLength] == id
    && (url[k - 1] == '/' || (k >= 2 && url[k - 2..k] == "v="))
  }

  /** The id is a contiguous part of the URL that comes right after `v=` or `/`. */
  lemma VideoIdFollowsPrefix(url: string)
    requires GetVideoId(url).Some?
    ensures exists k :: FollowsPrefixAt(url, GetVideoId(url).value, k)
  {
    var p := FirstMatch(url, 0).value;
    var k := p + PrefixLength(url, p);
    assert FollowsPrefixAt(url, GetVideoId(url).value, k);
  }

  /** Leftmost match: if the pattern matches at `p` and at no earlier position,
      the id is the one captured at `p`. */
  lemma VideoIdIsLeftmost(url: string, p: nat)
    requires MatchesAt(url, p)
    requires forall q :: 0 <= q < p ==> !MatchesAt(url, q)
    ensures GetVideoId(url) == Some(IdAt(url, p))
  {
    assert p < |url|;
  }

  /** MatchesAt looks at nothing beyond the id it captures, so two URLs that
      agree up to index `e` match alike at every position whose id ends by `e`. */
  lemma MatchesAtAgree(a: string, b: string, q: nat, e: nat)
    requires e <= |a| && e <= |b| && a[..e] == b[..e]
    requires q + 2 <= e
    requires q + PrefixLength(a, q) + IdLength <= e
    ensures PrefixLength(a, q) == PrefixLength(b, q)
    ensures MatchesAt(a, q) <==> MatchesAt(b, q)
    ensures MatchesAt(a, q) ==> IdAt(a, q) == IdAt(b, q)
  {
    assert a[q] == a[..e][q] == b[..e][q] == b[q];
    assert a[q + 1] == a[..e][q + 1] == b[..e][q + 1] == b[q + 1];
    var k := q + PrefixLength(a, q);
    forall j | k <= j < k + IdLength
      ensures a[j] == b[j]
    {
      assert a[j] == a[..e][j] == b[..e][j] == b[j];
    }
    assert a[k..k + IdLength] == b[k..k + IdLength];
  }

  /** Only the first eleven id characters are taken and whatever follows the
      captured id is ignored: with the leftmost match at `p`, replacing the
      rest of the URL after its id changes nothing. */
  lemma VideoIdIgnoresRest(url: string, tail: string, p: nat)
    requires MatchesAt(url, p) && forall q :: 0 <= q < p ==> !MatchesAt(url, q)
    ensures p + PrefixLength(url, p) + IdLength <= |url|
    ensures GetVideoId(url[..p + PrefixLength(url, p) + IdLength] + tail) == GetVideoId(url)
  {
    var e := p + PrefixLength(url, p) + IdLength;
    var u := url[..e] + tail;
    assert u[..e] == url[..e];
    SameLeftmostMatch(url, u, p, e);
  }

  /** Two URLs that agree up to the end `e` of the leftmost match of the
      first yield the same id. */
  lemma SameLeftmostMatch(a: string, b: string, p: nat, e: nat)
    requires MatchesAt(a, p) && forall q :: 0 <= q < p ==> !MatchesAt(a, q)
    requires e == p + PrefixLength(a, p) + IdLength
    requires e <= |a| && e <= |b| && a[..e] == b[..e]
    ensures GetVideoId(b) == GetVideoId(a)
  {
    NoEarlierMatchKept(a, b, p, e);
    MatchesAtAgree(a, b, p, e);
    VideoIdIsLeftmost(b, p);
    VideoIdIsLeftmost(a, p);
  }

  /** Positions before a match at `p` that fail in `a` also fail in any `b`
      that agrees with `a` up to the end `e` of that match. */
  lemma NoEarlierMatchKept(a: string, b: string, p: nat, e: nat)
    requires e <= |a| && e <= |b| && a[..e] == b[..e]
    requires MatchesAt(a, p) && e == p + PrefixLength(a, p) + IdLength
    requires forall q :: 0 <= q < p ==> !MatchesAt(a, q)
    ensures forall q :: 0 <= q < p ==> !MatchesAt(b, q)
  {
    forall q | 0 <= q < p
      ensures !MatchesAt(b, q)
    {
      MatchesAtAgree(a, b, q, e);
    }
  }

  /** A position holding neither `/` nor `v` cannot start a match. */
  lemma NoPrefixNoMatch(url: string, q: nat)
    requires q < |url| && url[q] != '/' && url[q] != 'v'
    ensures !MatchesAt(url, q)
  {
  }

  /** A `/` followed, within eleven characters, by a non-id character cannot start a match. */
  lemma BrokenRunNoMatch(url: string, q: nat, j: nat)
    requires q < j <= q + IdLength && j < |url|
    requires url[q] == '/' && !IsIdChar(url[j])
    ensures !MatchesAt(url, q)
  {
  }

  /** The id captured at a match is `id` when the URL spells `id` character
      by character after the prefix. */
  lemma IdAtSpells(url: string, p: nat, id: string)
    requires MatchesAt(url, p) && |id| == IdLength
    requires forall j :: 0 <= j < IdLength ==> url[p + PrefixLength(url, p) + j] == id[j]
    ensures IdAt(url, p) == id
  {
    var k := p + PrefixLength(url, p);
    forall j | 0 <= j < IdLength
      ensures IdAt(url, p)[j] == id[j]
    {
      assert IdAt(url, p)[j] == url[k + j];
    }
  }

  // Worked examples. Each example URL is a constant; the example lemma takes
  // a URL equal to it, so that the search is reasoned about through the
  // lemmas above instead of being unfolded position by position.

  const LongRun := "/abcdefghijklmnop"
  const ShortLink := "https://youtu.be/dQw4w9WgXcQ"
  const WatchLink := "https://www.youtube.com/watch?v=dQw4w9WgXcQ"
  const NoCookieLink := "//youtube-nocookie.com/embed/dQw4w9WgXcQ"

  /** A run longer than eleven id characters yields only its first eleven. */
  lemma LongRunExample(url: string)
    requires url == LongRun
    ensures GetVideoId(url) == Some("abcdefghijk")
  {
    LongRunMatch();
    VideoIdIsLeftmost(url, 0);
  }

  lemma LongRunMatch()
    ensures MatchesAt(LongRun, 0) && IdAt(LongRun, 0) == "abcdefghijk"
  {
    assert PrefixLength(LongRun, 0) == 1;
    IdAtSpells(LongRun, 0, "abcdefghijk");
  }

  /** A short link: the `/` candidates of `//` and of `/youtu.be` are rejected
      because a `/` or `.` comes within eleven characters; the id after the
      last `/` is found. */
  lemma ShortLinkExample(url: string)
    requires url == ShortLink
    ensures GetVideoId(url) == Some("dQw4w9WgXcQ")
  {
    ShortLinkEarlierPositions();
    ShortLinkMatch();
    VideoIdIsLeftmost(url, 16);
  }

  lemma ShortLinkMatch()
    ensures MatchesAt(ShortLink, 16) && IdAt(ShortLink, 16) == "dQw4w9WgXcQ"
  {
    assert PrefixLength(ShortLink, 16) == 1;
    IdAtSpells(ShortLink, 16, "dQw4w9WgXcQ");
  }

  lemma ShortLinkEarlierPositions()
    ensures forall q :: 0 <= q < 16 ==> !MatchesAt(ShortLink, q)
  {
    forall q | 0 <= q < 16
      ensures !MatchesAt(ShortLink, q)
    {
      if q == 6 {
        BrokenRunNoMatch(ShortLink, 6, 7);
      } else if q == 7 {
        BrokenRunNoMatch(ShortLink, 7, 13);
      } else {
        NoPrefixNoMatch(ShortLink, q);
      }
    }
  }

  /** A watch link: the `v=` before the id is the first position that matches. */
  lemma WatchLinkExample(url: string)
    requires url == WatchLink
    ensures GetVideoId(url) == Some("dQw4w9WgXcQ")
  {
    WatchLinkEarlierPositions();
    WatchLinkMatch();
    VideoIdIsLeftmost(url, 30);
  }

  lemma WatchLinkMatch()
    ensures MatchesAt(WatchLink, 30) && IdAt(WatchLink, 30) == "dQw4w9WgXcQ"
  {
    WatchLinkRun();
    IdAtSpells(WatchLink, 30, "dQw4w9WgXcQ");
  }

  lemma WatchLinkEarlierPositions()
    ensures forall q :: 0 <= q < 30 ==> !MatchesAt(WatchLink, q)
  {
    forall q | 0 <= q < 30
      ensures !MatchesAt(WatchLink, q)
    {
      if q == 6 {
        BrokenRunNoMatch(WatchLink, 6, 7);
      } else if q == 7 {
        BrokenRunNoMatch(WatchLink, 7, 11);
      } else if q == 23 {
        BrokenRunNoMatch(WatchLink, 23, 29);
      } else {
        NoPrefixNoMatch(WatchLink, q);
      }
    }
  }

  lemma WatchLinkRun()
    ensures PrefixLength(WatchLink, 30) == 2 && MatchesAt(WatchLink, 30)
  {
    assert PrefixLength(WatchLink, 30) == 2;
  }

  /** The search does not know host names: a host of eleven or more id
      characters right after `//` (a hyphenated one such as
      `youtube-nocookie.com` in a protocol-relative embed link) is taken as the id. */
  lemma HostNameExample(url: string)
    requires url == NoCookieLink
    ensures GetVideoId(url) == Some("youtube-noc")
  {
    BrokenRunNoMatch(NoCookieLink, 0, 1);
    NoCookieLinkMatch();
    VideoIdIsLeftmost(url, 1);
  }

  /** The second `/` starts a match whose id is the start of the host name. */
  lemma NoCookieLinkMatch()
    ensures MatchesAt(NoCookieLink, 1) && IdAt(NoCookieLink, 1) == "youtube-noc"
  {
    NoCookieLinkRun();
    NoCookieLinkSpells();
    IdAtSpells(NoCookieLink, 1, "youtube-noc");
  }

  lemma NoCookieLinkSpells()
    ensures forall j :: 0 <= j < 11 ==> NoCookieLink[2 + j] == "youtube-noc"[j]
  {
  }

  lemma NoCookieLinkRun()
    ensures PrefixLength(NoCookieLink, 1) == 1 && MatchesAt(NoCookieLink, 1)
  {
    assert PrefixLength(NoCookieLink, 1) == 1;
  }

  // ---------------------------------------------------------------------------
  // get_transcript

  /** One entry of the fetched transcript list. `text` is `None` when the entry
      has no `'text'` key. */
  datatype Segment = Segment(text: Option<string>)

  /** Prefix of every error value `get_transcript` returns. */
  const ErrorPrefix := "Error: "

  /** `str(e)` for the `KeyError` raised by `item['text']` on an entry without text. */
  const MissingTextMessage := "'text'"

  /** The list comprehension over the fetched entries: their texts in order, or
      `None` when some entry has no text (the comprehension raises). */
  function Texts(segments: seq<Segment>): (r: Option<seq<string>>)
    ensures r.Some? <==> forall i :: 0 <= i < |segments| ==> segments[i].text.Some?
    ensures r.Some? ==> |r.value| == |segments|
    ensures r.Some? ==> forall i :: 0 <= i < |segments| ==> r.value[i] == segments[i].text.value
    decreases |segments|
  {
    if |segments| == 0 then Some([])
    else match segments[0].text
      case None => None
      case Some(t) =>
        match Texts(segments[1..])
        case None => None
        case Some(rest) => Some([t] + rest)
  }

  /** `get_transcript`. The library fetch is the parameter `fetch`: the entry
      list it returned, or the message of the exception it raised. Any
      exception, including a missing `'text'` key, becomes `"Error: " + message`. */
  function GetTranscript(fetch: Result<seq<Segment>>): (r: string)
    ensures fetch.Ok? && Texts(fetch.value).Some? ==> r == Join(Texts(fetch.value).value, " ")
    ensures fetch.Raised? ==> r == ErrorPrefix + fetch.message
    ensures fetch.Ok? && Texts(fetch.value).None? ==> r == ErrorPrefix + MissingTextMessage
  {
    match fetch
    case Raised(message) => ErrorPrefix + message
    case Ok(segments) =>
      match Texts(segments)
      case None => ErrorPrefix + MissingTextMessage
      case Some(texts) => Join(texts, " ")
  }

  /** Every failure value begins with `"Error: "`. */
  lemma TranscriptFailureIsMarked(fetch: Result<seq<Segment>>)
    requires fetch.Raised? || Texts(fetch.value).None?
    ensures |GetTranscript(fetch)| >= |ErrorPrefix|
    ensures GetTranscript(fetch)[..|ErrorPrefix|] == ErrorPrefix
  {
  }

  /** On success the transcript is the entries' texts in their original order,
      separated by exactly one space, and nothing else. */
  lemma TranscriptIsOrderedJoin(segments: seq<Segment>)
    requires forall i :: 0 <= i < |segments| ==> segments[i].text.Some?
    ensures Texts(segments).Some?
    ensures LaidOut(GetTranscript(Ok(segments)), Texts(segments).value, " ")
  {
    JoinLaysOut(Texts(segments).value, " ");
  }
}
