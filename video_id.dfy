/** `get_video_id`: validate a URL against the video-site pattern, then take
    the value of the first `v=` parameter in it. */
module VideoId {
  import opened Python

  predicate StartsWith(s: string, p: string) {
    |p| <= |s| && s[..|p|] == p
  }

  predicate NoNewline(s: string) {
    forall k :: 0 <= k < |s| ==> s[k] != '\n'
  }

  // ---------------------------------------------------------------------------
  // The regular expression  (https?://)?(www\.)?(youtube\.com|youtu\.?be)/.+$
  // as a language: the strings `re.match` accepts.
  // ---------------------------------------------------------------------------

  /** `(https?://)?` */
  predicate IsScheme(s: string) {
    s == "" || s == "http://" || s == "https://"
  }

  /** `(www\.)?` */
  predicate IsWww(w: string) {
    w == "" || w == "www."
  }

  /** `(youtube\.com|youtu\.?be)`: the optional dot also admits `youtube`. */
  predicate IsHost(h: string) {
    h == "youtube.com" || h == "youtu.be" || h == "youtube"
  }

  /** `.+$` after the slash: `.` matches any character but a newline, and `$`
      matches at the end of the string or just before a newline that ends it. */
  predicate TailMatches(r: string) {
    || (|r| >= 1 && NoNewline(r))
    || (|r| >= 2 && r[|r| - 1] == '\n' && NoNewline(r[..|r| - 1]))
  }

  function Compose(s: string, w: string, h: string, r: string): string {
    s + (w + (h + "/" + r))
  }

  /** The URL is one that the anchored pattern matches. */
  ghost predicate InPattern(url: string) {
    exists s, w, h, r :: IsScheme(s) && IsWww(w) && IsHost(h) && TailMatches(r) && url == Compose(s, w, h, r)
  }

  // ---------------------------------------------------------------------------
  // A deterministic matcher for the same pattern
  // ---------------------------------------------------------------------------

  function DropScheme(u: string): string {
    if StartsWith(u, "https://") then u[8..]
    else if StartsWith(u, "http://") then u[7..]
    else u
  }

  function DropWww(u: string): string {
    if StartsWith(u, "www.") then u[4..] else u
  }

  /** What follows `host/`, if `u` starts with a host and a slash. */
  function AfterHost(u: string): Option<string> {
    if StartsWith(u, "youtube.com/") then Some(u[12..])
    else if StartsWith(u, "youtu.be/") then Some(u[9..])
    else if StartsWith(u, "youtube/") then Some(u[8..])
    else None
  }

  /** `re.match(r'(https?://)?(www\.)?(youtube\.com|youtu\.?be)/.+$', url)` is not `None`. */
  predicate UrlMatches(url: string) {
    match AfterHost(DropWww(DropScheme(url)))
    case None => false
    case Some(r) => TailMatches(r)
  }

  lemma DropSchemeOf(s: string, t: string)
    requires IsScheme(s) && |t| > 0 && (t[0] == 'w' || t[0] == 'y')
    ensures DropScheme(s + t) == t
  {
    var u := s + t;
    if s == "" {
      assert u == t;
      assert !StartsWith(u, "https://") && !StartsWith(u, "http://") by {
        assert u[0] != 'h';
      }
    } else if s == "http://" {
      assert u[..7] == s && u[7..] == t;
      assert !StartsWith(u, "https://") by {
        assert u[4] == ':';
      }
    } else {
      assert u[..8] == s && u[8..] == t;
    }
  }

  lemma DropWwwOf(w: string, t: string)
    requires IsWww(w) && |t| > 0 && t[0] == 'y'
    ensures DropWww(w + t) == t
  {
    var u := w + t;
    if w == "" {
      assert u == t;
      assert !StartsWith(u, "www.") by {
        assert u[0] != 'w';
      }
    } else {
      assert u[..4] == w && u[4..] == t;
    }
  }

  lemma AfterHostOf(h: string, r: string)
    requires IsHost(h)
    ensures AfterHost(h + "/" + r) == Some(r)
  {
    var u := h + "/" + r;
    if h == "youtube.com" {
      assert u[..12] == "youtube.com/" && u[12..] == r;
    } else if h == "youtu.be" {
      assert u[..9] == "youtu.be/" && u[9..] == r;
      assert !StartsWith(u, "youtube.com/") by {
        assert u[5] != 'b';
      }
    } else {
      assert u[..8] == "youtube/" && u[8..] == r;
      assert !StartsWith(u, "youtube.com/") by {
        assert u[7] != '.';
      }
      assert !StartsWith(u, "youtu.be/") by {
        assert u[5] != '.';
      }
    }
  }

  lemma ComposeMatches(s: string, w: string, h: string, r: string)
    requires IsScheme(s) && IsWww(w) && IsHost(h) && TailMatches(r)
    ensures UrlMatches(Compose(s, w, h, r))
  {
    var hr := h + "/" + r;
    assert hr[0] == 'y';
    DropWwwOf(w, hr);
    var whr := w + hr;
    assert whr[0] == 'w' || whr[0] == 'y';
    DropSchemeOf(s, whr);
    AfterHostOf(h, r);
  }

  lemma SchemeOf(u: string) returns (s: string)
    ensures IsScheme(s) && u == s + DropScheme(u)
  {
    if StartsWith(u, "https://") {
      s := "https://";
      assert u == u[..8] + u[8..];
    } else if StartsWith(u, "http://") {
      s := "http://";
      assert u == u[..7] + u[7..];
    } else {
      s := "";
    }
  }

  lemma WwwOf(u: string) returns (w: string)
    ensures IsWww(w) && u == w + DropWww(u)
  {
    if StartsWith(u, "www.") {
      w := "www.";
      assert u == u[..4] + u[4..];
    } else {
      w := "";
    }
  }

  lemma HostOf(u: string) returns (h: string)
    requires AfterHost(u).Some?
    ensures IsHost(h) && u == h + "/" + AfterHost(u).value
  {
    if StartsWith(u, "youtube.com/") {
      h := "youtube.com";
      assert u == u[..12] + u[12..];
    } else if StartsWith(u, "youtu.be/") {
      h := "youtu.be";
      assert u == u[..9] + u[9..];
    } else {
      h := "youtube";
      assert u == u[..8] + u[8..];
    }
  }

  lemma MatchesCompose(url: string)
    requires UrlMatches(url)
    ensures InPattern(url)
  {
    var t1 := DropScheme(url);
    var s := SchemeOf(url);
    var t2 := DropWww(t1);
    var w := WwwOf(t1);
    var r := AfterHost(t2).value;
    var h := HostOf(t2);
    assert url == Compose(s, w, h, r);
  }

  /** The deterministic matcher accepts exactly the pattern's language. */
  lemma UrlMatchesIff(url: string)
    ensures UrlMatches(url) <==> InPattern(url)
  {
    if InPattern(url) {
      var s, w, h, r :| IsScheme(s) && IsWww(w) && IsHost(h) && TailMatches(r) && url == Compose(s, w, h, r);
      ComposeMatches(s, w, h, r);
    }
    if UrlMatches(url) {
      MatchesCompose(url);
    }
  }

  // ---------------------------------------------------------------------------
  // re.search(r'v=([^&]+)', url).group(1)
  // ---------------------------------------------------------------------------

  /** A match of `v=([^&]+)` can start at index `i` of `u`. */
  predicate QualifiesAt(u: string, i: nat) {
    i + 2 < |u| && u[i] == 'v' && u[i + 1] == '=' && u[i + 2] != '&'
  }

  /** The leftmost index at or after `from` where a match can start. */
  function FirstMatchFrom(u: string, from: nat): (r: Option<nat>)
    requires from <= |u|
    ensures r.Some? ==> from <= r.value && QualifiesAt(u, r.value)
    ensures r.Some? ==> forall j: nat :: from <= j < r.value ==> !QualifiesAt(u, j)
    ensures r.None? ==> forall j: nat :: from <= j ==> !QualifiesAt(u, j)
    decreases |u| - from
  {
    if from + 2 >= |u| then None
    else if QualifiesAt(u, from) then Some(from)
    else FirstMatchFrom(u, from + 1)
  }

  /** Where the greedy `[^&]+` starting at `k` stops: the first `&` at or after
      `k`, or the end of the string. */
  function RunEnd(u: string, k: nat): (e: nat)
    requires k <= |u|
    ensures k <= e <= |u|
    ensures e == |u| || u[e] == '&'
    ensures forall j :: k <= j < e ==> u[j] != '&'
    decreases |u| - k
  {
    if k == |u| || u[k] == '&' then k else RunEnd(u, k + 1)
  }

  /** Group 1 of `re.search(r'v=([^&]+)', u)`, or `None` when there is no match. */
  function SearchId(u: string): Option<string> {
    match FirstMatchFrom(u, 0)
    case None => None
    case Some(i) => Some(u[i + 2..RunEnd(u, i + 2)])
  }

  /** Splits `u` around an extracted id. */
  function Around(prefix: string, id: string, rest: string): string {
    prefix + "v=" + id + rest
  }

  /** `id` is a value that `v=([^&]+)` can capture, ending where the greedy run ends. */
  predicate IsIdRun(id: string, rest: string) {
    |id| > 0 && (forall k :: 0 <= k < |id| ==> id[k] != '&') && (rest == [] || rest[0] == '&')
  }

  /** No match of the pattern starts inside `prefix`. */
  predicate NoEarlierMatch(u: string, prefix: string) {
    forall j: nat :: j < |prefix| ==> !QualifiesAt(u, j)
  }

  /** The search fails exactly when no `v=` is followed by a character other than `&`. */
  lemma SearchIdNone(u: string)
    ensures SearchId(u).None? <==> forall j: nat :: !QualifiesAt(u, j)
  {
  }

  /** A found id is the maximal `&`-free run after the first qualifying `v=`. */
  lemma SearchIdSplit(u: string)
    requires SearchId(u).Some?
    ensures exists prefix, rest :: u == Around(prefix, SearchId(u).value, rest)
                                   && IsIdRun(SearchId(u).value, rest)
                                   && NoEarlierMatch(u, prefix)
  {
    var i := FirstMatchFrom(u, 0).value;
    var e := RunEnd(u, i + 2);
    var id := u[i + 2..e];
    var prefix, rest := u[..i], u[e..];
    assert u == Around(prefix, id, rest);
    assert IsIdRun(id, rest);
    assert NoEarlierMatch(u, prefix);
  }

  /** Conversely, any such split determines the search result. */
  lemma SearchIdOfSplit(prefix: string, id: string, rest: string)
    requires IsIdRun(id, rest)
    requires NoEarlierMatch(Around(prefix, id, rest), prefix)
    ensures SearchId(Around(prefix, id, rest)) == Some(id)
  {
    var u := Around(prefix, id, rest);
    var i := |prefix|;
    assert u[i] == 'v' && u[i + 1] == '=' && u[i + 2] == id[0];
    assert QualifiesAt(u, i);
    var f := FirstMatchFrom(u, 0);
    assert f == Some(i);
    var stop := i + 2 + |id|;
    var e := RunEnd(u, i + 2);
    forall j | i + 2 <= j < stop ensures u[j] != '&' {
      assert u[j] == id[j - i - 2];
    }
    if stop < |u| {
      assert u[stop] == rest[0];
    }
    assert e == stop;
    assert u[i + 2..e] == id;
  }

  /** `get_video_id(url)`. A URL outside the pattern gives `None`; a URL inside
      it with no qualifying `v=` makes `.group(1)` raise. */
  function GetVideoId(url: string): (r: Outcome<Option<string>>)
    ensures !InPattern(url) ==> r == Return(None)
    ensures InPattern(url) && (forall j: nat :: !QualifiesAt(url, j)) ==> r == Raise(AttributeError)
    ensures InPattern(url) && (exists j: nat :: QualifiesAt(url, j)) ==>
              r.Return? && r.value.Some? && r.value == SearchId(url)
    ensures r.Return? && r.value.Some? ==> |r.value.value| > 0 && '&' !in r.value.value
    ensures r.Raise? ==> r.error == AttributeError
  {
    UrlMatchesIff(url);
    SearchIdNone(url);
    if UrlMatches(url) then
      match SearchId(url)
      case None => Raise(AttributeError)
      case Some(id) =>
        SearchIdSplit(url);
        Return(Some(id))
    else
      Return(None)
  }

  /** A prefix without `=` cannot hold the start of a match. */
  lemma NoMatchInPlainPrefix(prefix: string, id: string, rest: string)
    requires forall k :: 0 <= k < |prefix| ==> prefix[k] != '='
    ensures NoEarlierMatch(Around(prefix, id, rest), prefix)
  {
  }

  lemma WatchUrlInPattern(url: string)
    requires url == "https://www.youtube.com/watch?v=abc123"
    ensures InPattern(url)
  {
    assert url == Compose("https://", "www.", "youtube.com", "watch?v=abc123");
    assert TailMatches("watch?v=abc123");
  }

  lemma WatchUrlSearch(url: string)
    requires url == "https://www.youtube.com/watch?v=abc123"
    ensures SearchId(url) == Some("abc123") && QualifiesAt(url, 30)
  {
    var prefix := "https://www.youtube.com/watch?";
    assert url == Around(prefix, "abc123", "");
    NoMatchInPlainPrefix(prefix, "abc123", "");
    SearchIdOfSplit(prefix, "abc123", "");
  }

  /** A watch URL yields its `v` parameter. */
  lemma WatchUrlExample(url: string)
    requires url == "https://www.youtube.com/watch?v=abc123"
    ensures GetVideoId(url) == Return(Some("abc123"))
  {
    WatchUrlInPattern(url);
    WatchUrlSearch(url);
  }

  /** A string that is not a URL gives `None`. */
  lemma NotAUrlExample()
    ensures GetVideoId("not a url") == Return(None)
  {
  }

  lemma ShortLinkInPattern(url: string)
    requires url == "https://youtu.be/abc123"
    ensures InPattern(url)
  {
    assert url == Compose("https://", "", "youtu.be", "abc123");
    assert TailMatches("abc123");
  }

  /** A short link has no `v=`: the code raises instead of returning `None`. */
  lemma ShortLinkRaises(url: string)
    requires url == "https://youtu.be/abc123"
    ensures GetVideoId(url) == Raise(AttributeError)
  {
    ShortLinkInPattern(url);
    assert forall k :: 0 <= k < |url| ==> url[k] != '=';
    assert forall j: nat :: !QualifiesAt(url, j);
  }
}
