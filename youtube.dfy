/** The two string parsers of the course service: recognising a YouTube
    playlist or video URL, and reading an ISO 8601 duration
    ("PT1H30M45S") into seconds.  Both are unanchored regular-expression
    searches, modelled as "the leftmost position where the pattern
    matches" plus the text its capturing group takes there. */
module YouTube {
  import opened Wrappers
  import opened Text
  import opened Models

  /** The character class `[a-zA-Z0-9_-]` of YouTube ids. */
  predicate IsIdChar(c: char) {
    ('a' <= c <= 'z') || IsUpper(c) || IsDigit(c) || c == '_' || c == '-'
  }

  /** Which greedy run a pattern reads: `[a-zA-Z0-9_-]+` or `\d+`. */
  datatype CharClass = IdChars | Digits

  predicate InClass(c: char, cls: CharClass) {
    match cls
    case IdChars => IsIdChar(c)
    case Digits => IsDigit(c)
  }

  /** End of the longest run of `cls` characters starting at `i`. */
  function RunEnd(s: string, i: nat, cls: CharClass): (j: nat)
    requires i <= |s|
    ensures i <= j <= |s|
    ensures forall k :: i <= k < j ==> InClass(s[k], cls)
    ensures j == |s| || !InClass(s[j], cls)
    decreases |s| - i
  {
    if i < |s| && InClass(s[i], cls) then RunEnd(s, i + 1, cls) else i
  }

  /** A run that stops at `j` ends at `j`: the greedy run is the maximal one. */
  lemma {:induction false} RunEndAt(s: string, i: nat, j: nat, cls: CharClass)
    requires i <= j <= |s|
    requires forall k :: i <= k < j ==> InClass(s[k], cls)
    requires j == |s| || !InClass(s[j], cls)
    ensures RunEnd(s, i, cls) == j
    decreases j - i
  {
    if i < j {
      RunEndAt(s, i + 1, j, cls);
    }
  }

  const WatchPrefix: string := "youtube.com/watch?v="
  const ShortPrefix: string := "youtu.be/"
  const EmbedPrefix: string := "youtube.com/embed/"
  const VPrefix: string := "youtube.com/v/"

  /** The patterns the course service searches for.
      - `ListParam`: `[?&]list=([a-zA-Z0-9_-]+)`
      - `WatchOrShort`: `(?:youtube\.com/watch\?v=|youtu\.be/)([a-zA-Z0-9_-]{11})`
      - `EmbedPath`: `youtube\.com/embed/([a-zA-Z0-9_-]{11})`
      - `VPath`: `youtube\.com/v/([a-zA-Z0-9_-]{11})`
      - `Designator(d)`: `(\d+)d` for d in H, M, S */
  datatype Pattern = ListParam | WatchOrShort | EmbedPath | VPath | Designator(d: char)

  /** The three video patterns each capture exactly eleven characters. */
  predicate IsVideoPattern(p: Pattern) {
    p.WatchOrShort? || p.EmbedPath? || p.VPath?
  }

  /** Eleven id characters start at `j`. */
  predicate IdAt(s: string, j: int) {
    0 <= j && j + 11 <= |s| && forall k :: j <= k < j + 11 ==> IsIdChar(s[k])
  }

  /** The pattern matches with its match starting at `i`.  A greedy run
      followed by a fixed character matches only if the maximal run is
      followed by it, since giving characters back leaves a run character
      in that place. */
  predicate MatchesAt(p: Pattern, s: string, i: nat) {
    match p
    case ListParam =>
      i + 6 < |s| && (s[i] == '?' || s[i] == '&') && s[i + 1..i + 6] == "list=" && IsIdChar(s[i + 6])
    case WatchOrShort =>
      (OccursAt(s, WatchPrefix, i) && IdAt(s, i + 20)) || (OccursAt(s, ShortPrefix, i) && IdAt(s, i + 9))
    case EmbedPath => OccursAt(s, EmbedPrefix, i) && IdAt(s, i + 18)
    case VPath => OccursAt(s, VPrefix, i) && IdAt(s, i + 14)
    case Designator(d) =>
      i < |s| && IsDigit(s[i]) && RunEnd(s, i, Digits) < |s| && s[RunEnd(s, i, Digits)] == d
  }

  /** `re.search`: the leftmost position at or after `from` where `p` matches. */
  function FirstMatch(p: Pattern, s: string, from: nat): Option<nat>
    requires from <= |s|
    decreases |s| - from
  {
    if MatchesAt(p, s, from) then Some(from)
    else if from == |s| then None
    else FirstMatch(p, s, from + 1)
  }

  /** The search finds the leftmost match, and finds nothing only when
      there is no match at all. */
  lemma {:induction false} FirstMatchMeaning(p: Pattern, s: string, from: nat)
    requires from <= |s|
    ensures FirstMatch(p, s, from).Some? ==>
      var i := FirstMatch(p, s, from).value;
      from <= i <= |s| && MatchesAt(p, s, i) && forall j :: from <= j < i ==> !MatchesAt(p, s, j)
    ensures FirstMatch(p, s, from).None? ==> forall j :: from <= j <= |s| ==> !MatchesAt(p, s, j)
    decreases |s| - from
  {
    if !MatchesAt(p, s, from) && from < |s| {
      assert FirstMatch(p, s, from) == FirstMatch(p, s, from + 1);
      FirstMatchMeaning(p, s, from + 1);
    }
  }

  /** A match with no match before it is the one the search returns. */
  lemma FirstMatchAt(p: Pattern, s: string, i: nat)
    requires i <= |s| && MatchesAt(p, s, i)
    requires forall j :: 0 <= j < i ==> !MatchesAt(p, s, j)
    ensures FirstMatch(p, s, 0) == Some(i)
  {
    FirstMatchMeaning(p, s, 0);
  }

  /** `match.group(1)`: the text the capturing group takes. */
  function Group(p: Pattern, s: string, i: nat): (g: string)
    requires MatchesAt(p, s, i)
    ensures |g| >= 1
    ensures p.Designator? ==> AllDigits(g)
    ensures !p.Designator? ==> forall k :: 0 <= k < |g| ==> IsIdChar(g[k])
    ensures IsVideoPattern(p) ==> |g| == 11
  {
    match p
    case ListParam => s[i + 6..RunEnd(s, i + 6, IdChars)]
    case WatchOrShort => if OccursAt(s, WatchPrefix, i) && IdAt(s, i + 20) then s[i + 20..i + 31] else s[i + 9..i + 20]
    case EmbedPath => s[i + 18..i + 29]
    case VPath => s[i + 14..i + 25]
    case Designator(_) => s[i..RunEnd(s, i, Digits)]
  }

  /** `re.search(p, s)` followed by `.group(1)`. */
  function Search(p: Pattern, s: string): (r: Option<string>)
    ensures r.None? <==> forall j :: 0 <= j <= |s| ==> !MatchesAt(p, s, j)
    ensures r.Some? ==> r.value != []
    ensures r.Some? && !p.Designator? ==> forall k :: 0 <= k < |r.value| ==> IsIdChar(r.value[k])
    ensures r.Some? && IsVideoPattern(p) ==> |r.value| == 11
  {
    FirstMatchMeaning(p, s, 0);
    match FirstMatch(p, s, 0)
    case None => None
    case Some(i) => Some(Group(p, s, i))
  }

  /** The video patterns, in the order they are tried. */
  const VideoPatterns: seq<Pattern> := [WatchOrShort, EmbedPath, VPath]

  /** The id from the first of `patterns` that matches anywhere in `url`. */
  function SearchFirst(patterns: seq<Pattern>, url: string): (r: Option<string>)
    ensures r.None? <==> forall k, j :: 0 <= k < |patterns| && 0 <= j <= |url| ==> !MatchesAt(patterns[k], url, j)
    ensures r.Some? ==> r.value != []
    ensures r.Some? && (forall k :: 0 <= k < |patterns| ==> IsVideoPattern(patterns[k])) ==>
      |r.value| == 11 && forall k :: 0 <= k < 11 ==> IsIdChar(r.value[k])
  {
    if patterns == [] then None
    else match Search(patterns[0], url)
      case Some(id) => Some(id)
      case None => SearchFirst(patterns[1..], url)
  }

  /** The patterns are tried in order: a found id is the group of the
      first pattern that matches anywhere, all earlier ones matching
      nowhere. */
  lemma {:induction false} SearchFirstOrder(patterns: seq<Pattern>, url: string)
    ensures var r := SearchFirst(patterns, url);
      r.Some? ==> exists k :: 0 <= k < |patterns| && Search(patterns[k], url) == r &&
                    forall k' :: 0 <= k' < k ==> Search(patterns[k'], url).None?
  {
    if patterns != [] && Search(patterns[0], url).None? {
      SearchFirstOrder(patterns[1..], url);
      var r := SearchFirst(patterns, url);
      if r.Some? {
        var k :| 0 <= k < |patterns[1..]| && Search(patterns[1..][k], url) == r &&
                 forall k' :: 0 <= k' < k ==> Search(patterns[1..][k'], url).None?;
        assert Search(patterns[k + 1], url) == r;
        assert forall k' :: 0 <= k' < k + 1 ==> Search(patterns[k'], url).None? by {
          forall k' | 0 <= k' < k + 1 ensures Search(patterns[k'], url).None? {
            if k' > 0 { assert patterns[k'] == patterns[1..][k' - 1]; }
          }
        }
      }
    }
  }

  /** `parse_youtube_url`: a `list=` query parameter wins; otherwise the
      first video pattern that matches gives an 11-character video id;
      otherwise the URL is rejected with `ValueError`. */
  function ParseYoutubeUrl(url: string): (r: Result<(string, PlaylistType), string>)
    ensures r.Ok? ==> r.value.0 != [] && forall k :: 0 <= k < |r.value.0| ==> IsIdChar(r.value.0[k])
    ensures r.Ok? && r.value.1 == SingleVideo ==> |r.value.0| == 11
    ensures r.Err? ==> r.error == "Could not parse YouTube URL: " + url
  {
    match Search(ListParam, url)
    case Some(id) => Ok((id, WholePlaylist))
    case None =>
      match SearchFirst(VideoPatterns, url)
      case Some(id) => Ok((id, SingleVideo))
      case None => Err("Could not parse YouTube URL: " + url)
  }

  /** Any `?list=` or `&list=` parameter makes the URL a playlist, even a
      watch URL; the id is the maximal run of id characters after the
      leftmost `list=` parameter in the URL. */
  lemma ListParamWins(url: string, j: nat)
    requires j <= |url| && MatchesAt(ListParam, url, j)
    ensures var r := ParseYoutubeUrl(url);
      && r.Ok? && r.value.1 == WholePlaylist
      && exists i :: 0 <= i <= j && MatchesAt(ListParam, url, i) && r.value.0 == url[i + 6..RunEnd(url, i + 6, IdChars)]
                     && forall k :: 0 <= k < i ==> !MatchesAt(ListParam, url, k)
  {
    FirstMatchMeaning(ListParam, url, 0);
  }

  /** A URL is rejected exactly when none of the four patterns matches
      anywhere in it. */
  lemma ParseFailsIff(url: string)
    ensures ParseYoutubeUrl(url).Err? <==>
      forall p, j :: p in [ListParam] + VideoPatterns && 0 <= j <= |url| ==> !MatchesAt(p, url, j)
  {
    var ps := [ListParam] + VideoPatterns;
    if ParseYoutubeUrl(url).Err? {
      forall p, j | p in ps && 0 <= j <= |url| ensures !MatchesAt(p, url, j) {
        if p != ListParam {
          var k :| 0 <= k < |VideoPatterns| && VideoPatterns[k] == p;
        }
      }
    } else if Search(ListParam, url).None? {
      var k, j :| 0 <= k < |VideoPatterns| && 0 <= j <= |url| && MatchesAt(VideoPatterns[k], url, j);
      assert VideoPatterns[k] in ps;
    }
  }

  /** A playlist link `<pre>?list=<id><rest>` yields `id` when nothing
      before it is a `?` or `&` and `rest` does not continue the id. */
  lemma PlaylistUrlRoundTrip(pre: string, id: string, rest: string)
    requires id != [] && forall k :: 0 <= k < |id| ==> IsIdChar(id[k])
    requires forall k :: 0 <= k < |pre| ==> pre[k] != '?' && pre[k] != '&'
    requires rest == [] || !IsIdChar(rest[0])
    ensures ParseYoutubeUrl(pre + "?list=" + id + rest) == Ok((id, WholePlaylist))
  {
    var url := pre + "?list=" + id + rest;
    var i := |pre|;
    assert url[i] == '?';
    assert url[i + 1..i + 6] == "list=";
    assert url[i + 6] == id[0];
    forall k | i + 6 <= k < i + 6 + |id| ensures IsIdChar(url[k]) {
      assert url[k] == id[k - i - 6];
    }
    if rest != [] {
      assert url[i + 6 + |id|] == rest[0];
    }
    RunEndAt(url, i + 6, i + 6 + |id|, IdChars);
    forall j | 0 <= j < i ensures !MatchesAt(ListParam, url, j) {
      assert url[j] == pre[j];
    }
    FirstMatchAt(ListParam, url, i);
    assert url[i + 6..i + 6 + |id|] == id;
  }

  /** A short link `<pre>youtu.be/<id><rest>` yields the 11-character
      `id` when the link has no query string (no `?` or `&`) and no 'y'
      comes before the host. */
  lemma ShortUrlRoundTrip(pre: string, id: string, rest: string)
    requires |id| == 11 && forall k :: 0 <= k < 11 ==> IsIdChar(id[k])
    requires forall k :: 0 <= k < |pre| ==> pre[k] != '?' && pre[k] != '&' && pre[k] != 'y'
    requires forall k :: 0 <= k < |rest| ==> rest[k] != '?' && rest[k] != '&'
    ensures ParseYoutubeUrl(pre + ShortPrefix + id + rest) == Ok((id, SingleVideo))
  {
    var url := pre + ShortPrefix + id + rest;
    var i := |pre|;
    forall j | 0 <= j <= |url| ensures !MatchesAt(ListParam, url, j) {
      if j < i {
        assert url[j] == pre[j];
      } else if j < i + 9 {
        assert url[j] == ShortPrefix[j - i];
      } else if j < i + 20 {
        assert url[j] == id[j - i - 9];
      } else if j < |url| {
        assert url[j] == rest[j - i - 20];
      }
    }
    assert Search(ListParam, url).None?;
    assert url[i..i + 9] == ShortPrefix;
    forall k | i + 9 <= k < i + 20 ensures IsIdChar(url[k]) {
      assert url[k] == id[k - i - 9];
    }
    assert MatchesAt(WatchOrShort, url, i);
    forall j | 0 <= j < i ensures !MatchesAt(WatchOrShort, url, j) {
      assert url[j] == pre[j];
      assert WatchPrefix[0] == 'y' && ShortPrefix[0] == 'y';
    }
    FirstMatchAt(WatchOrShort, url, i);
    assert !OccursAt(url, WatchPrefix, i) by {
      assert url[i + 5] == '.';
    }
    assert url[i + 9..i + 20] == id;
  }

  /** `parse_duration`'s reading of one component: the number before the
      first `d` designator, 0 when there is none. */
  function Component(s: string, d: char): (n: nat)
    ensures n > 0 ==> exists i :: 0 <= i <= |s| && MatchesAt(Designator(d), s, i)
  {
    match Search(Designator(d), s)
    case None => 0
    case Some(g) => DecimalValue(g)
  }

  /** `parse_duration`: hours, minutes and seconds designators, each
      read independently, anywhere in the string; other designators (a
      day count) are ignored and an absent component counts as 0. */
  function ParseDuration(s: string): (seconds: nat)
    ensures seconds == 0 <==> Component(s, 'H') == 0 && Component(s, 'M') == 0 && Component(s, 'S') == 0
    ensures seconds >= 3600 * Component(s, 'H') + 60 * Component(s, 'M')
  {
    3600 * Component(s, 'H') + 60 * Component(s, 'M') + Component(s, 'S')
  }

  /** The duration string the YouTube API writes for h hours, m minutes
      and s seconds, every component present. */
  function FormatDuration(h: nat, m: nat, s: nat): (r: string)
    ensures |r| >= 8 && r[..2] == "PT" && r[|r| - 1] == 'S'
  {
    "PT" + NatToDecimal(h) + "H" + NatToDecimal(m) + "M" + NatToDecimal(s) + "S"
  }

  /** In `pre + digits + [d] + post`, the designator match for `d`
      starts at the digit run, provided no match for `d` starts in `pre`. */
  lemma DesignatorFound(t: string, pre: string, digits: string, d: char, post: string)
    requires t == pre + digits + [d] + post
    requires digits != [] && AllDigits(digits) && !IsDigit(d)
    requires forall j :: 0 <= j < |pre| ==> !MatchesAt(Designator(d), t, j)
    requires pre == [] || !IsDigit(pre[|pre| - 1])
    ensures Component(t, d) == DecimalValue(digits)
  {
    var i := |pre|;
    var e := i + |digits|;
    forall k | i <= k < e ensures IsDigit(t[k]) {
      assert t[k] == digits[k - i];
    }
    assert t[e] == d;
    RunEndAt(t, i, e, Digits);
    FirstMatchAt(Designator(d), t, i);
    assert t[i..e] == digits;
  }

  /** In a digit run that ends at a designator other than `d`, no match
      for `d` starts. */
  lemma NoMatchInRun(t: string, i: nat, e: nat, d: char)
    requires i <= e < |t| && forall k :: i <= k < e ==> IsDigit(t[k])
    requires !IsDigit(t[e]) && t[e] != d
    ensures forall j :: i <= j < e ==> !MatchesAt(Designator(d), t, j)
  {
    forall j | i <= j < e ensures RunEnd(t, j, Digits) == e {
      RunEndAt(t, j, e, Digits);
    }
  }

  /** The hours run of a formatted duration is read as the hours. */
  lemma HoursOf(a: string, b: string, c: string)
    requires a != [] && AllDigits(a) && b != [] && AllDigits(b) && c != [] && AllDigits(c)
    ensures Component("PT" + a + "H" + b + "M" + c + "S", 'H') == DecimalValue(a)
  {
    var t := "PT" + a + "H" + b + "M" + c + "S";
    assert t == "PT" + a + ['H'] + (b + "M" + c + "S");
    DesignatorFound(t, "PT", a, 'H', b + "M" + c + "S");
  }

  /** The minutes run is read as the minutes: the hours run before it
      ends at 'H'. */
  lemma MinutesOf(a: string, b: string, c: string)
    requires a != [] && AllDigits(a) && b != [] && AllDigits(b) && c != [] && AllDigits(c)
    ensures Component("PT" + a + "H" + b + "M" + c + "S", 'M') == DecimalValue(b)
  {
    var t := "PT" + a + "H" + b + "M" + c + "S";
    var pre := "PT" + a + "H";
    assert t == pre + b + ['M'] + (c + "S");
    forall k | 2 <= k < 2 + |a| ensures IsDigit(t[k]) {
      assert t[k] == a[k - 2];
    }
    assert t[2 + |a|] == 'H';
    NoMatchInRun(t, 2, 2 + |a|, 'M');
    DesignatorFound(t, pre, b, 'M', c + "S");
  }

  /** The seconds run is read as the seconds: both runs before it end at
      other designators. */
  lemma SecondsOf(a: string, b: string, c: string)
    requires a != [] && AllDigits(a) && b != [] && AllDigits(b) && c != [] && AllDigits(c)
    ensures Component("PT" + a + "H" + b + "M" + c + "S", 'S') == DecimalValue(c)
  {
    var t := "PT" + a + "H" + b + "M" + c + "S";
    var mid := 3 + |a|;
    var pre := "PT" + a + "H" + b + "M";
    assert t == pre + c + ['S'] + [];
    forall k | 2 <= k < 2 + |a| ensures IsDigit(t[k]) {
      assert t[k] == a[k - 2];
    }
    assert t[2 + |a|] == 'H';
    NoMatchInRun(t, 2, 2 + |a|, 'S');
    forall k | mid <= k < mid + |b| ensures IsDigit(t[k]) {
      assert t[k] == b[k - mid];
    }
    assert t[mid + |b|] == 'M';
    NoMatchInRun(t, mid, mid + |b|, 'S');
    DesignatorFound(t, pre, c, 'S', []);
  }

  /** Reading back a formatted duration gives its length in seconds. */
  lemma DurationRoundTrip(h: nat, m: nat, s: nat)
    ensures ParseDuration(FormatDuration(h, m, s)) == 3600 * h + 60 * m + s
  {
    var a, b, c := NatToDecimal(h), NatToDecimal(m), NatToDecimal(s);
    DecimalRoundTrip(h);
    DecimalRoundTrip(m);
    DecimalRoundTrip(s);
    HoursOf(a, b, c);
    MinutesOf(a, b, c);
    SecondsOf(a, b, c);
  }

  /** The documented example: "PT1H30M45S" is 5445 seconds. */
  lemma DurationExample()
    ensures ParseDuration("PT1H30M45S") == 5445
  {
    assert NatToDecimal(30) == "30";
    assert NatToDecimal(45) == "45";
    assert FormatDuration(1, 30, 45) == "PT1H30M45S";
    DurationRoundTrip(1, 30, 45);
  }
}
