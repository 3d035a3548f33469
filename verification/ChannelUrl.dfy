/** Pointing a YouTube channel URL at its uploads (`normalize_channel_index_url` in `ytdlp.rs`). */
module ChannelUrl {
  import opened Text

  predicate IsYoutube(url: string) {
    Contains(Lower(url), "youtube.com") || Contains(Lower(url), "youtu.be")
  }

  /** Where the query or fragment starts, or the end. */
  function BaseLength(url: string): (k: nat)
    ensures k <= |url| && (k < |url| ==> url[k] in {'?', '#'}) && forall i | 0 <= i < k :: url[i] !in {'?', '#'}
  {
    if url == "" || url[0] in {'?', '#'} then 0 else 1 + BaseLength(url[1..])
  }

  /** The path segments, lower-cased; empty ones count for nothing below. */
  function Segments(base: string): seq<string> {
    SplitOn(Lower(base), '/')
  }

  predicate IsChannelForm(segments: seq<string>) {
    exists s | s in segments :: s != "" && (s[0] == '@' || s in {"channel", "c", "user"})
  }

  predicate IsTab(segment: string) {
    segment in {"videos", "streams", "shorts", "playlists", "featured", "community", "about"}
  }

  predicate AlreadyTabbed(segments: seq<string>) {
    exists s | s in segments :: IsTab(s)
  }

  function TrimSlashes(s: string): string {
    if s != "" && s[|s| - 1] == '/' then TrimSlashes(s[..|s| - 1]) else s
  }

  /** A playlist, a single video, or a short link. */
  predicate NamesContent(url: string) {
    Contains(Lower(url), "list=") || Contains(Lower(url), "/watch") || Contains(Lower(url), "youtu.be/")
  }

  predicate IsRewritten(url: string) {
    var segments := Segments(url[..BaseLength(url)]);
    IsYoutube(url) && !NamesContent(url) && IsChannelForm(segments) && !AlreadyTabbed(segments)
  }

  function Normalize(url: string): string {
    var k := BaseLength(url);
    if IsRewritten(url) then TrimSlashes(url[..k]) + "/videos" + url[k..] else url
  }

  // ---------------------------------------------------------------- what it does to a URL

  lemma {:induction false} TrimmedSlashes(s: string) returns (n: nat)
    ensures n <= |s| && TrimSlashes(s) == s[..n] && (forall i | n <= i < |s| :: s[i] == '/')
    ensures n > 0 ==> s[n - 1] != '/'
  {
    n := |s|;
    if s != "" && s[|s| - 1] == '/' {
      n := TrimmedSlashes(s[..|s| - 1]);
    }
  }

  /**
   A rewritten URL differs from the original in one place: `/videos` stands where
   the base had its trailing slashes. Everything from the query or fragment on is
   the same.
   */
  lemma NormalizeOnlyInserts(url: string) returns (n: nat)
    ensures var k := BaseLength(url);
            && n <= k && (forall i | n <= i < k :: url[i] == '/') && (n > 0 ==> url[n - 1] != '/')
            && Normalize(url) == if IsRewritten(url) then url[..n] + "/videos" + url[k..] else url
  {
    var base := url[..BaseLength(url)];
    n := TrimmedSlashes(base);
    assert base[..n] == url[..n];
  }

  lemma {:induction false} SplitLast(a: string, b: string, sep: char)
    requires sep !in b
    ensures SplitOn(a + [sep] + b, sep) == SplitOn(a, sep) + [b]
  {
    if a == "" {
      assert a + [sep] + b == [sep] + b;
      assert ([sep] + b)[1..] == b;
      SplitNothing(b, sep);
    } else {
      var s := a + [sep] + b;
      assert s[0] == a[0] && s[1..] == a[1..] + [sep] + b;
      SplitLast(a[1..], b, sep);
    }
  }

  /** The base of a rewritten URL ends in its new tab. */
  lemma RewrittenIsTabbed(base: string, suffix: string)
    requires forall i | 0 <= i < |base| :: base[i] !in {'?', '#'}
    requires suffix != "" ==> suffix[0] in {'?', '#'}
    ensures var url := base + "/videos" + suffix;
            BaseLength(url) == |base| + 7 && AlreadyTabbed(Segments(url[..BaseLength(url)]))
  {
    var tabbed := base + "/videos";
    var url := tabbed + suffix;
    assert forall i | 0 <= i < |tabbed| :: url[i] == if i < |base| then base[i] else "/videos"[i - |base|];
    assert forall i | 0 <= i < |"/videos"| :: "/videos"[i] !in {'?', '#'};
    assert suffix != "" ==> url[|tabbed|] == suffix[0];
    assert BaseLength(url) == |tabbed| && url[..|tabbed|] == tabbed;
    assert Lower(tabbed) == Lower(base) + ['/'] + "videos";
    SplitLast(Lower(base), "videos", '/');
    var segments := Segments(tabbed);
    assert segments[|segments| - 1] == "videos" && "videos" in segments && IsTab("videos");
  }

  /** Whatever is left alone is not a bare channel: the result of normalizing never is one. */
  lemma {:induction false} NormalizedIsNeverBare(url: string)
    ensures !IsRewritten(Normalize(url))
  {
    if IsRewritten(url) {
      var k := BaseLength(url);
      var n := TrimmedSlashes(url[..k]);
      RewrittenIsTabbed(TrimSlashes(url[..k]), url[k..]);
    }
  }

  /** Normalizing twice is normalizing once, for every string. */
  lemma {:induction false} NormalizeIsIdempotent(url: string)
    ensures Normalize(Normalize(url)) == Normalize(url)
  {
    NormalizedIsNeverBare(url);
  }

  // ---------------------------------------------------------------- which URLs it is for

  const SITE := "https://www.youtube.com"

  lemma LowerConcat(a: string, b: string)
    ensures Lower(a + b) == Lower(a) + Lower(b)
  {}

  ghost predicate LowerCase(s: string) {
    forall i | 0 <= i < |s| :: !('A' <= s[i] <= 'Z') && s[i] !in {'/', '?', '#'}
  }

  lemma LowerStays(s: string)
    requires LowerCase(s)
    ensures Lower(s) == s
  {}

  lemma TwoSlashes(a: string, b: string, c: string)
    requires '/' !in a && '/' !in b && '/' !in c
    ensures SplitOn(a + ['/'] + b + ['/'] + c, '/') == [a, b, c]
  {
    SplitNothing(a, '/');
    SplitLast(a, b, '/');
    SplitLast(a + ['/'] + b, c, '/');
  }

  lemma SiteIsLower()
    ensures Lower(SITE) == SITE
  {}

  lemma SiteSegments()
    ensures Segments(SITE) == ["https:", "", "www.youtube.com"]
  {
    var a, b, c := "https:", "", "www.youtube.com";
    SiteIsLower();
    assert SITE == a + ['/'] + b + ['/'] + c;
    TwoSlashes(a, b, c);
  }

  /** A path segment that is neither a tab nor able to end the base. */
  ghost predicate PlainSegment(s: string) {
    s != "" && !IsTab(Lower(s)) && forall i | 0 <= i < |s| :: s[i] !in {'/', '?', '#'}
  }

  lemma SegmentsAfter(base: string, last: string)
    requires PlainSegment(last)
    ensures Segments(base + "/" + last) == Segments(base) + [Lower(last)]
  {
    LowerConcat(base + "/", last);
    LowerConcat(base, "/");
    assert Lower(base + "/" + last) == Lower(base) + ['/'] + Lower(last);
    assert forall i | 0 <= i < |last| :: LowerChar(last[i]) != '/';
    SplitLast(Lower(base), Lower(last), '/');
  }

  lemma BaseIs(base: string, suffix: string)
    requires forall i | 0 <= i < |base| :: base[i] !in {'?', '#'}
    requires suffix == "" || suffix[0] in {'?', '#'}
    ensures BaseLength(base + suffix) == |base|
    ensures (base + suffix)[..|base|] == base && (base + suffix)[|base|..] == suffix
  {}

  lemma SiteIsYoutube(rest: string)
    ensures IsYoutube(SITE + rest)
  {
    var url := SITE + rest;
    LowerConcat(SITE, rest);
    assert Lower(SITE)[12..] == "youtube.com";
    assert Lower(url)[12..][..11] == Lower(SITE)[12..][..11];
    assert "youtube.com" <= Lower(url)[12..];
  }

  /** A base on the site whose segments name a channel and no tab is rewritten, up to its trailing slashes. */
  lemma ChannelBase(base: string, suffix: string)
    requires SITE <= base && base[|base| - 1] != '/' && forall i | 0 <= i < |base| :: base[i] !in {'?', '#'}
    requires suffix == "" || suffix[0] in {'?', '#'}
    requires !NamesContent(base + suffix) && IsChannelForm(Segments(base)) && !AlreadyTabbed(Segments(base))
    ensures Normalize(base + suffix) == base + "/videos" + suffix
  {
    BaseIs(base, suffix);
    assert base + suffix == SITE + (base[|SITE|..] + suffix);
    SiteIsYoutube(base[|SITE|..] + suffix);
  }

  lemma SiteHasNoTab()
    ensures !AlreadyTabbed(Segments(SITE))
  {
    SiteSegments();
  }

  /** A channel's segment below a path without a tab. */
  lemma FormBelow(above: seq<string>, last: string)
    requires !AlreadyTabbed(above) && !IsTab(last) && last != "" && last[0] == '@'
    ensures IsChannelForm(above + [last]) && !AlreadyTabbed(above + [last])
  {
    assert (above + [last])[|above|] == last;
  }

  lemma HandleSegments(name: string)
    requires PlainSegment(name) && name[0] == '@'
    ensures IsChannelForm(Segments(SITE + "/" + name)) && !AlreadyTabbed(Segments(SITE + "/" + name))
  {
    SiteHasNoTab();
    SegmentsAfter(SITE, name);
    FormBelow(Segments(SITE), Lower(name));
  }

  /** The words before a channel's id, custom name or user name. */
  lemma ChannelWord(word: string)
    requires word in {"channel", "c", "user"}
    ensures PlainSegment(word) && Lower(word) == word
  {
    LowerStays(word);
  }

  lemma NamedSegments(word: string, name: string)
    requires word in {"channel", "c", "user"} && PlainSegment(name)
    ensures var segments := Segments(SITE + "/" + word + "/" + name);
            IsChannelForm(segments) && !AlreadyTabbed(segments)
  {
    SiteSegments();
    ChannelWord(word);
    SegmentsAfter(SITE, word);
    SegmentsAfter(SITE + "/" + word, name);
    var segments := Segments(SITE + "/" + word + "/" + name);
    assert segments[3] == word && segments[3] in segments;
  }

  lemma SiteIsBase()
    ensures forall i | 0 <= i < |SITE| :: SITE[i] !in {'?', '#'}
  {}

  /** No playlist, video or short link is named anywhere in the URL. */
  ghost predicate NamesNoContent(url: string) {
    !Contains(Lower(url), "list=") && !Contains(Lower(url), "/watch") && !Contains(Lower(url), "youtu.be/")
  }

  /** A channel on the site, by its handle, is pointed at its uploads, whatever query or fragment follows. */
  lemma HandlesAreRewritten(name: string, suffix: string)
    requires PlainSegment(name) && name[0] == '@' && (suffix == "" || suffix[0] in {'?', '#'})
    requires NamesNoContent(SITE + "/" + name + suffix)
    ensures Normalize(SITE + "/" + name + suffix) == SITE + "/" + name + "/videos" + suffix
  {
    SiteIsBase();
    HandleSegments(name);
    ChannelBase(SITE + "/" + name, suffix);
  }

  /** ... and so is one by its id, custom name or user name. */
  lemma NamedChannelsAreRewritten(word: string, name: string, suffix: string)
    requires word in {"channel", "c", "user"} && PlainSegment(name) && (suffix == "" || suffix[0] in {'?', '#'})
    requires NamesNoContent(SITE + "/" + word + "/" + name + suffix)
    ensures Normalize(SITE + "/" + word + "/" + name + suffix) == SITE + "/" + word + "/" + name + "/videos" + suffix
  {
    SiteIsBase();
    ChannelWord(word);
    NamedSegments(word, name);
    ChannelBase(SITE + "/" + word + "/" + name, suffix);
  }

  lemma PageSegments(name: string)
    requires PlainSegment(name) && name[0] != '@' && Lower(name) !in {"channel", "c", "user"}
    ensures !IsChannelForm(Segments(SITE + "/" + name))
  {
    SiteSegments();
    SegmentsAfter(SITE, name);
    assert Lower(name)[0] != '@';
    assert Segments(SITE + "/" + name) == ["https:", "", "www.youtube.com", Lower(name)];
  }

  /** Any other page of the site is left alone. */
  lemma PagesAreLeftAlone(name: string, suffix: string)
    requires PlainSegment(name) && name[0] != '@' && Lower(name) !in {"channel", "c", "user"}
    requires suffix == "" || suffix[0] in {'?', '#'}
    ensures Normalize(SITE + "/" + name + suffix) == SITE + "/" + name + suffix
  {
    SiteIsBase();
    PageSegments(name);
    BaseIs(SITE + "/" + name, suffix);
  }

  lemma TabWord(tab: string)
    requires tab in {"videos", "streams", "shorts", "playlists", "featured", "community", "about"}
    ensures IsTab(tab) && LowerCase(tab)
  {}

  /** A URL whose path ends in a tab is left alone. */
  lemma TabsAreLeftAlone(base: string, tab: string)
    requires tab in {"videos", "streams", "shorts", "playlists", "featured", "community", "about"}
    requires forall i | 0 <= i < |base| :: base[i] !in {'?', '#'}
    ensures Normalize(base + "/" + tab) == base + "/" + tab
  {
    TabWord(tab);
    TabSegment(base, tab);
  }

  lemma TabSegment(base: string, tab: string)
    requires IsTab(tab) && LowerCase(tab) && forall i | 0 <= i < |base| :: base[i] !in {'?', '#'}
    ensures Normalize(base + "/" + tab) == base + "/" + tab
  {
    var url := base + "/" + tab;
    LowerStays(tab);
    LowerConcat(base + "/", tab);
    LowerConcat(base, "/");
    assert Lower(url) == Lower(base) + ['/'] + tab;
    SplitLast(Lower(base), tab, '/');
    BaseIs(url, "");
    assert url + "" == url;
    var segments := Segments(url);
    assert segments[|segments| - 1] == tab && tab in segments;
  }

  /** So are other sites, playlists, videos and short links. */
  lemma OthersAreLeftAlone(url: string)
    requires (!Contains(Lower(url), "youtube.com") && !Contains(Lower(url), "youtu.be")) || !NamesNoContent(url)
    ensures Normalize(url) == url
  {}
}
