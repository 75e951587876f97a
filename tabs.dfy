/**
 Browser tabs as the popup sees them, the predicates that classify them and
 the pipelines that turn a list of tabs into video ids. The tab list itself
 comes from the browser and is an input here.
 */
module Tabs {
  import opened Wrappers
  import opened Strings
  import opened Utils
  import opened Parsing

  /** A browser tab, reduced to what the popup reads of it: its URL, which may be undefined. */
  datatype Tab = Tab(url: Option<string>)

  /** The exception JavaScript throws on a method call through `undefined`. */
  datatype JsError = TypeError

  /** `tab.url || ""`. */
  function UrlOrEmpty(tab: Tab): string {
    tab.url.GetOr("")
  }

  /** The expression `[&\?]list=` with the `i` flag, tried at index `i` only. */
  predicate ListParamAt(url: string, i: nat) {
    i < |url| && (url[i] == '&' || url[i] == '?') && IsPrefixAtIgnoreCase(url, i + 1, "list=")
  }

  /** The search of `regex.test(url)` for `[&\?]list=`, from `from` on. */
  function HasListParamFrom(url: string, from: nat): (r: bool)
    ensures r <==> exists i: nat :: from <= i && ListParamAt(url, i)
    decreases |url| - from
  {
    if from >= |url| then false
    else ListParamAt(url, from) || HasListParamFrom(url, from + 1)
  }

  /**
   `isPlaylistTab(tab)`: the URL holds `?list=` or `&list=`, in any ASCII
   case. A tab without a URL is tested as the empty string and is no
   playlist tab.
   */
  function IsPlaylistTab(tab: Tab): (r: bool)
    ensures r <==> exists i: nat :: ListParamAt(UrlOrEmpty(tab), i)
    ensures tab.url.None? ==> !r
  {
    HasListParamFrom(UrlOrEmpty(tab), 0)
  }

  const YoutubeHost := "youtube.com/"

  /**
   `isYoutubeTab(tab)`: `url.indexOf("youtube.com/") > 0`. The text must
   occur, and its first occurrence must not be at index 0, so a URL that
   starts with it is rejected. A tab whose URL is undefined makes the call
   throw.
   */
  function IsYoutubeTab(tab: Tab): (r: Result<bool, JsError>)
    ensures r.Err? <==> tab.url.None?
    ensures tab.url.Some? ==>
      (r == Ok(true) <==>
        (exists i: nat :: IsPrefixAt(tab.url.value, i, YoutubeHost)) && !IsPrefixAt(tab.url.value, 0, YoutubeHost))
  {
    match tab.url
    case None => Err(TypeError)
    case Some(url) => Ok(IndexOf(url, YoutubeHost) > 0)
  }

  /**
   `isVideoTab(tab)`: `regex.test(tab.url || "")` for the watch-URL
   expression, which holds exactly when `parseYoutubeId` finds an id.
   */
  function IsVideoTab(exec: Exec, tab: Tab): (r: bool)
    ensures r <==> ParseYoutubeId(exec, UrlOrEmpty(tab)).Some?
  {
    exec(UrlOrEmpty(tab), 0).Some?
  }

  /** `tabs.filter(isVideoTab)`. */
  function VideoTabs(exec: Exec, tabs: seq<Tab>): seq<Tab> {
    Filter(tabs, t => IsVideoTab(exec, t))
  }

  /** `tab => parseYoutubeId(tab.url || "")`. */
  function TabVideoId(exec: Exec, tab: Tab): Option<string> {
    ParseYoutubeId(exec, UrlOrEmpty(tab))
  }

  /** `tabs.map((tab) => parseYoutubeId(tab.url || ""))`. */
  function MapTabVideoId(exec: Exec, tabs: seq<Tab>): (r: seq<Option<string>>)
    ensures |r| == |tabs|
    ensures forall k :: 0 <= k < |tabs| ==> r[k] == TabVideoId(exec, tabs[k])
  {
    seq(|tabs|, k requires 0 <= k < |tabs| => TabVideoId(exec, tabs[k]))
  }

  /**
   `tabs.map((tab) => parseYoutubeId(tab.url || "")).filter(isNotNull)`:
   one id per video tab, in tab order: the `k`-th id is that of the `k`-th
   video tab.
   */
  function TabVideoIds(exec: Exec, tabs: seq<Tab>): (videoIds: seq<string>)
    ensures |videoIds| == |VideoTabs(exec, tabs)|
    ensures forall k :: 0 <= k < |videoIds| ==>
      TabVideoId(exec, VideoTabs(exec, tabs)[k]) == Some(videoIds[k])
    ensures forall id :: id in videoIds <==> exists t :: t in tabs && TabVideoId(exec, t) == Some(id)
  {
    TabVideoIdsMembers(exec, tabs);
    TabVideoIdsInOrder(exec, tabs);
    FilterNotNull(MapTabVideoId(exec, tabs))
  }

  /** A value is among the non-null results of the map exactly when some tab's URL yields it. */
  lemma TabVideoIdsMembers(exec: Exec, tabs: seq<Tab>)
    ensures forall id :: Some(id) in MapTabVideoId(exec, tabs) <==> exists t :: t in tabs && TabVideoId(exec, t) == Some(id)
  {
    var mapped := MapTabVideoId(exec, tabs);
    forall id ensures Some(id) in mapped <==> exists t :: t in tabs && TabVideoId(exec, t) == Some(id) {
      if t :| t in tabs && TabVideoId(exec, t) == Some(id) {
        var k :| 0 <= k < |tabs| && tabs[k] == t;
        assert mapped[k] == Some(id);
      }
    }
  }

  /** Dropping the null results of the map is mapping the video tabs. */
  lemma {:induction false} TabVideoIdsInOrder(exec: Exec, tabs: seq<Tab>)
    ensures Filter(MapTabVideoId(exec, tabs), IsNotNull) == MapTabVideoId(exec, VideoTabs(exec, tabs))
  {
    if tabs != [] {
      var mapped := MapTabVideoId(exec, tabs);
      TabVideoIdsInOrder(exec, tabs[1..]);
      assert mapped == [mapped[0]] + MapTabVideoId(exec, tabs[1..]);
      var rest := VideoTabs(exec, tabs[1..]);
      if IsVideoTab(exec, tabs[0]) {
        assert VideoTabs(exec, tabs) == [tabs[0]] + rest;
        assert MapTabVideoId(exec, [tabs[0]] + rest) == [mapped[0]] + MapTabVideoId(exec, rest);
      } else {
        assert VideoTabs(exec, tabs) == rest;
      }
    }
  }

  /** Every tab selected by `SelectYoutubeTabs(exec, tabs, false)` yields an id: no tab is dropped. */
  lemma {:induction false} VideoTabsYieldIds(exec: Exec, tabs: seq<Tab>)
    requires forall t :: t in tabs ==> IsVideoTab(exec, t)
    ensures |TabVideoIds(exec, tabs)| == |tabs|
    ensures forall k :: 0 <= k < |tabs| ==> TabVideoId(exec, tabs[k]) == Some(TabVideoIds(exec, tabs)[k])
  {
    FilterKeepsAll(tabs, t => IsVideoTab(exec, t));
  }

  /**
   The ids of the tabs that are not playlist tabs,
   `tabs.filter(not(isPlaylistTab)).map(...).filter(isNotNull)`: one per
   video tab among them, in tab order.
   */
  function NonPlaylistTabVideoIds(exec: Exec, tabs: seq<Tab>): (videoIds: seq<string>)
    ensures |videoIds| == |VideoTabs(exec, Filter(tabs, Not(IsPlaylistTab)))| <= |tabs|
    ensures forall k :: 0 <= k < |videoIds| ==>
      TabVideoId(exec, VideoTabs(exec, Filter(tabs, Not(IsPlaylistTab)))[k]) == Some(videoIds[k])
    ensures forall id :: id in videoIds <==>
      exists t :: t in tabs && !IsPlaylistTab(t) && TabVideoId(exec, t) == Some(id)
  {
    var kept := Filter(tabs, Not(IsPlaylistTab));
    assert forall t :: t in kept <==> t in tabs && !IsPlaylistTab(t);
    TabVideoIds(exec, kept)
  }

  /** What `filter(isYoutubeTab)` keeps of a tab once it does not throw. */
  predicate IsYoutubeOk(tab: Tab) {
    IsYoutubeTab(tab) == Ok(true)
  }

  /**
   `tabs.filter(isYoutubeTab)`: the first tab without a URL aborts the whole
   filter with its exception; otherwise the YouTube tabs in tab order.
   */
  function FilterYoutubeTabs(tabs: seq<Tab>): (r: Result<seq<Tab>, JsError>)
    ensures r.Err? <==> exists t :: t in tabs && t.url.None?
    ensures r.Ok? ==> r.value == Filter(tabs, IsYoutubeOk)
  {
    if tabs == [] then Ok([])
    else
      match IsYoutubeTab(tabs[0])
      case Err(e) => Err(e)
      case Ok(keep) =>
        match FilterYoutubeTabs(tabs[1..])
        case Err(e) => Err(e)
        case Ok(rest) => Ok(if keep then [tabs[0]] + rest else rest)
  }

  /**
   The filtering step of `getCurrentYoutubeTabs(includePlaylistTabs)` over
   the tabs of the current window: YouTube tabs when playlist tabs are
   wanted, else video tabs that are not playlist tabs.
   */
  function SelectYoutubeTabs(exec: Exec, tabs: seq<Tab>, includePlaylistTabs: bool): (r: Result<seq<Tab>, JsError>)
    ensures r.Err? <==> includePlaylistTabs && exists t :: t in tabs && t.url.None?
    ensures includePlaylistTabs && r.Ok? ==> r.value == Filter(tabs, IsYoutubeOk)
    ensures !includePlaylistTabs ==> r.Ok? && forall t :: t in r.value <==>
      t in tabs && IsVideoTab(exec, t) && !IsPlaylistTab(t)
    ensures !includePlaylistTabs ==> r.value == Filter(VideoTabs(exec, tabs), Not(IsPlaylistTab))
  {
    if includePlaylistTabs then FilterYoutubeTabs(tabs)
    else Ok(Filter(VideoTabs(exec, tabs), Not(IsPlaylistTab)))
  }

  /** The tabs the "combine tabs" action collects each yield an id, so it makes a playlist of one video per tab. */
  lemma CombineTabsKeepsEveryTab(exec: Exec, tabs: seq<Tab>)
    ensures |TabVideoIds(exec, SelectYoutubeTabs(exec, tabs, false).value)| == |SelectYoutubeTabs(exec, tabs, false).value|
  {
    VideoTabsYieldIds(exec, SelectYoutubeTabs(exec, tabs, false).value);
  }
}
