/**
 Building playlists: `createPlaylist` empties the caller's id array into
 batches of at most 50 ids, turns each batch into a multi-video watch URL
 and, when resolution is on, fetches that page and looks in it for the id
 of the playlist YouTube made, to open the playlist page instead.

 The network and the browser stay outside: the page a fetch returns is the
 value of an input function (`None` when the request fails), and the tab
 openings, fetches and notifications are returned as a list of effects.
 */
module Playlists {
  import opened Wrappers
  import opened Strings
  import opened Tabs

  /** YouTube's limit of videos per `watch_videos` request. */
  const ChunkSize: nat := 50

  const WatchVideosPrefix := "https://www.youtube.com/watch_videos?video_ids="
  const PlaylistPrefix := "https://www.youtube.com/playlist?list="
  const ResolveFailedMessage := "Unable to retrieve playlist id. Directly playing videos instead..."

  function Min(a: nat, b: nat): nat {
    if a <= b then a else b
  }

  /** The caller's id array, which `createPlaylist` consumes in place. */
  class IdArray {
    var elems: seq<string>

    constructor (elems: seq<string>)
      ensures this.elems == elems
    {
      this.elems := elems;
    }

    /** `splice(start, deleteCount)`: removes up to `deleteCount` elements from `start` on and returns them. */
    method Splice(start: nat, deleteCount: nat) returns (removed: seq<string>)
      modifies this
      ensures var s := Min(start, |old(elems)|);
        var e := s + Min(deleteCount, |old(elems)| - s);
        removed == old(elems)[s..e] && elems == old(elems)[..s] + old(elems)[e..]
    {
      var s := Min(start, |elems|);
      var e := s + Min(deleteCount, |elems| - s);
      removed := elems[s..e];
      elems := elems[..s] + elems[e..];
    }
  }

  // Batching

  /** Consecutive runs of `ChunkSize` ids, the last one possibly shorter: what repeated `splice(0, 50)` removes. */
  function Chunks(ids: seq<string>): seq<seq<string>>
    decreases |ids|
  {
    if ids == [] then []
    else
      var n := Min(ChunkSize, |ids|);
      [ids[..n]] + Chunks(ids[n..])
  }

  /** The batches one after the other. */
  function Flatten(batches: seq<seq<string>>): seq<string> {
    if batches == [] then [] else batches[0] + Flatten(batches[1..])
  }

  /**
   The batches partition the ids: each holds 1 to 50 ids, all but the last exactly 50, and together they are
   the ids in their original order.
   */
  lemma {:induction false} ChunksPartition(ids: seq<string>)
    ensures Flatten(Chunks(ids)) == ids
    ensures forall k :: 0 <= k < |Chunks(ids)| ==> 0 < |Chunks(ids)[k]| <= ChunkSize
    ensures forall k :: 0 <= k < |Chunks(ids)| - 1 ==> |Chunks(ids)[k]| == ChunkSize
    decreases |ids|
  {
    if ids != [] {
      var n := Min(ChunkSize, |ids|);
      ChunksPartition(ids[n..]);
      assert ids[..n] + ids[n..] == ids;
    }
  }

  /** There are `ceil(n / 50)` batches. */
  lemma {:induction false} ChunkCount(ids: seq<string>)
    ensures |Chunks(ids)| == (|ids| + ChunkSize - 1) / ChunkSize
    decreases |ids|
  {
    if ids != [] {
      ChunkCount(ids[Min(ChunkSize, |ids|)..]);
    }
  }

  /** Batch `k` is the slice of the ids from `50 * k` to `50 * k + 50`, cut at the end. */
  lemma {:induction false} ChunkAt(ids: seq<string>, k: nat)
    requires k < |Chunks(ids)|
    ensures k * ChunkSize < |ids|
    ensures Chunks(ids)[k] == ids[k * ChunkSize..Min(k * ChunkSize + ChunkSize, |ids|)]
    decreases |ids|
  {
    var n := Min(ChunkSize, |ids|);
    if k > 0 {
      ChunkAt(ids[n..], k - 1);
      assert n == ChunkSize;
      assert (k - 1) * ChunkSize + ChunkSize == k * ChunkSize;
    }
  }

  // Resolution: /og:video:url[^>]+\?list=([^"']+)/.exec(data)

  const OgVideoUrl := "og:video:url"
  const ListQuery := "?list="

  predicate IsQuote(c: char) {
    c == '"' || c == '\''
  }

  /**
   After `og:video:url` ends at `j`, `[^>]+` can stop at `k` and
   `\?list=([^"']+)` match from there: `k` is past `j`, no `>` lies in
   between, `?list=` is at `k` and a character other than a quote follows it.
   */
  predicate ListAt(body: string, j: nat, k: nat) {
    && j < k
    && IsPrefixAt(body, k, ListQuery)
    && k + |ListQuery| < |body|
    && !IsQuote(body[k + |ListQuery|])
    && forall t :: j <= t < k ==> body[t] != '>'
  }

  /** A match of the whole expression that starts at `i` and has its `?list=` at `k`. */
  predicate PlaylistMatch(body: string, i: nat, k: nat) {
    IsPrefixAt(body, i, OgVideoUrl) && ListAt(body, i + |OgVideoUrl|, k)
  }

  /** The end of the greedy run `[^"']*` from `i`. */
  function QuoteFreeEnd(body: string, i: nat): (e: nat)
    requires i <= |body|
    ensures i <= e <= |body|
    ensures forall t :: i <= t < e ==> !IsQuote(body[t])
    ensures e < |body| ==> IsQuote(body[e])
    decreases |body| - i
  {
    if i == |body| || IsQuote(body[i]) then i else QuoteFreeEnd(body, i + 1)
  }

  /** The capture of a match whose `?list=` is at `k`. */
  function ListCapture(body: string, k: nat): string
    requires k + |ListQuery| < |body|
  {
    body[k + |ListQuery|..QuoteFreeEnd(body, k + |ListQuery|)]
  }

  /**
   The greedy `[^>]+` first takes as much as it can and then gives back one
   character at a time: the largest `t <= k` at which `\?list=...` fits.
   */
  function LastListAt(body: string, j: nat, k: nat): (r: Option<nat>)
    ensures r.Some? ==> r.value <= k && ListAt(body, j, r.value)
    ensures r.Some? ==> forall t: nat :: r.value < t <= k ==> !ListAt(body, j, t)
    ensures r.None? ==> forall t: nat :: t <= k ==> !ListAt(body, j, t)
    decreases k
  {
    if k <= j then None
    else if ListAt(body, j, k) then Some(k)
    else LastListAt(body, j, k - 1)
  }

  /** The expression tried at `i` only. */
  function PlaylistMatchAt(body: string, i: nat): (r: Option<string>)
    ensures r.Some? ==>
      && LastListAt(body, i + |OgVideoUrl|, |body|).Some?
      && PlaylistMatch(body, i, LastListAt(body, i + |OgVideoUrl|, |body|).value)
      && r == Some(ListCapture(body, LastListAt(body, i + |OgVideoUrl|, |body|).value))
    ensures r.None? ==> forall k: nat :: !PlaylistMatch(body, i, k)
  {
    if !IsPrefixAt(body, i, OgVideoUrl) then None
    else
      match LastListAt(body, i + |OgVideoUrl|, |body|)
      case Some(k) => Some(ListCapture(body, k))
      case None => None
  }

  /** The leftmost start position from `i` on where the expression matches. */
  function ResolveFrom(body: string, i: nat): Option<string>
    decreases |body| - i
  {
    if i > |body| then None
    else if PlaylistMatchAt(body, i).Some? then PlaylistMatchAt(body, i)
    else ResolveFrom(body, i + 1)
  }

  /**
   `exec[1]` of `/og:video:url[^>]+\?list=([^"']+)/.exec(data)`, or `None`
   for `null`. It finds an id exactly when the page has a match; the id is
   non-empty and free of quotes.
   */
  function ResolvePlaylistId(body: string): (r: Option<string>)
    ensures r.None? <==> forall i: nat, k: nat :: !PlaylistMatch(body, i, k)
    ensures r.Some? ==> |r.value| > 0 && forall c :: c in r.value ==> !IsQuote(c)
  {
    ResolveFromSound(body, 0);
    ResolveFrom(body, 0)
  }

  lemma {:induction false} ResolveFromSound(body: string, from: nat)
    ensures ResolveFrom(body, from).None? <==> forall i: nat, k: nat :: from <= i ==> !PlaylistMatch(body, i, k)
    ensures ResolveFrom(body, from).Some? ==>
      |ResolveFrom(body, from).value| > 0 && forall c :: c in ResolveFrom(body, from).value ==> !IsQuote(c)
    decreases |body| - from
  {
    if from <= |body| {
      ResolveFromSound(body, from + 1);
    }
  }

  /**
   The regular expression's choice among several matches: the one that
   starts leftmost and, at that start, the one whose `?list=` is last
   (the greedy `[^>]+`). Its capture is the id found.
   */
  lemma {:induction false} ResolveLeftmostGreedy(body: string, i: nat, k: nat)
    requires PlaylistMatch(body, i, k)
    requires forall i': nat, k': nat :: i' < i ==> !PlaylistMatch(body, i', k')
    requires forall k': nat :: k < k' ==> !PlaylistMatch(body, i, k')
    ensures ResolvePlaylistId(body) == Some(ListCapture(body, k))
  {
    ResolveFromSkips(body, 0, i);
    var j := i + |OgVideoUrl|;
    var last := LastListAt(body, j, |body|);
    assert ListAt(body, j, k);
    assert last.Some?;
    assert PlaylistMatch(body, i, last.value);
  }

  lemma {:induction false} ResolveFromSkips(body: string, from: nat, i: nat)
    requires from <= i <= |body|
    requires forall i': nat, k': nat :: i' < i ==> !PlaylistMatch(body, i', k')
    ensures ResolveFrom(body, from) == ResolveFrom(body, i)
    decreases i - from
  {
    if from < i {
      ResolveFromSkips(body, from + 1, i);
    }
  }

  /** A page whose one `og:video:url` is followed by `?list=PLxyz` resolves to `PLxyz`. */
  lemma ResolveExample()
    ensures ResolvePlaylistId("og:video:url ?list=PLxyz") == Some("PLxyz")
  {
    var body := "og:video:url ?list=PLxyz";
    assert body[0..12] == OgVideoUrl;
    assert body[13..19] == ListQuery;
    assert PlaylistMatch(body, 0, 13);
    forall k': nat | 13 < k' ensures !PlaylistMatch(body, 0, k') {
      if k' + |ListQuery| <= |body| {
        assert body[k'] != '?';
        assert body[k'..k' + |ListQuery|][0] == body[k'];
      }
    }
    ResolveLeftmostGreedy(body, 0, 13);
    assert QuoteFreeEnd(body, 19) == 24;
    assert ListCapture(body, 13) == "PLxyz";
  }

  // Targets and effects

  /** `"https://www.youtube.com/watch_videos?video_ids=" + videoIds.join(",")`. */
  function WatchVideosUrl(batch: seq<string>): string {
    WatchVideosPrefix + Join(batch, ',')
  }

  /** `"https://www.youtube.com/playlist?list=" + exec[1]`. */
  function PlaylistUrl(id: string): string {
    PlaylistPrefix + id
  }

  /** The ids of a batch can be read back from its watch URL, as long as no id holds a comma. */
  lemma WatchVideosUrlRoundTrip(batch: seq<string>)
    requires |batch| >= 1
    requires forall k :: 0 <= k < |batch| ==> ',' !in batch[k]
    ensures IsPrefixAt(WatchVideosUrl(batch), 0, WatchVideosPrefix)
    ensures Split(WatchVideosUrl(batch)[|WatchVideosPrefix|..], ',') == batch
  {
    SplitJoin(batch, ',');
    assert WatchVideosUrl(batch)[|WatchVideosPrefix|..] == Join(batch, ',');
  }

  /** A resolved playlist page is a playlist tab for `isPlaylistTab`. */
  lemma PlaylistUrlIsPlaylistTab(id: string)
    ensures IsPlaylistTab(Tab(Some(PlaylistUrl(id))))
  {
    var url := PlaylistUrl(id);
    assert url[32] == '?';
    assert url[33..38] == "list=";
    assert ListParamAt(url, 32);
  }

  /** What the browser is asked to do. */
  datatype Effect = Fetch(url: string) | Alert(message: string) | OpenTab(url: string)

  /**
   The work for one batch: open its watch URL, or, with resolution on,
   fetch it first and open the playlist page when the page names one, else
   warn and open the watch URL. A failed fetch rejects the batch's promise
   and nothing is opened for it.
   */
  function BatchEffects(batch: seq<string>, openPlaylistPage: bool, fetch: string -> Option<string>): (effects: seq<Effect>)
    ensures 1 <= |effects| <= 3
    ensures !openPlaylistPage ==> effects == [OpenTab(WatchVideosUrl(batch))]
    ensures openPlaylistPage ==> effects[0] == Fetch(WatchVideosUrl(batch))
    ensures openPlaylistPage && fetch(WatchVideosUrl(batch)).None? ==> |effects| == 1
    ensures openPlaylistPage && fetch(WatchVideosUrl(batch)).Some? ==>
      var data := fetch(WatchVideosUrl(batch)).value;
      && effects[|effects| - 1].OpenTab?
      && (Alert(ResolveFailedMessage) in effects <==> forall i: nat, k: nat :: !PlaylistMatch(data, i, k))
      && ((exists i: nat, k: nat :: PlaylistMatch(data, i, k)) ==>
            effects[|effects| - 1].url == PlaylistUrl(ResolvePlaylistId(data).value))
      && ((forall i: nat, k: nat :: !PlaylistMatch(data, i, k)) ==>
            effects[|effects| - 1].url == WatchVideosUrl(batch))
  {
    var url := WatchVideosUrl(batch);
    if !openPlaylistPage then [OpenTab(url)]
    else
      match fetch(url)
      case None => [Fetch(url)]
      case Some(data) =>
        match ResolvePlaylistId(data)
        case Some(id) => [Fetch(url), OpenTab(PlaylistUrl(id))]
        case None => [Fetch(url), Alert(ResolveFailedMessage), OpenTab(url)]
  }

  /** The effects of the batches, batch after batch. */
  function PlaylistEffects(batches: seq<seq<string>>, openPlaylistPage: bool, fetch: string -> Option<string>): seq<Effect>
  {
    if batches == [] then []
    else
      PlaylistEffects(batches[..|batches| - 1], openPlaylistPage, fetch)
        + BatchEffects(batches[|batches| - 1], openPlaylistPage, fetch)
  }

  /** The URLs of the tabs opened, in order. */
  function OpenedUrls(effects: seq<Effect>): seq<string> {
    if effects == [] then []
    else (if effects[0].OpenTab? then [effects[0].url] else []) + OpenedUrls(effects[1..])
  }

  lemma {:induction false} OpenedUrlsAppend(a: seq<Effect>, b: seq<Effect>)
    ensures OpenedUrls(a + b) == OpenedUrls(a) + OpenedUrls(b)
  {
    if a == [] {
      assert a + b == b;
    } else {
      assert (a + b)[0] == a[0] && (a + b)[1..] == a[1..] + b;
      OpenedUrlsAppend(a[1..], b);
    }
  }

  /** A batch opens exactly one tab, unless resolution is on and its page cannot be fetched. */
  lemma BatchOpensOneTab(batch: seq<string>, openPlaylistPage: bool, fetch: string -> Option<string>)
    ensures |OpenedUrls(BatchEffects(batch, openPlaylistPage, fetch))|
      == if openPlaylistPage && fetch(WatchVideosUrl(batch)).None? then 0 else 1
  {
    var url := WatchVideosUrl(batch);
    var last := [OpenTab(url)];
    assert OpenedUrls(last) == [url] by {
      assert last[1..] == [];
    }
    if openPlaylistPage && fetch(url).Some? {
      match ResolvePlaylistId(fetch(url).value)
      case Some(id) =>
        var effects := [Fetch(url), OpenTab(PlaylistUrl(id))];
        assert effects == BatchEffects(batch, openPlaylistPage, fetch);
        assert effects[1..][1..] == [];
        assert OpenedUrls(effects[1..]) == [PlaylistUrl(id)];
      case None =>
        var effects := [Fetch(url), Alert(ResolveFailedMessage), OpenTab(url)];
        assert effects[1..][1..] == last;
    } else if openPlaylistPage {
      assert [Fetch(url)][1..] == [];
    }
  }

  /**
   Without resolution every batch opens its own watch URL, in batch order,
   and nothing is fetched.
   */
  lemma {:induction false} DirectTabsPerBatch(batches: seq<seq<string>>, fetch: string -> Option<string>)
    ensures OpenedUrls(PlaylistEffects(batches, false, fetch))
      == seq(|batches|, k requires 0 <= k < |batches| => WatchVideosUrl(batches[k]))
    ensures forall e :: e in PlaylistEffects(batches, false, fetch) ==> e.OpenTab?
  {
    if batches != [] {
      var init := batches[..|batches| - 1];
      DirectTabsPerBatch(init, fetch);
      OpenedUrlsAppend(PlaylistEffects(init, false, fetch), BatchEffects(batches[|batches| - 1], false, fetch));
    }
  }

  /** With resolution on, every batch whose page can be fetched opens exactly one tab. */
  lemma {:induction false} ResolvedTabsPerBatch(batches: seq<seq<string>>, fetch: string -> Option<string>)
    requires forall k :: 0 <= k < |batches| ==> fetch(WatchVideosUrl(batches[k])).Some?
    ensures |OpenedUrls(PlaylistEffects(batches, true, fetch))| == |batches|
  {
    if batches != [] {
      var init := batches[..|batches| - 1];
      var last := batches[|batches| - 1];
      ResolvedTabsPerBatch(init, fetch);
      OpenedUrlsAppend(PlaylistEffects(init, true, fetch), BatchEffects(last, true, fetch));
      BatchOpensOneTab(last, true, fetch);
    }
  }

  /**
   `createPlaylist(videoIds)`: nothing at all for an empty array; otherwise
   the array is emptied by `ceil(n / 50)` calls of `splice(0, 50)`, and
   the batches removed are processed one after the other.
   */
  method CreatePlaylist(videoIds: IdArray, openPlaylistPage: bool, fetch: string -> Option<string>)
    returns (effects: seq<Effect>)
    modifies videoIds
    ensures old(videoIds.elems) == [] ==> effects == []
    ensures videoIds.elems == []
    ensures effects == PlaylistEffects(Chunks(old(videoIds.elems)), openPlaylistPage, fetch)
  {
    effects := [];
    if |videoIds.elems| == 0 {
      return;
    }
    ghost var ids := videoIds.elems;
    var chunkCount := (|videoIds.elems| + ChunkSize - 1) / ChunkSize;
    ChunkCount(ids);
    var videoIdsChunks: seq<seq<string>> := [];
    for i := 0 to chunkCount
      invariant |videoIdsChunks| == i
      invariant videoIdsChunks + Chunks(videoIds.elems) == Chunks(ids)
    {
      ghost var rest := videoIds.elems;
      assert |Chunks(rest)| == chunkCount - i > 0;
      var chunk := videoIds.Splice(0, ChunkSize);
      ghost var n := Min(ChunkSize, |rest|);
      assert chunk == rest[..n] && videoIds.elems == rest[n..];
      assert [chunk] + Chunks(videoIds.elems) == Chunks(rest);
      videoIdsChunks := videoIdsChunks + [chunk];
    }
    assert videoIdsChunks == Chunks(ids);
    for i := 0 to |videoIdsChunks|
      invariant effects == PlaylistEffects(videoIdsChunks[..i], openPlaylistPage, fetch)
    {
      assert videoIdsChunks[..i + 1][..i] == videoIdsChunks[..i];
      effects := effects + BatchEffects(videoIdsChunks[i], openPlaylistPage, fetch);
    }
    assert videoIdsChunks[..|videoIdsChunks|] == videoIdsChunks;
  }

  /**
   Without resolution, `createPlaylist` on `n` ids opens `ceil(n / 50)`
   tabs, the watch URLs of the batches in order, and fetches nothing.
   */
  lemma CreatePlaylistDirectTabs(ids: seq<string>, fetch: string -> Option<string>)
    ensures |OpenedUrls(PlaylistEffects(Chunks(ids), false, fetch))| == |Chunks(ids)|
    ensures |OpenedUrls(PlaylistEffects(Chunks(ids), false, fetch))| == (|ids| + ChunkSize - 1) / ChunkSize
    ensures forall k :: 0 <= k < |Chunks(ids)| ==>
      OpenedUrls(PlaylistEffects(Chunks(ids), false, fetch))[k] == WatchVideosUrl(Chunks(ids)[k])
  {
    ChunkCount(ids);
    DirectTabsPerBatch(Chunks(ids), fetch);
  }

  /**
   With resolution on and every page fetched, `createPlaylist` on `n` ids
   opens `ceil(n / 50)` tabs, one per batch, whether or not each page names
   a playlist.
   */
  lemma CreatePlaylistResolvedTabs(ids: seq<string>, fetch: string -> Option<string>)
    requires forall k :: 0 <= k < |Chunks(ids)| ==> fetch(WatchVideosUrl(Chunks(ids)[k])).Some?
    ensures |OpenedUrls(PlaylistEffects(Chunks(ids), true, fetch))| == (|ids| + ChunkSize - 1) / ChunkSize
  {
    ChunkCount(ids);
    ResolvedTabsPerBatch(Chunks(ids), fetch);
  }
}
