# YouTube Playlist Helper popup: a Dafny model of its core

The browser extension's popup turns YouTube videos into an unnamed
playlist. It can take them from open tabs, from bookmark folders, from
thumbnails on the current page or from pasted URLs. This project models the
logic behind those actions in `src/popup/popup.js` and proves what that
logic promises:

- **createPlaylist** (`playlists.dfy`). The caller's id array, a class
  `IdArray` whose `Splice` follows `Array.prototype.splice`, is emptied in
  place into batches of at most 50 ids. Each batch becomes a
  `watch_videos?video_ids=` URL. When playlist pages are wanted, that page
  is fetched and searched with `og:video:url[^>]+\?list=([^"']+)`. This
  expression is written out as a scanner with the leftmost start and the
  greedy `[^>]+`. The batch then opens the playlist page or, with a
  warning, the watch URL. The browser's work (fetches, notifications, tab
  openings) is returned as a list of effects. The fetched page is the value
  of an input function, and `None` stands for a failed request.
- **recursiveCollectBookmarks** (`bookmarks.dfy`). A method that keeps the
  source's loop, `continue`s and final `unshift`, proved equal to a
  recursive specification. Lemmas about that specification cover the
  properties below.
  - Every group is non-empty.
  - Folder names are path-like.
  - A folder's own group comes before its subfolders' groups.
  - Every bookmark id lands in exactly one group.
- **parseYoutubeIds / parseYoutubeThumbnailIds / parseYoutubeId**
  (`parsing.dfy`). Each global search is the source's `while (regex.exec)`
  loop over an `exec` that resumes at `lastIndex`. The watch-URL expression
  is a parameter. The only thing required of it is that each match lies
  after the search position and is non-empty. The thumbnail expression is a
  concrete scanner. It matches three hosts ignoring ASCII case and takes
  the greedy run of characters other than `/` and JavaScript whitespace.
- **isPlaylistTab, isYoutubeTab, isVideoTab, the tab pipelines**
  (`tabs.dfy`). A tab's URL may be undefined. `isYoutubeTab` then throws,
  and that is modelled as an error result.
- **not, isNotNull, removeDuplicates** (`utils.dfy`). `removeDuplicates` is
  `Array.from(new Set(array))`. A Set iterates in insertion order
  (section 24.2 of ECMA-262), so the result keeps first occurrences in input
  order.

Shared pieces are in `wrappers.dfy` and `strings.dfy`: `Option`/`Result`,
`indexOf`, `join`/`split`, ASCII case folding and the `\s` character set.

Some behaviours of the code are easy to miss when reading it, and the
model follows them:

- A batch whose page fetch fails opens no tab. The awaited `fetch` rejects
  and nothing catches it.
- Only `?list=` after `og:video:url` is recognised, not `&list=`.
- `removeDuplicates` is stable.
- `isYoutubeTab` rejects a URL that begins with `youtube.com/`, because the
  test is `indexOf(...) > 0`.

## Model

| member | source | states |
|---|---|---|
| Utils.Not | src/popup/popup.js:381-385 | the returned predicate holds exactly where the given one does not |
| Utils.FilterSplits | src/popup/popup.js:104-107 | `filter(not(p))` and `filter(p)` split a list: their sizes add up to its size and together they hold each element as often as it does |
| Utils.IsNotNull | src/popup/popup.js:391-393 | a value passes exactly when it is present (neither null nor undefined) |
| Utils.FilterKeepsAll | src/popup/popup.js:70 | a filter that every element passes returns the list unchanged |
| Utils.FilterSingleton | src/popup/popup.js:104-106 | a one-element list keeps its element exactly when it passes |
| Utils.FilterAppend | src/popup/popup.js:104-106 | filtering keeps order: the filter of a concatenation is the concatenation of the filters |
| Utils.FilterNotNull | src/popup/popup.js:70 | `filter(isNotNull)` keeps the present values in order: the `k`-th result is the `k`-th non-null element, unwrapped |
| Utils.RemoveDuplicates | src/popup/popup.js:427-429 | the result has no repeated element, the same elements as the input and is no longer |
| Utils.RemoveDuplicatesKeepsFirstOccurrences | src/popup/popup.js:427-429 | the result is the input's first occurrences in input order (Set insertion order) |
| Utils.RemoveDuplicatesIdempotent | src/popup/popup.js:427-429 | a list without repeats is returned unchanged, so deduplicating twice equals deduplicating once |
| Strings.IndexOf | src/popup/popup.js:289 | `indexOf` is -1 exactly when the text does not occur, else the first position where it occurs |
| Strings.SplitJoin | src/popup/popup.js:354 | joining ids with `,` and splitting again gives back the ids when none contains a comma |
| Parsing.ParseYoutubeId | src/popup/popup.js:330-336 | the first capture of one search from position 0, or null when nothing matches |
| Parsing.CollectCaptures | src/popup/popup.js:308-310 | the `exec` loop collects the first capture of every match of the global search, in order |
| Parsing.MatchesLeftToRight | src/popup/popup.js:305-311 | a global search yields non-overlapping, non-empty matches from left to right, at most one per character |
| Parsing.ParseYoutubeIds | src/popup/popup.js:304-312 | one id per match in order; at most one per character; empty exactly when `parseYoutubeId` finds nothing, and otherwise starting with its id |
| Parsing.ThumbnailPrefixLength | src/popup/popup.js:299 | the host and `.com/vi/` found at a position have one of the three lengths and lie within the text |
| Parsing.ThumbnailHostsDisjoint | src/popup/popup.js:299 | no two hosts of the alternation match at the same position, so trying them in a fixed order loses no match |
| Parsing.IdRunEnd | src/popup/popup.js:299 | the greedy `[^\/\s]*` stops at the first `/`, whitespace or end of text |
| Parsing.ThumbnailMatchAt | src/popup/popup.js:299 | a match at a position starts there, ends within the text, and captures a non-empty run without `/` or whitespace; no host, no match |
| Parsing.ThumbnailExec | src/popup/popup.js:320-321 | a match found from a position starts at or after it and is the expression's match at its own start |
| Parsing.ThumbnailExecLeftmost | src/popup/popup.js:320-321 | the match found is the leftmost one, and none is found only when no position matches |
| Parsing.ThumbnailExecProgresses | src/popup/popup.js:321 | every thumbnail match lies after the search position and is non-empty, so the loop ends |
| Parsing.ThumbnailMatchesAnchored | src/popup/popup.js:321-323 | each match of the global search is the expression matched at its own index |
| Parsing.ParseYoutubeThumbnailIds | src/popup/popup.js:317-325 | one id per match from left to right with repeats kept; each id non-empty without `/` or whitespace; no thumbnail host means no id |
| Tabs.HasListParamFrom | src/popup/popup.js:272 | the search for `[&\?]list=` succeeds exactly when it occurs at or after the start position |
| Tabs.IsPlaylistTab | src/popup/popup.js:270-273 | true exactly when the URL holds `?list=` or `&list=` in any ASCII case; a tab without URL is not a playlist tab |
| Tabs.IsYoutubeTab | src/popup/popup.js:287-290 | throws exactly when the URL is undefined; true exactly when `youtube.com/` occurs and the URL does not begin with it |
| Tabs.IsVideoTab | src/popup/popup.js:278-282 | true exactly when `parseYoutubeId` finds an id in the URL (or in `""`) |
| Tabs.MapTabVideoId | src/popup/popup.js:70 | the map yields, per tab and in order, `parseYoutubeId` of its URL |
| Tabs.TabVideoIds | src/popup/popup.js:70 | one id per video tab in tab order: the `k`-th id is the id of the `k`-th video tab; the ids are exactly those some tab yields |
| Tabs.TabVideoIdsMembers | src/popup/popup.js:70 | a value is a non-null result of the map exactly when some tab's URL yields it |
| Tabs.TabVideoIdsInOrder | src/popup/popup.js:70 | dropping the nulls after the map equals mapping the video tabs |
| Tabs.VideoTabsYieldIds | src/popup/popup.js:70 | when every tab is a video tab, the pipeline yields the id of each tab, at the tab's position |
| Tabs.NonPlaylistTabVideoIds | src/popup/popup.js:104-106 | one id per video tab among the non-playlist tabs, in tab order, and exactly as many; the ids are exactly those such tabs yield |
| Tabs.FilterYoutubeTabs | src/popup/popup.js:259 | the filter throws exactly when some tab has no URL; otherwise it is the YouTube tabs in tab order |
| Tabs.SelectYoutubeTabs | src/popup/popup.js:256-265 | throws exactly when playlist tabs are wanted and some tab has no URL; otherwise the YouTube tabs in order, or, without playlist tabs, the video tabs that are not playlist tabs, in order |
| Tabs.CombineTabsKeepsEveryTab | src/popup/popup.js:67-70 | every tab the "exclude playlists" action collects yields an id |
| Bookmarks.OwnVideoIds | src/popup/popup.js:199-213 | a folder's own ids number at most its entries and each is non-empty |
| Bookmarks.RecursiveCollectBookmarks | src/popup/popup.js:180-220 | the loop with `push`, `continue` and the final `unshift` computes the recursive grouping, and a null tree gives no group |
| Bookmarks.CollectFolderGroupsNonEmpty | src/popup/popup.js:203-218 | every group holds at least one id and no id is empty |
| Bookmarks.SubfolderGroupsNonEmpty | src/popup/popup.js:192-198 | the groups gathered from subfolders are each non-empty |
| Bookmarks.SubfolderGroupPaths | src/popup/popup.js:192-198 | a group from a subfolder is named by a longer path that starts with the parent's and ends in `/` |
| Bookmarks.CollectFolderPaths | src/popup/popup.js:192-218 | the group named by the folder's own path exists exactly when one of its direct bookmarks yields an id; it is first, holds those ids in order, and every other group is deeper |
| Bookmarks.CollectFolderKeepsIds | src/popup/popup.js:188-219 | the groups together hold every id of the tree, each once |
| Bookmarks.OwnAndSubfolderIds | src/popup/popup.js:188-215 | the folder's own ids plus its subfolders' groups' ids are the ids of its entries |
| Bookmarks.MusicFolderExample | src/popup/popup.js:180-220 | a `Music` folder with two video bookmarks and one other gives one group `Music/` with the two ids |
| Playlists.IdArray.Splice | src/popup/popup.js:351 | `splice` removes the clamped range, returns it, and leaves the rest in order |
| Playlists.ChunkCount | src/popup/popup.js:351 | there are `ceil(n / 50)` batches |
| Playlists.ChunksPartition | src/popup/popup.js:349-351 | each batch holds 1 to 50 ids, all but the last exactly 50, and together they are the ids in order |
| Playlists.ChunkAt | src/popup/popup.js:351 | batch `k` is the ids from `50k` up to `50k + 50`, cut at the end |
| Playlists.QuoteFreeEnd | src/popup/popup.js:357 | the greedy `[^"']*` stops at the first quote or the end |
| Playlists.LastListAt | src/popup/popup.js:357 | the backtracking `[^>]+` settles on the last place where `?list=` and a non-quote fit before any `>` |
| Playlists.PlaylistMatchAt | src/popup/popup.js:357 | a match at a position exists exactly when the expression can match there, and its capture is that of the last `?list=` |
| Playlists.ResolvePlaylistId | src/popup/popup.js:357-358 | an id is found exactly when the page matches; the id is non-empty and free of quotes |
| Playlists.ResolveFromSound | src/popup/popup.js:357 | the search from a position finds nothing exactly when no match starts there or later |
| Playlists.ResolveFromSkips | src/popup/popup.js:357 | positions where no match starts do not change the result |
| Playlists.ResolveLeftmostGreedy | src/popup/popup.js:357-361 | the id is the capture of the leftmost match with the last `?list=` |
| Playlists.ResolveExample | src/popup/popup.js:357-361 | `og:video:url ?list=PLxyz` resolves to `PLxyz` |
| Playlists.WatchVideosUrlRoundTrip | src/popup/popup.js:353-354 | the watch URL begins with the fixed prefix, and the batch can be read back from it when no id has a comma |
| Playlists.PlaylistUrlIsPlaylistTab | src/popup/popup.js:359-361 | a resolved playlist page is a playlist tab |
| Playlists.BatchEffects | src/popup/popup.js:352-369 | without resolution: one tab with the watch URL. With resolution: fetch first; a failed fetch opens nothing; else the last effect opens the playlist page if the page matches, otherwise the watch URL with the warning |
| Playlists.BatchOpensOneTab | src/popup/popup.js:355-368 | a batch opens exactly one tab unless resolution is on and its fetch fails |
| Playlists.DirectTabsPerBatch | src/popup/popup.js:352-369 | without resolution the tabs opened are the batches' watch URLs in order, and nothing else happens |
| Playlists.ResolvedTabsPerBatch | src/popup/popup.js:352-369 | with resolution and every fetch answered, one tab per batch |
| Playlists.CreatePlaylist | src/popup/popup.js:345-370 | an empty array does nothing; otherwise the array ends empty and the effects are those of its batches in order |
| Playlists.CreatePlaylistDirectTabs | src/popup/popup.js:345-370 | without resolution `ceil(n / 50)` tabs open, batch by batch, with the watch URLs |
| Playlists.CreatePlaylistResolvedTabs | src/popup/popup.js:345-370 | with resolution and every fetch answered, `ceil(n / 50)` tabs open |

## Left out

- Settings loading from `browser.storage.sync`: the flags `openPlaylistPage` and `closeAfterCombine` are plain parameters or not modelled.
- The DOM and menu wiring (`onclick` handlers, `activatePopupMenu`, `getById`, `queryAll`): user interface only.
- Browser calls: tab query, create and remove, `executeScript` for page bodies and for the ids of playlist tabs, notifications, `fetch`. These are I/O. Tab lists, page bodies and fetch results are inputs, and opened tabs, fetches and warnings are output effects.
- The `id` field of tabs and closing tabs after combining: only used for browser calls.
- The "combine with current playlist" and "combine all playlists" handlers' use of ids read from playlist tabs by an injected script: the injected script is not part of this model.
- Playlists.CreatePlaylist: the batches run as concurrent async callbacks. In the source, every fetch starts before any page arrives, and tabs open in the order replies come back. The model lists each batch's effects together, in batch order.
- Playlists.CreatePlaylist: `Math.ceil(n / 50)` on floating point is taken as the integer `(n + 49) / 50`, which it equals for any array length a browser can hold.
- Parsing.ParseYoutubeId: the watch-URL expression (lookaheads, a negative lookahead and backtracking `\S*`) is a parameter. Only its exec shape is modelled: the search position, the match bounds and the first capture. Its `i` and `ig` flags are properties of that parameter.
- Parsing.ParseYoutubeThumbnailIds: case folding is ASCII-only and `\s` is the fixed JavaScript whitespace set. There is no Unicode-aware matching beyond that.
- Bookmarks.RecursiveCollectBookmarks: an undefined `url`, `type` or `children` of a bookmark node is represented by the empty string or the empty list, which the source treats alike.
- Playlists.BatchEffects: a fetch is a function of its URL, so two batches with the same watch URL get the same reply. In the browser one request could fail while the other succeeds.
- Alerts raised by the handlers when nothing is found are handler messages and not modelled. The one warning inside `createPlaylist` is.
