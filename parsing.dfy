/**
 Video id extraction. A regular expression is seen through its `exec`
 operation: given the text and the position `lastIndex` at which the search
 starts, it yields the leftmost match from there on, or nothing. The
 watch-URL expression is left abstract (any `Exec` that moves forward);
 the thumbnail expression is simple enough to be written out as a scanner.
 */
module Parsing {
  import opened Wrappers
  import opened Strings

  /**
   One non-null result of `regex.exec(text)`: where the match starts
   (`index`), where it ends and the next global search resumes (`lastIndex`),
   and the text of the first capture group (`matches[1]`).
   */
  datatype RegexMatch = RegexMatch(index: nat, lastIndex: nat, capture: string)

  /** `exec` of a regular expression whose search starts at the given position; `None` is `null`. */
  type Exec = (string, nat) -> Option<RegexMatch>

  /**
   A match found from `from` on starts there or later, ends within the text
   and is not empty. Both expressions of the popup script have this
   property: each ends in a mandatory capture `[...]+`.
   */
  ghost predicate Progresses(exec: Exec) {
    forall text: string, from: nat ::
      exec(text, from).Some? ==>
        from <= exec(text, from).value.index < exec(text, from).value.lastIndex <= |text|
  }

  /** `parseYoutubeId(url)`: the first capture of one non-global `exec`, or `null` when nothing matches. */
  function ParseYoutubeId(exec: Exec, url: string): Option<string> {
    match exec(url, 0)
    case Some(m) => Some(m.capture)
    case None => None
  }

  /** The matches a global expression finds in `text` when its search starts at `from`. */
  function Matches(exec: Exec, text: string, from: nat): seq<RegexMatch>
    requires Progresses(exec)
    decreases |text| - from
  {
    match exec(text, from)
    case None => []
    case Some(m) => [m] + Matches(exec, text, m.lastIndex)
  }

  /** The first capture of each match. */
  function Captures(ms: seq<RegexMatch>): (r: seq<string>)
    ensures |r| == |ms|
    ensures forall k :: 0 <= k < |ms| ==> r[k] == ms[k].capture
  {
    if ms == [] then [] else [ms[0].capture] + Captures(ms[1..])
  }

  /** Matches that lie in `text` after `from`, each non-empty, each ending before the next begins. */
  ghost predicate LeftToRight(ms: seq<RegexMatch>, text: string, from: nat) {
    && (forall k :: 0 <= k < |ms| ==> ms[k].index < ms[k].lastIndex <= |text|)
    && (|ms| > 0 ==> from <= ms[0].index)
    && (forall k :: 0 <= k < |ms| - 1 ==> ms[k].lastIndex <= ms[k + 1].index)
  }

  /** A global search returns non-overlapping matches from left to right, so at most one per character. */
  lemma {:induction false} MatchesLeftToRight(exec: Exec, text: string, from: nat)
    requires Progresses(exec)
    ensures LeftToRight(Matches(exec, text, from), text, from)
    ensures |Matches(exec, text, from)| <= if from <= |text| then |text| - from else 0
    decreases |text| - from
  {
    match exec(text, from)
    case None =>
    case Some(m) =>
      MatchesLeftToRight(exec, text, m.lastIndex);
      var rest := Matches(exec, text, m.lastIndex);
      assert Matches(exec, text, from) == [m] + rest;
  }

  /**
   The loop `while ((matches = regex.exec(text))) videoIds.push(matches[1])`
   over a global expression whose `lastIndex` starts at 0 and moves to the
   end of every match.
   */
  method CollectCaptures(exec: Exec, text: string) returns (videoIds: seq<string>)
    requires Progresses(exec)
    ensures videoIds == Captures(Matches(exec, text, 0))
  {
    videoIds := [];
    var lastIndex: nat := 0;
    var matches := exec(text, lastIndex);
    while matches.Some?
      invariant matches == exec(text, lastIndex)
      invariant videoIds + Captures(Matches(exec, text, lastIndex)) == Captures(Matches(exec, text, 0))
      decreases |text| - lastIndex
    {
      var m := matches.value;
      assert Captures(Matches(exec, text, lastIndex)) == [m.capture] + Captures(Matches(exec, text, m.lastIndex));
      videoIds := videoIds + [m.capture];
      lastIndex := m.lastIndex;
      matches := exec(text, lastIndex);
    }
    assert videoIds + [] == videoIds;
  }

  /**
   `parseYoutubeIds(text)`: the ids of every watch, embed or short URL in
   the text, one per match, in order, repeats kept. The first one is what
   `parseYoutubeId` finds, and there is none exactly when it finds none.
   */
  method ParseYoutubeIds(exec: Exec, text: string) returns (videoIds: seq<string>)
    requires Progresses(exec)
    ensures videoIds == Captures(Matches(exec, text, 0))
    ensures |videoIds| <= |text|
    ensures videoIds == [] <==> ParseYoutubeId(exec, text).None?
    ensures videoIds != [] ==> videoIds[0] == ParseYoutubeId(exec, text).value
  {
    videoIds := CollectCaptures(exec, text);
    MatchesLeftToRight(exec, text, 0);
  }

  // The thumbnail expression (img\.youtube|i\.ytimg|i1\.ytimg)\.com\/vi\/([^\/\s]+), flags "ig".

  /**
   The length of `host.com/vi/` at `p`, ignoring ASCII case, or 0 when no
   host of the alternation is there. The three hosts differ in their
   second character, so at most one of them can match at a position.
   */
  function ThumbnailPrefixLength(text: string, p: nat): (n: nat)
    ensures n == 0 || n == 15 || n == 16 || n == 19
    ensures n != 0 ==> p + n <= |text|
  {
    if IsPrefixAtIgnoreCase(text, p, "img.youtube.com/vi/") then 19
    else if IsPrefixAtIgnoreCase(text, p, "i.ytimg.com/vi/") then 15
    else if IsPrefixAtIgnoreCase(text, p, "i1.ytimg.com/vi/") then 16
    else 0
  }

  /**
   No two hosts of the alternation match at the same position, so trying
   them in a fixed order loses no match: their second characters `m`, `.`
   and `1` differ, and none of them has a case.
   */
  lemma ThumbnailHostsDisjoint(text: string, p: nat)
    ensures !(IsPrefixAtIgnoreCase(text, p, "img.youtube.com/vi/") && IsPrefixAtIgnoreCase(text, p, "i.ytimg.com/vi/"))
    ensures !(IsPrefixAtIgnoreCase(text, p, "img.youtube.com/vi/") && IsPrefixAtIgnoreCase(text, p, "i1.ytimg.com/vi/"))
    ensures !(IsPrefixAtIgnoreCase(text, p, "i.ytimg.com/vi/") && IsPrefixAtIgnoreCase(text, p, "i1.ytimg.com/vi/"))
  {
    if IsPrefixAtIgnoreCase(text, p, "img.youtube.com/vi/") {
      assert ToLowerAscii(text[p..p + 19][1]) == 'm';
    }
    if IsPrefixAtIgnoreCase(text, p, "i.ytimg.com/vi/") {
      assert ToLowerAscii(text[p..p + 15][1]) == '.';
    }
    if IsPrefixAtIgnoreCase(text, p, "i1.ytimg.com/vi/") {
      assert ToLowerAscii(text[p..p + 16][1]) == '1';
    }
  }

  /** The characters of the capture class `[^\/\s]`. */
  predicate IsThumbnailIdChar(c: char) {
    c != '/' && !IsJsWhitespace(c)
  }

  /** The end of the greedy run `[^\/\s]*` that starts at `i`. */
  function IdRunEnd(text: string, i: nat): (e: nat)
    requires i <= |text|
    ensures i <= e <= |text|
    ensures forall k :: i <= k < e ==> IsThumbnailIdChar(text[k])
    ensures e < |text| ==> !IsThumbnailIdChar(text[e])
    decreases |text| - i
  {
    if i == |text| || !IsThumbnailIdChar(text[i]) then i else IdRunEnd(text, i + 1)
  }

  /** The thumbnail expression tried at `p` only: a host prefix followed by at least one id character. */
  function ThumbnailMatchAt(text: string, p: nat): (r: Option<RegexMatch>)
    ensures r.Some? ==> r.value.index == p < r.value.lastIndex <= |text|
    ensures r.Some? ==> |r.value.capture| > 0
    ensures r.Some? ==> forall c :: c in r.value.capture ==> IsThumbnailIdChar(c)
    ensures ThumbnailPrefixLength(text, p) == 0 ==> r.None?
  {
    var n := ThumbnailPrefixLength(text, p);
    if n == 0 then None
    else
      var e := IdRunEnd(text, p + n);
      if e == p + n then None else Some(RegexMatch(p, e, text[p + n..e]))
  }

  /** `exec` of the global thumbnail expression: the leftmost match that starts at `from` or later. */
  function ThumbnailExec(text: string, from: nat): (r: Option<RegexMatch>)
    ensures r.Some? ==> from <= r.value.index && ThumbnailMatchAt(text, r.value.index) == r
    decreases |text| - from
  {
    if from >= |text| then None
    else if ThumbnailMatchAt(text, from).Some? then ThumbnailMatchAt(text, from)
    else ThumbnailExec(text, from + 1)
  }

  /** The match `ThumbnailExec` returns is the leftmost one, and it returns none only when there is none. */
  lemma {:induction false} ThumbnailExecLeftmost(text: string, from: nat, p: nat)
    requires from <= p
    ensures ThumbnailExec(text, from).None? ==> ThumbnailMatchAt(text, p).None?
    ensures ThumbnailExec(text, from).Some? && p < ThumbnailExec(text, from).value.index ==>
      ThumbnailMatchAt(text, p).None?
    decreases |text| - from
  {
    if from < |text| && ThumbnailMatchAt(text, from).None? && from < p {
      ThumbnailExecLeftmost(text, from + 1, p);
    }
  }

  lemma ThumbnailExecProgresses()
    ensures Progresses(ThumbnailExec)
  {
  }

  /** A position where one of the three thumbnail hosts, followed by `.com/vi/`, begins. */
  predicate ThumbnailHostAt(text: string, p: nat) {
    ThumbnailPrefixLength(text, p) != 0
  }

  /** Every match a global search for thumbnails returns is the expression matched at its own index. */
  lemma {:induction false} ThumbnailMatchesAnchored(text: string, from: nat)
    requires Progresses(ThumbnailExec)
    ensures forall k :: 0 <= k < |Matches(ThumbnailExec, text, from)| ==>
      var m := Matches(ThumbnailExec, text, from)[k];
      ThumbnailMatchAt(text, m.index) == Some(m)
    decreases |text| - from
  {
    match ThumbnailExec(text, from)
    case None =>
    case Some(m) =>
      ThumbnailMatchesAnchored(text, m.lastIndex);
  }

  /**
   `parseYoutubeThumbnailIds(text)`: the id of every thumbnail URL in the
   text, one per non-overlapping match from left to right, repeats kept.
   Each id is non-empty and holds neither `/` nor whitespace; a text without
   a thumbnail host yields no id.
   */
  method ParseYoutubeThumbnailIds(text: string) returns (videoIds: seq<string>)
    ensures Progresses(ThumbnailExec) && videoIds == Captures(Matches(ThumbnailExec, text, 0))
    ensures forall k :: 0 <= k < |videoIds| ==>
      |videoIds[k]| > 0 && forall c :: c in videoIds[k] ==> IsThumbnailIdChar(c)
    ensures (forall p: nat :: !ThumbnailHostAt(text, p)) ==> videoIds == []
  {
    ThumbnailExecProgresses();
    videoIds := CollectCaptures(ThumbnailExec, text);
    ghost var ms := Matches(ThumbnailExec, text, 0);
    ThumbnailMatchesAnchored(text, 0);
    forall k | 0 <= k < |videoIds|
      ensures |videoIds[k]| > 0 && forall c :: c in videoIds[k] ==> IsThumbnailIdChar(c)
    {
      assert ThumbnailMatchAt(text, ms[k].index) == Some(ms[k]);
    }
    if ThumbnailExec(text, 0).Some? {
      var m := ThumbnailExec(text, 0).value;
      assert ThumbnailHostAt(text, m.index);
    }
  }
}
