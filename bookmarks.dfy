/**
 Collecting the bookmark folders that hold YouTube videos. The bookmark tree
 is an input (the browser hands it over); the walk groups, per folder, the
 ids of the bookmarks directly inside it.
 */
module Bookmarks {
  import opened Wrappers
  import opened Parsing

  /**
   A bookmark tree node. The fields the script tests for truthiness use
   their empty value for "undefined": `nodeType` is "" when the node has no
   `type`, `url` is "" for a folder or separator, and `children` is [] for a
   node without children (the script treats a missing and an empty list
   alike).
   */
  datatype Node = Node(nodeType: string, title: string, url: string, children: seq<Node>)

  /** A `YouTubeBookmarks` record: a folder's path and the ids of the videos bookmarked directly in it. */
  datatype Group = Group(folderName: string, videoIds: seq<string>)

  predicate IsSeparator(node: Node) {
    node.nodeType == "separator"
  }

  /** A node the walk descends into: not a separator, with at least one child. */
  predicate IsFolder(node: Node) {
    !IsSeparator(node) && |node.children| > 0
  }

  /** The path given to the children of `node`: `parentFolder + node.title + "/"`. */
  function FolderPath(parentFolder: string, node: Node): string {
    parentFolder + node.title + "/"
  }

  /**
   The id a node contributes to its folder's group: a leaf that is no
   separator, has a non-empty URL, and whose URL `parseYoutubeId` turns into
   a truthy (present, non-empty) id.
   */
  function LeafVideoId(exec: Exec, node: Node): Option<string> {
    if IsSeparator(node) || IsFolder(node) || node.url == "" then None
    else
      match ParseYoutubeId(exec, node.url)
      case Some(id) => if id != "" then Some(id) else None
      case None => None
  }

  /** The ids the nodes contribute to their own folder, in bookmark order. */
  function OwnVideoIds(exec: Exec, nodes: seq<Node>): (ids: seq<string>)
    ensures |ids| <= |nodes|
    ensures forall id :: id in ids ==> id != ""
  {
    if nodes == [] then []
    else
      var init := OwnVideoIds(exec, nodes[..|nodes| - 1]);
      match LeafVideoId(exec, nodes[|nodes| - 1])
      case Some(id) => init + [id]
      case None => init
  }

  /** The groups collected from the subfolders among `nodes`, in traversal order. */
  function SubfolderGroups(exec: Exec, parentFolder: string, nodes: seq<Node>): seq<Group>
    decreases nodes, 0
  {
    if nodes == [] then []
    else
      var last := nodes[|nodes| - 1];
      SubfolderGroups(exec, parentFolder, nodes[..|nodes| - 1])
        + (if IsFolder(last) then CollectFolder(exec, FolderPath(parentFolder, last), last.children) else [])
  }

  /**
   The groups of the folder at `parentFolder` whose entries are `nodes`:
   its own group first, when some entry yields an id, then the groups of
   its subfolders.
   */
  function CollectFolder(exec: Exec, parentFolder: string, nodes: seq<Node>): seq<Group>
    decreases nodes, 1
  {
    var own := OwnVideoIds(exec, nodes);
    (if own == [] then [] else [Group(parentFolder, own)]) + SubfolderGroups(exec, parentFolder, nodes)
  }

  /** `recursiveCollectBookmarks(parentFolder, tree)` as a value: nothing for a null tree. */
  function CollectBookmarks(exec: Exec, parentFolder: string, tree: Option<seq<Node>>): seq<Group> {
    match tree
    case None => []
    case Some(nodes) => CollectFolder(exec, parentFolder, nodes)
  }

  /**
   `recursiveCollectBookmarks(parentFolder, tree)`: walks the entries in
   order, appending the groups of each subfolder as it is reached and
   gathering the ids of the direct bookmarks into one record, which is put
   in front of everything collected once the walk is over.
   */
  method RecursiveCollectBookmarks(exec: Exec, parentFolder: string, tree: Option<seq<Node>>)
    returns (bookmarks: seq<Group>)
    ensures bookmarks == CollectBookmarks(exec, parentFolder, tree)
    decreases if tree.Some? then tree.value else [], 1
  {
    bookmarks := [];
    if tree.None? {
      return;
    }
    var nodes := tree.value;
    var currentBookmarks: Option<Group> := None;
    for i := 0 to |nodes|
      invariant bookmarks == SubfolderGroups(exec, parentFolder, nodes[..i])
      invariant currentBookmarks.None? <==> OwnVideoIds(exec, nodes[..i]) == []
      invariant currentBookmarks.Some? ==> currentBookmarks.value == Group(parentFolder, OwnVideoIds(exec, nodes[..i]))
    {
      var node := nodes[i];
      assert nodes[..i + 1][..i] == nodes[..i];
      if IsSeparator(node) {
        continue;
      }
      if |node.children| > 0 {
        var sub := RecursiveCollectBookmarks(exec, parentFolder + node.title + "/", Some(node.children));
        bookmarks := bookmarks + sub;
      } else {
        if node.url == "" {
          continue;
        }
        var videoId := ParseYoutubeId(exec, node.url);
        if videoId.Some? && videoId.value != "" {
          if currentBookmarks.None? {
            currentBookmarks := Some(Group(parentFolder, [videoId.value]));
          } else {
            currentBookmarks := Some(Group(parentFolder, currentBookmarks.value.videoIds + [videoId.value]));
          }
        }
      }
    }
    assert nodes[..|nodes|] == nodes;
    if currentBookmarks.Some? {
      bookmarks := [currentBookmarks.value] + bookmarks;
    }
  }

  /** Every group holds at least one id, and every id in it is non-empty. */
  lemma {:induction false} CollectFolderGroupsNonEmpty(exec: Exec, parentFolder: string, nodes: seq<Node>)
    ensures forall g :: g in CollectFolder(exec, parentFolder, nodes) ==>
      g.videoIds != [] && forall id :: id in g.videoIds ==> id != ""
    decreases nodes, 1
  {
    SubfolderGroupsNonEmpty(exec, parentFolder, nodes);
  }

  lemma {:induction false} SubfolderGroupsNonEmpty(exec: Exec, parentFolder: string, nodes: seq<Node>)
    ensures forall g :: g in SubfolderGroups(exec, parentFolder, nodes) ==>
      g.videoIds != [] && forall id :: id in g.videoIds ==> id != ""
    decreases nodes, 0
  {
    if nodes != [] {
      var last := nodes[|nodes| - 1];
      SubfolderGroupsNonEmpty(exec, parentFolder, nodes[..|nodes| - 1]);
      if IsFolder(last) {
        CollectFolderGroupsNonEmpty(exec, FolderPath(parentFolder, last), last.children);
      }
    }
  }

  /** Every group collected below `parentFolder` is named by a longer path that starts with it and ends in `/`. */
  lemma {:induction false} SubfolderGroupPaths(exec: Exec, parentFolder: string, nodes: seq<Node>)
    ensures forall g :: g in SubfolderGroups(exec, parentFolder, nodes) ==>
      parentFolder < g.folderName && g.folderName[|g.folderName| - 1] == '/'
    decreases nodes, 0
  {
    if nodes != [] {
      var last := nodes[|nodes| - 1];
      SubfolderGroupPaths(exec, parentFolder, nodes[..|nodes| - 1]);
      if IsFolder(last) {
        var path := FolderPath(parentFolder, last);
        CollectFolderPaths(exec, path, last.children);
        var below := CollectFolder(exec, path, last.children);
        forall g | g in below
          ensures parentFolder < g.folderName && g.folderName[|g.folderName| - 1] == '/'
        {
          var k :| 0 <= k < |below| && below[k] == g;
          assert path <= below[k].folderName;
          assert parentFolder < path;
          if g.folderName == path {
            assert path[|path| - 1] == '/';
          }
        }
      }
    }
  }

  /**
   The placement rule of the walk: the folder's own group, named by
   `parentFolder` itself, is at index 0 and nowhere else, ahead of every
   group of its subfolders; those are named by longer paths under it.
   */
  lemma {:induction false} CollectFolderPaths(exec: Exec, parentFolder: string, nodes: seq<Node>)
    ensures forall k :: 0 <= k < |CollectFolder(exec, parentFolder, nodes)| ==>
      var name := CollectFolder(exec, parentFolder, nodes)[k].folderName;
      && parentFolder <= name
      && (name == parentFolder <==> k == 0 && OwnVideoIds(exec, nodes) != [])
      && (name != parentFolder ==> name[|name| - 1] == '/')
    ensures OwnVideoIds(exec, nodes) != [] ==>
      CollectFolder(exec, parentFolder, nodes)[0].videoIds == OwnVideoIds(exec, nodes)
    decreases nodes, 1
  {
    SubfolderGroupPaths(exec, parentFolder, nodes);
    var r := CollectFolder(exec, parentFolder, nodes);
    var subs := SubfolderGroups(exec, parentFolder, nodes);
    var shift := if OwnVideoIds(exec, nodes) == [] then 0 else 1;
    forall k | shift <= k < |r| ensures r[k] in subs {
      assert r[k] == subs[k - shift];
    }
  }

  /** All ids of the groups, one group after the other. */
  function GroupIds(groups: seq<Group>): seq<string> {
    if groups == [] then [] else groups[0].videoIds + GroupIds(groups[1..])
  }

  lemma {:induction false} GroupIdsAppend(a: seq<Group>, b: seq<Group>)
    ensures GroupIds(a + b) == GroupIds(a) + GroupIds(b)
  {
    if a == [] {
      assert a + b == b;
    } else {
      assert (a + b)[0] == a[0] && (a + b)[1..] == a[1..] + b;
      GroupIdsAppend(a[1..], b);
      calc {
        GroupIds(a + b);
        a[0].videoIds + GroupIds(a[1..] + b);
        a[0].videoIds + (GroupIds(a[1..]) + GroupIds(b));
        GroupIds(a) + GroupIds(b);
      }
    }
  }

  /** Every id a bookmark anywhere in the tree yields, in depth-first order. */
  function TreeVideoIds(exec: Exec, nodes: seq<Node>): seq<string>
    decreases nodes
  {
    if nodes == [] then []
    else
      var last := nodes[|nodes| - 1];
      TreeVideoIds(exec, nodes[..|nodes| - 1])
        + if IsFolder(last) then TreeVideoIds(exec, last.children)
          else match LeafVideoId(exec, last) case Some(id) => [id] case None => []
  }

  /** No id is lost or invented: the groups hold exactly the ids of the tree, each as often as it is bookmarked. */
  lemma {:induction false} CollectFolderKeepsIds(exec: Exec, parentFolder: string, nodes: seq<Node>)
    ensures multiset(GroupIds(CollectFolder(exec, parentFolder, nodes))) == multiset(TreeVideoIds(exec, nodes))
    decreases nodes, 1
  {
    var own := OwnVideoIds(exec, nodes);
    var subs := SubfolderGroups(exec, parentFolder, nodes);
    OwnAndSubfolderIds(exec, parentFolder, nodes);
    GroupIdsAppend(if own == [] then [] else [Group(parentFolder, own)], subs);
    assert GroupIds([Group(parentFolder, own)]) == own;
  }

  lemma {:induction false} OwnAndSubfolderIds(exec: Exec, parentFolder: string, nodes: seq<Node>)
    ensures multiset(OwnVideoIds(exec, nodes)) + multiset(GroupIds(SubfolderGroups(exec, parentFolder, nodes)))
      == multiset(TreeVideoIds(exec, nodes))
    decreases nodes, 0
  {
    if nodes != [] {
      var init := nodes[..|nodes| - 1];
      var last := nodes[|nodes| - 1];
      OwnAndSubfolderIds(exec, parentFolder, init);
      var below := if IsFolder(last) then CollectFolder(exec, FolderPath(parentFolder, last), last.children) else [];
      GroupIdsAppend(SubfolderGroups(exec, parentFolder, init), below);
      if IsFolder(last) {
        CollectFolderKeepsIds(exec, FolderPath(parentFolder, last), last.children);
      }
    }
  }

  /**
   A folder "Music" holding two YouTube bookmarks and one other bookmark
   yields one group, `{folderName: "Music/", videoIds: [id1, id2]}`.
   */
  lemma MusicFolderExample(exec: Exec, url1: string, url2: string, other: string, id1: string, id2: string)
    requires url1 != "" && url2 != "" && other != "" && id1 != "" && id2 != ""
    requires ParseYoutubeId(exec, url1) == Some(id1) && ParseYoutubeId(exec, url2) == Some(id2)
    requires ParseYoutubeId(exec, other) == None
    ensures CollectBookmarks(exec, "", Some([Node("", "Music", "", [
      Node("", "first", url1, []), Node("", "elsewhere", other, []), Node("", "second", url2, [])])]))
      == [Group("Music/", [id1, id2])]
  {
    var music := [Node("", "first", url1, []), Node("", "elsewhere", other, []), Node("", "second", url2, [])];
    assert LeafVideoId(exec, music[0]) == Some(id1);
    assert LeafVideoId(exec, music[1]) == None;
    assert LeafVideoId(exec, music[2]) == Some(id2);
    assert music[..1][..0] == [] && music[..2][..1] == music[..1] && music[..3][..2] == music[..2];
    assert OwnVideoIds(exec, music[..1]) == [id1];
    assert OwnVideoIds(exec, music[..2]) == [id1];
    assert music[..3] == music;
    assert OwnVideoIds(exec, music) == [id1, id2];
    assert SubfolderGroups(exec, "Music/", music[..1]) == [];
    assert SubfolderGroups(exec, "Music/", music[..2]) == [];
    assert SubfolderGroups(exec, "Music/", music) == [];
    var root := [Node("", "Music", "", music)];
    assert root[..0] == [];
    assert OwnVideoIds(exec, root) == [];
    assert FolderPath("", root[0]) == "Music/";
    assert CollectFolder(exec, "Music/", music) == [Group("Music/", [id1, id2])];
    assert SubfolderGroups(exec, "", root) == [Group("Music/", [id1, id2])];
  }
}
