/**
 * `BookmarkManager`: the browser's decisions over the bookmark engine —
 * which folder to open, the folder path shown above it, the parent a folder
 * picker shows, children and search results without folders, and guarded
 * deletes and edits. The manager holds an optional engine; without one
 * every query answers nil or `[]` and every mutation does nothing.
 *
 * The two preferences it reads (whether to reopen the last visited folder,
 * and that folder's stored id, with -1 for the root) are parameters.
 */
module BookmarkManagement {
  import opened Wrappers
  import opened ArrayExtensions
  import opened BookmarkStore

  /** A node the engine has that is a folder. */
  predicate IsFolderIn(nodes: Store, id: Id) {
    id in nodes && nodes[id].isFolder
  }

  /** The positions in `s` of the ids that are not folders. */
  function NonFolderIndices(nodes: Store, s: seq<Id>): (idx: seq<int>)
    ensures Increasing(idx) && IndicesIn(idx, s)
    ensures |idx| <= |s|
    ensures forall i :: 0 <= i < |s| ==> (i in idx <==> !IsFolderIn(nodes, s[i]))
  {
    if s == [] then []
    else
      var init := NonFolderIndices(nodes, s[..|s| - 1]);
      if IsFolderIn(nodes, s[|s| - 1]) then init else init + [|s| - 1]
  }

  /** `filter({ $0.isFolder == false })`, and the `compactMap` that does the
      same: the non-folders, in order. */
  function NonFolders(nodes: Store, s: seq<Id>): (r: seq<Id>)
    ensures r == Select(s, NonFolderIndices(nodes, s))
    ensures |r| <= |s| && forall y :: y in r ==> y in s
    ensures forall k :: 0 <= k < |r| ==> !IsFolderIn(nodes, r[k])
    ensures forall y :: y in s && !IsFolderIn(nodes, y) ==> y in r
  {
    var idx := NonFolderIndices(nodes, s);
    var r := Select(s, idx);
    assert forall k :: 0 <= k < |r| ==> idx[k] in idx;
    forall y | y in r
      ensures y in s
    {
      var k :| 0 <= k < |r| && r[k] == y;
      assert s[idx[k]] == y;
    }
    forall y | y in s && !IsFolderIn(nodes, y)
      ensures y in r
    {
      var i :| 0 <= i < |s| && s[i] == y;
      var k :| 0 <= k < |idx| && idx[k] == i;
      assert r[k] == y;
    }
    r
  }

  function Reversed(s: seq<Id>): (r: seq<Id>)
    ensures |r| == |s|
    ensures forall k :: 0 <= k < |s| ==> r[k] == s[|s| - 1 - k]
  {
    if s == [] then [] else Reversed(s[1..]) + [s[0]]
  }

  /** The arguments of `bookmarksAPI.search(withQuery:maxCount:)`. The
      bookmark engine's search takes a query that is always present, unlike
      the history engine's, whose request is a type of its own in `History`;
      the two engines, and so the two modules, share nothing. */
  datatype SearchRequest = SearchRequest(query: string, maxCount: nat)

  /** What `byFrequency` does: the search it requests, if any, and what it
      passes to `completion`. */
  datatype FrequencyAnswer = FrequencyAnswer(request: Option<SearchRequest>, completed: seq<Id>)

  const FrequencyMaxCount: nat := 200

  class BookmarkManager {
    const bookmarksAPI: BookmarksAPI?

    constructor (bookmarksAPI: BookmarksAPI?)
      requires bookmarksAPI != null ==> bookmarksAPI.Valid()
      ensures this.bookmarksAPI == bookmarksAPI
      ensures Valid()
    {
      this.bookmarksAPI := bookmarksAPI;
    }

    ghost predicate Valid()
      reads this, bookmarksAPI
    {
      bookmarksAPI != null ==> bookmarksAPI.Valid()
    }

    /** A stored folder id that names a visible node. */
    predicate Shows(id: int)
      reads this, bookmarksAPI
    {
      bookmarksAPI != null && bookmarksAPI.GetNodeById(id).Some? && bookmarksAPI.nodes[id].isVisible
    }

    /** `lastVisitedFolder()`; nil stands for the root folder. */
    function LastVisitedFolder(showLastVisitedFolder: bool, lastFolderNodeId: Option<int>): (r: Option<Id>)
      reads this, bookmarksAPI
      ensures bookmarksAPI == null ==> r.None?
      ensures (bookmarksAPI != null && (!showLastVisitedFolder || lastFolderNodeId.None?))
                ==> r == bookmarksAPI.MobileNode()
      ensures showLastVisitedFolder && lastFolderNodeId == Some(-1) ==> r.None?
      ensures (showLastVisitedFolder && lastFolderNodeId.Some? && lastFolderNodeId.value != -1
                && Shows(lastFolderNodeId.value)) ==> r == lastFolderNodeId
      ensures (bookmarksAPI != null && showLastVisitedFolder && lastFolderNodeId.Some?
                && lastFolderNodeId.value != -1 && !Shows(lastFolderNodeId.value))
                ==> r == bookmarksAPI.MobileNode()
      ensures r.Some? ==> bookmarksAPI != null && r.value in bookmarksAPI.nodes
    {
      if bookmarksAPI == null then None
      else if !showLastVisitedFolder || lastFolderNodeId.None? then bookmarksAPI.MobileNode()
      else if lastFolderNodeId.value == -1 then None
      else if Shows(lastFolderNodeId.value) then lastFolderNodeId
      else bookmarksAPI.MobileNode()
    }

    /** The condition under which `lastFolderPath()` walks up from the
        stored folder. */
    predicate WalksFromStoredFolder(showLastVisitedFolder: bool, lastFolderNodeId: Option<int>)
      reads this, bookmarksAPI
    {
      showLastVisitedFolder && lastFolderNodeId.Some? && Shows(lastFolderNodeId.value)
    }

    /** Whether the walk goes on above `id`: its parent is visible and is
        not the root. */
    predicate ClimbsAbove(id: Id)
      reads this, bookmarksAPI
      requires bookmarksAPI != null && bookmarksAPI.Valid() && id in bookmarksAPI.nodes
    {
      var parent := bookmarksAPI.nodes[id].parent;
      parent.Some? && bookmarksAPI.nodes[parent.value].isVisible && parent != bookmarksAPI.RootNode()
    }

    /** `lastFolderPath()`: from the topmost visible ancestor below the root
        down to the stored folder; otherwise the mobile folder alone. */
    method LastFolderPath(showLastVisitedFolder: bool, lastFolderNodeId: Option<int>) returns (path: seq<Id>)
      requires Valid()
      ensures bookmarksAPI == null ==> path == []
      ensures WalksFromStoredFolder(showLastVisitedFolder, lastFolderNodeId) ==>
        && path != [] && path[|path| - 1] == lastFolderNodeId.value
        && (forall k :: 0 <= k < |path| ==> path[k] in bookmarksAPI.nodes && bookmarksAPI.nodes[path[k]].isVisible)
        && (forall k :: 0 <= k < |path| - 1 ==> Some(path[k]) != bookmarksAPI.RootNode())
        && (forall k :: 0 <= k < |path| - 1 ==> bookmarksAPI.nodes[path[k + 1]].parent == Some(path[k]))
        && !ClimbsAbove(path[0])
      ensures bookmarksAPI != null && !WalksFromStoredFolder(showLastVisitedFolder, lastFolderNodeId) ==>
        path == if bookmarksAPI.MobileNode().Some? then [bookmarksAPI.MobileNode().value] else []
      ensures lastFolderNodeId != Some(-1) ==>
        && (path == [] <==> LastVisitedFolder(showLastVisitedFolder, lastFolderNodeId).None?)
        && (path != [] ==> Some(path[|path| - 1]) == LastVisitedFolder(showLastVisitedFolder, lastFolderNodeId))
    {
      if bookmarksAPI == null {
        return [];
      }
      var api := bookmarksAPI;
      if showLastVisitedFolder && lastFolderNodeId.Some? && api.GetNodeById(lastFolderNodeId.value).Some?
         && api.nodes[lastFolderNodeId.value].isVisible
      {
        var rootNodeGuid := api.RootNode();
        var folderNode := lastFolderNodeId.value;
        var nodes := [folderNode];
        while true
          invariant folderNode in api.nodes
          invariant nodes != [] && nodes[0] == lastFolderNodeId.value && nodes[|nodes| - 1] == folderNode
          invariant forall k :: 0 <= k < |nodes| ==> nodes[k] in api.nodes && api.nodes[nodes[k]].isVisible
          invariant forall k :: 1 <= k < |nodes| ==> Some(nodes[k]) != rootNodeGuid
          invariant forall k :: 0 <= k < |nodes| - 1 ==> api.nodes[nodes[k]].parent == Some(nodes[k + 1])
          decreases api.rank[folderNode]
        {
          var parent := api.nodes[folderNode].parent;
          if parent.Some? && api.nodes[parent.value].isVisible && parent != rootNodeGuid {
            nodes := nodes + [parent.value];
            folderNode := parent.value;
            continue;
          }
          break;
        }
        path := Reversed(nodes);
        return;
      }
      var mobileNode := api.MobileNode();
      if mobileNode.Some? {
        return [mobileNode.value];
      }
      return [];
    }

    /** `mobileNode()`. */
    function MobileNode(): (r: Option<Id>)
      reads this, bookmarksAPI
      ensures bookmarksAPI == null ==> r.None?
      ensures r.Some? ==> bookmarksAPI != null && r.value in bookmarksAPI.nodes && r == bookmarksAPI.mobileId
      ensures (bookmarksAPI != null && bookmarksAPI.mobileId.Some? && bookmarksAPI.mobileId.value in bookmarksAPI.nodes)
                ==> r == bookmarksAPI.mobileId
    {
      if bookmarksAPI == null then None else bookmarksAPI.MobileNode()
    }

    /** `fetchParent(_:)`: the item's parent, hidden when it is the root. */
    function FetchParent(bookmarkItem: Option<Id>): (r: Option<Id>)
      reads this, bookmarksAPI
      requires bookmarksAPI != null && bookmarkItem.Some? ==> bookmarkItem.value in bookmarksAPI.nodes
      ensures r.Some? <==>
                && bookmarksAPI != null && bookmarkItem.Some?
                && bookmarksAPI.nodes[bookmarkItem.value].parent.Some?
                && bookmarksAPI.nodes[bookmarkItem.value].parent != bookmarksAPI.RootNode()
      ensures r.Some? ==> r == bookmarksAPI.nodes[bookmarkItem.value].parent
    {
      if bookmarkItem.None? || bookmarksAPI == null then None
      else
        var parent := bookmarksAPI.nodes[bookmarkItem.value].parent;
        if parent.Some? && parent != bookmarksAPI.RootNode() then parent else None
    }

    /** `getChildren(forFolder:includeFolders:)`. */
    function GetChildren(folder: Id, includeFolders: bool): (r: seq<Id>)
      reads this, bookmarksAPI
      requires bookmarksAPI != null && folder in bookmarksAPI.nodes
      ensures includeFolders ==> r == bookmarksAPI.nodes[folder].children
      ensures !includeFolders ==>
        var children := bookmarksAPI.nodes[folder].children;
        r == Select(children, NonFolderIndices(bookmarksAPI.nodes, children))
    {
      var result := bookmarksAPI.nodes[folder].children;
      if includeFolders then result else NonFolders(bookmarksAPI.nodes, result)
    }

    /** `byFrequency(query:completion:)`: `found` is what the engine's search
        delivers. */
    function ByFrequency(query: Option<string>, found: seq<Id>): (r: FrequencyAnswer)
      reads this, bookmarksAPI
      requires bookmarksAPI != null ==> forall y :: y in found ==> y in bookmarksAPI.nodes
      ensures r.request.None? <==> query.None? || query.value == "" || bookmarksAPI == null
      ensures r.request.None? ==> r.completed == []
      ensures r.request.Some? ==>
        && r.request.value == SearchRequest(query.value, FrequencyMaxCount)
        && r.completed == Select(found, NonFolderIndices(bookmarksAPI.nodes, found))
      ensures forall k :: 0 <= k < |r.completed| ==> !IsFolderIn(bookmarksAPI.nodes, r.completed[k])
    {
      if query.None? || query.value == "" || bookmarksAPI == null then FrequencyAnswer(None, [])
      else FrequencyAnswer(Some(SearchRequest(query.value, FrequencyMaxCount)), NonFolders(bookmarksAPI.nodes, found))
    }

    /** `delete(_:)`: only a node that can be deleted goes, with its
        subtree. */
    method Delete(bookmarkItem: Id)
      requires Valid() && (bookmarksAPI != null ==> bookmarkItem in bookmarksAPI.nodes)
      modifies bookmarksAPI
      ensures Valid()
      ensures bookmarksAPI != null ==>
        bookmarksAPI.nodes == if old(bookmarksAPI.nodes[bookmarkItem].canBeDeleted)
                              then RemoveSubtree(old(bookmarksAPI.nodes), old(bookmarksAPI.rank), bookmarkItem)
                              else old(bookmarksAPI.nodes)
    {
      if bookmarksAPI == null {
        return;
      }
      if bookmarksAPI.nodes[bookmarkItem].canBeDeleted {
        bookmarksAPI.RemoveBookmark(bookmarkItem);
      }
    }

    /** `updateWithNewLocation(_:customTitle:url:location:)`. */
    method UpdateWithNewLocation(bookmarkItem: Id, customTitle: Option<string>, url: Option<string>, location: Option<Id>)
      requires Valid() && (bookmarksAPI != null ==> bookmarkItem in bookmarksAPI.nodes)
      modifies bookmarksAPI
      ensures Valid()
      ensures bookmarksAPI != null ==>
        bookmarksAPI.nodes == UpdatedStore(old(bookmarksAPI.nodes), old(bookmarksAPI.rank), old(bookmarksAPI.MobileNode()),
                                           bookmarkItem, customTitle, url, location)
    {
      if bookmarksAPI == null {
        return;
      }
      var api := bookmarksAPI;
      var target := if location.Some? then location else api.MobileNode();
      if target.Some? {
        if target != api.nodes[bookmarkItem].parent {
          api.Move(bookmarkItem, target.value);
        }
        if customTitle.Some? {
          api.SetTitle(bookmarkItem, customTitle.value);
        }
        if url.Some? && !api.nodes[bookmarkItem].isFolder {
          api.SetUrl(bookmarkItem, url.value);
        }
      }
    }
  }

  /** Where `updateWithNewLocation` puts the item: the given location, or
      else the mobile folder. */
  function Target(location: Option<Id>, mobile: Option<Id>): Option<Id> {
    if location.Some? then location else mobile
  }

  /** Whether the engine accepts moving `x` under `p`. */
  predicate Accepts(nodes: Store, ghost rank: map<Id, nat>, x: Id, p: Id)
    requires ParentsBelow(nodes, rank) && x in nodes
  {
    p in nodes && !IsAncestorOrSelf(nodes, rank, x, p)
  }

  /** The move step: only when the target differs from the current parent. */
  function MoveStep(nodes: Store, ghost rank: map<Id, nat>, item: Id, target: Id): (r: Store)
    requires ParentsBelow(nodes, rank) && item in nodes
    ensures r.Keys == nodes.Keys
  {
    if Some(target) != nodes[item].parent then EngineMove(nodes, rank, item, target) else nodes
  }

  /** The title step: only when a title is given. */
  function TitleStep(nodes: Store, item: Id, customTitle: Option<string>): (r: Store)
    requires item in nodes
    ensures r.Keys == nodes.Keys
  {
    if customTitle.Some? then nodes[item := nodes[item].(title := customTitle.value)] else nodes
  }

  /** The url step: only when a url is given and the item is no folder. */
  function UrlStep(nodes: Store, item: Id, url: Option<string>): (r: Store)
    requires item in nodes
    ensures r.Keys == nodes.Keys
  {
    if url.Some? && !nodes[item].isFolder then nodes[item := nodes[item].(url := url)] else nodes
  }

  /** The store `updateWithNewLocation` leaves: with a target, the move, the
      title and the url steps in turn; with none, the store as it was. */
  function UpdatedStore(nodes: Store, ghost rank: map<Id, nat>, mobile: Option<Id>, item: Id,
                        customTitle: Option<string>, url: Option<string>, location: Option<Id>): (r: Store)
    requires ParentsBelow(nodes, rank) && item in nodes
    ensures r.Keys == nodes.Keys
  {
    var target := Target(location, mobile);
    if target.None? then nodes
    else UrlStep(TitleStep(MoveStep(nodes, rank, item, target.value), item, customTitle), item, url)
  }

  /** The engine's move changes links only, and the mover's parent exactly
      when it accepts. */
  lemma EngineMoveFields(nodes: Store, rank: map<Id, nat>, x: Id, p: Id)
    requires WellFormed(nodes, rank) && x in nodes
    ensures forall n | n in nodes :: Attributes(EngineMove(nodes, rank, x, p)[n]) == Attributes(nodes[n])
    ensures EngineMove(nodes, rank, x, p)[x].parent == if Accepts(nodes, rank, x, p) then Some(p) else nodes[x].parent
  {
    if Accepts(nodes, rank, x, p) {
      ReparentFields(nodes, rank, x, p);
    }
  }

  /** `updateWithNewLocation` with no location and no mobile folder changes
      nothing. */
  lemma UpdateWithoutTarget(nodes: Store, rank: map<Id, nat>, mobile: Option<Id>, item: Id,
                            customTitle: Option<string>, url: Option<string>, location: Option<Id>)
    requires WellFormed(nodes, rank) && item in nodes
    requires location.None? && mobile.None?
    ensures UpdatedStore(nodes, rank, mobile, item, customTitle, url, location) == nodes
  {
  }

  /** With a target, the item gets the target as parent when it differs
      from the current one and the engine accepts, the given title if any,
      and the given url if any unless it is a folder. */
  lemma {:induction false} UpdatedItem(nodes: Store, rank: map<Id, nat>, mobile: Option<Id>, item: Id,
                                       customTitle: Option<string>, url: Option<string>, location: Option<Id>)
    requires WellFormed(nodes, rank) && item in nodes && Target(location, mobile).Some?
    ensures UpdatedStore(nodes, rank, mobile, item, customTitle, url, location)[item].parent
      == if Target(location, mobile) != nodes[item].parent && Accepts(nodes, rank, item, Target(location, mobile).value)
         then Target(location, mobile) else nodes[item].parent
    ensures UpdatedStore(nodes, rank, mobile, item, customTitle, url, location)[item].title
      == if customTitle.Some? then customTitle.value else nodes[item].title
    ensures UpdatedStore(nodes, rank, mobile, item, customTitle, url, location)[item].url
      == if url.Some? && !nodes[item].isFolder then url else nodes[item].url
  {
    var target := Target(location, mobile).value;
    EngineMoveFields(nodes, rank, item, target);
    var moved := MoveStep(nodes, rank, item, target);
    assert Attributes(moved[item]) == Attributes(nodes[item]);
    var titled := TitleStep(moved, item, customTitle);
    assert titled[item].isFolder == nodes[item].isFolder;
    assert titled[item].url == nodes[item].url;
  }

  /** Every other node keeps its attributes, and no node changes whether it
      is a folder, is visible or can be deleted. */
  lemma {:induction false} UpdatedOthers(nodes: Store, rank: map<Id, nat>, mobile: Option<Id>, item: Id,
                                         customTitle: Option<string>, url: Option<string>, location: Option<Id>)
    requires WellFormed(nodes, rank) && item in nodes
    ensures forall n | n in nodes && n != item ::
      Attributes(UpdatedStore(nodes, rank, mobile, item, customTitle, url, location)[n]) == Attributes(nodes[n])
    ensures forall n | n in nodes ::
      && UpdatedStore(nodes, rank, mobile, item, customTitle, url, location)[n].isFolder == nodes[n].isFolder
      && UpdatedStore(nodes, rank, mobile, item, customTitle, url, location)[n].isVisible == nodes[n].isVisible
      && UpdatedStore(nodes, rank, mobile, item, customTitle, url, location)[n].canBeDeleted == nodes[n].canBeDeleted
  {
    var target := Target(location, mobile);
    if target.Some? {
      EngineMoveFields(nodes, rank, item, target.value);
      var moved := MoveStep(nodes, rank, item, target.value);
      var titled := TitleStep(moved, item, customTitle);
      var r := UrlStep(titled, item, url);
      assert r == UpdatedStore(nodes, rank, mobile, item, customTitle, url, location);
      forall n | n in nodes
        ensures n != item ==> Attributes(r[n]) == Attributes(nodes[n])
        ensures r[n].isFolder == nodes[n].isFolder && r[n].isVisible == nodes[n].isVisible
        ensures r[n].canBeDeleted == nodes[n].canBeDeleted
      {
        assert Attributes(moved[n]) == Attributes(nodes[n]);
        assert moved[n].isFolder == nodes[n].isFolder;
        assert moved[n].isVisible == nodes[n].isVisible;
        assert moved[n].canBeDeleted == nodes[n].canBeDeleted;
        if n != item {
          assert r[n] == moved[n];
        }
      }
    }
  }

  /** Links change only through the move: every node but the item keeps its
      parent, and only the old and the new parent's children lists change,
      as the engine's move describes. */
  lemma {:induction false} UpdatedLinks(nodes: Store, rank: map<Id, nat>, mobile: Option<Id>, item: Id,
                                        customTitle: Option<string>, url: Option<string>, location: Option<Id>)
    requires WellFormed(nodes, rank) && item in nodes
    ensures forall n | n in nodes && n != item ::
      UpdatedStore(nodes, rank, mobile, item, customTitle, url, location)[n].parent == nodes[n].parent
    ensures forall n | n in nodes ::
      UpdatedStore(nodes, rank, mobile, item, customTitle, url, location)[n].children
        == if && Target(location, mobile).Some?
              && Target(location, mobile) != nodes[item].parent
              && Accepts(nodes, rank, item, Target(location, mobile).value)
           then ChildrenAfterMove(nodes, item, Target(location, mobile).value, n)
           else nodes[n].children
    ensures forall n | n in nodes && Some(n) != nodes[item].parent && Some(n) != Target(location, mobile) ::
      UpdatedStore(nodes, rank, mobile, item, customTitle, url, location)[n].children == nodes[n].children
  {
    var target := Target(location, mobile);
    if target.Some? {
      var moved := MoveStep(nodes, rank, item, target.value);
      var r := UrlStep(TitleStep(moved, item, customTitle), item, url);
      assert r == UpdatedStore(nodes, rank, mobile, item, customTitle, url, location);
      var moves := target != nodes[item].parent && Accepts(nodes, rank, item, target.value);
      if moves {
        ReparentFields(nodes, rank, item, target.value);
      }
      forall n | n in nodes
        ensures r[n].parent == moved[n].parent && r[n].children == moved[n].children
      {
      }
    }
  }

  /** A folder's url never changes. */
  lemma FolderUrlUnchanged(nodes: Store, rank: map<Id, nat>, mobile: Option<Id>, item: Id,
                           customTitle: Option<string>, url: Option<string>, location: Option<Id>)
    requires WellFormed(nodes, rank) && item in nodes && nodes[item].isFolder
    ensures UpdatedStore(nodes, rank, mobile, item, customTitle, url, location)[item].url == nodes[item].url
  {
    if Target(location, mobile).Some? {
      UpdatedItem(nodes, rank, mobile, item, customTitle, url, location);
    }
  }
}
