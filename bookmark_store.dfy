/**
 * The bookmark engine as the bookmark manager sees it: a store of nodes
 * keyed by id, each with a parent, an ordered list of children and its
 * attributes, plus the root and mobile folders. The engine's own code is
 * not part of this model; its operations are stated by what they do to the
 * store: `move(toParent:)` appends a node to a new parent's children and
 * refuses moves that would create a cycle, `removeBookmark` removes a node
 * with everything below it, and `setTitle` and `url` change one field.
 */
module BookmarkStore {
  import opened Wrappers

  /** A node's id (`guid` and `nodeId` are one id here). */
  type Id = int

  datatype Node = Node(
    parent: Option<Id>,
    children: seq<Id>,
    isFolder: bool,
    isVisible: bool,
    canBeDeleted: bool,
    url: Option<string>,
    title: string)

  type Store = map<Id, Node>

  /** A node without its links: what changes when only attributes do. */
  function Attributes(node: Node): Node {
    node.(parent := None, children := [])
  }

  /** Every parent is a node of strictly smaller rank, so the parent
      relation is acyclic and walks up it terminate. */
  ghost predicate ParentsBelow(nodes: Store, rank: map<Id, nat>) {
    && nodes.Keys <= rank.Keys
    && forall id | id in nodes && nodes[id].parent.Some? ::
         nodes[id].parent.value in nodes && rank[nodes[id].parent.value] < rank[id]
  }

  /** Every listed child is a node whose parent is the lister. */
  ghost predicate ChildrenPointBack(nodes: Store) {
    forall id, k | id in nodes && 0 <= k < |nodes[id].children| ::
      nodes[id].children[k] in nodes && nodes[nodes[id].children[k]].parent == Some(id)
  }

  /** Every node with a parent is listed among its parent's children. */
  ghost predicate ParentsListChildren(nodes: Store) {
    forall id | id in nodes && nodes[id].parent.Some? && nodes[id].parent.value in nodes ::
      id in nodes[nodes[id].parent.value].children
  }

  /** The store is a forest whose parent and child links agree. */
  ghost predicate WellFormed(nodes: Store, rank: map<Id, nat>) {
    ParentsBelow(nodes, rank) && ChildrenPointBack(nodes) && ParentsListChildren(nodes)
  }

  /** `a` is `n` or one of its ancestors. */
  function IsAncestorOrSelf(nodes: Store, ghost rank: map<Id, nat>, a: Id, n: Id): bool
    requires ParentsBelow(nodes, rank) && n in nodes
    decreases rank[n]
  {
    a == n || (nodes[n].parent.Some? && IsAncestorOrSelf(nodes, rank, a, nodes[n].parent.value))
  }

  /** An ancestor is a node, and of rank no greater. */
  lemma {:induction false} AncestorRank(nodes: Store, rank: map<Id, nat>, a: Id, n: Id)
    requires ParentsBelow(nodes, rank) && n in nodes
    requires IsAncestorOrSelf(nodes, rank, a, n)
    ensures a in nodes && rank[a] <= rank[n]
    decreases rank[n]
  {
    if a != n {
      AncestorRank(nodes, rank, a, nodes[n].parent.value);
    }
  }

  /** `s` without the occurrences of `x`. */
  function Without(s: seq<Id>, x: Id): (r: seq<Id>)
    ensures forall y :: y in r <==> y in s && y != x
  {
    if s == [] then []
    else (if s[0] == x then [] else [s[0]]) + Without(s[1..], x)
  }

  /** `x` taken out of its parent's children. */
  function Detach(nodes: Store, x: Id): (r: Store)
    requires x in nodes
    requires nodes[x].parent.Some? ==> nodes[x].parent.value in nodes
    ensures r.Keys == nodes.Keys
  {
    match nodes[x].parent
    case None => nodes
    case Some(o) => nodes[o := nodes[o].(children := Without(nodes[o].children, x))]
  }

  /** `x` moved to the end of `p`'s children. */
  function Reparent(nodes: Store, x: Id, p: Id): (r: Store)
    requires x in nodes && p in nodes && x != p
    requires nodes[x].parent.Some? ==> nodes[x].parent.value in nodes
    ensures r.Keys == nodes.Keys
  {
    var d := Detach(nodes, x);
    var a := d[p := d[p].(children := d[p].children + [x])];
    a[x := a[x].(parent := Some(p))]
  }

  /** The engine's `move(toParent:)`: refused when the new parent is not a
      node or lies below `x`. */
  function EngineMove(nodes: Store, ghost rank: map<Id, nat>, x: Id, p: Id): (r: Store)
    requires ParentsBelow(nodes, rank) && x in nodes
    ensures r.Keys == nodes.Keys
  {
    if p in nodes && !IsAncestorOrSelf(nodes, rank, x, p) then Reparent(nodes, x, p) else nodes
  }

  /** The children every node has after `Reparent(nodes, x, p)`. */
  function ChildrenAfterMove(nodes: Store, x: Id, p: Id, n: Id): seq<Id>
    requires x in nodes && n in nodes
  {
    var kept := if Some(n) == nodes[x].parent then Without(nodes[n].children, x) else nodes[n].children;
    if n == p then kept + [x] else kept
  }

  /** Field by field, what `Reparent` does. */
  lemma ReparentFields(nodes: Store, rank: map<Id, nat>, x: Id, p: Id)
    requires WellFormed(nodes, rank) && x in nodes && p in nodes && x != p
    ensures forall n | n in nodes ::
      && Reparent(nodes, x, p)[n].children == ChildrenAfterMove(nodes, x, p, n)
      && Reparent(nodes, x, p)[n].parent == (if n == x then Some(p) else nodes[n].parent)
      && Attributes(Reparent(nodes, x, p)[n]) == Attributes(nodes[n])
  {
    assert nodes[x].parent.Some? ==> nodes[x].parent.value != x;
  }

  /** The ranks after moving `x` under `p`: `x`'s subtree goes to just
      above `p`. */
  ghost function MovedRank(nodes: Store, rank: map<Id, nat>, x: Id, p: Id): map<Id, nat>
    requires ParentsBelow(nodes, rank) && x in nodes && p in nodes
  {
    map n | n in rank :: if n in nodes && IsAncestorOrSelf(nodes, rank, x, n) then Shifted(rank[n], rank[x], rank[p]) else rank[n]
  }

  function Shifted(r: nat, rx: nat, rp: nat): nat {
    if r - rx + rp + 1 >= 0 then r - rx + rp + 1 else 0
  }

  /** A node below `x` has its parent below `x` too, unless it is `x`. */
  lemma AncestorOfParent(nodes: Store, rank: map<Id, nat>, x: Id, n: Id)
    requires ParentsBelow(nodes, rank) && n in nodes && n != x && nodes[n].parent.Some?
    ensures IsAncestorOrSelf(nodes, rank, x, n) <==> IsAncestorOrSelf(nodes, rank, x, nodes[n].parent.value)
  {
  }

  lemma MoveKeepsParentsBelow(nodes: Store, rank: map<Id, nat>, x: Id, p: Id)
    requires WellFormed(nodes, rank) && x in nodes && p in nodes
    requires !IsAncestorOrSelf(nodes, rank, x, p)
    ensures ParentsBelow(Reparent(nodes, x, p), MovedRank(nodes, rank, x, p))
  {
    var r := Reparent(nodes, x, p);
    var rank' := MovedRank(nodes, rank, x, p);
    ReparentFields(nodes, rank, x, p);
    forall n | n in r && r[n].parent.Some?
      ensures r[n].parent.value in r && rank'[r[n].parent.value] < rank'[n]
    {
      if n == x {
        assert rank'[x] == rank[p] + 1;
        assert rank'[p] == rank[p];
      } else {
        var q := nodes[n].parent.value;
        assert r[n].parent == Some(q);
        AncestorOfParent(nodes, rank, x, n);
        if IsAncestorOrSelf(nodes, rank, x, q) {
          AncestorRank(nodes, rank, x, q);
        }
      }
    }
  }

  lemma MoveKeepsChildrenPointBack(nodes: Store, rank: map<Id, nat>, x: Id, p: Id)
    requires WellFormed(nodes, rank) && x in nodes && p in nodes
    requires !IsAncestorOrSelf(nodes, rank, x, p)
    ensures ChildrenPointBack(Reparent(nodes, x, p))
  {
    var r := Reparent(nodes, x, p);
    ReparentFields(nodes, rank, x, p);
    forall id, k | id in r && 0 <= k < |r[id].children|
      ensures r[id].children[k] in r && r[r[id].children[k]].parent == Some(id)
    {
      var c := r[id].children[k];
      var kept := if Some(id) == nodes[x].parent then Without(nodes[id].children, x) else nodes[id].children;
      assert r[id].children == ChildrenAfterMove(nodes, x, p, id);
      if id == p && k == |kept| {
        assert c == x;
      } else {
        assert c == kept[k];
        assert c in nodes[id].children && c != x;
      }
    }
  }

  lemma MoveKeepsParentsListChildren(nodes: Store, rank: map<Id, nat>, x: Id, p: Id)
    requires WellFormed(nodes, rank) && x in nodes && p in nodes
    requires !IsAncestorOrSelf(nodes, rank, x, p)
    ensures ParentsListChildren(Reparent(nodes, x, p))
  {
    var r := Reparent(nodes, x, p);
    ReparentFields(nodes, rank, x, p);
    forall n | n in r && r[n].parent.Some?
      ensures n in r[r[n].parent.value].children
    {
      var q := r[n].parent.value;
      assert r[q].children == ChildrenAfterMove(nodes, x, p, q);
      if n != x {
        assert n in nodes[q].children;
      }
    }
  }

  /** A move the engine accepts keeps the store well formed. */
  lemma MoveWellFormed(nodes: Store, rank: map<Id, nat>, x: Id, p: Id)
    requires WellFormed(nodes, rank) && x in nodes && p in nodes
    requires !IsAncestorOrSelf(nodes, rank, x, p)
    ensures WellFormed(Reparent(nodes, x, p), MovedRank(nodes, rank, x, p))
  {
    MoveKeepsParentsBelow(nodes, rank, x, p);
    MoveKeepsChildrenPointBack(nodes, rank, x, p);
    MoveKeepsParentsListChildren(nodes, rank, x, p);
  }

  /** An accepted move makes `p` the parent of `x` and the last of its
      children, and takes `x` out of its old parent's children. */
  lemma MoveEffect(nodes: Store, rank: map<Id, nat>, x: Id, p: Id)
    requires WellFormed(nodes, rank) && x in nodes && p in nodes
    requires !IsAncestorOrSelf(nodes, rank, x, p)
    ensures Reparent(nodes, x, p)[x].parent == Some(p)
    ensures var c := Reparent(nodes, x, p)[p].children; c != [] && c[|c| - 1] == x
    ensures nodes[x].parent.Some? && nodes[x].parent != Some(p) ==>
              x !in Reparent(nodes, x, p)[nodes[x].parent.value].children
  {
    ReparentFields(nodes, rank, x, p);
  }

  /** The store after `removeBookmark(x)`: `x` and everything below it are
      gone, and `x`'s parent no longer lists it. */
  function RemoveSubtree(nodes: Store, ghost rank: map<Id, nat>, x: Id): (r: Store)
    requires ParentsBelow(nodes, rank) && x in nodes
    ensures x !in r
    ensures forall n :: n in r <==> n in nodes && !IsAncestorOrSelf(nodes, rank, x, n)
  {
    map n | n in nodes && !IsAncestorOrSelf(nodes, rank, x, n) ::
      if Some(n) == nodes[x].parent then nodes[n].(children := Without(nodes[n].children, x)) else nodes[n]
  }

  /** Removing a subtree keeps the store well formed, with the same ranks,
      and changes no surviving node but for the parent's children. */
  lemma RemoveWellFormed(nodes: Store, rank: map<Id, nat>, x: Id)
    requires WellFormed(nodes, rank) && x in nodes
    ensures WellFormed(RemoveSubtree(nodes, rank, x), rank)
    ensures forall n | n in RemoveSubtree(nodes, rank, x) ::
      Attributes(RemoveSubtree(nodes, rank, x)[n]) == Attributes(nodes[n])
        && RemoveSubtree(nodes, rank, x)[n].parent == nodes[n].parent
  {
    var r := RemoveSubtree(nodes, rank, x);
    forall n | n in r && r[n].parent.Some?
      ensures r[n].parent.value in r && rank[r[n].parent.value] < rank[n]
    {
      AncestorOfParent(nodes, rank, x, n);
    }
    forall id, k | id in r && 0 <= k < |r[id].children|
      ensures r[id].children[k] in r && r[r[id].children[k]].parent == Some(id)
    {
      var c := r[id].children[k];
      assert c in nodes[id].children && c != x;
      AncestorOfParent(nodes, rank, x, c);
    }
    forall n | n in r && r[n].parent.Some?
      ensures n in r[r[n].parent.value].children
    {
      assert n != x;
    }
  }

  /** Removal changes no surviving children list but the parent's, which
      loses the item. */
  lemma RemoveChildren(nodes: Store, rank: map<Id, nat>, x: Id)
    requires WellFormed(nodes, rank) && x in nodes
    ensures forall n | n in RemoveSubtree(nodes, rank, x) ::
      RemoveSubtree(nodes, rank, x)[n].children
        == if Some(n) == nodes[x].parent then Without(nodes[n].children, x) else nodes[n].children
  {
  }

  /** Changing a node's attributes, not its links, keeps the store well
      formed. */
  lemma AttributeUpdateWellFormed(nodes: Store, rank: map<Id, nat>, x: Id, node: Node)
    requires WellFormed(nodes, rank) && x in nodes
    requires node.parent == nodes[x].parent && node.children == nodes[x].children
    ensures WellFormed(nodes[x := node], rank)
  {
  }

  /** The engine, `BraveBookmarksAPI`: the store and its permanent folders. */
  class BookmarksAPI {
    var nodes: Store
    ghost var rank: map<Id, nat>
    const rootId: Option<Id>
    const mobileId: Option<Id>

    ghost predicate Valid()
      reads this
    {
      WellFormed(nodes, rank)
    }

    constructor (nodes: Store, ghost rank: map<Id, nat>, rootId: Option<Id>, mobileId: Option<Id>)
      requires WellFormed(nodes, rank)
      ensures Valid()
      ensures this.nodes == nodes && this.rootId == rootId && this.mobileId == mobileId
    {
      this.nodes := nodes;
      this.rank := rank;
      this.rootId := rootId;
      this.mobileId := mobileId;
    }

    /** `getNodeById`. */
    function GetNodeById(id: int): (r: Option<Id>)
      reads this
      ensures r.Some? <==> id in nodes
      ensures r.Some? ==> r.value == id
    {
      if id in nodes then Some(id) else None
    }

    /** `rootNode`. */
    function RootNode(): (r: Option<Id>)
      reads this
      ensures r.Some? ==> r.value in nodes && r == rootId
      ensures rootId.Some? && rootId.value in nodes ==> r == rootId
    {
      if rootId.Some? && rootId.value in nodes then rootId else None
    }

    /** `mobileNode`. */
    function MobileNode(): (r: Option<Id>)
      reads this
      ensures r.Some? ==> r.value in nodes && r == mobileId
      ensures mobileId.Some? && mobileId.value in nodes ==> r == mobileId
    {
      if mobileId.Some? && mobileId.value in nodes then mobileId else None
    }

    /** `node.move(toParent:)`. */
    method Move(x: Id, p: Id)
      requires Valid() && x in nodes
      modifies this
      ensures Valid()
      ensures nodes == EngineMove(old(nodes), old(rank), x, p)
    {
      if p in nodes && !IsAncestorOrSelf(nodes, rank, x, p) {
        MoveWellFormed(nodes, rank, x, p);
        rank := MovedRank(nodes, rank, x, p);
        nodes := Reparent(nodes, x, p);
      }
    }

    /** `removeBookmark(x)`. */
    method RemoveBookmark(x: Id)
      requires Valid() && x in nodes
      modifies this
      ensures Valid()
      ensures nodes == RemoveSubtree(old(nodes), old(rank), x)
    {
      RemoveWellFormed(nodes, rank, x);
      nodes := RemoveSubtree(nodes, rank, x);
    }

    /** `node.setTitle(title)`. */
    method SetTitle(x: Id, title: string)
      requires Valid() && x in nodes
      modifies this
      ensures Valid()
      ensures nodes == old(nodes)[x := old(nodes)[x].(title := title)]
    {
      AttributeUpdateWellFormed(nodes, rank, x, nodes[x].(title := title));
      nodes := nodes[x := nodes[x].(title := title)];
    }

    /** `node.url = url`. */
    method SetUrl(x: Id, url: string)
      requires Valid() && x in nodes
      modifies this
      ensures Valid()
      ensures nodes == old(nodes)[x := old(nodes)[x].(url := Some(url))]
    {
      AttributeUpdateWellFormed(nodes, rank, x, nodes[x].(url := Some(url)));
      nodes := nodes[x := nodes[x].(url := Some(url))];
    }
  }
}
