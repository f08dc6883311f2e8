/**
  The page tree shown beside the editor: loaded pages sorted by path, one node
  each, hung under the node whose path is theirs minus the last segment; and
  the actions (delete, add child) each node offers.
*/
module PageTree {
  import opened Wrappers
  import opened JsString
  import opened Util
  import opened Types

  // ---------------------------------------------------------------------------
  // Page actions

  const NEW_PAGE_ID: string := "new-page"

  /** The positions in `ids` of the ids starting with `prefix`. */
  function MatchingIndices(ids: seq<string>, prefix: string): set<nat> {
    set i: nat | i < |ids| && StartsWith(ids[i], prefix)
  }

  /** How many of `ids` start with `prefix`. */
  function CountStartingWith(ids: seq<string>, prefix: string): (n: nat)
    ensures n == |MatchingIndices(ids, prefix)|
    ensures n <= |ids|
    ensures n == 0 <==> forall i :: 0 <= i < |ids| ==> !StartsWith(ids[i], prefix)
  {
    if ids == [] then 0
    else
      var front := ids[..|ids| - 1];
      var last := |ids| - 1;
      var m := CountStartingWith(front, prefix);
      assert MatchingIndices(ids, prefix)
             == MatchingIndices(front, prefix) + (if StartsWith(ids[last], prefix) then {last} else {});
      assert last !in MatchingIndices(front, prefix);
      m + (if StartsWith(ids[last], prefix) then 1 else 0)
  }

  /**
    The id given to a new child: `new-page`, unless that literal id is taken,
    then `new-page-N` with N the number of ids starting with `new-page`.
  */
  function NewId(occupiedChildPaths: seq<string>): (r: string)
    ensures StartsWith(r, NEW_PAGE_ID) && '/' !in r
    ensures r == NEW_PAGE_ID <==> NEW_PAGE_ID !in occupiedChildPaths
    ensures NEW_PAGE_ID in occupiedChildPaths ==>
              r == NEW_PAGE_ID + "-" + NumberToString(|MatchingIndices(occupiedChildPaths, NEW_PAGE_ID)|)
  {
    if NEW_PAGE_ID in occupiedChildPaths then
      var n := NumberToString(CountStartingWith(occupiedChildPaths, NEW_PAGE_ID));
      assert |NEW_PAGE_ID + "-" + n| > |NEW_PAGE_ID|;
      assert (NEW_PAGE_ID + "-" + n)[..|NEW_PAGE_ID|] == NEW_PAGE_ID;
      assert forall i :: 0 <= i < |n| ==> (NEW_PAGE_ID + "-" + n)[|NEW_PAGE_ID| + 1 + i] == n[i];
      NEW_PAGE_ID + "-" + n
    else NEW_PAGE_ID
  }

  /** The actions beside a node: whether "delete" is offered, and where "add" creates a child. */
  datatype PageActions = PageActions(offersDelete: bool, addChildPath: string)

  /**
    The actions for a node: delete is offered exactly for a childless page
    below the top level (its path holds a `/`); the add action always targets a
    direct child path.
  */
  function MakePageActions(docPath: string, childIds: seq<string>): (r: PageActions)
    ensures r.offersDelete <==> childIds == [] && '/' in docPath
    ensures IsParentPath(docPath, r.addChildPath)
  {
    SplitSingleSegment(docPath);
    ChildPathIsChild(docPath, NewId(childIds));
    PageActions(
      !(|childIds| > 0 || |Split(docPath)| <= 1),
      docPath + "/" + NewId(childIds))
  }

  /** `parent`'s segments are `child`'s segments without the last one. */
  predicate IsParentPath(parent: string, child: string) {
    var parts := Split(child);
    parts[..|parts| - 1] == Split(parent)
  }

  lemma ChildPathIsChild(parent: string, name: string)
    requires '/' !in name
    ensures IsParentPath(parent, parent + "/" + name)
  {
    SplitAppend(parent, name);
    SplitNoSlash(name);
    var parts := Split(parent + "/" + name);
    assert parts == Split(parent) + [name];
    assert parts[..|parts| - 1] == Split(parent);
  }

  /**
    The ids the tree passes are full paths, never the bare `new-page`, so every
    child added to a page gets the same path `<page>/new-page`.
  */
  lemma NewIdIgnoresFullPaths(docPath: string, childIds: seq<string>)
    requires forall i :: 0 <= i < |childIds| ==> '/' in childIds[i]
    ensures MakePageActions(docPath, childIds).addChildPath == docPath + "/new-page"
  {
    forall i | 0 <= i < |childIds|
      ensures childIds[i] != NEW_PAGE_ID
    {
      assert '/' in childIds[i] && '/' !in NEW_PAGE_ID;
    }
  }

  /** With the bare id taken, the numbered id can still be one that is taken. */
  lemma NewIdCanCollide()
    ensures NewId(["new-page", "new-page-2"]) == "new-page-2"
  {
    var ids := ["new-page", "new-page-2"];
    assert StartsWith(ids[1], NEW_PAGE_ID) by { assert ids[1][..8] == NEW_PAGE_ID; }
    assert ids[..1] == ["new-page"] && ids[..1][..0] == [];
    assert CountStartingWith(ids, NEW_PAGE_ID) == 2;
  }

  // ---------------------------------------------------------------------------
  // Sorting the loaded pages

  /** Entries in ascending key order. */
  predicate SortedByPath<V>(es: seq<(string, V)>) {
    forall i, j :: 0 <= i < j < |es| ==> LexLe(es[i].0, es[j].0)
  }

  function Insert<V>(e: (string, V), es: seq<(string, V)>): (r: seq<(string, V)>)
    requires SortedByPath(es)
    ensures SortedByPath(r)
    ensures multiset(r) == multiset(es) + multiset{e}
    ensures |r| == |es| + 1
  {
    if es == [] then [e]
    else if LexLe(e.0, es[0].0) then
      assert forall j :: 0 < j < |es| ==> LexLe(es[0].0, es[j].0);
      InsertFront(e, es);
      [e] + es
    else
      LexLeTotal(e.0, es[0].0);
      var rest := Insert(e, es[1..]);
      assert es == [es[0]] + es[1..];
      InsertAfterHead(es[0], rest, e, es[1..]);
      [es[0]] + rest
  }

  lemma InsertFront<V>(e: (string, V), es: seq<(string, V)>)
    requires SortedByPath(es) && es != [] && LexLe(e.0, es[0].0)
    ensures SortedByPath([e] + es)
  {
    forall j | 0 < j < |es|
      ensures LexLe(e.0, es[j].0)
    {
      LexLeTransitive(e.0, es[0].0, es[j].0);
    }
  }

  lemma InsertAfterHead<V>(h: (string, V), rest: seq<(string, V)>, e: (string, V), tail: seq<(string, V)>)
    requires SortedByPath(rest) && LexLe(h.0, e.0)
    requires forall j :: 0 <= j < |tail| ==> LexLe(h.0, tail[j].0)
    requires multiset(rest) == multiset(tail) + multiset{e}
    ensures SortedByPath([h] + rest)
  {
    forall j | 0 <= j < |rest|
      ensures LexLe(h.0, rest[j].0)
    {
      assert rest[j] in multiset(rest);
      if rest[j] != e {
        assert rest[j] in multiset(tail);
        var k :| 0 <= k < |tail| && tail[k] == rest[j];
      }
    }
  }

  /** `sort` by `localeCompare` of the paths, taken as code-point order: sorted, and a permutation. */
  function SortByPath<V>(es: seq<(string, V)>): (r: seq<(string, V)>)
    ensures SortedByPath(r)
    ensures multiset(r) == multiset(es)
    ensures |r| == |es|
  {
    if es == [] then []
    else
      assert es == es[..|es| - 1] + [es[|es| - 1]];
      Insert(es[|es| - 1], SortByPath(es[..|es| - 1]))
  }

  // ---------------------------------------------------------------------------
  // Tree nodes

  /** A node of the page tree; its children and its actions are updated in place. */
  class TreeNode {
    const id: string
    /** The node's `label`: the page title. */
    const caption: string
    const importance: Option<real>
    const isSelected: bool
    var childNodes: seq<TreeNode>
    /** The `secondaryLabel` buttons; `None` for the initial root. */
    var actions: Option<PageActions>

    constructor (id: string, caption: string, importance: Option<real>, isSelected: bool, actions: Option<PageActions>)
      ensures this.id == id && this.caption == caption && this.importance == importance
      ensures this.isSelected == isSelected && this.actions == actions && childNodes == []
    {
      this.id := id;
      this.caption := caption;
      this.importance := importance;
      this.isSelected := isSelected;
      this.actions := actions;
      childNodes := [];
    }
  }

  /** The number of `/`-segments of a node's id. */
  function Level(n: TreeNode): nat {
    |Split(n.id)|
  }

  /** A node's id segments without the last one: the segments its parent must have. */
  function ParentParts(n: TreeNode): seq<string> {
    var parts := Split(n.id);
    parts[..|parts| - 1]
  }

  function IdsOf(nodes: seq<TreeNode>): (r: seq<string>)
    ensures |r| == |nodes| && forall i :: 0 <= i < |nodes| ==> r[i] == nodes[i].id
  {
    seq(|nodes|, i requires 0 <= i < |nodes| => nodes[i].id)
  }

  function Copies(x: TreeNode, count: nat): (r: seq<TreeNode>)
    ensures |r| == count && forall i :: 0 <= i < count ==> r[i] == x
  {
    seq(count, _ => x)
  }

  lemma CopiesAdd(x: TreeNode, a: nat, b: nat)
    ensures Copies(x, a) + Copies(x, b) == Copies(x, a + b)
  {
  }

  /** The child lists of the nodes in `universe`, as they are now. */
  ghost function Kids(universe: set<TreeNode>): map<TreeNode, seq<TreeNode>>
    reads universe
  {
    map n | n in universe :: n.childNodes
  }

  /**
    Every child is a known node whose segments are its parent's plus one, and no
    node has more than `bound` segments.
  */
  ghost predicate WellFormed(kids: map<TreeNode, seq<TreeNode>>, bound: nat) {
    forall a {:trigger ChildrenBelow(kids, a)} :: a in kids ==> Level(a) <= bound && ChildrenBelow(kids, a)
  }

  /** Every child of `a` is a known node whose segments are `a`'s plus one. */
  ghost predicate ChildrenBelow(kids: map<TreeNode, seq<TreeNode>>, a: TreeNode)
    requires a in kids
  {
    forall b :: b in kids[a] ==> b in kids && ParentParts(b) == Split(a.id)
  }

  /**
    How often the search for the parent of a node whose parent segments are
    `parentParts` reaches `n` as a match, walking the first `count` of `cands`
    at depth `k`. On a well-formed tree no candidate is deeper than `bound`, so
    the depth cut-off never applies there.
  */
  ghost function Visits(
    kids: map<TreeNode, seq<TreeNode>>, cands: seq<TreeNode>, count: nat, parentParts: seq<string>,
    n: TreeNode, k: nat, bound: nat): nat
    decreases bound + 1 - k, count + 1
  {
    if count == 0 || |cands| < count then 0
    else Visits(kids, cands, count - 1, parentParts, n, k, bound) + Visit(kids, cands[count - 1], parentParts, n, k, bound)
  }

  /**
    How often the search reaches `n` as a match from the one candidate `c`: a
    matching candidate is counted and not searched further; any other candidate
    is searched through its children.
  */
  ghost function Visit(
    kids: map<TreeNode, seq<TreeNode>>, c: TreeNode, parentParts: seq<string>, n: TreeNode, k: nat, bound: nat): nat
    decreases bound + 1 - k, 0
  {
    if k > bound then 0
    else if Split(c.id) == parentParts then (if c == n then 1 else 0)
    else if c in kids then Visits(kids, kids[c], |kids[c]|, parentParts, n, k + 1, bound)
    else 0
  }

  /** Only nodes whose segments are `parentParts` are ever matched. */
  lemma {:induction false} VisitsOnlyMatches(
    kids: map<TreeNode, seq<TreeNode>>, cands: seq<TreeNode>, count: nat, parentParts: seq<string>,
    n: TreeNode, k: nat, bound: nat)
    ensures Visits(kids, cands, count, parentParts, n, k, bound) > 0 ==> Split(n.id) == parentParts
    decreases bound + 1 - k, count + 1
  {
    if count != 0 && count <= |cands| {
      VisitsOnlyMatches(kids, cands, count - 1, parentParts, n, k, bound);
      VisitOnlyMatches(kids, cands[count - 1], parentParts, n, k, bound);
    }
  }

  /** `VisitsOnlyMatches` for one candidate. */
  lemma {:induction false} VisitOnlyMatches(
    kids: map<TreeNode, seq<TreeNode>>, c: TreeNode, parentParts: seq<string>, n: TreeNode, k: nat, bound: nat)
    ensures Visit(kids, c, parentParts, n, k, bound) > 0 ==> Split(n.id) == parentParts
    decreases bound + 1 - k, 0
  {
    if k <= bound && Split(c.id) != parentParts && c in kids {
      VisitsOnlyMatches(kids, kids[c], |kids[c]|, parentParts, n, k + 1, bound);
    }
  }

  /** The search reads only the child lists of non-matching nodes. */
  lemma {:induction false} VisitsFrame(
    kids1: map<TreeNode, seq<TreeNode>>, kids2: map<TreeNode, seq<TreeNode>>,
    cands: seq<TreeNode>, count: nat, parentParts: seq<string>, n: TreeNode, k: nat, bound: nat)
    requires kids1.Keys == kids2.Keys
    requires forall a :: a in kids1 && Split(a.id) != parentParts ==> kids1[a] == kids2[a]
    ensures Visits(kids1, cands, count, parentParts, n, k, bound) == Visits(kids2, cands, count, parentParts, n, k, bound)
    decreases bound + 1 - k, count + 1
  {
    if count != 0 && count <= |cands| {
      VisitsFrame(kids1, kids2, cands, count - 1, parentParts, n, k, bound);
      VisitFrame(kids1, kids2, cands[count - 1], parentParts, n, k, bound);
    }
  }

  /** `VisitsFrame` for one candidate. */
  lemma {:induction false} VisitFrame(
    kids1: map<TreeNode, seq<TreeNode>>, kids2: map<TreeNode, seq<TreeNode>>,
    c: TreeNode, parentParts: seq<string>, n: TreeNode, k: nat, bound: nat)
    requires kids1.Keys == kids2.Keys
    requires forall a :: a in kids1 && Split(a.id) != parentParts ==> kids1[a] == kids2[a]
    ensures Visit(kids1, c, parentParts, n, k, bound) == Visit(kids2, c, parentParts, n, k, bound)
    decreases bound + 1 - k, 0
  {
    if k <= bound && Split(c.id) != parentParts && c in kids1 {
      VisitsFrame(kids1, kids2, kids1[c], |kids1[c]|, parentParts, n, k + 1, bound);
    }
  }

  /**
    The search for a parent with segments `parentParts` can reach `p` from the
    candidate `c`: `c` is `p` and matches, or `c` does not match and `p` can be
    reached from one of its children.
  */
  ghost predicate Reaches(
    kids: map<TreeNode, seq<TreeNode>>, c: TreeNode, parentParts: seq<string>, p: TreeNode, k: nat, bound: nat)
    decreases bound + 1 - k, 0
  {
    && k <= bound
    && if Split(c.id) == parentParts then c == p
       else c in kids && ReachesAny(kids, kids[c], |kids[c]|, parentParts, p, k + 1, bound)
  }

  /** `p` can be reached from one of the first `count` of `cands`. */
  ghost predicate ReachesAny(
    kids: map<TreeNode, seq<TreeNode>>, cands: seq<TreeNode>, count: nat, parentParts: seq<string>,
    p: TreeNode, k: nat, bound: nat)
    decreases bound + 1 - k, count + 1
  {
    && count != 0 && count <= |cands|
    && (ReachesAny(kids, cands, count - 1, parentParts, p, k, bound) || Reaches(kids, cands[count - 1], parentParts, p, k, bound))
  }

  /** Every matching node the search can reach is matched at least once. */
  lemma {:induction false} ReachedIsVisited(
    kids: map<TreeNode, seq<TreeNode>>, cands: seq<TreeNode>, count: nat, parentParts: seq<string>,
    p: TreeNode, k: nat, bound: nat)
    requires ReachesAny(kids, cands, count, parentParts, p, k, bound)
    ensures Visits(kids, cands, count, parentParts, p, k, bound) >= 1
    decreases bound + 1 - k, count + 1
  {
    if ReachesAny(kids, cands, count - 1, parentParts, p, k, bound) {
      ReachedIsVisited(kids, cands, count - 1, parentParts, p, k, bound);
    } else {
      ReachedIsVisitedOne(kids, cands[count - 1], parentParts, p, k, bound);
    }
  }

  /** `ReachedIsVisited` for one candidate. */
  lemma {:induction false} ReachedIsVisitedOne(
    kids: map<TreeNode, seq<TreeNode>>, c: TreeNode, parentParts: seq<string>, p: TreeNode, k: nat, bound: nat)
    requires Reaches(kids, c, parentParts, p, k, bound)
    ensures Visit(kids, c, parentParts, p, k, bound) >= 1
    decreases bound + 1 - k, 0
  {
    if Split(c.id) != parentParts {
      ReachedIsVisited(kids, kids[c], |kids[c]|, parentParts, p, k + 1, bound);
    }
  }

  /**
    The effect on node `n` of searching the first `count` of `cands` for the
    parent of `curr`, from child list `before[n]` to `now[n]`: `n` gets one
    copy of `curr` appended per time the search matches it.
  */
  ghost predicate AttachedAt(
    before: map<TreeNode, seq<TreeNode>>, now: map<TreeNode, seq<TreeNode>>,
    cands: seq<TreeNode>, count: nat, curr: TreeNode, k: nat, bound: nat, n: TreeNode)
    requires n in before && n in now
  {
    now[n] == before[n] + Copies(curr, Visits(before, cands, count, ParentParts(curr), n, k, bound))
  }

  /** `AttachedAt` for every node, and no node added or removed. */
  ghost predicate Attached(
    before: map<TreeNode, seq<TreeNode>>, now: map<TreeNode, seq<TreeNode>>,
    cands: seq<TreeNode>, count: nat, curr: TreeNode, k: nat, bound: nat)
  {
    && now.Keys == before.Keys
    && forall n {:trigger AttachedAt(before, now, cands, count, curr, k, bound, n)} ::
         n in before ==> AttachedAt(before, now, cands, count, curr, k, bound, n)
  }

  /** The same as `Attached` for the single candidate `c`. */
  ghost predicate AttachedOne(
    before: map<TreeNode, seq<TreeNode>>, now: map<TreeNode, seq<TreeNode>>,
    c: TreeNode, curr: TreeNode, k: nat, bound: nat)
  {
    && now.Keys == before.Keys
    && forall n {:trigger now[n]} ::
         n in before ==> now[n] == before[n] + Copies(curr, Visit(before, c, ParentParts(curr), n, k, bound))
  }

  /** Searching no candidates changes nothing. */
  lemma AttachedNothing(kids: map<TreeNode, seq<TreeNode>>, cands: seq<TreeNode>, curr: TreeNode, k: nat, bound: nat)
    ensures Attached(kids, kids, cands, 0, curr, k, bound)
  {
    assert Copies(curr, 0) == [];
  }

  /** A matching candidate gets `curr` appended. */
  lemma AttachedMatch(before: map<TreeNode, seq<TreeNode>>, c: TreeNode, curr: TreeNode, k: nat, bound: nat)
    requires c in before && k <= bound
    requires Split(c.id) == ParentParts(curr)
    ensures AttachedOne(before, before[c := before[c] + [curr]], c, curr, k, bound)
  {
    assert Copies(curr, 0) == [] && Copies(curr, 1) == [curr];
  }

  /** A non-matching candidate is searched through its children. */
  lemma AttachedDescend(
    before: map<TreeNode, seq<TreeNode>>, after: map<TreeNode, seq<TreeNode>>,
    c: TreeNode, children: seq<TreeNode>, curr: TreeNode, k: nat, bound: nat)
    requires c in before && children == before[c] && k <= bound
    requires Split(c.id) != ParentParts(curr)
    requires Attached(before, after, children, |children|, curr, k + 1, bound)
    ensures AttachedOne(before, after, c, curr, k, bound)
  {
    forall n | n in before
      ensures after[n] == before[n] + Copies(curr, Visit(before, c, ParentParts(curr), n, k, bound))
    {
      assert AttachedAt(before, after, children, |children|, curr, k + 1, bound, n);
    }
  }

  /**
    Searching the first `i` candidates and then candidate `i` is searching the
    first `i + 1`: only matching nodes changed on the way, and the search never
    reads their child lists.
  */
  lemma AttachedCompose(
    before: map<TreeNode, seq<TreeNode>>, mid: map<TreeNode, seq<TreeNode>>, after: map<TreeNode, seq<TreeNode>>,
    cands: seq<TreeNode>, i: nat, curr: TreeNode, k: nat, bound: nat)
    requires i < |cands|
    requires Attached(before, mid, cands, i, curr, k, bound)
    requires AttachedOne(mid, after, cands[i], curr, k, bound)
    ensures Attached(before, after, cands, i + 1, curr, k, bound)
  {
    var pp := ParentParts(curr);
    forall a | a in before && Split(a.id) != pp
      ensures mid[a] == before[a]
    {
      assert AttachedAt(before, mid, cands, i, curr, k, bound, a);
      VisitsOnlyMatches(before, cands, i, pp, a, k, bound);
      assert Copies(curr, 0) == [];
    }
    forall n | n in before
      ensures AttachedAt(before, after, cands, i + 1, curr, k, bound, n)
    {
      assert AttachedAt(before, mid, cands, i, curr, k, bound, n);
      VisitFrame(mid, before, cands[i], pp, n, k, bound);
      CopiesAdd(curr, Visits(before, cands, i, pp, n, k, bound), Visit(before, cands[i], pp, n, k, bound));
    }
  }

  /**
    After searching the one candidate `acc`, every node with the parent's
    segments that the search could reach has `curr` among its children, and a
    node with other segments is unchanged.
  */
  lemma AttachedReachedParent(
    before: map<TreeNode, seq<TreeNode>>, after: map<TreeNode, seq<TreeNode>>,
    acc: TreeNode, curr: TreeNode, k: nat, bound: nat, p: TreeNode)
    requires Attached(before, after, [acc], 1, curr, k, bound) && p in before
    ensures Reaches(before, acc, ParentParts(curr), p, k, bound) ==> curr in after[p]
    ensures Split(p.id) != ParentParts(curr) ==> after[p] == before[p]
  {
    var pp := ParentParts(curr);
    assert AttachedAt(before, after, [acc], 1, curr, k, bound, p);
    assert Visits(before, [acc], 1, pp, p, k, bound) == Visit(before, acc, pp, p, k, bound);
    if Reaches(before, acc, pp, p, k, bound) {
      ReachedIsVisitedOne(before, acc, pp, p, k, bound);
      assert after[p][|before[p]|] == curr;
    }
    if Split(p.id) != pp {
      VisitsOnlyMatches(before, [acc], 1, pp, p, k, bound);
      assert Copies(curr, 0) == [];
    }
  }

  /**
    Every node's actions match its current children, except a childless node
    that never had actions (the initial root).
  */
  ghost predicate ActionsCurrent(universe: set<TreeNode>)
    reads universe
  {
    forall n {:trigger ActionsCurrentAt(n)} :: n in universe ==> ActionsCurrentAt(n)
  }

  /** `n`'s actions match its current children, or it is childless and has none. */
  ghost predicate ActionsCurrentAt(n: TreeNode)
    reads n
  {
    n.actions == Some(MakePageActions(n.id, IdsOf(n.childNodes))) || (n.childNodes == [] && n.actions.None?)
  }

  /** With actions in step, delete is never offered for a node that has children. */
  lemma NoDeleteWithChildren(universe: set<TreeNode>, n: TreeNode)
    requires ActionsCurrent(universe) && n in universe && n.childNodes != []
    ensures n.actions.Some? && !n.actions.value.offersDelete
  {
    assert ActionsCurrentAt(n);
  }

  /** Append `child` to `parent`'s children and recompute `parent`'s actions. */
  method Adopt(parent: TreeNode, child: TreeNode, ghost universe: set<TreeNode>)
    requires parent in universe && ActionsCurrent(universe)
    modifies parent
    ensures parent.childNodes == old(parent.childNodes) + [child]
    ensures parent.actions == Some(MakePageActions(parent.id, IdsOf(parent.childNodes)))
    ensures Kids(universe) == old(Kids(universe))[parent := old(parent.childNodes) + [child]]
    ensures ActionsCurrent(universe)
  {
    parent.childNodes := parent.childNodes + [child];
    parent.actions := Some(MakePageActions(parent.id, IdsOf(parent.childNodes)));
  }

  /**
    `attachToParent`: walk `candidates`; append `curr` to every candidate whose
    segments are `curr`'s minus the last and recompute that candidate's
    actions; search the children of every other candidate.
  */
  method AttachToParent(
    candidates: seq<TreeNode>, curr: TreeNode, currPathParts: seq<string>,
    ghost universe: set<TreeNode>, ghost bound: nat, ghost k: nat)
    requires currPathParts == Split(curr.id) && curr in universe
    requires WellFormed(Kids(universe), bound) && ActionsCurrent(universe)
    requires forall c :: c in candidates ==> c in universe && Level(c) == k
    modifies universe
    ensures WellFormed(Kids(universe), bound) && ActionsCurrent(universe)
    ensures Attached(old(Kids(universe)), Kids(universe), candidates, |candidates|, curr, k, bound)
    decreases bound + 1 - k, 3
  {
    ghost var before := Kids(universe);
    AttachedNothing(before, candidates, curr, k, bound);
    for i := 0 to |candidates|
      invariant WellFormed(Kids(universe), bound) && ActionsCurrent(universe)
      invariant Attached(before, Kids(universe), candidates, i, curr, k, bound)
    {
      AttachNext(candidates, i, curr, currPathParts, universe, bound, k, before);
    }
  }

  /** The body of `attachToParent`'s loop, for candidate `i`. */
  method AttachNext(
    candidates: seq<TreeNode>, i: nat, curr: TreeNode, currPathParts: seq<string>,
    ghost universe: set<TreeNode>, ghost bound: nat, ghost k: nat, ghost before: map<TreeNode, seq<TreeNode>>)
    requires i < |candidates|
    requires currPathParts == Split(curr.id) && curr in universe
    requires WellFormed(Kids(universe), bound) && ActionsCurrent(universe)
    requires candidates[i] in universe && Level(candidates[i]) == k
    requires Attached(before, Kids(universe), candidates, i, curr, k, bound)
    modifies universe
    ensures WellFormed(Kids(universe), bound) && ActionsCurrent(universe)
    ensures Attached(before, Kids(universe), candidates, i + 1, curr, k, bound)
    decreases bound + 1 - k, 2
  {
    ghost var mid := Kids(universe);
    AttachCandidate(candidates[i], curr, currPathParts, universe, bound, k);
    AttachedCompose(before, mid, Kids(universe), candidates, i, curr, k, bound);
  }

  /** One pass of `attachToParent`'s loop: adopt `curr`, or search `candidate`'s children. */
  method AttachCandidate(
    candidate: TreeNode, curr: TreeNode, currPathParts: seq<string>,
    ghost universe: set<TreeNode>, ghost bound: nat, ghost k: nat)
    requires currPathParts == Split(curr.id) && curr in universe
    requires WellFormed(Kids(universe), bound) && ActionsCurrent(universe)
    requires candidate in universe && Level(candidate) == k
    modifies universe
    ensures WellFormed(Kids(universe), bound) && ActionsCurrent(universe)
    ensures AttachedOne(old(Kids(universe)), Kids(universe), candidate, curr, k, bound)
    decreases bound + 1 - k, 1
  {
    var candidateParts := Split(candidate.id);
    if currPathParts[..|currPathParts| - 1] == candidateParts {
      ghost var before := Kids(universe);
      ChildrenOneLevelDown(universe, candidate, bound);
      Adopt(candidate, curr, universe);
      WellFormedAppend(before, candidate, curr, bound);
      AttachedMatch(before, candidate, curr, k, bound);
    } else {
      SearchChildren(candidate, curr, currPathParts, universe, bound, k);
    }
  }

  /** The recursive call of `attachToParent` on a non-matching candidate's children. */
  method SearchChildren(
    candidate: TreeNode, curr: TreeNode, currPathParts: seq<string>,
    ghost universe: set<TreeNode>, ghost bound: nat, ghost k: nat)
    requires currPathParts == Split(curr.id) && curr in universe
    requires WellFormed(Kids(universe), bound) && ActionsCurrent(universe)
    requires candidate in universe && Level(candidate) == k
    requires Split(candidate.id) != ParentParts(curr)
    modifies universe
    ensures WellFormed(Kids(universe), bound) && ActionsCurrent(universe)
    ensures AttachedOne(old(Kids(universe)), Kids(universe), candidate, curr, k, bound)
    decreases bound + 1 - k, 0
  {
    ghost var before := Kids(universe);
    var children := candidate.childNodes;
    ChildrenOneLevelDown(universe, candidate, bound);
    AttachToParent(children, curr, currPathParts, universe, bound, k + 1);
    AttachedDescend(before, Kids(universe), candidate, children, curr, k, bound);
  }

  /** The children of a node in a well-formed tree are one level deeper. */
  lemma ChildrenOneLevelDown(universe: set<TreeNode>, a: TreeNode, bound: nat)
    requires WellFormed(Kids(universe), bound) && a in universe
    ensures Level(a) <= bound
    ensures forall c :: c in a.childNodes ==> c in universe && Level(c) == Level(a) + 1
  {
    var kids := Kids(universe);
    assert ChildrenBelow(kids, a);
    forall c | c in a.childNodes
      ensures c in universe && Level(c) == Level(a) + 1
    {
      assert ChildrenBelow(kids, a);
      assert |ParentParts(c)| == |Split(c.id)| - 1;
    }
  }

  /** Appending a direct sub-path node to a child list keeps the tree well formed. */
  lemma WellFormedAppend(kids: map<TreeNode, seq<TreeNode>>, a: TreeNode, b: TreeNode, bound: nat)
    requires WellFormed(kids, bound) && a in kids && b in kids && ParentParts(b) == Split(a.id)
    ensures WellFormed(kids[a := kids[a] + [b]], bound)
  {
    var now := kids[a := kids[a] + [b]];
    forall x | x in now
      ensures Level(x) <= bound && ChildrenBelow(now, x)
    {
      assert ChildrenBelow(kids, x);
    }
  }

  // ---------------------------------------------------------------------------
  // Building the tree

  /** The deepest level among `nodes`, and at least the root's. */
  ghost function MaxLevel(nodes: seq<TreeNode>): (r: nat)
    ensures r >= 1 && forall n :: n in nodes ==> Level(n) <= r
  {
    if nodes == [] then 1
    else
      var rest := MaxLevel(nodes[..|nodes| - 1]);
      var last := Level(nodes[|nodes| - 1]);
      assert forall n :: n in nodes ==> n in nodes[..|nodes| - 1] || n == nodes[|nodes| - 1];
      if last > rest then last else rest
  }

  /**
    One step of the `nodes.reduce(…)`, from child lists `before` and current
    tree `acc` to `after` and `acc'`: a node with the current tree's id replaces
    it and nothing is attached; any other node is attached below the current
    tree by `attachToParent`, which keeps the current tree.
  */
  ghost predicate ReduceStep(
    before: map<TreeNode, seq<TreeNode>>, after: map<TreeNode, seq<TreeNode>>,
    acc: TreeNode, acc': TreeNode, curr: TreeNode, bound: nat)
  {
    if acc.id == curr.id then acc' == curr && after == before
    else acc' == acc && Attached(before, after, [acc], 1, curr, Level(acc), bound)
  }

  /**
    The `nodes.reduce(…)` building the tree from the initial value `root`, a
    bare `docs` node. `steps[j]` are the child lists and `accs[j]` the current
    tree before node `j`; each node is one `ReduceStep`.
  */
  method NodeTree(nodes: seq<TreeNode>, root: TreeNode, ghost universe: set<TreeNode>)
    returns (tree: TreeNode, ghost steps: seq<map<TreeNode, seq<TreeNode>>>, ghost accs: seq<TreeNode>)
    requires root.id == "docs" && root.childNodes == [] && root.actions == None
    requires forall n :: n in nodes ==> Leaf(n)
    requires forall o :: o in universe <==> o in nodes || o == root
    modifies universe
    ensures tree.id == "docs" && tree in universe
    ensures WellFormed(Kids(universe), MaxLevel(nodes)) && ActionsCurrent(universe)
    ensures |steps| == |nodes| + 1 && |accs| == |nodes| + 1
    ensures steps[0] == old(Kids(universe)) && steps[|nodes|] == Kids(universe)
    ensures forall j :: 0 <= j < |steps| ==> steps[j].Keys == universe
    ensures accs[0] == root && accs[|nodes|] == tree
    ensures forall j :: 0 <= j < |nodes| ==> accs[j].id == "docs"
    ensures forall j :: 0 <= j < |nodes| ==> ReduceStep(steps[j], steps[j + 1], accs[j], accs[j + 1], nodes[j], MaxLevel(nodes))
  {
    tree := root;
    ghost var bound := MaxLevel(nodes);
    assert Level(root) == 1 by { SplitNoSlash("docs"); }
    forall n | n in universe
      ensures n.childNodes == [] && Level(n) <= bound
      ensures n.actions == Some(MakePageActions(n.id, IdsOf([]))) || n.actions.None?
    {
    }
    tree, steps, accs := ReduceNodes(nodes, root, universe, bound);
    ReduceStepsAt(steps, accs, nodes, bound, |nodes|);
    ReduceStepsKeys(steps, accs, nodes, bound, |nodes|);
  }

  /**
    Where one step of the reduce puts `curr`: a node with the current tree's id
    replaces it and changes no child list; any other node is appended to every
    node with its parent's segments that the search from the current tree can
    reach, and no node with other segments changes.
  */
  lemma ReduceStepPlacement(
    before: map<TreeNode, seq<TreeNode>>, after: map<TreeNode, seq<TreeNode>>,
    acc: TreeNode, acc': TreeNode, curr: TreeNode, bound: nat, p: TreeNode)
    requires ReduceStep(before, after, acc, acc', curr, bound) && p in before
    ensures acc.id == curr.id ==> acc' == curr && after == before
    ensures acc.id != curr.id ==> acc' == acc
    ensures acc.id != curr.id && Reaches(before, acc, ParentParts(curr), p, Level(acc), bound) ==> curr in after[p]
    ensures Split(p.id) != ParentParts(curr) ==> after[p] == before[p]
  {
    if acc.id != curr.id {
      AttachedReachedParent(before, after, acc, curr, Level(acc), bound, p);
    }
  }

  /** The loop of the reduce, from the current tree `acc`: one `ReduceStep` per node. */
  method ReduceNodes(nodes: seq<TreeNode>, acc: TreeNode, ghost universe: set<TreeNode>, ghost bound: nat)
    returns (tree: TreeNode, ghost steps: seq<map<TreeNode, seq<TreeNode>>>, ghost accs: seq<TreeNode>)
    requires acc in universe && acc.id == "docs" && forall n :: n in nodes ==> n in universe
    requires WellFormed(Kids(universe), bound) && ActionsCurrent(universe)
    modifies universe
    ensures tree in universe && tree.id == "docs"
    ensures WellFormed(Kids(universe), bound) && ActionsCurrent(universe)
    ensures |steps| == |nodes| + 1 && |accs| == |nodes| + 1
    ensures steps[0] == old(Kids(universe)) && steps[|nodes|] == Kids(universe)
    ensures accs[0] == acc && accs[|nodes|] == tree
    ensures ReduceSteps(steps, accs, nodes, bound, |nodes|)
  {
    tree := acc;
    steps := [Kids(universe)];
    accs := [acc];
    for i := 0 to |nodes|
      invariant tree in universe && tree.id == "docs"
      invariant WellFormed(Kids(universe), bound) && ActionsCurrent(universe)
      invariant |steps| == i + 1 && |accs| == i + 1
      invariant steps[0] == old(Kids(universe)) && steps[i] == Kids(universe)
      invariant accs[0] == acc && accs[i] == tree
      invariant ReduceSteps(steps, accs, nodes, bound, i)
    {
      ghost var (steps0, accs0) := (steps, accs);
      tree := ReduceNext(tree, nodes[i], universe, bound);
      steps := steps + [Kids(universe)];
      accs := accs + [tree];
      ReduceStepsPrefix(steps0, accs0, steps, accs, nodes, bound, i);
    }
  }

  /** The first `count` nodes of the reduce are each one `ReduceStep`. */
  ghost predicate ReduceSteps(
    steps: seq<map<TreeNode, seq<TreeNode>>>, accs: seq<TreeNode>, nodes: seq<TreeNode>, bound: nat, count: nat)
    requires count <= |nodes| && count < |steps| && count < |accs|
  {
    count == 0
    || (ReduceSteps(steps, accs, nodes, bound, count - 1)
        && ReduceStep(steps[count - 1], steps[count], accs[count - 1], accs[count], nodes[count - 1], bound))
  }

  /** `ReduceSteps` depends only on the first `count + 1` snapshots and trees. */
  lemma {:induction false} ReduceStepsPrefix(
    steps: seq<map<TreeNode, seq<TreeNode>>>, accs: seq<TreeNode>,
    steps': seq<map<TreeNode, seq<TreeNode>>>, accs': seq<TreeNode>, nodes: seq<TreeNode>, bound: nat, count: nat)
    requires count <= |nodes| && count < |steps| && count < |accs| && count < |steps'| && count < |accs'|
    requires steps'[..count + 1] == steps[..count + 1] && accs'[..count + 1] == accs[..count + 1]
    requires ReduceSteps(steps, accs, nodes, bound, count)
    ensures ReduceSteps(steps', accs', nodes, bound, count)
  {
    if count > 0 {
      assert steps'[..count] == steps[..count] && accs'[..count] == accs[..count];
      assert steps'[count - 1] == steps[count - 1] && steps'[count] == steps[count];
      assert accs'[count - 1] == accs[count - 1] && accs'[count] == accs[count];
      ReduceStepsPrefix(steps, accs, steps', accs', nodes, bound, count - 1);
    }
  }

  /**
    The reduce neither adds nor removes nodes, and the current tree keeps its
    id: every snapshot has the first one's keys, every tree the first one's id.
  */
  lemma {:induction false} ReduceStepsKeys(
    steps: seq<map<TreeNode, seq<TreeNode>>>, accs: seq<TreeNode>, nodes: seq<TreeNode>, bound: nat, count: nat)
    requires count <= |nodes| && count < |steps| && count < |accs|
    requires ReduceSteps(steps, accs, nodes, bound, count)
    ensures forall j :: 0 <= j <= count ==> steps[j].Keys == steps[0].Keys && accs[j].id == accs[0].id
  {
    if count > 0 {
      ReduceStepsKeys(steps, accs, nodes, bound, count - 1);
      assert steps[count].Keys == steps[count - 1].Keys && accs[count].id == accs[count - 1].id;
    }
  }

  /** `ReduceSteps` as a statement about every node. */
  lemma {:induction false} ReduceStepsAt(
    steps: seq<map<TreeNode, seq<TreeNode>>>, accs: seq<TreeNode>, nodes: seq<TreeNode>, bound: nat, count: nat)
    requires count <= |nodes| && count < |steps| && count < |accs|
    requires ReduceSteps(steps, accs, nodes, bound, count)
    ensures forall j :: 0 <= j < count ==> ReduceStep(steps[j], steps[j + 1], accs[j], accs[j + 1], nodes[j], bound)
  {
    if count > 0 {
      ReduceStepsAt(steps, accs, nodes, bound, count - 1);
    }
  }

  /** The reduce's callback for one node `curr`, with the current tree `acc`. */
  method ReduceNext(acc: TreeNode, curr: TreeNode, ghost universe: set<TreeNode>, ghost bound: nat) returns (tree: TreeNode)
    requires acc in universe && acc.id == "docs" && curr in universe
    requires WellFormed(Kids(universe), bound) && ActionsCurrent(universe)
    modifies universe
    ensures tree in universe && tree.id == "docs"
    ensures WellFormed(Kids(universe), bound) && ActionsCurrent(universe)
    ensures ReduceStep(old(Kids(universe)), Kids(universe), acc, tree, curr, bound)
  {
    if acc.id == curr.id {
      tree := curr;
    } else {
      AttachToParent([acc], curr, Split(curr.id), universe, bound, Level(acc));
      tree := acc;
    }
  }

  /**
    The `nodeTree` of the loaded pages: their nodes in path order, folded into
    the tree rooted at a bare `docs` node labelled "Docs". Every node of the
    result offers the actions its current children allow, and the result is
    the last loaded `docs` page's node, or the bare root when there is none.
  */
  method TreeOfPages(pages: seq<(string, SourceDocPageData)>, selectedPagePath: Option<string>)
    returns (tree: TreeNode, ghost universe: set<TreeNode>, ghost bound: nat,
             nodes: seq<TreeNode>, ghost steps: seq<map<TreeNode, seq<TreeNode>>>, ghost accs: seq<TreeNode>)
    ensures tree.id == "docs" && tree in universe
    ensures ActionsCurrent(universe) && WellFormed(Kids(universe), bound)
    ensures |nodes| == |pages|
    ensures forall i :: 0 <= i < |nodes| ==> fresh(nodes[i])
    ensures forall i :: 0 <= i < |nodes| ==> NodeOf(nodes[i], SortByPath(pages)[i], selectedPagePath)
    ensures |steps| == |nodes| + 1 && |accs| == |nodes| + 1
    ensures fresh(accs[0]) && accs[0].id == "docs" && accs[0].caption == "Docs" && accs[|nodes|] == tree
    ensures universe == (set n | n in nodes) + {accs[0]}
    ensures forall j :: 0 <= j < |steps| ==> steps[j].Keys == universe
    ensures forall n :: n in universe ==> steps[0][n] == []
    ensures steps[|nodes|] == Kids(universe)
    ensures forall j :: 0 <= j < |nodes| ==> ReduceStep(steps[j], steps[j + 1], accs[j], accs[j + 1], nodes[j], bound)
    ensures forall j :: 0 <= j < |nodes| ==> (nodes[j].id == "docs" <==> accs[j + 1] == nodes[j])
  {
    nodes := MakeNodes(pages, selectedPagePath);
    tree, universe, steps, accs := RootedTree(nodes);
    bound := MaxLevel(nodes);
  }

  /** The reduce over `nodes`, started from a new bare `docs` root labelled "Docs". */
  method RootedTree(nodes: seq<TreeNode>)
    returns (tree: TreeNode, ghost universe: set<TreeNode>,
             ghost steps: seq<map<TreeNode, seq<TreeNode>>>, ghost accs: seq<TreeNode>)
    requires forall n :: n in nodes ==> Leaf(n)
    modifies set n | n in nodes
    ensures tree.id == "docs" && tree in universe
    ensures ActionsCurrent(universe) && WellFormed(Kids(universe), MaxLevel(nodes))
    ensures |steps| == |nodes| + 1 && |accs| == |nodes| + 1
    ensures fresh(accs[0]) && accs[0].id == "docs" && accs[0].caption == "Docs" && accs[|nodes|] == tree
    ensures universe == (set n | n in nodes) + {accs[0]}
    ensures forall j :: 0 <= j < |steps| ==> steps[j].Keys == universe
    ensures forall n :: n in universe ==> steps[0][n] == []
    ensures steps[|nodes|] == Kids(universe)
    ensures forall j :: 0 <= j < |nodes| ==> ReduceStep(steps[j], steps[j + 1], accs[j], accs[j + 1], nodes[j], MaxLevel(nodes))
    ensures forall j :: 0 <= j < |nodes| ==> (nodes[j].id == "docs" <==> accs[j + 1] == nodes[j])
  {
    var root := new TreeNode("docs", "Docs", None, false, None);
    universe := (set n | n in nodes) + {root};
    ghost var start := Kids(universe);
    assert forall n :: n in universe ==> start[n] == [];
    tree, steps, accs := NodeTree(nodes, root, universe);
  }

  /**
    The node made for a loaded page: id the page's logical path, caption its
    title, and selected when its path is the selected one.
  */
  predicate NodeOf(n: TreeNode, page: (string, SourceDocPageData), selectedPagePath: Option<string>) {
    && n.id == FilepathToDocsPath(page.0)
    && n.caption == page.1.title
    && n.importance == page.1.importance
    && (n.isSelected <==> selectedPagePath == Some(n.id))
  }

  /** A node as made: no children yet, and the actions of a childless page. */
  ghost predicate Leaf(n: TreeNode)
    reads n
  {
    n.childNodes == [] && n.actions == Some(MakePageActions(n.id, []))
  }

  /** The node for one loaded page. */
  method MakeNode(page: (string, SourceDocPageData), selectedPagePath: Option<string>) returns (node: TreeNode)
    ensures fresh(node) && NodeOf(node, page, selectedPagePath) && Leaf(node)
  {
    var (path, data) := page;
    var effectivePath := FilepathToDocsPath(path);
    node := new TreeNode(effectivePath, data.title, data.importance,
                         selectedPagePath == Some(effectivePath), Some(MakePageActions(effectivePath, [])));
  }

  /** The `nodes` of the tree: one new node per loaded page, in path order. */
  method MakeNodes(pages: seq<(string, SourceDocPageData)>, selectedPagePath: Option<string>)
    returns (nodes: seq<TreeNode>)
    ensures |nodes| == |pages|
    ensures forall i :: 0 <= i < |nodes| ==> NodeOf(nodes[i], SortByPath(pages)[i], selectedPagePath)
    ensures forall i :: 0 <= i < |nodes| ==> fresh(nodes[i]) && Leaf(nodes[i])
  {
    var sorted := SortByPath(pages);
    nodes := [];
    for i := 0 to |sorted|
      invariant |nodes| == i
      invariant forall j :: 0 <= j < i ==> NodeOf(nodes[j], sorted[j], selectedPagePath)
      invariant forall j :: 0 <= j < i ==> fresh(nodes[j]) && Leaf(nodes[j])
    {
      var node := MakeNode(sorted[i], selectedPagePath);
      nodes := nodes + [node];
    }
  }

  /** The keys of the loaded pages are logical paths already: the node id is the key itself. */
  lemma NodeIdIsLogicalPath(docPath: string)
    requires !Contains(docPath, FLAT_SUFFIX)
    ensures FilepathToDocsPath(docPath) == docPath
  {
    assert !Contains(docPath, NESTED_SUFFIX) by {
      forall j: nat | j <= |docPath|
        ensures !OccursAt(docPath, NESTED_SUFFIX, j)
      {
        if OccursAt(docPath, NESTED_SUFFIX, j) {
          NestedSuffixHoldsFlatSuffix(docPath, j);
        }
      }
    }
  }
}
