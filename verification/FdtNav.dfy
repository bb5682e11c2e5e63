/** Children, siblings, ancestors and depths, found by rescanning. */
module FdtNav {
  import opened Bytes
  import opened FdtFormat
  import opened FdtTokens
  import opened FdtTree
  import opened FdtWalk

  // ---------------------------------------------------------------- specification of the loops

  /** fdt_first_subnode. */
  function FirstSubnode(b: seq<Byte>, off: int): int
    requires |b| <= INT_MAX
  {
    var (r, d) := NextNode(b, off, true, 0);
    if r < 0 || d != 1 then NOTFOUND else r
  }

  /** The loop of fdt_next_subnode. */
  function NextSubnodeFrom(b: seq<Byte>, off: int, depth: int): int
    requires |b| <= INT_MAX
    decreases |b| + 4 - off
  {
    var (r, d) := NextNode(b, off, true, depth);
    if r < 0 || d < 1 then NOTFOUND else if d > 1 then NextSubnodeFrom(b, r, d) else r
  }

  /** fdt_next_subnode. */
  function NextSubnode(b: seq<Byte>, off: int): int
    requires |b| <= INT_MAX
  {
    NextSubnodeFrom(b, off, 1)
  }

  /** The loop of fdt_supernode_atdepth_offset: its result and the depth it reports. */
  function SupernodeFrom(b: seq<Byte>, off: int, depth: int, target: int, sd: int, acc: int): (r: (int, int))
    requires |b| <= INT_MAX
    decreases off >= 0, |b| + 4 - off
  {
    if off < 0 || off > target then
      (if off == NOTFOUND || off >= 0 then BADOFFSET else if off == BADOFFSET then BADSTRUCTURE else off, depth)
    else
      var acc' := if depth == sd then off else acc;
      if off == target then (if sd > depth then NOTFOUND else acc', depth)
      else
        var (r, d) := NextNode(b, off, true, depth);
        SupernodeFrom(b, r, d, target, sd, acc')
  }

  /** fdt_supernode_atdepth_offset on a blob that passed the probe. */
  function Supernode(b: seq<Byte>, target: int, sd: int): (int, int)
    requires |b| <= INT_MAX
  {
    if sd < 0 then (NOTFOUND, 0) else SupernodeFrom(b, 0, 0, target, sd, INTERNAL)
  }

  /** fdt_node_depth. */
  function NodeDepth(b: seq<Byte>, target: int): int
    requires |b| <= INT_MAX
  {
    var (err, d) := Supernode(b, target, 0);
    if err != 0 then (if err < 0 then err else INTERNAL) else d
  }

  /** fdt_parent_offset. */
  function ParentOffset(b: seq<Byte>, target: int): int
    requires |b| <= INT_MAX
  {
    var d := NodeDepth(b, target);
    if d < 0 then d else Supernode(b, target, d - 1).0
  }

  // ---------------------------------------------------------------- children in document order

  /** The document position of child k below its parent's, or where the parent's nodes end. */
  function ChildSlot(n: Node, k: nat): nat
    requires k <= ChildCount(n.items)
  {
    if k < ChildCount(n.items) then 1 + ChildPos(n.items, k) else |Preorder(n, 0, 0)|
  }

  lemma {:induction false} ChildPosStep(it: Items, k: nat)
    requires k < ChildCount(it)
    ensures ChildPos(it, k) + |Preorder(NthChild(it, k), 0, 0)| ==
            if k + 1 < ChildCount(it) then ChildPos(it, k + 1) else |PreItems(it, 0, 0)|
    decreases it
  {
    match it
    case NopItem(rest) => ChildPosStep(rest, k); PreItemsLength(rest, 1, 0, 0, 0);
    case PropItem(_, _, rest) => ChildPosStep(rest, k); PreItemsLength(rest, 1, 0, 0, 0);
    case Child(node, rest) =>
      PreItemsLength(rest, |NodeTokens(node)|, 0, 0, 0);
      if k > 0 {
        ChildPosStep(rest, k - 1);
      } else {
        NoNodesBeforeFirst(rest);
      }
  }

  lemma {:induction false} NoNodesBeforeFirst(it: Items)
    ensures ChildCount(it) > 0 ==> ChildPos(it, 0) == 0
    ensures ChildCount(it) == 0 ==> PreItems(it, 0, 0) == []
    decreases it
  {
    match it
    case Done =>
    case NopItem(rest) => NoNodesBeforeFirst(rest); PreItemsLength(rest, 1, 0, 0, 0);
    case PropItem(_, _, rest) => NoNodesBeforeFirst(rest); PreItemsLength(rest, 1, 0, 0, 0);
    case Child(_, _) =>
  }

  lemma SlotInBounds(n: Node, k: nat, p: nat)
    requires k < ChildCount(n.items)
    ensures ChildSlot(n, k) == 1 + ChildPos(n.items, k)
    ensures ChildSlot(n, k + 1) == ChildSlot(n, k) + |Preorder(NthChild(n.items, k), 0, 0)| <= |Preorder(n, p, 0)|
  {
    ChildPosStep(n.items, k);
    PreorderLength(n, p, 0, 0, 0);
    PreItemsLength(n.items, 1, 1, 0, 0);
    if k + 1 < ChildCount(n.items) {
      ChildNode(n.items, 1, 1, k + 1, 0);
    }
  }

  /** Child k of a node sits in slot k, at depth 1 below it; the nodes between its slot and the
      next one are deeper. */
  lemma SlotFacts(n: Node, p: nat, k: nat, j: nat)
    requires k < ChildCount(n.items)
    ensures ChildSlot(n, k) < ChildSlot(n, k + 1) <= |Preorder(n, p, 0)|
    ensures Preorder(n, p, 0)[ChildSlot(n, k)] == Visit(p + 1 + ChildIndex(n.items, k), 1, NthChild(n.items, k))
    ensures ChildSlot(n, k) < j < ChildSlot(n, k + 1) ==> Preorder(n, p, 0)[j].depth > 1
  {
    var c, q := NthChild(n.items, k), p + 1 + ChildIndex(n.items, k);
    SlotInBounds(n, k, p);
    PreorderLength(c, q, 1, 0, 0);
    ChildNode(n.items, p + 1, 1, k, 0);
    if ChildSlot(n, k) < j < ChildSlot(n, k + 1) {
      var m := j - ChildSlot(n, k);
      ChildNode(n.items, p + 1, 1, k, m);
      DescendantsAreDeeper(c, q, 1, m);
    }
  }

  /** What stands where child k's nodes end: the next child, or nothing. */
  lemma NextSlot(n: Node, p: nat, k: nat)
    requires k < ChildCount(n.items)
    ensures k + 1 < ChildCount(n.items) <==> ChildSlot(n, k + 1) < |Preorder(n, p, 0)|
    ensures k + 1 < ChildCount(n.items) ==>
      Preorder(n, p, 0)[ChildSlot(n, k + 1)] == Visit(p + 1 + ChildIndex(n.items, k + 1), 1, NthChild(n.items, k + 1))
  {
    if k + 1 < ChildCount(n.items) {
      SlotFacts(n, p, k + 1, 0);
    } else {
      PreorderLength(n, p, 0, 0, 0);
    }
  }

  // ---------------------------------------------------------------- child enumeration

  /** What fdt_first_subnode makes of a walk that starts at depth 0. */
  lemma FirstSubnodeStep(b: seq<Byte>, off: int, r: int, d: int)
    requires |b| <= INT_MAX && NextNode(b, off, true, 0) == (r, d)
    ensures FirstSubnode(b, off) == if r < 0 || d != 1 then NOTFOUND else r
  {
  }

  lemma FirstOfWalk(b: seq<Byte>, ts: seq<Token>, vs: seq<Visit>)
    requires |b| <= INT_MAX && vs != [] && StepsTo(b, ts, vs, 0) && vs[0].depth == 0
    requires |vs| > 1 ==> vs[1].depth == 1
    ensures vs[0].index < |ts| && (|vs| > 1 ==> vs[1].index < |ts|)
    ensures FirstSubnode(b, Offset(ts, vs[0].index)) == if |vs| > 1 then Offset(ts, vs[1].index) else NOTFOUND
  {
    var (r, d) := NextNode(b, Offset(ts, vs[0].index), true, 0);
    FirstSubnodeStep(b, Offset(ts, vs[0].index), r, d);
  }

  /** The first node below n is its first child. */
  lemma FirstBelow(n: Node, p: nat)
    ensures |Preorder(n, p, 0)| > 1 <==> ChildCount(n.items) > 0
    ensures ChildCount(n.items) > 0 ==> Preorder(n, p, 0)[1] == Visit(p + 1 + ChildIndex(n.items, 0), 1, NthChild(n.items, 0))
  {
    FirstOfItems(n.items, p + 1, 1);
  }

  lemma FirstOfNode(b: seq<Byte>, root: Node, loc: seq<nat>)
    requires |b| <= INT_MAX && HoldsTree(b, root) && IsLoc(root, loc)
    ensures var vs, ts := Preorder(At(root, loc), IndexOf(root, loc), 0), TreeTokens(root);
      && IndexOf(root, loc) < |ts| && (|vs| > 1 ==> vs[1].index < |ts|)
      && FirstSubnode(b, Offset(ts, IndexOf(root, loc))) == if |vs| > 1 then Offset(ts, vs[1].index) else NOTFOUND
  {
    WalkBelow(b, root, loc, 0);
    FirstBelow(At(root, loc), IndexOf(root, loc));
    FirstOfWalk(b, TreeTokens(root), Preorder(At(root, loc), IndexOf(root, loc), 0));
  }

  /** fdt_first_subnode gives the first child, or NOTFOUND for a node without children. */
  lemma FirstSubnodeIsFirstChild(b: seq<Byte>, root: Node, loc: seq<nat>)
    requires |b| <= INT_MAX && HoldsTree(b, root) && IsLoc(root, loc)
    ensures IsLoc(root, loc + [0]) <==> ChildCount(At(root, loc).items) > 0
    ensures FirstSubnode(b, OffsetAt(root, loc)) ==
            if IsLoc(root, loc + [0]) then OffsetAt(root, loc + [0]) else NOTFOUND
  {
    hide FirstSubnode;
    hide Preorder;
    hide NodeTokens;
    hide ChildIndex;
    hide Offset;
    LocExtends(root, loc, 0);
    FirstBelow(At(root, loc), IndexOf(root, loc));
    FirstOfNode(b, root, loc);
  }

  lemma NextSubnodeStep(b: seq<Byte>, off: int, depth: int, r: int, d: int)
    requires |b| <= INT_MAX && NextNode(b, off, true, depth) == (r, d)
    ensures NextSubnodeFrom(b, off, depth) ==
            if r < 0 || d < 1 then NOTFOUND else if d > 1 then NextSubnodeFrom(b, r, d) else r
  {
  }

  /** What fdt_next_subnode makes of a walk: nodes deeper than 1 are passed over, up to position
      `end`. */
  lemma {:induction false} SkipsDeeper(b: seq<Byte>, ts: seq<Token>, vs: seq<Visit>, j: nat, end: nat)
    requires |b| <= INT_MAX && j < end <= |vs|
    requires forall i :: j <= i < end ==> StepsTo(b, ts, vs, i)
    requires forall i :: j < i < end ==> vs[i].depth > 1
    requires end < |vs| ==> vs[end].depth == 1
    ensures end < |vs| ==> vs[end].index < |ts|
    ensures vs[j].index < |ts|
    ensures NextSubnodeFrom(b, Offset(ts, vs[j].index), vs[j].depth) ==
            if end < |vs| then Offset(ts, vs[end].index) else NOTFOUND
    decreases end - j
  {
    hide NextNode;
    hide NextSubnodeFrom;
    assert StepsTo(b, ts, vs, j);
    var (r, d) := NextNode(b, Offset(ts, vs[j].index), true, vs[j].depth);
    NextSubnodeStep(b, Offset(ts, vs[j].index), vs[j].depth, r, d);
    if j + 1 < end {
      SkipsDeeper(b, ts, vs, j + 1, end);
    }
  }

  /** The walk over child k and its descendants; only the child itself has depth 1. */
  lemma SlotWalk(b: seq<Byte>, root: Node, loc: seq<nat>, k: nat, i: nat)
    requires |b| <= INT_MAX && HoldsTree(b, root) && IsLoc(root, loc) && k < ChildCount(At(root, loc).items)
    requires ChildSlot(At(root, loc), k) <= i < ChildSlot(At(root, loc), k + 1)
    ensures var vs := Preorder(At(root, loc), IndexOf(root, loc), 0);
      && i < |vs| && StepsTo(b, TreeTokens(root), vs, i) && vs[i].depth >= 1
      && (vs[i].depth == 1 <==> i == ChildSlot(At(root, loc), k))
  {
    hide StepsTo;
    hide Preorder;
    hide ChildSlot;
    SlotFacts(At(root, loc), IndexOf(root, loc), k, i);
    WalkBelow(b, root, loc, i);
  }

  /** The walk from child k's slot on. */
  lemma NextOfSlot(b: seq<Byte>, root: Node, loc: seq<nat>, k: nat)
    requires |b| <= INT_MAX && HoldsTree(b, root) && IsLoc(root, loc) && k < ChildCount(At(root, loc).items)
    ensures var n, p, ts := At(root, loc), IndexOf(root, loc), TreeTokens(root);
      && p + 1 + ChildIndex(n.items, k) < |ts|
      && (k + 1 < ChildCount(n.items) ==> p + 1 + ChildIndex(n.items, k + 1) < |ts|)
      && NextSubnode(b, Offset(ts, p + 1 + ChildIndex(n.items, k))) ==
           if k + 1 < ChildCount(n.items) then Offset(ts, p + 1 + ChildIndex(n.items, k + 1)) else NOTFOUND
  {
    hide StepsTo;
    hide Offset;
    hide NextNode;
    hide NextSubnodeFrom;
    hide Preorder;
    hide ChildSlot;
    hide ChildIndex;
    var n, p, ts := At(root, loc), IndexOf(root, loc), TreeTokens(root);
    var vs, j, end := Preorder(n, p, 0), ChildSlot(n, k), ChildSlot(n, k + 1);
    SlotFacts(n, p, k, j);
    NextSlot(n, p, k);
    forall i | j <= i < end ensures StepsTo(b, ts, vs, i) && (i > j ==> vs[i].depth > 1) {
      SlotWalk(b, root, loc, k, i);
    }
    SkipsDeeper(b, ts, vs, j, end);
  }

  /** fdt_next_subnode skips a child's whole subtree and gives the next child, or NOTFOUND. */
  lemma NextSubnodeIsNextChild(b: seq<Byte>, root: Node, loc: seq<nat>, k: nat)
    requires |b| <= INT_MAX && HoldsTree(b, root) && IsLoc(root, loc) && IsLoc(root, loc + [k])
    ensures IsLoc(root, loc + [k + 1]) <==> k + 1 < ChildCount(At(root, loc).items)
    ensures NextSubnode(b, OffsetAt(root, loc + [k])) ==
            if IsLoc(root, loc + [k + 1]) then OffsetAt(root, loc + [k + 1]) else NOTFOUND
  {
    hide NextSubnode;
    LocExtends(root, loc, k);
    LocExtends(root, loc, k + 1);
    NextOfSlot(b, root, loc, k);
  }

  // ---------------------------------------------------------------- ancestors

  /** The last visit up to position j that has depth d, or -1. */
  function LastAt(vs: seq<Visit>, j: int, d: int): (m: int)
    requires j < |vs|
    ensures -1 <= m <= j || (m == -1 && j < -1)
    ensures m >= 0 ==> vs[m].depth == d
    ensures forall i :: 0 <= i && m < i <= j ==> vs[i].depth != d
  {
    if j < 0 then -1 else if vs[j].depth == d then j else LastAt(vs, j - 1, d)
  }

  /** Up to a node, the last visit at an ancestor's depth is that ancestor. */
  lemma LastAtIsAncestor(root: Node, loc: seq<nat>, d: nat)
    requires IsLoc(root, loc) && d <= |loc|
    ensures IsLoc(root, loc[..d]) && PosOf(root, loc) < |Document(root)|
    ensures LastAt(Document(root), PosOf(root, loc), d) == PosOf(root, loc[..d])
  {
    var vs := Document(root);
    LocPrefix(root, loc, d);
    LocIsVisited(root, 0, 0, loc);
    LocIsVisited(root, 0, 0, loc[..d]);
    PrefixComesFirst(root, loc, d);
    var m := LastAt(vs, PosOf(root, loc), d);
    forall k | PosOf(root, loc[..d]) < k <= PosOf(root, loc) ensures vs[k].depth != d {
      BetweenAncestorAndNode(root, 0, 0, loc, d, k);
    }
  }

  lemma {:induction false} PrefixComesFirst(n: Node, loc: seq<nat>, e: nat)
    requires IsLoc(n, loc) && e <= |loc| && IsLoc(n, loc[..e])
    ensures PosOf(n, loc[..e]) <= PosOf(n, loc)
    decreases |loc|
  {
    if e > 0 {
      assert loc[..e][1..] == loc[1..][..e - 1];
      PrefixComesFirst(NthChild(n.items, loc[0]), loc[1..], e - 1);
    }
  }

  /** What the scan for an ancestor reports when it reaches visit k: the last visit at the wanted
      depth, and visit k's own depth. */
  function AncestorSeen(ts: seq<Token>, vs: seq<Visit>, k: nat, sd: nat): (int, int)
    requires k < |vs| && forall i :: 0 <= i < |vs| ==> vs[i].index < |ts|
  {
    (if sd > vs[k].depth then NOTFOUND else SeenAt(ts, vs, k, sd), vs[k].depth)
  }

  /** The offset remembered after visits 0 to j. */
  function SeenAt(ts: seq<Token>, vs: seq<Visit>, j: int, sd: nat): int
    requires j < |vs| && forall i :: 0 <= i < |vs| ==> vs[i].index < |ts|
  {
    var m := LastAt(vs, j, sd);
    if m < 0 then INTERNAL else Offset(ts, vs[m].index)
  }

  /** vs are visits that fdt_next_node walks, at ascending positions. */
  predicate IsWalk(b: seq<Byte>, ts: seq<Token>, vs: seq<Visit>)
    requires |b| <= INT_MAX
  {
    && (forall i :: 0 <= i < |vs| ==> vs[i].index < |ts|)
    && (forall i :: 0 <= i < |vs| ==> StepsTo(b, ts, vs, i))
    && (forall i, j :: 0 <= i < j < |vs| ==> vs[i].index < vs[j].index)
  }

  lemma SupernodeStep(b: seq<Byte>, off: int, depth: int, target: int, sd: int, acc: int, r: int, d: int)
    requires |b| <= INT_MAX && NextNode(b, off, true, depth) == (r, d) && 0 <= off <= target
    ensures SupernodeFrom(b, off, depth, target, sd, acc) ==
            var acc' := if depth == sd then off else acc;
            if off == target then (if sd > depth then NOTFOUND else acc', depth)
            else SupernodeFrom(b, r, d, target, sd, acc')
  {
  }

  lemma {:induction false} SupernodeScan(b: seq<Byte>, ts: seq<Token>, vs: seq<Visit>, j: nat, k: nat, sd: nat)
    requires |b| <= INT_MAX && IsWalk(b, ts, vs) && j <= k < |vs|
    ensures SupernodeFrom(b, Offset(ts, vs[j].index), vs[j].depth, Offset(ts, vs[k].index), sd, SeenAt(ts, vs, j - 1, sd)) ==
            AncestorSeen(ts, vs, k, sd)
    decreases k - j
  {
    hide NextNode;
    hide SupernodeFrom;
    assert StepsTo(b, ts, vs, j);
    assert SeenAt(ts, vs, j, sd) == if vs[j].depth == sd then Offset(ts, vs[j].index) else SeenAt(ts, vs, j - 1, sd);
    OffsetIsInjective(ts, vs[j].index, vs[k].index);
    var (r, d) := NextNode(b, Offset(ts, vs[j].index), true, vs[j].depth);
    SupernodeStep(b, Offset(ts, vs[j].index), vs[j].depth, Offset(ts, vs[k].index), sd, SeenAt(ts, vs, j - 1, sd), r, d);
    if j < k {
      SupernodeScan(b, ts, vs, j + 1, k, sd);
    }
  }

  lemma {:induction false} DocumentAscends(b: seq<Byte>, root: Node, i: nat, j: nat)
    requires |b| <= INT_MAX && HoldsTree(b, root) && i < j < |Document(root)|
    ensures Document(root)[i].index < Document(root)[j].index
    decreases j - i
  {
    hide NextNode;
    hide Offset;
    hide Preorder;
    hide NodeTokens;
    NextNodeIsPreorder(b, root, j - 1);
    OffsetIsInjective(TreeTokens(root), Document(root)[j - 1].index, Document(root)[j].index);
    if i < j - 1 { DocumentAscends(b, root, i, j - 1); }
  }

  lemma DocumentIsWalk(b: seq<Byte>, root: Node)
    requires |b| <= INT_MAX && HoldsTree(b, root)
    ensures IsWalk(b, TreeTokens(root), Document(root))
  {
    var ts, vs := TreeTokens(root), Document(root);
    forall i | 0 <= i < |vs| ensures vs[i].index < |ts| && StepsTo(b, ts, vs, i) {
      VisitInTree(root, [], i);
      WalkBelow(b, root, [], i);
    }
    forall i, j | 0 <= i < j < |vs| ensures vs[i].index < vs[j].index {
      DocumentAscends(b, root, i, j);
    }
  }

  /** The located node, as the visit that the scan meets. */
  lemma LocOffset(root: Node, loc: seq<nat>)
    requires IsLoc(root, loc)
    ensures PosOf(root, loc) < |Document(root)|
    ensures Document(root)[PosOf(root, loc)] == Visit(IndexOf(root, loc), |loc|, At(root, loc))
    ensures IndexOf(root, loc) < |TreeTokens(root)|
    ensures OffsetAt(root, loc) == Offset(TreeTokens(root), IndexOf(root, loc))
  {
    LocIsVisited(root, 0, 0, loc);
    IndexFits(root, loc);
  }

  lemma SupernodeReports(b: seq<Byte>, root: Node, loc: seq<nat>, d: nat)
    requires |b| <= INT_MAX && HoldsTree(b, root) && IsLoc(root, loc)
    requires PosOf(root, loc) < |Document(root)| && IsWalk(b, TreeTokens(root), Document(root))
    ensures Supernode(b, OffsetAt(root, loc), d) == AncestorSeen(TreeTokens(root), Document(root), PosOf(root, loc), d)
  {
    LocOffset(root, loc);
    SupernodeScan(b, TreeTokens(root), Document(root), 0, PosOf(root, loc), d);
  }

  /** Ancestor lookup: the located node's ancestor at depth d for d up to its own depth, which is
      also reported; NOTFOUND beyond. */
  lemma SupernodeIsAncestor(b: seq<Byte>, root: Node, loc: seq<nat>, d: nat)
    requires |b| <= INT_MAX && HoldsTree(b, root) && IsLoc(root, loc)
    ensures d <= |loc| ==> (IsLoc(root, loc[..d]) &&
              Supernode(b, OffsetAt(root, loc), d) == (OffsetAt(root, loc[..d]), |loc|))
    ensures d > |loc| ==> Supernode(b, OffsetAt(root, loc), d) == (NOTFOUND, |loc|)
  {
    LocOffset(root, loc);
    DocumentIsWalk(b, root);
    SupernodeReports(b, root, loc, d);
    if d <= |loc| {
      LastAtIsAncestor(root, loc, d);
      LocOffset(root, loc[..d]);
    }
  }

  /** fdt_node_depth is the node's depth in the tree. */
  lemma NodeDepthIsDepth(b: seq<Byte>, root: Node, loc: seq<nat>)
    requires |b| <= INT_MAX && HoldsTree(b, root) && IsLoc(root, loc)
    ensures NodeDepth(b, OffsetAt(root, loc)) == |loc|
  {
    SupernodeIsAncestor(b, root, loc, 0);
    assert loc[..0] == [];
  }

  /** fdt_parent_offset is the parent; the root has none. */
  lemma ParentOffsetIsParent(b: seq<Byte>, root: Node, loc: seq<nat>)
    requires |b| <= INT_MAX && HoldsTree(b, root) && IsLoc(root, loc)
    ensures loc == [] ==> ParentOffset(b, OffsetAt(root, loc)) == NOTFOUND
    ensures loc != [] ==> (IsLoc(root, loc[..|loc| - 1]) &&
              ParentOffset(b, OffsetAt(root, loc)) == OffsetAt(root, loc[..|loc| - 1]))
  {
    NodeDepthIsDepth(b, root, loc);
    if loc != [] { SupernodeIsAncestor(b, root, loc, |loc| - 1); }
  }
}
