/** Walking the tree by rescanning the block: fdt_next_node and what is built on it. */
module FdtWalk {
  import opened Bytes
  import opened FdtFormat
  import opened FdtTokens
  import opened FdtTree

  // ---------------------------------------------------------------- the scan over bytes

  /** The loop of fdt_next_node from `off`: the offset of the next begin tag, or an error, or,
      with a depth counter, the offset after the end tag that takes the depth below 0. */
  function ScanNode(b: seq<Byte>, off: int, tracked: bool, depth: int): (r: (int, int))
    requires |b| <= INT_MAX
    ensures r.0 >= 0 ==> off <= r.0 < |b| + 4
    ensures !tracked ==> r.1 == depth
    decreases |b| - off
  {
    var (tag, next) := NextTag(b, off);
    if tag == FDT_BEGIN_NODE then (off, if tracked then depth + 1 else depth)
    else if tag == FDT_END_NODE then
      if tracked && depth - 1 < 0 then (next, depth - 1)
      else ScanNode(b, next, tracked, if tracked then depth - 1 else depth)
    else if tag == FDT_END then
      (if next >= 0 || (next == TRUNCATED && !tracked) then NOTFOUND else next, depth)
    else ScanNode(b, next, tracked, depth)
  }

  /** fdt_check_node_offset_. */
  function CheckNodeOffset(b: seq<Byte>, off: int): (r: int)
    ensures r >= 0 ==> 0 <= off && off + 4 <= |b| && off + 4 <= r < |b| + 4
    ensures r < 0 ==> r == BADOFFSET
  {
    if off < 0 || off % 4 != 0 then BADOFFSET
    else if NextTag(b, off).0 != FDT_BEGIN_NODE then BADOFFSET
    else NextTag(b, off).1
  }

  /** A node offset is good exactly when it is aligned and a begin token lies there. */
  lemma NodeOffsetIsBegin(b: seq<Byte>, off: int)
    ensures CheckNodeOffset(b, off) >= 0 <==> off >= 0 && off % 4 == 0 && exists name :: TokenAt(b, off, Begin(name))
    ensures CheckNodeOffset(b, off) < 0 ==> CheckNodeOffset(b, off) == -4
  {
    if CheckNodeOffset(b, off) >= 0 {
      NextTagParses(b, off);
      assert TokenAt(b, off, Begin(TokenOf(b, off).name));
    }
    hide TokenAt;
    if off >= 0 && off % 4 == 0 && exists name :: TokenAt(b, off, Begin(name)) {
      var name :| TokenAt(b, off, Begin(name));
      NextTagReads(b, off, Begin(name));
    }
  }

  /** fdt_next_node; `tracked` says whether a depth pointer was given. */
  function NextNode(b: seq<Byte>, off: int, tracked: bool, depth: int): (r: (int, int))
    requires |b| <= INT_MAX
    ensures r.0 >= 0 ==> off < r.0 < |b| + 4
  {
    var start := if off >= 0 then CheckNodeOffset(b, off) else 0;
    if start < 0 then (start, depth) else ScanNode(b, start, tracked, depth)
  }

  // ---------------------------------------------------------------- the scan over tokens

  /** Where the scan ends: at a begin token, past an end token that leaves the start node, or at
      the end of the tree. */
  datatype Stop = Hit(index: nat, depth: int) | Left(index: nat, depth: int) | Ended(depth: int) | Broken

  function TokScan(ts: seq<Token>, i: nat, tracked: bool, depth: int): Stop
    decreases |ts| - i
  {
    if i >= |ts| then Broken
    else match ts[i]
      case Begin(_) => Hit(i, if tracked then depth + 1 else depth)
      case EndNode =>
        if tracked && depth - 1 < 0 then Left(i + 1, depth - 1)
        else TokScan(ts, i + 1, tracked, if tracked then depth - 1 else depth)
      case Finish => Ended(depth)
      case _ => TokScan(ts, i + 1, tracked, depth)
  }

  /** One round of the scan, on a token. */
  lemma ScanStep(b: seq<Byte>, off: nat, t: Token, tracked: bool, depth: int)
    requires |b| <= INT_MAX && TokenAt(b, off, t) && off % 4 == 0
    ensures ScanNode(b, off, tracked, depth) == match t
      case Begin(_) => (off, if tracked then depth + 1 else depth)
      case EndNode =>
        if tracked && depth - 1 < 0 then (off + Width(t), depth - 1)
        else ScanNode(b, off + Width(t), tracked, if tracked then depth - 1 else depth)
      case Finish => (NOTFOUND, depth)
      case _ => ScanNode(b, off + Width(t), tracked, depth)
  {
    NextTagReads(b, off, t);
  }

  /** The stop, as the pair fdt_next_node reports. */
  predicate Reports(ts: seq<Token>, s: Stop, r: (int, int)) {
    match s
    case Hit(j, d) => j < |ts| && r == (Offset(ts, j), d)
    case Left(j, d) => j <= |ts| && r == (Offset(ts, j), d)
    case Ended(d) => r == (NOTFOUND, d)
    case Broken => true
  }

  /** The scan over bytes finds what the scan over tokens finds. */
  lemma {:induction false} ScanFollowsTokens(b: seq<Byte>, ts: seq<Token>, i: nat, tracked: bool, depth: int)
    requires |b| <= INT_MAX && TokensAt(b, 0, ts) && i < |ts|
    ensures Reports(ts, TokScan(ts, i, tracked, depth), ScanNode(b, Offset(ts, i), tracked, depth))
    decreases |ts| - i
  {
    hide Width;
    hide ScanNode;
    hide TokenAt;
    hide TokensAt;
    hide NextTag;
    TokenInBlock(b, 0, ts, i);
    ScanStep(b, Offset(ts, i), ts[i], tracked, depth);
    if i + 1 < |ts| {
      match ts[i]
      case Begin(_) =>
      case EndNode => if !(tracked && depth - 1 < 0) {
          ScanFollowsTokens(b, ts, i + 1, tracked, if tracked then depth - 1 else depth);
        }
      case Finish =>
      case _ => ScanFollowsTokens(b, ts, i + 1, tracked, depth);
    }
  }

  // ---------------------------------------------------------------- preorder

  /** From the start of items whose nodes have depth d, the scan stops at their first node, or
      passes over them. */
  lemma {:induction false} ScanItems(ts: seq<Token>, p: nat, it: Items, tracked: bool, d: int)
    requires Embeds(ts, p, ItemTokens(it))
    ensures TokScan(ts, p, tracked, d) ==
      if ChildCount(it) == 0 then TokScan(ts, p + |ItemTokens(it)|, tracked, d)
      else Hit(p + ChildIndex(it, 0), if tracked then d + 1 else d)
    decreases it
  {
    hide Embeds;
    hide NodeTokens;
    match it
    case Done =>
    case NopItem(rest) =>
      EmbedsParts(ts, p, [Nop], ItemTokens(rest));
      EmbedsElement(ts, p, [Nop], 0);
      ScanItems(ts, p + 1, rest, tracked, d);
    case PropItem(o, v, rest) =>
      EmbedsParts(ts, p, [Prop(o, v)], ItemTokens(rest));
      EmbedsElement(ts, p, [Prop(o, v)], 0);
      ScanItems(ts, p + 1, rest, tracked, d);
    case Child(node, rest) =>
      EmbedsParts(ts, p, NodeTokens(node), ItemTokens(rest));
      EmbedsNode(ts, p, node);
  }

  /** vs is what repeated scanning meets: from each node of vs the scan stops at the next one, and
      from the last it goes on as from `end`, having come back up to depth d. */
  predicate Walks(ts: seq<Token>, vs: seq<Visit>, end: nat, d: int) {
    && (forall k :: 0 <= k < |vs| - 1 ==>
          TokScan(ts, vs[k].index + 1, true, vs[k].depth) == Hit(vs[k + 1].index, vs[k + 1].depth) &&
          TokScan(ts, vs[k].index + 1, false, 0) == Hit(vs[k + 1].index, 0))
    && (vs != [] ==>
          var v := vs[|vs| - 1];
          TokScan(ts, v.index + 1, true, v.depth) == TokScan(ts, end, true, d) &&
          TokScan(ts, v.index + 1, false, 0) == TokScan(ts, end, false, 0))
  }

  lemma WalksConcat(ts: seq<Token>, vs: seq<Visit>, mid: nat, dm: int, ws: seq<Visit>, end: nat, d: int)
    requires Walks(ts, vs, mid, dm) && Walks(ts, ws, end, d) && vs != []
    requires if ws == [] then TokScan(ts, mid, true, dm) == TokScan(ts, end, true, d) &&
                              TokScan(ts, mid, false, 0) == TokScan(ts, end, false, 0)
             else TokScan(ts, mid, true, dm) == Hit(ws[0].index, ws[0].depth) &&
                  TokScan(ts, mid, false, 0) == Hit(ws[0].index, 0)
    ensures Walks(ts, vs + ws, end, d)
  {
    hide TokScan;
    var us := vs + ws;
    forall k | 0 <= k < |us| - 1
      ensures TokScan(ts, us[k].index + 1, true, us[k].depth) == Hit(us[k + 1].index, us[k + 1].depth)
      ensures TokScan(ts, us[k].index + 1, false, 0) == Hit(us[k + 1].index, 0)
    {
      if k < |vs| - 1 {
        assert us[k] == vs[k] && us[k + 1] == vs[k + 1];
      } else if k >= |vs| {
        assert us[k] == ws[k - |vs|] && us[k + 1] == ws[k + 1 - |vs|];
      }
    }
  }

  lemma OneWalks(ts: seq<Token>, v: Visit)
    ensures Walks(ts, [v], v.index + 1, v.depth)
  {
  }

  lemma NoneWalk(ts: seq<Token>, end: nat, d: int)
    ensures Walks(ts, [], end, d)
  {
  }

  /** An end token takes the scan one level up. */
  lemma ScanLeaves(ts: seq<Token>, i: nat, d: int)
    requires i < |ts| && ts[i] == EndNode && d >= 1
    ensures TokScan(ts, i, true, d) == TokScan(ts, i + 1, true, d - 1)
    ensures TokScan(ts, i, false, 0) == TokScan(ts, i + 1, false, 0)
  {
  }

  /** Walking a node meets its nodes in document order and then its end token, back at the
      node's own depth. */
  lemma {:induction false} NodeWalks(ts: seq<Token>, p: nat, n: Node, d: int)
    requires Embeds(ts, p, NodeTokens(n)) && d >= 0
    ensures Walks(ts, Preorder(n, p, d), p + 1 + |ItemTokens(n.items)|, d)
    decreases n, 1
  {
    hide Walks;
    hide TokScan;
    hide Embeds;
    EmbedsNode(ts, p, n);
    ItemsWalk(ts, p + 1, n.items, d + 1);
    var end := p + 1 + |ItemTokens(n.items)|;
    ScanItems(ts, p + 1, n.items, true, d);
    ScanItems(ts, p + 1, n.items, false, 0);
    FirstOfItems(n.items, p + 1, d + 1);
    OneWalks(ts, Visit(p, d, n));
    WalksConcat(ts, [Visit(p, d, n)], p + 1, d, PreItems(n.items, p + 1, d + 1), end, d);
  }

  lemma {:induction false} FirstOfItems(it: Items, p: nat, d: int)
    ensures PreItems(it, p, d) == [] <==> ChildCount(it) == 0
    ensures ChildCount(it) > 0 ==> PreItems(it, p, d)[0] == Visit(p + ChildIndex(it, 0), d, NthChild(it, 0))
    decreases it
  {
    match it
    case Done =>
    case NopItem(rest) => FirstOfItems(rest, p + 1, d);
    case PropItem(_, _, rest) => FirstOfItems(rest, p + 1, d);
    case Child(node, rest) =>
  }

  lemma {:induction false} ItemsWalk(ts: seq<Token>, p: nat, it: Items, d: int)
    requires Embeds(ts, p, ItemTokens(it)) && d >= 1
    ensures Walks(ts, PreItems(it, p, d), p + |ItemTokens(it)|, d - 1)
    decreases it, 0
  {
    hide Walks;
    hide TokScan;
    hide Embeds;
    hide NodeTokens;
    match it
    case Done => NoneWalk(ts, p, d - 1);
    case NopItem(rest) =>
      EmbedsParts(ts, p, [Nop], ItemTokens(rest));
      ItemsWalk(ts, p + 1, rest, d);
    case PropItem(o, v, rest) =>
      EmbedsParts(ts, p, [Prop(o, v)], ItemTokens(rest));
      ItemsWalk(ts, p + 1, rest, d);
    case Child(node, rest) =>
      EmbedsParts(ts, p, NodeTokens(node), ItemTokens(rest));
      EmbedsNode(ts, p, node);
      NodeWalks(ts, p, node, d);
      ItemsWalk(ts, p + |NodeTokens(node)|, rest, d);
      ThenSiblings(ts, p, node, rest, d);
  }

  /** After a child's end token the scan goes on with the siblings after it. */
  lemma ThenSiblings(ts: seq<Token>, p: nat, node: Node, rest: Items, d: int)
    requires d >= 1 && Embeds(ts, p, NodeTokens(node)) && Embeds(ts, p + |NodeTokens(node)|, ItemTokens(rest))
    requires Walks(ts, Preorder(node, p, d), p + |NodeTokens(node)| - 1, d)
    requires Walks(ts, PreItems(rest, p + |NodeTokens(node)|, d), p + |NodeTokens(node)| + |ItemTokens(rest)|, d - 1)
    ensures Walks(ts, Preorder(node, p, d) + PreItems(rest, p + |NodeTokens(node)|, d),
                  p + |NodeTokens(node)| + |ItemTokens(rest)|, d - 1)
  {
    hide Walks;
    hide TokScan;
    hide Embeds;
    hide NodeTokens;
    var q := p + |NodeTokens(node)|;
    EmbedsNode(ts, p, node);
    FirstOfItems(rest, q, d);
    ScanItems(ts, q, rest, true, d - 1);
    ScanItems(ts, q, rest, false, 0);
    ScanLeaves(ts, q - 1, d);
    WalksConcat(ts, Preorder(node, p, d), q - 1, d, PreItems(rest, q, d), q + |ItemTokens(rest)|, d - 1);
  }

  // ---------------------------------------------------------------- the tree-walk theorems

  /** The tokens of a tree's block. */
  function TreeTokens(root: Node): seq<Token> {
    NodeTokens(root) + [Finish]
  }

  /** Where the node with this visit lies in the block. */
  function VisitOffset(root: Node, v: Visit): nat
    requires v.index <= |TreeTokens(root)|
  {
    Offset(TreeTokens(root), v.index)
  }

  lemma {:induction false} VisitsAreNodes(n: Node, p: nat, d: int, k: nat)
    requires k < |Preorder(n, p, d)|
    ensures VisitLies(NodeTokens(n), p, Preorder(n, p, d)[k])
    decreases n, 1
  {
    hide ItemTokens;
    hide Embeds;
    var ts := NodeTokens(n);
    EmbedsWhole(ts);
    EmbedsNode(ts, 0, n);
    if k > 0 {
      ItemVisitsAreNodes(n.items, p + 1, d + 1, k - 1);
      var v := PreItems(n.items, p + 1, d + 1)[k - 1];
      EmbedsWithin(ts, 1, ItemTokens(n.items), v.index - p - 1, NodeTokens(v.node));
    }
  }

  /** The visited node's tokens are the part of ts, which starts at p, at the visit's index. */
  predicate VisitLies(ts: seq<Token>, p: nat, v: Visit) {
    p <= v.index < p + |ts| && Embeds(ts, v.index - p, NodeTokens(v.node))
  }

  lemma VisitLiesLater(a: seq<Token>, c: seq<Token>, p: nat, v: Visit)
    requires VisitLies(c, p + |a|, v)
    ensures VisitLies(a + c, p, v)
  {
    EmbedsLater(a, c, v.index - p - |a|, NodeTokens(v.node));
  }

  lemma VisitLiesFirst(a: seq<Token>, c: seq<Token>, p: nat, v: Visit)
    requires VisitLies(a, p, v)
    ensures VisitLies(a + c, p, v)
  {
    EmbedsEarlier(a, c, v.index - p, NodeTokens(v.node));
  }

  lemma {:induction false} ItemVisitsAreNodes(it: Items, p: nat, d: int, k: nat)
    requires k < |PreItems(it, p, d)|
    ensures VisitLies(ItemTokens(it), p, PreItems(it, p, d)[k])
    decreases it, 0
  {
    hide VisitLies;
    hide Embeds;
    hide NodeTokens;
    match it
    case NopItem(rest) =>
      ItemVisitsAreNodes(rest, p + 1, d, k);
      VisitLiesLater([Nop], ItemTokens(rest), p, PreItems(rest, p + 1, d)[k]);
    case PropItem(o, w, rest) =>
      ItemVisitsAreNodes(rest, p + 1, d, k);
      VisitLiesLater([Prop(o, w)], ItemTokens(rest), p, PreItems(rest, p + 1, d)[k]);
    case Child(node, rest) =>
      var w := |Preorder(node, p, d)|;
      if k < w {
        VisitsAreNodes(node, p, d, k);
        VisitLiesFirst(NodeTokens(node), ItemTokens(rest), p, Preorder(node, p, d)[k]);
      } else {
        var q := p + |NodeTokens(node)|;
        ItemVisitsAreNodes(rest, q, d, k - w);
        VisitLiesLater(NodeTokens(node), ItemTokens(rest), p, PreItems(rest, q, d)[k - w]);
      }
  }

  /** One call of fdt_next_node from the k-th of the visits vs, with the depth counter at that
      visit's depth: on to the next visit, or out of the start node. */
  predicate StepsTo(b: seq<Byte>, ts: seq<Token>, vs: seq<Visit>, k: nat)
    requires |b| <= INT_MAX && k < |vs|
  {
    && vs[k].index < |ts|
    && var r := NextNode(b, Offset(ts, vs[k].index), true, vs[k].depth);
       if k + 1 < |vs| then vs[k + 1].index < |ts| && r == (Offset(ts, vs[k + 1].index), vs[k + 1].depth)
       else r.0 >= 0 && r.1 == -1
  }

  /** The located node's own walk inside the whole block: fdt_next_node, started at the node with
      depth 0, meets exactly the node's descendants in document order with their depths below it,
      and then leaves the node. */
  lemma WalkBelow(b: seq<Byte>, root: Node, loc: seq<nat>, k: nat)
    requires |b| <= INT_MAX && HoldsTree(b, root) && IsLoc(root, loc)
    requires k < |Preorder(At(root, loc), IndexOf(root, loc), 0)|
    ensures StepsTo(b, TreeTokens(root), Preorder(At(root, loc), IndexOf(root, loc), 0), k)
  {
    hide Preorder;
    hide NodeTokens;
    hide StepsTo;
    hide Walks;
    hide Embeds;
    hide TokScan;
    hide TokensAt;
    var ts, n, p := TreeTokens(root), At(root, loc), IndexOf(root, loc);
    LocInTree(root, loc);
    NodeWalks(ts, p, n, 0);
    VisitInTree(root, loc, k);
    if k + 1 < |Preorder(n, p, 0)| { VisitInTree(root, loc, k + 1); }
    EmbedsNode(ts, p, n);
    StepFromWalk(b, ts, Preorder(n, p, 0), p + 1 + |ItemTokens(n.items)|, k);
  }

  lemma StepFromWalk(b: seq<Byte>, ts: seq<Token>, vs: seq<Visit>, end: nat, k: nat)
    requires |b| <= INT_MAX && TokensAt(b, 0, ts) && Walks(ts, vs, end, 0) && k < |vs|
    requires vs[k].index + 1 < |ts| && ts[vs[k].index].Begin? && end < |ts| && ts[end] == EndNode
    requires k + 1 < |vs| ==> vs[k + 1].index < |ts|
    ensures StepsTo(b, ts, vs, k)
  {
    hide Offset;
    hide NextNode;
    hide ScanNode;
    hide TokensAt;
    NodeAtVisit(b, ts, vs[k]);
    ScanFollowsTokens(b, ts, vs[k].index + 1, true, vs[k].depth);
    if k + 1 == |vs| {
      assert TokScan(ts, end, true, 0) == Left(end + 1, -1);
    }
  }

  lemma LocInTree(root: Node, loc: seq<nat>)
    requires IsLoc(root, loc)
    ensures Embeds(TreeTokens(root), IndexOf(root, loc), NodeTokens(At(root, loc)))
  {
    hide IndexOf;
    hide NodeTokens;
    var ts := TreeTokens(root);
    assert ts[0..|NodeTokens(root)|] == NodeTokens(root);
    LocEmbeds(ts, 0, root, loc);
  }

  lemma VisitInTree(root: Node, loc: seq<nat>, k: nat)
    requires IsLoc(root, loc) && k < |Preorder(At(root, loc), IndexOf(root, loc), 0)|
    ensures var v := Preorder(At(root, loc), IndexOf(root, loc), 0)[k];
      v.index + 1 < |TreeTokens(root)| && TreeTokens(root)[v.index] == Begin(v.node.name)
  {
    hide Embeds;
    hide NodeTokens;
    hide TreeTokens;
    var n, p := At(root, loc), IndexOf(root, loc);
    var v := Preorder(n, p, 0)[k];
    LocInTree(root, loc);
    VisitsAreNodes(n, p, 0, k);
    EmbedsWithin(TreeTokens(root), p, NodeTokens(n), v.index - p, NodeTokens(v.node));
    EmbedsNode(TreeTokens(root), v.index, v.node);
  }

  /** From a node's begin token fdt_next_node starts its scan at the next token. */
  lemma NodeAtVisit(b: seq<Byte>, ts: seq<Token>, v: Visit)
    requires |b| <= INT_MAX && TokensAt(b, 0, ts) && v.index + 1 < |ts| && ts[v.index].Begin?
    ensures CheckNodeOffset(b, Offset(ts, v.index)) == Offset(ts, v.index + 1)
    ensures forall tracked, d ::
      NextNode(b, Offset(ts, v.index), tracked, d) == ScanNode(b, Offset(ts, v.index + 1), tracked, d)
  {
    TokenInBlock(b, 0, ts, v.index);
    NextTagReads(b, Offset(ts, v.index), ts[v.index]);
  }

  /** The nodes of the whole tree in document order. */
  function Document(root: Node): seq<Visit> {
    Preorder(root, 0, 0)
  }

  /** Refinement: from the root, each call of fdt_next_node moves from one node of the document
      to the next, with the depth counter equal to the depth in the tree. */
  lemma NextNodeIsPreorder(b: seq<Byte>, root: Node, k: nat)
    requires |b| <= INT_MAX && HoldsTree(b, root) && k + 1 < |Document(root)|
    ensures Document(root)[k].index < |TreeTokens(root)| && Document(root)[k + 1].index < |TreeTokens(root)|
    ensures NextNode(b, VisitOffset(root, Document(root)[k]), true, Document(root)[k].depth) ==
            (VisitOffset(root, Document(root)[k + 1]), Document(root)[k + 1].depth)
  {
    WalkBelow(b, root, [], k);
    VisitInTree(root, [], k + 1);
  }

  lemma FirstCall(b: seq<Byte>, ts: seq<Token>)
    requires |b| <= INT_MAX && ts != [] && ts[0].Begin?
    ensures NextNode(b, -1, false, 0) == ScanNode(b, 0, false, 0) && TokScan(ts, 0, false, 0) == Hit(0, 0)
  {
    hide ScanNode;
  }

  lemma TreeEnds(root: Node)
    ensures TokScan(TreeTokens(root), |TreeTokens(root)| - 2, false, 0) == Ended(0)
  {
    var ts := TreeTokens(root);
    assert ts[|ts| - 2] == EndNode && ts[|ts| - 1] == Finish;
    assert TokScan(ts, |ts| - 1, false, 0) == Ended(0);
  }

  lemma UntrackedStep(b: seq<Byte>, root: Node, k: nat)
    requires |b| <= INT_MAX && HoldsTree(b, root) && k < |Document(root)|
    ensures var ts, vs := TreeTokens(root), Document(root);
      && vs[k].index + 1 < |ts| && ts[vs[k].index].Begin?
      && TokScan(ts, vs[k].index + 1, false, 0) == (if k + 1 < |vs| then Hit(vs[k + 1].index, 0) else Ended(0))
  {
    hide TokScan;
    hide Embeds;
    hide NodeTokens;
    hide Preorder;
    VisitInTree(root, [], k);
    LocInTree(root, []);
    EmbedsNode(TreeTokens(root), 0, root);
    NodeWalks(TreeTokens(root), 0, root, 0);
    TreeEnds(root);
  }

  lemma UntrackedNext(b: seq<Byte>, ts: seq<Token>, v: Visit, s: Stop)
    requires |b| <= INT_MAX && TokensAt(b, 0, ts) && v.index + 1 < |ts| && ts[v.index].Begin?
    requires s == TokScan(ts, v.index + 1, false, 0) && (s.Hit? || s.Ended?)
    ensures s.Hit? ==> s.index < |ts|
    ensures NextNode(b, Offset(ts, v.index), false, 0).0 == if s.Hit? then Offset(ts, s.index) else NOTFOUND
  {
    hide NextNode;
    hide ScanNode;
    hide TokScan;
    NodeAtVisit(b, ts, v);
    ScanFollowsTokens(b, ts, v.index + 1, false, 0);
  }

  /** Without a depth pointer, from -1: first the root, then every node in order, then NOTFOUND. */
  lemma UntrackedWalk(b: seq<Byte>, root: Node, k: int)
    requires |b| <= INT_MAX && HoldsTree(b, root) && -1 <= k < |Document(root)|
    ensures k >= 0 ==> Document(root)[k].index < |TreeTokens(root)|
    ensures k + 1 < |Document(root)| ==> Document(root)[k + 1].index < |TreeTokens(root)|
    ensures NextNode(b, if k < 0 then -1 else VisitOffset(root, Document(root)[k]), false, 0).0 ==
            if k + 1 < |Document(root)| then VisitOffset(root, Document(root)[k + 1]) else NOTFOUND
  {
    hide NextNode;
    hide ScanNode;
    hide TokScan;
    hide NodeTokens;
    if k < 0 {
      VisitInTree(root, [], 0);
      FirstCall(b, TreeTokens(root));
      ScanFollowsTokens(b, TreeTokens(root), 0, false, 0);
    } else {
      UntrackedStep(b, root, k);
      if k + 1 < |Document(root)| { VisitInTree(root, [], k + 1); }
      UntrackedNext(b, TreeTokens(root), Document(root)[k], TokScan(TreeTokens(root), Document(root)[k].index + 1, false, 0));
    }
  }
}
