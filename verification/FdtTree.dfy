/** The abstract device tree and where its nodes lie in the token stream. */
module FdtTree {
  import opened Bytes
  import opened FdtFormat
  import opened FdtTokens

  datatype Node = Node(name: seq<Byte>, items: Items)

  /** What stands between a node's begin and end tokens, in order. The reader does not insist on
      properties coming before children, so neither does this type. */
  datatype Items =
    | Done
    | NopItem(rest: Items)
    | PropItem(nameOff: U32, value: seq<Byte>, rest: Items)
    | Child(node: Node, rest: Items)

  function NodeTokens(n: Node): (ts: seq<Token>)
    ensures |ts| >= 2 && ts[0] == Begin(n.name) && ts[|ts| - 1] == EndNode
  {
    [Begin(n.name)] + ItemTokens(n.items) + [EndNode]
  }

  function ItemTokens(it: Items): seq<Token> {
    match it
    case Done => []
    case NopItem(rest) => [Nop] + ItemTokens(rest)
    case PropItem(nameOff, value, rest) => [Prop(nameOff, value)] + ItemTokens(rest)
    case Child(node, rest) => NodeTokens(node) + ItemTokens(rest)
  }

  /** The block starts with the tree rooted at `root`, followed by the end token. */
  predicate HoldsTree(b: seq<Byte>, root: Node) {
    TokensAt(b, 0, NodeTokens(root) + [Finish])
  }

  /** `sub` is the part of ts that starts at p. */
  predicate Embeds<T(==)>(ts: seq<T>, p: nat, sub: seq<T>) {
    p + |sub| <= |ts| && ts[p..p + |sub|] == sub
  }

  lemma EmbedsElement<T>(ts: seq<T>, p: nat, sub: seq<T>, k: nat)
    requires Embeds(ts, p, sub) && k < |sub|
    ensures ts[p + k] == sub[k]
  {
    assert ts[p..p + |sub|][k] == ts[p + k];
  }

  lemma EmbedsWhole<T>(ts: seq<T>)
    ensures Embeds(ts, 0, ts)
  {
  }

  /** A part of a part is a part. */
  lemma EmbedsWithin<T>(ts: seq<T>, p: nat, mid: seq<T>, i: nat, sub: seq<T>)
    requires Embeds(ts, p, mid) && Embeds(mid, i, sub)
    ensures Embeds(ts, p + i, sub)
  {
    forall k | 0 <= k < |sub| ensures ts[p + i + k] == sub[k] {
      EmbedsElement(ts, p, mid, i + k);
      EmbedsElement(mid, i, sub, k);
    }
  }

  lemma EmbedsLater<T>(a: seq<T>, c: seq<T>, i: nat, sub: seq<T>)
    requires Embeds(c, i, sub)
    ensures Embeds(a + c, |a| + i, sub)
  {
    assert (a + c)[|a| + i..|a| + i + |sub|] == c[i..i + |sub|];
  }

  lemma EmbedsEarlier<T>(a: seq<T>, c: seq<T>, i: nat, sub: seq<T>)
    requires Embeds(a, i, sub)
    ensures Embeds(a + c, i, sub)
  {
    assert (a + c)[i..i + |sub|] == a[i..i + |sub|];
  }

  lemma EmbedsParts<T>(ts: seq<T>, p: nat, a: seq<T>, c: seq<T>)
    requires Embeds(ts, p, a + c)
    ensures Embeds(ts, p, a) && Embeds(ts, p + |a|, c)
  {
    assert (a + c)[0..|a|] == a && (a + c)[|a|..|a| + |c|] == c;
    EmbedsWithin(ts, p, a + c, 0, a);
    EmbedsWithin(ts, p, a + c, |a|, c);
  }

  /** The parts of an embedded node: its begin token, its items, its end token. */
  lemma EmbedsNode(ts: seq<Token>, p: nat, n: Node)
    requires Embeds(ts, p, NodeTokens(n))
    ensures p < |ts| && ts[p] == Begin(n.name)
    ensures Embeds(ts, p + 1, ItemTokens(n.items))
    ensures p + 1 + |ItemTokens(n.items)| < |ts| && ts[p + 1 + |ItemTokens(n.items)|] == EndNode
    ensures |NodeTokens(n)| == 2 + |ItemTokens(n.items)|
  {
    EmbedsParts(ts, p, [Begin(n.name)] + ItemTokens(n.items), [EndNode]);
    EmbedsParts(ts, p, [Begin(n.name)], ItemTokens(n.items));
    EmbedsElement(ts, p, [Begin(n.name)], 0);
    EmbedsElement(ts, p + 1 + |ItemTokens(n.items)|, [EndNode], 0);
  }

  // ---------------------------------------------------------------- children and locations

  function ChildCount(it: Items): nat {
    match it
    case Done => 0
    case NopItem(rest) => ChildCount(rest)
    case PropItem(_, _, rest) => ChildCount(rest)
    case Child(_, rest) => 1 + ChildCount(rest)
  }

  function NthChild(it: Items, k: nat): (c: Node)
    requires k < ChildCount(it)
    ensures c < it
  {
    match it
    case NopItem(rest) => NthChild(rest, k)
    case PropItem(_, _, rest) => NthChild(rest, k)
    case Child(node, rest) => if k == 0 then node else NthChild(rest, k - 1)
  }

  /** The token position of child k within the items. */
  function ChildIndex(it: Items, k: nat): (i: nat)
    requires k < ChildCount(it)
    ensures i < |ItemTokens(it)|
  {
    match it
    case NopItem(rest) => 1 + ChildIndex(rest, k)
    case PropItem(_, _, rest) => 1 + ChildIndex(rest, k)
    case Child(node, rest) => if k == 0 then 0 else |NodeTokens(node)| + ChildIndex(rest, k - 1)
  }

  /** A node is located by the child numbers that lead to it from the root. */
  predicate IsLoc(n: Node, loc: seq<nat>)
    decreases |loc|
  {
    loc == [] || (loc[0] < ChildCount(n.items) && IsLoc(NthChild(n.items, loc[0]), loc[1..]))
  }

  function At(n: Node, loc: seq<nat>): Node
    requires IsLoc(n, loc)
    decreases |loc|
  {
    if loc == [] then n else At(NthChild(n.items, loc[0]), loc[1..])
  }

  /** The position of the located node's begin token. */
  function IndexOf(n: Node, loc: seq<nat>): nat
    requires IsLoc(n, loc)
    decreases |loc|
  {
    if loc == [] then 0 else 1 + ChildIndex(n.items, loc[0]) + IndexOf(NthChild(n.items, loc[0]), loc[1..])
  }

  /** The offset the reader uses for the located node. */
  function OffsetAt(root: Node, loc: seq<nat>): nat
    requires IsLoc(root, loc)
  {
    IndexFits(root, loc);
    Offset(NodeTokens(root) + [Finish], IndexOf(root, loc))
  }

  lemma LaterChildIsPart(it: Items, k: nat, first: seq<Token>, rest: Items, j: nat)
    requires k < ChildCount(it) && j < ChildCount(rest) && ItemTokens(it) == first + ItemTokens(rest)
    requires NthChild(it, k) == NthChild(rest, j) && ChildIndex(it, k) == |first| + ChildIndex(rest, j)
    requires Embeds(ItemTokens(rest), ChildIndex(rest, j), NodeTokens(NthChild(rest, j)))
    ensures Embeds(ItemTokens(it), ChildIndex(it, k), NodeTokens(NthChild(it, k)))
  {
    hide *;
    EmbedsLater(first, ItemTokens(rest), ChildIndex(rest, j), NodeTokens(NthChild(rest, j)));
  }

  lemma FirstChildIsPart(node: Node, rest: Items)
    ensures Embeds(ItemTokens(Child(node, rest)), 0, NodeTokens(node))
  {
    hide Embeds;
    hide NodeTokens;
    EmbedsWhole(NodeTokens(node));
    EmbedsEarlier(NodeTokens(node), ItemTokens(rest), 0, NodeTokens(node));
  }

  lemma {:induction false} ChildIsPart(it: Items, k: nat)
    requires k < ChildCount(it)
    ensures Embeds(ItemTokens(it), ChildIndex(it, k), NodeTokens(NthChild(it, k)))
    decreases it
  {
    hide NodeTokens;
    hide Embeds;
    match it
    case NopItem(rest) =>
      ChildIsPart(rest, k);
      LaterChildIsPart(it, k, [Nop], rest, k);
    case PropItem(o, v, rest) =>
      ChildIsPart(rest, k);
      LaterChildIsPart(it, k, [Prop(o, v)], rest, k);
    case Child(node, rest) =>
      FirstChildIsPart(node, rest);
      if k > 0 {
        ChildIsPart(rest, k - 1);
        LaterChildIsPart(it, k, NodeTokens(node), rest, k - 1);
      }
  }

  lemma ChildEmbeds(ts: seq<Token>, p: nat, it: Items, k: nat)
    requires Embeds(ts, p, ItemTokens(it)) && k < ChildCount(it)
    ensures Embeds(ts, p + ChildIndex(it, k), NodeTokens(NthChild(it, k)))
  {
    ChildIsPart(it, k);
    EmbedsWithin(ts, p, ItemTokens(it), ChildIndex(it, k), NodeTokens(NthChild(it, k)));
  }

  /** A located node's tokens are where IndexOf says. */
  lemma {:induction false} LocEmbeds(ts: seq<Token>, p: nat, n: Node, loc: seq<nat>)
    requires Embeds(ts, p, NodeTokens(n)) && IsLoc(n, loc)
    ensures Embeds(ts, p + IndexOf(n, loc), NodeTokens(At(n, loc)))
    decreases |loc|
  {
    hide Embeds;
    hide NodeTokens;
    if loc != [] {
      EmbedsNode(ts, p, n);
      ChildEmbeds(ts, p + 1, n.items, loc[0]);
      LocEmbeds(ts, p + 1 + ChildIndex(n.items, loc[0]), NthChild(n.items, loc[0]), loc[1..]);
    }
  }

  lemma IndexFits(root: Node, loc: seq<nat>)
    requires IsLoc(root, loc)
    ensures IndexOf(root, loc) < |NodeTokens(root)|
  {
    var ts := NodeTokens(root);
    assert ts[0..0 + |ts|] == ts;
    LocEmbeds(ts, 0, root, loc);
  }

  lemma {:induction false} LocPrefix(n: Node, loc: seq<nat>, e: nat)
    requires IsLoc(n, loc) && e <= |loc|
    ensures IsLoc(n, loc[..e])
    decreases |loc|
  {
    if e > 0 {
      LocPrefix(NthChild(n.items, loc[0]), loc[1..], e - 1);
      assert loc[..e][1..] == loc[1..][..e - 1];
    }
  }

  /** The located node's child k is the location extended by k. */
  lemma {:induction false} LocExtends(n: Node, loc: seq<nat>, k: nat)
    requires IsLoc(n, loc)
    ensures IsLoc(n, loc + [k]) <==> k < ChildCount(At(n, loc).items)
    ensures IsLoc(n, loc + [k]) ==>
      (At(n, loc + [k]) == NthChild(At(n, loc).items, k) &&
       IndexOf(n, loc + [k]) == IndexOf(n, loc) + 1 + ChildIndex(At(n, loc).items, k))
    decreases |loc|
  {
    if loc != [] {
      LocExtends(NthChild(n.items, loc[0]), loc[1..], k);
      assert (loc + [k])[1..] == loc[1..] + [k];
    } else {
      assert [k][1..] == [];
    }
  }

  // ---------------------------------------------------------------- preorder

  /** One node in document order: its token position, its depth, the node. */
  datatype Visit = Visit(index: nat, depth: int, node: Node)

  function Preorder(n: Node, p: nat, depth: int): (vs: seq<Visit>)
    ensures |vs| >= 1 && vs[0] == Visit(p, depth, n)
  {
    [Visit(p, depth, n)] + PreItems(n.items, p + 1, depth + 1)
  }

  function PreItems(it: Items, p: nat, depth: int): seq<Visit> {
    match it
    case Done => []
    case NopItem(rest) => PreItems(rest, p + 1, depth)
    case PropItem(_, _, rest) => PreItems(rest, p + 1, depth)
    case Child(node, rest) => Preorder(node, p, depth) + PreItems(rest, p + |NodeTokens(node)|, depth)
  }

  /** How many nodes come before child k's among the items' nodes. */
  function ChildPos(it: Items, k: nat): (i: nat)
    requires k < ChildCount(it)
  {
    match it
    case NopItem(rest) => ChildPos(rest, k)
    case PropItem(_, _, rest) => ChildPos(rest, k)
    case Child(node, rest) => if k == 0 then 0 else |Preorder(node, 0, 0)| + ChildPos(rest, k - 1)
  }

  /** The located node's place in document order. */
  function PosOf(n: Node, loc: seq<nat>): nat
    requires IsLoc(n, loc)
    decreases |loc|
  {
    if loc == [] then 0 else 1 + ChildPos(n.items, loc[0]) + PosOf(NthChild(n.items, loc[0]), loc[1..])
  }

  lemma {:induction false} PreorderLength(n: Node, p: nat, d: int, q: nat, e: int)
    ensures |Preorder(n, p, d)| == |Preorder(n, q, e)|
    decreases n
  {
    PreItemsLength(n.items, p + 1, d + 1, q + 1, e + 1);
  }

  lemma {:induction false} PreItemsLength(it: Items, p: nat, d: int, q: nat, e: int)
    ensures |PreItems(it, p, d)| == |PreItems(it, q, e)|
    decreases it
  {
    match it
    case Done =>
    case NopItem(rest) => PreItemsLength(rest, p + 1, d, q + 1, e);
    case PropItem(_, _, rest) => PreItemsLength(rest, p + 1, d, q + 1, e);
    case Child(node, rest) =>
      PreorderLength(node, p, d, q, e);
      PreItemsLength(rest, p + |NodeTokens(node)|, d, q + |NodeTokens(node)|, e);
  }

  /** Child k's nodes are a stretch of the items' nodes. */
  lemma {:induction false} ChildStretch(it: Items, p: nat, d: int, k: nat)
    requires k < ChildCount(it)
    ensures Embeds(PreItems(it, p, d), ChildPos(it, k), Preorder(NthChild(it, k), p + ChildIndex(it, k), d))
    decreases it
  {
    hide Embeds;
    hide NodeTokens;
    match it
    case NopItem(rest) => ChildStretch(rest, p + 1, d, k);
    case PropItem(_, _, rest) => ChildStretch(rest, p + 1, d, k);
    case Child(node, rest) =>
      if k > 0 {
        var q := p + |NodeTokens(node)|;
        ChildStretch(rest, q, d, k - 1);
        PreorderLength(node, p, d, 0, 0);
        EmbedsLater(Preorder(node, p, d), PreItems(rest, q, d), ChildPos(rest, k - 1),
                    Preorder(NthChild(rest, k - 1), q + ChildIndex(rest, k - 1), d));
      } else {
        EmbedsWhole(Preorder(node, p, d));
        EmbedsEarlier(Preorder(node, p, d), PreItems(rest, p + |NodeTokens(node)|, d), 0, Preorder(node, p, d));
      }
  }

  /** Child k's node number j is the items' node number ChildPos(k) + j. */
  lemma ChildNode(it: Items, p: nat, d: int, k: nat, j: nat)
    requires k < ChildCount(it) && j < |Preorder(NthChild(it, k), p + ChildIndex(it, k), d)|
    ensures ChildPos(it, k) + j < |PreItems(it, p, d)|
    ensures PreItems(it, p, d)[ChildPos(it, k) + j] == Preorder(NthChild(it, k), p + ChildIndex(it, k), d)[j]
  {
    ChildStretch(it, p, d, k);
    EmbedsElement(PreItems(it, p, d), ChildPos(it, k), Preorder(NthChild(it, k), p + ChildIndex(it, k), d), j);
  }

  /** Every location is visited, at its own token position and its own depth. */
  lemma {:induction false} LocIsVisited(n: Node, p: nat, d: int, loc: seq<nat>)
    requires IsLoc(n, loc)
    ensures PosOf(n, loc) < |Preorder(n, p, d)|
    ensures Preorder(n, p, d)[PosOf(n, loc)] == Visit(p + IndexOf(n, loc), d + |loc|, At(n, loc))
    decreases |loc|
  {
    hide ChildIndex;
    hide ChildPos;
    hide NthChild;
    if loc != [] {
      var k := loc[0];
      var c := NthChild(n.items, k);
      LocIsVisited(c, p + 1 + ChildIndex(n.items, k), d + 1, loc[1..]);
      ChildNode(n.items, p + 1, d + 1, k, PosOf(c, loc[1..]));
    }
  }

  /** Every visit is to a located node. */
  lemma {:induction false} VisitIsLocated(n: Node, p: nat, d: int, k: nat) returns (loc: seq<nat>)
    requires k < |Preorder(n, p, d)|
    ensures IsLoc(n, loc) && PosOf(n, loc) == k
    decreases n, 1
  {
    if k == 0 {
      loc := [];
    } else {
      var c, j := ItemVisitIsLocated(n.items, p + 1, d + 1, k - 1);
      var child := NthChild(n.items, c);
      var rest := VisitIsLocated(child, 0, 0, j);
      loc := [c] + rest;
      assert loc[1..] == rest;
    }
  }

  lemma {:induction false} ItemVisitIsLocated(it: Items, p: nat, d: int, k: nat) returns (c: nat, j: nat)
    requires k < |PreItems(it, p, d)|
    ensures c < ChildCount(it) && j < |Preorder(NthChild(it, c), 0, 0)| && k == ChildPos(it, c) + j
    decreases it, 0
  {
    match it
    case NopItem(rest) => c, j := ItemVisitIsLocated(rest, p + 1, d, k);
    case PropItem(_, _, rest) => c, j := ItemVisitIsLocated(rest, p + 1, d, k);
    case Child(node, rest) =>
      PreorderLength(node, p, d, 0, 0);
      var w := |Preorder(node, p, d)|;
      if k < w {
        c, j := 0, k;
      } else {
        c, j := ItemVisitIsLocated(rest, p + |NodeTokens(node)|, d, k - w);
        c := c + 1;
      }
  }

  /** Below a node everything is deeper than the node. */
  lemma {:induction false} DescendantsAreDeeper(n: Node, p: nat, d: int, k: nat)
    requires 0 < k < |Preorder(n, p, d)|
    ensures Preorder(n, p, d)[k].depth > d
    decreases n, 1
  {
    ItemsAreDeeper(n.items, p + 1, d + 1, k - 1);
  }

  lemma {:induction false} ItemsAreDeeper(it: Items, p: nat, d: int, k: nat)
    requires k < |PreItems(it, p, d)|
    ensures PreItems(it, p, d)[k].depth >= d
    decreases it, 0
  {
    match it
    case NopItem(rest) => ItemsAreDeeper(rest, p + 1, d, k);
    case PropItem(_, _, rest) => ItemsAreDeeper(rest, p + 1, d, k);
    case Child(node, rest) =>
      var w := |Preorder(node, p, d)|;
      if k < w {
        if k > 0 { DescendantsAreDeeper(node, p, d, k); }
      } else {
        ItemsAreDeeper(rest, p + |NodeTokens(node)|, d, k - w);
      }
  }

  /** Between an ancestor and the node, in document order, everything is deeper than the ancestor. */
  lemma {:induction false} BetweenAncestorAndNode(n: Node, p: nat, d: int, loc: seq<nat>, e: nat, k: nat)
    requires IsLoc(n, loc) && e <= |loc| && IsLoc(n, loc[..e])
    requires PosOf(n, loc[..e]) < k <= PosOf(n, loc)
    ensures k < |Preorder(n, p, d)| && Preorder(n, p, d)[k].depth > d + e
    decreases |loc|
  {
    LocIsVisited(n, p, d, loc);
    if e == 0 {
      DescendantsAreDeeper(n, p, d, k);
    } else {
      var c, i := NthChild(n.items, loc[0]), ChildPos(n.items, loc[0]);
      assert loc[..e][1..] == loc[1..][..e - 1];
      BetweenAncestorAndNode(c, p + 1 + ChildIndex(n.items, loc[0]), d + 1, loc[1..], e - 1, k - 1 - i);
      ChildNode(n.items, p + 1, d + 1, loc[0], k - 1 - i);
    }
  }
}
