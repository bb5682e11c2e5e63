/** Names and paths: finding a child by name, resolving a path, writing a node's path. */
module FdtPath {
  import opened Bytes
  import opened FdtFormat
  import opened FdtTokens
  import opened FdtTree
  import opened FdtWalk
  import opened FdtNav

  const SLASH: Byte := '/' as int
  const AT_SIGN: Byte := '@' as int

  // ---------------------------------------------------------------- names

  /** fdt_get_name on a blob that passed the probe. */
  function GetName(b: seq<Byte>, off: int): Text {
    if CheckNodeOffset(b, off) < 0 then NoStr(CheckNodeOffset(b, off))
    else Str(b[off + 4..Terminator(b, off + 4)])
  }

  /** fdt_nodename_eq_: the whole name, or the part before its unit address. */
  predicate NameMatches(name: seq<Byte>, s: seq<Byte>) {
    && |s| <= |name| && name[..|s|] == s
    && (|name| == |s| || (AT_SIGN !in s && name[|s|] == AT_SIGN))
  }

  /** A node is called s by its whole name, or by its name without the unit address. */
  predicate Named(name: seq<Byte>, s: seq<Byte>) {
    name == s || ('@' as int !in s && s + ['@' as int] <= name)
  }

  /** The comparison in the buffer tells exactly the names a node goes by. */
  lemma MatchesIffNamed(name: seq<Byte>, s: seq<Byte>)
    ensures NameMatches(name, s) <==> Named(name, s)
  {
    if Named(name, s) && name != s { assert name[..|s| + 1] == s + [AT_SIGN]; }
    if NameMatches(name, s) && |s| < |name| { assert name[..|s| + 1] == s + [AT_SIGN]; }
  }

  lemma NameAtToken(b: seq<Byte>, ts: seq<Token>, i: nat)
    requires TokensAt(b, 0, ts) && i < |ts| && ts[i].Begin?
    ensures GetName(b, Offset(ts, i)) == Str(ts[i].name)
  {
    TokenInBlock(b, 0, ts, i);
    NextTagReads(b, Offset(ts, i), ts[i]);
    NameEnds(b, Offset(ts, i), ts[i].name);
  }

  // ---------------------------------------------------------------- a child by name

  /** The loop of fdt_subnode_offset_namelen. */
  function SubnodeFrom(b: seq<Byte>, off: int, depth: int, s: seq<Byte>): int
    requires |b| <= INT_MAX
    decreases off >= 0, |b| + 4 - off
  {
    if off < 0 || depth < 0 then (if depth < 0 then NOTFOUND else off)
    else if depth == 1 && GetName(b, off).Str? && NameMatches(GetName(b, off).chars, s) then off
    else
      var (r, d) := NextNode(b, off, true, depth);
      SubnodeFrom(b, r, d, s)
  }

  /** The first child, from child k on, called s; the number of children if none does. */
  function FirstMatch(it: Items, k: nat, s: seq<Byte>): (m: nat)
    requires k <= ChildCount(it)
    ensures k <= m <= ChildCount(it)
    ensures m < ChildCount(it) ==> Named(NthChild(it, m).name, s)
    ensures forall j :: k <= j < m ==> !Named(NthChild(it, j).name, s)
    decreases ChildCount(it) - k
  {
    if k == ChildCount(it) || Named(NthChild(it, k).name, s) then k else FirstMatch(it, k + 1, s)
  }

  lemma SubnodeStep(b: seq<Byte>, off: int, depth: int, s: seq<Byte>, r: int, d: int)
    requires |b| <= INT_MAX && off >= 0 && depth >= 0 && NextNode(b, off, true, depth) == (r, d)
    ensures SubnodeFrom(b, off, depth, s) ==
      if depth == 1 && GetName(b, off).Str? && NameMatches(GetName(b, off).chars, s) then off
      else SubnodeFrom(b, r, d, s)
  {
  }

  lemma SubnodeStops(b: seq<Byte>, off: int, depth: int, s: seq<Byte>)
    requires |b| <= INT_MAX && (off < 0 || depth < 0)
    ensures SubnodeFrom(b, off, depth, s) == if depth < 0 then NOTFOUND else off
  {
  }

  /** vs are nodes of the block's token sequence. */
  predicate AreNodes(ts: seq<Token>, vs: seq<Visit>) {
    forall i :: 0 <= i < |vs| ==> vs[i].index < |ts| && ts[vs[i].index] == Begin(vs[i].node.name)
  }

  /** The search passes over a child that does not match and over all its descendants. */
  lemma {:induction false} SubnodePasses(b: seq<Byte>, ts: seq<Token>, vs: seq<Visit>, j: nat, end: nat, s: seq<Byte>)
    requires |b| <= INT_MAX && TokensAt(b, 0, ts) && j < end <= |vs| && AreNodes(ts, vs)
    requires forall i :: j <= i < end ==> StepsTo(b, ts, vs, i) && vs[i].depth >= 0
    requires forall i :: j <= i < end ==> vs[i].depth == 1 ==> !Named(vs[i].node.name, s)
    ensures SubnodeFrom(b, Offset(ts, vs[j].index), vs[j].depth, s) ==
            if end < |vs| then SubnodeFrom(b, Offset(ts, vs[end].index), vs[end].depth, s) else NOTFOUND
    decreases end - j
  {
    hide Named;
    hide NameMatches;
    hide TokensAt;
    hide Offset;
    hide NextNode;
    hide SubnodeFrom;
    hide GetName;
    assert StepsTo(b, ts, vs, j);
    var (r, d) := NextNode(b, Offset(ts, vs[j].index), true, vs[j].depth);
    NameAtToken(b, ts, vs[j].index);
    MatchesIffNamed(vs[j].node.name, s);
    SubnodeStep(b, Offset(ts, vs[j].index), vs[j].depth, s, r, d);
    if j + 1 < end {
      SubnodePasses(b, ts, vs, j + 1, end, s);
    } else if end == |vs| {
      SubnodeStops(b, r, d, s);
    }
  }

  lemma NodesBelow(root: Node, loc: seq<nat>)
    requires IsLoc(root, loc)
    ensures AreNodes(TreeTokens(root), Preorder(At(root, loc), IndexOf(root, loc), 0))
  {
    forall i | 0 <= i < |Preorder(At(root, loc), IndexOf(root, loc), 0)|
      ensures var v := Preorder(At(root, loc), IndexOf(root, loc), 0)[i];
        v.index < |TreeTokens(root)| && TreeTokens(root)[v.index] == Begin(v.node.name)
    {
      VisitInTree(root, loc, i);
    }
  }

  /** Where the search stands when it reaches child k. */
  function AtSlot(b: seq<Byte>, root: Node, loc: seq<nat>, k: nat, s: seq<Byte>): int
    requires |b| <= INT_MAX && IsLoc(root, loc) && k <= ChildCount(At(root, loc).items)
  {
    LocExtends(root, loc, k);
    if k == ChildCount(At(root, loc).items) then NOTFOUND
    else SubnodeFrom(b, OffsetAt(root, loc + [k]), 1, s)
  }

  lemma SlotVisit(root: Node, loc: seq<nat>, k: nat)
    requires IsLoc(root, loc) && k < ChildCount(At(root, loc).items)
    ensures IsLoc(root, loc + [k])
    ensures var n := At(root, loc);
      && ChildSlot(n, k) < |Preorder(n, IndexOf(root, loc), 0)|
      && Preorder(n, IndexOf(root, loc), 0)[ChildSlot(n, k)] == Visit(IndexOf(root, loc + [k]), 1, NthChild(n.items, k))
    ensures IndexOf(root, loc + [k]) < |TreeTokens(root)|
    ensures OffsetAt(root, loc + [k]) == Offset(TreeTokens(root), IndexOf(root, loc + [k]))
  {
    LocExtends(root, loc, k);
    IndexFits(root, loc + [k]);
    SlotFacts(At(root, loc), IndexOf(root, loc), k, 0);
  }

  lemma {:induction false} SubnodePassesSlot(b: seq<Byte>, root: Node, loc: seq<nat>, k: nat, s: seq<Byte>,
                                           vs: seq<Visit>, j: nat, end: nat)
    requires |b| <= INT_MAX && HoldsTree(b, root) && IsLoc(root, loc) && k < ChildCount(At(root, loc).items)
    requires vs == Preorder(At(root, loc), IndexOf(root, loc), 0)
    requires j == ChildSlot(At(root, loc), k) && end == ChildSlot(At(root, loc), k + 1) && j < end <= |vs|
    requires AreNodes(TreeTokens(root), vs) && !Named(vs[j].node.name, s)
    ensures SubnodeFrom(b, Offset(TreeTokens(root), vs[j].index), vs[j].depth, s) ==
            if end < |vs| then SubnodeFrom(b, Offset(TreeTokens(root), vs[end].index), vs[end].depth, s) else NOTFOUND
  {
    hide SubnodeFrom;
    hide StepsTo;
    hide Preorder;
    hide ChildSlot;
    forall i | j <= i < end
      ensures StepsTo(b, TreeTokens(root), vs, i) && vs[i].depth >= 1 && (vs[i].depth == 1 ==> i == j)
    {
      SlotWalk(b, root, loc, k, i);
    }
    SubnodePasses(b, TreeTokens(root), vs, j, end, s);
  }

  lemma SubnodePassesChild(b: seq<Byte>, root: Node, loc: seq<nat>, k: nat, s: seq<Byte>)
    requires |b| <= INT_MAX && HoldsTree(b, root) && IsLoc(root, loc) && k < ChildCount(At(root, loc).items)
    requires !Named(NthChild(At(root, loc).items, k).name, s)
    ensures AtSlot(b, root, loc, k, s) == AtSlot(b, root, loc, k + 1, s)
  {
    hide Offset;
    hide Named;
    hide NodeTokens;
    hide NextNode;
    hide SubnodeFrom;
    hide Preorder;
    hide ChildSlot;
    hide ChildIndex;
    var n, p, ts := At(root, loc), IndexOf(root, loc), TreeTokens(root);
    var vs, j, end := Preorder(n, p, 0), ChildSlot(n, k), ChildSlot(n, k + 1);
    SlotFacts(n, p, k, j);
    SlotVisit(root, loc, k);
    NextSlot(n, p, k);
    if k + 1 < ChildCount(n.items) { SlotVisit(root, loc, k + 1); }
    NodesBelow(root, loc);
    SubnodePassesSlot(b, root, loc, k, s, vs, j, end);
  }

  lemma {:induction false} SubnodeFromSlot(b: seq<Byte>, root: Node, loc: seq<nat>, k: nat, s: seq<Byte>)
    requires |b| <= INT_MAX && HoldsTree(b, root) && IsLoc(root, loc) && k <= ChildCount(At(root, loc).items)
    ensures var m := FirstMatch(At(root, loc).items, k, s);
      AtSlot(b, root, loc, k, s) ==
        if m == ChildCount(At(root, loc).items) then NOTFOUND else (LocExtends(root, loc, m); OffsetAt(root, loc + [m]))
    decreases ChildCount(At(root, loc).items) - k
  {
    hide Named;
    hide IndexOf;
    hide SubnodeFrom;
    hide NthChild;
    hide ChildCount;
    var it := At(root, loc).items;
    if k < ChildCount(it) {
      if Named(NthChild(it, k).name, s) {
        SubnodeMatches(b, root, loc, k, s);
      } else {
        SubnodePassesChild(b, root, loc, k, s);
        SubnodeFromSlot(b, root, loc, k + 1, s);
      }
    }
  }

  lemma SubnodeMatches(b: seq<Byte>, root: Node, loc: seq<nat>, k: nat, s: seq<Byte>)
    requires |b| <= INT_MAX && HoldsTree(b, root) && IsLoc(root, loc) && k < ChildCount(At(root, loc).items)
    requires Named(NthChild(At(root, loc).items, k).name, s)
    ensures IsLoc(root, loc + [k]) && AtSlot(b, root, loc, k, s) == OffsetAt(root, loc + [k])
  {
    LocExtends(root, loc, k);
    LocInTree(root, loc + [k]);
    EmbedsNode(TreeTokens(root), IndexOf(root, loc + [k]), At(root, loc + [k]));
    NameAtToken(b, TreeTokens(root), IndexOf(root, loc + [k]));
    MatchesIffNamed(NthChild(At(root, loc).items, k).name, s);
  }

  /** fdt_subnode_offset_namelen finds the first child called s, by its name or by its name without the
      unit address, and no deeper node. */
  lemma SubnodeIsFirstMatch(b: seq<Byte>, root: Node, loc: seq<nat>, s: seq<Byte>)
    requires |b| <= INT_MAX && HoldsTree(b, root) && IsLoc(root, loc)
    ensures var m := FirstMatch(At(root, loc).items, 0, s);
      && (IsLoc(root, loc + [m]) <==> m < ChildCount(At(root, loc).items))
      && SubnodeFrom(b, OffsetAt(root, loc), 0, s) ==
           if IsLoc(root, loc + [m]) then OffsetAt(root, loc + [m]) else NOTFOUND
  {
    LocExtends(root, loc, FirstMatch(At(root, loc).items, 0, s));
    SubnodeFromSlot(b, root, loc, 0, s);
    SubnodeEnters(b, root, loc, s);
  }

  /** The search goes from the node itself to its first child. */
  lemma SubnodeEnters(b: seq<Byte>, root: Node, loc: seq<nat>, s: seq<Byte>)
    requires |b| <= INT_MAX && HoldsTree(b, root) && IsLoc(root, loc)
    ensures SubnodeFrom(b, OffsetAt(root, loc), 0, s) == AtSlot(b, root, loc, 0, s)
  {
    hide NextNode;
    hide SubnodeFrom;
    var n, p, ts := At(root, loc), IndexOf(root, loc), TreeTokens(root);
    var vs := Preorder(n, p, 0);
    WalkBelow(b, root, loc, 0);
    FirstBelow(n, p);
    LocExtends(root, loc, 0);
    IndexFits(root, loc);
    var (r, d) := NextNode(b, Offset(ts, p), true, 0);
    SubnodeStep(b, Offset(ts, p), 0, s, r, d);
    if ChildCount(n.items) == 0 { SubnodeStops(b, r, d, s); }
  }

  // ---------------------------------------------------------------- paths

  /** The first slash at or after i, or |s|. */
  function SlashAt(s: seq<Byte>, i: nat): (q: nat)
    requires i <= |s|
    ensures i <= q <= |s| && (q < |s| ==> s[q] == SLASH) && SLASH !in s[i..q]
    decreases |s| - i
  {
    if i == |s| || s[i] == SLASH then i else
      var q := SlashAt(s, i + 1);
      assert s[i..q] == [s[i]] + s[i + 1..q];
      q
  }

  /** The loop of fdt_path_offset_namelen: what is left of the path, looked up from `off`. */
  function PathFrom(b: seq<Byte>, rest: seq<Byte>, off: int): int
    requires |b| <= INT_MAX
    decreases |rest|
  {
    if rest == [] then off
    else if rest[0] == SLASH then PathFrom(b, rest[1..], off)
    else
      var q := SlashAt(rest, 0);
      var o := SubnodeFrom(b, off, 0, rest[..q]);
      if o < 0 then o else PathFrom(b, rest[q..], o)
  }

  /** fdt_path_offset_namelen for a path that is empty or starts with a slash. */
  function PathOffset(b: seq<Byte>, path: seq<Byte>): int
    requires |b| <= INT_MAX
  {
    if path == [] then BADPATH else PathFrom(b, path, 0)
  }

  /** The names in a path: what stands between slashes, without the empty ones. */
  function Components(path: seq<Byte>): (names: seq<seq<Byte>>)
    decreases |path|
  {
    if path == [] then []
    else if path[0] == SLASH then Components(path[1..])
    else
      var q := SlashAt(path, 0);
      [path[..q]] + Components(path[q..])
  }

  datatype Option<T> = None | Some(value: T)

  /** Going down from n, at each level into the first child called by the next name. */
  function Resolve(n: Node, names: seq<seq<Byte>>): (r: Option<seq<nat>>)
    ensures r.Some? ==> IsLoc(n, r.value) && |r.value| == |names|
    decreases |names|
  {
    if names == [] then Some([])
    else
      var k := FirstMatch(n.items, 0, names[0]);
      if k == ChildCount(n.items) then None
      else match Resolve(NthChild(n.items, k), names[1..])
        case None => None
        case Some(loc) => Some([k] + loc)
  }

  lemma {:induction false} LocJoins(n: Node, loc: seq<nat>, more: seq<nat>)
    requires IsLoc(n, loc) && IsLoc(At(n, loc), more)
    ensures IsLoc(n, loc + more) && At(n, loc + more) == At(At(n, loc), more)
    decreases |loc|
  {
    if loc == [] {
      assert loc + more == more;
    } else {
      LocJoins(NthChild(n.items, loc[0]), loc[1..], more);
      assert (loc + more)[1..] == loc[1..] + more;
    }
  }

  /** One component: the lookup goes on from the first child that matches, or fails. */
  lemma PathStep(b: seq<Byte>, root: Node, loc: seq<nat>, rest: seq<Byte>, q: nat, k: nat)
    requires |b| <= INT_MAX && HoldsTree(b, root) && IsLoc(root, loc)
    requires rest != [] && rest[0] != SLASH && q == SlashAt(rest, 0)
    requires k == FirstMatch(At(root, loc).items, 0, rest[..q])
    ensures IsLoc(root, loc + [k]) <==> k < ChildCount(At(root, loc).items)
    ensures IsLoc(root, loc + [k]) ==> At(root, loc + [k]) == NthChild(At(root, loc).items, k)
    ensures PathFrom(b, rest, OffsetAt(root, loc)) ==
            if IsLoc(root, loc + [k]) then PathFrom(b, rest[q..], OffsetAt(root, loc + [k])) else NOTFOUND
  {
    hide SubnodeFrom;
    SubnodeIsFirstMatch(b, root, loc, rest[..q]);
    LocExtends(root, loc, k);
  }

  lemma {:induction false} PathFromResolves(b: seq<Byte>, root: Node, loc: seq<nat>, rest: seq<Byte>)
    requires |b| <= INT_MAX && HoldsTree(b, root) && IsLoc(root, loc)
    ensures Finds(b, root, loc, rest)
    decreases |rest|
  {
    hide SubnodeFrom;
    hide HoldsTree;
    if rest == [] {
      assert loc + [] == loc;
    } else if rest[0] == SLASH {
      PathFromResolves(b, root, loc, rest[1..]);
    } else {
      var q := SlashAt(rest, 0);
      var k := FirstMatch(At(root, loc).items, 0, rest[..q]);
      PathStep(b, root, loc, rest, q, k);
      if k < ChildCount(At(root, loc).items) {
        PathFromResolves(b, root, loc + [k], rest[q..]);
        ResolveStep(root, loc, rest, q, k);
      }
    }
  }

  /** Looking up `rest` from the located node finds what the tree resolves it to. */
  predicate Finds(b: seq<Byte>, root: Node, loc: seq<nat>, rest: seq<Byte>)
    requires |b| <= INT_MAX && IsLoc(root, loc)
  {
    match Resolve(At(root, loc), Components(rest))
    case None => PathFrom(b, rest, OffsetAt(root, loc)) == NOTFOUND
    case Some(more) => IsLoc(root, loc + more) && PathFrom(b, rest, OffsetAt(root, loc)) == OffsetAt(root, loc + more)
  }

  lemma ResolveStep(root: Node, loc: seq<nat>, rest: seq<Byte>, q: nat, k: nat)
    requires IsLoc(root, loc) && rest != [] && rest[0] != SLASH && q == SlashAt(rest, 0)
    requires k == FirstMatch(At(root, loc).items, 0, rest[..q]) < ChildCount(At(root, loc).items)
    ensures match Resolve(NthChild(At(root, loc).items, k), Components(rest[q..]))
      case None => Resolve(At(root, loc), Components(rest)) == None
      case Some(more) => Resolve(At(root, loc), Components(rest)) == Some([k] + more) && loc + ([k] + more) == loc + [k] + more
  {
    assert Components(rest)[0] == rest[..q] && Components(rest)[1..] == Components(rest[q..]);
    match Resolve(NthChild(At(root, loc).items, k), Components(rest[q..]))
    case None =>
    case Some(more) => assert loc + ([k] + more) == loc + [k] + more;
  }

  /** Path lookup is resolution in the tree, for every path that starts with a slash. */
  lemma PathOffsetResolves(b: seq<Byte>, root: Node, path: seq<Byte>)
    requires |b| <= INT_MAX && HoldsTree(b, root) && path != []
    ensures PathOffset(b, path) == match Resolve(root, Components(path))
      case None => NOTFOUND
      case Some(loc) => OffsetAt(root, loc)
  {
    PathFromResolves(b, root, [], path);
    assert Finds(b, root, [], path);
    match Resolve(root, Components(path))
    case None =>
    case Some(loc) => assert [] + loc == loc;
  }
}
