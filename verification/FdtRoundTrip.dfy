/** Writing a node's path and looking it up again. */
module FdtRoundTrip {
  import opened Bytes
  import opened FdtFormat
  import opened FdtTokens
  import opened FdtTree
  import opened FdtWalk
  import opened FdtNav
  import opened FdtPath

  // ---------------------------------------------------------------- the loop of fdt_get_path

  datatype PathResult = Path(text: seq<Byte>) | NoPath(err: int)

  /** One round of the inner loop: back to just after the previous slash. */
  function PopOne(text: seq<Byte>): (t: seq<Byte>)
    ensures |t| <= |text|
  {
    if text == [] then [] else
      var t := text[..|text| - 1];
      if t == [] || t[|t| - 1] == SLASH then t else PopOne(t)
  }

  function Pops(text: seq<Byte>, n: int): (t: seq<Byte>)
    decreases n
  {
    if n <= 0 then text else Pops(PopOne(text), n - 1)
  }

  /** Drops the slash after the last name, except after a root without name. */
  function Trimmed(text: seq<Byte>): seq<Byte> {
    if |text| > 1 then text[..|text| - 1] else text
  }

  /** The loop of fdt_get_path: `text` is what the buffer holds, made of `pdepth` names. */
  function PathScan(b: seq<Byte>, off: int, depth: int, text: seq<Byte>, pdepth: int, target: int, buflen: int): PathResult
    requires |b| <= INT_MAX
    decreases off >= 0, |b| + 4 - off
  {
    if off < 0 || off > target then
      NoPath(if off == NOTFOUND || off >= 0 then BADOFFSET else if off == BADOFFSET then BADSTRUCTURE else off)
    else
      var t := Pops(text, pdepth - depth);
      var pd := Min(pdepth, depth);
      var name := GetName(b, off);
      if pd >= depth && name.NoStr? then NoPath(name.err)
      else
        var fits := pd >= depth && |t| + |name.chars| + 1 <= buflen;
        var t', pd' := if fits then t + name.chars + [SLASH] else t, if fits then pd + 1 else pd;
        if off == target then (if pd' < depth + 1 then NoPath(NOSPACE) else Path(Trimmed(t')))
        else
          var (r, d) := NextNode(b, off, true, depth);
          PathScan(b, r, d, t', pd', target, buflen)
  }

  /** fdt_get_path on a blob that passed the probe. */
  function GetPath(b: seq<Byte>, target: int, buflen: int): PathResult
    requires |b| <= INT_MAX
  {
    if buflen < 2 then NoPath(NOSPACE) else PathScan(b, 0, 0, [], 0, target, buflen)
  }

  // ---------------------------------------------------------------- names and text

  /** The names from n down to the located node. */
  function Names(n: Node, loc: seq<nat>): (names: seq<seq<Byte>>)
    requires IsLoc(n, loc)
    ensures |names| == |loc| + 1 && names[0] == n.name
    decreases |loc|
  {
    [n.name] + if loc == [] then [] else Names(NthChild(n.items, loc[0]), loc[1..])
  }

  lemma {:induction false} NamesAreAncestors(n: Node, loc: seq<nat>, d: nat)
    requires IsLoc(n, loc) && d <= |loc|
    ensures IsLoc(n, loc[..d]) && Names(n, loc)[d] == At(n, loc[..d]).name
    decreases |loc|
  {
    LocPrefix(n, loc, d);
    if d > 0 {
      NamesAreAncestors(NthChild(n.items, loc[0]), loc[1..], d - 1);
      assert loc[..d][1..] == loc[1..][..d - 1];
    }
  }

  /** Every name followed by a slash. */
  function Joined(names: seq<seq<Byte>>): (text: seq<Byte>)
    ensures names == [] <==> text == []
    ensures names != [] ==> text[|text| - 1] == SLASH
  {
    if names == [] then [] else Joined(names[..|names| - 1]) + names[|names| - 1] + [SLASH]
  }

  /** The path text of the located node. */
  function PathText(root: Node, loc: seq<nat>): seq<Byte>
    requires IsLoc(root, loc)
  {
    Trimmed(Joined(Names(root, loc)))
  }

  /** How many leading names fit into the buffer with their slashes. */
  function Fitting(names: seq<seq<Byte>>, buflen: int): (f: nat)
    ensures f <= |names|
  {
    if names == [] then 0 else
      var f := Fitting(names[..|names| - 1], buflen);
      if f == |names| - 1 && |Joined(names)| <= buflen then f + 1 else f
  }

  lemma {:induction false} FittingPrefix(names: seq<seq<Byte>>, buflen: int, d: nat)
    requires d <= |names|
    ensures Fitting(names[..d], buflen) == Min(Fitting(names, buflen), d)
  {
    if d == |names| {
      assert names[..d] == names;
    } else {
      FittingPrefix(names[..|names| - 1], buflen, d);
      assert names[..|names| - 1][..d] == names[..d];
    }
  }

  /** All names fit exactly when the whole text does. */
  lemma {:induction false} AllFit(names: seq<seq<Byte>>, buflen: int)
    requires buflen >= 0
    ensures Fitting(names, buflen) == |names| <==> |Joined(names)| <= buflen
  {
    if names != [] { AllFit(names[..|names| - 1], buflen); }
  }

  lemma {:induction false} PopsName(pre: seq<Byte>, name: seq<Byte>, c: Byte)
    requires pre != [] && pre[|pre| - 1] == SLASH && SLASH !in name
    ensures PopOne(pre + name + [c]) == pre
    decreases |name|
  {
    var t := (pre + name + [c])[..|pre + name|];
    assert t == pre + name;
    if name == [] {
      assert t == pre;
    } else {
      var last := name[|name| - 1];
      assert last in name && t[|t| - 1] == last;
      PopsName(pre, name[..|name| - 1], last);
      assert pre + name == pre + name[..|name| - 1] + [last];
    }
  }

  /** Popping removes the last names, as long as these hold no slash and the first one stays. */
  lemma {:induction false} PopsNames(names: seq<seq<Byte>>, d: nat)
    requires 1 <= d <= |names| && forall i :: 1 <= i < |names| ==> SLASH !in names[i]
    ensures Pops(Joined(names), |names| - d) == Joined(names[..d])
    decreases |names|
  {
    if d == |names| {
      assert names[..d] == names;
    } else {
      var front := names[..|names| - 1];
      JoinedSnoc(names);
      hide Joined;
      hide PopOne;
      PopsName(Joined(front), names[|names| - 1], SLASH);
      PopsNames(front, d);
      assert front[..d] == names[..d];
    }
  }

  lemma JoinedSnoc(names: seq<seq<Byte>>)
    requires names != []
    ensures Joined(names) == Joined(names[..|names| - 1]) + names[|names| - 1] + [SLASH]
  {
  }

  // ---------------------------------------------------------------- names along the walk

  /** Depths in document order: the root at 0, every other node at most one below its predecessor. */
  predicate Nested(vs: seq<Visit>) {
    && (vs != [] ==> vs[0].depth == 0)
    && forall i :: 0 < i < |vs| ==> 1 <= vs[i].depth <= vs[i - 1].depth + 1
  }

  /** The names of the ancestors of visit j and of visit j itself. */
  function ChainOf(vs: seq<Visit>, j: nat): (names: seq<seq<Byte>>)
    requires Nested(vs) && j < |vs|
    ensures |names| == vs[j].depth + 1
  {
    if j == 0 then [vs[0].node.name] else ChainOf(vs, j - 1)[..vs[j].depth] + [vs[j].node.name]
  }

  lemma {:induction false} ChainIsAncestors(vs: seq<Visit>, j: nat, d: nat)
    requires Nested(vs) && j < |vs| && d <= vs[j].depth
    ensures LastAt(vs, j, d) >= 0 && ChainOf(vs, j)[d] == vs[LastAt(vs, j, d)].node.name
  {
    if d < vs[j].depth { ChainIsAncestors(vs, j - 1, d); }
  }

  lemma {:induction false} ScanDepth(b: seq<Byte>, off: int, depth: int)
    requires |b| <= INT_MAX && depth >= 0
    ensures var (r, d) := ScanNode(b, off, true, depth); d <= depth + 1 && (r >= 0 && d >= 0 ==> d >= 1)
    decreases |b| - off
  {
    var (tag, next) := NextTag(b, off);
    if tag == FDT_END_NODE && depth > 0 {
      ScanDepth(b, next, depth - 1);
    } else if tag == FDT_PROP || tag == FDT_NOP {
      ScanDepth(b, next, depth);
    }
  }

  lemma {:induction false} DocumentIsNested(b: seq<Byte>, root: Node, i: nat)
    requires |b| <= INT_MAX && HoldsTree(b, root) && 0 < i < |Document(root)|
    ensures 1 <= Document(root)[i].depth <= Document(root)[i - 1].depth + 1
  {
    hide NextNode;
    hide ScanNode;
    var vs := Document(root);
    DescendantsAreDeeper(root, 0, 0, i);
    if i > 1 { DescendantsAreDeeper(root, 0, 0, i - 1); }
    NextNodeIsPreorder(b, root, i - 1);
    NextDepth(b, VisitOffset(root, vs[i - 1]), vs[i - 1].depth);
  }

  lemma NextDepth(b: seq<Byte>, off: int, depth: int)
    requires |b| <= INT_MAX && depth >= 0
    ensures NextNode(b, off, true, depth).1 <= depth + 1
  {
    hide ScanNode;
    var start := if off >= 0 then CheckNodeOffset(b, off) else 0;
    ScanDepth(b, start, depth);
  }

  /** The names at the located node's place in the document are the names down to it. */
  lemma ChainIsNames(b: seq<Byte>, root: Node, loc: seq<nat>)
    requires |b| <= INT_MAX && HoldsTree(b, root) && IsLoc(root, loc)
    ensures Nested(Document(root)) && PosOf(root, loc) < |Document(root)|
    ensures ChainOf(Document(root), PosOf(root, loc)) == Names(root, loc)
  {
    var vs, k := Document(root), PosOf(root, loc);
    forall i | 0 < i < |vs| ensures 1 <= vs[i].depth <= vs[i - 1].depth + 1 {
      DocumentIsNested(b, root, i);
    }
    LocOffset(root, loc);
    forall d | 0 <= d <= |loc| ensures ChainOf(vs, k)[d] == Names(root, loc)[d] {
      ChainIsAncestors(vs, k, d);
      LastAtIsAncestor(root, loc, d);
      LocOffset(root, loc[..d]);
      NamesAreAncestors(root, loc, d);
    }
  }

  /** No name below the root contains a slash. */
  predicate SlashFree(vs: seq<Visit>) {
    forall i :: 0 < i < |vs| ==> SLASH !in vs[i].node.name
  }

  lemma {:induction false} ChainIsSlashFree(vs: seq<Visit>, j: nat)
    requires Nested(vs) && SlashFree(vs) && j < |vs|
    ensures forall i :: 1 <= i < |ChainOf(vs, j)| ==> SLASH !in ChainOf(vs, j)[i]
  {
    if j > 0 { ChainIsSlashFree(vs, j - 1); }
  }

  // ---------------------------------------------------------------- what the loop writes

  /** What the buffer holds after the names `names` have gone by. */
  function Kept(names: seq<seq<Byte>>, buflen: int): seq<Byte> {
    Joined(names[..Fitting(names, buflen)])
  }

  /** Backing up to depth d leaves what is kept of the first d names. */
  lemma KeptPops(names: seq<seq<Byte>>, d: nat, buflen: int)
    requires 1 <= d <= |names| && forall i :: 1 <= i < |names| ==> SLASH !in names[i]
    ensures Min(Fitting(names, buflen), d) == Fitting(names[..d], buflen)
    ensures Pops(Kept(names, buflen), Fitting(names, buflen) - d) == Kept(names[..d], buflen)
  {
    hide Fitting;
    hide Joined;
    var f := Fitting(names, buflen);
    FittingPrefix(names, buflen, d);
    if f > d {
      PopsNames(names[..f], d);
      assert names[..f][..d] == names[..d] == names[..d][..d];
    } else {
      assert names[..d][..f] == names[..f];
    }
  }

  /** `next` is what is kept when a name comes after `pd` of d kept names whose text is t: the name
      is added if all names before it are there and there is room for it and its slash. */
  predicate Adds(next: seq<seq<Byte>>, name: seq<Byte>, d: int, t: seq<Byte>, pd: int, buflen: int) {
    if pd >= d && |t| + |name| + 1 <= buflen
    then Fitting(next, buflen) == pd + 1 && Kept(next, buflen) == t + name + [SLASH]
    else Fitting(next, buflen) == pd && Kept(next, buflen) == t
  }

  lemma KeptAppends(names: seq<seq<Byte>>, name: seq<Byte>, buflen: int)
    ensures Adds(names + [name], name, |names|, Kept(names, buflen), Fitting(names, buflen), buflen)
  {
    var f, next := Fitting(names, buflen), names + [name];
    assert next[..|names|] == names;
    assert next[..f] == names[..f];
    assert next[..|next|] == next && names[..|names|] == names;
  }

  lemma PathScanStep(b: seq<Byte>, off: int, depth: int, text: seq<Byte>, pdepth: int, target: int, buflen: int,
                     name: seq<Byte>, next: seq<seq<Byte>>, r: int, d: int)
    requires |b| <= INT_MAX && 0 <= off <= target && GetName(b, off) == Str(name)
    requires Adds(next, name, depth, Pops(text, pdepth - depth), Min(pdepth, depth), buflen)
    requires NextNode(b, off, true, depth) == (r, d)
    ensures PathScan(b, off, depth, text, pdepth, target, buflen) ==
      if off == target then
        (if Fitting(next, buflen) < depth + 1 then NoPath(NOSPACE) else Path(Trimmed(Kept(next, buflen))))
      else PathScan(b, r, d, Kept(next, buflen), Fitting(next, buflen), target, buflen)
  {
  }

  /** What the loop reports when it reaches the node whose names are `names`. */
  function Outcome(names: seq<seq<Byte>>, buflen: int): PathResult {
    if Fitting(names, buflen) < |names| then NoPath(NOSPACE) else Path(Trimmed(Kept(names, buflen)))
  }

  /** The names that went by before visit j. */
  function Before(vs: seq<Visit>, j: nat): seq<seq<Byte>>
    requires Nested(vs) && j < |vs|
  {
    if j == 0 then [] else ChainOf(vs, j - 1)
  }

  /** The state of the loop when it reaches visit j, and when it has dealt with it. */
  lemma ChainStep(vs: seq<Visit>, j: nat, buflen: int)
    requires Nested(vs) && SlashFree(vs) && j < |vs|
    ensures var f, d := Fitting(Before(vs, j), buflen), vs[j].depth;
      Adds(ChainOf(vs, j), vs[j].node.name, d, Pops(Kept(Before(vs, j), buflen), f - d), Min(f, d), buflen)
  {
    hide Adds;
    if j == 0 {
      KeptAppends([], vs[0].node.name, buflen);
      assert [] + [vs[0].node.name] == ChainOf(vs, 0);
    } else {
      hide Fitting;
      hide Kept;
      hide Pops;
      ChainIsSlashFree(vs, j - 1);
      KeptPops(ChainOf(vs, j - 1), vs[j].depth, buflen);
      KeptAppends(ChainOf(vs, j - 1)[..vs[j].depth], vs[j].node.name, buflen);
    }
  }

  lemma {:induction false} PathScanWrites(b: seq<Byte>, ts: seq<Token>, vs: seq<Visit>, j: nat, k: nat, buflen: int)
    requires |b| <= INT_MAX && TokensAt(b, 0, ts) && IsWalk(b, ts, vs) && AreNodes(ts, vs)
    requires Nested(vs) && SlashFree(vs) && j <= k < |vs|
    ensures PathScan(b, Offset(ts, vs[j].index), vs[j].depth, Kept(Before(vs, j), buflen), Fitting(Before(vs, j), buflen),
                     Offset(ts, vs[k].index), buflen) == Outcome(ChainOf(vs, k), buflen)
    decreases k - j
  {
    hide NextNode;
    hide PathScan;
    hide GetName;
    hide Kept;
    hide Fitting;
    hide Pops;
    hide Adds;
    var off, d0 := Offset(ts, vs[j].index), vs[j].depth;
    var text, f := Kept(Before(vs, j), buflen), Fitting(Before(vs, j), buflen);
    NameAtToken(b, ts, vs[j].index);
    OffsetIsInjective(ts, vs[j].index, vs[k].index);
    assert StepsTo(b, ts, vs, j);
    var (r, d) := NextNode(b, off, true, d0);
    ChainStep(vs, j, buflen);
    PathScanStep(b, off, d0, text, f, Offset(ts, vs[k].index), buflen, vs[j].node.name, ChainOf(vs, j), r, d);
    if j < k {
      PathScanWrites(b, ts, vs, j + 1, k, buflen);
    }
  }

  lemma NothingKept(buflen: int)
    ensures Fitting([], buflen) == 0 && Kept([], buflen) == []
  {
  }

  lemma RootComesFirst(root: Node)
    ensures Document(root)[0] == Visit(0, 0, root) && Offset(TreeTokens(root), 0) == 0
  {
  }

  /** fdt_get_path writes the names from the root down to the node, exactly when that text and its
      NUL fit; otherwise it answers NOSPACE. */
  lemma GetPathWritesPath(b: seq<Byte>, root: Node, loc: seq<nat>, buflen: int)
    requires |b| <= INT_MAX && HoldsTree(b, root) && IsLoc(root, loc) && SlashFree(Document(root))
    ensures GetPath(b, OffsetAt(root, loc), buflen) ==
            if buflen >= 2 && |PathText(root, loc)| + 1 <= buflen then Path(PathText(root, loc)) else NoPath(NOSPACE)
  {
    hide Joined;
    hide Fitting;
    hide ChainOf;
    hide Preorder;
    hide Offset;
    hide PathScan;
    if buflen >= 2 {
      var vs, k, names := Document(root), PosOf(root, loc), Names(root, loc);
      LocOffset(root, loc);
      DocumentIsWalk(b, root);
      NodesBelow(root, []);
      ChainIsNames(b, root, loc);
      PathScanWrites(b, TreeTokens(root), vs, 0, k, buflen);
      AllFit(names, buflen);
      assert names[..|names|] == names;
      NothingKept(buflen);
      RootComesFirst(root);
    }
  }

  // ---------------------------------------------------------------- looking the text up

  /** A slash before every name. */
  function Written(names: seq<seq<Byte>>): seq<Byte> {
    if names == [] then [] else [SLASH] + names[0] + Written(names[1..])
  }

  lemma {:induction false} WrittenAppends(names: seq<seq<Byte>>, name: seq<Byte>)
    ensures Written(names + [name]) == Written(names) + [SLASH] + name
  {
    if names == [] {
      assert Written([name]) == [SLASH] + name + Written([]);
    } else {
      assert (names + [name])[1..] == names[1..] + [name];
      WrittenAppends(names[1..], name);
    }
  }

  /** Under a root without name, the text of a path is its names with a slash before each. */
  lemma {:induction false} JoinedIsWritten(names: seq<seq<Byte>>)
    ensures Joined([[]] + names) == Written(names) + [SLASH]
    decreases |names|
  {
    if names == [] {
      assert [[]] + names == [[]];
      assert Joined([[]]) == Joined([]) + [] + [SLASH];
    } else {
      var front, last := names[..|names| - 1], names[|names| - 1];
      JoinedIsWritten(front);
      WrittenAppends(front, last);
      assert names == front + [last];
      assert ([[]] + names)[..|names|] == [[]] + front;
    }
  }

  function NonEmpty(names: seq<seq<Byte>>): (kept: seq<seq<Byte>>)
    ensures |kept| <= |names|
    ensures |kept| == |names| <==> [] !in names
    ensures |kept| == |names| ==> kept == names
  {
    if names == [] then []
    else if names[0] == [] then NonEmpty(names[1..])
    else [names[0]] + NonEmpty(names[1..])
  }

  lemma {:induction false} SlashAfter(name: seq<Byte>, rest: seq<Byte>, i: nat)
    requires SLASH !in name && (rest != [] ==> rest[0] == SLASH) && i <= |name|
    ensures SlashAt(name + rest, i) == |name|
    decreases |name| - i
  {
    if i < |name| {
      assert (name + rest)[i] == name[i] && name[i] in name;
      SlashAfter(name, rest, i + 1);
    }
  }

  /** Reading the components back gives the names, except that empty names are lost. */
  lemma {:induction false} ComponentsOfWritten(names: seq<seq<Byte>>)
    requires forall i :: 0 <= i < |names| ==> SLASH !in names[i]
    ensures Components(Written(names)) == NonEmpty(names)
    decreases |names|
  {
    if names != [] {
      var name, rest := names[0], Written(names[1..]);
      ComponentsOfWritten(names[1..]);
      assert Written(names) == [SLASH] + (name + rest);
      assert Written(names)[1..] == name + rest;
      if name == [] {
        assert name + rest == rest;
      } else {
        SlashAfter(name, rest, 0);
        assert (name + rest)[0] == name[0] && name[0] in name;
        assert (name + rest)[..|name|] == name && (name + rest)[|name|..] == rest;
      }
    }
  }

  lemma ComponentsOfText(root: Node, loc: seq<nat>)
    requires IsLoc(root, loc) && root.name == []
    requires forall i :: 1 <= i <= |loc| ==> SLASH !in Names(root, loc)[i]
    ensures PathText(root, loc) != [] && Components(PathText(root, loc)) == NonEmpty(Names(root, loc)[1..])
  {
    var names := Names(root, loc)[1..];
    assert Names(root, loc) == [[]] + names;
    JoinedIsWritten(names);
    ComponentsOfWritten(names);
    if names == [] {
      assert PathText(root, loc) == [SLASH];
    } else {
      assert PathText(root, loc) == Written(names);
    }
  }

  // ---------------------------------------------------------------- shadowed nodes

  /** None of the children from k up to m is called s. */
  ghost predicate NoneMatches(it: Items, k: nat, m: nat, s: seq<Byte>)
    requires m <= ChildCount(it)
  {
    forall j :: k <= j < m ==> !Named(NthChild(it, j).name, s)
  }

  /** No node on the way down is preceded by a sibling that its name would find instead. */
  ghost predicate Unshadowed(n: Node, loc: seq<nat>)
    requires IsLoc(n, loc)
    decreases |loc|
  {
    loc == [] ||
    var c := NthChild(n.items, loc[0]);
    NoneMatches(n.items, 0, loc[0], c.name) && Unshadowed(c, loc[1..])
  }

  lemma FirstMatchIs(it: Items, k: nat, m: nat, s: seq<Byte>)
    requires k <= m < ChildCount(it) && Named(NthChild(it, m).name, s)
    ensures FirstMatch(it, k, s) == m <==> NoneMatches(it, k, m, s)
  {
    hide Named;
    var f := FirstMatch(it, k, s);
    assert f <= m && Named(NthChild(it, f).name, s);
  }

  lemma {:induction false} ResolvesIffUnshadowed(n: Node, loc: seq<nat>)
    requires IsLoc(n, loc)
    ensures Resolve(n, Names(n, loc)[1..]) == Some(loc) <==> Unshadowed(n, loc)
    decreases |loc|
  {
    if loc != [] {
      var c, names := NthChild(n.items, loc[0]), Names(n, loc)[1..];
      assert names == Names(c, loc[1..]);
      assert names[0] == c.name && names[1..] == Names(c, loc[1..])[1..];
      FirstMatchIs(n.items, 0, loc[0], c.name);
      ResolvesIffUnshadowed(c, loc[1..]);
      var k := FirstMatch(n.items, 0, c.name);
      assert Named(c.name, c.name);
      if k == loc[0] {
        assert loc == [k] + loc[1..];
        match Resolve(c, names[1..])
        case None =>
        case Some(rest) => assert ([k] + rest)[1..] == rest;
      } else {
        match Resolve(NthChild(n.items, k), names[1..])
        case None =>
        case Some(rest) => assert ([k] + rest)[0] == k;
      }
    }
  }

  /** Different children start at different positions, and one ends before the next starts. */
  lemma {:induction false} ChildrenAreApart(it: Items, i: nat, j: nat)
    requires i < j < ChildCount(it)
    ensures ChildIndex(it, i) + |NodeTokens(NthChild(it, i))| <= ChildIndex(it, j)
    decreases it
  {
    match it
    case NopItem(rest) => ChildrenAreApart(rest, i, j);
    case PropItem(_, _, rest) => ChildrenAreApart(rest, i, j);
    case Child(node, rest) => if i > 0 { ChildrenAreApart(rest, i - 1, j - 1); }
  }

  /** A position determines the location. */
  lemma {:induction false} IndexIsInjective(n: Node, l: seq<nat>, m: seq<nat>)
    requires IsLoc(n, l) && IsLoc(n, m) && IndexOf(n, l) == IndexOf(n, m)
    ensures l == m
    decreases |l|
  {
    if l != [] && m != [] {
      var c, e := NthChild(n.items, l[0]), NthChild(n.items, m[0]);
      IndexFits(c, l[1..]);
      IndexFits(e, m[1..]);
      if l[0] < m[0] {
        ChildrenAreApart(n.items, l[0], m[0]);
      } else if m[0] < l[0] {
        ChildrenAreApart(n.items, m[0], l[0]);
      } else {
        IndexIsInjective(c, l[1..], m[1..]);
        assert l == [l[0]] + l[1..] && m == [m[0]] + m[1..];
      }
    }
  }

  /** An offset determines the location. */
  lemma OffsetAtIsInjective(root: Node, l: seq<nat>, m: seq<nat>)
    requires IsLoc(root, l) && IsLoc(root, m) && OffsetAt(root, l) == OffsetAt(root, m)
    ensures l == m
  {
    IndexFits(root, l);
    IndexFits(root, m);
    OffsetIsInjective(TreeTokens(root), IndexOf(root, l), IndexOf(root, m));
    IndexIsInjective(root, l, m);
  }

  // ---------------------------------------------------------------- the round trip

  lemma LookupFinds(b: seq<Byte>, root: Node, loc: seq<nat>)
    requires |b| <= INT_MAX && HoldsTree(b, root) && IsLoc(root, loc) && root.name == []
    requires forall i :: 1 <= i <= |loc| ==> SLASH !in Names(root, loc)[i]
    ensures PathOffset(b, PathText(root, loc)) == OffsetAt(root, loc) <==>
            ([] !in Names(root, loc)[1..] && Unshadowed(root, loc))
  {
    hide PathFrom;
    var names := Names(root, loc)[1..];
    ComponentsOfText(root, loc);
    PathOffsetResolves(b, root, PathText(root, loc));
    ResolvesIffUnshadowed(root, loc);
    match Resolve(root, NonEmpty(names))
    case None =>
    case Some(found) =>
      if OffsetAt(root, found) == OffsetAt(root, loc) {
        OffsetAtIsInjective(root, found, loc);
      }
  }

  /** Path round trip: the path that fdt_get_path writes for a node leads fdt_path_offset back to
      the node if and only if no name on it is empty and no node on it has an earlier sibling that
      its name matches, that is, one with the same name or with the same name and a unit address. */
  lemma PathRoundTrip(b: seq<Byte>, root: Node, loc: seq<nat>, buflen: int)
    requires |b| <= INT_MAX && HoldsTree(b, root) && IsLoc(root, loc)
    requires root.name == [] && SlashFree(Document(root))
    requires buflen >= 2 && |PathText(root, loc)| + 1 <= buflen
    ensures GetPath(b, OffsetAt(root, loc), buflen).Path?
    ensures PathOffset(b, GetPath(b, OffsetAt(root, loc), buflen).text) == OffsetAt(root, loc) <==>
            ([] !in Names(root, loc)[1..] && Unshadowed(root, loc))
  {
    hide GetPath;
    hide PathOffset;
    GetPathWritesPath(b, root, loc, buflen);
    ChainIsNames(b, root, loc);
    ChainIsSlashFree(Document(root), PosOf(root, loc));
    LookupFinds(b, root, loc);
  }

  /** Siblings are told apart: no two have the same name, and no "b@u" stands beside a "b". */
  ghost predicate DistinctSiblings(it: Items) {
    forall i, j :: 0 <= i < ChildCount(it) && 0 <= j < ChildCount(it) && i != j ==>
      !Named(NthChild(it, i).name, NthChild(it, j).name)
  }

  lemma {:induction false} DistinctIsUnshadowed(n: Node, loc: seq<nat>)
    requires IsLoc(n, loc)
    requires forall d :: 0 <= d < |loc| && IsLoc(n, loc[..d]) ==> DistinctSiblings(At(n, loc[..d]).items)
    ensures Unshadowed(n, loc)
    decreases |loc|
  {
    if loc != [] {
      var c := NthChild(n.items, loc[0]);
      assert IsLoc(n, loc[..0]) && At(n, loc[..0]) == n;
      assert NoneMatches(n.items, 0, loc[0], c.name);
      forall d | 0 <= d < |loc[1..]| && IsLoc(c, loc[1..][..d])
        ensures DistinctSiblings(At(c, loc[1..][..d]).items)
      {
        assert loc[..d + 1][1..] == loc[1..][..d];
        assert IsLoc(n, loc[..d + 1]) && At(n, loc[..d + 1]) == At(c, loc[1..][..d]);
      }
      DistinctIsUnshadowed(c, loc[1..]);
    }
  }

  /** In a tree whose siblings are told apart, every path leads back to its node. */
  lemma DistinctNamesRoundTrip(b: seq<Byte>, root: Node, loc: seq<nat>, buflen: int)
    requires |b| <= INT_MAX && HoldsTree(b, root) && IsLoc(root, loc)
    requires root.name == [] && SlashFree(Document(root)) && [] !in Names(root, loc)[1..]
    requires forall d :: 0 <= d < |loc| && IsLoc(root, loc[..d]) ==> DistinctSiblings(At(root, loc[..d]).items)
    requires buflen >= 2 && |PathText(root, loc)| + 1 <= buflen
    ensures GetPath(b, OffsetAt(root, loc), buflen).Path?
    ensures PathOffset(b, GetPath(b, OffsetAt(root, loc), buflen).text) == OffsetAt(root, loc)
  {
    hide GetPath;
    hide PathOffset;
    PathRoundTrip(b, root, loc, buflen);
    DistinctIsUnshadowed(root, loc);
  }
}
