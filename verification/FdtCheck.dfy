/** fdt_check_full: which blobs it accepts, and what acceptance promises. */
module FdtCheck {
  import opened Bytes
  import opened FdtFormat
  import opened FdtTokens
  import opened FdtTree
  import opened FdtWalk
  import opened FdtPath

  // ---------------------------------------------------------------- the memory reservation block

  /** More entries than any blob can hold. */
  const RSV_LIMIT: int := 0x800_0000

  /** Where fdt_mem_rsv finds entry n in the blob, or -1 for NULL; offsets wrap at 32 bits. */
  function RsvOffset(f: Fdt, n: nat): int
    requires Checked(f)
  {
    var abs := Wrap32(f.OffRsvmap() + Wrap32(n * 16));
    if abs < f.OffRsvmap() || abs > f.TotalSize() - 16 then -1 else abs
  }

  /** Entry n lies inside the blob. */
  predicate HasRsv(f: Fdt, n: nat)
    requires f.HasHeader()
  {
    f.OffRsvmap() + 16 * n + 16 <= f.TotalSize()
  }

  lemma RsvOffsetIsEntry(f: Fdt, n: nat)
    requires Checked(f) && n <= RSV_LIMIT
    ensures RsvOffset(f, n) == if HasRsv(f, n) then f.OffRsvmap() + 16 * n else -1
    ensures HasRsv(f, n) ==> n < RSV_LIMIT
  {
    CheckedBounds(f);
    Wrap32Once(n * 16);
    Wrap32Once(f.OffRsvmap() + n * 16);
  }

  /** The 64-bit size field of the entry at `off` is zero. */
  predicate SizeIsZero(f: Fdt, off: nat)
    requires off + 16 <= |f.mem|
  {
    Load32(f.mem, off + 8) == 0 && Load32(f.mem, off + 12) == 0
  }

  /** The loop of fdt_num_mem_rsv from entry i on. */
  function NumMemRsvFrom(f: Fdt, i: nat): int
    requires Checked(f) && i <= RSV_LIMIT
    decreases RSV_LIMIT - i
  {
    RsvOffsetIsEntry(f, i);
    var off := RsvOffset(f, i);
    if off < 0 then TRUNCATED
    else if SizeIsZero(f, off) then i
    else NumMemRsvFrom(f, i + 1)
  }

  /** The second half of the sixteen bytes at `off` is zero. */
  predicate NoSize(mem: seq<Byte>, off: nat)
    requires off + 16 <= |mem|
  {
    mem[off + 8..off + 16] == [0, 0, 0, 0, 0, 0, 0, 0]
  }

  /** Entry n is inside the blob and its size is zero. */
  predicate EndsRsv(f: Fdt, n: nat)
    requires Checked(f)
  {
    HasRsv(f, n) && NoSize(f.mem, f.OffRsvmap() + 16 * n)
  }

  lemma ZeroSize(f: Fdt, off: nat)
    requires off + 16 <= |f.mem|
    ensures SizeIsZero(f, off) <==> NoSize(f.mem, off)
  {
    LoadIsBigEndian(f.mem, off + 8, 0);
    LoadIsBigEndian(f.mem, off + 12, 0);
    var s := f.mem[off + 8..off + 16];
    assert s == f.mem[off + 8..off + 12] + f.mem[off + 12..off + 16];
    assert s[..4] == f.mem[off + 8..off + 12] && s[4..] == f.mem[off + 12..off + 16];
  }

  lemma NumMemRsvStep(f: Fdt, i: nat)
    requires Checked(f) && i <= RSV_LIMIT
    ensures HasRsv(f, i) ==> i < RSV_LIMIT
    ensures NumMemRsvFrom(f, i) ==
      if !HasRsv(f, i) then TRUNCATED else if EndsRsv(f, i) then i else NumMemRsvFrom(f, i + 1)
  {
    RsvOffsetIsEntry(f, i);
    if HasRsv(f, i) { ZeroSize(f, f.OffRsvmap() + 16 * i); }
    hide NoSize;
    hide SizeIsZero;
    hide Load32;
  }

  /** Entry r is the first one from i on that has size zero; a negative r says there is none. */
  ghost predicate FirstEnd(f: Fdt, i: nat, r: int)
    requires Checked(f)
  {
    if r >= 0 then i <= r && EndsRsv(f, r) && forall n :: i <= n < r ==> !EndsRsv(f, n)
    else r == TRUNCATED && forall n :: i <= n ==> !EndsRsv(f, n)
  }

  /** fdt_num_mem_rsv counts the entries before the first one of size zero; TRUNCATED if no entry
      inside the blob has size zero. */
  lemma {:induction false} NumMemRsvIsFirstZero(f: Fdt, i: nat)
    requires Checked(f) && i <= RSV_LIMIT
    ensures FirstEnd(f, i, NumMemRsvFrom(f, i))
    decreases RSV_LIMIT - i
  {
    NumMemRsvStep(f, i);
    if !HasRsv(f, i) {
      NoEndFrom(f, i);
    } else if EndsRsv(f, i) {
      EndsHere(f, i);
    } else {
      NumMemRsvIsFirstZero(f, i + 1);
      FirstEndBefore(f, i, NumMemRsvFrom(f, i + 1));
    }
  }

  lemma NoEndFrom(f: Fdt, i: nat)
    requires Checked(f) && !HasRsv(f, i)
    ensures FirstEnd(f, i, TRUNCATED)
  {
  }

  lemma EndsHere(f: Fdt, i: nat)
    requires Checked(f) && EndsRsv(f, i)
    ensures FirstEnd(f, i, i)
  {
    hide EndsRsv;
  }

  lemma FirstEndBefore(f: Fdt, i: nat, r: int)
    requires Checked(f) && !EndsRsv(f, i) && FirstEnd(f, i + 1, r)
    ensures FirstEnd(f, i, r)
  {
    hide EndsRsv;
  }

  // ---------------------------------------------------------------- the scan

  /** The loop of fdt_check_full. `probe` is what fdt_ro_probe_ answers; it is only consulted when a
      name is read. */
  function CheckScan(b: seq<Byte>, strings: seq<Byte>, probe: int, off: int, depth: nat, expectEnd: bool): int
    decreases |b| - off
  {
    var (tag, next) := NextTag(b, off);
    if next < 0 then next
    else if expectEnd && tag != FDT_END then BADSTRUCTURE
    else if tag == FDT_NOP then CheckScan(b, strings, probe, next, depth, expectEnd)
    else if tag == FDT_END then (if depth != 0 then BADSTRUCTURE else 0)
    else if tag == FDT_BEGIN_NODE then
      if depth + 1 > INT_MAX then BADSTRUCTURE
      else if depth + 1 == 1 && probe < 0 then probe
      else if depth + 1 == 1 && GetName(b, off) != Str([]) then BADSTRUCTURE
      else CheckScan(b, strings, probe, next, depth + 1, expectEnd)
    else if tag == FDT_END_NODE then
      if depth == 0 then BADSTRUCTURE
      else CheckScan(b, strings, probe, next, depth - 1, expectEnd || depth - 1 == 0)
    else if probe < 0 then probe
    else match StringAt(strings, ToInt(Load32(b, off + 8)))
      case NoStr(err) => err
      case Str(_) => CheckScan(b, strings, probe, next, depth, expectEnd)
  }

  /** fdt_check_full on a buffer of bufsize bytes. */
  function CheckFull(f: Fdt, bufsize: nat): int
    requires f.HasHeader() && bufsize <= |f.mem| && f.Version() >= 17
  {
    if bufsize < V1_SIZE then TRUNCATED
    else if bufsize < HeaderSize(f.Version()) then TRUNCATED
    else if CheckHeader(f) != 0 then CheckHeader(f)
    else if bufsize < f.TotalSize() then TRUNCATED
    else if NumMemRsvFrom(f, 0) < 0 then NumMemRsvFrom(f, 0)
    else CheckScan(Block(f), Strings(f), RoProbe(f), 0, 0, false)
  }

  // ---------------------------------------------------------------- what is accepted

  /** What an accepted structure block starts with: properties and NOPs in front, then the root or
      nothing, then the end token. */
  datatype Shape = Bare(front: Items) | Rooted(front: Items, root: Node)

  function ShapeTokens(s: Shape): seq<Token> {
    match s
    case Bare(front) => ItemTokens(front) + [Finish]
    case Rooted(front, root) => ItemTokens(front) + NodeTokens(root) + [Finish]
  }

  /** All property names resolve. */
  predicate NamesResolve(it: Items, strings: seq<Byte>) {
    match it
    case Done => true
    case NopItem(rest) => NamesResolve(rest, strings)
    case PropItem(nameOff, _, rest) => Terminated(strings, ToInt(nameOff)) && NamesResolve(rest, strings)
    case Child(node, rest) => NamesResolve(node.items, strings) && NamesResolve(rest, strings)
  }

  /** No name has to be read. */
  predicate Nameless(it: Items) {
    match it
    case Done => true
    case NopItem(rest) => Nameless(rest)
    case _ => false
  }

  predicate IsShape(s: Shape, strings: seq<Byte>, probe: int) {
    && ChildCount(s.front) == 0 && NamesResolve(s.front, strings)
    && (s.Rooted? ==> s.root.name == [] && NamesResolve(s.root.items, strings))
    && (probe < 0 ==> s.Bare? && Nameless(s.front))
  }

  // ---------------------------------------------------------------- sequences of tokens

  /** Total width. */
  function WidthAll(ts: seq<Token>): nat {
    Offset(ts, |ts|)
  }

  lemma {:induction false} TokensSplit(b: seq<Byte>, off: nat, xs: seq<Token>, ys: seq<Token>)
    ensures TokensAt(b, off, xs + ys) <==> TokensAt(b, off, xs) && TokensAt(b, off + WidthAll(xs), ys)
    decreases |xs|
  {
    if xs == [] {
      assert xs + ys == ys;
    } else {
      assert (xs + ys)[1..] == xs[1..] + ys;
      TokensSplit(b, off + Width(xs[0]), xs[1..], ys);
      OffsetOfTail(xs, |xs| - 1);
    }
  }

  lemma OneToken(b: seq<Byte>, off: nat, t: Token)
    ensures TokensAt(b, off, [t]) <==> TokenAt(b, off, t)
    ensures WidthAll([t]) == Width(t)
  {
    assert Offset([t], 0) == 0;
  }

  /** A first token and the tokens after it. */
  lemma TokensHead(b: seq<Byte>, off: nat, t: Token, ts: seq<Token>)
    ensures TokensAt(b, off, [t] + ts) <==> TokenAt(b, off, t) && TokensAt(b, off + Width(t), ts)
    ensures WidthAll([t] + ts) == Width(t) + WidthAll(ts)
  {
    OneToken(b, off, t);
    TokensSplit(b, off, [t], ts);
    WidthSplit([t], ts);
  }

  /** One round of the scan, on a token. */
  lemma CheckStep(b: seq<Byte>, strings: seq<Byte>, probe: int, off: nat, depth: nat, expectEnd: bool, t: Token)
    requires TokenAt(b, off, t) && off % 4 == 0 && depth < INT_MAX
    ensures CheckScan(b, strings, probe, off, depth, expectEnd) ==
      if expectEnd && t != Finish then BADSTRUCTURE
      else match t
        case Nop => CheckScan(b, strings, probe, off + 4, depth, expectEnd)
        case Finish => if depth != 0 then BADSTRUCTURE else 0
        case Begin(name) =>
          if depth == 0 && probe < 0 then probe
          else if depth == 0 && name != [] then BADSTRUCTURE
          else CheckScan(b, strings, probe, off + Width(t), depth + 1, expectEnd)
        case EndNode =>
          if depth == 0 then BADSTRUCTURE
          else CheckScan(b, strings, probe, off + 4, depth - 1, expectEnd || depth - 1 == 0)
        case Prop(nameOff, _) =>
          if probe < 0 then probe
          else match StringAt(strings, ToInt(nameOff))
            case NoStr(err) => err
            case Str(_) => CheckScan(b, strings, probe, off + Width(t), depth, expectEnd)
  {
    hide Load32;
    hide StringAt;
    NextTagReads(b, off, t);
    if t.Begin? { NameEnds(b, off, t.name); }
  }

  // ---------------------------------------------------------------- completeness

  /** The scan passes over items whose names resolve. */
  lemma {:induction false} ScanPasses(b: seq<Byte>, strings: seq<Byte>, probe: int, off: nat, depth: nat, it: Items)
    requires TokensAt(b, off, ItemTokens(it)) && off % 4 == 0 && NamesResolve(it, strings)
    requires depth + |ItemTokens(it)| < INT_MAX && (depth == 0 ==> ChildCount(it) == 0)
    requires probe < 0 ==> Nameless(it)
    ensures CheckScan(b, strings, probe, off, depth, false) ==
            CheckScan(b, strings, probe, off + WidthAll(ItemTokens(it)), depth, false)
    decreases it
  {
    hide CheckScan;
    hide TokensAt;
    hide TokenAt;
    hide WidthAll;
    match it
    case Done => NoWidth();
    case NopItem(rest) =>
      TokensHead(b, off, Nop, ItemTokens(rest));
      CheckStep(b, strings, probe, off, depth, false, Nop);
      ScanPasses(b, strings, probe, off + 4, depth, rest);
    case PropItem(o, v, rest) =>
      TokensHead(b, off, Prop(o, v), ItemTokens(rest));
      CheckStep(b, strings, probe, off, depth, false, Prop(o, v));
      StringOrError(strings, ToInt(o));
      ScanPasses(b, strings, probe, off + Width(Prop(o, v)), depth, rest);
    case Child(node, rest) =>
      TokensSplit(b, off, NodeTokens(node), ItemTokens(rest));
      WidthSplit(NodeTokens(node), ItemTokens(rest));
      ScanPassesNode(b, strings, probe, off, depth, node);
      WidthIsAligned(NodeTokens(node));
      ScanPasses(b, strings, probe, off + WidthAll(NodeTokens(node)), depth, rest);
  }

  lemma NoWidth()
    ensures WidthAll([]) == 0
  {
  }

  lemma WidthIsAligned(ts: seq<Token>)
    ensures WidthAll(ts) % 4 == 0
  {
  }

  lemma {:induction false} ScanPassesNode(b: seq<Byte>, strings: seq<Byte>, probe: int, off: nat, depth: nat, node: Node)
    requires TokensAt(b, off, NodeTokens(node)) && off % 4 == 0 && NamesResolve(node.items, strings)
    requires depth + |NodeTokens(node)| < INT_MAX && probe >= 0 && (depth == 0 ==> node.name == [])
    ensures CheckScan(b, strings, probe, off, depth, false) ==
            CheckScan(b, strings, probe, off + WidthAll(NodeTokens(node)), depth, depth == 0)
    decreases node
  {
    hide CheckScan;
    hide TokensAt;
    hide TokenAt;
    hide WidthAll;
    var t, it := Begin(node.name), node.items;
    var mid := off + Width(t);
    var last := mid + WidthAll(ItemTokens(it));
    assert NodeTokens(node) == [t] + (ItemTokens(it) + [EndNode]);
    TokensHead(b, off, t, ItemTokens(it) + [EndNode]);
    TokensSplit(b, mid, ItemTokens(it), [EndNode]);
    WidthSplit(ItemTokens(it), [EndNode]);
    WidthIsAligned(ItemTokens(it));
    OneToken(b, last, EndNode);
    CheckStep(b, strings, probe, off, depth, false, t);
    ScanPasses(b, strings, probe, mid, depth + 1, it);
    CheckStep(b, strings, probe, last, depth + 1, false, EndNode);
  }

  lemma {:induction false} WidthSplit(xs: seq<Token>, ys: seq<Token>)
    ensures WidthAll(xs + ys) == WidthAll(xs) + WidthAll(ys)
    decreases |ys|
  {
    if ys == [] {
      assert xs + ys == xs;
    } else {
      var front := ys[..|ys| - 1];
      assert xs + ys == xs + front + [ys[|ys| - 1]];
      WidthSplit(xs, front);
      WidthSnoc(xs + front, ys[|ys| - 1]);
      WidthSnoc(front, ys[|ys| - 1]);
      assert ys == front + [ys[|ys| - 1]];
    }
  }

  lemma WidthSnoc(xs: seq<Token>, t: Token)
    ensures WidthAll(xs + [t]) == WidthAll(xs) + Width(t)
  {
    OffsetOfPrefix(xs, [t], |xs|);
  }

  lemma {:induction false} OffsetOfPrefix(xs: seq<Token>, ys: seq<Token>, i: nat)
    requires i <= |xs|
    ensures Offset(xs + ys, i) == Offset(xs, i)
  {
    if i > 0 { OffsetOfPrefix(xs, ys, i - 1); }
  }

  /** What follows the front: the root, if there is one, and the end token. */
  function AfterFront(s: Shape): seq<Token> {
    if s.Bare? then [Finish] else NodeTokens(s.root) + [Finish]
  }

  lemma AfterFrontIsAccepted(b: seq<Byte>, strings: seq<Byte>, probe: int, mid: nat, s: Shape)
    requires |b| <= INT_MAX && TokensAt(b, mid, AfterFront(s)) && mid % 4 == 0 && IsShape(s, strings, probe)
    ensures CheckScan(b, strings, probe, mid, 0, false) == 0
  {
    hide CheckScan;
    hide TokensAt;
    hide TokenAt;
    hide NamesResolve;
    TokensAreFew(b, mid, AfterFront(s));
    if s.Bare? {
      OneToken(b, mid, Finish);
      CheckStep(b, strings, probe, mid, 0, false, Finish);
    } else {
      hide WidthAll;
      var end := mid + WidthAll(NodeTokens(s.root));
      TokensSplit(b, mid, NodeTokens(s.root), [Finish]);
      OneToken(b, end, Finish);
      WidthIsAligned(NodeTokens(s.root));
      ScanPassesNode(b, strings, probe, mid, 0, s.root);
      CheckStep(b, strings, probe, end, 0, true, Finish);
    }
  }

  /** Completeness: every block of this shape is accepted. */
  lemma ShapeIsAccepted(b: seq<Byte>, strings: seq<Byte>, probe: int, s: Shape)
    requires |b| <= INT_MAX && TokensAt(b, 0, ShapeTokens(s)) && IsShape(s, strings, probe)
    ensures CheckScan(b, strings, probe, 0, 0, false) == 0
  {
    hide CheckScan;
    hide TokensAt;
    hide TokenAt;
    hide WidthAll;
    hide NodeTokens;
    hide NamesResolve;
    var front := ItemTokens(s.front);
    TokensAreFew(b, 0, ShapeTokens(s));
    ShapeSplits(s);
    TokensSplit(b, 0, front, AfterFront(s));
    WidthIsAligned(front);
    ScanPasses(b, strings, probe, 0, 0, s.front);
    AfterFrontIsAccepted(b, strings, probe, WidthAll(front), s);
  }

  lemma {:induction false} TokensAreFew(b: seq<Byte>, off: nat, ts: seq<Token>)
    requires TokensAt(b, off, ts)
    ensures ts != [] ==> off + 4 * |ts| <= |b|
    decreases |ts|
  {
    if |ts| > 1 { TokensAreFew(b, off + Width(ts[0]), ts[1..]); }
  }

  // ---------------------------------------------------------------- soundness

  /** Inside a node, acceptance means that items come next, then the node's end token, and that the
      scan goes on accepting behind it. */
  lemma {:induction false} AcceptedItems(b: seq<Byte>, strings: seq<Byte>, probe: int, off: nat, depth: nat)
      returns (it: Items, end: nat)
    requires |b| <= INT_MAX && off % 4 == 0 && 1 <= depth <= off && probe >= 0
    requires CheckScan(b, strings, probe, off, depth, false) == 0
    ensures end % 4 == 0 && off < end
    ensures TokensAt(b, off, ItemTokens(it) + [EndNode]) && off + WidthAll(ItemTokens(it) + [EndNode]) == end
    ensures NamesResolve(it, strings)
    ensures CheckScan(b, strings, probe, end, depth - 1, depth == 1) == 0
    decreases |b| - off
  {
    hide CheckScan;
    hide TokensAt;
    hide TokenAt;
    hide WidthAll;
    hide NamesResolve;
    var t := AcceptedToken(b, strings, probe, off, depth, false);
    match t
    case Nop =>
      var rest, e := AcceptedItems(b, strings, probe, off + 4, depth);
      it, end := NopItem(rest), e;
      Prepend(b, off, [Nop], ItemTokens(rest), [EndNode]);
      ResolveHead(it, strings);
    case Prop(o, v) =>
      var rest, e := AcceptedItems(b, strings, probe, off + Width(t), depth);
      it, end := PropItem(o, v, rest), e;
      Prepend(b, off, [t], ItemTokens(rest), [EndNode]);
      ResolveHead(it, strings);
    case EndNode =>
      it, end := Done, off + 4;
      assert [] + [EndNode] == [EndNode];
      ResolveHead(it, strings);
    case Begin(name) =>
      var inner, mid := AcceptedItems(b, strings, probe, off + Width(t), depth + 1);
      var rest, e := AcceptedItems(b, strings, probe, mid, depth);
      it, end := Child(Node(name, inner), rest), e;
      Prepend(b, off, [t], ItemTokens(inner), [EndNode]);
      Prepend(b, off, NodeTokens(Node(name, inner)), ItemTokens(rest), [EndNode]);
      ResolveHead(it, strings);
  }

  lemma ResolveHead(it: Items, strings: seq<Byte>)
    ensures NamesResolve(it, strings) <==> match it
      case Done => true
      case NopItem(rest) => NamesResolve(rest, strings)
      case PropItem(nameOff, _, rest) => Terminated(strings, ToInt(nameOff)) && NamesResolve(rest, strings)
      case Child(node, rest) => NamesResolve(node.items, strings) && NamesResolve(rest, strings)
  {
  }

  /** Tokens in front of more tokens. */
  lemma Prepend(b: seq<Byte>, off: nat, xs: seq<Token>, ys: seq<Token>, zs: seq<Token>)
    requires TokensAt(b, off, xs) && TokensAt(b, off + WidthAll(xs), ys + zs)
    ensures TokensAt(b, off, (xs + ys) + zs) && WidthAll((xs + ys) + zs) == WidthAll(xs) + WidthAll(ys + zs)
  {
    assert (xs + ys) + zs == xs + (ys + zs);
    TokensSplit(b, off, xs, ys + zs);
    WidthSplit(xs, ys + zs);
  }

  /** Where the scan accepts there is a token, and the scan accepts behind it. */
  lemma AcceptedToken(b: seq<Byte>, strings: seq<Byte>, probe: int, off: nat, depth: nat, expectEnd: bool)
      returns (t: Token)
    requires |b| <= INT_MAX && off % 4 == 0 && depth <= off
    requires CheckScan(b, strings, probe, off, depth, expectEnd) == 0
    ensures TokensAt(b, off, [t]) && WidthAll([t]) == Width(t) && off + 4 <= |b|
    ensures expectEnd ==> t == Finish
    ensures match t
      case Nop => CheckScan(b, strings, probe, off + 4, depth, expectEnd) == 0
      case Finish => depth == 0
      case Begin(name) =>
        (depth == 0 ==> name == [] && probe >= 0) && CheckScan(b, strings, probe, off + Width(t), depth + 1, expectEnd) == 0
      case EndNode => depth > 0 && CheckScan(b, strings, probe, off + 4, depth - 1, expectEnd || depth == 1) == 0
      case Prop(nameOff, _) =>
        probe >= 0 && Terminated(strings, ToInt(nameOff)) &&
        CheckScan(b, strings, probe, off + Width(t), depth, expectEnd) == 0
  {
    assert NextTag(b, off).1 >= 0;
    t := TokenOf(b, off);
    NextTagParses(b, off);
    OneToken(b, off, t);
    CheckStep(b, strings, probe, off, depth, expectEnd, t);
    if t.Prop? { StringOrError(strings, ToInt(t.nameOff)); }
  }

  /** Soundness: an accepted block starts with a shape. */
  lemma {:induction false} AcceptedIsShape(b: seq<Byte>, strings: seq<Byte>, probe: int, off: nat) returns (s: Shape)
    requires |b| <= INT_MAX && off % 4 == 0 && CheckScan(b, strings, probe, off, 0, false) == 0
    ensures TokensAt(b, off, ShapeTokens(s)) && IsShape(s, strings, probe)
    decreases |b| - off
  {
    hide CheckScan;
    hide TokensAt;
    hide TokenAt;
    hide WidthAll;
    var t := AcceptedToken(b, strings, probe, off, 0, false);
    match t
    case Nop =>
      var rest := AcceptedIsShape(b, strings, probe, off + 4);
      s := rest.(front := NopItem(rest.front));
      FrontGrows(b, off, t, rest, s);
    case Prop(o, v) =>
      var rest := AcceptedIsShape(b, strings, probe, off + Width(t));
      s := rest.(front := PropItem(o, v, rest.front));
      FrontGrows(b, off, t, rest, s);
    case Finish =>
      s := Bare(Done);
      assert ShapeTokens(s) == [Finish];
    case Begin(name) =>
      var inner, end := AcceptedItems(b, strings, probe, off + Width(t), 1);
      var root := Node(name, inner);
      var fin := AcceptedToken(b, strings, probe, end, 0, true);
      s := Rooted(Done, root);
      Prepend(b, off, [t], ItemTokens(inner), [EndNode]);
      TokensSplit(b, off, NodeTokens(root), [Finish]);
      assert ShapeTokens(s) == NodeTokens(root) + [Finish];
  }

  lemma ShapeSplits(s: Shape)
    ensures ShapeTokens(s) == ItemTokens(s.front) + AfterFront(s)
  {
    hide NodeTokens;
    hide ItemTokens;
    if s.Rooted? {
      assert ItemTokens(s.front) + NodeTokens(s.root) + [Finish] == ItemTokens(s.front) + (NodeTokens(s.root) + [Finish]);
    }
  }

  lemma FrontGrows(b: seq<Byte>, off: nat, t: Token, rest: Shape, s: Shape)
    requires TokensAt(b, off, [t]) && TokensAt(b, off + WidthAll([t]), ShapeTokens(rest))
    requires s == rest.(front := s.front) && ItemTokens(s.front) == [t] + ItemTokens(rest.front)
    ensures TokensAt(b, off, ShapeTokens(s))
  {
    hide TokensAt;
    hide TokenAt;
    hide WidthAll;
    hide NodeTokens;
    hide ItemTokens;
    var more := AfterFront(s);
    assert AfterFront(rest) == more;
    ShapeSplits(s);
    ShapeSplits(rest);
    assert [t] + (ItemTokens(rest.front) + more) == [t] + ItemTokens(rest.front) + more;
    TokensSplit(b, off, [t], ShapeTokens(rest));
  }

  /** The structure block starts with an acceptable shape. */
  ghost predicate HasShape(b: seq<Byte>, strings: seq<Byte>, probe: int) {
    exists s: Shape :: IsShape(s, strings, probe) && TokensAt(b, 0, ShapeTokens(s))
  }

  /** fdt_check_full is sound and complete: it returns 0 exactly for a buffer that holds the whole
      blob, whose header is good, whose reservation block is terminated, and whose structure block
      is properties and NOPs, then at most one root, with an empty name, then the end token, with
      every begin matched by an end and every property name resolving. */
  lemma CheckFullIff(f: Fdt, bufsize: nat)
    requires f.HasHeader() && bufsize <= |f.mem| && f.Version() >= 17
    ensures GoodHeader(f) && f.TotalSize() <= bufsize ==> Checked(f)
    ensures CheckFull(f, bufsize) == 0 <==>
      (40 <= bufsize && GoodHeader(f) && f.TotalSize() <= bufsize &&
       (exists n: nat :: EndsRsv(f, n)) && HasShape(Block(f), Strings(f), RoProbe(f)))
  {
    HeaderAnswers(f);
    hide CheckHeader;
    hide GoodHeader;
    if V17_SIZE <= bufsize && CheckHeader(f) == 0 && f.TotalSize() <= bufsize {
      NumMemRsvIsFirstZero(f, 0);
      var b, strings, probe := Block(f), Strings(f), RoProbe(f);
      if CheckFull(f, bufsize) == 0 {
        assert EndsRsv(f, NumMemRsvFrom(f, 0));
        var s := AcceptedIsShape(b, strings, probe, 0);
      }
      if HasShape(b, strings, probe) {
        var s: Shape :| IsShape(s, strings, probe) && TokensAt(b, 0, ShapeTokens(s));
        ShapeIsAccepted(b, strings, probe, s);
      }
    }
  }

  /** What fdt_check_full answers instead of 0: TRUNCATED for a buffer that is too short, then what is
      wrong with the header, then TRUNCATED for a blob or a reservation block without an end, then one
      of the three errors of a structure block. */
  lemma CheckFullAnswers(f: Fdt, bufsize: nat)
    requires f.HasHeader() && bufsize <= |f.mem| && f.Version() >= 17
    ensures var r := CheckFull(f, bufsize);
      && (bufsize < 40 ==> r == -8)
      && (bufsize >= 40 && !GoodHeader(f) ==> r == CheckHeader(f) < 0)
      && (bufsize >= 40 && GoodHeader(f) && bufsize < f.TotalSize() ==> r == -8)
      && (bufsize >= 40 && Checked(f) && f.TotalSize() <= bufsize ==>
            if exists n: nat :: EndsRsv(f, n) then r == 0 || r == -4 || r == -8 || r == -11 else r == -8)
  {
    HeaderAnswers(f);
    hide GoodHeader;
    hide EndsRsv;
    hide CheckScan;
    if V17_SIZE <= bufsize && CheckHeader(f) == 0 && f.TotalSize() <= bufsize {
      NumMemRsvIsFirstZero(f, 0);
      ScanAnswers(Block(f), Strings(f), RoProbe(f), 0, 0, false);
    }
  }

  lemma {:induction false} ScanAnswers(b: seq<Byte>, strings: seq<Byte>, probe: int, off: int, depth: nat, expectEnd: bool)
    requires probe < 0 ==> probe == TRUNCATED
    ensures CheckScan(b, strings, probe, off, depth, expectEnd) in {0, BADOFFSET, TRUNCATED, BADSTRUCTURE}
    decreases |b| - off
  {
    var (tag, next) := NextTag(b, off);
    if next >= 0 {
      if tag == FDT_BEGIN_NODE { ScanAnswers(b, strings, probe, next, depth + 1, expectEnd); }
      else if tag == FDT_END_NODE {
        if depth > 0 { ScanAnswers(b, strings, probe, next, depth - 1, expectEnd || depth - 1 == 0); }
      } else { ScanAnswers(b, strings, probe, next, depth, expectEnd); }
    }
  }

  // ---------------------------------------------------------------- walking an accepted block

  /** The next call of fdt_next_node without a depth pointer after the results offs, first from -1. */
  function NextOf(b: seq<Byte>, offs: seq<int>): int
    requires |b| <= INT_MAX
  {
    NextNode(b, if offs == [] then -1 else offs[|offs| - 1], false, 0).0
  }

  /** offs are the results of calling fdt_next_node again and again. */
  predicate IsNodeWalk(b: seq<Byte>, offs: seq<int>)
    requires |b| <= INT_MAX
    decreases |offs|
  {
    offs == [] ||
    var front, last := offs[..|offs| - 1], offs[|offs| - 1];
    IsNodeWalk(b, front) && last >= 0 && last == NextOf(b, front)
  }

  /** Some scan of fdt_check_full accepts from here on. */
  ghost predicate AcceptedFrom(b: seq<Byte>, strings: seq<Byte>, probe: int, off: int) {
    off >= 0 && off % 4 == 0 &&
    exists depth: nat, e: bool :: depth <= off && CheckScan(b, strings, probe, off, depth, e) == 0
  }

  /** An accepted node, or the end of the walk. */
  ghost predicate NodeOrEnd(b: seq<Byte>, strings: seq<Byte>, probe: int, r: int) {
    r == NOTFOUND || (AcceptedFrom(b, strings, probe, r) && NextTag(b, r).0 == FDT_BEGIN_NODE)
  }

  /** From an accepted offset the search for a node ends at an accepted node or in NOTFOUND. */
  lemma {:induction false} ScanStaysAccepted(b: seq<Byte>, strings: seq<Byte>, probe: int, off: nat, depth: nat, e: bool)
    requires |b| <= INT_MAX && off % 4 == 0 && depth <= off && CheckScan(b, strings, probe, off, depth, e) == 0
    ensures NodeOrEnd(b, strings, probe, ScanNode(b, off, false, 0).0)
    decreases |b| - off
  {
    hide CheckScan;
    hide ScanNode;
    hide NodeOrEnd;
    var t := AcceptedToken(b, strings, probe, off, depth, e);
    OneToken(b, off, t);
    ScanStep(b, off, t, false, 0);
    NextTagReads(b, off, t);
    match t
    case Nop => ScanStaysAccepted(b, strings, probe, off + 4, depth, e);
    case Prop(_, _) => ScanStaysAccepted(b, strings, probe, off + Width(t), depth, e);
    case EndNode => ScanStaysAccepted(b, strings, probe, off + 4, depth - 1, e || depth == 1);
    case Begin(_) => IsAccepted(b, strings, probe, off, depth, e);
    case Finish => EndIsEnd(b, strings, probe);
  }

  lemma IsAccepted(b: seq<Byte>, strings: seq<Byte>, probe: int, off: nat, depth: nat, e: bool)
    requires off % 4 == 0 && depth <= off && CheckScan(b, strings, probe, off, depth, e) == 0
    requires NextTag(b, off).0 == FDT_BEGIN_NODE
    ensures NodeOrEnd(b, strings, probe, off)
  {
    hide CheckScan;
  }

  lemma EndIsEnd(b: seq<Byte>, strings: seq<Byte>, probe: int)
    ensures NodeOrEnd(b, strings, probe, NOTFOUND)
  {
  }

  lemma NodeStaysAccepted(b: seq<Byte>, strings: seq<Byte>, probe: int, off: nat)
    requires |b| <= INT_MAX && AcceptedFrom(b, strings, probe, off) && NextTag(b, off).0 == FDT_BEGIN_NODE
    ensures NodeOrEnd(b, strings, probe, NextNode(b, off, false, 0).0)
  {
    hide CheckScan;
    hide ScanNode;
    hide NodeOrEnd;
    var depth: nat, e: bool :| depth <= off && CheckScan(b, strings, probe, off, depth, e) == 0;
    var t := AcceptedToken(b, strings, probe, off, depth, e);
    OneToken(b, off, t);
    NextTagReads(b, off, t);
    ScanStaysAccepted(b, strings, probe, off + Width(t), depth + 1, e);
  }

  lemma {:induction false} WalkStaysAccepted(b: seq<Byte>, strings: seq<Byte>, probe: int, offs: seq<int>)
    requires |b| <= INT_MAX && CheckScan(b, strings, probe, 0, 0, false) == 0 && IsNodeWalk(b, offs)
    ensures NodeOrEnd(b, strings, probe, NextOf(b, offs))
    decreases |offs|
  {
    hide CheckScan;
    hide ScanNode;
    hide AcceptedFrom;
    if offs == [] {
      ScanStaysAccepted(b, strings, probe, 0, 0, false);
    } else {
      WalkStaysAccepted(b, strings, probe, offs[..|offs| - 1]);
      hide NextNode;
      NodeStaysAccepted(b, strings, probe, offs[|offs| - 1]);
    }
  }

  /** On an accepted blob, however far the walk has come, it goes on to a node or ends in NOTFOUND:
      no other error can occur. */
  lemma WalkEndsInNotFound(f: Fdt, bufsize: nat, offs: seq<int>)
    requires f.HasHeader() && bufsize <= |f.mem| && f.Version() >= 17 && CheckFull(f, bufsize) == 0
    requires IsNodeWalk(Block(f), offs)
    ensures var r := NextOf(Block(f), offs);
      r == NOTFOUND || (r >= 0 && NextTag(Block(f), r).0 == FDT_BEGIN_NODE)
  {
    WalkStaysAccepted(Block(f), Strings(f), RoProbe(f), offs);
  }

  // ---------------------------------------------------------------- the tree of an accepted block

  /** An accepted blob whose structure block starts with a begin token holds a tree with an unnamed
      root, as the tree queries expect it. */
  lemma AcceptedHoldsTree(f: Fdt, bufsize: nat) returns (root: Node)
    requires f.HasHeader() && bufsize <= |f.mem| && f.Version() >= 17 && CheckFull(f, bufsize) == 0
    requires NextTag(Block(f), 0).0 == FDT_BEGIN_NODE
    ensures HoldsTree(Block(f), root) && root.name == [] && NamesResolve(root.items, Strings(f))
  {
    hide CheckScan;
    var b := Block(f);
    var s := AcceptedIsShape(b, Strings(f), RoProbe(f), 0);
    var ts := ShapeTokens(s);
    TokenInBlock(b, 0, ts, 0);
    NextTagReads(b, 0, ts[0]);
    assert s.front == Done;
    root := s.root;
    assert ts == NodeTokens(root) + [Finish];
  }

  lemma TokenIsUnique(b: seq<Byte>, off: nat, t: Token, u: Token)
    requires off % 4 == 0 && TokenAt(b, off, t) && TokenAt(b, off, u)
    ensures t == u
  {
    hide TokenAt;
    NextTagReads(b, off, t);
    TokenIsParsed(b, off, t);
    TokenIsParsed(b, off, u);
  }

  lemma TokenIsParsed(b: seq<Byte>, off: nat, t: Token)
    requires off % 4 == 0 && TokenAt(b, off, t) && NextTag(b, off).1 >= 0
    ensures t == TokenOf(b, off)
  {
    hide NextTag;
    if t.Begin? { NameEnds(b, off, t.name); }
  }

  /** What stands between a node's begin and end tokens can be read in one way only. */
  lemma {:induction false} ItemsAreUnique(b: seq<Byte>, off: nat, x: Items, y: Items)
    requires off % 4 == 0
    requires TokensAt(b, off, ItemTokens(x) + [EndNode]) && TokensAt(b, off, ItemTokens(y) + [EndNode])
    ensures x == y
    decreases x
  {
    hide TokensAt;
    hide TokenAt;
    hide WidthAll;
    HeadOfItems(b, off, x);
    HeadOfItems(b, off, y);
    TokenIsUnique(b, off, HeadToken(x), HeadToken(y));
    match x
    case Done =>
    case NopItem(rest) => ItemsAreUnique(b, off + 4, rest, y.rest);
    case PropItem(o, v, rest) => ItemsAreUnique(b, off + Width(Prop(o, v)), rest, y.rest);
    case Child(node, rest) =>
      var w := off + Width(Begin(node.name));
      ItemsAreUnique(b, w, node.items, y.node.items);
      WidthIsAligned(ItemTokens(node.items) + [EndNode]);
      ItemsAreUnique(b, w + WidthAll(ItemTokens(node.items) + [EndNode]), rest, y.rest);
  }

  function HeadToken(it: Items): Token {
    match it
    case Done => EndNode
    case NopItem(_) => Nop
    case PropItem(o, v, _) => Prop(o, v)
    case Child(node, _) => Begin(node.name)
  }

  /** The first token of closed items and what stands behind it. */
  lemma HeadOfItems(b: seq<Byte>, off: nat, it: Items)
    requires TokensAt(b, off, ItemTokens(it) + [EndNode])
    ensures TokenAt(b, off, HeadToken(it))
    ensures match it
      case Done => true
      case NopItem(rest) => TokensAt(b, off + 4, ItemTokens(rest) + [EndNode])
      case PropItem(o, v, rest) => TokensAt(b, off + Width(Prop(o, v)), ItemTokens(rest) + [EndNode])
      case Child(node, rest) =>
        var w := off + Width(Begin(node.name));
        && TokensAt(b, w, ItemTokens(node.items) + [EndNode])
        && TokensAt(b, w + WidthAll(ItemTokens(node.items) + [EndNode]), ItemTokens(rest) + [EndNode])
  {
    hide TokenAt;
    hide WidthAll;
    match it
    case Done => assert ItemTokens(it) + [EndNode] == [EndNode];
    case NopItem(rest) =>
      assert ItemTokens(it) + [EndNode] == [Nop] + (ItemTokens(rest) + [EndNode]);
      TokensHead(b, off, Nop, ItemTokens(rest) + [EndNode]);
    case PropItem(o, v, rest) =>
      assert ItemTokens(it) + [EndNode] == [Prop(o, v)] + (ItemTokens(rest) + [EndNode]);
      TokensHead(b, off, Prop(o, v), ItemTokens(rest) + [EndNode]);
    case Child(node, rest) =>
      var t, inner, after := Begin(node.name), ItemTokens(node.items) + [EndNode], ItemTokens(rest) + [EndNode];
      assert ItemTokens(it) + [EndNode] == [t] + (inner + after);
      TokensHead(b, off, t, inner + after);
      TokensSplit(b, off + Width(t), inner, after);
  }

  /** A block holds at most one tree. */
  lemma AtMostOneTree(b: seq<Byte>, m: Node, n: Node)
    requires HoldsTree(b, m) && HoldsTree(b, n)
    ensures m == n
  {
    NodeOfTree(b, m);
    NodeOfTree(b, n);
    hide TokensAt;
    hide TokenAt;
    TokenIsUnique(b, 0, Begin(m.name), Begin(n.name));
    ItemsAreUnique(b, Width(Begin(m.name)), m.items, n.items);
  }

  lemma NodeOfTree(b: seq<Byte>, n: Node)
    requires HoldsTree(b, n)
    ensures TokenAt(b, 0, Begin(n.name)) && TokensAt(b, Width(Begin(n.name)), ItemTokens(n.items) + [EndNode])
  {
    hide TokenAt;
    var inner := ItemTokens(n.items) + [EndNode];
    assert NodeTokens(n) + [Finish] == [Begin(n.name)] + (inner + [Finish]);
    TokensHead(b, 0, Begin(n.name), inner + [Finish]);
    TokensSplit(b, Width(Begin(n.name)), inner, [Finish]);
  }
}
