/** The reader's own loops over a blob's bytes, in 32-bit arithmetic: tags, nodes, children,
    ancestors. Each is proved to compute the function that specifies it. */
module FdtReader {
  import opened Bytes
  import opened FdtFormat
  import opened FdtWalk
  import opened FdtNav

  /** The byte that fdt_offset_ptr points at, in the blob's memory. */
  function ByteOf(f: Fdt, offset: nat): Byte
    requires Checked(f) && offset < f.SizeStruct()
  {
    CheckedBounds(f);
    f.mem[f.OffStruct() + offset]
  }

  lemma ByteOfBlock(f: Fdt, offset: nat)
    requires Checked(f) && offset < f.SizeStruct()
    ensures offset < |Block(f)| && ByteOf(f, offset) == Block(f)[offset]
  {
    hide Load32;
    hide Checked;
    CheckedBounds(f);
  }

  /** The big-endian word that fdt_offset_ptr points at. */
  function WordOf(f: Fdt, offset: nat): U32
    requires Checked(f) && offset + 4 <= f.SizeStruct()
  {
    CheckedBounds(f);
    Load32(f.mem, f.OffStruct() + offset)
  }

  lemma WordOfBlock(f: Fdt, offset: nat)
    requires Checked(f) && offset + 4 <= f.SizeStruct()
    ensures offset + 4 <= |Block(f)| && WordOf(f, offset) == Load32(Block(f), offset)
  {
    var b := Block(f);
    ByteOfBlock(f, offset);
    ByteOfBlock(f, offset + 1);
    ByteOfBlock(f, offset + 2);
    ByteOfBlock(f, offset + 3);
  }

  // ---------------------------------------------------------------- tags

  /** The loop that skips a name: the offset behind its terminator, or no pointer. */
  method SkipName(f: Fdt, start: I32) returns (found: bool, offset: I32)
    requires Checked(f) && 0 <= start <= |Block(f)|
    ensures found <==> Terminator(Block(f), start) < |Block(f)|
    ensures found ==> offset == Terminator(Block(f), start) + 1
  {
    hide OffsetPtr;
    hide ByteOf;
    hide Load32;
    ghost var b := Block(f);
    offset := start;
    OffsetPtrIsInBlock(f, offset, 1);
    found := OffsetPtr(f, offset, 1);
    offset := offset + 1;
    while found && ByteOf(f, offset - 1) != 0
      invariant start < offset <= |b| + 1 && (found <==> offset <= |b|)
      invariant forall k :: start <= k < offset - 1 ==> b[k] != 0
      decreases |b| + 1 - offset
    {
      ByteOfBlock(f, offset - 1);
      OffsetPtrIsInBlock(f, offset, 1);
      found := OffsetPtr(f, offset, 1);
      offset := offset + 1;
    }
    if found { ByteOfBlock(f, offset - 1); }
    TerminatorIsUnique(b, start, offset - 1);
  }

  /** The end of a property's value; the sum of length and offset wraps. */
  lemma PropEnd(offset: nat, len: U32)
    requires offset <= INT_MAX - V17_SIZE
    ensures var sum := Wrap32(len + offset);
      (INT_MAX <= sum || sum < offset) <==> offset + len >= INT_MAX
  {
    Wrap32Once(len + offset);
  }

  /** The end of the property at `start` as the source computes it, which may wrap. */
  method SkipProp(f: Fdt, start: I32) returns (found: bool, offset: I32)
    requires Checked(f) && 0 <= start && start + 4 <= |Block(f)|
    ensures found ==> start + 8 <= |Block(f)|
    ensures var b := Block(f);
      !found ==> start + 8 > |b| || start + 12 + Load32(b, start + 4) > |b|
    ensures var b := Block(f);
      found ==> (start + Wrap32(offset - start) <= |b| <==> start + 12 + Load32(b, start + 4) <= |b|)
    ensures var b := Block(f);
      found && start + 12 + Load32(b, start + 4) <= |b| ==> offset == start + 12 + Load32(b, start + 4)
  {
    hide Load32;
    hide OffsetPtr;
    offset := start + 4;
    OffsetPtrIsInBlock(f, offset, 4);
    found := OffsetPtr(f, offset, 4);
    if found {
      WordOfBlock(f, offset);
      var len := WordOf(f, offset);
      var sum := Wrap32(len + offset);
      PropEnd(offset, len);
      found := !(INT_MAX <= sum || sum < offset);
      if found {
        offset := ToInt(Wrap32(offset + 8 + len));
        PropSpan(Block(f), start, len, offset);
      }
    }
  }

  /** fdt_next_tag. */
  method NextTagAt(f: Fdt, startoffset: I32) returns (tag: U32, nextoffset: I32)
    requires Checked(f)
    ensures (tag, nextoffset) == NextTag(Block(f), startoffset)
  {
    hide Load32;
    hide OffsetPtr;
    tag, nextoffset := FDT_END, TRUNCATED;
    OffsetPtrIsInBlock(f, startoffset, 4);
    if !OffsetPtr(f, startoffset, 4) { return; }
    WordOfBlock(f, startoffset);
    var t := WordOf(f, startoffset);
    var offset: I32 := startoffset + 4;
    nextoffset := BADSTRUCTURE;
    if t == FDT_BEGIN_NODE {
      var found, o := SkipName(f, offset);
      if !found { return; }
      offset := o;
    } else if t == FDT_PROP {
      var found, o := SkipProp(f, startoffset);
      if !found { return; }
      offset := o;
    } else if t != FDT_END && t != FDT_END_NODE && t != FDT_NOP {
      return;
    }
    OffsetPtrIsInBlock(f, startoffset, Wrap32(offset - startoffset));
    if !OffsetPtr(f, startoffset, Wrap32(offset - startoffset)) { return; }
    tag, nextoffset := t, Align(offset);
  }

  /** Whether a property lies in the block survives the wrap of its end. */
  lemma PropSpan(b: seq<Byte>, start: nat, len: U32, offset: I32)
    requires |b| <= INT_MAX - V17_SIZE && start + 8 <= |b| && start + 4 + len < INT_MAX
    requires offset == ToInt(Wrap32(start + 12 + len))
    ensures start + Wrap32(offset - start) <= |b| <==> start + 12 + len <= |b|
    ensures start + 12 + len <= |b| ==> offset == start + 12 + len
  {
    Wrap32Once(start + 12 + len);
    if start + 12 + len > INT_MAX {
      assert Wrap32(offset - start) == 12 + len by { WrapBack(offset - start); }
    }
  }

  lemma WrapBack(x: int)
    requires -TWO_TO_THE_32 <= x < 0
    ensures Wrap32(x) == x + TWO_TO_THE_32
  {
  }

  /** fdt_check_node_offset_. */
  method CheckNodeOffsetAt(f: Fdt, offset: I32) returns (r: I32)
    requires Checked(f)
    ensures r == CheckNodeOffset(Block(f), offset)
  {
    if offset < 0 || offset % 4 != 0 { return BADOFFSET; }
    var tag, next := NextTagAt(f, offset);
    if tag != FDT_BEGIN_NODE { return BADOFFSET; }
    return next;
  }

  // ---------------------------------------------------------------- nodes

  /** fdt_next_node; without a depth pointer (`tracked` false) the depth is left alone. */
  method NextNodeAt(f: Fdt, start: I32, tracked: bool, startDepth: int) returns (r: I32, depth: int)
    requires Checked(f)
    ensures (r, depth) == NextNode(Block(f), start, tracked, startDepth)
  {
    ghost var b := Block(f);
    var nextoffset: I32 := 0;
    depth := startDepth;
    if start >= 0 {
      nextoffset := CheckNodeOffsetAt(f, start);
      if nextoffset < 0 { return nextoffset, depth; }
    }
    while true
      invariant 0 <= nextoffset < |b| + 4 || nextoffset == 0
      invariant NextNode(b, start, tracked, startDepth) == ScanNode(b, nextoffset, tracked, depth)
      decreases |b| + 4 - nextoffset
    {
      var offset := nextoffset;
      var tag;
      tag, nextoffset := NextTagAt(f, offset);
      if tag == FDT_BEGIN_NODE {
        if tracked { depth := depth + 1; }
        return offset, depth;
      } else if tag == FDT_END_NODE {
        if tracked {
          depth := depth - 1;
          if depth < 0 { return nextoffset, depth; }
        }
      } else if tag == FDT_END {
        if nextoffset >= 0 || (nextoffset == TRUNCATED && !tracked) { return NOTFOUND, depth; }
        return nextoffset, depth;
      }
    }
  }

  /** fdt_first_subnode. */
  method FirstSubnodeAt(f: Fdt, offset: I32) returns (r: I32)
    requires Checked(f)
    ensures r == FirstSubnode(Block(f), offset)
  {
    hide NextNode;
    var o, depth := NextNodeAt(f, offset, true, 0);
    return if o < 0 || depth != 1 then NOTFOUND else o;
  }

  /** fdt_next_subnode. */
  method NextSubnodeAt(f: Fdt, start: I32) returns (r: I32)
    requires Checked(f)
    ensures r == NextSubnode(Block(f), start)
  {
    hide NextNode;
    hide NextSubnodeFrom;
    ghost var b := Block(f);
    var offset, depth := start, 1;
    while true
      invariant NextSubnode(b, start) == NextSubnodeFrom(b, offset, depth)
      invariant offset == start || start < offset < |b| + 4
      decreases offset == start, |b| + 4 - offset
    {
      var o, d := NextNodeAt(f, offset, true, depth);
      NextSubnodeStep(b, offset, depth, o, d);
      if o < 0 || d < 1 { return NOTFOUND; }
      offset, depth := o, d;
      if depth <= 1 { return offset; }
    }
  }

  // ---------------------------------------------------------------- ancestors

  /** fdt_supernode_atdepth_offset; `nodedepth` is 0 where the source does not write it. */
  method SupernodeAtDepth(f: Fdt, nodeoffset: I32, supernodedepth: int) returns (r: I32, nodedepth: int)
    requires Checked(f)
    ensures RoProbe(f) < 0 ==> r == RoProbe(f)
    ensures RoProbe(f) >= 0 ==> r == Supernode(Block(f), nodeoffset, supernodedepth).0
    ensures RoProbe(f) >= 0 && (r >= 0 || r == NOTFOUND) && supernodedepth >= 0 ==>
      nodedepth == Supernode(Block(f), nodeoffset, supernodedepth).1
  {
    hide NextNode;
    hide SupernodeFrom;
    ghost var b := Block(f);
    nodedepth := 0;
    if RoProbe(f) < 0 { return RoProbe(f), 0; }
    if supernodedepth < 0 { return NOTFOUND, 0; }
    var supernodeoffset: I32 := INTERNAL;
    var offset: I32, depth := 0, 0;
    while offset >= 0 && offset <= nodeoffset
      invariant Supernode(b, nodeoffset, supernodedepth) ==
                SupernodeFrom(b, offset, depth, nodeoffset, supernodedepth, supernodeoffset)
      invariant offset < |b| + 4
      decreases offset >= 0, |b| + 4 - offset
    {
      ghost var before := supernodeoffset;
      if depth == supernodedepth { supernodeoffset := offset; }
      if offset == nodeoffset {
        nodedepth := depth;
        var (o, d) := NextNode(b, offset, true, depth);
        SupernodeStep(b, offset, depth, nodeoffset, supernodedepth, before, o, d);
        if supernodedepth > depth { return NOTFOUND, depth; }
        return supernodeoffset, depth;
      }
      var o, d := NextNodeAt(f, offset, true, depth);
      SupernodeStep(b, offset, depth, nodeoffset, supernodedepth, before, o, d);
      offset, depth := o, d;
    }
    SupernodeEnds(b, offset, depth, nodeoffset, supernodedepth, supernodeoffset);
    nodedepth := depth;
    if offset == NOTFOUND || offset >= 0 { return BADOFFSET, depth; }
    if offset == BADOFFSET { return BADSTRUCTURE, depth; }
    return offset, depth;
  }

  lemma SupernodeEnds(b: seq<Byte>, off: int, depth: int, target: int, sd: int, acc: int)
    requires |b| <= INT_MAX && (off < 0 || off > target)
    ensures SupernodeFrom(b, off, depth, target, sd, acc) ==
      (if off == NOTFOUND || off >= 0 then BADOFFSET else if off == BADOFFSET then BADSTRUCTURE else off, depth)
  {
  }

  /** fdt_node_depth. */
  method NodeDepthOf(f: Fdt, nodeoffset: I32) returns (r: int)
    requires Checked(f)
    ensures r == if RoProbe(f) < 0 then RoProbe(f) else NodeDepth(Block(f), nodeoffset)
  {
    hide SupernodeFrom;
    var err, depth := SupernodeAtDepth(f, nodeoffset, 0);
    if err != 0 { return if err < 0 then err else INTERNAL; }
    return depth;
  }

  /** fdt_parent_offset. */
  method ParentOf(f: Fdt, nodeoffset: I32) returns (r: int)
    requires Checked(f)
    ensures r == if RoProbe(f) < 0 then RoProbe(f) else ParentOffset(Block(f), nodeoffset)
  {
    hide SupernodeFrom;
    var depth := NodeDepthOf(f, nodeoffset);
    if depth < 0 { return depth; }
    var o, d := SupernodeAtDepth(f, nodeoffset, depth - 1);
    return o;
  }
}
