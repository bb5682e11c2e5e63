/** The reader's remaining loops: properties, string lists, compatible nodes, and the full check.
    Each is proved to compute the function that specifies it. */
module FdtLookups {
  import opened Bytes
  import opened FdtFormat
  import opened FdtTokens
  import opened FdtWalk
  import opened FdtPath
  import opened FdtProps
  import opened FdtLists
  import opened FdtCompatible
  import opened FdtCheck
  import opened FdtReader
  import opened FdtQueries

  // ---------------------------------------------------------------- properties

  /** The strings block as far as it can be read: not at all if the probe fails. */
  function ReadableStrings(f: Fdt): seq<Byte>
    requires Checked(f)
  {
    if RoProbe(f) < 0 then [] else Strings(f)
  }

  /** nextprop_. */
  method NextPropAt(f: Fdt, start: I32) returns (r: I32)
    requires Checked(f)
    ensures r == NextProp(Block(f), start)
  {
    ghost var b := Block(f);
    var offset := start;
    while true
      invariant NextProp(b, start) == NextProp(b, offset)
      invariant offset == start || start < offset < |b| + 4
      decreases offset == start, |b| + 4 - offset
    {
      var tag, nextoffset := NextTagAt(f, offset);
      if tag == FDT_END { return if nextoffset >= 0 then BADSTRUCTURE else nextoffset; }
      if tag == FDT_PROP { return offset; }
      if tag != FDT_NOP { return NOTFOUND; }
      offset := nextoffset;
    }
  }

  /** fdt_check_prop_offset_. */
  method CheckPropOffsetAt(f: Fdt, offset: I32) returns (r: I32)
    requires Checked(f)
    ensures r == CheckPropOffset(Block(f), offset)
  {
    if offset < 0 || offset % 4 != 0 { return BADOFFSET; }
    var tag, next := NextTagAt(f, offset);
    if tag != FDT_PROP { return BADOFFSET; }
    return next;
  }

  /** fdt_first_property_offset. */
  method FirstPropertyAt(f: Fdt, nodeoffset: I32) returns (r: I32)
    requires Checked(f)
    ensures r == FirstProperty(Block(f), nodeoffset)
  {
    var offset := CheckNodeOffsetAt(f, nodeoffset);
    if offset < 0 { return offset; }
    r := NextPropAt(f, offset);
  }

  /** fdt_next_property_offset. */
  method NextPropertyAt(f: Fdt, start: I32) returns (r: I32)
    requires Checked(f)
    ensures r == NextProperty(Block(f), start)
  {
    var offset := CheckPropOffsetAt(f, start);
    if offset < 0 { return offset; }
    r := NextPropAt(f, offset);
  }

  lemma PropertyRound(b: seq<Byte>, strings: seq<Byte>, off: int, name: seq<Byte>)
    requires CheckPropOffset(b, off) >= 0
    ensures PropertyFrom(b, strings, off, name) ==
      if StringEq(strings, ToInt(Load32(b, off + 8)), name) then Found(off, ValueAt(b, off))
      else PropertyFrom(b, strings, NextProperty(b, off), name)
  {
  }

  lemma PropertyEnds(b: seq<Byte>, strings: seq<Byte>, off: int, name: seq<Byte>)
    requires off < 0
    ensures PropertyFrom(b, strings, off, name) == Missing(off)
  {
  }

  /** Where nextprop_ finds a property, one can be read. */
  lemma NextPropIsProp(b: seq<Byte>, off: int)
    requires off % 4 == 0 && NextProp(b, off) >= 0
    ensures CheckPropOffset(b, NextProp(b, off)) >= 0
  {
    var r := NextProp(b, off);
    assert NextTag(b, r).0 == FDT_PROP;
  }

  lemma FirstPropIsProp(b: seq<Byte>, node: int)
    ensures FirstProperty(b, node) >= 0 ==> CheckPropOffset(b, FirstProperty(b, node)) >= 0
  {
    if FirstProperty(b, node) >= 0 { NextPropIsProp(b, CheckNodeOffset(b, node)); }
  }

  lemma LaterPropIsProp(b: seq<Byte>, off: int)
    ensures NextProperty(b, off) >= 0 ==> CheckPropOffset(b, NextProperty(b, off)) >= 0
  {
    if NextProperty(b, off) >= 0 { NextPropIsProp(b, CheckPropOffset(b, off)); }
  }

  /** fdt_getprop_namelen: the property's offset and value, or the error. */
  method PropertyOf(f: Fdt, nodeoffset: I32, name: seq<Byte>) returns (r: Found)
    requires Checked(f)
    ensures r == GetProp(Block(f), ReadableStrings(f), nodeoffset, name)
  {
    hide PropertyFrom;
    hide FirstProperty;
    hide NextProperty;
    hide CheckPropOffset;
    ghost var b, strings := Block(f), ReadableStrings(f);
    var offset := FirstPropertyAt(f, nodeoffset);
    FirstPropIsProp(b, nodeoffset);
    while offset >= 0
      invariant GetProp(b, strings, nodeoffset, name) == PropertyFrom(b, strings, offset, name)
      invariant offset >= 0 ==> CheckPropOffset(b, offset) >= 0
      decreases offset >= 0, |b| - offset
    {
      var err := CheckPropOffsetAt(f, offset);
      PropertyRound(b, strings, offset, name);
      LaterPropIsProp(b, offset);
      WordOfBlock(f, offset + 8);
      var text := StringOf(f, ToInt(WordOf(f, offset + 8)));
      NoStrings(f, ToInt(WordOf(f, offset + 8)));
      if text == Str(name) {
        ValueInBlock(b, offset);
        WordOfBlock(f, offset + 4);
        return Found(offset, Block(f)[offset + 12..offset + 12 + WordOf(f, offset + 4)]);
      }
      offset := NextPropertyAt(f, offset);
    }
    PropertyEnds(b, strings, offset, name);
    return Missing(offset);
  }

  lemma NoStrings(f: Fdt, off: I32)
    requires Checked(f)
    ensures RoProbe(f) < 0 ==> StringAt(ReadableStrings(f), off).NoStr?
  {
  }

  lemma ValueInBlock(b: seq<Byte>, off: int)
    requires CheckPropOffset(b, off) >= 0
    ensures 0 <= off && off + 12 <= |b| && off + 12 + Load32(b, off + 4) <= |b|
  {
  }

  // ---------------------------------------------------------------- string lists

  /** The count of the list that a lookup found, or the lookup's error; and so for the others. */
  function CountIn(list: Found): int {
    if list.Missing? then list.err else CountFrom(list.value, 0)
  }

  function SearchIn(list: Found, s: seq<Byte>): int {
    if list.Missing? then list.err else SearchFrom(list.value, s, 0)
  }

  function GetIn(list: Found, idx: int): Text {
    if list.Missing? then NoStr(list.err) else GetFrom(list.value, idx)
  }

  /** fdt_stringlist_contains. */
  method ListContains(strlist: seq<Byte>, next: Byte, str: seq<Byte>) returns (r: bool)
    requires IsName(str)
    ensures r == Contains(strlist, next, str)
  {
    var list := strlist;
    while |list| >= |str|
      invariant Contains(strlist, next, str) == Contains(list, next, str)
      decreases |list|
    {
      if (list + [next])[..|str| + 1] == str + [0] { return true; }
      var p := Terminator(list, 0);
      if p == |list| { return false; }
      list := list[p + 1..];
    }
    return false;
  }

  /** fdt_stringlist_count. */
  method ListCount(f: Fdt, nodeoffset: I32, property: seq<Byte>) returns (r: int)
    requires Checked(f)
    ensures r == CountIn(GetProp(Block(f), ReadableStrings(f), nodeoffset, property))
  {
    hide GetProp;
    var prop := PropertyOf(f, nodeoffset, property);
    if prop.Missing? { return prop.err; }
    var list, count := prop.value, 0;
    while list != []
      invariant count >= 0 && CountFrom(prop.value, 0) == CountFrom(list, count)
      decreases |list|
    {
      var length := Terminator(list, 0) + 1;
      if length > |list| { return BADVALUE; }
      list, count := list[length..], count + 1;
    }
    return count;
  }

  /** fdt_stringlist_search. */
  method ListSearch(f: Fdt, nodeoffset: I32, property: seq<Byte>, str: seq<Byte>) returns (r: int)
    requires Checked(f) && IsName(str)
    ensures r == SearchIn(GetProp(Block(f), ReadableStrings(f), nodeoffset, property), str)
  {
    hide GetProp;
    var prop := PropertyOf(f, nodeoffset, property);
    if prop.Missing? { return prop.err; }
    var len := |str| + 1;
    var list, idx := prop.value, 0;
    while list != []
      invariant idx >= 0 && SearchFrom(prop.value, str, 0) == SearchFrom(list, str, idx)
      decreases |list|
    {
      var length := Terminator(list, 0) + 1;
      if length > |list| { return BADVALUE; }
      if length == len && list[..length] == str + [0] { return idx; }
      list, idx := list[length..], idx + 1;
    }
    return NOTFOUND;
  }

  /** fdt_stringlist_get. */
  method ListGet(f: Fdt, nodeoffset: I32, property: seq<Byte>, index: int) returns (r: Text)
    requires Checked(f)
    ensures r == GetIn(GetProp(Block(f), ReadableStrings(f), nodeoffset, property), index)
  {
    hide GetProp;
    var prop := PropertyOf(f, nodeoffset, property);
    if prop.Missing? { return NoStr(prop.err); }
    var list, idx := prop.value, index;
    while list != []
      invariant GetFrom(prop.value, index) == GetFrom(list, idx)
      decreases |list|
    {
      var length := Terminator(list, 0) + 1;
      if length > |list| { return NoStr(BADVALUE); }
      if idx == 0 { return Str(list[..length - 1]); }
      list, idx := list[length..], idx - 1;
    }
    return NoStr(NOTFOUND);
  }

  // ---------------------------------------------------------------- compatible nodes

  /** The accessible memory from the start of the structure block on. */
  function FromBlock(f: Fdt): (mem: seq<Byte>)
    requires Checked(f)
    ensures Block(f) <= mem
  {
    CheckedBounds(f);
    f.mem[f.OffStruct()..]
  }

  /** fdt_node_check_compatible. */
  method NodeCheckCompatible(f: Fdt, nodeoffset: I32, key: seq<Byte>) returns (r: int)
    requires Checked(f) && IsName(key)
    ensures r == CheckCompatible(Block(f), FromBlock(f), ReadableStrings(f), nodeoffset, key)
  {
    hide GetProp;
    hide Contains;
    var prop := PropertyOf(f, nodeoffset, COMPATIBLE);
    if prop.Missing? { return prop.err; }
    var found := ListContains(prop.value, ByteAt(FromBlock(f), prop.off + 12 + |prop.value|), key);
    return if found then 0 else 1;
  }

  /** fdt_node_offset_by_compatible. */
  method NodeOffsetByCompatible(f: Fdt, startoffset: I32, key: seq<Byte>) returns (r: int)
    requires Checked(f) && IsName(key)
    ensures r == if RoProbe(f) < 0 then RoProbe(f) else OffsetByCompatible(Block(f), FromBlock(f), Strings(f), startoffset, key)
  {
    hide NextNode;
    hide CheckCompatible;
    ghost var b, mem, strings := Block(f), FromBlock(f), Strings(f);
    if RoProbe(f) < 0 { return RoProbe(f); }
    var offset, d := NextNodeAt(f, startoffset, false, 0);
    while offset >= 0
      invariant OffsetByCompatible(b, mem, strings, startoffset, key) == CompatibleFrom(b, mem, strings, offset, key)
      invariant offset < |b| + 4
      decreases offset >= 0, |b| + 4 - offset
    {
      var err := NodeCheckCompatible(f, offset, key);
      if err < 0 && err != NOTFOUND { return err; }
      if err == 0 { return offset; }
      offset, d := NextNodeAt(f, offset, false, 0);
    }
    return offset;
  }

  // ---------------------------------------------------------------- the full check

  /** fdt_num_mem_rsv. */
  method NumMemRsv(f: Fdt) returns (r: int)
    requires Checked(f)
    ensures r == NumMemRsvFrom(f, 0)
  {
    hide Checked;
    hide SizeIsZero;
    CheckedBounds(f);
    var i: nat := 0;
    RsvOffsetIsEntry(f, i);
    while RsvOffset(f, i) >= 0
      invariant i <= RSV_LIMIT && NumMemRsvFrom(f, 0) == NumMemRsvFrom(f, i)
      decreases RSV_LIMIT - i
    {
      RsvOffsetIsEntry(f, i);
      if SizeIsZero(f, RsvOffset(f, i)) { return i; }
      i := i + 1;
    }
    return TRUNCATED;
  }

  /** fdt_check_full. */
  method CheckFullBlob(f: Fdt, bufsize: nat) returns (r: int)
    requires f.HasHeader() && bufsize <= |f.mem| && f.Version() >= 17
    ensures r == CheckFull(f, bufsize)
  {
    hide Load32;
    if bufsize < V1_SIZE { return TRUNCATED; }
    if bufsize < HeaderSize(f.Version()) { return TRUNCATED; }
    var err := CheckHeader(f);
    if err != 0 { return err; }
    if bufsize < f.TotalSize() { return TRUNCATED; }
    var numMemrsv := NumMemRsv(f);
    if numMemrsv < 0 { return numMemrsv; }
    r := ScanStructure(f);
  }

  lemma BeginHasName(b: seq<Byte>, off: int)
    requires off >= 0 && off % 4 == 0 && NextTag(b, off).0 == FDT_BEGIN_NODE
    ensures GetName(b, off).Str?
  {
  }

  /** The scan of the structure block. */
  method ScanStructure(f: Fdt) returns (r: int)
    requires Checked(f)
    ensures r == CheckScan(Block(f), Strings(f), RoProbe(f), 0, 0, false)
  {
    hide Load32;
    hide GetName;
    hide StringAt;
    ghost var b, strings, probe := Block(f), Strings(f), RoProbe(f);
    var nextoffset: I32, depth: nat, expectEnd := 0, 0, false;
    while true
      invariant (0 <= nextoffset < |b| + 4 || nextoffset == 0) && nextoffset % 4 == 0
      invariant CheckScan(b, strings, probe, 0, 0, false) == CheckScan(b, strings, probe, nextoffset, depth, expectEnd)
      decreases |b| + 4 - nextoffset
    {
      var offset := nextoffset;
      var tag;
      tag, nextoffset := NextTagAt(f, offset);
      if nextoffset < 0 { return nextoffset; }
      if expectEnd && tag != FDT_END { return BADSTRUCTURE; }
      if tag == FDT_END {
        return if depth != 0 then BADSTRUCTURE else 0;
      } else if tag == FDT_BEGIN_NODE {
        depth := depth + 1;
        if depth > INT_MAX { return BADSTRUCTURE; }
        if depth == 1 {
          BeginHasName(b, offset);
          var name := NameOf(f, offset);
          if name.NoStr? { return name.err; }
          if name.chars != [] { return BADSTRUCTURE; }
        }
      } else if tag == FDT_END_NODE {
        if depth == 0 { return BADSTRUCTURE; }
        depth := depth - 1;
        if depth == 0 { expectEnd := true; }
      } else if tag == FDT_PROP {
        WordOfBlock(f, offset + 8);
        var name := StringOf(f, ToInt(WordOf(f, offset + 8)));
        if name.NoStr? { return name.err; }
      }
    }
  }
}
