/** The flattened device tree blob: header, blocks and error codes (Devicetree Specification
    v0.4, sections 5.2 to 5.5), in the reader's own 32-bit arithmetic. */
module FdtFormat {
  import opened Bytes

  const TWO_TO_THE_32: int := 0x1_0000_0000
  const INT_MAX: int := 0x7fff_ffff

  type U32 = x: int | 0 <= x < TWO_TO_THE_32
  type I32 = x: int | -INT_MAX - 1 <= x <= INT_MAX

  const NOTFOUND: int := -1
  const NOSPACE: int := -3
  const BADOFFSET: int := -4
  const BADPATH: int := -5
  const TRUNCATED: int := -8
  const BADMAGIC: int := -9
  const BADVERSION: int := -10
  const BADSTRUCTURE: int := -11
  const INTERNAL: int := -13
  const BADVALUE: int := -15
  const ALIGNMENT: int := -19

  const FDT_MAGIC: int := 0xd00dfeed
  const FDT_BEGIN_NODE: int := 1
  const FDT_END_NODE: int := 2
  const FDT_PROP: int := 3
  const FDT_NOP: int := 4
  const FDT_END: int := 9

  const V1_SIZE: int := 28
  const V17_SIZE: int := 40

  // ---------------------------------------------------------------- machine arithmetic

  function Wrap32(x: int): U32 {
    x % TWO_TO_THE_32
  }

  /** The int that has the same 32 bits. */
  function ToInt(u: U32): I32 {
    if u <= INT_MAX then u else u - TWO_TO_THE_32
  }

  /** A big-endian 32-bit word. */
  function Load32(b: seq<Byte>, off: nat): (u: U32)
    requires off + 4 <= |b|
  {
    var b0: int, b1: int, b2: int, b3: int := b[off], b[off + 1], b[off + 2], b[off + 3];
    0x100_0000 * b0 + 0x1_0000 * b1 + 0x100 * b2 + b3
  }

  function Store32(u: U32): (b: seq<Byte>)
    ensures |b| == 4
  {
    [u / 0x100_0000, u / 0x1_0000 % 256, u / 256 % 256, u % 256]
  }

  /** Dividing by 256 again and again drops one digit after the other. */
  lemma DropDigits(u: nat)
    ensures u / 0x1_0000 == u / 256 / 256 && u / 0x100_0000 == u / 0x1_0000 / 256
  {
  }

  lemma LoadStored(u: U32)
    ensures Load32(Store32(u), 0) == u
  {
    DropDigits(u);
  }

  /** FDT_TAGALIGN. */
  function Align(x: nat): (r: nat)
    ensures x <= r < x + 4 && r % 4 == 0
  {
    (x + 3) / 4 * 4
  }

  // ---------------------------------------------------------------- the blob

  /** The memory a blob pointer gives access to, and whether the pointer is 8-byte aligned. */
  datatype Fdt = Fdt(mem: seq<Byte>, aligned: bool) {
    /** Enough memory to hold a version 17 header. */
    predicate HasHeader() { V17_SIZE <= |mem| }

    function Field(off: nat): U32
      requires HasHeader() && off <= 36
    {
      Load32(mem, off)
    }

    function Magic(): U32 requires HasHeader() { Field(0) }
    function TotalSize(): U32 requires HasHeader() { Field(4) }
    function OffStruct(): U32 requires HasHeader() { Field(8) }
    function OffStrings(): U32 requires HasHeader() { Field(12) }
    function OffRsvmap(): U32 requires HasHeader() { Field(16) }
    function Version(): U32 requires HasHeader() { Field(20) }
    function LastCompVersion(): U32 requires HasHeader() { Field(24) }
    function SizeStrings(): U32 requires HasHeader() { Field(32) }
    function SizeStruct(): U32 requires HasHeader() { Field(36) }
  }

  /** The header's fields, four bytes each, in the order of the Devicetree Specification v0.4,
      section 5.2. */
  lemma HeaderLayout(f: Fdt)
    requires f.HasHeader()
    ensures f.mem[..4] == Store32(f.Magic()) && f.mem[4..8] == Store32(f.TotalSize())
    ensures f.mem[8..12] == Store32(f.OffStruct()) && f.mem[12..16] == Store32(f.OffStrings())
    ensures f.mem[16..20] == Store32(f.OffRsvmap()) && f.mem[20..24] == Store32(f.Version())
    ensures f.mem[24..28] == Store32(f.LastCompVersion())
    ensures f.mem[32..36] == Store32(f.SizeStrings()) && f.mem[36..40] == Store32(f.SizeStruct())
  {
    LoadIsBigEndian(f.mem, 0, f.Magic());
    LoadIsBigEndian(f.mem, 4, f.TotalSize());
    LoadIsBigEndian(f.mem, 8, f.OffStruct());
    LoadIsBigEndian(f.mem, 12, f.OffStrings());
    LoadIsBigEndian(f.mem, 16, f.OffRsvmap());
    LoadIsBigEndian(f.mem, 20, f.Version());
    LoadIsBigEndian(f.mem, 24, f.LastCompVersion());
    LoadIsBigEndian(f.mem, 32, f.SizeStrings());
    LoadIsBigEndian(f.mem, 36, f.SizeStruct());
    hide Load32;
    hide Store32;
    assert f.mem[0..4] == f.mem[..4];
  }

  /** fdt_header_size_. */
  function HeaderSize(version: U32): nat {
    if version <= 1 then V1_SIZE else if version <= 2 then 32 else if version <= 16 then 36 else V17_SIZE
  }

  predicate CheckOff(hdr: nat, total: U32, off: U32) {
    hdr <= off <= total
  }

  /** check_block_, with the end computed in 32 bits. */
  predicate CheckBlock(hdr: nat, total: U32, base: U32, size: U32) {
    && CheckOff(hdr, total, base)
    && Wrap32(base + size) >= base
    && CheckOff(hdr, total, Wrap32(base + size))
  }

  /** fdt_check_header. */
  function CheckHeader(f: Fdt): int
    requires f.HasHeader()
  {
    if !f.aligned then ALIGNMENT
    else if f.Magic() != FDT_MAGIC then BADMAGIC
    else if f.Version() < 2 || f.LastCompVersion() > 17 then BADVERSION
    else if f.Version() < f.LastCompVersion() then BADVERSION
    else
      var hdr := HeaderSize(f.Version());
      if f.TotalSize() < hdr || f.TotalSize() > INT_MAX then TRUNCATED
      else if !CheckOff(hdr, f.TotalSize(), f.OffRsvmap()) then TRUNCATED
      else if !(if f.Version() < 17 then CheckOff(hdr, f.TotalSize(), f.OffStruct())
                else CheckBlock(hdr, f.TotalSize(), f.OffStruct(), f.SizeStruct())) then TRUNCATED
      else if !CheckBlock(hdr, f.TotalSize(), f.OffStrings(), f.SizeStrings()) then TRUNCATED
      else 0
  }

  /** The versions the reader knows. */
  predicate KnownVersion(f: Fdt)
    requires f.HasHeader()
  {
    2 <= f.Version() && f.LastCompVersion() <= 17 && f.LastCompVersion() <= f.Version()
  }

  /** Header and blocks lie inside the total size, which a signed int can hold; before version 17 the
      header does not give the size of the structure block. */
  predicate BlocksFit(f: Fdt)
    requires f.HasHeader()
  {
    var v, total := f.Version(), f.TotalSize();
    var hdr := if v == 2 then 32 else if v < 17 then 36 else 40;
    && hdr <= total <= 0x7fff_ffff
    && hdr <= f.OffRsvmap() <= total
    && hdr <= f.OffStruct() && f.OffStruct() + (if v < 17 then 0 else f.SizeStruct()) <= total
    && hdr <= f.OffStrings() && f.OffStrings() + f.SizeStrings() <= total
  }

  /** What a good header is: an aligned pointer, the magic bytes, a known version, blocks that fit. */
  predicate GoodHeader(f: Fdt)
    requires f.HasHeader()
  {
    f.aligned && f.mem[..4] == [0xd0, 0x0d, 0xfe, 0xed] && KnownVersion(f) && BlocksFit(f)
  }

  /** fdt_check_header accepts exactly the good headers, in spite of the wrapping sums, and each error
      has its own guard: the first thing that is wrong. */
  lemma HeaderAnswers(f: Fdt)
    requires f.HasHeader()
    ensures CheckHeader(f) == 0 <==> GoodHeader(f)
    ensures CheckHeader(f) == -19 <==> !f.aligned
    ensures CheckHeader(f) == -9 <==> f.aligned && f.mem[..4] != [0xd0, 0x0d, 0xfe, 0xed]
    ensures CheckHeader(f) == -10 <==> f.aligned && f.mem[..4] == [0xd0, 0x0d, 0xfe, 0xed] && !KnownVersion(f)
    ensures CheckHeader(f) == -8 <==>
              f.aligned && f.mem[..4] == [0xd0, 0x0d, 0xfe, 0xed] && KnownVersion(f) && !BlocksFit(f)
    ensures GoodHeader(f) ==> RoProbe(f) == if f.TotalSize() == 0x7fff_ffff then -8 else f.TotalSize()
  {
    MagicBytes(f.mem);
    hide Load32;
    BlockFits(HeaderSize(f.Version()), f.TotalSize(), f.OffStruct(), f.SizeStruct());
    BlockFits(HeaderSize(f.Version()), f.TotalSize(), f.OffStrings(), f.SizeStrings());
    hide CheckBlock;
  }

  lemma MagicBytes(b: seq<Byte>)
    requires 4 <= |b|
    ensures Load32(b, 0) == FDT_MAGIC <==> b[..4] == [0xd0, 0x0d, 0xfe, 0xed]
  {
    LoadIsBigEndian(b, 0, 0xd00dfeed);
    assert b[0..4] == b[..4];
  }

  /** A word read from memory is u exactly when its four bytes are u's, most significant first. */
  lemma LoadIsBigEndian(b: seq<Byte>, off: nat, u: U32)
    requires off + 4 <= |b|
    ensures Load32(b, off) == u <==> b[off..off + 4] == Store32(u)
  {
    var b0: int, b1: int, b2: int, b3: int := b[off], b[off + 1], b[off + 2], b[off + 3];
    assert b[off..off + 4] == [b[off], b[off + 1], b[off + 2], b[off + 3]];
    LoadStored(u);
    Digits(b0, b1, b2, b3);
  }

  lemma Digits(b0: Byte, b1: Byte, b2: Byte, b3: Byte)
    ensures Store32(Load32([b0, b1, b2, b3], 0)) == [b0, b1, b2, b3]
  {
    var u: int := Load32([b0, b1, b2, b3], 0);
    assert u / 0x100_0000 == b0;
    assert u / 0x1_0000 == 0x100 * b0 + b1;
    assert u / 0x100 == 0x1_0000 * b0 + 0x100 * b1 + b2;
  }

  lemma BlockFits(hdr: nat, total: U32, base: U32, size: U32)
    ensures CheckBlock(hdr, total, base, size) && total <= INT_MAX <==>
            hdr <= base && base + size <= total && total <= INT_MAX
  {
    Wrap32Once(base + size);
  }

  /** fdt_ro_probe_ accepts whatever fdt_check_header accepts, short of the largest size. */
  function RoProbe(f: Fdt): int
    requires f.HasHeader()
  {
    if !f.aligned then ALIGNMENT
    else if f.Magic() != FDT_MAGIC then BADMAGIC
    else if f.Version() < 2 || f.LastCompVersion() > 17 then BADVERSION
    else if f.TotalSize() < INT_MAX then f.TotalSize() else TRUNCATED
  }

  /** A version 17 blob that passed the header check and lies in accessible memory. */
  predicate Checked(f: Fdt) {
    f.HasHeader() && CheckHeader(f) == 0 && f.Version() >= 17 && f.TotalSize() <= |f.mem|
  }

  lemma BlockInBlob(total: U32, base: U32, size: U32)
    requires CheckBlock(V17_SIZE, total, base, size) && total <= INT_MAX
    ensures V17_SIZE <= base && base + size <= total
  {
    Wrap32Once(base + size);
  }

  lemma CheckedBounds(f: Fdt)
    requires Checked(f)
    ensures V17_SIZE <= f.OffStruct() && f.OffStruct() + f.SizeStruct() <= f.TotalSize() <= |f.mem|
    ensures V17_SIZE <= f.OffStrings() && f.OffStrings() + f.SizeStrings() <= f.TotalSize() <= INT_MAX
  {
    BlockInBlob(f.TotalSize(), f.OffStruct(), f.SizeStruct());
    BlockInBlob(f.TotalSize(), f.OffStrings(), f.SizeStrings());
  }

  /** The structure block. */
  function Block(f: Fdt): (b: seq<Byte>)
    requires Checked(f)
    ensures |b| == f.SizeStruct() && |b| <= INT_MAX - V17_SIZE
  {
    CheckedBounds(f);
    f.mem[f.OffStruct()..f.OffStruct() + f.SizeStruct()]
  }

  /** The strings block. */
  function Strings(f: Fdt): (b: seq<Byte>)
    requires Checked(f)
    ensures |b| == f.SizeStrings() && |b| <= INT_MAX - V17_SIZE
  {
    CheckedBounds(f);
    f.mem[f.OffStrings()..f.OffStrings() + f.SizeStrings()]
  }

  /** fdt_offset_ptr gives a pointer, not NULL. */
  predicate OffsetPtr(f: Fdt, offset: I32, len: U32)
    requires f.HasHeader()
  {
    var uoffset := Wrap32(offset);
    var absoffset := Wrap32(offset + f.OffStruct());
    && offset >= 0
    && !(absoffset < uoffset)
    && !(Wrap32(absoffset + len) < absoffset)
    && Wrap32(absoffset + len) <= f.TotalSize()
    && (f.Version() >= 17 ==> !(Wrap32(uoffset + len) < uoffset) && Wrap32(offset + len) <= f.SizeStruct())
  }

  /** On a checked blob the wrapping tests amount to lying inside the structure block. */
  lemma OffsetPtrIsInBlock(f: Fdt, offset: I32, len: U32)
    requires Checked(f)
    ensures OffsetPtr(f, offset, len) <==> 0 <= offset && offset + len <= |Block(f)|
  {
    CheckedBounds(f);
    if offset >= 0 {
      Wrap32Once(offset);
      Wrap32Once(offset + f.OffStruct());
      Wrap32Once(offset + len);
      Wrap32Once(offset + f.OffStruct() + len);
    }
  }

  lemma Wrap32Once(x: int)
    requires 0 <= x < 2 * TWO_TO_THE_32
    ensures Wrap32(x) == if x < TWO_TO_THE_32 then x else x - TWO_TO_THE_32
  {
  }

  // ---------------------------------------------------------------- tags

  /** The first zero byte at or after i, or |b|. */
  function Terminator(b: seq<Byte>, i: nat): (e: nat)
    requires i <= |b|
    ensures i <= e <= |b| && (e < |b| ==> b[e] == 0) && forall k :: i <= k < e ==> b[k] != 0
    decreases |b| - i
  {
    if i == |b| || b[i] == 0 then i else Terminator(b, i + 1)
  }

  lemma {:induction false} TerminatorIsUnique(b: seq<Byte>, i: nat, e: nat)
    requires i <= e <= |b| && (forall k :: i <= k < e ==> b[k] != 0) && (e < |b| ==> b[e] == 0)
    ensures Terminator(b, i) == e
    decreases e - i
  {
    if i < e { TerminatorIsUnique(b, i + 1, e); }
  }

  /** What fdt_next_tag returns for the tag at `off` in structure block b: the tag and the offset
      of the next one, or FDT_END and an error. */
  function NextTag(b: seq<Byte>, off: int): (r: (int, int))
    ensures r.1 >= 0 ==> 0 <= off && off + 4 <= |b| && off + 4 <= r.1 && r.1 % 4 == 0 && r.1 < |b| + 4
    ensures r.1 < 0 ==> r.0 == FDT_END && (r.1 == TRUNCATED || r.1 == BADSTRUCTURE)
    ensures r.0 in {FDT_BEGIN_NODE, FDT_END_NODE, FDT_PROP, FDT_NOP, FDT_END}
  {
    if off < 0 || off + 4 > |b| then (FDT_END, TRUNCATED)
    else
      var tag := Load32(b, off);
      if tag == FDT_BEGIN_NODE then
        var e := Terminator(b, off + 4);
        if e == |b| then (FDT_END, BADSTRUCTURE) else (tag, Align(e + 1))
      else if tag == FDT_PROP then
        if off + 8 > |b| || off + 12 + Load32(b, off + 4) > |b| then (FDT_END, BADSTRUCTURE)
        else (tag, Align(off + 12 + Load32(b, off + 4)))
      else if tag == FDT_END || tag == FDT_END_NODE || tag == FDT_NOP then (tag, Align(off + 4))
      else (FDT_END, BADSTRUCTURE)
  }

  // ---------------------------------------------------------------- strings

  datatype Text = Str(chars: seq<Byte>) | NoStr(err: int)

  /** The text at `off` in the strings block: up to the next zero byte, which must exist. */
  function StringAt(strings: seq<Byte>, off: int): Text {
    if off < 0 || off >= |strings| then NoStr(BADOFFSET)
    else
      var e := Terminator(strings, off);
      if e == |strings| then NoStr(TRUNCATED) else Str(strings[off..e])
  }

  predicate IsName(name: seq<Byte>) {
    forall k :: 0 <= k < |name| ==> name[k] != 0
  }

  /** The text t is written at `off`, with its terminating zero byte. */
  predicate Spelled(b: seq<Byte>, off: int, t: seq<Byte>) {
    0 <= off && IsName(t) && off + |t| < |b| && b[off..off + |t|] == t && b[off + |t|] == 0
  }

  /** Some zero byte stands at or after `off`. */
  predicate Terminated(b: seq<Byte>, off: int) {
    0 <= off && exists e :: off <= e < |b| && b[e] == 0
  }

  /** An offset denotes exactly the text that is written there. */
  lemma StringIsSpelled(strings: seq<Byte>, off: int, t: seq<Byte>)
    ensures StringAt(strings, off) == Str(t) <==> Spelled(strings, off, t)
  {
    if Spelled(strings, off, t) {
      assert forall k :: off <= k < off + |t| ==> strings[k] == t[k - off];
      TerminatorIsUnique(strings, off, off + |t|);
    }
  }

  /** It denotes some text exactly when that text is terminated; otherwise the error says whether the
      offset lies outside the block. */
  lemma StringOrError(strings: seq<Byte>, off: int)
    ensures StringAt(strings, off).Str? <==> Terminated(strings, off)
    ensures StringAt(strings, off).NoStr? ==>
              StringAt(strings, off).err == if 0 <= off < |strings| then -8 else -4
  {
  }
}
