/** Whole blobs: every device tree with resolvable property names can be written as a blob that the
    full check accepts and that holds exactly this tree. */
module FdtWrite {
  import opened Bytes
  import opened FdtFormat
  import opened FdtTokens
  import opened FdtTree
  import opened FdtWalk
  import opened FdtCheck

  /** Big-endian words one after another. */
  function Words(ws: seq<U32>): (b: seq<Byte>)
    ensures |b| == 4 * |ws|
  {
    if ws == [] then [] else Words(ws[..|ws| - 1]) + Store32(ws[|ws| - 1])
  }

  lemma {:induction false} WordAt(ws: seq<U32>, i: nat, post: seq<Byte>)
    requires i < |ws|
    ensures Load32(Words(ws) + post, 4 * i) == ws[i]
  {
    var front, last := ws[..|ws| - 1], ws[|ws| - 1];
    if i == |ws| - 1 {
      LoadAt(Words(front), last, post);
    } else {
      assert Words(ws) + post == Words(front) + (Store32(last) + post);
      WordAt(front, i, Store32(last) + post);
    }
  }

  /** Where the structure block goes: behind the header and one empty reservation entry. */
  const STRUCT_AT: int := 56

  predicate Fits(block: seq<Byte>, strings: seq<Byte>) {
    STRUCT_AT + |block| + |strings| < INT_MAX
  }

  /** Header, reservation block, structure block, strings block. */
  function Header(block: seq<Byte>, strings: seq<Byte>): seq<U32>
    requires Fits(block, strings)
  {
    [FDT_MAGIC, STRUCT_AT + |block| + |strings|, STRUCT_AT, STRUCT_AT + |block|, V17_SIZE, 17, 16, 0, |strings|, |block|]
  }

  function Blob(block: seq<Byte>, strings: seq<Byte>): (f: Fdt)
    requires Fits(block, strings)
    ensures |f.mem| == STRUCT_AT + |block| + |strings|
  {
    Fdt(Words(Header(block, strings)) + Zeros(16) + block + strings, true)
  }

  lemma FieldsOfBlob(block: seq<Byte>, strings: seq<Byte>)
    requires Fits(block, strings)
    ensures var f, h := Blob(block, strings), Header(block, strings);
      f.HasHeader() && forall i :: 0 <= i < 10 ==> f.Field(4 * i) == h[i]
  {
    var f, h := Blob(block, strings), Header(block, strings);
    assert f.mem == Words(h) + (Zeros(16) + block + strings);
    forall i | 0 <= i < 10 ensures f.Field(4 * i) == h[i] {
      WordAt(h, i, Zeros(16) + block + strings);
    }
  }

  /** The header fields, one by one. */
  lemma BlobHeader(block: seq<Byte>, strings: seq<Byte>)
    requires Fits(block, strings)
    ensures var f := Blob(block, strings);
      && f.HasHeader() && f.Magic() == FDT_MAGIC && f.TotalSize() == |f.mem| && f.OffStruct() == STRUCT_AT
      && f.OffStrings() == STRUCT_AT + |block| && f.OffRsvmap() == V17_SIZE && f.Version() == 17
      && f.LastCompVersion() == 16 && f.SizeStrings() == |strings| && f.SizeStruct() == |block|
  {
    hide Load32;
    FieldsOfBlob(block, strings);
    var f, h := Blob(block, strings), Header(block, strings);
    assert f.Field(4 * 0) == h[0] && f.Field(4 * 1) == h[1] && f.Field(4 * 2) == h[2] && f.Field(4 * 3) == h[3];
    assert f.Field(4 * 4) == h[4] && f.Field(4 * 5) == h[5] && f.Field(4 * 6) == h[6];
    assert f.Field(4 * 8) == h[8] && f.Field(4 * 9) == h[9];
  }

  /** The blob passes the header check and its blocks are the ones it was made of. */
  lemma BlobIsChecked(block: seq<Byte>, strings: seq<Byte>)
    requires Fits(block, strings)
    ensures var f := Blob(block, strings);
      Checked(f) && Block(f) == block && Strings(f) == strings && RoProbe(f) >= 0 && EndsRsv(f, 0)
  {
    hide Load32;
    BlobHeader(block, strings);
    var f := Blob(block, strings);
    Wrap32Once(STRUCT_AT + |block|);
    Wrap32Once(STRUCT_AT + |block| + |strings|);
    assert Checked(f);
    assert Block(f) == block;
    assert Strings(f) == strings;
    ZeroEntry(f);
  }

  lemma ZeroEntry(f: Fdt)
    requires Checked(f) && f.OffRsvmap() == V17_SIZE && STRUCT_AT <= f.TotalSize()
    requires f.mem[V17_SIZE..STRUCT_AT] == Zeros(16)
    ensures EndsRsv(f, 0)
  {
    assert forall k :: 0 <= k < 16 ==> f.mem[V17_SIZE + k] == f.mem[V17_SIZE..STRUCT_AT][k];
  }

  /** Every tree with an unnamed root, writable names and resolving property names has a blob that
      fdt_check_full accepts and that holds this tree and no other. */
  lemma WrittenBlobIsAccepted(root: Node, strings: seq<Byte>)
    requires root.name == [] && NamesResolve(root.items, strings)
    requires forall k :: 0 <= k < |TreeTokens(root)| ==> Writable(TreeTokens(root)[k])
    requires Fits(WriteAll(TreeTokens(root)), strings)
    ensures var f := Blob(WriteAll(TreeTokens(root)), strings);
      && f.HasHeader() && f.Version() >= 17 && CheckFull(f, |f.mem|) == 0
      && Checked(f) && HoldsTree(Block(f), root) && forall n: Node :: HoldsTree(Block(f), n) ==> n == root
  {
    var block := WriteAll(TreeTokens(root));
    var f := Blob(block, strings);
    BlobHeader(block, strings);
    BlobIsChecked(block, strings);
    BlockHoldsTree(root);
    hide HoldsTree;
    hide CheckFull;
    hide Checked;
    hide EndsRsv;
    hide Blob;
    TreeIsShape(block, strings, root, RoProbe(f));
    CheckedHeader(f);
    hide GoodHeader;
    hide HasShape;
    hide TreeTokens;
    assert EndsRsv(f, 0);
    CheckFullIff(f, |f.mem|);
  }

  lemma CheckedHeader(f: Fdt)
    requires Checked(f)
    ensures f.HasHeader() && CheckHeader(f) == 0 && GoodHeader(f)
  {
    HeaderAnswers(f);
  }

  lemma BlockHoldsTree(root: Node)
    requires forall k :: 0 <= k < |TreeTokens(root)| ==> Writable(TreeTokens(root)[k])
    ensures HoldsTree(WriteAll(TreeTokens(root)), root)
    ensures forall n: Node :: HoldsTree(WriteAll(TreeTokens(root)), n) ==> n == root
  {
    var block := WriteAll(TreeTokens(root));
    WrittenTokensAreThere([], TreeTokens(root), []);
    assert [] + block + [] == block;
    forall n: Node | HoldsTree(block, n) ensures n == root { AtMostOneTree(block, n, root); }
  }

  lemma TreeIsShape(b: seq<Byte>, strings: seq<Byte>, root: Node, probe: int)
    requires HoldsTree(b, root) && root.name == [] && NamesResolve(root.items, strings) && probe >= 0
    ensures HasShape(b, strings, probe)
  {
    var s := Rooted(Done, root);
    assert ShapeTokens(s) == TreeTokens(root);
    assert IsShape(s, strings, probe);
  }
}
