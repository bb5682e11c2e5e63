/** The structure block as a sequence of tokens (Devicetree Specification v0.4, section 5.4.1). */
module FdtTokens {
  import opened Bytes
  import opened FdtFormat

  datatype Token =
    | Begin(name: seq<Byte>)
    | EndNode
    | Prop(nameOff: U32, value: seq<Byte>)
    | Nop
    | Finish

  function TagOf(t: Token): U32 {
    match t
    case Begin(_) => FDT_BEGIN_NODE
    case EndNode => FDT_END_NODE
    case Prop(_, _) => FDT_PROP
    case Nop => FDT_NOP
    case Finish => FDT_END
  }

  /** Bytes of the token before padding. */
  function Size(t: Token): (n: nat)
    ensures n >= 4
  {
    match t
    case Begin(name) => 4 + |name| + 1
    case Prop(_, value) => 12 + |value|
    case _ => 4
  }

  function Width(t: Token): (n: nat)
    ensures n >= 4 && n % 4 == 0
  {
    Align(Size(t))
  }

  /** Token t lies at `off` in b; the padding after it may hold anything. */
  predicate TokenAt(b: seq<Byte>, off: nat, t: Token) {
    && off + Size(t) <= |b|
    && Load32(b, off) == TagOf(t)
    && match t
       case Begin(name) => IsName(name) && b[off + 4..off + 4 + |name|] == name && b[off + 4 + |name|] == 0
       case Prop(nameOff, value) =>
         Load32(b, off + 4) == |value| && Load32(b, off + 8) == nameOff && b[off + 12..off + 12 + |value|] == value
       case _ => true
  }

  /** The tokens lie one after another from `off` on, each at the next aligned offset. */
  predicate TokensAt(b: seq<Byte>, off: nat, ts: seq<Token>)
    decreases |ts|
  {
    ts == [] || (TokenAt(b, off, ts[0]) && TokensAt(b, off + Width(ts[0]), ts[1..]))
  }

  /** Where token i starts when the first starts at 0. */
  function Offset(ts: seq<Token>, i: nat): (off: nat)
    requires i <= |ts|
    ensures off % 4 == 0 && off >= 4 * i
  {
    if i == 0 then 0 else Offset(ts, i - 1) + Width(ts[i - 1])
  }

  lemma {:induction false} OffsetIncreases(ts: seq<Token>, i: nat, j: nat)
    requires i < j <= |ts|
    ensures Offset(ts, i) + 4 <= Offset(ts, j)
  {
    if i + 1 < j { OffsetIncreases(ts, i, j - 1); }
  }

  /** Offsets of tokens determine the tokens' positions. */
  lemma OffsetIsInjective(ts: seq<Token>, i: nat, j: nat)
    requires i <= |ts| && j <= |ts|
    ensures Offset(ts, i) < Offset(ts, j) <==> i < j
    ensures Offset(ts, i) == Offset(ts, j) <==> i == j
  {
    if i < j { OffsetIncreases(ts, i, j); } else if j < i { OffsetIncreases(ts, j, i); }
  }

  lemma {:induction false} OffsetOfTail(ts: seq<Token>, i: nat)
    requires ts != [] && i < |ts|
    ensures Offset(ts, i + 1) == Width(ts[0]) + Offset(ts[1..], i)
  {
    if i > 0 { OffsetOfTail(ts, i - 1); }
  }

  /** Token i of a block is where the widths of the earlier tokens put it. */
  lemma {:induction false} TokenInBlock(b: seq<Byte>, off: nat, ts: seq<Token>, i: nat)
    requires TokensAt(b, off, ts) && i < |ts|
    ensures TokenAt(b, off + Offset(ts, i), ts[i])
    decreases i
  {
    if i > 0 {
      TokenInBlock(b, off + Width(ts[0]), ts[1..], i - 1);
      OffsetOfTail(ts, i - 1);
    }
  }

  // ---------------------------------------------------------------- reading tokens

  lemma AlignShifts(off: nat, n: nat)
    requires off % 4 == 0
    ensures Align(off + n) == off + Align(n)
  {
  }

  lemma NameEnds(b: seq<Byte>, off: nat, name: seq<Byte>)
    requires TokenAt(b, off, Begin(name))
    ensures Terminator(b, off + 4) == off + 4 + |name|
  {
    var e := off + 4 + |name|;
    forall k | off + 4 <= k < e ensures b[k] != 0 {
      assert b[k] == name[k - (off + 4)];
    }
    TerminatorIsUnique(b, off + 4, e);
  }

  /** fdt_next_tag on a token gives its tag and the offset of the next token. */
  lemma NextTagReads(b: seq<Byte>, off: nat, t: Token)
    requires TokenAt(b, off, t) && off % 4 == 0
    ensures NextTag(b, off) == (TagOf(t), off + Width(t))
  {
    AlignShifts(off, Size(t));
    if t.Begin? { NameEnds(b, off, t.name); }
  }

  /** The token that lies at `off`, when fdt_next_tag reports no error. */
  function TokenOf(b: seq<Byte>, off: nat): Token
    requires NextTag(b, off).1 >= 0
  {
    var tag := Load32(b, off);
    if tag == FDT_BEGIN_NODE then Begin(b[off + 4..Terminator(b, off + 4)])
    else if tag == FDT_PROP then Prop(Load32(b, off + 8), b[off + 12..off + 12 + Load32(b, off + 4)])
    else if tag == FDT_END_NODE then EndNode
    else if tag == FDT_NOP then Nop
    else Finish
  }

  /** Whenever fdt_next_tag reports no error there is a token there. */
  lemma NextTagParses(b: seq<Byte>, off: nat)
    requires off % 4 == 0 && NextTag(b, off).1 >= 0
    ensures TokenAt(b, off, TokenOf(b, off))
    ensures NextTag(b, off) == (TagOf(TokenOf(b, off)), off + Width(TokenOf(b, off)))
  {
    var t := TokenOf(b, off);
    if t.Begin? {
      forall k | 0 <= k < |t.name| ensures t.name[k] != 0 {
        assert t.name[k] == b[off + 4 + k];
      }
    }
    NextTagReads(b, off, t);
  }

  /** Progress and bounds on a checked blob: an offset that fdt_next_tag hands on is at least 4 past
      the start and aligned, and the token it has read lies inside the structure block, which lies
      inside the blob. */
  lemma TagsStayInBounds(f: Fdt, off: I32)
    requires Checked(f)
    ensures var b := Block(f);
      NextTag(b, off).1 >= 0 ==>
        && off >= 0 && NextTag(b, off).1 >= off + 4 && NextTag(b, off).1 % 4 == 0
        && off + Size(TokenOf(b, off)) <= f.SizeStruct()
        && f.OffStruct() + off + Size(TokenOf(b, off)) <= f.TotalSize() <= |f.mem|
  {
    CheckedBounds(f);
  }

  /** fdt_next_tag goes on exactly where a token lies; before the block, or within four bytes of its
      end, it says TRUNCATED, and anywhere else BADSTRUCTURE. */
  lemma NextTagErrors(b: seq<Byte>, off: int)
    requires off % 4 == 0
    ensures NextTag(b, off).1 >= 0 <==> off >= 0 && exists t :: TokenAt(b, off, t)
    ensures NextTag(b, off).1 < 0 ==> NextTag(b, off).1 == if 0 <= off <= |b| - 4 then -11 else -8
  {
    if off >= 0 && NextTag(b, off).1 >= 0 { NextTagParses(b, off); }
    hide TokenAt;
    if off >= 0 && exists t :: TokenAt(b, off, t) {
      var t :| TokenAt(b, off, t);
      NextTagReads(b, off, t);
    }
  }

  /** How every token starts: four bytes that say what it is (section 5.4.1). */
  lemma TagBytes(b: seq<Byte>, off: nat, t: Token)
    requires TokenAt(b, off, t)
    ensures b[off..off + 4] == match t
      case Begin(_) => [0, 0, 0, 1]
      case EndNode => [0, 0, 0, 2]
      case Prop(_, _) => [0, 0, 0, 3]
      case Nop => [0, 0, 0, 4]
      case Finish => [0, 0, 0, 9]
  {
    LoadIsBigEndian(b, off, TagOf(t));
  }

  /** A property's header: the length of its value, then the offset of its name, most significant byte
      first, then the value. */
  lemma PropBytes(b: seq<Byte>, off: nat, nameOff: U32, value: seq<Byte>)
    requires off + 12 + |value| <= |b| && |value| < TWO_TO_THE_32
    ensures TokenAt(b, off, Prop(nameOff, value)) <==>
            b[off..off + 12 + |value|] == [0, 0, 0, 3] + Store32(|value|) + Store32(nameOff) + value
  {
    LoadIsBigEndian(b, off, 3);
    LoadIsBigEndian(b, off + 4, |value|);
    LoadIsBigEndian(b, off + 8, nameOff);
    assert Store32(3) == [0, 0, 0, 3];
    hide Load32;
    hide Store32;
    var p, q, r, v := b[off..off + 4], b[off + 4..off + 8], b[off + 8..off + 12], b[off + 12..off + 12 + |value|];
    assert b[off..off + 12 + |value|] == p + q + r + v;
    FourPieces(p, q, r, v, [0, 0, 0, 3], Store32(|value|), Store32(nameOff), value);
  }

  lemma FourPieces(p: seq<Byte>, q: seq<Byte>, r: seq<Byte>, v: seq<Byte>,
                   p': seq<Byte>, q': seq<Byte>, r': seq<Byte>, v': seq<Byte>)
    requires |p| == |p'| == |q| == |q'| == |r| == |r'| == 4 && |v| == |v'|
    ensures p + q + r + v == p' + q' + r' + v' <==> p == p' && q == q' && r == r' && v == v'
  {
    var s, s' := p + q + r + v, p' + q' + r' + v';
    assert s[..4] == p && s[4..8] == q && s[8..12] == r && s[12..] == v;
    assert s'[..4] == p' && s'[4..8] == q' && s'[8..12] == r' && s'[12..] == v';
  }

  // ---------------------------------------------------------------- writing tokens

  function Zeros(n: nat): (z: seq<Byte>)
    ensures |z| == n
  {
    seq(n, i => 0)
  }

  predicate Writable(t: Token) {
    match t
    case Begin(name) => IsName(name)
    case Prop(_, value) => |value| < TWO_TO_THE_32
    case _ => true
  }

  /** The token's bytes, padded with zeros. */
  function Write(t: Token): (b: seq<Byte>)
    requires Writable(t)
    ensures |b| == Width(t)
  {
    var body := match t
      case Begin(name) => Store32(TagOf(t)) + name + [0]
      case Prop(nameOff, value) => Store32(TagOf(t)) + Store32(|value|) + Store32(nameOff) + value
      case _ => Store32(TagOf(t));
    body + Zeros(Width(t) - Size(t))
  }

  function WriteAll(ts: seq<Token>): seq<Byte>
    requires forall k :: 0 <= k < |ts| ==> Writable(ts[k])
  {
    if ts == [] then [] else Write(ts[0]) + WriteAll(ts[1..])
  }

  lemma LoadAt(pre: seq<Byte>, u: U32, post: seq<Byte>)
    ensures Load32(pre + Store32(u) + post, |pre|) == u
  {
    var b := pre + Store32(u) + post;
    assert forall k :: 0 <= k < 4 ==> b[|pre| + k] == Store32(u)[k];
    LoadStored(u);
  }

  lemma WrittenBeginIsThere(pre: seq<Byte>, t: Token, post: seq<Byte>)
    requires Writable(t) && t.Begin?
    ensures TokenAt(pre + Write(t) + post, |pre|, t)
  {
    hide Load32;
    hide Store32;
    var b := pre + Write(t) + post;
    var rest := t.name + [0] + Zeros(Width(t) - Size(t)) + post;
    assert b == pre + Store32(TagOf(t)) + rest;
    LoadAt(pre, TagOf(t), rest);
  }

  lemma WrittenPropIsThere(pre: seq<Byte>, t: Token, post: seq<Byte>)
    requires Writable(t) && t.Prop?
    ensures TokenAt(pre + Write(t) + post, |pre|, t)
  {
    hide Load32;
    hide Store32;
    var b, tag, len, off := pre + Write(t) + post, Store32(TagOf(t)), Store32(|t.value|), Store32(t.nameOff);
    var rest := t.value + Zeros(Width(t) - Size(t)) + post;
    assert b == pre + tag + (len + off + rest);
    assert b == (pre + tag) + len + (off + rest);
    assert b == (pre + tag + len) + off + rest;
    LoadAt(pre, TagOf(t), len + off + rest);
    LoadAt(pre + tag, |t.value|, off + rest);
    LoadAt(pre + tag + len, t.nameOff, rest);
  }

  /** What is written reads back as the same token, wherever it is put. */
  lemma WrittenTokenIsThere(pre: seq<Byte>, t: Token, post: seq<Byte>)
    requires Writable(t)
    ensures TokenAt(pre + Write(t) + post, |pre|, t)
  {
    hide Load32;
    hide Store32;
    match t {
      case Begin(_) => WrittenBeginIsThere(pre, t, post);
      case Prop(_, _) => WrittenPropIsThere(pre, t, post);
      case _ =>
        assert pre + Write(t) + post == pre + Store32(TagOf(t)) + (Zeros(0) + post);
        LoadAt(pre, TagOf(t), Zeros(0) + post);
    }
  }

  /** Every token sequence can be written, and the block then consists of exactly these tokens. */
  lemma {:induction false} WrittenTokensAreThere(pre: seq<Byte>, ts: seq<Token>, post: seq<Byte>)
    requires forall k :: 0 <= k < |ts| ==> Writable(ts[k])
    ensures TokensAt(pre + WriteAll(ts) + post, |pre|, ts)
    decreases |ts|
  {
    hide Write;
    hide TokenAt;
    if ts != [] {
      assert pre + WriteAll(ts) + post == pre + Write(ts[0]) + (WriteAll(ts[1..]) + post);
      WrittenTokenIsThere(pre, ts[0], WriteAll(ts[1..]) + post);
      assert pre + WriteAll(ts) + post == (pre + Write(ts[0])) + WriteAll(ts[1..]) + post;
      WrittenTokensAreThere(pre + Write(ts[0]), ts[1..], post);
    }
  }
}
