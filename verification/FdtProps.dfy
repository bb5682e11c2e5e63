/** Properties of a node, looked up by name. */
module FdtProps {
  import opened Bytes
  import opened FdtFormat
  import opened FdtTokens
  import opened FdtTree
  import opened FdtWalk

  // ---------------------------------------------------------------- the scans over bytes

  /** nextprop_: the next property at or after `off`, before any begin or end tag. */
  function NextProp(b: seq<Byte>, off: int): (r: int)
    ensures r >= 0 ==> off <= r && IsProp(b, r) && (off % 4 == 0 ==> r % 4 == 0)
    decreases |b| - off
  {
    var (tag, next) := NextTag(b, off);
    if tag == FDT_END then (if next >= 0 then BADSTRUCTURE else next)
    else if tag == FDT_PROP then off
    else if tag == FDT_NOP then NextProp(b, next)
    else NOTFOUND
  }

  predicate IsProp(b: seq<Byte>, off: int) {
    NextTag(b, off).0 == FDT_PROP
  }

  /** fdt_check_prop_offset_. */
  function CheckPropOffset(b: seq<Byte>, off: int): (r: int)
    ensures r >= 0 ==> 0 <= off && off + 12 <= |b| && off + 4 <= r < |b| + 4 && r % 4 == 0
    ensures r < 0 ==> r == BADOFFSET
  {
    if off < 0 || off % 4 != 0 then BADOFFSET
    else if NextTag(b, off).0 != FDT_PROP then BADOFFSET
    else NextTag(b, off).1
  }

  /** A property offset is good exactly when it is aligned and a property lies there. */
  lemma PropOffsetIsProp(b: seq<Byte>, off: int)
    ensures CheckPropOffset(b, off) >= 0 <==>
            off >= 0 && off % 4 == 0 && exists nameOff, value :: TokenAt(b, off, Prop(nameOff, value))
  {
    if CheckPropOffset(b, off) >= 0 {
      NextTagParses(b, off);
      assert TokenAt(b, off, Prop(TokenOf(b, off).nameOff, TokenOf(b, off).value));
    }
    hide TokenAt;
    if off >= 0 && off % 4 == 0 && exists nameOff, value :: TokenAt(b, off, Prop(nameOff, value)) {
      var nameOff, value :| TokenAt(b, off, Prop(nameOff, value));
      NextTagReads(b, off, Prop(nameOff, value));
    }
  }

  /** fdt_first_property_offset. */
  function FirstProperty(b: seq<Byte>, node: int): int {
    var o := CheckNodeOffset(b, node);
    if o < 0 then o else NextProp(b, o)
  }

  /** fdt_next_property_offset. */
  function NextProperty(b: seq<Byte>, off: int): (r: int)
    ensures r >= 0 ==> off < r < |b|
  {
    var o := CheckPropOffset(b, off);
    if o < 0 then o else NextProp(b, o)
  }

  /** fdt_string_eq_ on a blob that passed the probe. */
  predicate StringEq(strings: seq<Byte>, off: I32, s: seq<Byte>) {
    StringAt(strings, off) == Str(s)
  }

  datatype Found = Found(off: nat, value: seq<Byte>) | Missing(err: int)

  /** The value of the property at `off`. */
  function ValueAt(b: seq<Byte>, off: int): seq<Byte>
    requires CheckPropOffset(b, off) >= 0
  {
    b[off + 12..off + 12 + Load32(b, off + 4)]
  }

  /** The loop of fdt_get_property_namelen_ from the property at `off` on. */
  function PropertyFrom(b: seq<Byte>, strings: seq<Byte>, off: int, name: seq<Byte>): (r: Found)
    ensures r.Missing? ==> r.err < 0
    decreases off >= 0, |b| - off
  {
    if off < 0 then Missing(off)
    else if CheckPropOffset(b, off) < 0 then Missing(INTERNAL)
    else if StringEq(strings, ToInt(Load32(b, off + 8)), name) then Found(off, ValueAt(b, off))
    else PropertyFrom(b, strings, NextProperty(b, off), name)
  }

  /** fdt_getprop_namelen: the property's offset and value, or the error put into *lenp. */
  function GetProp(b: seq<Byte>, strings: seq<Byte>, node: int, name: seq<Byte>): (r: Found)
    ensures r.Missing? ==> r.err < 0
  {
    PropertyFrom(b, strings, FirstProperty(b, node), name)
  }

  // ---------------------------------------------------------------- properties in the tree

  /** Whether a property of this name offset has the name s: s is written there. */
  predicate IsNamed(strings: seq<Byte>, nameOff: U32, s: seq<Byte>) {
    Spelled(strings, ToInt(nameOff), s)
  }

  /** The offset is passed as a signed int, which makes no difference. */
  lemma NamedWhereWritten(strings: seq<Byte>, nameOff: U32, s: seq<Byte>)
    requires |strings| <= INT_MAX
    ensures IsNamed(strings, nameOff, s) <==> Spelled(strings, nameOff, s)
  {
  }

  /** The node's own first property of that name, as a token number among the items; the number of
      items' tokens if there is none. Only what stands before the first child belongs to the node. */
  function PropIndex(it: Items, strings: seq<Byte>, s: seq<Byte>): (i: nat)
    ensures i <= |ItemTokens(it)|
    ensures i < |ItemTokens(it)| ==>
      (ItemTokens(it)[i].Prop? && IsNamed(strings, ItemTokens(it)[i].nameOff, s))
    ensures forall k :: 0 <= k < i && k < Own(it) && ItemTokens(it)[k].Prop? ==>
      !IsNamed(strings, ItemTokens(it)[k].nameOff, s)
    ensures i < |ItemTokens(it)| ==> i < Own(it)
  {
    match it
    case Done => 0
    case NopItem(rest) =>
      assert forall k :: 0 < k < |ItemTokens(it)| ==> ItemTokens(it)[k] == ItemTokens(rest)[k - 1];
      1 + PropIndex(rest, strings, s)
    case PropItem(nameOff, value, rest) =>
      assert forall k :: 0 < k < |ItemTokens(it)| ==> ItemTokens(it)[k] == ItemTokens(rest)[k - 1];
      if IsNamed(strings, nameOff, s) then 0 else 1 + PropIndex(rest, strings, s)
    case Child(_, _) => |ItemTokens(it)|
  }

  /** How many tokens stand before the first child: the node's own properties and NOPs. */
  function Own(it: Items): (k: nat)
    ensures k <= |ItemTokens(it)|
  {
    match it
    case Done => 0
    case NopItem(rest) => 1 + Own(rest)
    case PropItem(_, _, rest) => 1 + Own(rest)
    case Child(_, _) => 0
  }

  /** The items start at token p, and the node's end token follows them. */
  predicate Closed(ts: seq<Token>, p: nat, it: Items) {
    Embeds(ts, p, ItemTokens(it)) && p + |ItemTokens(it)| < |ts| && ts[p + |ItemTokens(it)|] == EndNode
  }

  /** The answer of the lookup, when the items start at token p. */
  function Answer(ts: seq<Token>, p: nat, it: Items, strings: seq<Byte>, s: seq<Byte>): Found
    requires Closed(ts, p, it)
  {
    var i := PropIndex(it, strings, s);
    if i < |ItemTokens(it)| then
      EmbedsElement(ts, p, ItemTokens(it), i);
      Found(Offset(ts, p + i), ts[p + i].value)
    else Missing(NOTFOUND)
  }

  lemma PropAtToken(b: seq<Byte>, off: nat, t: Token)
    requires TokenAt(b, off, t) && off % 4 == 0 && t.Prop?
    ensures CheckPropOffset(b, off) == off + Width(t) && NextProp(b, off) == off
    ensures Load32(b, off + 8) == t.nameOff && ValueAt(b, off) == t.value
    ensures NextProperty(b, off) == NextProp(b, off + Width(t))
  {
    NextTagReads(b, off, t);
  }

  lemma NopAtToken(b: seq<Byte>, off: nat)
    requires TokenAt(b, off, Nop) && off % 4 == 0
    ensures NextProp(b, off) == NextProp(b, off + 4)
  {
    NextTagReads(b, off, Nop);
  }

  lemma NoPropAtToken(b: seq<Byte>, off: nat, t: Token)
    requires TokenAt(b, off, t) && off % 4 == 0 && (t.Begin? || t.EndNode?)
    ensures NextProp(b, off) == NOTFOUND
  {
    NextTagReads(b, off, t);
  }

  lemma PropertyStep(b: seq<Byte>, strings: seq<Byte>, off: nat, t: Token, s: seq<Byte>)
    requires TokenAt(b, off, t) && off % 4 == 0 && t.Prop?
    ensures PropertyFrom(b, strings, off, s) ==
            if IsNamed(strings, t.nameOff, s) then Found(off, t.value)
            else PropertyFrom(b, strings, NextProp(b, off + Width(t)), s)
  {
    PropAtToken(b, off, t);
    StringIsSpelled(strings, ToInt(t.nameOff), s);
  }

  /** The first token of the items, and the items after it. */
  lemma ClosedHead(ts: seq<Token>, p: nat, it: Items)
    requires Closed(ts, p, it)
    ensures p < |ts| && match it
      case Done => ts[p] == EndNode
      case NopItem(rest) => ts[p] == Nop && Closed(ts, p + 1, rest)
      case PropItem(o, v, rest) => ts[p] == Prop(o, v) && Closed(ts, p + 1, rest)
      case Child(node, rest) => ts[p] == Begin(node.name)
  {
    match it
    case Done =>
    case NopItem(rest) =>
      EmbedsParts(ts, p, [Nop], ItemTokens(rest));
      EmbedsElement(ts, p, [Nop], 0);
    case PropItem(o, v, rest) =>
      EmbedsParts(ts, p, [Prop(o, v)], ItemTokens(rest));
      EmbedsElement(ts, p, [Prop(o, v)], 0);
    case Child(node, rest) =>
      EmbedsParts(ts, p, NodeTokens(node), ItemTokens(rest));
      EmbedsNode(ts, p, node);
  }

  lemma AnswerHead(ts: seq<Token>, p: nat, it: Items, strings: seq<Byte>, s: seq<Byte>)
    requires Closed(ts, p, it)
    ensures match it
      case Done => Answer(ts, p, it, strings, s) == Missing(NOTFOUND)
      case NopItem(rest) => Closed(ts, p + 1, rest) && Answer(ts, p, it, strings, s) == Answer(ts, p + 1, rest, strings, s)
      case PropItem(o, v, rest) => Closed(ts, p + 1, rest) &&
        Answer(ts, p, it, strings, s) ==
          if IsNamed(strings, o, s) then Found(Offset(ts, p), v) else Answer(ts, p + 1, rest, strings, s)
      case Child(node, rest) => Answer(ts, p, it, strings, s) == Missing(NOTFOUND)
  {
    hide IsNamed;
    hide NodeTokens;
    hide Offset;
    hide Embeds;
    ClosedHead(ts, p, it);
  }

  /** From the start of the items on, the lookup finds the first property of that name. */
  lemma {:induction false} LookupItems(b: seq<Byte>, ts: seq<Token>, p: nat, it: Items, strings: seq<Byte>, s: seq<Byte>)
    requires TokensAt(b, 0, ts) && Closed(ts, p, it)
    ensures PropertyFrom(b, strings, NextProp(b, Offset(ts, p)), s) == Answer(ts, p, it, strings, s)
    decreases it
  {
    hide PropertyFrom;
    hide NextProp;
    hide Closed;
    hide Answer;
    hide TokenAt;
    hide TokensAt;
    hide IsNamed;
    ClosedHead(ts, p, it);
    AnswerHead(ts, p, it, strings, s);
    TokenInBlock(b, 0, ts, p);
    match it
    case Done =>
      NoPropAtToken(b, Offset(ts, p), ts[p]);
      NothingFound(b, strings, s);
    case NopItem(rest) =>
      NopAtToken(b, Offset(ts, p));
      LookupItems(b, ts, p + 1, rest, strings, s);
    case PropItem(o, v, rest) =>
      PropAtToken(b, Offset(ts, p), ts[p]);
      PropertyStep(b, strings, Offset(ts, p), ts[p], s);
      if !IsNamed(strings, o, s) {
        LookupItems(b, ts, p + 1, rest, strings, s);
      }
    case Child(node, rest) =>
      NoPropAtToken(b, Offset(ts, p), ts[p]);
      NothingFound(b, strings, s);
  }

  lemma NothingFound(b: seq<Byte>, strings: seq<Byte>, s: seq<Byte>)
    ensures PropertyFrom(b, strings, NOTFOUND, s) == Missing(NOTFOUND)
  {
  }

  lemma ItemsInTree(root: Node, loc: seq<nat>)
    requires IsLoc(root, loc)
    ensures var ts, p, it := TreeTokens(root), IndexOf(root, loc) + 1, At(root, loc).items;
      Closed(ts, p, it) && ts[p - 1] == Begin(At(root, loc).name)
  {
    hide TreeTokens;
    hide NodeTokens;
    LocInTree(root, loc);
    EmbedsNode(TreeTokens(root), IndexOf(root, loc), At(root, loc));
  }

  /** Property lookup gives the located node's own first property of the name, wherever NOPs stand,
      and NOTFOUND when it has none; a child's properties are never looked at. */
  lemma GetPropIsFirstOwn(b: seq<Byte>, strings: seq<Byte>, root: Node, loc: seq<nat>, s: seq<Byte>)
    requires |b| <= INT_MAX && HoldsTree(b, root) && IsLoc(root, loc)
    ensures Closed(TreeTokens(root), IndexOf(root, loc) + 1, At(root, loc).items)
    ensures GetProp(b, strings, OffsetAt(root, loc), s) ==
            Answer(TreeTokens(root), IndexOf(root, loc) + 1, At(root, loc).items, strings, s)
  {
    hide PropertyFrom;
    hide NextProp;
    hide ItemTokens;
    var ts, p := TreeTokens(root), IndexOf(root, loc) + 1;
    ItemsInTree(root, loc);
    IndexFits(root, loc);
    NodeAtVisit(b, ts, Visit(p - 1, 0, At(root, loc)));
    LookupItems(b, ts, p, At(root, loc).items, strings, s);
  }
}
