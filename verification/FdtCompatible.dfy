/** Finding nodes by what they are compatible with. */
module FdtCompatible {
  import opened Bytes
  import opened FdtFormat
  import opened FdtTokens
  import opened FdtTree
  import opened FdtWalk
  import opened FdtNav
  import opened FdtProps
  import opened FdtLists

  /** The property name "compatible". */
  const COMPATIBLE: seq<Byte> :=
    ['c' as int, 'o' as int, 'm' as int, 'p' as int, 'a' as int, 't' as int, 'i' as int, 'b' as int, 'l' as int, 'e' as int]

  /** The byte at `off` of the memory that starts with the structure block; behind the accessible
      memory there is none to read, and 1 stands for it. */
  function ByteAt(mem: seq<Byte>, off: int): Byte {
    if 0 <= off < |mem| then mem[off] else 1
  }

  /** fdt_node_check_compatible: 0 for compatible, 1 for not, or the lookup's error. */
  function CheckCompatible(b: seq<Byte>, mem: seq<Byte>, strings: seq<Byte>, node: int, key: seq<Byte>): int {
    match GetProp(b, strings, node, COMPATIBLE)
    case Missing(err) => err
    case Found(off, value) => if Contains(value, ByteAt(mem, off + 12 + |value|), key) then 0 else 1
  }

  /** The loop of fdt_node_offset_by_compatible. */
  function CompatibleFrom(b: seq<Byte>, mem: seq<Byte>, strings: seq<Byte>, off: int, key: seq<Byte>): int
    requires |b| <= INT_MAX
    decreases off >= 0, |b| + 4 - off
  {
    if off < 0 then off
    else
      var err := CheckCompatible(b, mem, strings, off, key);
      if err < 0 && err != NOTFOUND then err
      else if err == 0 then off
      else CompatibleFrom(b, mem, strings, NextNode(b, off, false, 0).0, key)
  }

  /** fdt_node_offset_by_compatible on a blob that passed the probe. */
  function OffsetByCompatible(b: seq<Byte>, mem: seq<Byte>, strings: seq<Byte>, start: int, key: seq<Byte>): int
    requires |b| <= INT_MAX
  {
    CompatibleFrom(b, mem, strings, NextNode(b, start, false, 0).0, key)
  }

  // ---------------------------------------------------------------- in the tree

  predicate HasList(n: Node, strings: seq<Byte>) {
    PropIndex(n.items, strings, COMPATIBLE) < |ItemTokens(n.items)|
  }

  /** The node's own "compatible" list; empty if it has none. */
  function CompatibleList(n: Node, strings: seq<Byte>): seq<Byte> {
    if HasList(n, strings) then ItemTokens(n.items)[PropIndex(n.items, strings, COMPATIBLE)].value else []
  }

  /** Where the list of the node at token position p ends. */
  function ListEnd(root: Node, p: nat, n: Node, strings: seq<Byte>): int
    requires p + 1 + |ItemTokens(n.items)| <= |TreeTokens(root)|
  {
    Offset(TreeTokens(root), p + 1 + PropIndex(n.items, strings, COMPATIBLE)) + 12 + |CompatibleList(n, strings)|
  }

  /** The list names the key, or ends in it with a zero byte behind it. */
  predicate ListsKey(list: seq<Byte>, next: Byte, key: seq<Byte>) {
    key in Parts(list) || (Rest(list) == key && next == 0)
  }

  /** The visited node's list names the key, or is malformed and ends in the key with a zero byte
      behind it. */
  predicate Accepts(root: Node, mem: seq<Byte>, strings: seq<Byte>, v: Visit, key: seq<Byte>) {
    && v.index + 1 + |ItemTokens(v.node.items)| <= |TreeTokens(root)|
    && HasList(v.node, strings)
    && ListsKey(CompatibleList(v.node, strings), ByteAt(mem, ListEnd(root, v.index, v.node, strings)), key)
  }

  /** The node's list names the key. */
  predicate IsCompatible(n: Node, strings: seq<Byte>, key: seq<Byte>) {
    key in Parts(CompatibleList(n, strings))
  }

  lemma NoParts()
    ensures Parts([]) == []
  {
  }

  /** On a well-formed list and for a non-empty key, accepting is naming. */
  lemma AcceptsIsCompatible(root: Node, mem: seq<Byte>, strings: seq<Byte>, v: Visit, key: seq<Byte>)
    requires v.index + 1 + |ItemTokens(v.node.items)| <= |TreeTokens(root)|
    requires WellFormed(CompatibleList(v.node, strings)) && key != []
    ensures Accepts(root, mem, strings, v, key) <==> IsCompatible(v.node, strings, key)
  {
    hide TreeTokens;
    hide Parts;
    WellFormedHasNoRest(CompatibleList(v.node, strings));
    NoParts();
  }

  /** What the lookup of a node's list finds. */
  lemma ListIsFound(b: seq<Byte>, strings: seq<Byte>, root: Node, loc: seq<nat>)
    requires |b| <= INT_MAX && HoldsTree(b, root) && IsLoc(root, loc)
    ensures IndexOf(root, loc) + 1 + |ItemTokens(At(root, loc).items)| <= |TreeTokens(root)|
    ensures match GetProp(b, strings, OffsetAt(root, loc), COMPATIBLE)
      case Missing(err) => err == NOTFOUND && !HasList(At(root, loc), strings)
      case Found(off, value) =>
        HasList(At(root, loc), strings) && value == CompatibleList(At(root, loc), strings) &&
        off + 12 + |value| == ListEnd(root, IndexOf(root, loc), At(root, loc), strings)
  {
    hide GetProp;
    hide PropIndex;
    hide TreeTokens;
    hide NodeTokens;
    hide Offset;
    var it, p := At(root, loc).items, IndexOf(root, loc) + 1;
    var i := PropIndex(it, strings, COMPATIBLE);
    GetPropIsFirstOwn(b, strings, root, loc, COMPATIBLE);
    if i < |ItemTokens(it)| {
      EmbedsElement(TreeTokens(root), p, ItemTokens(it), i);
    }
  }

  /** The check on a located node accepts exactly what Accepts says, whatever the list and the key. */
  lemma CheckIsAccepts(b: seq<Byte>, mem: seq<Byte>, strings: seq<Byte>, root: Node, loc: seq<nat>, key: seq<Byte>)
    requires |b| <= INT_MAX && HoldsTree(b, root) && IsLoc(root, loc) && IsName(key)
    ensures var err, v := CheckCompatible(b, mem, strings, OffsetAt(root, loc), key), Visit(IndexOf(root, loc), |loc|, At(root, loc));
      && (err == 0 <==> Accepts(root, mem, strings, v, key))
      && (err == 0 || err == 1 || err == NOTFOUND)
  {
    hide GetProp;
    hide Contains;
    hide ListsKey;
    hide CompatibleList;
    hide ListEnd;
    hide HasList;
    hide OffsetAt;
    hide TreeTokens;
    hide ItemTokens;
    ListIsFound(b, strings, root, loc);
    match GetProp(b, strings, OffsetAt(root, loc), COMPATIBLE)
    case Missing(_) =>
    case Found(off, value) => ContainsIsListsKey(value, ByteAt(mem, off + 12 + |value|), key);
  }

  lemma ContainsIsListsKey(list: seq<Byte>, next: Byte, key: seq<Byte>)
    requires IsName(key)
    ensures Contains(list, next, key) <==> ListsKey(list, next, key)
  {
    ContainsIffListed(list, next, key);
  }

  // ---------------------------------------------------------------- the search

  /** The first node of the document, from position j on, that is accepted. */
  function FirstAccepted(root: Node, mem: seq<Byte>, strings: seq<Byte>, vs: seq<Visit>, j: nat, key: seq<Byte>): (m: nat)
    requires j <= |vs|
    ensures j <= m <= |vs|
    decreases |vs| - j
  {
    if j == |vs| || Accepts(root, mem, strings, vs[j], key) then j
    else FirstAccepted(root, mem, strings, vs, j + 1, key)
  }

  /** It is accepted, and no node between is. */
  lemma {:induction false} FirstAcceptedIsFirst(root: Node, mem: seq<Byte>, strings: seq<Byte>, vs: seq<Visit>, j: nat, key: seq<Byte>)
    requires j <= |vs|
    ensures var m := FirstAccepted(root, mem, strings, vs, j, key);
      && (m < |vs| ==> Accepts(root, mem, strings, vs[m], key))
      && (forall i :: j <= i < m ==> !Accepts(root, mem, strings, vs[i], key))
    decreases |vs| - j
  {
    hide Accepts;
    if j < |vs| && !Accepts(root, mem, strings, vs[j], key) {
      FirstAcceptedIsFirst(root, mem, strings, vs, j + 1, key);
    }
  }

  lemma CompatibleStep(b: seq<Byte>, mem: seq<Byte>, strings: seq<Byte>, off: nat, key: seq<Byte>, err: int, next: int)
    requires |b| <= INT_MAX && err == CheckCompatible(b, mem, strings, off, key) && next == NextNode(b, off, false, 0).0
    requires err == 0 || err == 1 || err == NOTFOUND
    ensures CompatibleFrom(b, mem, strings, off, key) == if err == 0 then off else CompatibleFrom(b, mem, strings, next, key)
  {
  }

  lemma CheckAtVisit(b: seq<Byte>, mem: seq<Byte>, strings: seq<Byte>, root: Node, k: nat, key: seq<Byte>)
    requires |b| <= INT_MAX && HoldsTree(b, root) && IsName(key) && k < |Document(root)|
    ensures Document(root)[k].index < |TreeTokens(root)|
    ensures var err := CheckCompatible(b, mem, strings, VisitOffset(root, Document(root)[k]), key);
      && (err == 0 <==> Accepts(root, mem, strings, Document(root)[k], key))
      && (err == 0 || err == 1 || err == NOTFOUND)
  {
    hide CheckCompatible;
    hide Accepts;
    var loc := VisitIsLocated(root, 0, 0, k);
    LocOffset(root, loc);
    CheckIsAccepts(b, mem, strings, root, loc, key);
  }

  lemma {:induction false} CompatibleFromVisit(b: seq<Byte>, mem: seq<Byte>, strings: seq<Byte>, root: Node, j: nat, key: seq<Byte>)
    requires |b| <= INT_MAX && HoldsTree(b, root) && IsName(key) && j < |Document(root)|
    ensures var vs := Document(root);
      var m := FirstAccepted(root, mem, strings, vs, j, key);
      && vs[j].index < |TreeTokens(root)| && (m < |vs| ==> vs[m].index < |TreeTokens(root)|)
      && CompatibleFrom(b, mem, strings, VisitOffset(root, vs[j]), key) ==
           if m < |vs| then VisitOffset(root, vs[m]) else NOTFOUND
    decreases |Document(root)| - j
  {
    hide CheckCompatible;
    hide Accepts;
    hide NextNode;
    hide CompatibleFrom;
    hide Document;
    hide TreeTokens;
    var vs := Document(root);
    CheckAtVisit(b, mem, strings, root, j, key);
    UntrackedWalk(b, root, j);
    var off := VisitOffset(root, vs[j]);
    CompatibleStep(b, mem, strings, off, key, CheckCompatible(b, mem, strings, off, key), NextNode(b, off, false, 0).0);
    if !Accepts(root, mem, strings, vs[j], key) {
      if j + 1 < |vs| {
        CompatibleFromVisit(b, mem, strings, root, j + 1, key);
      } else {
        CompatibleEnds(b, mem, strings, key);
      }
    }
  }

  lemma CompatibleEnds(b: seq<Byte>, mem: seq<Byte>, strings: seq<Byte>, key: seq<Byte>)
    requires |b| <= INT_MAX
    ensures CompatibleFrom(b, mem, strings, NOTFOUND, key) == NOTFOUND
  {
  }

  /** Compatible search, for any lists and any key: from the node at document position j, or from -1,
      the result is the first later node in document order that is accepted, and NOTFOUND exactly
      when none is. */
  lemma OffsetByCompatibleIsFirst(b: seq<Byte>, mem: seq<Byte>, strings: seq<Byte>, root: Node, j: int, key: seq<Byte>)
    requires |b| <= INT_MAX && HoldsTree(b, root) && IsName(key) && -1 <= j < |Document(root)|
    ensures j >= 0 ==> Document(root)[j].index < |TreeTokens(root)|
    ensures var vs := Document(root);
      var m := FirstAccepted(root, mem, strings, vs, j + 1, key);
      && (m < |vs| ==> vs[m].index < |TreeTokens(root)|)
      && OffsetByCompatible(b, mem, strings, if j < 0 then -1 else VisitOffset(root, vs[j]), key) ==
           if m < |vs| then VisitOffset(root, vs[m]) else NOTFOUND
  {
    hide FirstAccepted;
    hide VisitOffset;
    hide Offset;
    hide NextNode;
    hide CompatibleFrom;
    hide Document;
    hide TreeTokens;
    UntrackedWalk(b, root, j);
    if j + 1 < |Document(root)| {
      CompatibleFromVisit(b, mem, strings, root, j + 1, key);
    } else {
      CompatibleEnds(b, mem, strings, key);
    }
  }

  /** With well-formed lists and a non-empty key, the first accepted node is the first one whose list
      names the key. */
  lemma AcceptedIsCompatible(root: Node, mem: seq<Byte>, strings: seq<Byte>, j: nat, key: seq<Byte>)
    requires j <= |Document(root)| && key != []
    requires forall i :: 0 <= i < |Document(root)| ==> WellFormed(CompatibleList(Document(root)[i].node, strings))
    ensures var vs := Document(root);
      var m := FirstAccepted(root, mem, strings, vs, j, key);
      && (m < |vs| ==> IsCompatible(vs[m].node, strings, key))
      && (forall i :: j <= i < m ==> !IsCompatible(vs[i].node, strings, key))
  {
    hide Accepts;
    hide IsCompatible;
    hide CompatibleList;
    hide Document;
    hide TreeTokens;
    var vs := Document(root);
    var m := FirstAccepted(root, mem, strings, vs, j, key);
    FirstAcceptedIsFirst(root, mem, strings, vs, j, key);
    forall i | 0 <= i < |vs|
      ensures Accepts(root, mem, strings, vs[i], key) <==> IsCompatible(vs[i].node, strings, key)
    {
      VisitFits(root, i);
      AcceptsIsCompatible(root, mem, strings, vs[i], key);
    }
  }

  lemma VisitFits(root: Node, i: nat)
    requires i < |Document(root)|
    ensures Document(root)[i].index + 1 + |ItemTokens(Document(root)[i].node.items)| <= |TreeTokens(root)|
  {
    var loc := VisitIsLocated(root, 0, 0, i);
    LocOffset(root, loc);
    ItemsInTree(root, loc);
  }
}
