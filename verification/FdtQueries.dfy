/** The reader's queries about names and paths, as loops over a blob. Each is proved to compute the
    function that specifies it. */
module FdtQueries {
  import opened Bytes
  import opened FdtFormat
  import opened FdtTokens
  import opened FdtTree
  import opened FdtWalk
  import opened FdtNav
  import opened FdtPath
  import opened FdtRoundTrip
  import opened FdtReader

  // ---------------------------------------------------------------- names and strings

  /** fdt_get_name. */
  method NameOf(f: Fdt, nodeoffset: I32) returns (name: Text)
    requires Checked(f)
    ensures name == if RoProbe(f) < 0 then NoStr(RoProbe(f)) else GetName(Block(f), nodeoffset)
  {
    if RoProbe(f) < 0 { return NoStr(RoProbe(f)); }
    var err := CheckNodeOffsetAt(f, nodeoffset);
    if err < 0 { return NoStr(err); }
    var found, end := SkipName(f, nodeoffset + 4);
    return Str(Block(f)[nodeoffset + 4..end - 1]);
  }

  /** fdt_get_string: what the reader makes of an offset into the strings block. */
  method StringOf(f: Fdt, stroffset: I32) returns (text: Text)
    requires Checked(f)
    ensures text == if RoProbe(f) < 0 then NoStr(RoProbe(f)) else StringAt(Strings(f), stroffset)
  {
    hide Load32;
    CheckedBounds(f);
    var totalsize := RoProbe(f);
    if totalsize < 0 { return NoStr(totalsize); }
    var absoffset := Wrap32(stroffset + f.OffStrings());
    StringsOffset(f, stroffset);
    if absoffset >= totalsize { return NoStr(BADOFFSET); }
    var len := totalsize - absoffset;
    if stroffset < 0 { return NoStr(BADOFFSET); }
    if stroffset >= f.SizeStrings() { return NoStr(BADOFFSET); }
    if f.SizeStrings() - stroffset < len { len := f.SizeStrings() - stroffset; }
    var s := f.mem[absoffset..absoffset + len];
    var n := Terminator(s, 0);
    assert s == Strings(f)[stroffset..];
    TerminatorOfSuffix(Strings(f), stroffset);
    if n == len { return NoStr(TRUNCATED); }
    assert s[..n] == Strings(f)[stroffset..stroffset + n];
    return Str(s[..n]);
  }

  /** An offset into the strings block does not wrap. */
  lemma StringsOffset(f: Fdt, stroffset: I32)
    requires Checked(f) && RoProbe(f) >= 0
    ensures RoProbe(f) == f.TotalSize()
    ensures stroffset >= 0 ==> Wrap32(stroffset + f.OffStrings()) == stroffset + f.OffStrings()
  {
    hide Load32;
    CheckedBounds(f);
    if stroffset >= 0 { Wrap32Once(stroffset + f.OffStrings()); }
  }

  lemma TerminatorOfSuffix(b: seq<Byte>, i: nat)
    requires i <= |b|
    ensures Terminator(b, i) == i + Terminator(b[i..], 0)
  {
    var n := Terminator(b[i..], 0);
    assert forall k :: i <= k < i + n ==> b[k] == b[i..][k - i];
    TerminatorIsUnique(b, i, i + n);
  }

  // ---------------------------------------------------------------- children and paths

  /** fdt_subnode_offset_namelen. */
  method SubnodeOffset(f: Fdt, start: I32, name: seq<Byte>) returns (r: I32)
    requires Checked(f)
    ensures r == if RoProbe(f) < 0 then RoProbe(f) else SubnodeFrom(Block(f), start, 0, name)
  {
    hide NextNode;
    hide SubnodeFrom;
    hide NameMatches;
    ghost var b := Block(f);
    if RoProbe(f) < 0 { return RoProbe(f); }
    var offset: I32, depth := start, 0;
    while offset >= 0 && depth >= 0
      invariant SubnodeFrom(b, start, 0, name) == SubnodeFrom(b, offset, depth, name)
      invariant offset == start || offset < |b| + 4
      invariant offset >= 0 ==> offset >= start
      decreases offset >= 0, offset == start, |b| + 4 - offset
    {
      ghost var (nr, nd) := NextNode(b, offset, true, depth);
      SubnodeStep(b, offset, depth, name, nr, nd);
      if depth == 1 {
        var p := NameOf(f, offset);
        if p.Str? && NameMatches(p.chars, name) { return offset; }
      }
      offset, depth := NextNodeAt(f, offset, true, depth);
    }
    SubnodeStops(b, offset, depth, name);
    return if depth < 0 then NOTFOUND else offset;
  }

  /** fdt_path_offset_namelen, for a path that is empty or starts with a slash. */
  method PathOffsetOf(f: Fdt, path: seq<Byte>) returns (r: I32)
    requires Checked(f) && (path != [] ==> path[0] == SLASH)
    ensures r == if RoProbe(f) < 0 then RoProbe(f) else PathOffset(Block(f), path)
  {
    hide SubnodeFrom;
    ghost var b := Block(f);
    if RoProbe(f) < 0 { return RoProbe(f); }
    if |path| <= 0 { return BADPATH; }
    var offset: I32, p, end := 0, 0, |path|;
    while p < end
      invariant 0 <= p <= end
      invariant PathFrom(b, path, 0) == PathFrom(b, path[p..], offset)
    {
      while path[p] == SLASH
        invariant 0 <= p < end
        invariant PathFrom(b, path, 0) == PathFrom(b, path[p..], offset)
        decreases end - p
      {
        assert path[p..][1..] == path[p + 1..];
        p := p + 1;
        if p == end { return offset; }
      }
      var q := SlashAt(path, p);
      SlashOfSuffix(path, p);
      assert path[p..][..q - p] == path[p..q] && path[p..][q - p..] == path[q..];
      var o := SubnodeOffset(f, offset, path[p..q]);
      if o < 0 { return o; }
      offset, p := o, q;
    }
    return offset;
  }

  lemma {:induction false} SlashOfSuffix(s: seq<Byte>, i: nat)
    requires i <= |s|
    ensures SlashAt(s, i) == i + SlashAt(s[i..], 0)
  {
    SlashShift(s, i, 0);
  }

  lemma {:induction false} SlashShift(s: seq<Byte>, i: nat, k: nat)
    requires i + k <= |s|
    ensures SlashAt(s, i + k) == i + SlashAt(s[i..], k)
    decreases |s| - i - k
  {
    if i + k < |s| && s[i + k] != SLASH { SlashShift(s, i, k + 1); }
  }

  // ---------------------------------------------------------------- writing a path

  /** The walk to the target does not leave the root, so that the loop of fdt_get_path never goes
      back further than what it has written. */
  predicate StaysInside(b: seq<Byte>, off: int, depth: int, target: int)
    requires |b| <= INT_MAX
    decreases off >= 0, |b| + 4 - off
  {
    off < 0 || off > target ||
    (depth >= 0 && (off == target ||
      var (r, d) := NextNode(b, off, true, depth);
      StaysInside(b, r, d, target)))
  }

  function Slashes(text: seq<Byte>): nat {
    if text == [] then 0
    else Slashes(text[..|text| - 1]) + if text[|text| - 1] == SLASH then 1 else 0
  }

  lemma {:induction false} SlashesJoin(s: seq<Byte>, t: seq<Byte>)
    ensures Slashes(s + t) == Slashes(s) + Slashes(t)
    decreases |t|
  {
    if t == [] {
      assert s + t == s;
    } else {
      assert (s + t)[..|s + t| - 1] == s + t[..|t| - 1];
      SlashesJoin(s, t[..|t| - 1]);
    }
  }

  lemma {:induction false} HasSlash(text: seq<Byte>)
    ensures Slashes(text) > 0 <==> SLASH in text
  {
    if text != [] {
      assert text == text[..|text| - 1] + [text[|text| - 1]];
      HasSlash(text[..|text| - 1]);
    }
  }

  /** The text ends in a slash, unless it is empty. */
  predicate EndsInSlash(text: seq<Byte>) {
    text != [] ==> text[|text| - 1] == SLASH
  }

  /** Going back over one name gives up one slash. */
  lemma {:induction false} PopOneSlash(text: seq<Byte>)
    requires text != [] && SLASH in text[..|text| - 1]
    ensures EndsInSlash(PopOne(text)) && Slashes(PopOne(text)) == Slashes(text[..|text| - 1]) && PopOne(text) != []
    decreases |text|
  {
    var t := text[..|text| - 1];
    if t[|t| - 1] != SLASH {
      assert t == t[..|t| - 1] + [t[|t| - 1]];
      PopOneSlash(t);
    }
  }

  /** The inner loop of fdt_get_path: back over the last name in the buffer. */
  method PopName(buf: array<Byte>, p: nat) returns (p': nat)
    requires 1 <= p <= buf.Length && SLASH in buf[..p - 1]
    ensures 1 <= p' < p && buf[..p'] == PopOne(buf[..p])
  {
    ghost var text := buf[..p];
    p' := p - 1;
    while buf[p' - 1] != SLASH
      invariant 1 <= p' < p && SLASH in text[..p']
      invariant PopOne(text) == if text[p' - 1] == SLASH then text[..p'] else PopOne(text[..p'])
      decreases p'
    {
      PopOneBack(text, p');
      p' := p' - 1;
    }
  }

  lemma PopOneBack(text: seq<Byte>, q: nat)
    requires 1 <= q <= |text| && SLASH in text[..q] && text[q - 1] != SLASH
    ensures q >= 2 && SLASH in text[..q - 1]
    ensures PopOne(text[..q]) == if text[q - 2] == SLASH then text[..q - 1] else PopOne(text[..q - 1])
  {
    assert text[..q] == text[..q - 1] + [text[q - 1]];
    assert text[..q][..q - 1] == text[..q - 1];
  }

  /** The loop around it: back to depth `depth`. */
  method PopNames(buf: array<Byte>, p: nat, pdepth: int, depth: int) returns (p': nat, pdepth': int)
    requires p <= buf.Length && EndsInSlash(buf[..p]) && pdepth <= Slashes(buf[..p]) && (pdepth > depth ==> depth >= 1)
    ensures p' <= p && buf[..p'] == Pops(buf[..p], pdepth - depth) && pdepth' == Min(pdepth, depth)
    ensures EndsInSlash(buf[..p']) && pdepth' <= Slashes(buf[..p'])
  {
    p', pdepth' := p, pdepth;
    while pdepth' > depth
      invariant Min(pdepth, depth) <= pdepth' <= pdepth
      invariant p' <= p && EndsInSlash(buf[..p']) && pdepth' <= Slashes(buf[..p'])
      invariant Pops(buf[..p], pdepth - depth) == Pops(buf[..p'], pdepth' - depth)
      decreases pdepth' - depth
    {
      assert buf[..p'] == buf[..p' - 1] + [SLASH];
      SlashesJoin(buf[..p' - 1], [SLASH]);
      HasSlash(buf[..p' - 1]);
      assert buf[..p'][..p' - 1] == buf[..p' - 1];
      PopOneSlash(buf[..p']);
      p' := PopName(buf, p');
      pdepth' := pdepth' - 1;
    }
  }

  /** Copies a name and a slash behind what the buffer holds. */
  method AppendName(buf: array<Byte>, p: nat, name: seq<Byte>)
    requires p + |name| + 1 <= buf.Length
    modifies buf
    ensures buf[..p + |name| + 1] == old(buf[..p]) + name + [SLASH]
    ensures forall i :: p + |name| + 1 <= i < buf.Length ==> buf[i] == old(buf[i])
  {
    for i := 0 to |name|
      invariant buf[..p + i] == old(buf[..p]) + name[..i]
      invariant forall k :: p + i <= k < buf.Length ==> buf[k] == old(buf[k])
    {
      buf[p + i] := name[i];
    }
    buf[p + |name|] := SLASH;
    assert name[..|name|] == name;
  }

  lemma PathEnds(b: seq<Byte>, off: int, depth: int, text: seq<Byte>, pdepth: int, target: int, buflen: int)
    requires |b| <= INT_MAX && (off < 0 || off > target)
    ensures PathScan(b, off, depth, text, pdepth, target, buflen) ==
      NoPath(if off == NOTFOUND || off >= 0 then BADOFFSET else if off == BADOFFSET then BADSTRUCTURE else off)
  {
  }

  lemma NextIsBelow(b: seq<Byte>, off: int, depth: int)
    requires |b| <= INT_MAX && depth >= 0 && off >= 0
    ensures var (r, d) := NextNode(b, off, true, depth); r >= 0 && d >= 0 ==> d >= 1
  {
    if CheckNodeOffset(b, off) >= 0 { ScanDepth(b, CheckNodeOffset(b, off), depth); }
  }

  /** What the buffer holds after one round for the node at `offset`. */
  predicate Put(b: seq<Byte>, offset: int, depth: int, before: seq<Byte>, pdepth: int, buflen: int,
                err: int, after: seq<Byte>, pdepth': int)
  {
    var t, pd, name := Pops(before, pdepth - depth), Min(pdepth, depth), GetName(b, offset);
    if pd >= depth && name.NoStr? then err == name.err && err < 0
    else if pd >= depth && |t| + |name.chars| + 1 <= buflen
    then err == 0 && after == t + name.chars + [SLASH] && pdepth' == pd + 1
    else err == 0 && after == t && pdepth' == pd
  }

  lemma PathRound(b: seq<Byte>, off: int, depth: int, before: seq<Byte>, pdepth: int, target: int, buflen: int,
                  err: int, after: seq<Byte>, pdepth': int, r: int, d: int)
    requires |b| <= INT_MAX && 0 <= off <= target && NextNode(b, off, true, depth) == (r, d)
    requires Put(b, off, depth, before, pdepth, buflen, err, after, pdepth')
    ensures PathScan(b, off, depth, before, pdepth, target, buflen) ==
      if err < 0 then NoPath(err)
      else if off == target then (if pdepth' < depth + 1 then NoPath(NOSPACE) else Path(Trimmed(after)))
      else PathScan(b, r, d, after, pdepth', target, buflen)
  {
    hide NextNode;
    hide GetName;
  }

  /** One round of fdt_get_path: back to the node's depth, then its name if there is room. */
  method PutName(f: Fdt, offset: I32, depth: int, buf: array<Byte>, p: nat, pdepth: int, buflen: int)
      returns (err: I32, p': nat, pdepth': int)
    requires Checked(f) && RoProbe(f) >= 0 && p <= buflen <= buf.Length
    requires EndsInSlash(buf[..p]) && 0 <= pdepth <= Slashes(buf[..p]) && (pdepth > depth ==> depth >= 1) && depth >= 0
    modifies buf
    ensures p' <= buflen && Put(Block(f), offset, depth, old(buf[..p]), pdepth, buflen, err, buf[..p'], pdepth')
    ensures EndsInSlash(buf[..p']) && 0 <= pdepth' <= Slashes(buf[..p'])
    ensures forall i :: 0 <= i < buf.Length && i >= buflen ==> buf[i] == old(buf[i])
  {
    hide GetName;
    hide Pops;
    hide Slashes;
    hide EndsInSlash;
    hide RoProbe;
    err := 0;
    p', pdepth' := PopNames(buf, p, pdepth, depth);
    if pdepth' >= depth {
      var name := NameOf(f, offset);
      if name.NoStr? {
        NameError(Block(f), offset);
        err := name.err;
      } else if p' + |name.chars| + 1 <= buflen {
        AppendedSlash(buf[..p'], name.chars);
        AppendName(buf, p', name.chars);
        p' := p' + |name.chars| + 1;
        pdepth' := pdepth' + 1;
      }
    }
  }

  lemma AppendedSlash(text: seq<Byte>, name: seq<Byte>)
    ensures EndsInSlash(text + name + [SLASH]) && Slashes(text + name + [SLASH]) >= Slashes(text) + 1
  {
    SlashesJoin(text, name);
    SlashesJoin(text + name, [SLASH]);
  }

  lemma NameError(b: seq<Byte>, offset: int)
    ensures GetName(b, offset).NoStr? ==> GetName(b, offset).err == BADOFFSET
  {
  }

  /** How fdt_get_path leaves the buffer. */
  method FinishPath(buf: array<Byte>, p: nat)
    requires 1 <= p <= buf.Length && buf.Length >= 2
    modifies buf
    ensures |Trimmed(old(buf[..p]))| < buf.Length && buf[..|Trimmed(old(buf[..p]))|] == Trimmed(old(buf[..p]))
    ensures buf[|Trimmed(old(buf[..p]))|] == 0
    ensures forall i :: 0 <= i < buf.Length && i >= 2 && i >= p ==> buf[i] == old(buf[i])
  {
    var q := if p > 1 then p - 1 else p;
    assert Trimmed(buf[..p]) == buf[..q];
    buf[q] := 0;
  }

  /** fdt_get_path into a buffer: 0 and the NUL-terminated path, or an error; nothing behind buflen
      is touched. */
  method WritePath(f: Fdt, nodeoffset: I32, buf: array<Byte>, buflen: int) returns (r: I32)
    requires Checked(f) && buflen <= buf.Length && StaysInside(Block(f), 0, 0, nodeoffset)
    modifies buf
    ensures RoProbe(f) < 0 ==> r == RoProbe(f)
    ensures RoProbe(f) >= 0 ==> match GetPath(Block(f), nodeoffset, buflen)
      case Path(text) => r == 0 && |text| + 1 <= buflen && buf[..|text|] == text && buf[|text|] == 0
      case NoPath(err) => r == err
    ensures forall i :: 0 <= i < buf.Length && i >= buflen ==> buf[i] == old(buf[i])
  {
    hide NextNode;
    hide PathScan;
    hide StaysInside;
    hide Put;
    hide Slashes;
    ghost var b := Block(f);
    if RoProbe(f) < 0 { return RoProbe(f); }
    if buflen < 2 { return NOSPACE; }
    var pdepth, p: nat := 0, 0;
    var offset: I32, depth := 0, 0;
    while offset >= 0 && offset <= nodeoffset
      invariant p <= buflen && offset < |b| + 4 && pdepth >= 0
      invariant EndsInSlash(buf[..p]) && pdepth <= Slashes(buf[..p])
      invariant StaysInside(b, offset, depth, nodeoffset)
      invariant offset < 0 || depth < 0 || depth >= 1 || (offset == 0 && depth == 0 && pdepth == 0)
      invariant GetPath(b, nodeoffset, buflen) == PathScan(b, offset, depth, buf[..p], pdepth, nodeoffset, buflen)
      invariant forall i :: 0 <= i < buf.Length && i >= buflen ==> buf[i] == old(buf[i])
      decreases offset >= 0, |b| + 4 - offset
    {
      StaysInsideStep(b, offset, depth, nodeoffset);
      NextIsBelow(b, offset, depth);
      ghost var (nr, nd) := NextNode(b, offset, true, depth);
      ghost var text, pd := buf[..p], pdepth;
      var err;
      err, p, pdepth := PutName(f, offset, depth, buf, p, pdepth, buflen);
      PathRound(b, offset, depth, text, pd, nodeoffset, buflen, err, buf[..p], pdepth, nr, nd);
      if err < 0 { return err; }
      if offset == nodeoffset {
        if pdepth < depth + 1 { return NOSPACE; }
        SomeText(buf[..p], pdepth);
        FinishPath(buf, p);
        return 0;
      }
      offset, depth := NextNodeAt(f, offset, true, depth);
    }
    PathEnds(b, offset, depth, buf[..p], pdepth, nodeoffset, buflen);
    if offset == NOTFOUND || offset >= 0 { return BADOFFSET; }
    if offset == BADOFFSET { return BADSTRUCTURE; }
    return offset;
  }

  lemma SomeText(text: seq<Byte>, pdepth: int)
    requires 1 <= pdepth <= Slashes(text)
    ensures text != []
  {
  }

  lemma StaysInsideStep(b: seq<Byte>, off: int, depth: int, target: int)
    requires |b| <= INT_MAX && 0 <= off <= target && StaysInside(b, off, depth, target)
    ensures depth >= 0
    ensures off != target ==> var (r, d) := NextNode(b, off, true, depth); StaysInside(b, r, d, target)
  {
    hide NextNode;
  }

  /** For every node of a tree the walk to it stays inside the root. */
  lemma NodesAreInside(b: seq<Byte>, root: Node, loc: seq<nat>)
    requires |b| <= INT_MAX && HoldsTree(b, root) && IsLoc(root, loc)
    ensures StaysInside(b, 0, 0, OffsetAt(root, loc))
  {
    LocOffset(root, loc);
    DocumentIsWalk(b, root);
    DocumentDepths(root);
    InsideFrom(b, TreeTokens(root), Document(root), 0, PosOf(root, loc));
  }

  lemma DocumentDepths(root: Node)
    ensures forall i :: 0 <= i < |Document(root)| ==> Document(root)[i].depth >= 0
  {
    forall i | 0 <= i < |Document(root)| ensures Document(root)[i].depth >= 0 {
      if i > 0 { DescendantsAreDeeper(root, 0, 0, i); }
    }
  }

  lemma {:induction false} InsideFrom(b: seq<Byte>, ts: seq<Token>, vs: seq<Visit>, j: nat, k: nat)
    requires |b| <= INT_MAX && IsWalk(b, ts, vs) && j <= k < |vs|
    requires forall i :: 0 <= i < |vs| ==> vs[i].depth >= 0
    ensures StaysInside(b, Offset(ts, vs[j].index), vs[j].depth, Offset(ts, vs[k].index))
    decreases k - j
  {
    hide NextNode;
    assert StepsTo(b, ts, vs, j);
    OffsetIsInjective(ts, vs[j].index, vs[k].index);
    if j < k { InsideFrom(b, ts, vs, j + 1, k); }
  }
}
