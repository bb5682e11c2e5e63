/** String lists: property values made of NUL-terminated strings. */
module FdtLists {
  import opened Bytes
  import opened FdtFormat
  import opened FdtTokens

  // ---------------------------------------------------------------- what a list holds

  /** The terminated strings of the list. */
  function Parts(list: seq<Byte>): seq<seq<Byte>>
    decreases |list|
  {
    var e := Terminator(list, 0);
    if e == |list| then [] else [list[..e]] + Parts(list[e + 1..])
  }

  /** What follows the last terminator. */
  function Rest(list: seq<Byte>): seq<Byte>
    decreases |list|
  {
    var e := Terminator(list, 0);
    if e == |list| then list else Rest(list[e + 1..])
  }

  predicate WellFormed(list: seq<Byte>) {
    list == [] || list[|list| - 1] == 0
  }

  /** Every string with its terminator. */
  function Listed(parts: seq<seq<Byte>>): seq<Byte> {
    if parts == [] then [] else parts[0] + [0] + Listed(parts[1..])
  }

  lemma {:induction false} NameThenZero(s: seq<Byte>, rest: seq<Byte>)
    requires IsName(s)
    ensures Terminator(s + [0] + rest, 0) == |s|
  {
    TerminatorIsUnique(s + [0] + rest, 0, |s|);
  }

  /** Strings written one after another are exactly the strings that are read. */
  lemma {:induction false} PartsOfListed(parts: seq<seq<Byte>>, rest: seq<Byte>)
    requires (forall i :: 0 <= i < |parts| ==> IsName(parts[i])) && IsName(rest)
    ensures Parts(Listed(parts) + rest) == parts && Rest(Listed(parts) + rest) == rest
    decreases |parts|
  {
    if parts == [] {
      assert Listed(parts) + rest == rest;
      TerminatorIsUnique(rest, 0, |rest|);
    } else {
      var list, tail := Listed(parts) + rest, Listed(parts[1..]) + rest;
      assert list == parts[0] + [0] + tail;
      NameThenZero(parts[0], tail);
      assert list[..|parts[0]|] == parts[0] && list[|parts[0]| + 1..] == tail;
      PartsOfListed(parts[1..], rest);
    }
  }

  lemma {:induction false} WellFormedHasNoRest(list: seq<Byte>)
    ensures WellFormed(list) <==> Rest(list) == []
    decreases |list|
  {
    var e := Terminator(list, 0);
    if e < |list| {
      WellFormedHasNoRest(list[e + 1..]);
    }
  }

  // ---------------------------------------------------------------- the loops

  /** The loop of fdt_stringlist_count. */
  function CountFrom(list: seq<Byte>, count: nat): int
    decreases |list|
  {
    if list == [] then count
    else
      var length := Terminator(list, 0) + 1;
      if length > |list| then BADVALUE else CountFrom(list[length..], count + 1)
  }

  /** The loop of fdt_stringlist_search. */
  function SearchFrom(list: seq<Byte>, s: seq<Byte>, idx: nat): int
    decreases |list|
  {
    if list == [] then NOTFOUND
    else
      var length := Terminator(list, 0) + 1;
      if length > |list| then BADVALUE
      else if length == |s| + 1 && list[..length] == s + [0] then idx
      else SearchFrom(list[length..], s, idx + 1)
  }

  /** The loop of fdt_stringlist_get. */
  function GetFrom(list: seq<Byte>, idx: int): Text
    decreases |list|
  {
    if list == [] then NoStr(NOTFOUND)
    else
      var length := Terminator(list, 0) + 1;
      if length > |list| then NoStr(BADVALUE)
      else if idx == 0 then Str(list[..length - 1])
      else GetFrom(list[length..], idx - 1)
  }

  /** fdt_stringlist_contains; `next` is the byte behind the list, which the comparison may read. */
  predicate Contains(list: seq<Byte>, next: Byte, s: seq<Byte>)
    decreases |list|
  {
    if |list| < |s| then false
    else if (list + [next])[..|s| + 1] == s + [0] then true
    else
      var e := Terminator(list, 0);
      if e == |list| then false else Contains(list[e + 1..], next, s)
  }

  // ---------------------------------------------------------------- what the loops find

  /** fdt_stringlist_count counts the strings of a well-formed list and refuses any other. */
  lemma {:induction false} CountIsParts(list: seq<Byte>, count: nat)
    ensures CountFrom(list, count) == if WellFormed(list) then count + |Parts(list)| else BADVALUE
    decreases |list|
  {
    if list != [] {
      var e := Terminator(list, 0);
      if e < |list| { CountIsParts(list[e + 1..], count + 1); }
    }
  }

  /** fdt_stringlist_get gives the string of that index, also in front of a malformed end. */
  lemma {:induction false} GetIsPart(list: seq<Byte>, idx: int)
    ensures GetFrom(list, idx) ==
      if 0 <= idx < |Parts(list)| then Str(Parts(list)[idx])
      else NoStr(if WellFormed(list) then NOTFOUND else BADVALUE)
    decreases |list|
  {
    if list != [] {
      var e := Terminator(list, 0);
      if e < |list| { GetIsPart(list[e + 1..], idx - 1); }
    }
  }

  /** The first index of s, or the number of strings. */
  function IndexIn(parts: seq<seq<Byte>>, s: seq<Byte>): (i: nat)
    ensures i <= |parts| && (i < |parts| ==> parts[i] == s) && s !in parts[..i]
    ensures i < |parts| <==> s in parts
  {
    if parts == [] || parts[0] == s then 0 else
      var i := 1 + IndexIn(parts[1..], s);
      assert parts[..i] == [parts[0]] + parts[1..][..i - 1];
      i
  }

  lemma FirstIs(list: seq<Byte>, e: nat, s: seq<Byte>)
    requires e < |list| && list[e] == 0
    ensures (e + 1 == |s| + 1 && list[..e + 1] == s + [0]) <==> list[..e] == s
  {
    assert list[..e + 1] == list[..e] + [0];
    if e == |s| && list[..e + 1] == s + [0] {
      assert list[..e] == (s + [0])[..e] == s;
    }
  }

  lemma SearchStep(list: seq<Byte>, s: seq<Byte>, idx: nat, e: nat)
    requires e == Terminator(list, 0) < |list|
    ensures SearchFrom(list, s, idx) == if list[..e] == s then idx else SearchFrom(list[e + 1..], s, idx + 1)
  {
    FirstIs(list, e, s);
  }

  lemma {:induction false} SearchIsFirst(list: seq<Byte>, s: seq<Byte>, idx: nat)
    ensures SearchFrom(list, s, idx) ==
      if s in Parts(list) then idx + IndexIn(Parts(list), s) else if WellFormed(list) then NOTFOUND else BADVALUE
    decreases |list|
  {
    var e := Terminator(list, 0);
    if e < |list| {
      SearchStep(list, s, idx, e);
      hide SearchFrom;
      SearchIsFirst(list[e + 1..], s, idx + 1);
      assert Parts(list)[0] == list[..e] && Parts(list)[1..] == Parts(list[e + 1..]);
    }
  }

  /** Agreement on a well-formed list: fdt_stringlist_search gives the least index whose
      fdt_stringlist_get is the string, and NOTFOUND exactly when no index below
      fdt_stringlist_count has it. */
  lemma SearchAgreesWithGet(list: seq<Byte>, s: seq<Byte>)
    requires WellFormed(list)
    ensures var r, n := SearchFrom(list, s, 0), CountFrom(list, 0);
      && n >= 0
      && (r >= 0 ==> r < n && GetFrom(list, r) == Str(s) && forall i :: 0 <= i < r ==> GetFrom(list, i) != Str(s))
      && (r < 0 ==> r == NOTFOUND && forall i :: 0 <= i < n ==> GetFrom(list, i) != Str(s))
  {
    var parts, r := Parts(list), SearchFrom(list, s, 0);
    SearchIsFirst(list, s, 0);
    CountIsParts(list, 0);
    forall i | 0 <= i < |parts|
      ensures GetFrom(list, i) == Str(parts[i])
      ensures i < IndexIn(parts, s) ==> parts[i] != s
    {
      GetIsPart(list, i);
      assert i < IndexIn(parts, s) ==> parts[i] in parts[..IndexIn(parts, s)];
    }
  }

  /** The comparison at the start of the list: a first string that is s, or an unterminated list
      that is s with a zero byte behind it. */
  lemma HeadMatches(list: seq<Byte>, next: Byte, s: seq<Byte>)
    requires IsName(s)
    ensures var e := Terminator(list, 0);
      (|s| <= |list| && (list + [next])[..|s| + 1] == s + [0]) <==>
      (if e < |list| then list[..e] == s else list == s && next == 0)
  {
    var e, l := Terminator(list, 0), list + [next];
    if |s| <= |list| && l[..|s| + 1] == s + [0] {
      assert forall i :: 0 <= i < |s| ==> l[i] == s[i];
      assert forall i :: 0 <= i < |s| ==> list[i] == s[i];
      assert l[|s|] == (s + [0])[|s|] == 0;
      if |s| < |list| {
        TerminatorIsUnique(list, 0, |s|);
      }
      assert l[..|s|] == s;
      assert list[..|s|] == l[..|s|];
    }
  }

  /** fdt_stringlist_contains, exactly: the string is one of the list's, or it is what follows the
      last terminator and a zero byte happens to lie behind the list. */
  lemma {:induction false} ContainsIffListed(list: seq<Byte>, next: Byte, s: seq<Byte>)
    requires IsName(s)
    ensures Contains(list, next, s) <==> (s in Parts(list) || (Rest(list) == s && next == 0))
    decreases |list|
  {
    var e := Terminator(list, 0);
    HeadMatches(list, next, s);
    if e < |list| {
      ContainsIffListed(list[e + 1..], next, s);
      if |list| < |s| { PartsAreShort(list[e + 1..], s); }
    }
  }

  lemma {:induction false} PartsAreShort(list: seq<Byte>, s: seq<Byte>)
    requires |list| < |s|
    ensures s !in Parts(list) && Rest(list) != s
    decreases |list|
  {
    var e := Terminator(list, 0);
    if e < |list| { PartsAreShort(list[e + 1..], s); }
  }

  /** On a well-formed list and for a non-empty string, contains, search and get agree. */
  lemma ContainsAgreesWithSearch(list: seq<Byte>, next: Byte, s: seq<Byte>)
    requires WellFormed(list) && IsName(s) && s != []
    ensures Contains(list, next, s) <==> SearchFrom(list, s, 0) >= 0
  {
    ContainsIffListed(list, next, s);
    WellFormedHasNoRest(list);
    SearchIsFirst(list, s, 0);
  }
}
