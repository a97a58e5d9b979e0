/** The string pool of codec-cfg.c: all the strings of the codec table in one buffer, each
    ended by a NUL, and named by the index of its first character. Index 0 names no string. */
module CodecStrings {
  import opened Wrappers

  const NUL: char := 0 as char

  // ------------------------------------------------------ reading the pool

  /** The string that starts at `i`. */
  function TextAt(p: seq<char>, i: nat): (t: seq<char>)
    ensures forall k :: 0 <= k < |t| ==> t[k] != NUL
    decreases |p| - i
  {
    if i >= |p| || p[i] == NUL then [] else [p[i]] + TextAt(p, i + 1)
  }

  /** codec_idx2str. */
  function Decode(p: seq<char>, idx: nat): Option<seq<char>> {
    if idx >= |p| || (idx > 0 && p[idx - 1] != NUL) then None else Some(TextAt(p, idx))
  }

  predicate IsString(s: seq<char>) {
    forall k :: 0 <= k < |s| ==> s[k] != NUL
  }

  predicate Pool(p: seq<char>) {
    p != [] ==> p[0] == NUL && p[|p| - 1] == NUL
  }

  lemma {:induction false} TextEnds(p: seq<char>, i: nat)
    requires Pool(p) && i < |p|
    ensures var n := i + |TextAt(p, i)|;
            n < |p| && p[n] == NUL && TextAt(p, i) == p[i..n] && forall k :: i <= k < n ==> p[k] != NUL
    decreases |p| - i
  {
    if p[i] != NUL { TextEnds(p, i + 1); }
  }

  lemma {:induction false} TextIsKept(p: seq<char>, more: seq<char>, i: nat)
    requires Pool(p) && i < |p|
    ensures TextAt(p + more, i) == TextAt(p, i)
    decreases |p| - i
  {
    if p[i] != NUL { TextIsKept(p, more, i + 1); }
  }

  lemma {:induction false} TextIsStored(p: seq<char>, s: seq<char>, i: nat)
    requires IsString(s) && i <= |s|
    ensures TextAt(p + s + [NUL], |p| + i) == s[i..]
    decreases |s| - i
  {
    if i < |s| { TextIsStored(p, s, i + 1); }
  }

  // ------------------------------------------------------ adding a string

  /** The scan that looks for a string already in the pool. */
  function FindFrom(p: seq<char>, s: seq<char>, i: nat): Option<nat>
    decreases |p| - i
  {
    if i >= |p| then None
    else if TextAt(p, i) == s then Some(i)
    else FindFrom(p, s, i + |TextAt(p, i)| + 1)
  }

  /** codec_addstr; the scan is compiled in for the tool that writes the built-in table. */
  function Add(p: seq<char>, s: seq<char>, reuse: bool): (seq<char>, nat) {
    if s == [] then (p, 0)
    else
      var found := if reuse then FindFrom(p, s, 1) else None;
      if found.Some? then (p, found.value)
      else
        var base := if p == [] then [NUL] else p;
        (base + s + [NUL], |base|)
  }

  /** The scan visits every index that names a string, and stops at the first that names
      this one. */
  lemma {:induction false} FindsFirst(p: seq<char>, s: seq<char>, i: nat)
    requires Pool(p) && 0 < i && (i < |p| ==> p[i - 1] == NUL)
    ensures var r := FindFrom(p, s, i);
            match r
            case Some(at) => i <= at && Decode(p, at) == Some(s) && forall j :: i <= j < at ==> Decode(p, j) != Some(s)
            case None => forall j :: i <= j ==> Decode(p, j) != Some(s)
    decreases |p| - i
  {
    if i < |p| {
      TextEnds(p, i);
      if TextAt(p, i) != s {
        var next := i + |TextAt(p, i)| + 1;
        FindsFirst(p, s, next);
        assert forall j :: i < j < next ==> Decode(p, j) == None;
      }
    }
  }

  lemma AddKeepsPool(p: seq<char>, s: seq<char>, reuse: bool)
    requires Pool(p)
    ensures Pool(Add(p, s, reuse).0)
  {}

  /** The index given out decodes to the string added, and every index that named a string
      goes on naming the same one. */
  lemma AddDecodes(p: seq<char>, s: seq<char>, reuse: bool)
    requires Pool(p) && IsString(s)
    ensures var (q, idx) := Add(p, s, reuse);
            && (s != [] ==> idx > 0 && Decode(q, idx) == Some(s))
            && (forall j :: Decode(p, j).Some? ==> Decode(q, j) == Decode(p, j))
  {
    if s != [] {
      FindsFirst(p, s, 1);
      var (q, idx) := Add(p, s, reuse);
      if q != p || p == [] {
        var base := if p == [] then [NUL] else p;
        TextIsStored(base, s, 0);
        forall j | Decode(p, j).Some? ensures Decode(q, j) == Decode(p, j) {
          TextIsKept(p, s + [NUL], j);
          assert q == p + (s + [NUL]);
        }
      }
    }
  }

  /** With the scan, the pool stays as it is exactly when the string is in it. */
  lemma ReusesExactly(p: seq<char>, s: seq<char>)
    requires Pool(p) && IsString(s) && s != []
    ensures Add(p, s, true).0 == p <==> exists j :: Decode(p, j) == Some(s)
  {
    FindsFirst(p, s, 1);
    assert Decode(p, 0) != Some(s);
    assert FindFrom(p, s, 1).None? ==> |Add(p, s, true).0| > |p|;
  }

  // ------------------------------------------------------ whole runs

  /** The pool after adding `ss` in turn, and the indices given out. */
  function AddAll(p: seq<char>, ss: seq<seq<char>>, reuse: bool): (r: (seq<char>, seq<nat>))
    ensures |r.1| == |ss|
    decreases |ss|
  {
    if ss == [] then (p, [])
    else
      var (q, idx) := Add(p, ss[0], reuse);
      var later := AddAll(q, ss[1..], reuse);
      (later.0, [idx] + later.1)
  }

  predicate AllStrings(ss: seq<seq<char>>) {
    forall k :: 0 <= k < |ss| ==> IsString(ss[k])
  }

  lemma {:induction false} IndicesLast(p: seq<char>, ss: seq<seq<char>>, reuse: bool)
    requires Pool(p) && AllStrings(ss)
    ensures var (q, _) := AddAll(p, ss, reuse);
            Pool(q) && forall j :: Decode(p, j).Some? ==> Decode(q, j) == Decode(p, j)
    decreases |ss|
  {
    if ss != [] {
      AddDecodes(p, ss[0], reuse);
      AddKeepsPool(p, ss[0], reuse);
      IndicesLast(Add(p, ss[0], reuse).0, ss[1..], reuse);
    }
  }

  /** Every index given out decodes to its string after all the later additions. */
  lemma {:induction false} EveryIndexDecodes(p: seq<char>, ss: seq<seq<char>>, reuse: bool)
    requires Pool(p) && AllStrings(ss)
    ensures var (q, idxs) := AddAll(p, ss, reuse);
            forall k :: 0 <= k < |ss| && ss[k] != [] ==> idxs[k] > 0 && Decode(q, idxs[k]) == Some(ss[k])
    decreases |ss|
  {
    if ss != [] {
      var (q, idx) := Add(p, ss[0], reuse);
      AddDecodes(p, ss[0], reuse);
      AddKeepsPool(p, ss[0], reuse);
      IndicesLast(q, ss[1..], reuse);
      EveryIndexDecodes(q, ss[1..], reuse);
    }
  }

  /** Where the scan finds a string is where it always finds it from then on. */
  lemma AddKeepsFirst(p: seq<char>, s: seq<char>, t: seq<char>)
    requires Pool(p) && IsString(s) && IsString(t)
    requires FindFrom(p, s, 1).Some?
    ensures FindFrom(Add(p, t, true).0, s, 1) == FindFrom(p, s, 1)
  {
    var q := Add(p, t, true).0;
    var at := FindFrom(p, s, 1).value;
    AddDecodes(p, t, true);
    AddKeepsPool(p, t, true);
    FindsFirst(p, s, 1);
    FindsFirst(q, s, 1);
    assert Decode(q, at) == Some(s);
    forall j | 1 <= j < at ensures Decode(q, j) == Decode(p, j) {
      if q != p { TextIsKept(p, t + [NUL], j); assert q == p + (t + [NUL]); }
    }
  }

  lemma {:induction false} FirstLasts(p: seq<char>, s: seq<char>, ss: seq<seq<char>>)
    requires Pool(p) && IsString(s) && AllStrings(ss)
    requires FindFrom(p, s, 1).Some?
    ensures FindFrom(AddAll(p, ss, true).0, s, 1) == FindFrom(p, s, 1)
    decreases |ss|
  {
    if ss != [] {
      AddKeepsFirst(p, s, ss[0]);
      AddKeepsPool(p, ss[0], true);
      FirstLasts(Add(p, ss[0], true).0, s, ss[1..]);
    }
  }

  lemma AddIsFound(p: seq<char>, s: seq<char>)
    requires Pool(p) && IsString(s) && s != []
    ensures var (q, idx) := Add(p, s, true); FindFrom(q, s, 1) == Some(idx)
  {
    var (q, idx) := Add(p, s, true);
    FindsFirst(p, s, 1);
    AddDecodes(p, s, true);
    AddKeepsPool(p, s, true);
    FindsFirst(q, s, 1);
    if FindFrom(p, s, 1).None? {
      forall j | 1 <= j < idx ensures Decode(q, j) != Some(s) {
        assert j < |p|;
        TextIsKept(p, s + [NUL], j);
        assert q == p + (s + [NUL]);
        assert Decode(q, j) == Decode(p, j);
      }
    }
  }

  lemma {:induction false} IndexIsFirst(p: seq<char>, ss: seq<seq<char>>)
    requires Pool(p) && AllStrings(ss)
    ensures var (q, idxs) := AddAll(p, ss, true);
            forall k :: 0 <= k < |ss| && ss[k] != [] ==> FindFrom(q, ss[k], 1) == Some(idxs[k])
    decreases |ss|
  {
    if ss != [] {
      AddKeepsPool(p, ss[0], true);
      IndexIsFirst(Add(p, ss[0], true).0, ss[1..]);
      if ss[0] != [] {
        AddIsFound(p, ss[0]);
        FirstLasts(Add(p, ss[0], true).0, ss[0], ss[1..]);
      }
    }
  }

  /** With the scan, two additions are given the same index exactly when they add the same
      string. */
  lemma SameIndexSameString(p: seq<char>, ss: seq<seq<char>>, j: nat, k: nat)
    requires Pool(p) && AllStrings(ss) && j < |ss| && k < |ss|
    ensures AddAll(p, ss, true).1[j] == AddAll(p, ss, true).1[k] <==> ss[j] == ss[k]
  {
    EveryIndexDecodes(p, ss, true);
    IndexIsFirst(p, ss);
    EmptyIsZero(p, ss);
  }

  lemma {:induction false} EmptyIsZero(p: seq<char>, ss: seq<seq<char>>)
    ensures forall k :: 0 <= k < |ss| && ss[k] == [] ==> AddAll(p, ss, true).1[k] == 0
    decreases |ss|
  {
    if ss != [] { EmptyIsZero(Add(p, ss[0], true).0, ss[1..]); }
  }

  /** The pool of "ab" and "c": only the places where strings start decode. */
  lemma PoolWitness()
    ensures AddAll([], ["ab", "c"], false) == ([NUL, 'a', 'b', NUL, 'c', NUL], [1, 4])
    ensures var p := [NUL, 'a', 'b', NUL, 'c', NUL];
            && Decode(p, 0) == Some("") && Decode(p, 1) == Some("ab") && Decode(p, 4) == Some("c")
            && Decode(p, 2) == None && Decode(p, 3) == None && Decode(p, 5) == None && Decode(p, 6) == None
  {
    assert ["ab", "c"][1..] == ["c"] && ["c"][1..] == [];
    var p := [NUL, 'a', 'b', NUL];
    assert Add([], "ab", false) == (p, 1) by { assert [NUL] + "ab" + [NUL] == p; }
    assert Add(p, "c", false) == (p + ['c', NUL], 4) by { assert p + "c" + [NUL] == p + ['c', NUL]; }
    var q := [NUL, 'a', 'b', NUL, 'c', NUL];
    assert p + ['c', NUL] == q;
    assert TextAt(q, 3) == [] && TextAt(q, 2) == ['b'] + [] && TextAt(q, 1) == ['a'] + ['b'];
    assert TextAt(q, 5) == [] && TextAt(q, 4) == ['c'] + [];
    assert TextAt(q, 1) == "ab" && TextAt(q, 4) == "c";
    assert AddAll(p + ['c', NUL], [], false) == (p + ['c', NUL], []);
    assert AddAll(p, ["c"], false) == (p + ['c', NUL], [4] + []);
    assert [1] + [4] == [1, 4] && [4] + [] == [4];
  }

  // ------------------------------------------------------ the pool itself

  class StringPool {
    var strs: seq<char>
    const reuse: bool

    constructor (reuse: bool)
      ensures strs == [] && this.reuse == reuse
    {
      this.reuse := reuse;
      strs := [];
    }

    method Strlen(i: nat) returns (n: nat)
      requires Pool(strs) && i < |strs|
      ensures n == |TextAt(strs, i)|
    {
      TextEnds(strs, i);
      n := 0;
      while strs[i + n] != NUL
        invariant n <= |TextAt(strs, i)|
        decreases |strs| - n
      {
        n := n + 1;
      }
    }

    method IdxToStr(idx: nat) returns (r: Option<seq<char>>)
      requires Pool(strs)
      ensures r == Decode(strs, idx)
    {
      if idx >= |strs| { return None; }
      if idx > 0 && strs[idx - 1] != NUL { return None; }
      var n := Strlen(idx);
      TextEnds(strs, idx);
      r := Some(strs[idx..idx + n]);
    }

    method AddStr(s: Option<seq<char>>) returns (idx: nat)
      requires Pool(strs) && (s.Some? ==> IsString(s.value))
      modifies this
      ensures Pool(strs)
      ensures (strs, idx) == Add(old(strs), if s.Some? then s.value else [], reuse)
    {
      if s == None || s.value == [] { return 0; }
      if reuse {
        var i := 1;
        while i < |strs|
          invariant strs == old(strs) && 0 < i && (i < |strs| ==> strs[i - 1] == NUL)
          invariant FindFrom(strs, s.value, i) == FindFrom(strs, s.value, 1)
          decreases |strs| - i
        {
          var n := Strlen(i);
          TextEnds(strs, i);
          if |s.value| == n && s.value == strs[i..i + n] { return i; }
          i := i + n + 1;
        }
      }
      if strs == [] { strs := [NUL]; }
      strs := strs + s.value + [NUL];
      return |strs| - (|s.value| + 1);
    }
  }
}
