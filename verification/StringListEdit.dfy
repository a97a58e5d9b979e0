/** The -add, -pre and -del operations on string lists (str_list_add and str_list_del of
    m_option.c).  A list is an array of names ended by a null, or no array at all. */
module StringListEdit {
  import opened Wrappers
  import opened ObjectList

  // ------------------------------------------------------ what deletion means

  /** The places named by the indices that are numbers and in range; here a negative index
      counts as out of range and an index may be repeated. */
  function Named(n: nat, ids: seq<Option<int>>): (d: set<nat>)
    ensures forall k: nat :: k in d <==> k < n && Some(k) in ids
  {
    if ids == [] then {}
    else
      assert ids == [ids[0]] + ids[1..];
      (if ids[0].Some? && 0 <= ids[0].value < n then {ids[0].value} else {}) + Named(n, ids[1..])
  }

  function Kept(l: seq<Cell>): seq<Cell> {
    if l == [] then [] else (if l[0].Null? then [] else [l[0]]) + Kept(l[1..])
  }

  /** m is l, whose first entry has place `from`, with the places in d set to null. */
  ghost predicate NulledAt(l: seq<Cell>, m: seq<Cell>, from: nat, d: set<nat>) {
    |m| == |l| && forall k {:trigger m[k]} :: 0 <= k < |l| ==> m[k] == if from + k in d then Null else l[k]
  }

  lemma {:induction false} KeptIsSurvivors(l: seq<Cell>, m: seq<Cell>, from: nat, d: set<nat>)
    requires AllNames(l) && NulledAt(l, m, from, d)
    ensures Kept(m) == Survivors(l, from, d)
    decreases |l|
  {
    if l != [] {
      var (l', m') := (l[1..], m[1..]);
      forall k | 0 <= k < |l'| ensures m'[k] == if from + 1 + k in d then Null else l'[k] {
        assert m[k + 1] == if from + (k + 1) in d then Null else l[k + 1];
      }
      KeptIsSurvivors(l', m', from + 1, d);
    }
  }

  lemma {:induction false} KeptNulled(l: seq<Cell>, k: nat)
    requires k < |l| && l[k].Name?
    ensures |Kept(l[k := Null])| == |Kept(l)| - 1
  {
    if k == 0 {
      assert l[0 := Null][1..] == l[1..];
    } else {
      KeptNulled(l[1..], k - 1);
      assert l[k := Null][1..] == l[1..][k - 1 := Null];
    }
  }

  lemma {:induction false} KeptSnoc(l: seq<Cell>, x: Cell)
    ensures Kept(l + [x]) == Kept(l) + if x.Null? then [] else [x]
  {
    if l == [] {
      assert [] + [x] == [x] && [x][1..] == [];
    } else {
      KeptSnoc(l[1..], x);
      assert (l + [x])[1..] == l[1..] + [x];
    }
  }

  lemma {:induction false} KeptPrefix(l: seq<Cell>, i: nat)
    requires i <= |l|
    ensures |Kept(l[..i])| <= |Kept(l)|
  {
    if i > 0 {
      KeptPrefix(l[1..], i - 1);
      assert l[..i][1..] == l[1..][..i - 1];
    }
  }

  lemma {:induction false} KeptNames(l: seq<Cell>)
    requires AllNames(l)
    ensures Kept(l) == l
  {
    if l != [] { KeptNames(l[1..]); }
  }

  lemma {:induction false} NamedSnoc(n: nat, ids: seq<Option<int>>, r: nat)
    requires r < |ids|
    ensures Named(n, ids[..r + 1])
            == Named(n, ids[..r]) + if ids[r].Some? && 0 <= ids[r].value < n then {ids[r].value} else {}
  {
    if r > 0 {
      NamedSnoc(n, ids[1..], r - 1);
      assert ids[..r + 1][1..] == ids[1..][..r] && ids[..r][1..] == ids[1..][..r - 1];
    } else {
      assert ids[..1][1..] == [] && ids[..0] == [];
    }
  }

  // ------------------------------------------------------ deletion undoes addition

  lemma {:induction false} SurvivorsCat(a: seq<Cell>, b: seq<Cell>, from: nat, d: set<nat>)
    ensures Survivors(a + b, from, d) == Survivors(a, from, d) + Survivors(b, from + |a|, d)
    decreases |a|
  {
    if a == [] {
      assert a + b == b;
    } else {
      SurvivorsCat(a[1..], b, from + 1, d);
      assert (a + b)[0] == a[0] && (a + b)[1..] == a[1..] + b;
      var (now, x, y) := (if from in d then [] else [a[0]], Survivors(a[1..], from + 1, d), Survivors(b, from + |a|, d));
      assert (now + x) + y == now + (x + y);
    }
  }

  lemma {:induction false} AllOrNone(l: seq<Cell>, from: nat, d: set<nat>)
    ensures (forall k :: from <= k < from + |l| ==> k in d) ==> Survivors(l, from, d) == []
    ensures (forall k :: from <= k < from + |l| ==> k !in d) ==> Survivors(l, from, d) == l
    decreases |l|
  {
    if l != [] { AllOrNone(l[1..], from + 1, d); }
  }

  function Added(l: seq<Cell>, add: seq<Cell>, pre: bool): seq<Cell> {
    if pre then add + l else l + add
  }

  function Places(lo: nat, hi: nat): (d: set<nat>)
    ensures forall k :: k in d <==> lo <= k < hi
    decreases hi - lo
  {
    if lo >= hi then {} else {lo} + Places(lo + 1, hi)
  }

  /** Deleting exactly the places the new entries were put at gives the old list back,
      whatever else, out of range or repeated, is asked for. */
  lemma DeleteUndoesAdd(l: seq<Cell>, add: seq<Cell>, pre: bool, ids: seq<Option<int>>)
    requires Named(|l| + |add|, ids) == if pre then Places(0, |add|) else Places(|l|, |l| + |add|)
    ensures Survivors(Added(l, add, pre), 0, Named(|l| + |add|, ids)) == l
  {
    var d := Named(|l| + |add|, ids);
    if pre {
      SurvivorsCat(add, l, 0, d);
      AllOrNone(add, 0, d);
      AllOrNone(l, |add|, d);
    } else {
      SurvivorsCat(l, add, 0, d);
      AllOrNone(l, 0, d);
      AllOrNone(add, |l|, d);
    }
  }

  // ------------------------------------------------------ the array

  ghost predicate IsList(a: array?<Cell>, n: nat)
    reads a
  {
    if a == null then n == 0 else Holds(a, n) && AllNames(a[..n])
  }

  method Length(a: array?<Cell>, ghost n: nat) returns (ln: nat)
    requires IsList(a, n)
    ensures ln == n
  {
    ln := 0;
    while a != null && a[ln] != Null
      invariant ln <= n
      decreases n - ln
    {
      ln := ln + 1;
    }
  }

  /** str_list_add */
  method Add(lst: array?<Cell>, add: seq<Cell>, pre: bool, ghost n: nat) returns (d: array<Cell>)
    requires IsList(lst, n) && AllNames(add)
    ensures fresh(d) && d[..] == Added(if lst == null then [] else lst[..n], add, pre) + [Null]
  {
    var ln := Length(lst, n);
    d := new Cell[ln + |add| + 1](_ => Null);
    if lst != null {
      forall k | 0 <= k < ln { d[k] := lst[k]; }
    }
    ghost var l := d[..ln];
    if pre {
      forall k | 0 <= k < ln { d[|add| + k] := d[k]; }
      forall k | 0 <= k < |add| { d[k] := add[k]; }
      assert d[..ln + |add|] == add + l;
    } else {
      forall k | 0 <= k < |add| { d[ln + k] := add[k]; }
      assert d[..ln + |add|] == l + add;
    }
    d[ln + |add|] := Null;
  }

  /** str_list_del: the entries whose places are not named remain, in order; the number of
      entries counted down while deleting is exactly the room they need. */
  method Delete(lst: array?<Cell>, ids: seq<Option<int>>, ghost n: nat) returns (d: array?<Cell>)
    requires IsList(lst, n)
    modifies if lst != null then {lst} else {}
    ensures var left := Survivors(if lst == null then [] else old(lst[..n]), 0, Named(n, ids));
            if left == [] then d == null else d != null && d[..] == left + [Null]
  {
    hide Kept, Survivors, Named;
    var ln := Length(lst, n);
    if lst == null {
      NothingSurvives(Named(n, ids));
      return null;
    }
    ghost var l := lst[..n];
    var s := NullOut(lst, ln, ids);
    KeptIsSurvivors(l, lst[..n], 0, Named(n, ids));
    if s == 0 { return null; }
    d := Collect(lst, ln, s);
  }

  lemma NothingSurvives(d: set<nat>)
    ensures Survivors([], 0, d) == []
  {
  }

  method NullOut(lst: array<Cell>, ln: nat, ids: seq<Option<int>>) returns (s: nat)
    requires Holds(lst, ln) && AllNames(lst[..ln])
    modifies lst
    ensures NulledAt(old(lst[..ln]), lst[..ln], 0, Named(ln, ids)) && s == |Kept(lst[..ln])|
  {
    hide Kept, Named;
    ghost var l := lst[..ln];
    KeptNames(l);
    NoneNamed(ln);
    s := ln;
    assert ids[..0] == [];
    for i := 0 to |ids|
      invariant NulledAt(l, lst[..ln], 0, Named(ln, ids[..i])) && s == |Kept(lst[..ln])|
    {
      NamedSnoc(ln, ids, i);
      if ids[i].Some? && 0 <= ids[i].value < ln && lst[ids[i].value] != Null {
        var idx := ids[i].value;
        KeptNulled(lst[..ln], idx);
        ghost var before := lst[..ln];
        lst[idx] := Null;
        assert lst[..ln] == before[idx := Null];
        s := s - 1;
      }
    }
    assert ids[..|ids|] == ids;
  }

  lemma NoneNamed(n: nat)
    ensures Named(n, []) == {}
  {
  }

  method Collect(lst: array<Cell>, ln: nat, s: nat) returns (d: array<Cell>)
    requires ln < lst.Length && s == |Kept(lst[..ln])|
    ensures fresh(d) && d[..] == Kept(lst[..ln]) + [Null]
  {
    hide Kept;
    d := new Cell[s + 1](_ => Null);
    var n := 0;
    KeptEmpty();
    for i := 0 to ln
      invariant n <= s && d[..n] == Kept(lst[..i]) && forall k :: n <= k <= s ==> d[k] == Null
    {
      assert lst[..i] + [lst[i]] == lst[..i + 1] == lst[..ln][..i + 1];
      KeptSnoc(lst[..i], lst[i]);
      KeptPrefix(lst[..ln], i + 1);
      if lst[i] == Null { continue; }
      d[n] := lst[i];
      n := n + 1;
    }
    d[s] := Null;
  }

  lemma KeptEmpty()
    ensures Kept([]) == []
  {
  }
}
