/** Deleting entries of an object settings list by index (obj_settings_list_del of
    m_option.c): entries are first marked, then squeezed out of the array in place. */
module ObjectList {
  import opened Wrappers
  import opened OptionCodes

  /** The name pointer of a cell: null, the address of the marker string, or a real name. */
  datatype Cell = Null | Marker | Name(name: string)

  predicate AllNames(l: seq<Cell>) {
    forall k :: 0 <= k < |l| ==> l[k].Name?
  }

  // ------------------------------------------------------ what deletion means

  /** A parsed index as a place in a list of n entries: counted from the end if negative,
      None if it is out of range. */
  function Normal(n: nat, id: int): (r: Option<nat>)
    ensures forall k: nat :: r == Some(k) <==> k < n && (id == k || id == k - n)
  {
    if id >= n || id < 0 - n then None else if id < 0 then Some(n + id) else Some(id)
  }

  /** How marking ends, with the places marked: at the end of the indices, at text that is no
      number (None), or at a place that is marked already, where the program frees its own
      marker string, which was never allocated. */
  datatype Marking = Marked(places: set<nat>) | BadText(places: set<nat>) | FreesMarker

  function MarkAll(n: nat, ids: seq<Option<int>>, d: set<nat>): Marking {
    if ids == [] then Marked(d)
    else if ids[0].None? then BadText(d)
    else match Normal(n, ids[0].value)
         case None => MarkAll(n, ids[1..], d)
         case Some(k) => if k in d then FreesMarker else MarkAll(n, ids[1..], d + {k})
  }

  /** Index j names place k, and no bad text comes before it. */
  predicate Reached(n: nat, ids: seq<Option<int>>, j: nat, k: nat) {
    j < |ids| && (forall i :: 0 <= i <= j ==> ids[i].Some?) && Normal(n, ids[j].value) == Some(k)
  }

  /** Index j names a place that is in d or was named before. */
  ghost predicate Repeats(n: nat, ids: seq<Option<int>>, d: set<nat>, j: nat, k: nat) {
    Reached(n, ids, j, k) && (k in d || exists i: nat :: i < j && Reached(n, ids, i, k))
  }

  ghost predicate NamedTwice(n: nat, ids: seq<Option<int>>, d: set<nat>) {
    exists j: nat, k: nat :: Repeats(n, ids, d, j, k)
  }

  lemma ReachedTail(n: nat, ids: seq<Option<int>>, j: nat, k: nat)
    requires ids != [] && ids[0].Some?
    ensures Reached(n, ids, j + 1, k) <==> Reached(n, ids[1..], j, k)
    ensures Reached(n, ids, 0, k) <==> Normal(n, ids[0].value) == Some(k)
  {
    if Reached(n, ids[1..], j, k) {
      forall i | 0 <= i <= j + 1 ensures ids[i].Some? { if i > 0 { assert ids[1..][i - 1].Some?; } }
    }
  }

  lemma RepeatsTail(n: nat, ids: seq<Option<int>>, d: set<nat>, e: set<nat>, j: nat, k: nat)
    requires ids != [] && ids[0].Some?
    requires e == d + match Normal(n, ids[0].value) case None => {} case Some(x) => {x}
    ensures Repeats(n, ids, d, j + 1, k) <==> Repeats(n, ids[1..], e, j, k)
  {
    hide Reached;
    ReachedTail(n, ids, j, k);
    if Repeats(n, ids, d, j + 1, k) && k !in e {
      var i: nat :| i < j + 1 && Reached(n, ids, i, k);
      ReachedTail(n, ids, if i > 0 then i - 1 else 0, k);
      assert i > 0 && Reached(n, ids[1..], i - 1, k);
    }
    if Repeats(n, ids[1..], e, j, k) && k !in d {
      if k in e {
        assert Reached(n, ids, 0, k);
      } else {
        var i: nat :| i < j && Reached(n, ids[1..], i, k);
        ReachedTail(n, ids, i, k);
        assert Reached(n, ids, i + 1, k);
      }
    }
  }

  lemma TwiceInTail(n: nat, ids: seq<Option<int>>, d: set<nat>, e: set<nat>)
    requires ids != [] && ids[0].Some?
    requires e == d + match Normal(n, ids[0].value) case None => {} case Some(x) => {x}
    requires match Normal(n, ids[0].value) case None => true case Some(x) => x !in d
    ensures NamedTwice(n, ids, d) <==> NamedTwice(n, ids[1..], e)
  {
    if NamedTwice(n, ids, d) {
      var j: nat, k: nat :| Repeats(n, ids, d, j, k);
      ReachedTail(n, ids, 0, k);
      RepeatsTail(n, ids, d, e, if j > 0 then j - 1 else 0, k);
    }
    if NamedTwice(n, ids[1..], e) {
      var j: nat, k: nat :| Repeats(n, ids[1..], e, j, k);
      RepeatsTail(n, ids, d, e, j, k);
    }
  }

  /** Marking goes wrong exactly if a place is named twice before any bad text. */
  lemma {:induction false} FreesMarkerIff(n: nat, ids: seq<Option<int>>, d: set<nat>)
    ensures MarkAll(n, ids, d).FreesMarker? <==> NamedTwice(n, ids, d)
    decreases |ids|
  {
    if ids != [] {
      if ids[0].None? {
        forall j: nat, k: nat ensures !Repeats(n, ids, d, j, k) { if j < |ids| { assert ids[0].None?; } }
      } else {
        var k := Normal(n, ids[0].value);
        if k.Some? && k.value in d {
          ReachedTail(n, ids, 0, k.value);
          assert Repeats(n, ids, d, 0, k.value);
        } else {
          var e := d + match k case None => {} case Some(x) => {x};
          TwiceInTail(n, ids, d, e);
          FreesMarkerIff(n, ids[1..], e);
          assert k.None? ==> e == d;
        }
      }
    }
  }

  /** The places named by the indices that are in range. */
  function Doomed(n: nat, ids: seq<Option<int>>): set<nat> {
    if ids == [] then {}
    else (if ids[0].Some? && Normal(n, ids[0].value).Some? then {Normal(n, ids[0].value).value} else {})
         + Doomed(n, ids[1..])
  }

  /** The indices before the first bad text. */
  function Before(ids: seq<Option<int>>): (r: seq<Option<int>>)
    ensures None !in r
  {
    if ids == [] || ids[0].None? then [] else [ids[0]] + Before(ids[1..])
  }

  /** Bad text leaves marked exactly the places that were, and those named before it. */
  lemma {:induction false} BadTextLeaves(n: nat, ids: seq<Option<int>>, d: set<nat>)
    ensures MarkAll(n, ids, d).BadText? ==> MarkAll(n, Before(ids), d) == Marked(MarkAll(n, ids, d).places)
    ensures MarkAll(n, ids, d).BadText? ==> MarkAll(n, ids, d).places == d + Doomed(n, Before(ids))
    decreases |ids|
  {
    if ids != [] && ids[0].Some? {
      assert Before(ids)[0] == ids[0] && Before(ids)[1..] == Before(ids[1..]);
      var k := Normal(n, ids[0].value);
      BadTextLeaves(n, ids[1..], if k.Some? then d + {k.value} else d);
    }
  }

  /** When all goes well, exactly the places named are marked. */
  lemma {:induction false} MarksDoomed(n: nat, ids: seq<Option<int>>, d: set<nat>)
    ensures MarkAll(n, ids, d).Marked? ==> MarkAll(n, ids, d).places == d + Doomed(n, ids) && None !in ids
    ensures MarkAll(n, ids, d).BadText? ==> None in ids
    decreases |ids|
  {
    if ids != [] && ids[0].Some? {
      var k := Normal(n, ids[0].value);
      MarksDoomed(n, ids[1..], if k.Some? then d + {k.value} else d);
    }
  }

  // ------------------------------------------------------ several deletions

  lemma {:induction false} MarkCat(n: nat, a: seq<Option<int>>, b: seq<Option<int>>, d: set<nat>)
    requires None !in a
    ensures MarkAll(n, a + b, d)
            == match MarkAll(n, a, d) case Marked(e) => MarkAll(n, b, e) case BadText(e) => BadText(e) case FreesMarker => FreesMarker
    decreases |a|
  {
    if a == [] {
      assert a + b == b;
    } else {
      assert (a + b)[0] == a[0] && (a + b)[1..] == a[1..] + b;
      assert a[0] in a && forall x :: x in a[1..] ==> x in a;
      var k := Normal(n, a[0].value);
      MarkCat(n, a[1..], b, if k.Some? then d + {k.value} else d);
    }
  }

  /** The places marked after deletions that were all refused for bad text, None if one was not. */
  function Refusals(n: nat, calls: seq<seq<Option<int>>>, d: set<nat>): Option<set<nat>> {
    if calls == [] then Some(d)
    else match MarkAll(n, calls[0], d)
         case BadText(e) => Refusals(n, calls[1..], e)
         case _ => None
  }

  /** All the indices that these deletions got to. */
  function Earlier(calls: seq<seq<Option<int>>>): (r: seq<Option<int>>)
    ensures None !in r
  {
    if calls == [] then [] else Before(calls[0]) + Earlier(calls[1..])
  }

  lemma {:induction false} SessionIsOneCall(n: nat, calls: seq<seq<Option<int>>>, ids: seq<Option<int>>, d: set<nat>)
    requires Refusals(n, calls, d).Some?
    ensures MarkAll(n, ids, Refusals(n, calls, d).value) == MarkAll(n, Earlier(calls) + ids, d)
    decreases |calls|
  {
    if calls == [] {
      assert [] + ids == ids;
    } else {
      var (a, rest) := (Before(calls[0]), Earlier(calls[1..]));
      BadTextLeaves(n, calls[0], d);
      SessionIsOneCall(n, calls[1..], ids, MarkAll(n, calls[0], d).places);
      MarkCat(n, a, rest + ids, d);
      assert (a + rest) + ids == a + (rest + ids);
    }
  }

  /** After any deletions that were refused for bad text, a deletion frees the marker string
      exactly if a place is named twice in all of them together, before bad text. */
  lemma FreesMarkerInSession(n: nat, calls: seq<seq<Option<int>>>, ids: seq<Option<int>>)
    requires Refusals(n, calls, {}).Some?
    ensures MarkAll(n, ids, Refusals(n, calls, {}).value).FreesMarker? <==> NamedTwice(n, Earlier(calls) + ids, {})
  {
    SessionIsOneCall(n, calls, ids, {});
    FreesMarkerIff(n, Earlier(calls) + ids, {});
  }

  /** "0,x" is refused, and then "0" frees the marker, though neither names a place twice. */
  lemma FreesMarkerInSessionWitness()
    ensures Refusals(2, [[Some(0), None]], {}) == Some({0}) && MarkAll(2, [Some(0)], {0}) == FreesMarker
    ensures !NamedTwice(2, [Some(0), None], {}) && !NamedTwice(2, [Some(0)], {})
  {
    assert [Some(0), None][1..] == [None] && [Some(0)][1..] == [];
    assert MarkAll(2, [Some(0), None], {}) == MarkAll(2, [None], {} + {0}) == BadText({0});
    assert MarkAll(2, [Some(0)], {}) == MarkAll(2, [], {} + {0});
    assert [[Some(0), None]][1..] == [];
    FreesMarkerIff(2, [Some(0), None], {});
    FreesMarkerIff(2, [Some(0)], {});
  }

  // ------------------------------------------------------ marked lists

  function MarksIn(l: seq<Cell>): set<nat> {
    set k: nat | k < |l| && l[k].Marker?
  }

  /** The entries of l, the first of which has place `from`, whose places are not in d. */
  function Survivors(l: seq<Cell>, from: nat, d: set<nat>): seq<Cell> {
    if l == [] then [] else (if from in d then [] else [l[0]]) + Survivors(l[1..], from + 1, d)
  }

  function Unmarked(l: seq<Cell>): seq<Cell> {
    if l == [] then [] else (if l[0].Marker? then [] else [l[0]]) + Unmarked(l[1..])
  }

  /** m is l, whose first entry has place `from`, with the places in d marked. */
  ghost predicate MarkedAt(l: seq<Cell>, m: seq<Cell>, from: nat, d: set<nat>) {
    |m| == |l| && forall k {:trigger m[k]} :: 0 <= k < |l| ==> m[k] == if from + k in d then Marker else l[k]
  }

  /** Squeezing out the marked entries leaves those whose places were not named. */
  lemma {:induction false} UnmarkedIsSurvivors(l: seq<Cell>, m: seq<Cell>, from: nat, d: set<nat>)
    requires MarkedAt(l, m, from, d) && forall k :: 0 <= k < |l| && l[k].Marker? ==> from + k in d
    ensures Unmarked(m) == Survivors(l, from, d)
    decreases |l|
  {
    if l != [] {
      var (l', m') := (l[1..], m[1..]);
      forall k | 0 <= k < |l'| ensures m'[k] == if from + 1 + k in d then Marker else l'[k] {
        assert m[k + 1] == if from + (k + 1) in d then Marker else l[k + 1];
      }
      forall k | 0 <= k < |l'| && l'[k].Marker? ensures from + 1 + k in d { assert l[k + 1].Marker?; }
      assert m[0] == if from + 0 in d then Marker else l[0];
      UnmarkedIsSurvivors(l', m', from + 1, d);
    }
  }

  lemma {:induction false} UnmarkedPlain(l: seq<Cell>)
    requires forall k :: 0 <= k < |l| ==> !l[k].Marker?
    ensures Unmarked(l) == l
  {
    if l != [] {
      UnmarkedPlain(l[1..]);
      assert l == [l[0]] + l[1..];
    }
  }

  /** A marked entry can be taken out of the middle. */
  lemma {:induction false} UnmarkedSqueeze(l: seq<Cell>, i: nat)
    requires i < |l| && l[i].Marker?
    ensures Unmarked(l[..i] + l[i + 1..]) == Unmarked(l)
  {
    if i == 0 {
      assert l[..0] + l[1..] == l[1..];
    } else {
      UnmarkedSqueeze(l[1..], i - 1);
      assert l[1..][..i - 1] == l[..i][1..] && l[1..][i..] == l[i + 1..];
      assert (l[..i] + l[i + 1..])[1..] == l[1..][..i - 1] + l[1..][i..];
    }
  }

  // ------------------------------------------------------ the array

  /** The array holds n entries, possibly marked, and nulls from there on. */
  ghost predicate Holds(a: array<Cell>, n: nat)
    reads a
  {
    n < a.Length && (forall k :: 0 <= k < n ==> !a[k].Null?) && (forall k :: n <= k < a.Length ==> a[k].Null?)
  }

  /** `Undefined` is what freeing the marker string leads to. */
  datatype Outcome = Refused(code: int) | Undefined | Done

  function OutcomeOf(m: Marking): Outcome {
    match m case Marked(_) => Done case BadText(_) => Refused(INVALID) case FreesMarker => Undefined
  }

  /** First loop: marks the named places, in a list that may have marks already.  The marks
      made before bad text stay. */
  method Mark(a: array<Cell>, n: nat, ids: seq<Option<int>>) returns (r: Outcome)
    requires Holds(a, n)
    modifies a
    ensures Holds(a, n)
    ensures var m := MarkAll(n, ids, MarksIn(old(a[..n])));
            r == OutcomeOf(m) && (!m.FreesMarker? ==> MarkedAt(old(a[..n]), a[..n], 0, m.places))
  {
    ghost var l := a[..n];
    ghost var d: set<nat> := MarksIn(l);
    var i := 0;
    assert ids[0..] == ids;
    while i < |ids|
      invariant i <= |ids| && Holds(a, n) && MarkedAt(l, a[..n], 0, d) && MarksIn(l) <= d
      invariant MarkAll(n, ids[i..], d) == MarkAll(n, ids, MarksIn(l))
    {
      assert ids[i..][0] == ids[i] && ids[i..][1..] == ids[i + 1..];
      if ids[i].None? { return Refused(INVALID); }
      var id := ids[i].value;
      i := i + 1;
      if id >= n || id < 0 - n { continue; }
      if id < 0 { id := n + id; }
      assert a[..n][id] == if 0 + id in d then Marker else l[id];
      assert id !in d ==> id !in MarksIn(l);
      if a[id] == Marker { return Undefined; }
      a[id] := Marker;
      d := d + {id};
    }
    r := Done;
  }

  /** Second loop: squeezes the marked entries out.  After the last entry has been taken out
      the index steps over the new end; the cell it then looks at is null as well. */
  method Compact(a: array<Cell>, n: nat) returns (m: nat)
    requires Holds(a, n)
    modifies a
    ensures Holds(a, m) && m <= n && a[..m] == Unmarked(old(a[..n]))
  {
    ghost var l := a[..n];
    m := n;
    var i := 0;
    while a[i] != Null
      invariant m <= n && Holds(a, m) && (i <= m || (i == m + 1 && m < n))
      invariant forall k :: 0 <= k < i && k < m ==> !a[k].Marker?
      invariant Unmarked(a[..m]) == Unmarked(l)
      decreases n + 1 - i
    {
      while a[i] == Marker
        invariant m <= n && i <= m && Holds(a, m) && (i == m ==> m < n)
        invariant forall k :: 0 <= k < i ==> !a[k].Marker?
        invariant Unmarked(a[..m]) == Unmarked(l)
        decreases m
      {
        UnmarkedSqueeze(a[..m], i);
        ghost var before := a[..m];
        m := MoveDown(a, i, m);
        assert before == a[..i] + [Marker] + before[i + 1..];
        assert a[..m] == before[..i] + before[i + 1..];
      }
      i := i + 1;
    }
    UnmarkedPlain(a[..m]);
  }

  /** Moves everything behind place i one place down, over entry i. */
  method MoveDown(a: array<Cell>, i: nat, m: nat) returns (m': nat)
    requires i < m && Holds(a, m)
    modifies a
    ensures m' == m - 1 && Holds(a, m') && a[..i] == old(a[..i]) && a[i..m'] == old(a[i + 1..m])
  {
    forall k | i <= k < m { a[k] := a[k + 1]; }
    m' := m - 1;
  }

  /** obj_settings_list_del, given the parsed indices and a list, in which earlier refused
      deletions may have left marks.  Freeing the marker string comes of naming a place that is
      marked or was named before.  Bad text leaves the places named before it marked.  Otherwise
      exactly the entries whose places are neither marked nor named remain, in their order,
      behind them one terminator. */
  method Delete(a: array<Cell>, ids: seq<Option<int>>, ghost n: nat) returns (r: Outcome, list: array<Cell>)
    requires Holds(a, n)
    modifies a
    ensures var (l, d) := (old(a[..n]), MarksIn(old(a[..n])));
            && r == (if NamedTwice(n, ids, d) then Undefined else if None in ids then Refused(INVALID) else Done)
            && (r.Refused? ==> list == a && Holds(a, n) && MarkedAt(l, a[..n], 0, d + Doomed(n, Before(ids))))
            && (r.Done? ==> fresh(list) && list[..] == Survivors(l, 0, d + Doomed(n, ids)) + [Null])
  {
    hide Survivors, Unmarked, Doomed, NamedTwice, MarkedAt, MarkAll, Before;
    ghost var (l, d) := (a[..n], MarksIn(a[..n]));
    var count := CountEntries(a, n);
    FreesMarkerIff(n, ids, d);
    MarksDoomed(n, ids, d);
    BadTextLeaves(n, ids, d);
    r := Mark(a, count, ids);
    if r != Done { return r, a; }
    UnmarkedIsSurvivors(l, a[..n], 0, d + Doomed(n, ids));
    var left := Compact(a, count);
    list := Shrink(a, left);
  }

  /** free_obj_settings_list: a list that still has marks frees the marker string. */
  method FreeList(a: array<Cell>, ghost n: nat) returns (r: Outcome)
    requires Holds(a, n)
    ensures r == if MarksIn(a[..n]) == {} then Done else Undefined
  {
    var k := 0;
    while a[k] != Null
      invariant k <= n && forall j :: 0 <= j < k ==> !a[j].Marker?
      decreases n - k
    {
      if a[k] == Marker {
        assert a[..n][k].Marker? && k in MarksIn(a[..n]);
        return Undefined;
      }
      k := k + 1;
    }
    r := Done;
  }

  /** The place of the only entry, named once from either end. */
  lemma FreesMarkerWitness()
    ensures NamedTwice(1, [Some(0), Some(-1)], {})
  {
    FreesMarkerIff(1, [Some(0), Some(-1)], {});
    assert [Some(0), Some(-1)][1..] == [Some(-1)];
    assert MarkAll(1, [Some(-1)], {} + {0}) == FreesMarker;
  }

  method CountEntries(a: array<Cell>, ghost n: nat) returns (count: nat)
    requires Holds(a, n)
    ensures count == n
  {
    count := 0;
    while a[count] != Null
      invariant count <= n
      decreases n - count
    {
      count := count + 1;
    }
  }

  /** Keeps the m entries and one terminator. */
  method Shrink(a: array<Cell>, m: nat) returns (list: array<Cell>)
    requires Holds(a, m)
    ensures fresh(list) && list[..] == a[..m] + [Null]
  {
    list := new Cell[m + 1](_ => Null);
    forall k | 0 <= k < m { list[k] := a[k]; }
  }
}
