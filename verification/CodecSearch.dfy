/** find_codec of codec-cfg.c, which callers use as an iterator: each call starts behind the
    codec the last one returned. */
module CodecSearch {
  import opened Wrappers

  /** CODECS_MAX_FOURCC codes and what each is mapped to. */
  const MAX_FOURCC := 92

  datatype Codec = Codec(fourcc: seq<int>, fourccmap: seq<int>, dummy: bool)

  predicate Table(cs: seq<Codec>) {
    forall k :: 0 <= k < |cs| ==> |cs[k].fourcc| == MAX_FOURCC && |cs[k].fourccmap| == MAX_FOURCC
  }

  // ------------------------------------------------------ what the search means

  predicate Serves(c: Codec, fourcc: int) {
    c.dummy || fourcc in c.fourcc
  }

  /** The entry whose mapping is used: a dummy codec's first, otherwise the first equal one. */
  function EntryOf(c: Codec, fourcc: int, j: nat): (r: nat)
    requires j <= |c.fourcc|
    ensures j <= r <= |c.fourcc|
    decreases |c.fourcc| - j
  {
    if j == |c.fourcc| || c.dummy || c.fourcc[j] == fourcc then j else EntryOf(c, fourcc, j + 1)
  }

  lemma {:induction false} EntryFound(c: Codec, fourcc: int, j: nat)
    requires j < |c.fourcc|
    ensures var r := EntryOf(c, fourcc, j);
            && (r < |c.fourcc| <==> c.dummy || fourcc in c.fourcc[j..])
            && (r < |c.fourcc| ==> c.dummy || c.fourcc[r] == fourcc)
            && forall k :: j <= k < r ==> c.fourcc[k] != fourcc
    decreases |c.fourcc| - j
  {
    assert c.fourcc[j..] == [c.fourcc[j]] + c.fourcc[j + 1..];
    if !c.dummy && c.fourcc[j] != fourcc && j + 1 < |c.fourcc| { EntryFound(c, fourcc, j + 1); }
  }

  /** The first codec from place i on that serves the code; with `force`, any codec does. */
  function Next(cs: seq<Codec>, fourcc: int, force: bool, i: nat): (r: Option<nat>)
    ensures r.Some? ==> i <= r.value < |cs| && (force || Serves(cs[r.value], fourcc))
    ensures forall k :: i <= k < (if r.Some? then r.value else |cs|) ==> !force && !Serves(cs[k], fourcc)
    decreases |cs| - i
  {
    if i >= |cs| then None
    else if force || Serves(cs[i], fourcc) then Some(i)
    else Next(cs, fourcc, force, i + 1)
  }

  /** The places returned by calling again and again, each time from behind the last one. */
  function Found(cs: seq<Codec>, fourcc: int, force: bool, i: nat): seq<nat>
    decreases |cs| - i
  {
    match Next(cs, fourcc, force, i)
    case None => []
    case Some(k) => [k] + Found(cs, fourcc, force, k + 1)
  }

  predicate Hit(cs: seq<Codec>, fourcc: int, force: bool, i: nat, k: nat) {
    i <= k < |cs| && (force || Serves(cs[k], fourcc))
  }

  lemma NextHit(cs: seq<Codec>, fourcc: int, force: bool, i: nat)
    ensures match Next(cs, fourcc, force, i)
            case None => forall k: nat :: !Hit(cs, fourcc, force, i, k)
            case Some(r) => forall k: nat :: Hit(cs, fourcc, force, i, k) <==> k == r || Hit(cs, fourcc, force, r + 1, k)
  {
  }

  predicate Increasing(s: seq<nat>) {
    forall m, n :: 0 <= m < n < |s| ==> s[m] < s[n]
  }

  /** Iteration is complete and without repetition: the calls return, in the order of the
      table and then nothing more, exactly the codecs that serve the code. */
  lemma {:induction false} FoundAreServing(cs: seq<Codec>, fourcc: int, force: bool, i: nat)
    ensures var f := Found(cs, fourcc, force, i);
            && Increasing(f)
            && (forall k: nat :: k in f <==> Hit(cs, fourcc, force, i, k))
    decreases |cs| - i
  {
    NextHit(cs, fourcc, force, i);
    var r := Next(cs, fourcc, force, i);
    if r.Some? {
      var k := r.value;
      FoundAreServing(cs, fourcc, force, k + 1);
      var rest := Found(cs, fourcc, force, k + 1);
      forall n | 0 <= n < |rest| ensures k < rest[n] {
        assert rest[n] in rest;
        assert Hit(cs, fourcc, force, k + 1, rest[n]);
      }
      Smallest(k, rest);
    }
  }

  lemma Smallest(k: nat, rest: seq<nat>)
    requires forall n :: 0 <= n < |rest| ==> k < rest[n]
    requires Increasing(rest)
    ensures var f := [k] + rest;
            Increasing(f) && (forall j :: j in f <==> j == k || j in rest)
  {
  }

  // ------------------------------------------------------ the search as written

  /** `start` is the codec returned before, None at first; `map` is untouched when a forced
      codec does not serve the code. */
  method FindCodec(cs: seq<Codec>, fourcc: int, start: Option<nat>, force: bool, map0: int)
    returns (c: Option<nat>, map1: int)
    requires Table(cs)
    ensures c == Next(cs, fourcc, force, if start.Some? then start.value + 1 else 0)
    ensures map1 == if c.Some? && Serves(cs[c.value], fourcc)
                    then cs[c.value].fourccmap[Mapped(cs[c.value], fourcc)] else map0
  {
    map1 := map0;
    ghost var from := if start.Some? then start.value + 1 else 0;
    for k := 0 to |cs|
      invariant Next(cs, fourcc, force, if k < from then from else k) == Next(cs, fourcc, force, from)
    {
      if start.Some? && k <= start.value { continue; }
      EntryFound(cs[k], fourcc, 0);
      assert cs[k].fourcc[0..] == cs[k].fourcc;
      for j := 0 to MAX_FOURCC
        invariant EntryOf(cs[k], fourcc, j) == EntryOf(cs[k], fourcc, 0)
      {
        if cs[k].fourcc[j] == fourcc || cs[k].dummy { return Some(k), cs[k].fourccmap[j]; }
      }
      if force { return Some(k), map0; }
    }
    c := None;
  }

  function Mapped(c: Codec, fourcc: int): (r: nat)
    requires |c.fourcc| == MAX_FOURCC && Serves(c, fourcc)
    ensures r < MAX_FOURCC
    ensures if c.dummy then r == 0 else c.fourcc[r] == fourcc && fourcc !in c.fourcc[..r]
  {
    EntryFound(c, fourcc, 0);
    assert c.fourcc[0..] == c.fourcc;
    EntryOf(c, fourcc, 0)
  }
}
