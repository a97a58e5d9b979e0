/** The numbering of subtitles in command.c: the subtitles of three sources share one global
    position, -1 stands for none, and properties step through positions and sources. */
module Subtitles {
  import opened Wrappers

  const DEMUX := 2
  const SOURCES := 3
  const MAX_S_STREAMS := 256

  type Counts = c: seq<nat> | |c| == SOURCES witness [0, 0, 0]

  // ------------------------------------------------------ positions

  function Before(c: Counts, src: nat): nat
    requires src <= SOURCES
  {
    if src == 0 then 0 else Before(c, src - 1) + c[src - 1]
  }

  function Size(c: Counts): nat {
    Before(c, SOURCES)
  }

  /** sub_pos_by_source. */
  function PosBySource(c: Counts, src: nat): int {
    if src >= SOURCES || c[src] == 0 then -1 else Before(c, src)
  }

  /** sub_source_and_index_by_pos, from source `i` on. */
  function LocateFrom(c: Counts, pos: int, i: nat): (int, int)
    requires i <= SOURCES
    decreases SOURCES - i
  {
    if i == SOURCES then (-1, -1)
    else if Before(c, i) <= pos < Before(c, i) + c[i] then (i, pos - Before(c, i))
    else LocateFrom(c, pos, i + 1)
  }

  function Locate(c: Counts, pos: int): (int, int) {
    LocateFrom(c, pos, 0)
  }

  function SourceOf(c: Counts, pos: int): int {
    Locate(c, pos).0
  }

  lemma {:induction false} BeforeGrows(c: Counts, i: nat, j: nat)
    requires i < j <= SOURCES
    ensures Before(c, i) + c[i] <= Before(c, j)
  {
    if i + 1 < j { BeforeGrows(c, i, j - 1); }
  }

  lemma {:induction false} LocatesFrom(c: Counts, pos: int, i: nat)
    requires i <= SOURCES
    ensures var (src, k) := LocateFrom(c, pos, i);
            if Before(c, i) <= pos < Size(c)
            then i <= src < SOURCES && 0 <= k < c[src] && Before(c, src) + k == pos
            else pos < Before(c, i) || pos >= Size(c) ==> (src, k) == (-1, -1)
    decreases SOURCES - i
  {
    if i < SOURCES {
      BeforeGrows(c, i, SOURCES);
      LocatesFrom(c, pos, i + 1);
    }
  }

  /** Positions 0 to size - 1 and the subtitles of all sources correspond one to one; any
      other position has no subtitle. */
  lemma PositionsAreSubtitles(c: Counts, pos: int, src: nat, k: nat)
    ensures var (s, i) := Locate(c, pos);
            if 0 <= pos < Size(c)
            then 0 <= s < SOURCES && 0 <= i < c[s] && PosBySource(c, s) + i == pos
            else (s, i) == (-1, -1)
    ensures src < SOURCES && k < c[src]
            ==> 0 <= PosBySource(c, src) + k < Size(c) && Locate(c, PosBySource(c, src) + k) == (src, k)
  {
    LocatesFrom(c, pos, 0);
    if src < SOURCES && k < c[src] {
      var p := Before(c, src) + k;
      BeforeGrows(c, src, SOURCES);
      LocatesFrom(c, p, 0);
      var (s, _) := Locate(c, p);
      if s < src { BeforeGrows(c, s, src); }
      if s > src { BeforeGrows(c, src, s); }
    }
  }

  // ------------------------------------------------------ stepping through positions

  function Up(size: nat, pos: int): int
    requires pos >= -2
  {
    (pos + 2) % (size + 1) - 1
  }

  function Down(size: nat, pos: int): int
    requires pos >= -2 && size > 0
  {
    (pos + (size + 1)) % (size + 1) - 1
  }

  predicate InRange(size: nat, pos: int) {
    -1 <= pos < size
  }

  lemma UpAndDown(size: nat, pos: int)
    requires InRange(size, pos) && size > 0
    ensures Up(size, pos) == if pos == size - 1 then -1 else pos + 1
    ensures Down(size, pos) == if pos == -1 then size - 1 else pos - 1
  {
    if pos == size - 1 { Remainder(pos + 2, 1, 0, size + 1); } else { Remainder(pos + 2, 0, pos + 2, size + 1); }
    if pos == -1 { Remainder(size, 0, size, size + 1); } else { Remainder(pos + (size + 1), 1, pos, size + 1); }
  }

  lemma Remainder(a: int, q: int, r: nat, n: nat)
    requires a == q * n + r && r < n
    ensures a % n == r
  {
    var d := a / n - q;
    assert a == (a / n) * n + a % n;
    assert (a / n) * n == d * n + q * n by { Distributes(d, q, n); }
    FarApart(d, n);
  }

  lemma Distributes(d: int, q: int, n: int)
    ensures (d + q) * n == d * n + q * n
  {}

  lemma FarApart(d: int, n: nat)
    ensures d == 0 || d * n >= n || d * n <= 0 - n
  {
    if d > 0 { Distributes(d - 1, 1, n); } else if d < 0 { Distributes(d + 1, -1, n); }
  }

  function Ups(size: nat, pos: int, n: nat): int
    requires pos >= -2
    ensures Ups(size, pos, n) >= -2
    decreases n
  {
    if n == 0 then pos else Ups(size, Up(size, pos), n - 1)
  }

  lemma InverseSteps(size: nat, pos: int)
    requires InRange(size, pos) && size > 0
    ensures InRange(size, Up(size, pos)) && Down(size, Up(size, pos)) == pos
    ensures InRange(size, Down(size, pos)) && Up(size, Down(size, pos)) == pos
  {
    UpAndDown(size, pos);
    UpAndDown(size, Up(size, pos));
    UpAndDown(size, Down(size, pos));
  }

  /** n steps up first reach the last position, then none, then start over. */
  lemma {:induction false} UpsReach(size: nat, pos: int, n: nat)
    requires InRange(size, pos) && n <= size + 1
    ensures Ups(size, pos, n) == if pos + n < size then pos + n else pos + n - (size + 1)
    decreases n
  {
    if n > 0 {
      if pos == size - 1 { Remainder(pos + 2, 1, 0, size + 1); } else { Remainder(pos + 2, 0, pos + 2, size + 1); }
      UpsReach(size, Up(size, pos), n - 1);
    }
  }

  /** Stepping up visits all of none, 0, ..., size - 1 before it comes back. */
  lemma StepsAreACycle(size: nat, pos: int, n: nat)
    requires InRange(size, pos) && 0 < n <= size + 1
    ensures Ups(size, pos, n) == pos <==> n == size + 1
  {
    UpsReach(size, pos, n);
  }

  // ------------------------------------------------------ stepping through sources

  function NextSource(source: int, step: int): int {
    if source + step >= SOURCES then -1 else if source + step < -1 then SOURCES - 1 else source + step
  }

  predicate Stop(c: Counts, s: int)
    requires -1 <= s < SOURCES
  {
    s == -1 || c[s] > 0
  }

  function Sign(n: int): int {
    if n > 0 then 1 else -1
  }

  function Magnitude(n: int): nat {
    if n > 0 then n else 0 - n
  }

  /** How far a step in the given direction is from the stop every round has. */
  function ToNone(s: int, n: int): int {
    if n > 0 then SOURCES - s else if s == -1 then SOURCES + 1 else s + 1
  }

  /** The stepping loop of mp_property_sub_source with `n` steps to go. */
  function StepSource(c: Counts, cur: int, s: int, n: int): int
    requires -1 <= s < SOURCES
    decreases Magnitude(n), ToNone(s, n)
  {
    if n == 0 then s
    else
      var next := NextSource(s, Sign(n));
      StepSource(c, cur, next, if next == cur || Stop(c, next) then n - Sign(n) else n)
  }

  /** The number of sources up to `s` that have subtitles. */
  function Rank(c: Counts, s: int): nat
    requires -1 <= s < SOURCES
  {
    if s == -1 then 0 else Rank(c, s - 1) + if c[s] > 0 then 1 else 0
  }

  function Stops(c: Counts): (m: nat)
    ensures m > 0
  {
    Rank(c, SOURCES - 1) + 1
  }

  function Wrap(k: int, m: nat): int
    requires m > 0
  {
    k % m
  }

  lemma WrapTwice(a: int, m: nat)
    requires m > 0
    ensures Wrap(a + m, m) == Wrap(a, m) && Wrap(a - m, m) == Wrap(a, m)
  {
    var q, r := a / m, a % m;
    assert a + m == (q + 1) * m + r && a - m == (q - 1) * m + r;
    Remainder(a + m, q + 1, r, m);
    Remainder(a - m, q - 1, r, m);
  }

  lemma RanksOf(c: Counts)
    ensures Rank(c, -1) == 0
    ensures Rank(c, 0) == if c[0] > 0 then 1 else 0
    ensures Rank(c, 1) == Rank(c, 0) + if c[1] > 0 then 1 else 0
    ensures Rank(c, 2) == Rank(c, 1) + if c[2] > 0 then 1 else 0
  {
    assert Rank(c, 1) == Rank(c, 0) + if c[1] > 0 then 1 else 0;
  }

  lemma RankUp(c: Counts, s: int)
    requires -1 <= s < SOURCES
    ensures var next := NextSource(s, 1);
            && -1 <= next < SOURCES
            && (if next == -1 then Rank(c, s) + 1 == Stops(c) && Rank(c, next) == 0
                else Rank(c, next) == if Stop(c, next) then Rank(c, s) + 1 else Rank(c, s))
    ensures Rank(c, s) < Stops(c)
  {
    RanksOf(c);
  }

  lemma {:induction false} StepsUp(c: Counts, cur: int, s: int, n: nat)
    requires -1 <= s < SOURCES && -1 <= cur < SOURCES && Stop(c, cur)
    requires n == 0 ==> Stop(c, s)
    ensures var r := StepSource(c, cur, s, n);
            -1 <= r < SOURCES && Stop(c, r) && Rank(c, r) == Wrap(Rank(c, s) + n, Stops(c))
    decreases n, ToNone(s, n)
  {
    hide Rank, Stops;
    RankUp(c, s);
    if n > 0 {
      var next := NextSource(s, 1);
      StepsUp(c, cur, next, if Stop(c, next) then n - 1 else n);
      WrapTwice(Rank(c, s) + n, Stops(c));
    } else {
      Remainder(Rank(c, s), 0, Rank(c, s), Stops(c));
    }
  }

  /** Where a step down leaves from: at a source that is no stop, above the stop below it. */
  function RankAbove(c: Counts, s: int): nat
    requires -1 <= s < SOURCES
  {
    if Stop(c, s) then Rank(c, s) else Rank(c, s) + 1
  }

  lemma RankDown(c: Counts, s: int)
    requires -1 <= s < SOURCES
    ensures var next := NextSource(s, -1);
            && -1 <= next < SOURCES
            && var above := if Stop(c, next) then RankAbove(c, next) + 1 else RankAbove(c, next);
               if s == -1 then RankAbove(c, s) == 0 && above == Stops(c) else RankAbove(c, s) == above
    ensures Stop(c, s) ==> RankAbove(c, s) == Rank(c, s) && Rank(c, s) < Stops(c)
  {
    RanksOf(c);
  }

  lemma {:induction false} StepsDown(c: Counts, cur: int, s: int, n: nat)
    requires -1 <= s < SOURCES && -1 <= cur < SOURCES && Stop(c, cur)
    requires n == 0 ==> Stop(c, s)
    ensures var r := StepSource(c, cur, s, 0 - n);
            -1 <= r < SOURCES && Stop(c, r) && Rank(c, r) == Wrap(RankAbove(c, s) - n, Stops(c))
    decreases n, ToNone(s, 0 - n)
  {
    hide Rank, Stops, RankAbove;
    RankDown(c, s);
    if n > 0 {
      var next := NextSource(s, -1);
      StepsDown(c, cur, next, if Stop(c, next) then n - 1 else n);
      WrapTwice(RankAbove(c, s) - n, Stops(c));
    } else {
      Remainder(RankAbove(c, s), 0, RankAbove(c, s), Stops(c));
    }
  }

  lemma StopsDiffer(c: Counts, s: int, t: int)
    requires -1 <= s < SOURCES && -1 <= t < SOURCES && Stop(c, s) && Stop(c, t)
    ensures Rank(c, s) == Rank(c, t) <==> s == t
  {
    RanksOf(c);
  }

  /** Any number of steps, up or down, goes round the ring of "none" and the sources that
      have subtitles: it comes back to the source it left exactly after whole rounds, and
      as many steps the other way undo it. */
  lemma SourceSteps(c: Counts, cur: int, n: int)
    requires -1 <= cur < SOURCES && Stop(c, cur)
    ensures var r := StepSource(c, cur, cur, n);
            && -1 <= r < SOURCES && Stop(c, r)
            && Rank(c, r) == Wrap(Rank(c, cur) + n, Stops(c))
            && (r == cur <==> n % Stops(c) == 0)
            && StepSource(c, r, r, 0 - n) == cur
  {
    StepsEitherWay(c, cur, n);
    var r := StepSource(c, cur, cur, n);
    StepsEitherWay(c, r, 0 - n);
    var back := StepSource(c, r, r, 0 - n);
    RanksOf(c);
    var m, k := Stops(c), Rank(c, cur);
    WrapsBack(k, n, m);
    StopsDiffer(c, back, cur);
    StopsDiffer(c, r, cur);
  }

  lemma StepsEitherWay(c: Counts, cur: int, n: int)
    requires -1 <= cur < SOURCES && Stop(c, cur)
    ensures var r := StepSource(c, cur, cur, n);
            -1 <= r < SOURCES && Stop(c, r) && Rank(c, r) == Wrap(Rank(c, cur) + n, Stops(c))
  {
    if n >= 0 { StepsUp(c, cur, cur, n); } else { StepsDown(c, cur, cur, 0 - n); }
  }

  lemma WrapsBack(k: nat, n: int, m: nat)
    requires k < m
    ensures Wrap(Wrap(k + n, m) - n, m) == k
    ensures Wrap(k + n, m) == k <==> n % m == 0
  {
    var q, r := (k + n) / m, (k + n) % m;
    assert r - n == (0 - q) * m + k;
    Remainder(r - n, 0 - q, k, m);
    if r == k {
      Remainder(n, q, 0, m);
    }
    if n % m == 0 {
      Remainder(k + n, n / m, k, m);
    }
  }

  // ------------------------------------------------------ the properties

  /** The demuxer's table of subtitle streams: the sid of each stream there is. */
  type Streams = s: seq<Option<int>> | |s| == MAX_S_STREAMS witness seq(MAX_S_STREAMS, _ => None)

  /** Besides counts and position, the selection that auto-detection reads: `subId` is
      d_sub->id, which is the demuxer's own, and `dvdSub` is dvdsub_id. */
  datatype State = State(counts: Counts, pos: int, subId: int, dvdSub: int)

  datatype Status = Ok | Unavailable

  function CountStreams(s: seq<Option<int>>): nat {
    if s == [] then 0 else CountStreams(s[..|s| - 1]) + if s[|s| - 1].Some? then 1 else 0
  }

  function Known(c: Counts, streams: Streams): Counts {
    if CountStreams(streams) > c[DEMUX] then c[DEMUX := CountStreams(streams)] else c
  }

  /** The demuxer is counted with as many subtitles as it has streams, once they are more than
      were known. */
  lemma {:induction false} StreamsAreCounted(s: seq<Option<int>>)
    ensures CountStreams(s) == |set i: nat | i < |s| && s[i].Some?|
  {
    var there := set i: nat | i < |s| && s[i].Some?;
    if s == [] {
      assert there == {};
    } else {
      var n := |s| - 1;
      StreamsAreCounted(s[..n]);
      var before := set i: nat | i < |s[..n]| && s[..n][i].Some?;
      assert there == before + if s[n].Some? then {n} else {} by {
        forall i: nat ensures i in there <==> i in before + (if s[n].Some? then {n} else {}) {
          if i < n { assert s[..n][i] == s[i]; }
        }
      }
      assert n !in before;
    }
  }

  /** The subtitle that auto-detection finds selected, negative for none. */
  function Detection(st: State): int {
    if st.subId >= 0 then st.subId else st.dvdSub
  }

  predicate Fires(c: Counts, id: int) {
    0 <= id < c[DEMUX]
  }

  function Detected(c: Counts, pos: int, id: int): int {
    if pos == -1 && Fires(c, id) then PosBySource(c, DEMUX) + id else pos
  }

  /** update_global_sub_size. */
  function Refresh(st: State, streams: Streams): State {
    var c := Known(st.counts, streams);
    st.(counts := c, pos := Detected(c, st.pos, Detection(st)))
  }

  /** The first stream from i on with this sid. */
  function SidFrom(streams: Streams, sid: int, i: nat): (r: Option<nat>)
    requires i <= MAX_S_STREAMS
    ensures match r
            case Some(k) => i <= k < MAX_S_STREAMS && streams[k] == Some(sid) && forall j :: i <= j < k ==> streams[j] != Some(sid)
            case None => forall j :: i <= j < MAX_S_STREAMS ==> streams[j] != Some(sid)
    decreases MAX_S_STREAMS - i
  {
    if i == MAX_S_STREAMS then None else if streams[i] == Some(sid) then Some(i) else SidFrom(streams, sid, i + 1)
  }

  /** The stream selected for demuxer subtitle k: the first with that sid, or else stream k
      itself if there is one, or else none. */
  function StreamFor(streams: Streams, k: nat): (i: int)
    ensures i == -2 || 0 <= i < MAX_S_STREAMS
    ensures i >= 0 && (exists j :: 0 <= j < MAX_S_STREAMS && k < MAX_S_STREAMS && streams[j] == Some(k))
            ==> streams[i] == Some(k) && forall j :: 0 <= j < i ==> streams[j] != Some(k)
    ensures k < MAX_S_STREAMS && (forall j :: 0 <= j < MAX_S_STREAMS ==> streams[j] != Some(k))
            ==> i == if streams[k] == None then -2 else k
    ensures i == -2 <==> k >= MAX_S_STREAMS || (streams[k] == None && forall j :: 0 <= j < MAX_S_STREAMS ==> streams[j] != Some(k))
  {
    if k >= MAX_S_STREAMS then -2
    else match SidFrom(streams, k, 0)
         case Some(i) => i
         case None => if streams[k].Some? then k else -2
  }

  /** The selection that goes with the position: none unless it is a demuxer subtitle. */
  function Select(st: State, streams: Streams): State {
    var (source, k) := Locate(st.counts, st.pos);
    if source == DEMUX && k >= 0 then st.(subId := StreamFor(streams, k), dvdSub := k) else st.(subId := -2, dvdSub := -1)
  }

  datatype Action = Set(arg: int) | StepUp | StepDown

  function Clamp(size: nat, arg: int): int {
    if arg < -1 then -1 else if arg >= size then size - 1 else arg
  }

  function Move(size: nat, pos: int, action: Action): int
    requires pos >= -2 && size > 0
  {
    match action
    case Set(arg) => Clamp(size, arg)
    case StepUp => Up(size, pos)
    case StepDown => Down(size, pos)
  }

  /** mp_property_sub, up to the position and the demuxer's selection. */
  function SubProperty(st: State, streams: Streams, action: Action): (State, Status)
    requires st.pos >= -2
  {
    var r := Refresh(st, streams);
    if Size(r.counts) == 0 then (r, Unavailable)
    else (Select(r.(pos := Move(Size(r.counts), r.pos, action)), streams), Ok)
  }

  /** The position ends up between "none" and the last subtitle, whatever it was before, and
      with "none" nothing is left selected that a later call could detect. */
  lemma SubSettles(st: State, streams: Streams, action: Action)
    requires st.pos >= -2
    ensures var (q, status) := SubProperty(st, streams, action);
            && q.counts == Known(st.counts, streams) && q.pos >= -2 && Refresh(st, streams).pos >= -2
            && (status == Ok <==> Size(q.counts) > 0)
            && (status == Ok ==> InRange(Size(q.counts), q.pos) && (q.pos == -1 ==> Detection(q) < 0))
  {
    var r := Refresh(st, streams);
    PositionsAreSubtitles(r.counts, -1, 0, 0);
  }

  /** A set of a position in range selects it; one below selects none, and one above the last
      subtitle. */
  lemma SetSelects(st: State, streams: Streams, arg: int)
    requires st.pos >= -2
    ensures var (q, status) := SubProperty(st, streams, Set(arg));
            status == Ok ==> q.pos == if arg < -1 then -1 else if arg < Size(q.counts) then arg else Size(q.counts) - 1
  {
  }

  /** So a call that follows finds the position as the last one left it, even if streams have
      come up in between. */
  lemma NextCallAgrees(st: State, streams: Streams, action: Action, later: Streams)
    requires st.pos >= -2
    requires SubProperty(st, streams, action).1 == Ok
    ensures var q := SubProperty(st, streams, action).0; Refresh(q, later).pos == q.pos
  {
    SubSettles(st, streams, action);
  }

  predicate Steps(acts: seq<Action>) {
    forall k :: 0 <= k < |acts| ==> !acts[k].Set?
  }

  /** Steps up less steps down. */
  function Net(acts: seq<Action>): int {
    if acts == [] then 0
    else (match acts[0] case StepUp => 1 case StepDown => -1 case Set(_) => 0) + Net(acts[1..])
  }

  function RunSub(st: State, streams: Streams, acts: seq<Action>): State
    requires st.pos >= -2 && Steps(acts)
    decreases |acts|
  {
    if acts == [] then st
    else
      SubSettles(st, streams, acts[0]);
      RunSub(SubProperty(st, streams, acts[0]).0, streams, acts[1..])
  }

  /** Whole runs of steps through the property: the position moves round the ring of "none"
      and all subtitles by the steps up less the steps down, from where the first call finds
      it, even beyond the last subtitle.  Only that first call can meet a selection of the
      demuxer's own. */
  lemma {:induction false} StepsAddUp(st: State, streams: Streams, acts: seq<Action>)
    requires st.pos >= -2 && Steps(acts) && acts != []
    requires Size(Known(st.counts, streams)) > 0
    ensures var r := Refresh(st, streams);
            var size := Size(r.counts);
            r.pos >= -2 && RunSub(st, streams, acts).pos == Wrap(r.pos + 1 + Net(acts), size + 1) - 1
    decreases |acts|
  {
    hide SubProperty, Refresh, Known, Size;
    var r := Refresh(st, streams);
    var size := Size(r.counts);
    var q := SubProperty(st, streams, acts[0]).0;
    StepMoves(st, streams, acts[0]);
    SubSettles(st, streams, acts[0]);
    if |acts| > 1 {
      StepsAddUp(q, streams, acts[1..]);
      WrapInside(r.pos + 1 + Net([acts[0]]), Net(acts[1..]), size + 1);
    } else {
      assert acts[1..] == [];
    }
    assert [acts[0]][1..] == [];
    assert Net(acts) == Net([acts[0]]) + Net(acts[1..]);
  }

  /** One step through the property, and what the next call finds. */
  lemma StepMoves(st: State, streams: Streams, action: Action)
    requires st.pos >= -2 && !action.Set? && Size(Known(st.counts, streams)) > 0
    ensures var r := Refresh(st, streams);
            var (q, status) := SubProperty(st, streams, action);
            && status == Ok && r.counts == q.counts == Known(st.counts, streams) == Known(q.counts, streams)
            && Refresh(q, streams) == q
            && q.pos == Wrap(r.pos + 1 + Net([action]), Size(r.counts) + 1) - 1
  {
    hide Before;
    var r := Refresh(st, streams);
    SubSettles(st, streams, action);
    OneStep(Size(r.counts), r.pos, action);
    SelectKeepsPos(r.(pos := Move(Size(r.counts), r.pos, action)), streams);
    assert [action][1..] == [];
  }

  lemma SelectKeepsPos(st: State, streams: Streams)
    ensures Select(st, streams).pos == st.pos && Select(st, streams).counts == st.counts
  {}

  lemma OneStep(size: nat, pos: int, action: Action)
    requires pos >= -2 && size > 0 && !action.Set?
    ensures Move(size, pos, action) == Wrap(pos + 1 + (if action.StepUp? then 1 else -1), size + 1) - 1
  {
    if action.StepDown? { WrapTwice(pos, size + 1); }
  }

  lemma WrapInside(a: int, b: int, m: nat)
    requires m > 0
    ensures Wrap(Wrap(a, m) + b, m) == Wrap(a + b, m)
  {
    var (q, r) := (a / m, a % m);
    var (p, x) := ((r + b) / m, (r + b) % m);
    assert a + b == q * m + (p * m + x);
    Distributes(q, p, m);
    Remainder(a + b, q + p, x, m);
  }

  /** A step up and then a step down lead back to where they began exactly when that is in
      range, and the first call does not find "none" with a selection of the demuxer's own to
      take up. */
  lemma UpThenDown(st: State, streams: Streams)
    requires Size(Known(st.counts, streams)) > 0 && st.pos >= -2
    ensures var c := Known(st.counts, streams);
            var there := SubProperty(st, streams, StepUp).0;
            && there.pos >= -2
            && var back := SubProperty(there, streams, StepDown).0;
            && InRange(Size(c), back.pos)
            && (InRange(Size(c), Refresh(st, streams).pos) ==> back.pos == Refresh(st, streams).pos)
            && (back.pos == st.pos <==> InRange(Size(c), st.pos) && !(st.pos == -1 && Fires(c, Detection(st))))
  {
    hide SubProperty, Before;
    var r := Refresh(st, streams);
    var there := SubProperty(st, streams, StepUp).0;
    StepMoves(st, streams, StepUp);
    SubSettles(st, streams, StepUp);
    StepMoves(there, streams, StepDown);
    SubSettles(there, streams, StepDown);
    assert Net([StepUp]) == 1 && Net([StepDown]) == -1 by { assert [StepUp][1..] == [] && [StepDown][1..] == []; }
    WrapInside(r.pos + 2, -1, Size(r.counts) + 1);
    if Fires(r.counts, Detection(st)) { PositionsAreSubtitles(r.counts, 0, DEMUX, Detection(st)); }
    if InRange(Size(r.counts), r.pos) {
      Remainder(r.pos + 1, 0, r.pos + 1, Size(r.counts) + 1);
    }
  }

  lemma BeyondWitness(streams: Streams)
    requires CountStreams(streams) == 0
    ensures var beyond := State([0, 2, 0], 5, -2, -1);
            var up := SubProperty(beyond, streams, StepUp).0;
            up.pos == 0 && SubProperty(up, streams, StepDown).0.pos == -1
  {
    var beyond := State([0, 2, 0], 5, -2, -1);
    Sums([0, 2, 0]);
    assert Refresh(beyond, streams) == beyond && Up(2, 5) == 0;
    SelectKeepsPos(State([0, 2, 0], 0, -2, -1), streams);
    assert Down(2, 0) == -1;
  }

  /** From the last of two demuxer subtitles a step up clears the selection, so the step down
      leads back; from "none", with the demuxer's one subtitle selected by itself, it does not,
      nor from a position beyond the last of two subtitles. */
  lemma UpThenDownWitness(streams: Streams)
    requires CountStreams(streams) == 0
    ensures var last := State([0, 0, 2], 1, 1, 1);
            var up := SubProperty(last, streams, StepUp).0;
            up == State([0, 0, 2], -1, -2, -1) && SubProperty(up, streams, StepDown).0.pos == 1
    ensures var auto := State([0, 0, 1], -1, 0, -1);
            var up := SubProperty(auto, streams, StepUp).0;
            up.pos == -1 && SubProperty(up, streams, StepDown).0.pos == 0
    ensures var beyond := State([0, 2, 0], 5, -2, -1);
            var up := SubProperty(beyond, streams, StepUp).0;
            up.pos == 0 && SubProperty(up, streams, StepDown).0.pos == -1
  {
    BeyondWitness(streams);
    Sums([0, 0, 2]);
    Sums([0, 0, 1]);
    var auto := State([0, 0, 1], -1, 0, -1);
    assert Refresh(auto, streams).pos == 0;
    assert SubProperty(auto, streams, StepUp).0.pos == -1;
    UpThenDown(auto, streams);
    var last := State([0, 0, 2], 1, 1, 1);
    PositionsAreSubtitles([0, 0, 2], -1, 0, 0);
    assert Size([0, 0, 2]) == 2 && Refresh(last, streams) == last;
    assert Up(2, 1) == -1;
    UpThenDown(last, streams);
  }

  lemma Sums(c: Counts)
    ensures Before(c, 0) == 0 && Before(c, 1) == c[0] && Before(c, 2) == c[0] + c[1] && Size(c) == c[0] + c[1] + c[2]
  {
    assert Before(c, 1) == Before(c, 0) + c[0];
    assert Before(c, 2) == Before(c, 1) + c[1];
  }

  function Target(c: Counts, source: int): int {
    if source < 0 then -1 else PosBySource(c, source)
  }

  /** The STEP_UP and STEP_DOWN actions of mp_property_sub_source, `n` steps with a sign. */
  function SourceProperty(st: State, streams: Streams, n: int): (State, Status)
    requires st.pos >= -2
  {
    var r := Refresh(st, streams);
    if Size(r.counts) == 0 then (r, Unavailable)
    else
      var cur := SourceOf(r.counts, r.pos);
      var source := (SourceIsStop(r.counts, r.pos); StepSource(r.counts, cur, cur, n));
      if source == cur then (r, Ok)
      else
        (TargetAtLeast(r.counts, source);
        SubProperty(r.(pos := Target(r.counts, source) - 1), streams, StepUp))
  }

  lemma TargetAtLeast(c: Counts, source: int)
    ensures Target(c, source) >= -1
  {}

  /** Selecting a position by a step up from the one before it. */
  lemma Reselect(r: State, streams: Streams, target: int)
    requires Known(r.counts, streams) == r.counts && InRange(Size(r.counts), target) && Size(r.counts) > 0
    ensures var (after, status) := SubProperty(r.(pos := target - 1), streams, StepUp);
            && status == Ok && after.counts == r.counts
            && (after.pos == target <==> !(target == 0 && Fires(r.counts, Detection(r))))
  {
    var (c, size) := (r.counts, Size(r.counts));
    if target == 0 && Fires(c, Detection(r)) {
      PositionsAreSubtitles(c, 0, DEMUX, Detection(r));
      UpAndDown(size, Detected(c, -1, Detection(r)));
    } else if target >= 0 {
      UpAndDown(size, target - 1);
    } else {
      Remainder(0, 0, 0, size + 1);
    }
  }

  lemma TargetIsFirst(c: Counts, source: int)
    requires -1 <= source < SOURCES && Stop(c, source)
    ensures InRange(Size(c), Target(c, source)) && SourceOf(c, Target(c, source)) == source
  {
    if source >= 0 { PositionsAreSubtitles(c, 0, source, 0); } else { PositionsAreSubtitles(c, -1, 0, 0); }
  }

  /** A source property selects the first subtitle of the source the steps lead to. The
      detour over the position before it goes wrong in exactly one case: that position is
      "none", because the source is the first that has subtitles, and the demuxer's own
      selection steps in. */
  lemma SelectsTarget(st: State, streams: Streams, n: int)
    requires st.pos >= -2 && Size(Known(st.counts, streams)) > 0
    ensures var r := Refresh(st, streams);
            var cur := SourceOf(r.counts, r.pos);
            && -1 <= cur < SOURCES && Stop(r.counts, cur)
            && var target := Target(r.counts, StepSource(r.counts, cur, cur, n));
               var (after, status) := SourceProperty(st, streams, n);
            && status == Ok
            && (n % Stops(r.counts) == 0 ==> after == r)
            && (n % Stops(r.counts) != 0
                ==> (after.pos == target <==> !(target == 0 && Fires(r.counts, Detection(r))))
                    && SourceOf(r.counts, target) == StepSource(r.counts, cur, cur, n))
  {
    hide StepSource, SubProperty, Rank, Stops, Before, SourceOf, Target;
    var r := Refresh(st, streams);
    var c := r.counts;
    SourceIsStop(c, r.pos);
    var cur := SourceOf(c, r.pos);
    SourceSteps(c, cur, n);
    var source := StepSource(c, cur, cur, n);
    TargetIsFirst(c, source);
    Reselect(r, streams, Target(c, source));
  }

  lemma SourceIsStop(c: Counts, pos: int)
    ensures -1 <= SourceOf(c, pos) < SOURCES && Stop(c, SourceOf(c, pos))
  {
    PositionsAreSubtitles(c, pos, 0, 0);
  }

  /** Is the selection the one that goes with the position? */
  predicate Selected(st: State, streams: Streams) {
    st == Select(st, streams)
  }

  /** In a state that a property call left behind, a change of source goes wrong exactly when
      it leads from a demuxer subtitle to the first source that has subtitles, and the stream
      of the one left counts as a subtitle. */
  lemma LeavingTheDemuxer(st: State, streams: Streams, n: int)
    requires Size(st.counts) > 0 && Known(st.counts, streams) == st.counts
    requires InRange(Size(st.counts), st.pos) && Selected(st, streams)
    requires n % Stops(st.counts) != 0
    ensures var c := st.counts;
            var (cur, k) := Locate(c, st.pos);
            && -1 <= cur < SOURCES
            && var target := Target(c, StepSource(c, cur, cur, n));
            SourceProperty(st, streams, n).0.pos == target
            <==> !(target == 0 && cur == DEMUX && (k >= 0 && StreamFor(streams, k) < c[DEMUX]))
  {
    hide StepSource, SubProperty, SourceProperty, Rank, Stops, Before, Target;
    PositionsAreSubtitles(st.counts, st.pos, 0, 0);
    assert Refresh(st, streams) == st;
    SelectsTarget(st, streams, n);
  }

  /** One file subtitle and one of the demuxer, which is selected: the step down to the file
      ends at "none". */
  lemma SelectsTargetWitness(streams: Streams)
    requires CountStreams(streams) == 0
    ensures var st := State([1, 0, 1], 1, -2, 0);
            && Selected(st, streams) && StepSource(st.counts, DEMUX, DEMUX, -1) == 0 && Target(st.counts, 0) == 0
            && SourceProperty(st, streams, -1).0 == State([1, 0, 1], -1, -2, -1)
  {
    var (c, st) := ([1, 0, 1], State([1, 0, 1], 1, -2, 0));
    Sums(c);
    forall j | 0 <= j < MAX_S_STREAMS ensures streams[j] == None { NoStreams(streams, j); }
    assert SidFrom(streams, 0, 0) == None;
    assert Locate(c, 1) == (DEMUX, 0) by { PositionsAreSubtitles(c, 1, DEMUX, 0); }
    assert StepSource(c, DEMUX, DEMUX, -1) == StepSource(c, DEMUX, 1, -1) == StepSource(c, DEMUX, 0, 0) == 0;
    assert Locate(c, -1) == (-1, -1) by { PositionsAreSubtitles(c, -1, 0, 0); }
    assert Detected(c, -1, 0) == 1;
    assert Up(2, 1) == -1;
  }

  lemma {:induction false} NoStreams(s: seq<Option<int>>, k: nat)
    requires CountStreams(s) == 0 && k < |s|
    ensures s[k] == None
    decreases |s|
  {
    if k < |s| - 1 { NoStreams(s[..|s| - 1], k); }
  }

  // ------------------------------------------------------ the player's state

  class MpContext {
    var subCounts: seq<nat>
    var globalSubSize: nat
    var globalSubPos: int
    var dSubId: int
    var dvdsubId: int

    /** -2 is where the source property leaves the position for a step up to "none", and the
        removal of the subtitle on display until another is selected. */
    predicate Valid()
      reads this
    {
      |subCounts| == SOURCES && globalSubPos >= -2
    }

    function Abs(): State
      reads this
      requires Valid()
    {
      State(subCounts, globalSubPos, dSubId, dvdsubId)
    }

    constructor ()
      ensures Valid() && Abs() == State([0, 0, 0], -1, -2, -1)
    {
      subCounts, globalSubSize, globalSubPos, dSubId, dvdsubId := [0, 0, 0], 0, -1, -2, -1;
    }

    method SubPosBySource(src: nat) returns (pos: int)
      requires Valid()
      ensures pos == PosBySource(subCounts, src)
    {
      if src >= SOURCES || subCounts[src] == 0 { return -1; }
      pos := 0;
      for i := 0 to src
        invariant pos == Before(subCounts, i)
      {
        pos := pos + subCounts[i];
      }
    }

    method SubSourceAndIndexByPos(pos: int) returns (source: int, index: int)
      requires Valid()
      ensures (source, index) == Locate(subCounts, pos)
    {
      var start := 0;
      for i := 0 to SOURCES
        invariant start == Before(subCounts, i) && LocateFrom(subCounts, pos, i) == Locate(subCounts, pos)
      {
        var cnt := subCounts[i];
        if pos >= start && pos < start + cnt { return i, pos - start; }
        start := start + cnt;
      }
      return -1, -1;
    }

    method UpdateGlobalSubSize(streams: Streams)
      requires Valid()
      modifies this
      ensures Valid() && Abs() == Refresh(old(Abs()), streams)
      ensures globalSubSize == Size(subCounts)
    {
      var cnt := 0;
      for i := 0 to MAX_S_STREAMS
        invariant cnt == CountStreams(streams[..i]) && unchanged(this) && Valid()
      {
        assert streams[..i + 1][..i] == streams[..i];
        if streams[i].Some? { cnt := cnt + 1; }
      }
      assert streams[..MAX_S_STREAMS] == streams;
      if cnt > subCounts[DEMUX] { subCounts := subCounts[DEMUX := cnt]; }
      globalSubSize := 0;
      for i := 0 to SOURCES
        invariant Valid() && Abs() == old(Abs()).(counts := Known(old(subCounts), streams))
        invariant globalSubSize == Before(subCounts, i)
      {
        globalSubSize := globalSubSize + subCounts[i];
      }
      if globalSubPos == -1 {
        var subId := dSubId;
        if subId < 0 { subId := dvdsubId; }
        if subId >= 0 && subId < subCounts[DEMUX] {
          var first := SubPosBySource(DEMUX);
          globalSubPos := first + subId;
        }
      }
    }

    method PropertySub(streams: Streams, action: Action) returns (status: Status)
      requires Valid()
      modifies this
      ensures Valid() && (Abs(), status) == SubProperty(old(Abs()), streams, action)
    {
      UpdateGlobalSubSize(streams);
      if globalSubSize == 0 { return Unavailable; }
      match action {
        case Set(arg) =>
          globalSubPos := if arg < -1 then -1 else if arg >= globalSubSize then globalSubSize - 1 else arg;
        case StepUp =>
          globalSubPos := (globalSubPos + 2) % (globalSubSize + 1) - 1;
        case StepDown =>
          globalSubPos := (globalSubPos + (globalSubSize + 1)) % (globalSubSize + 1) - 1;
      }
      SelectTrack(streams);
      status := Ok;
    }

    /** Clears the demuxer's selection, and sets it again for a demuxer subtitle. */
    method SelectTrack(streams: Streams)
      requires Valid()
      modifies `dSubId, `dvdsubId
      ensures Abs() == Select(old(Abs()), streams)
    {
      PositionsAreSubtitles(subCounts, globalSubPos, 0, 0);
      var source, sourcePos := -1, -1;
      if globalSubPos >= 0 { source, sourcePos := SubSourceAndIndexByPos(globalSubPos); }
      dvdsubId := -1;
      dSubId := -2;
      if source == DEMUX {
        dvdsubId := sourcePos;
        if dvdsubId < MAX_S_STREAMS {
          dSubId := dvdsubId;
          var found := streams[dSubId].Some?;
          for i := 0 to MAX_S_STREAMS
            invariant SidFrom(streams, dvdsubId, i) == SidFrom(streams, dvdsubId, 0)
          {
            if streams[i] == Some(dvdsubId) {
              dSubId, found := i, true;
              break;
            }
          }
          if !found { dSubId := -2; }
        }
      }
    }

    method StepThroughSources(cur: int, n: int) returns (source: int)
      requires Valid() && -1 <= cur < SOURCES
      ensures source == StepSource(subCounts, cur, cur, n)
    {
      var step, left := if n > 0 then 1 else -1, n;
      source := cur;
      while left != 0
        invariant -1 <= source < SOURCES && (left != 0 ==> Sign(left) == step)
        invariant StepSource(subCounts, cur, source, left) == StepSource(subCounts, cur, cur, n)
        decreases Magnitude(left), ToNone(source, left)
      {
        source := source + step;
        if source >= SOURCES {
          source := -1;
        } else if source < -1 {
          source := SOURCES - 1;
        }
        if source == cur || source == -1 || subCounts[source] > 0 { left := left - step; }
      }
    }

    method PropertySubSource(streams: Streams, n: int) returns (status: Status)
      requires Valid()
      modifies this
      ensures Valid() && (Abs(), status) == SourceProperty(old(Abs()), streams, n)
    {
      UpdateGlobalSubSize(streams);
      if globalSubSize == 0 { return Unavailable; }
      var cur, _ := SubSourceAndIndexByPos(globalSubPos);
      SourceIsStop(subCounts, globalSubPos);
      var source := StepThroughSources(cur, n);
      StepsEitherWay(subCounts, cur, n);
      if source == cur { return Ok; }
      if source == -1 {
        globalSubPos := -1;
      } else {
        globalSubPos := SubPosBySource(source);
      }
      TargetAtLeast(subCounts, source);
      globalSubPos := globalSubPos - 1;
      status := PropertySub(streams, StepUp);
    }
  }
}
