/** Edit decision lists: the file reader of edl.c, which builds a doubly linked list of
    records, and the cursor of mplayer.c that follows the list during playback. */
module Edl {
  import opened Wrappers

  const SKIP := 0
  const MUTE := 1

  /** The contents of an edl_record, without its links. */
  datatype Rec = Rec(start: real, stop: real, length: real, action: int)

  /** A line of the file: three numbers, or not. */
  datatype Line = Malformed | Entry(start: real, stop: real, action: int)

  // ------------------------------------------------------ the reader, on values

  /** Is the line dropped, given the records so far? */
  predicate Rejected(rs: seq<Rec>, l: Line) {
    l.Malformed? || (rs != [] && l.start <= rs[|rs| - 1].stop) || l.stop <= l.start
  }

  function RecordsOf(l: Line): seq<Rec>
    requires l.Entry?
  {
    if l.action == MUTE then [Rec(l.start, l.start, 0.0, MUTE), Rec(l.stop, l.stop, 0.0, MUTE)]
    else [Rec(l.start, l.stop, l.stop - l.start, l.action)]
  }

  function AddLine(rs: seq<Rec>, l: Line): seq<Rec> {
    if Rejected(rs, l) then rs else rs + RecordsOf(l)
  }

  function ParseLines(rs: seq<Rec>, ls: seq<Line>): seq<Rec>
    decreases |ls|
  {
    if ls == [] then rs else ParseLines(AddLine(rs, ls[0]), ls[1..])
  }

  // ------------------------------------------------------ the shape of the list

  /** start_1 <= stop_1 < start_2 <= stop_2 < ... */
  ghost predicate Ordered(rs: seq<Rec>) {
    && (forall i :: 0 <= i < |rs| ==> rs[i].start <= rs[i].stop && rs[i].length == rs[i].stop - rs[i].start)
    && (forall i, j :: 0 <= i < j < |rs| ==> rs[i].stop < rs[j].start)
  }

  /** Mute records come in adjacent pairs, a start and an end, each of no length; all other
      records have some. */
  predicate Paired(rs: seq<Rec>) {
    rs == [] ||
    if rs[0].action == MUTE then
      |rs| >= 2 && rs[1].action == MUTE && rs[0].start == rs[0].stop && rs[1].start == rs[1].stop && Paired(rs[2..])
    else rs[0].start < rs[0].stop && Paired(rs[1..])
  }

  lemma {:induction false} PairedAppend(rs: seq<Rec>, l: Line)
    requires Paired(rs) && l.Entry? && l.start < l.stop
    ensures Paired(rs + RecordsOf(l))
    decreases |rs|
  {
    var n := RecordsOf(l);
    if rs == [] {
      assert rs + n == n;
      assert n[1..] == [] || n[2..] == [];
    } else if rs[0].action == MUTE {
      PairedAppend(rs[2..], l);
      assert (rs + n)[2..] == rs[2..] + n;
    } else {
      PairedAppend(rs[1..], l);
      assert (rs + n)[1..] == rs[1..] + n;
    }
  }

  lemma AddLineKeeps(rs: seq<Rec>, l: Line)
    requires Ordered(rs) && Paired(rs)
    ensures Ordered(AddLine(rs, l)) && Paired(AddLine(rs, l)) && rs <= AddLine(rs, l)
  {
    hide Paired;
    if !Rejected(rs, l) {
      PairedAppend(rs, l);
      OrderedAppend(rs, l);
    }
  }

  lemma OrderedAppend(rs: seq<Rec>, l: Line)
    requires Ordered(rs) && !Rejected(rs, l)
    ensures Ordered(rs + RecordsOf(l))
  {
    forall i | 0 <= i < |rs| ensures rs[i].stop < l.start {
      assert i < |rs| - 1 ==> rs[i].stop < rs[|rs| - 1].start;
    }
  }

  /** For any lines whatever, the list read is ordered and its mutes are paired. */
  lemma {:induction false} ListShape(rs: seq<Rec>, ls: seq<Line>)
    requires Ordered(rs) && Paired(rs)
    ensures Ordered(ParseLines(rs, ls)) && Paired(ParseLines(rs, ls)) && rs <= ParseLines(rs, ls)
    decreases |ls|
  {
    if ls != [] {
      AddLineKeeps(rs, ls[0]);
      ListShape(AddLine(rs, ls[0]), ls[1..]);
    }
  }

  // ------------------------------------------------------ which lines make it into the list

  /** The lines that are not dropped. */
  function Accepted(rs: seq<Rec>, ls: seq<Line>): seq<Line>
    decreases |ls|
  {
    if ls == [] then []
    else (if Rejected(rs, ls[0]) then [] else [ls[0]]) + Accepted(AddLine(rs, ls[0]), ls[1..])
  }

  /** The file is in order: every line is three numbers, stops after it starts, and starts
      after the one before it has stopped. */
  ghost predicate InOrder(ls: seq<Line>) {
    && (forall i :: 0 <= i < |ls| ==> ls[i].Entry? && ls[i].start < ls[i].stop)
    && (forall i :: 0 < i < |ls| ==> ls[i - 1].stop < ls[i].start)
  }

  lemma LastStop(rs: seq<Rec>, l: Line)
    requires !Rejected(rs, l)
    ensures var q := AddLine(rs, l); q != [] && q[|q| - 1].stop == l.stop
  {
  }

  lemma {:induction false} AcceptsInOrder(rs: seq<Rec>, ls: seq<Line>)
    ensures |Accepted(rs, ls)| <= |ls|
    ensures Accepted(rs, ls) == ls
            <==> InOrder(ls) && (ls != [] && rs != [] ==> rs[|rs| - 1].stop < ls[0].start)
    decreases |ls|
  {
    if ls != [] {
      var (l, rest) := (ls[0], ls[1..]);
      AcceptsInOrder(AddLine(rs, l), rest);
      if !Rejected(rs, l) {
        LastStop(rs, l);
        assert ls == [l] + rest;
        assert ([l] + Accepted(AddLine(rs, l), rest))[1..] == Accepted(AddLine(rs, l), rest);
        InOrderTail(ls);
      }
    }
  }

  lemma InOrderTail(ls: seq<Line>)
    requires ls != [] && ls[0].Entry? && ls[0].start < ls[0].stop
    ensures InOrder(ls) <==> InOrder(ls[1..]) && (|ls| > 1 ==> ls[0].stop < ls[1].start)
  {
    if InOrder(ls[1..]) && (|ls| > 1 ==> ls[0].stop < ls[1].start) {
      forall i | 0 <= i < |ls| ensures ls[i].Entry? && ls[i].start < ls[i].stop { if i > 0 { assert ls[i] == ls[1..][i - 1]; } }
      forall i | 0 < i < |ls| ensures ls[i - 1].stop < ls[i].start {
        if i > 1 { assert ls[i] == ls[1..][i - 1] && ls[i - 1] == ls[1..][i - 2]; }
      }
    }
    if InOrder(ls) {
      var r := ls[1..];
      forall i | 0 < i < |r| ensures r[i - 1].stop < r[i].start { assert r[i] == ls[i + 1] && r[i - 1] == ls[i]; }
    }
  }

  /** A file keeps all its lines exactly if it is in order. */
  lemma KeepsExactly(ls: seq<Line>)
    ensures Accepted([], ls) == ls <==> InOrder(ls)
  {
    AcceptsInOrder([], ls);
  }

  /** The record of a skip line. */
  function SkipRec(l: Line): Rec
    requires l.Entry?
  {
    Rec(l.start, l.stop, l.stop - l.start, SKIP)
  }

  lemma {:induction false} AcceptedAreEntries(rs: seq<Rec>, ls: seq<Line>, l: Line)
    requires l in Accepted(rs, ls)
    ensures l.Entry? && l.start < l.stop
    decreases |ls|
  {
    if Rejected(rs, ls[0]) || l != ls[0] { AcceptedAreEntries(AddLine(rs, ls[0]), ls[1..], l); }
  }

  /** The skip records of the list are those of the accepted skip lines. */
  lemma {:induction false} SkipRecords(rs: seq<Rec>, ls: seq<Line>, r: Rec)
    requires r.action == SKIP
    ensures r in ParseLines(rs, ls)
            <==> r in rs || exists l :: l in Accepted(rs, ls) && l.Entry? && l.action == SKIP && r == SkipRec(l)
    decreases |ls|
  {
    if ls != [] {
      var (l, q, rest) := (ls[0], AddLine(rs, ls[0]), ls[1..]);
      SkipRecords(q, rest, r);
      var acc := Accepted(q, rest);
      assert Accepted(rs, ls) == (if Rejected(rs, l) then [] else [l]) + acc;
      if exists m :: m in Accepted(rs, ls) && m.Entry? && m.action == SKIP && r == SkipRec(m) {
        var m :| m in Accepted(rs, ls) && m.Entry? && m.action == SKIP && r == SkipRec(m);
        assert m in acc || (!Rejected(rs, l) && m == l);
      }
      if exists m :: m in acc && m.Entry? && m.action == SKIP && r == SkipRec(m) {
        var m :| m in acc && m.Entry? && m.action == SKIP && r == SkipRec(m);
        assert m in Accepted(rs, ls);
      }
      if r in q && r !in rs {
        assert !Rejected(rs, l) && l.action == SKIP && r == SkipRec(l);
        assert l in Accepted(rs, ls);
      }
    }
  }

  // ------------------------------------------------------ following the list

  /** How many records have started at time t. */
  function Started(rs: seq<Rec>, t: real): (r: nat)
    ensures r <= |rs|
    ensures r < |rs| ==> rs[r].start > t
    ensures forall i :: 0 <= i < r ==> rs[i].start <= t
  {
    if rs == [] || rs[0].start > t then 0
    else
      var k := Started(rs[1..], t);
      assert forall i :: 0 < i < 1 + k ==> rs[i] == rs[1..][i - 1];
      1 + k
  }

  lemma Increasing(rs: seq<Rec>)
    requires Ordered(rs)
    ensures forall i, j :: 0 <= i < j < |rs| ==> rs[i].start < rs[j].start
  {
    forall i, j | 0 <= i < j < |rs| ensures rs[i].start < rs[j].start {
      assert rs[i].stop < rs[j].start;
    }
  }

  lemma HasStarted(rs: seq<Rec>, t: real, c: nat)
    requires Ordered(rs) && c < |rs|
    ensures rs[c].start <= t <==> c < Started(rs, t)
  {
    Increasing(rs);
  }

  lemma StartedIs(rs: seq<Rec>, t: real, n: nat)
    requires Ordered(rs) && n <= |rs|
    requires n < |rs| ==> rs[n].start > t
    requires n > 0 ==> rs[n - 1].start <= t
    ensures Started(rs, t) == n
  {
    Increasing(rs);
  }

  /** The mute flag after toggling at each of the first n records that is a mute record. */
  function Toggled(rs: seq<Rec>, n: nat): bool
    requires n <= |rs|
  {
    n > 0 && (Toggled(rs, n - 1) != (rs[n - 1].action == MUTE))
  }

  lemma {:induction false} ToggledDrop(rs: seq<Rec>, n: nat)
    requires 0 < n <= |rs|
    ensures Toggled(rs, n) == (Toggled(rs[1..], n - 1) != (rs[0].action == MUTE))
  {
    if n > 1 { ToggledDrop(rs, n - 1); }
  }

  /** Time t lies in a mute's [start, stop). */
  predicate InMute(rs: seq<Rec>, t: real)
    requires Paired(rs)
  {
    rs != [] &&
    if rs[0].action == MUTE then rs[0].start <= t < rs[1].start || InMute(rs[2..], t)
    else InMute(rs[1..], t)
  }

  lemma OrderedTail(rs: seq<Rec>, k: nat)
    requires Ordered(rs) && k <= |rs|
    ensures Ordered(rs[k..])
  {
  }

  lemma {:induction false} NotBeforeAll(rs: seq<Rec>, t: real)
    requires Ordered(rs) && Paired(rs) && (rs != [] ==> t < rs[0].start)
    ensures !InMute(rs, t) && Started(rs, t) == 0
    decreases |rs|
  {
    if rs != [] {
      var k := if rs[0].action == MUTE then 2 else 1;
      OrderedTail(rs, k);
      NotBeforeAll(rs[k..], t);
    }
  }

  lemma {:induction false} StartedStep(rs: seq<Rec>, t: real)
    requires rs != [] && rs[0].start <= t
    ensures Started(rs, t) == 1 + Started(rs[1..], t)
    ensures Toggled(rs, Started(rs, t)) == (Toggled(rs[1..], Started(rs[1..], t)) != (rs[0].action == MUTE))
  {
    ToggledDrop(rs, Started(rs, t));
  }

  lemma {:induction false} NoneStarted(rs: seq<Rec>, t: real)
    requires Ordered(rs) && (rs != [] ==> t < rs[0].start)
    ensures Started(rs, t) == 0 && !Toggled(rs, 0)
    ensures |rs| > 1 ==> t < rs[1].start
  {
    Increasing(rs);
  }

  /** Toggling at every record started by time t tells exactly whether t is in a mute. */
  lemma {:induction false} ToggledIsInMute(rs: seq<Rec>, t: real)
    requires Ordered(rs) && Paired(rs)
    ensures Toggled(rs, Started(rs, t)) == InMute(rs, t)
    decreases |rs|
  {
    hide Ordered, Started, Toggled;
    if rs == [] || rs[0].start > t {
      NoneStarted(rs, t);
      NotBeforeAll(rs, t);
    } else {
      StartedStep(rs, t);
      OrderedTail(rs, 1);
      if rs[0].action != MUTE {
        ToggledIsInMute(rs[1..], t);
      } else {
        OrderedTail(rs, 2);
        assert rs[1..][1..] == rs[2..];
        if rs[1].start <= t {
          StartedStep(rs[1..], t);
          ToggledIsInMute(rs[2..], t);
        } else {
          NoneStarted(rs[1..], t);
          NotBeforeAll(rs[2..], t);
        }
      }
    }
  }

  /** Some accepted line of the file is a mute whose [start, stop) holds t. */
  predicate MutedByFile(rs: seq<Rec>, ls: seq<Line>, t: real)
    decreases |ls|
  {
    ls != [] &&
    ((!Rejected(rs, ls[0]) && ls[0].action == MUTE && ls[0].start <= t < ls[0].stop)
     || MutedByFile(AddLine(rs, ls[0]), ls[1..], t))
  }

  lemma {:induction false} InMuteAppend(rs: seq<Rec>, l: Line, t: real)
    requires Paired(rs) && l.Entry? && l.start < l.stop && Paired(rs + RecordsOf(l))
    ensures InMute(rs + RecordsOf(l), t) <==> InMute(rs, t) || (l.action == MUTE && l.start <= t < l.stop)
    decreases |rs|
  {
    var n := RecordsOf(l);
    if rs == [] {
      assert rs + n == n;
      assert n[1..] == [] || n[2..] == [];
    } else {
      var k := if rs[0].action == MUTE then 2 else 1;
      assert (rs + n)[k..] == rs[k..] + n;
      InMuteAppend(rs[k..], l, t);
    }
  }

  lemma {:induction false} InMuteOfFile(rs: seq<Rec>, ls: seq<Line>, t: real)
    requires Ordered(rs) && Paired(rs)
    ensures Paired(ParseLines(rs, ls))
    ensures InMute(ParseLines(rs, ls), t) <==> InMute(rs, t) || MutedByFile(rs, ls, t)
    decreases |ls|
  {
    if ls != [] {
      AddLineKeeps(rs, ls[0]);
      if !Rejected(rs, ls[0]) { InMuteAppend(rs, ls[0], t); }
      InMuteOfFile(AddLine(rs, ls[0]), ls[1..], t);
    }
  }

  // ------------------------------------------------------ the cursor

  /** edl_decision with rel_seek_secs: a seek asked for, and the OSD function shown. */
  datatype Request = Rewind(offset: real) | Forward(offset: real)

  /** `cursor` counts the records before next_edl_record. */
  datatype Player = Player(cursor: nat, muted: bool, needsReset: bool, backward: bool,
                           mixerMuted: bool, request: Option<Request>)

  /** Where the walk after a seek stops: a record not yet started, or one not over at t. */
  function ResetIndex(rs: seq<Rec>, t: real, i: nat): (r: nat)
    requires i <= |rs|
    ensures i <= r <= |rs|
    ensures forall k :: i <= k < r ==> rs[k].stop < t
    ensures r < |rs| ==> rs[r].start > t || rs[r].stop >= t
    decreases |rs| - i
  {
    if i == |rs| || rs[i].start > t || rs[i].stop >= t then i else ResetIndex(rs, t, i + 1)
  }

  lemma {:induction false} ResetUnfold(rs: seq<Rec>, t: real, i: nat)
    requires i <= |rs|
    ensures i == |rs| || rs[i].start > t || rs[i].stop >= t ==> ResetIndex(rs, t, i) == i
    ensures i < |rs| && rs[i].start <= t && rs[i].stop < t ==>
              && ResetIndex(rs, t, i) == ResetIndex(rs, t, i + 1)
              && Toggled(rs, i + 1) == (Toggled(rs, i) != (rs[i].action == MUTE))
    ensures !Toggled(rs, 0)
  {
  }

  predicate Inside(rs: seq<Rec>, t: real) {
    var k := ResetIndex(rs, t, 0);
    k < |rs| && rs[k].start <= t
  }

  /** The mixer is muted if the user or the list asks for it. */
  function SyncMixer(p: Player, userMuted: bool): Player {
    p.(mixerMuted := userMuted || p.muted)
  }

  /** The record under the cursor, once it has started, is acted on and passed. */
  function Advance(rs: seq<Rec>, p: Player, t: real, userMuted: bool): Player {
    if p.cursor < |rs| && t >= rs[p.cursor].start then
      var r := rs[p.cursor];
      var q := if r.action == SKIP then p.(request := Some(Forward(r.stop - t)))
               else if r.action == MUTE then SyncMixer(p.(muted := !p.muted), userMuted)
               else p;
      q.(cursor := p.cursor + 1)
    else p
  }

  /** edl_update at time t, with a list and a video stream. */
  function Update(rs: seq<Rec>, p: Player, t: real, userMuted: bool, delay: real): Player {
    if rs == [] then p
    else if p.needsReset then
      var k := ResetIndex(rs, t, 0);
      var q := p.(needsReset := false, cursor := k, muted := Toggled(rs, k));
      if k < |rs| && rs[k].start <= t && p.backward
      then q.(request := Some(Rewind(-(t - rs[k].start + delay))))
      else Advance(rs, SyncMixer(q, userMuted), t, userMuted)
    else Advance(rs, p, t, userMuted)
  }

  /** The cursor and the mute flag are what time t asks for. */
  ghost predicate InSync(rs: seq<Rec>, p: Player, t: real) {
    p.cursor == Started(rs, t) && p.muted == Toggled(rs, p.cursor)
  }

  /** A reset puts the cursor where time t asks for, unless it asks for another seek. */
  lemma ResetSyncs(rs: seq<Rec>, p: Player, t: real, userMuted: bool, delay: real)
    requires Ordered(rs) && rs != [] && p.needsReset && !(p.backward && Inside(rs, t))
    ensures var q := Update(rs, p, t, userMuted, delay);
            InSync(rs, q, t) && !q.needsReset && q.mixerMuted == (userMuted || q.muted)
  {
    var k := ResetIndex(rs, t, 0);
    if k < |rs| && rs[k].start <= t {
      assert k + 1 < |rs| ==> rs[k].stop < rs[k + 1].start;
      StartedIs(rs, t, k + 1);
    } else {
      assert k > 0 ==> rs[k - 1].start <= rs[k - 1].stop;
      StartedIs(rs, t, k);
    }
  }

  /** The early return: a seek backwards that landed inside a record asks for another one,
      to before that record, and leaves the mixer alone. */
  lemma BackwardRequests(rs: seq<Rec>, p: Player, t: real, userMuted: bool, delay: real)
    requires Ordered(rs) && p.needsReset && p.backward && Inside(rs, t) && delay > 0.0
    ensures var q := Update(rs, p, t, userMuted, delay);
            && q.request.Some? && q.request.value.Rewind? && q.mixerMuted == p.mixerMuted && q.cursor < |rs|
            && rs[q.cursor].start <= t <= rs[q.cursor].stop
            && t + q.request.value.offset < rs[q.cursor].start
  {
  }

  /** Between resets one update follows the list exactly when at most one record has started
      since, and none has un-started. */
  lemma StepSyncs(rs: seq<Rec>, p: Player, t0: real, t: real, userMuted: bool, delay: real)
    requires Ordered(rs) && !p.needsReset && InSync(rs, p, t0)
    ensures InSync(rs, Update(rs, p, t, userMuted, delay), t)
            <==> Started(rs, t0) <= Started(rs, t) <= Started(rs, t0) + 1
  {
    hide Ordered, Started;
    if p.cursor < |rs| { HasStarted(rs, t, p.cursor); }
  }

  /** A mute shorter than the time between two updates: the second one finds both of its ends
      passed, and turns the sound off. */
  lemma StepSyncsWitness(p: Player, userMuted: bool, delay: real)
    requires p.cursor == 0 && !p.muted && !p.needsReset
    ensures var rs := ParseLines([], [Entry(1.0, 1.5, MUTE)]);
            && InSync(rs, p, 0.0)
            && var q := Update(rs, p, 2.0, userMuted, delay); q.muted && !InSync(rs, q, 2.0)
  {
    var line := Entry(1.0, 1.5, MUTE);
    var rs := AddLine([], line);
    assert ParseLines([], [line]) == ParseLines(rs, []) == rs by { assert [line][1..] == []; }
    assert rs == [Rec(1.0, 1.0, 0.0, MUTE), Rec(1.5, 1.5, 0.0, MUTE)];
    assert rs[1..][1..] == [];
    assert Started(rs[1..], 2.0) == 1 + Started([], 2.0);
    assert Started(rs, 0.0) == 0 && Started(rs, 2.0) == 2;
    assert Toggled(rs, 1) == !Toggled(rs, 0) && Toggled(rs, 2) == !Toggled(rs, 1);
  }

  /** An update that finds several records started passes one of them; the flag always
      matches the records passed, so later updates catch up. */
  lemma StepCatchesUp(rs: seq<Rec>, p: Player, t: real, userMuted: bool, delay: real)
    requires Ordered(rs) && !p.needsReset && p.cursor <= Started(rs, t) && p.muted == Toggled(rs, p.cursor)
    ensures var q := Update(rs, p, t, userMuted, delay);
            && q.cursor == (if p.cursor < Started(rs, t) then p.cursor + 1 else p.cursor)
            && q.muted == Toggled(rs, q.cursor)
  {
    hide Ordered, Started;
    if p.cursor < |rs| { HasStarted(rs, t, p.cursor); }
  }

  // ------------------------------------------------------ whole sessions

  /** A seek that lands inside a record is followed by a request to go back to before the
      record exactly if the seek went backwards. */
  lemma SeekThenTick(rs: seq<Rec>, p: Player, backwards: bool, t: real, userMuted: bool, delay: real)
    requires Ordered(rs) && Inside(rs, t) && delay > 0.0
    ensures var q := Handle(rs, Handle(rs, p.(request := None), Seek(backwards), delay), Tick(t, userMuted), delay);
            && (q.request.Some? && q.request.value.Rewind? <==> backwards)
            && (backwards ==> q.cursor < |rs| && t + q.request.value.offset < rs[q.cursor].start)
            && (!backwards ==> InSync(rs, q, t))
  {
    var q := Handle(rs, p.(request := None), Seek(backwards), delay);
    if backwards { BackwardRequests(rs, q, t, userMuted, delay); } else { ResetSyncs(rs, q, t, userMuted, delay); }
  }

  datatype Event = Tick(t: real, userMuted: bool) | Seek(backwards: bool)

  function Handle(rs: seq<Rec>, p: Player, e: Event, delay: real): Player {
    match e
    case Tick(t, u) => Update(rs, p, t, u, delay)
    case Seek(b) => if rs == [] then p else p.(needsReset := true, backward := b)
  }

  /** Frames come often enough, and a backward seek that lands in a record is followed by
      the seek it asks for: then every tick is followed exactly. */
  predicate Smooth(rs: seq<Rec>, p: Player, last: real, es: seq<Event>, delay: real)
    decreases |es|
  {
    es == [] ||
    match es[0]
    case Seek(_) => Smooth(rs, Handle(rs, p, es[0], delay), last, es[1..], delay)
    case Tick(t, _) =>
      && (if p.needsReset then !(p.backward && Inside(rs, t))
          else Started(rs, last) <= Started(rs, t) <= Started(rs, last) + 1)
      && Smooth(rs, Handle(rs, p, es[0], delay), t, es[1..], delay)
  }

  function LastTick(es: seq<Event>, last: real): real {
    if es == [] then last
    else if es[|es| - 1].Tick? then es[|es| - 1].t else LastTick(es[..|es| - 1], last)
  }

  function RunEvents(rs: seq<Rec>, p: Player, es: seq<Event>, delay: real): Player
    decreases |es|
  {
    if es == [] then p else RunEvents(rs, Handle(rs, p, es[0], delay), es[1..], delay)
  }

  lemma {:induction false} LastTickHead(es: seq<Event>, last: real)
    requires es != []
    ensures LastTick(es, last) == LastTick(es[1..], if es[0].Tick? then es[0].t else last)
  {
    if |es| > 1 && !es[|es| - 1].Tick? {
      assert es[..|es| - 1][1..] == es[1..][..|es[1..]| - 1];
      LastTickHead(es[..|es| - 1], last);
    }
  }

  /** Incremental following agrees with starting over, over whole sessions of ticks and seeks. */
  lemma {:induction false} SessionInSync(rs: seq<Rec>, p: Player, last: real, es: seq<Event>, delay: real)
    requires Ordered(rs) && rs != [] && (!p.needsReset ==> InSync(rs, p, last)) && Smooth(rs, p, last, es, delay)
    ensures var q := RunEvents(rs, p, es, delay);
            !q.needsReset ==> InSync(rs, q, LastTick(es, last))
    decreases |es|
  {
    if es != [] {
      LastTickHead(es, last);
      match es[0] {
        case Seek(_) =>
          SessionInSync(rs, Handle(rs, p, es[0], delay), last, es[1..], delay);
        case Tick(t, u) =>
          if p.needsReset { ResetSyncs(rs, p, t, u, delay); } else { StepSyncs(rs, p, last, t, u, delay); }
          SessionInSync(rs, Handle(rs, p, es[0], delay), t, es[1..], delay);
      }
    }
  }

  /** From the file's lines to the ears: in any smooth session over any file, once no reset
      is pending, the sound is muted by the list exactly when an accepted mute line's
      interval holds the time of the last tick. */
  lemma SessionMutes(ls: seq<Line>, p: Player, last: real, es: seq<Event>, delay: real)
    requires ParseLines([], ls) != []
    requires var rs := ParseLines([], ls); (!p.needsReset ==> InSync(rs, p, last)) && Smooth(rs, p, last, es, delay)
    ensures var q := RunEvents(ParseLines([], ls), p, es, delay);
            !q.needsReset ==> (q.muted <==> MutedByFile([], ls, LastTick(es, last)))
  {
    var rs := ParseLines([], ls);
    ListShape([], ls);
    SessionInSync(rs, p, last, es, delay);
    ToggledIsInMute(rs, LastTick(es, last));
    InMuteOfFile([], ls, LastTick(es, last));
  }

  // ------------------------------------------------------ skips

  /** The seek forward that an update asks for, if none was asked for before. */
  function Jump(rs: seq<Rec>, p: Player, t: real, userMuted: bool, delay: real): Option<real> {
    match Update(rs, p.(request := None), t, userMuted, delay).request
    case Some(Forward(offset)) => Some(offset)
    case _ => None
  }

  /** Does an update at time t, the last one having been at `last`, first come upon this start
      and stop?  After a reset it comes upon whatever holds t. */
  predicate ComesUpon(start: real, stop: real, reset: bool, last: real, t: real) {
    if reset then start <= t <= stop else last < start <= t
  }

  /** An update asks to go forward exactly if it comes upon a skip record, and then to that
      record's stop. */
  lemma JumpsToStop(rs: seq<Rec>, p: Player, last: real, t: real, userMuted: bool, delay: real, o: real)
    requires Ordered(rs) && rs != [] && (!p.needsReset ==> InSync(rs, p, last))
    requires if p.needsReset then !(p.backward && Inside(rs, t)) else Started(rs, last) <= Started(rs, t) <= Started(rs, last) + 1
    ensures Jump(rs, p, t, userMuted, delay) == Some(o)
            <==> exists r :: r in rs && r.action == SKIP && ComesUpon(r.start, r.stop, p.needsReset, last, t) && t + o == r.stop
  {
    hide Ordered, Started, Jump, ResetIndex, Inside;
    var k := if p.needsReset then ResetIndex(rs, t, 0) else p.cursor;
    JumpIs(rs, p, t, userMuted, delay);
    forall j | 0 <= j < |rs| ensures ComesUpon(rs[j].start, rs[j].stop, p.needsReset, last, t) <==> j == k && rs[k].start <= t {
      if p.needsReset { OnlyOneHolds(rs, t, j); } else { OnlyOneStarts(rs, last, t, j); }
    }
    if k < |rs| { assert rs[k] in rs; }
  }

  lemma JumpIs(rs: seq<Rec>, p: Player, t: real, userMuted: bool, delay: real)
    requires rs != [] && (p.needsReset ==> !(p.backward && Inside(rs, t)))
    ensures var k := if p.needsReset then ResetIndex(rs, t, 0) else p.cursor;
            Jump(rs, p, t, userMuted, delay)
            == if k < |rs| && rs[k].start <= t && rs[k].action == SKIP then Some(rs[k].stop - t) else None
  {
  }

  lemma OnlyOneHolds(rs: seq<Rec>, t: real, j: nat)
    requires Ordered(rs) && j < |rs|
    ensures rs[j].start <= t <= rs[j].stop <==> j == ResetIndex(rs, t, 0) && rs[j].start <= t
  {
    var k := ResetIndex(rs, t, 0);
    assert k < j ==> rs[k].stop < rs[j].start;
  }

  lemma OnlyOneStarts(rs: seq<Rec>, last: real, t: real, j: nat)
    requires Ordered(rs) && j < |rs| && Started(rs, last) <= Started(rs, t) <= Started(rs, last) + 1
    ensures last < rs[j].start <= t <==> j == Started(rs, last) && rs[j].start <= t
  {
    HasStarted(rs, t, j);
    HasStarted(rs, last, j);
  }

  /** From file to picture: in any smooth session over any file, an update asks to go forward
      exactly if it comes upon an accepted skip line, and then to that line's stop. */
  lemma SessionSkips(ls: seq<Line>, p: Player, last: real, es: seq<Event>, t: real, userMuted: bool, delay: real, o: real)
    requires var rs := ParseLines([], ls);
             && rs != [] && (!p.needsReset ==> InSync(rs, p, last)) && Smooth(rs, p, last, es, delay)
             && Smooth(rs, RunEvents(rs, p, es, delay), LastTick(es, last), [Tick(t, userMuted)], delay)
    ensures var rs := ParseLines([], ls);
            var q := RunEvents(rs, p, es, delay);
            Jump(rs, q, t, userMuted, delay) == Some(o)
            <==> exists l :: l in Accepted([], ls) && l.Entry? && l.action == SKIP
                   && ComesUpon(l.start, l.stop, q.needsReset, LastTick(es, last), t) && t + o == l.stop
  {
    hide Smooth, Ordered, Started, Update, Jump, InSync, Toggled, Inside, ResetIndex;
    var rs := ParseLines([], ls);
    ListShape([], ls) by { EmptyList(); }
    SessionInSync(rs, p, last, es, delay);
    var (q, at) := (RunEvents(rs, p, es, delay), LastTick(es, last));
    SmoothTick(rs, q, at, t, userMuted, delay);
    JumpsToStop(rs, q, at, t, userMuted, delay, o);
    if exists r :: r in rs && r.action == SKIP && ComesUpon(r.start, r.stop, q.needsReset, at, t) && t + o == r.stop {
      var r :| r in rs && r.action == SKIP && ComesUpon(r.start, r.stop, q.needsReset, at, t) && t + o == r.stop;
      SkipRecords([], ls, r);
      var l :| l in Accepted([], ls) && l.Entry? && l.action == SKIP && r == SkipRec(l);
      assert ComesUpon(l.start, l.stop, q.needsReset, at, t) && t + o == l.stop;
    }
    if exists l :: l in Accepted([], ls) && l.Entry? && l.action == SKIP && ComesUpon(l.start, l.stop, q.needsReset, at, t) && t + o == l.stop {
      var l :| l in Accepted([], ls) && l.Entry? && l.action == SKIP && ComesUpon(l.start, l.stop, q.needsReset, at, t) && t + o == l.stop;
      SkipRecords([], ls, SkipRec(l));
      assert SkipRec(l) in rs;
    }
  }

  lemma EmptyList()
    ensures Ordered([]) && Paired([])
  {
  }

  lemma SmoothTick(rs: seq<Rec>, q: Player, last: real, t: real, userMuted: bool, delay: real)
    requires Smooth(rs, q, last, [Tick(t, userMuted)], delay)
    ensures if q.needsReset then !(q.backward && Inside(rs, t)) else Started(rs, last) <= Started(rs, t) <= Started(rs, last) + 1
  {
  }

  /** The line "10 20 0", and an update at 10: the seek goes 10 seconds on. */
  lemma SkipWitness(p: Player, userMuted: bool, delay: real)
    requires p.cursor == 0 && !p.muted && !p.needsReset
    ensures Jump(ParseLines([], [Entry(10.0, 20.0, 0)]), p, 10.0, userMuted, delay) == Some(10.0)
  {
    var line := Entry(10.0, 20.0, 0);
    var rs := AddLine([], line);
    assert ParseLines([], [line]) == ParseLines(rs, []) == rs by { assert [line][1..] == []; }
  }

  /** A skip shorter than the time between two updates: when the second one comes upon it, it
      is over already, and the seek goes back. */
  lemma ShortSkipWitness(p: Player, userMuted: bool, delay: real)
    requires p.cursor == 0 && !p.muted && !p.needsReset
    ensures Jump(ParseLines([], [Entry(10.0, 10.5, 0)]), p, 11.0, userMuted, delay) == Some(-0.5)
  {
    var line := Entry(10.0, 10.5, 0);
    var rs := AddLine([], line);
    assert ParseLines([], [line]) == ParseLines(rs, []) == rs by { assert [line][1..] == []; }
  }

  // ------------------------------------------------------ the mixer

  /** With the user's own setting left alone, the mixer is muted exactly if the user or the
      list asks for it, after every update that does not request a seek backwards. */
  lemma StepMixer(rs: seq<Rec>, p: Player, t: real, userMuted: bool, delay: real)
    requires p.needsReset || p.mixerMuted == (userMuted || p.muted)
    requires !(p.needsReset && p.backward && Inside(rs, t)) && rs != []
    ensures var q := Update(rs, p, t, userMuted, delay); q.mixerMuted == (userMuted || q.muted)
  {
  }

  predicate TicksAre(es: seq<Event>, userMuted: bool) {
    forall k :: 0 <= k < |es| && es[k].Tick? ==> es[k].userMuted == userMuted
  }

  lemma {:induction false} SessionMixer(rs: seq<Rec>, p: Player, last: real, es: seq<Event>, userMuted: bool, delay: real)
    requires rs != [] && Smooth(rs, p, last, es, delay) && TicksAre(es, userMuted)
    requires !p.needsReset ==> p.mixerMuted == (userMuted || p.muted)
    ensures var q := RunEvents(rs, p, es, delay); !q.needsReset ==> q.mixerMuted == (userMuted || q.muted)
    decreases |es|
  {
    if es != [] {
      var q := Handle(rs, p, es[0], delay);
      match es[0] {
        case Seek(_) => SessionMixer(rs, q, last, es[1..], userMuted, delay);
        case Tick(t, u) =>
          StepMixer(rs, p, t, u, delay);
          SessionMixer(rs, q, t, es[1..], userMuted, delay);
      }
    }
  }

  /** From file to ears: in a smooth session, once no reset is pending, the mixer is muted
      exactly if the user asks for it or an accepted mute line holds the time of the last tick. */
  lemma MixerByFile(ls: seq<Line>, p: Player, last: real, es: seq<Event>, userMuted: bool, delay: real)
    requires ParseLines([], ls) != [] && TicksAre(es, userMuted)
    requires var rs := ParseLines([], ls);
             && Smooth(rs, p, last, es, delay)
             && (!p.needsReset ==> InSync(rs, p, last) && p.mixerMuted == (userMuted || p.muted))
    ensures var q := RunEvents(ParseLines([], ls), p, es, delay);
            !q.needsReset ==> (q.mixerMuted <==> userMuted || MutedByFile([], ls, LastTick(es, last)))
  {
    SessionMutes(ls, p, last, es, delay);
    SessionMixer(ParseLines([], ls), p, last, es, userMuted, delay);
  }

  // ------------------------------------------------------ the linked list

  /** edl_record; only its links change after it has been filled in. */
  class EdlRecord {
    const rec: Rec
    var next: EdlRecord?
    var prev: EdlRecord?
    ghost const index: nat

    constructor (rec: Rec, prev: EdlRecord?, ghost index: nat)
      ensures this.rec == rec && this.index == index && this.next == null && this.prev == prev
    {
      this.rec, this.index, this.next, this.prev := rec, index, null, prev;
    }
  }

  ghost predicate NodeLinked(nodes: seq<EdlRecord>, i: nat)
    requires i < |nodes|
    reads nodes
  {
    && nodes[i].index == i
    && nodes[i].next == (if i + 1 < |nodes| then nodes[i + 1] else null)
    && nodes[i].prev == (if i > 0 then nodes[i - 1] else null)
  }

  /** `next` and `prev` agree along the nodes, which are all different. */
  ghost predicate Linked(nodes: seq<EdlRecord>)
    reads nodes
  {
    forall i :: 0 <= i < |nodes| ==> NodeLinked(nodes, i)
  }

  ghost function Records(nodes: seq<EdlRecord>): (r: seq<Rec>)
    ensures |r| == |nodes| && forall i :: 0 <= i < |nodes| ==> r[i] == nodes[i].rec
  {
    seq(|nodes|, i requires 0 <= i < |nodes| => nodes[i].rec)
  }

  /** The list while it is read: its head and its last record. */
  class ListBuilder {
    var head: EdlRecord?
    var last: EdlRecord?
    ghost var nodes: seq<EdlRecord>

    ghost predicate Valid()
      reads this, nodes
    {
      && Linked(nodes)
      && head == (if nodes == [] then null else nodes[0])
      && last == (if nodes == [] then null else nodes[|nodes| - 1])
    }

    constructor ()
      ensures Valid() && nodes == []
    {
      head, last, nodes := null, null, [];
    }

    /** edl_alloc_new, and the new record's fields. */
    method Append(r: Rec)
      requires Valid()
      modifies this, last
      ensures Valid() && |nodes| == |old(nodes)| + 1 && nodes[..|old(nodes)|] == old(nodes) && fresh(nodes[|old(nodes)|])
      ensures Records(nodes) == old(Records(nodes)) + [r]
    {
      ghost var n := |nodes|;
      var node := new EdlRecord(r, last, n);
      if last != null {
        assert NodeLinked(nodes, n - 1);
        last.next := node;
      }
      last := node;
      if head == null { head := node; }
      nodes := nodes + [node];
      forall i | 0 <= i < n + 1 ensures NodeLinked(nodes, i) {
        assert i < n ==> old(NodeLinked(nodes, i));
      }
    }

    /** One turn of the reading loop. */
    method ReadLine(l: Line)
      requires Valid()
      modifies this, nodes
      ensures Valid() && old(nodes) <= nodes && forall k :: |old(nodes)| <= k < |nodes| ==> fresh(nodes[k])
      ensures Records(nodes) == AddLine(old(Records(nodes)), l)
    {
      if l.Malformed? { return; }
      if last != null && l.start <= last.rec.stop { return; }
      if l.stop <= l.start { return; }
      if l.action == MUTE {
        Append(Rec(l.start, l.start, 0.0, l.action));
        Append(Rec(l.stop, l.stop, 0.0, l.action));
      } else {
        Append(Rec(l.start, l.stop, l.stop - l.start, l.action));
      }
    }
  }

  /** edl_parse_file: the records of the accepted lines, in order, linked both ways. */
  method ParseFile(ls: seq<Line>) returns (head: EdlRecord?, ghost nodes: seq<EdlRecord>)
    ensures Linked(nodes) && fresh(nodes) && Records(nodes) == ParseLines([], ls)
    ensures head == (if nodes == [] then null else nodes[0])
    ensures Ordered(Records(nodes)) && Paired(Records(nodes))
  {
    var b := new ListBuilder();
    var i := 0;
    while i < |ls|
      invariant i <= |ls| && b.Valid() && fresh(b) && forall k :: 0 <= k < |b.nodes| ==> fresh(b.nodes[k])
      invariant ParseLines(Records(b.nodes), ls[i..]) == ParseLines([], ls)
    {
      assert ls[i..][0] == ls[i] && ls[i..][1..] == ls[i + 1..];
      b.ReadLine(ls[i]);
      i := i + 1;
    }
    head, nodes := b.head, b.nodes;
    ListShape([], ls);
  }

  // ------------------------------------------------------ the cursor over the linked list

  /** The playback globals that edl_update works on. */
  class EdlPlayer {
    var records: EdlRecord?
    var nextRecord: EdlRecord?
    var muted: bool
    var needsReset: bool
    var backward: bool
    var mixerMuted: bool
    var request: Option<Request>
    ghost var nodes: seq<EdlRecord>
    ghost var cursor: nat

    ghost predicate Valid()
      reads this, nodes
    {
      && Linked(nodes) && cursor <= |nodes|
      && records == (if nodes == [] then null else nodes[0])
      && nextRecord == (if cursor < |nodes| then nodes[cursor] else null)
    }

    ghost function Abs(): Player
      reads this
    {
      Player(cursor, muted, needsReset, backward, mixerMuted, request)
    }

    /** edl_loadfile */
    constructor (ls: seq<Line>)
      ensures Valid() && fresh(nodes) && Records(nodes) == ParseLines([], ls)
      ensures Abs() == Player(0, false, false, false, false, None)
    {
      var head;
      ghost var ns;
      head, ns := ParseFile(ls);
      records, nextRecord, nodes := head, head, ns;
      cursor, muted, needsReset, backward, mixerMuted, request := 0, false, false, false, false, None;
    }

    /** The part of seek that concerns the list. */
    method Seek(amount: real)
      requires Valid()
      modifies `needsReset, `backward
      ensures Valid() && Abs() == Handle(Records(nodes), old(Abs()), Event.Seek(amount < 0.0), 0.0)
    {
      if records != null {
        needsReset := true;
        backward := amount < 0.0;
      }
    }

    method SyncMixerMute(userMuted: bool)
      modifies `mixerMuted
      ensures Abs() == SyncMixer(old(Abs()), userMuted)
    {
      if (userMuted || muted) != mixerMuted { mixerMuted := !mixerMuted; }
    }

    /** The walk over the records that are over at time t. */
    method Walk(t: real)
      requires Valid()
      modifies `nextRecord, `cursor, `muted
      ensures Valid() && cursor == ResetIndex(Records(nodes), t, 0) && muted == Toggled(Records(nodes), cursor)
    {
      hide Toggled, ResetIndex, Records;
      ghost var rs := Records(nodes);
      nextRecord, cursor := records, 0;
      muted := false;
      ResetUnfold(rs, t, 0);
      while nextRecord != null && nextRecord.rec.start <= t && nextRecord.rec.stop < t
        invariant Valid() && muted == Toggled(rs, cursor)
        invariant ResetIndex(rs, t, cursor) == ResetIndex(rs, t, 0)
        decreases |nodes| - cursor
      {
        ResetUnfold(rs, t, cursor);
        if nextRecord.rec.action == MUTE { muted := !muted; }
        Follow();
      }
      ResetUnfold(rs, t, cursor);
    }

    /** edl_update, with a list and a video stream */
    method UpdateEdl(t: real, userMuted: bool, delay: real)
      requires Valid()
      modifies this
      ensures Valid() && nodes == old(nodes)
      ensures Abs() == Update(Records(nodes), old(Abs()), t, userMuted, delay)
    {
      if records == null { return; }
      ghost var rs := Records(nodes);
      if needsReset {
        needsReset := false;
        Walk(t);
        if nextRecord != null {
          assert rs[cursor] == nextRecord.rec;
          if nextRecord.rec.start <= t && backward {
            request := Some(Rewind(-(t - nextRecord.rec.start + delay)));
            return;
          }
        }
        SyncMixerMute(userMuted);
      }
      Pass(t, userMuted);
    }

    method Pass(t: real, userMuted: bool)
      requires Valid()
      modifies `nextRecord, `cursor, `muted, `mixerMuted, `request
      ensures Valid() && Abs() == Advance(Records(nodes), old(Abs()), t, userMuted)
    {
      if nextRecord != null && t >= nextRecord.rec.start {
        if nextRecord.rec.action == SKIP {
          request := Some(Request.Forward(nextRecord.rec.stop - t));
        } else if nextRecord.rec.action == MUTE {
          muted := !muted;
          SyncMixerMute(userMuted);
        }
        Follow();
      }
    }

    /** Moves the cursor to the next record. */
    method Follow()
      requires Valid() && nextRecord != null
      modifies `nextRecord, `cursor
      ensures Valid() && cursor == old(cursor) + 1
    {
      assert NodeLinked(nodes, cursor);
      nextRecord := nextRecord.next;
      cursor := cursor + 1;
    }
  }
}
