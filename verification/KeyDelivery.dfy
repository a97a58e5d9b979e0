/** What the reader of the key ring gets in the end.  Accepting a release is not enough: when
    the 32-bit write counter wraps, an event may overwrite one that has not been read yet. */
module KeyDelivery {
  import opened Wrappers
  import opened KeyFifo

  /** The keys among the results of reads. */
  function Got(rs: seq<Option<Code>>): seq<Code> {
    if rs == [] then [] else (if rs[0].Some? then [rs[0].value] else []) + Got(rs[1..])
  }

  lemma {:induction false} GotCat(a: seq<Option<Code>>, b: seq<Option<Code>>)
    ensures Got(a + b) == Got(a) + Got(b)
    decreases |a|
  {
    if a == [] {
      assert a + b == b;
    } else {
      assert (a + b)[0] == a[0] && (a + b)[1..] == a[1..] + b;
      GotCat(a[1..], b);
      var (h, x, y) := (if a[0].Some? then [a[0].value] else [], Got(a[1..]), Got(b));
      assert (h + x) + y == h + (x + y);
    }
  }

  function Drain(n: nat): seq<Op> {
    if n == 0 then [] else [Read] + Drain(n - 1)
  }

  // ------------------------------------------------------ from the queue

  lemma {:induction false} ReadsCat(f: Fifo, a: seq<Op>, b: seq<Op>)
    ensures Reads(f, a + b) == Reads(f, a) + Reads(Run(f, a), b)
    decreases |a|
  {
    if a == [] {
      assert a + b == b;
    } else {
      assert (a + b)[0] == a[0] && (a + b)[1..] == a[1..] + b;
      ReadsCat(Step(f, a[0]), a[1..], b);
    }
  }

  /** The accepted events that have been read. */
  function Past(f: Fifo): seq<Code>
    requires |f.queue| <= |f.log|
  {
    f.log[..|f.log| - |f.queue|]
  }

  lemma InvLengths(f: Fifo)
    requires Inv(f)
    ensures |f.queue| <= |f.log|
  {
  }

  /** The reader of the queue gets the accepted events in order, as far as they have been read. */
  lemma {:induction false} Delivered(f: Fifo, ops: seq<Op>)
    requires Inv(f)
    ensures |f.queue| <= |f.log| && |Run(f, ops).queue| <= |Run(f, ops).log|
    ensures Past(f) + Got(Reads(f, ops)) == Past(Run(f, ops))
    decreases |ops|
  {
    hide Inv, Past, Step, Head;
    InvLengths(f);
    if ops == [] {
      assert Got([]) == [] && Past(f) + [] == Past(f);
    } else {
      var g := Step(f, ops[0]);
      StepKeepsInv(f, ops[0]);
      Delivered(g, ops[1..]);
      var (head, rest) := (if ops[0].Read? then [Head(f)] else [], Reads(g, ops[1..]));
      GotCat(head, rest);
      OneRead(f, ops[0]);
      assert (Past(f) + Got(head)) + Got(rest) == Past(f) + (Got(head) + Got(rest));
    }
  }

  lemma OneRead(f: Fifo, op: Op)
    requires Inv(f)
    ensures |f.queue| <= |f.log| && |Step(f, op).queue| <= |Step(f, op).log|
    ensures Past(Step(f, op)) == Past(f) + Got(if op.Read? then [Head(f)] else [])
  {
    hide Inv;
    InvLengths(f);
    assert Got([]) == [] && [Head(f)][1..] == [] && Past(f) + [] == Past(f);
    match op
    case Submit(c) => PutPast(f, c);
    case Read =>
      if f.queue != [] {
        var n := |f.log| - |f.queue|;
        assert f.queue[0] == f.log[n] by { QueueIsTail(f); }
        assert f.log[..n + 1] == f.log[..n] + [f.log[n]];
      }
  }

  lemma QueueIsTail(f: Fifo)
    requires Inv(f) && f.queue != []
    ensures |f.queue| <= |f.log| && f.queue[0] == f.log[|f.log| - |f.queue|]
  {
  }

  lemma PutPast(f: Fifo, c: Code)
    requires |f.queue| <= |f.log|
    ensures var g := Put(f, c); |g.queue| <= |g.log| && Past(g) == Past(f)
  {
    var g := Put(f, c);
    var n := |f.log| - |f.queue|;
    assert g.log[..n] == f.log[..n];
  }

  lemma {:induction false} Drained(f: Fifo, n: nat)
    requires n >= |f.queue|
    ensures Run(f, Drain(n)).queue == [] && Run(f, Drain(n)).log == f.log
    decreases n
  {
    if n > 0 { Drained(Get(f), n - 1); }
  }

  // ------------------------------------------------------ from the ring

  /** Where the ring puts event number n. */
  function PlaceOf(size: nat, n: nat): nat
    requires size > 0
  {
    Place(size, Wrap(n))
  }

  /** Events less than a ring apart share a place only at the distance the wrap shifts them. */
  lemma CollisionAt(size: nat, a: nat, b: nat)
    requires 2 <= size <= 65000 && a < b < a + size && PlaceOf(size, a) == PlaceOf(size, b)
    ensures b - a == WIDTH % size
  {
    var (x, y, d) := (Wrap(a), Wrap(b), b - a);
    WrapSum(a, d);
    if y == x + d {
      PlacesDiffer(size, x, y);
    } else {
      var (p, q, s) := (x / size, y / size, x % size);
      assert x == size * p + s && y == size * q + s;
      assert size * (p - q) == WIDTH - d by { assert size * (p - q) == size * p - size * q; }
      RemainderUnique(WIDTH, size, p - q, d);
    }
  }

  lemma WrapSum(a: nat, d: nat)
    requires d < WIDTH
    ensures Wrap(a + d) == Wrap(a) + d || Wrap(a + d) == Wrap(a) + d - WIDTH
  {
  }

  /** With these sizes an event that overwrites another carries the release-all bit, for it
      takes the last free place. */
  predicate SafeSize(size: nat)
    requires size > 0
  {
    WIDTH % size == 0 || WIDTH % size == size - 1
  }

  /** The ring holds the queue, except that release-all events may stand for others. */
  ghost predicate Nearly(r: Ring, f: Fifo) {
    && RingOk(r) && Inv(f) && r.size == f.size && r.previous == f.previous
    && r.write == Wrap(|f.log|) && r.read == Wrap(|f.log| - |f.queue|)
    && forall n: nat :: |f.log| - |f.queue| <= n < |f.log|
         ==> r.cells[PlaceOf(r.size, n)] == f.log[n] || r.cells[PlaceOf(r.size, n)].releaseAll
  }

  lemma NearlyCounts(r: Ring, f: Fifo)
    requires Nearly(r, f)
    ensures FreeOf(r) == f.size - |f.queue| && (r.write == r.read <==> f.queue == [])
  {
    Distance(r.size, |f.log| - |f.queue|, |f.log|);
  }

  lemma PutNearly(r: Ring, f: Fifo, code: Code)
    requires Nearly(r, f) && SafeSize(f.size)
    ensures Nearly(RingPut(r, code), Put(f, code))
  {
    NearlyCounts(r, f);
    StepKeepsInv(f, Submit(code));
    if Admit(f, code).Some? { StoreNearly(r, f, Admit(f, code).value); }
  }

  lemma StoreNearly(r: Ring, f: Fifo, c: Code)
    requires Nearly(r, f) && SafeSize(f.size) && |f.queue| < f.size
    requires f.size - |f.queue| == 1 ==> c.releaseAll
    requires Inv(f.(queue := f.queue + [c], previous := Remember(c), log := f.log + [c]))
    ensures Nearly(RingStore(r, c), f.(queue := f.queue + [c], previous := Remember(c), log := f.log + [c]))
  {
    hide Wrap, Place;
    var m := |f.log|;
    WrapNext(m);
    forall n: nat | m - |f.queue| <= n < m && PlaceOf(r.size, n) == PlaceOf(r.size, m) ensures c.releaseAll {
      CollisionAt(r.size, n, m);
    }
  }

  lemma GetNearly(r: Ring, f: Fifo)
    requires Nearly(r, f)
    ensures Nearly(RingGet(r), Get(f))
    ensures RingHead(r).Some? <==> Head(f).Some?
    ensures Head(f).Some? ==> RingHead(r) == Head(f) || RingHead(r).value.releaseAll
  {
    hide Wrap, Place;
    NearlyCounts(r, f);
    StepKeepsInv(f, Read);
    if f.queue != [] {
      WrapNext(|f.log| - |f.queue|);
      assert f.queue[0] == f.log[|f.log| - |f.queue|];
    }
  }

  /** The same keys, but for release-all events in the place of others. */
  ghost predicate Alike(a: seq<Code>, b: seq<Code>) {
    |a| == |b| && forall j :: 0 <= j < |a| ==> a[j] == b[j] || a[j].releaseAll
  }

  lemma AlikeCat(a: seq<Code>, b: seq<Code>, x: seq<Code>, y: seq<Code>)
    requires Alike(a, b) && Alike(x, y)
    ensures Alike(a + x, b + y)
  {
  }

  lemma NoneAlike()
    ensures Alike(Got([]), Got([]))
  {
  }

  lemma HeadsAlike(x: Option<Code>, y: Option<Code>)
    requires (x.Some? <==> y.Some?) && (y.Some? ==> x == y || x.value.releaseAll)
    ensures Alike(Got([x]), Got([y]))
  {
    assert [x][1..] == [] && [y][1..] == [];
  }

  lemma {:induction false} RunNearly(r: Ring, f: Fifo, ops: seq<Op>)
    requires Nearly(r, f) && SafeSize(f.size)
    ensures Alike(Got(RingReads(r, ops)), Got(Reads(f, ops)))
    decreases |ops|
  {
    hide Nearly, RingPut, RingGet, Put, Get, Alike, RingHead, Head;
    NearlyOk(r, f);
    NoneAlike();
    if ops != [] {
      var op := ops[0];
      var (q, g) := (RingStep(r, op), Step(f, op));
      match op {
        case Read =>
          GetNearly(r, f);
          HeadsAlike(RingHead(r), Head(f));
        case Submit(c) => PutNearly(r, f, c);
      }
      NearlyOk(q, g);
      RunNearly(q, g, ops[1..]);
      var (x, y) := (if op.Read? then [RingHead(r)] else [], if op.Read? then [Head(f)] else []);
      GotCat(x, RingReads(q, ops[1..]));
      GotCat(y, Reads(g, ops[1..]));
      AlikeCat(Got(x), Got(y), Got(RingReads(q, ops[1..])), Got(Reads(g, ops[1..])));
    }
  }

  lemma NearlyOk(r: Ring, f: Fifo)
    requires Nearly(r, f)
    ensures RingOk(r) && f.size == r.size && Inv(f)
  {
  }

  /** Whatever has been accepted, the reader of the ring gets as many keys as the reader of the
      queue, each the same or a release-all event, if the size is safe or at most 2^32 events
      have been accepted. */
  lemma ReaderGetsAlike(size: nat, ops: seq<Op>)
    requires 2 <= size <= 65000 && (SafeSize(size) || |Run(Empty(size), ops).log| <= WIDTH)
    ensures Alike(Got(RingReads(EmptyRing(size), ops)), Got(Reads(Empty(size), ops)))
  {
    hide RingReads, Reads, Got, Run, Nearly, Alike;
    EmptyNearly(size);
    if SafeSize(size) {
      RunNearly(EmptyRing(size), Empty(size), ops);
    } else {
      RingIsQueue(size, ops);
      AlikeSelf(Got(Reads(Empty(size), ops)));
    }
  }

  lemma EmptyNearly(size: nat)
    requires 2 <= size <= 65000
    ensures Nearly(EmptyRing(size), Empty(size))
  {
    EmptyHolds(size);
  }

  lemma AlikeSelf(a: seq<Code>)
    ensures Alike(a, a)
  {
  }

  /** A release that was accepted after event i reaches the reader after event i's turn, as a
      release, once the ring has been read empty. */
  lemma ReaderSees(size: nat, ops: seq<Op>, i: nat, k: nat, n: nat)
    requires 2 <= size <= 65000 && n >= size && ReleasedAfter(Run(Empty(size), ops).log, i, k)
    requires SafeSize(size) || |Run(Empty(size), ops).log| <= WIDTH
    ensures ReleasedAfter(Got(RingReads(EmptyRing(size), ops + Drain(n))), i, k)
  {
    hide RingReads, Reads, Got, Run, Alike, ReleasedAfter, SafeSize;
    DrainedReads(size, ops, n);
    RunCat(Empty(size), ops, Drain(n));
    Drained(Run(Empty(size), ops), n);
    ReaderGetsAlike(size, ops + Drain(n));
    AlikeReleases(Got(RingReads(EmptyRing(size), ops + Drain(n))), Run(Empty(size), ops).log, i, k);
  }

  lemma AlikeReleases(a: seq<Code>, b: seq<Code>, i: nat, k: nat)
    requires Alike(a, b) && ReleasedAfter(b, i, k)
    ensures ReleasedAfter(a, i, k)
  {
    var j :| i < j < |b| && Releases(b[j], k);
    assert a[j] == b[j] || a[j].releaseAll;
    assert Releases(a[j], k);
  }

  /** Read empty, the queue has given its reader all that was accepted. */
  lemma DrainedReads(size: nat, ops: seq<Op>, n: nat)
    requires 2 <= size <= n
    ensures |Run(Empty(size), ops).queue| <= n
    ensures Got(Reads(Empty(size), ops + Drain(n))) == Run(Empty(size), ops).log
  {
    hide Reads, Got, Run, Drain;
    var (f, all) := (Run(Empty(size), ops), ops + Drain(n));
    RunKeepsInv(Empty(size), ops);
    RunCat(Empty(size), ops, Drain(n));
    Drained(f, n);
    Delivered(Empty(size), all);
    var wanted := Got(Reads(Empty(size), all));
    assert [] + wanted == wanted && f.log[..|f.log|] == f.log;
  }

  // ------------------------------------------------------ no stuck keys, at the reader

  function Presses(before: seq<Op>, k: nat, between: seq<Op>, after: seq<Op>): seq<Op> {
    before + [Submit(KeyDown(k))] + between + [Submit(KeyUp(k))] + after
  }

  /** If a key-down of k is accepted and a key-up of k is submitted later, then the reader, who
      at last reads the ring empty, gets after the key-down's turn an event that releases k. */
  ghost predicate ReaderReleased(size: nat, before: seq<Op>, k: nat, between: seq<Op>, after: seq<Op>, n: nat)
    requires 2 <= size <= 65000
  {
    var f := Run(Empty(size), before);
    n >= size && Admit(f, KeyDown(k)).Some?
    ==> ReleasedAfter(Got(RingReads(EmptyRing(size), Presses(before, k, between, after) + Drain(n))), |f.log|, k)
  }

  /** No key stays stuck at the reader in any run, whatever comes before, between and after, if
      the size is safe or the run accepts at most 2^32 events. */
  lemma ReaderNeverStuck(size: nat, before: seq<Op>, k: nat, between: seq<Op>, after: seq<Op>, n: nat)
    requires 2 <= size <= 65000
    requires SafeSize(size) || |Run(Empty(size), Presses(before, k, between, after)).log| <= WIDTH
    ensures ReaderReleased(size, before, k, between, after, n)
  {
    var f := Run(Empty(size), before);
    if n >= size && Admit(f, KeyDown(k)).Some? {
      NoStuckKey(size, before, k, between);
      var pressed := before + [Submit(KeyDown(k))] + between + [Submit(KeyUp(k))];
      ReleasedLater(size, pressed, after, |f.log|, k);
      ReaderSees(size, pressed + after, |f.log|, k, n);
    }
  }

  lemma ReleasedLater(size: nat, a: seq<Op>, b: seq<Op>, i: nat, k: nat)
    requires size >= 2 && ReleasedAfter(Run(Empty(size), a).log, i, k)
    ensures ReleasedAfter(Run(Empty(size), a + b).log, i, k)
    ensures Run(Empty(size), a).log <= Run(Empty(size), a + b).log
  {
    RunCat(Empty(size), a, b);
    RunKeepsInv(Empty(size), a);
    var f := Run(Empty(size), a);
    RunKeepsInv(f, b);
    var j :| i < j < |f.log| && Releases(f.log[j], k);
    assert Releases(Run(f, b).log[j], k);
  }

  /** A key-down submitted while fewer than size - size / 2 events wait gets to the reader as
      it is, in its turn, if the size divides 2^32 or at most 2^32 events are accepted; one
      submitted while more wait is not accepted. */
  lemma DownReachesReader(size: nat, before: seq<Op>, c: Code, after: seq<Op>, n: nat)
    requires 2 <= size <= 65000 && n >= size && c.down
    requires var all := before + [Submit(c)] + after;
             WIDTH % size == 0 || |Run(Empty(size), all).log| <= WIDTH
    ensures var f := Run(Empty(size), before);
            var all := before + [Submit(c)] + after;
            var got := Got(RingReads(EmptyRing(size), all + Drain(n)));
            && (|f.queue| < size - size / 2 ==> |f.log| < |got| && got[|f.log|] == c)
            && (|f.queue| >= size - size / 2 ==> Put(f, c) == f)
  {
    hide RingReads, Reads, Got, Run;
    var f := Run(Empty(size), before);
    var all := before + [Submit(c)] + after;
    RunKeepsInv(Empty(size), before);
    AdmitsExactly(f, c);
    RunCat(Empty(size), before + [Submit(c)], after);
    RunCat(Empty(size), before, [Submit(c)]);
    RunOne(f, Submit(c));
    StepKeepsInv(f, Submit(c));
    RunKeepsInv(Put(f, c), after);
    DrainedReads(size, all, n);
    RunCat(Empty(size), all, Drain(n));
    Drained(Run(Empty(size), all), n);
    RingIsQueue(size, all + Drain(n));
  }

  /** The ring accepts what the queue accepts, at every size and in every run. */
  lemma {:induction false} RingAdmits(r: Ring, f: Fifo, ops: seq<Op>, code: Code)
    requires RingOk(r) && Inv(f) && r.size == f.size && Counted(r, f)
    ensures var (q, g) := (RingRun(r, ops), Run(f, ops));
            AdmitWith(q.size, FreeOf(q), q.previous, code) == Admit(g, code)
    decreases |ops|
  {
    CountedFree(r, f);
    if ops != [] {
      StepKeepsInv(f, ops[0]);
      StepCounted(r, f, ops[0]);
      RingAdmits(RingStep(r, ops[0]), Step(f, ops[0]), ops[1..], code);
    }
  }

  ghost predicate Counted(r: Ring, f: Fifo) {
    |f.queue| <= |f.log| && r.previous == f.previous && r.write == Wrap(|f.log|) && r.read == Wrap(|f.log| - |f.queue|)
  }

  lemma CountedFree(r: Ring, f: Fifo)
    requires RingOk(r) && Inv(f) && r.size == f.size && Counted(r, f)
    ensures FreeOf(r) == f.size - |f.queue| && (r.write == r.read <==> f.queue == [])
  {
    Distance(r.size, |f.log| - |f.queue|, |f.log|);
  }

  lemma StepCounted(r: Ring, f: Fifo, op: Op)
    requires RingOk(r) && Inv(f) && r.size == f.size && Counted(r, f)
    ensures Counted(RingStep(r, op), Step(f, op)) && Step(f, op).size == f.size
  {
    hide Wrap, Place;
    CountedFree(r, f);
    WrapNext(|f.log|);
    if f.queue != [] { WrapNext(|f.log| - |f.queue|); }
  }

  // ------------------------------------------------------ the stuck key

  lemma {:induction false} RingReadsCat(r: Ring, a: seq<Op>, b: seq<Op>)
    requires RingOk(r)
    ensures RingReads(r, a + b) == RingReads(r, a) + RingReads(RingRun(r, a), b)
    decreases |a|
  {
    if a == [] {
      assert a + b == b;
    } else {
      assert (a + b)[0] == a[0] && (a + b)[1..] == a[1..] + b;
      RingReadsCat(RingStep(r, a[0]), a[1..], b);
    }
  }

  function Laters(m: nat): seq<Op> {
    if m == 0 then [] else Laters(m - 1) + [Submit(LATER)]
  }

  /** Key 1 goes down and is read, key 1 goes up as the last event before the wrap, and as many
      events of key 2 follow as it takes to come round to its place. */
  function StuckRun(size: nat): seq<Op>
    requires size > 0
  {
    Presses(WarmUp(WIDTH - 2), 1, [Read], Laters(WIDTH % size))
  }

  lemma {:induction false} WarmLog(size: nat, n: nat)
    requires 3 <= size <= 65000
    ensures |Run(Empty(size), WarmUp(n)).log| == n
  {
    if n > 0 {
      Warm(size, n - 1);
      WarmLog(size, n - 1);
      var f := Run(Empty(size), WarmUp(n - 1));
      RunCat(Empty(size), WarmUp(n - 1), [Submit(FIRST), Read]);
      assert [Submit(FIRST), Read] == [Submit(FIRST)] + [Read];
      RunCat(f, [Submit(FIRST)], [Read]);
      RunOne(f, Submit(FIRST));
      RunOne(Put(f, FIRST), Read);
    }
  }

  /** Up to the key-up, which is the 2^32nd event, all is well; it alone has not been read. */
  lemma UpToTheWrap(size: nat)
    requires 3 <= size <= 65000
    ensures var ops := UpToKeyUp();
            var f := Run(Empty(size), WarmUp(WIDTH - 2));
            var r := RingRun(EmptyRing(size), ops);
            && |f.log| == WIDTH - 2 && Admit(f, KeyDown(1)).Some?
            && Got(RingReads(EmptyRing(size), ops)) == f.log + [KeyDown(1)]
            && r.read == WIDTH - 1 && r.write == 0 && r.previous == ZERO
  {
    hide WarmUp, RingRun, RingReads, Reads, Run, Got, Wrap, Place, Holds, Inv;
    var f := Run(Empty(size), WarmUp(WIDTH - 2));
    Warm(size, WIDTH - 2);
    WarmLog(size, WIDTH - 2);
    var g := f.(queue := [KeyUp(1)], previous := ZERO, log := f.log + [KeyDown(1), KeyUp(1)]);
    AfterWarmUp(size, f, WarmUp(WIDTH - 2));
    RingIsQueue(size, UpToKeyUp());
    HoldsFields(RingRun(EmptyRing(size), UpToKeyUp()), g);
    EmptyNearly(size);
    NearlyOk(EmptyRing(size), Empty(size));
    Delivered(Empty(size), UpToKeyUp());
    var got := Got(Reads(Empty(size), UpToKeyUp()));
    assert Past(Empty(size)) == [] && [] + got == got;
    assert Past(g) == f.log + [KeyDown(1)];
    WrapBefore(WIDTH - 1);
    WrapPast(1);
  }

  lemma HoldsFields(r: Ring, f: Fifo)
    requires Holds(r, f)
    ensures |f.queue| <= |f.log| && r.write == Wrap(|f.log|) && r.read == Wrap(|f.log| - |f.queue|) && r.previous == f.previous
  {
  }

  lemma AfterWarmUp(size: nat, f: Fifo, warm: seq<Op>)
    requires size >= 3 && f == Run(Empty(size), warm) && f.queue == [] && f.size == size && f.previous == ZERO
    ensures Run(Empty(size), warm + [Submit(KeyDown(1))] + [Read] + [Submit(KeyUp(1))])
            == f.(queue := [KeyUp(1)], previous := ZERO, log := f.log + [KeyDown(1), KeyUp(1)])
  {
    var (down, up) := (Submit(KeyDown(1)), Submit(KeyUp(1)));
    RunCat(Empty(size), warm + [down] + [Read], [up]);
    RunCat(Empty(size), warm + [down], [Read]);
    RunCat(Empty(size), warm, [down]);
    var f1 := Put(f, KeyDown(1));
    RunOne(f, down);
    assert f1.queue == [KeyDown(1)] && f1.log == f.log + [KeyDown(1)];
    var f2 := Get(f1);
    RunOne(f1, Read);
    assert f2.queue == [];
    RunOne(f2, up);
    assert (f.log + [KeyDown(1)]) + [KeyUp(1)] == f.log + [KeyDown(1), KeyUp(1)];
  }

  lemma {:induction false} PutLaters(r: Ring, m: nat)
    requires RingOk(r) && r.write == 0 && r.read == WIDTH - 1 && r.previous == ZERO && m + 2 <= r.size
    ensures var q := RingRun(r, Laters(m));
            && q.size == r.size && q.write == m && q.read == WIDTH - 1 && q.previous == ZERO
            && forall j :: 0 <= j < m ==> q.cells[j] == LATER
    ensures RingReads(r, Laters(m)) == []
  {
    if m > 0 {
      PutLaters(r, m - 1);
      var q := RingRun(r, Laters(m - 1));
      RingRunCat(r, Laters(m - 1), [Submit(LATER)]);
      RingReadsCat(r, Laters(m - 1), [Submit(LATER)]);
      RingRunOne(q, Submit(LATER));
      assert [Submit(LATER)][1..] == [];
      OneLater(q, m - 1);
    }
  }

  lemma OneLater(q: Ring, m: nat)
    requires RingOk(q) && q.write == m && q.read == WIDTH - 1 && q.previous == ZERO && m + 3 <= q.size
    ensures RingPut(q, LATER) == Ring(q.size, q.cells[m := LATER], WIDTH - 1, m + 1, ZERO)
  {
    assert FreeOf(q) == q.size - 1 - m;
    assert Place(q.size, m) == m;
  }

  /** The cells up to the write counter hold key 2, and nothing else is left to read. */
  ghost predicate AllLater(r: Ring) {
    && RingOk(r) && 0 < r.write < r.size && (r.read == WIDTH - 1 || r.read <= r.write)
    && Place(r.size, WIDTH - 1) == r.write - 1 && forall j :: 0 <= j < r.write ==> r.cells[j] == LATER
  }

  lemma HeadLater(r: Ring)
    requires AllLater(r)
    ensures RingHead(r) in {None, Some(LATER)} && AllLater(RingGet(r))
  {
    if r.read < r.write { PlaceSmall(r.size, r.read); }
    if r.read == WIDTH - 1 { assert Wrap(r.read + 1) == 0; } else { assert Wrap(r.read + 1) == r.read + 1; }
  }

  /** From here on the reader gets nothing but key 2. */
  lemma {:induction false} OnlyLaters(r: Ring, n: nat)
    requires AllLater(r)
    ensures forall c :: c in Got(RingReads(r, Drain(n))) ==> c == LATER
    decreases n
  {
    hide RingGet, RingHead;
    if n > 0 {
      HeadLater(r);
      var q := RingGet(r);
      assert Drain(n)[0] == Read && Drain(n)[1..] == Drain(n - 1);
      OnlyLaters(q, n - 1);
      GotCat([RingHead(r)], RingReads(q, Drain(n - 1)));
      assert [RingHead(r)][1..] == [] && Got([]) == [];
    }
  }

  /** The stuck run up to the key-up. */
  function UpToKeyUp(): seq<Op> {
    WarmUp(WIDTH - 2) + [Submit(KeyDown(1))] + [Read] + [Submit(KeyUp(1))]
  }

  lemma LatersCover(size: nat)
    requires 2 <= size <= 65000 && !SafeSize(size)
    ensures var r := RingRun(EmptyRing(size), UpToKeyUp());
            AllLater(RingRun(r, Laters(WIDTH % size))) && RingReads(r, Laters(WIDTH % size)) == []
  {
    hide WarmUp, RingRun, RingReads, Laters, Wrap, Place;
    var m := WIDTH % size;
    assert size >= 3;
    UpToTheWrap(size);
    PutLaters(RingRun(EmptyRing(size), UpToKeyUp()), m);
    Collision(size);
    WrapBefore(WIDTH - 1);
    WrapPast(m);
    PlaceSmall(size, m - 1);
  }

  lemma StuckReads(size: nat, n: nat)
    requires 2 <= size <= 65000 && !SafeSize(size)
    ensures var r := RingRun(EmptyRing(size), UpToKeyUp());
            Got(RingReads(EmptyRing(size), StuckRun(size) + Drain(n)))
            == Got(RingReads(EmptyRing(size), UpToKeyUp())) + Got(RingReads(RingRun(r, Laters(WIDTH % size)), Drain(n)))
  {
    hide WarmUp, RingRun, RingReads, Laters, Drain;
    LatersCover(size);
    var laters := Laters(WIDTH % size);
    var r := RingRun(EmptyRing(size), UpToKeyUp());
    assert StuckRun(size) + Drain(n) == UpToKeyUp() + (laters + Drain(n));
    RingReadsCat(EmptyRing(size), UpToKeyUp(), laters + Drain(n));
    RingReadsCat(r, laters, Drain(n));
    var last := RingReads(RingRun(r, laters), Drain(n));
    assert [] + last == last;
    GotCat(RingReads(EmptyRing(size), UpToKeyUp()), last);
  }

  /** At every other size this run leaves key 1 stuck: it is accepted down and up, and the
      reader gets the key-down, and after it nothing but events of key 2. */
  lemma StuckKey(size: nat, n: nat)
    requires 2 <= size <= 65000 && !SafeSize(size)
    ensures var f := Run(Empty(size), WarmUp(WIDTH - 2));
            var got := Got(RingReads(EmptyRing(size), StuckRun(size) + Drain(n)));
            && Admit(f, KeyDown(1)).Some?
            && |f.log| < |got| && got[|f.log|] == KeyDown(1)
            && forall j :: |f.log| < j < |got| ==> got[j] == LATER
  {
    hide WarmUp, RingRun, RingReads, Laters, Drain, Got, Run, Admit, AllLater;
    assert size >= 3;
    UpToTheWrap(size);
    LatersCover(size);
    StuckReads(size, n);
    var q := RingRun(RingRun(EmptyRing(size), UpToKeyUp()), Laters(WIDTH % size));
    OnlyLaters(q, n);
    var (first, last) := (Got(RingReads(EmptyRing(size), UpToKeyUp())), Got(RingReads(q, Drain(n))));
    forall j | |first| <= j < |first + last| ensures (first + last)[j] == LATER { assert last[j - |first|] in last; }
  }

  lemma PlaceSmall(size: nat, n: nat)
    requires n < size
    ensures Place(size, n) == n
  {
  }

  /** No key stays stuck at the reader, over all runs, exactly if the size is safe: it divides
      2^32, or 2^32 + 1. */
  lemma ReaderNeverStuckIff(size: nat)
    requires 2 <= size <= 65000
    ensures (forall before, k, between, after, n :: ReaderReleased(size, before, k, between, after, n)) <==> SafeSize(size)
  {
    if SafeSize(size) {
      forall before, k, between, after, n ensures ReaderReleased(size, before, k, between, after, n) {
        ReaderNeverStuck(size, before, k, between, after, n);
      }
    } else {
      StuckKey(size, size);
      assert !ReaderReleased(size, WarmUp(WIDTH - 2), 1, [Read], Laters(WIDTH % size), size);
    }
  }

  /** The default size is not safe; 641 is. */
  lemma SomeSizes()
    ensures !SafeSize(7) && SafeSize(641) && SafeSize(8)
  {
  }
}
