/** The key FIFO of mp_fifo.c: a ring buffer that drops events when it is full, with
    admission rules that keep every pressed key from staying pressed for ever. */
module KeyFifo {
  import opened Wrappers

  /** A key code: the key and the two flag bits MP_KEY_DOWN and MP_KEY_RELEASE_ALL. */
  datatype Code = Code(key: nat, down: bool, releaseAll: bool)

  /** The initial value of previous_down_key, and of any code with no bit set. */
  const ZERO := Code(0, false, false)

  // ------------------------------------------------------ the queue, on values

  /** `log` holds every event ever accepted, oldest first: the reader's past and the queue. */
  datatype Fifo = Fifo(size: nat, queue: seq<Code>, previous: Code, log: seq<Code>)

  function Empty(size: nat): Fifo { Fifo(size, [], ZERO, []) }

  /** What is stored for a submitted code, None if it is dropped. */
  function Admit(f: Fifo, code: Code): Option<Code> {
    AdmitWith(f.size, f.size - |f.queue|, f.previous, code)
  }

  function AdmitWith(size: nat, free: int, previous: Code, code: Code): Option<Code> {
    if free == 0 then None
    else if code.down && free <= size / 2 then None
    else if free == 1 then
      if previous.releaseAll then None
      else Some((if code != previous then ZERO else code).(releaseAll := true))
    else Some(code)
  }

  function Remember(code: Code): Code {
    if code.down then code.(down := false) else ZERO.(releaseAll := code.releaseAll)
  }

  function Put(f: Fifo, code: Code): Fifo {
    match Admit(f, code)
    case None => f
    case Some(c) => f.(queue := f.queue + [c], previous := Remember(c), log := f.log + [c])
  }

  function Get(f: Fifo): Fifo {
    if f.queue == [] then f else f.(queue := f.queue[1..])
  }

  datatype Op = Submit(code: Code) | Read

  function Step(f: Fifo, op: Op): Fifo {
    match op case Submit(c) => Put(f, c) case Read => Get(f)
  }

  function Run(f: Fifo, ops: seq<Op>): Fifo
    decreases |ops|
  {
    if ops == [] then f else Run(Step(f, ops[0]), ops[1..])
  }

  // ------------------------------------------------------ what every operation keeps

  function Last<T>(s: seq<T>): T
    requires s != []
  {
    s[|s| - 1]
  }

  /** The queue is the newest part of the log and never longer than the ring; a full ring
      has just taken a release-all event; previous_down_key tells about the newest event. */
  predicate Inv(f: Fifo) {
    && f.size >= 2 && |f.queue| <= f.size && |f.queue| <= |f.log|
    && f.queue == f.log[|f.log| - |f.queue|..]
    && (|f.queue| == f.size ==> Last(f.log).releaseAll && !Last(f.log).down)
    && f.previous == (if f.log == [] then ZERO else Remember(Last(f.log)))
  }

  lemma StepKeepsInv(f: Fifo, op: Op)
    requires Inv(f)
    ensures Inv(Step(f, op))
    ensures f.log <= Step(f, op).log && Step(f, op).size == f.size
  {
    match op
    case Read =>
    case Submit(c) =>
      if Admit(f, c).Some? {
        var t := Put(f, c);
        assert t.queue == t.log[|t.log| - |t.queue|..];
      }
  }

  lemma {:induction false} RunKeepsInv(f: Fifo, ops: seq<Op>)
    requires Inv(f)
    ensures Inv(Run(f, ops)) && f.log <= Run(f, ops).log && Run(f, ops).size == f.size
    decreases |ops|
  {
    if ops != [] {
      StepKeepsInv(f, ops[0]);
      RunKeepsInv(Step(f, ops[0]), ops[1..]);
    }
  }

  // ------------------------------------------------------ no stuck keys

  /** An event that tells its reader that key k is released. */
  predicate Releases(c: Code, k: nat) {
    c.releaseAll || c == Code(k, false, false)
  }

  /** After event number i of the sequence there is one that releases k. */
  ghost predicate ReleasedAfter(log: seq<Code>, i: nat, k: nat) {
    exists j :: i < j < |log| && Releases(log[j], k)
  }

  function KeyUp(k: nat): Code { Code(k, false, false) }
  function KeyDown(k: nat): Code { Code(k, true, false) }

  /** An accepted key-down is stored as it was submitted: it is never turned into a
      release-all event and never takes the last free place. */
  lemma DownStoredAsIs(f: Fifo, c: Code)
    requires Inv(f) && c.down
    ensures Admit(f, c) in {None, Some(c)}
    ensures Admit(f, c).Some? ==> |Put(f, c).queue| < f.size
  {
  }

  /** What is admitted.  A key-down is accepted, as it was submitted, exactly if fewer than
      size - size / 2 events wait to be read.  Any other event is accepted as it was submitted
      while two places are free; the last place takes a release-all event, unless the newest
      event is one; and a full ring takes nothing. */
  lemma AdmitsExactly(f: Fifo, c: Code)
    requires Inv(f)
    ensures c.down ==> Admit(f, c) == if |f.queue| < f.size - f.size / 2 then Some(c) else None
    ensures !c.down && |f.queue| + 2 <= f.size ==> Admit(f, c) == Some(c)
    ensures !c.down && |f.queue| + 1 == f.size ==>
              (Admit(f, c).None? <==> f.log != [] && Last(f.log).releaseAll)
              && (Admit(f, c).Some? ==> Admit(f, c).value.releaseAll && !Admit(f, c).value.down)
    ensures |f.queue| == f.size ==> Admit(f, c) == None
  {
  }

  /** In the last place the key itself survives only if its own key-down is the newest event:
      that is how the mouse wheel works in a ring of two places. */
  lemma LastPlaceKeepsOwnKey(f: Fifo, c: Code)
    requires Inv(f) && !c.down && |f.queue| + 1 == f.size && !(f.log != [] && Last(f.log).releaseAll) && !c.releaseAll
    ensures Admit(f, c) == Some(if (f.log != [] && Last(f.log) == Code(c.key, true, false)) || c.key == 0
                                then Code(c.key, false, true) else Code(0, false, true))
  {
  }

  /** A key-up of k submitted after event i of the log, a key-down: either it is accepted as
      a release of k, or it is dropped because an event after i has already released every
      key.  The one exception: event i is the newest, carries the release-all bit itself, and
      one place is left. */
  lemma UpReleases(f: Fifo, i: nat, k: nat)
    requires Inv(f) && i < |f.log| && f.log[i].down
    ensures ReleasedAfter(Put(f, KeyUp(k)).log, i, k)
            <==> !(i == |f.log| - 1 && f.log[i].releaseAll && f.size - |f.queue| == 1)
  {
    var t := Put(f, KeyUp(k));
    var n := |f.log|;
    match Admit(f, KeyUp(k)) {
      case Some(c) =>
        assert t.log[n] == c && Releases(c, k);
      case None =>
        assert Last(f.log).releaseAll;
        if n - 1 > i {
          assert Releases(t.log[n - 1], k);
        }
    }
  }

  /** The exception can be reached, in a ring of two or three places: a down that carries the
      release-all bit takes the last place but one.  No caller in the program submits one. */
  lemma UpReleasesWitness(k: nat)
    ensures var f := Put(Empty(2), Code(k, true, true));
            && f.log == [Code(k, true, true)] && f.size - |f.queue| == 1
            && !ReleasedAfter(Put(f, KeyUp(k)).log, 0, k)
  {
    var f := Put(Empty(2), Code(k, true, true));
    assert Inv(f) by { StepKeepsInv(Empty(2), Submit(Code(k, true, true))); }
    UpReleases(f, 0, k);
  }

  lemma DownLeavesRoom(f: Fifo, c: Code)
    requires Inv(f) && c.down && Admit(f, c).Some?
    ensures f.size >= 4 ==> f.size - |Put(f, c).queue| >= 2
  {
  }

  lemma {:induction false} RunCat(f: Fifo, a: seq<Op>, b: seq<Op>)
    ensures Run(f, a + b) == Run(Run(f, a), b)
    decreases |a|
  {
    if a == [] {
      assert a + b == b;
    } else {
      assert (a + b)[0] == a[0] && (a + b)[1..] == a[1..] + b;
      RunCat(Step(f, a[0]), a[1..], b);
    }
  }

  /** The admission rules leave no key stuck, over any run: operations, a key-down of k that is accepted, more
      operations -- reads, other keys, further presses, anything lost to a full ring -- and
      a key-up of k.  Whatever happens to that key-up, some event accepted after the
      key-down releases k. */
  lemma NoStuckKey(size: nat, before: seq<Op>, k: nat, between: seq<Op>)
    requires size >= 2 && Admit(Run(Empty(size), before), KeyDown(k)).Some?
    ensures var f := Run(Empty(size), before);
            var all := before + [Submit(KeyDown(k))] + between + [Submit(KeyUp(k))];
            && f.log + [KeyDown(k)] <= Run(Empty(size), all).log
            && ReleasedAfter(Run(Empty(size), all).log, |f.log|, k)
  {
    var f := Run(Empty(size), before);
    RunKeepsInv(Empty(size), before);
    DownStoredAsIs(f, KeyDown(k));
    var g := Put(f, KeyDown(k));
    StepKeepsInv(f, Submit(KeyDown(k)));
    var h := Run(g, between);
    RunKeepsInv(g, between);
    assert h.log[|f.log|] == KeyDown(k);
    UpReleases(h, |f.log|, k);
    StepKeepsInv(h, Submit(KeyUp(k)));
    var pressed := [Submit(KeyDown(k))];
    var released := [Submit(KeyUp(k))];
    RunCat(Empty(size), before + pressed + between, released);
    RunCat(Empty(size), before + pressed, between);
    RunCat(Empty(size), before, pressed);
    RunOne(f, Submit(KeyDown(k)));
    RunOne(h, Submit(KeyUp(k)));
  }

  lemma {:induction false} RunOne(f: Fifo, op: Op)
    ensures Run(f, [op]) == Step(f, op)
  {
    assert [op][1..] == [];
    assert Run(Step(f, op), []) == Step(f, op);
  }

  // ------------------------------------------------------ the ring

  /** Both counters are unsigned and 32 bits wide. */
  const WIDTH := 0x1_0000_0000

  /** The unsigned counter after n events. */
  function Wrap(n: nat): (r: nat)
    ensures r < WIDTH
  {
    n % WIDTH
  }

  /** Where a counter points in the ring. */
  function Place(size: nat, n: nat): (r: nat)
    requires size > 0
    ensures r < size
  {
    n % size
  }

  lemma WrapNext(n: nat)
    ensures Wrap(Wrap(n) + 1) == Wrap(n + 1)
  {
  }

  lemma MulGrows(size: nat, d: int)
    ensures d >= 1 ==> size * d >= size
    ensures d <= 0 ==> size * d <= 0
  {
  }

  lemma RemainderUnique(x: nat, size: nat, q: int, r: nat)
    requires r < size && x == size * q + r
    ensures x % size == r
  {
    var (p, s) := (x / size, x % size);
    assert x == size * p + s;
    assert size * (q - p) == s - r by { assert size * (q - p) == size * q - size * p; }
    MulGrows(size, q - p);
    MulGrows(size, p - q);
    assert size * (p - q) == -(size * (q - p));
  }

  /** Events that are in the ring together sit in different places. */
  lemma PlacesDiffer(size: nat, a: nat, b: nat)
    requires size > 0 && a < b < a + size
    ensures Place(size, a) != Place(size, b)
  {
    var (p, r) := (a / size, a % size);
    assert a == size * p + r;
    if b % size == r {
      var q := b / size;
      assert b == size * q + r;
      assert b - a == size * (q - p);
      MulGrows(size, q - p);
    }
  }

  /** A 32-bit counter selects the right place exactly as long as it has not wrapped, or for
      ever if the ring's size divides 2^32. */
  predicate Usable(size: nat, n: nat)
    requires size > 0
  {
    WIDTH % size == 0 || n < WIDTH
  }

  lemma UsableBefore(size: nat, n: nat, m: nat)
    requires size > 0 && n <= m && Usable(size, m)
    ensures Usable(size, n)
  {
  }

  /** The unsigned difference of the counters is the number of events in the ring. */
  lemma Distance(size: nat, a: nat, b: nat)
    requires a <= b <= a + size && size <= 65000
    ensures Wrap(Wrap(a) + size + WIDTH - Wrap(b)) == size - (b - a)
    ensures Wrap(a) == Wrap(b) <==> a == b
  {
    var (d, r) := (b - a, a % WIDTH);
    assert b % WIDTH == if r + d < WIDTH then r + d else r + d - WIDTH;
  }

  lemma WrappedPlace(size: nat, n: nat)
    requires size > 0 && Usable(size, n)
    ensures Place(size, Wrap(n)) == Place(size, n)
  {
    if WIDTH % size == 0 {
      var (q, r) := (n / WIDTH, n % WIDTH);
      var m := WIDTH / size;
      var (p, s) := (r / size, r % size);
      assert n == WIDTH * q + r && WIDTH == size * m && r == size * p + s;
      assert WIDTH * q == size * (m * q);
      assert n == size * (m * q + p) + s;
      RemainderUnique(n, size, m * q + p, s);
    }
  }

  // ------------------------------------------------------ the ring, on values

  /** The ring as the program keeps it: the counters are unsigned 32-bit numbers. */
  datatype Ring = Ring(size: nat, cells: seq<Code>, read: nat, write: nat, previous: Code)

  predicate RingOk(r: Ring) {
    2 <= r.size <= 65000 && |r.cells| == r.size && r.read < WIDTH && r.write < WIDTH
  }

  function EmptyRing(size: nat): Ring {
    Ring(size, seq(size, _ => ZERO), 0, 0, ZERO)
  }

  /** fifo_free */
  function FreeOf(r: Ring): nat
    requires RingOk(r)
  {
    Wrap(r.read + r.size + WIDTH - r.write)
  }

  function RingStore(r: Ring, c: Code): Ring
    requires RingOk(r)
  {
    Ring(r.size, r.cells[Place(r.size, r.write) := c], r.read, Wrap(r.write + 1), Remember(c))
  }

  function RingPut(r: Ring, code: Code): (q: Ring)
    requires RingOk(r)
    ensures RingOk(q) && q.size == r.size
  {
    match AdmitWith(r.size, FreeOf(r), r.previous, code)
    case None => r
    case Some(c) => RingStore(r, c)
  }

  /** What a read returns, None for MP_INPUT_NOTHING. */
  function RingHead(r: Ring): Option<Code>
    requires RingOk(r)
  {
    if r.write == r.read then None else Some(r.cells[Place(r.size, r.read)])
  }

  function RingGet(r: Ring): Ring
    requires RingOk(r)
  {
    if r.write == r.read then r else r.(read := Wrap(r.read + 1))
  }

  function RingStep(r: Ring, op: Op): (q: Ring)
    requires RingOk(r)
    ensures RingOk(q) && q.size == r.size
  {
    match op case Submit(c) => RingPut(r, c) case Read => RingGet(r)
  }

  function RingRun(r: Ring, ops: seq<Op>): (q: Ring)
    requires RingOk(r)
    ensures RingOk(q) && q.size == r.size
    decreases |ops|
  {
    if ops == [] then r else RingRun(RingStep(r, ops[0]), ops[1..])
  }

  // ------------------------------------------------------ what the reader gets

  function Head(f: Fifo): Option<Code> {
    if f.queue == [] then None else Some(f.queue[0])
  }

  /** The results of the reads in a run, in order: from the queue and from the ring. */
  function Reads(f: Fifo, ops: seq<Op>): seq<Option<Code>>
    decreases |ops|
  {
    if ops == [] then [] else (if ops[0].Read? then [Head(f)] else []) + Reads(Step(f, ops[0]), ops[1..])
  }

  function RingReads(r: Ring, ops: seq<Op>): seq<Option<Code>>
    requires RingOk(r)
    decreases |ops|
  {
    if ops == [] then [] else (if ops[0].Read? then [RingHead(r)] else []) + RingReads(RingStep(r, ops[0]), ops[1..])
  }

  /** The ring holds the queue: event number n of the log lies at the place of n. */
  ghost predicate Holds(r: Ring, f: Fifo) {
    && RingOk(r) && Inv(f) && r.size == f.size && r.previous == f.previous
    && r.write == Wrap(|f.log|) && r.read == Wrap(|f.log| - |f.queue|)
    && forall n :: |f.log| - |f.queue| <= n < |f.log| ==> r.cells[Place(r.size, n)] == f.log[n]
  }

  /** The next event, if it is accepted, is not beyond what the counters can tell apart. */
  predicate Roomy(f: Fifo) {
    f.size > 0 && Usable(f.size, |f.log|)
  }

  lemma HoldsCounts(r: Ring, f: Fifo)
    requires Holds(r, f)
    ensures FreeOf(r) == f.size - |f.queue| && (r.write == r.read <==> f.queue == [])
  {
    Distance(r.size, |f.log| - |f.queue|, |f.log|);
  }

  lemma StoreHolds(r: Ring, f: Fifo, c: Code)
    requires Holds(r, f) && |f.queue| < f.size && Roomy(f)
    requires Inv(f.(queue := f.queue + [c], previous := Remember(c), log := f.log + [c]))
    ensures Holds(RingStore(r, c), f.(queue := f.queue + [c], previous := Remember(c), log := f.log + [c]))
  {
    hide Wrap, Place, Usable;
    WrappedPlace(r.size, |f.log|);
    WrapNext(|f.log|);
    forall n | |f.log| - |f.queue| <= n < |f.log| ensures Place(r.size, n) != Place(r.size, |f.log|) {
      PlacesDiffer(r.size, n, |f.log|);
    }
  }

  lemma PutHolds(r: Ring, f: Fifo, c: Code)
    requires Holds(r, f) && Roomy(f)
    ensures Holds(RingPut(r, c), Put(f, c))
  {
    HoldsCounts(r, f);
    StepKeepsInv(f, Submit(c));
    if Admit(f, c).Some? { StoreHolds(r, f, Admit(f, c).value); }
  }

  lemma GetHolds(r: Ring, f: Fifo)
    requires Holds(r, f) && (f.queue != [] ==> Usable(f.size, |f.log| - 1))
    ensures Holds(RingGet(r), Get(f)) && RingHead(r) == Head(f)
  {
    hide Wrap, Place, Usable;
    HoldsCounts(r, f);
    StepKeepsInv(f, Read);
    if f.queue != [] {
      UsableBefore(r.size, |f.log| - |f.queue|, |f.log| - 1);
      WrappedPlace(r.size, |f.log| - |f.queue|);
      WrapNext(|f.log| - |f.queue|);
    }
  }

  /** At most 2^32 events are accepted, or the size divides 2^32. */
  predicate Countable(f: Fifo) {
    f.size > 0 && (f.log != [] ==> Usable(f.size, |f.log| - 1))
  }

  lemma {:induction false} RunHolds(r: Ring, f: Fifo, ops: seq<Op>)
    requires Holds(r, f) && Countable(Run(f, ops))
    ensures Holds(RingRun(r, ops), Run(f, ops)) && RingReads(r, ops) == Reads(f, ops)
    decreases |ops|
  {
    if ops != [] {
      hide Holds, Admit, RingPut, RingGet, Get, Inv, Usable;
      HoldsInv(r, f);
      StepKeepsInv(f, ops[0]);
      var g := Step(f, ops[0]);
      RunKeepsInv(g, ops[1..]);
      CountableBefore(f, Run(f, ops));
      CountableBefore(g, Run(f, ops));
      StepHolds(r, f, ops[0]);
      RunHolds(RingStep(r, ops[0]), g, ops[1..]);
    }
  }

  lemma HoldsInv(r: Ring, f: Fifo)
    requires Holds(r, f)
    ensures Inv(f) && RingOk(r) && f.size == r.size > 0
  {
  }

  lemma CountableBefore(f: Fifo, g: Fifo)
    requires f.size == g.size && f.log <= g.log && Countable(g)
    ensures Countable(f)
  {
  }

  lemma StepHolds(r: Ring, f: Fifo, op: Op)
    requires Holds(r, f) && Countable(f) && Countable(Step(f, op))
    ensures Holds(RingStep(r, op), Step(f, op))
    ensures op.Read? ==> RingHead(r) == Head(f)
  {
    match op
    case Read =>
      assert f.queue != [] ==> f.log != [];
      GetHolds(r, f);
    case Submit(c) =>
      if Admit(f, c).Some? {
        assert Put(f, c).log == f.log + [Admit(f, c).value];
        PutHolds(r, f, c);
      } else {
        HoldsCounts(r, f);
      }
  }

  lemma EmptyHolds(size: nat)
    requires 2 <= size <= 65000
    ensures Holds(EmptyRing(size), Empty(size))
  {
  }

  /** The reader gets from the ring what it would get from the queue, in every run that
      accepts no more than 2^32 events, and in every run at all if the size divides 2^32. */
  lemma RingIsQueue(size: nat, ops: seq<Op>)
    requires 2 <= size <= 65000 && (WIDTH % size == 0 || |Run(Empty(size), ops).log| <= WIDTH)
    ensures RingReads(EmptyRing(size), ops) == Reads(Empty(size), ops)
    ensures Holds(RingRun(EmptyRing(size), ops), Run(Empty(size), ops))
  {
    EmptyHolds(size);
    RunKeepsInv(Empty(size), ops);
    RunHolds(EmptyRing(size), Empty(size), ops);
  }

  // ------------------------------------------------------ the wrap

  /** Counters less than a ring apart select different places, whether they have wrapped or
      not, exactly if the size divides 2^32.  Otherwise the last event before the wrap shares
      its place with one that follows within a ring's length. */
  lemma WrappedPlacesDiffer(size: nat)
    requires 2 <= size <= 65000
    ensures (forall a: nat, b: nat :: a < b < a + size ==> Place(size, Wrap(a)) != Place(size, Wrap(b)))
            <==> WIDTH % size == 0
    ensures WIDTH % size != 0 ==> Place(size, Wrap(WIDTH - 1)) == Place(size, Wrap(WIDTH - 1 + WIDTH % size))
  {
    var r := WIDTH % size;
    if r == 0 {
      forall a: nat, b: nat | a < b < a + size ensures Place(size, Wrap(a)) != Place(size, Wrap(b)) {
        WrappedPlace(size, a);
        WrappedPlace(size, b);
        PlacesDiffer(size, a, b);
      }
    } else {
      Collision(size);
      var (a, b) := (WIDTH - 1, WIDTH - 1 + r);
      assert a < b < a + size && Place(size, Wrap(a)) == Place(size, Wrap(b));
    }
  }

  lemma WrapBefore(n: nat)
    requires n < WIDTH
    ensures Wrap(n) == n
  {
  }

  lemma WrapPast(r: nat)
    requires 0 < r <= WIDTH
    ensures Wrap(WIDTH - 1 + r) == r - 1
  {
  }

  lemma Collision(size: nat)
    requires 2 <= size <= 65000 && WIDTH % size != 0
    ensures Place(size, Wrap(WIDTH - 1)) == Place(size, Wrap(WIDTH - 1 + WIDTH % size))
  {
    hide Wrap;
    var (q, r) := (WIDTH / size, WIDTH % size);
    var w := WIDTH;
    assert w == size * q + r;
    RemainderUnique(w - 1, size, q, r - 1);
    WrapBefore(w - 1);
    WrapPast(r);
    RemainderUnique(r - 1, size, 0, r - 1);
  }

  const FIRST := Code(1, false, false)
  const LATER := Code(2, false, false)

  /** n events, each read at once. */
  function WarmUp(n: nat): seq<Op> {
    if n == 0 then [] else WarmUp(n - 1) + [Submit(FIRST), Read]
  }

  function Burst(n: nat): seq<Op> {
    if n == 0 then [] else Burst(n - 1) + [Submit(if n == 1 then FIRST else LATER)]
  }

  /** 2^32 - 1 events that are read at once, then enough events to come round to the place of
      the first of them, then a read. */
  function LosingRun(size: nat): seq<Op>
    requires size > 0
  {
    WarmUp(WIDTH - 1) + Burst(WIDTH % size + 1) + [Read]
  }

  lemma {:induction false} RingRunCat(r: Ring, a: seq<Op>, b: seq<Op>)
    requires RingOk(r)
    ensures RingRun(r, a + b) == RingRun(RingRun(r, a), b)
    decreases |a|
  {
    if a == [] {
      assert a + b == b;
    } else {
      assert (a + b)[0] == a[0] && (a + b)[1..] == a[1..] + b;
      RingRunCat(RingStep(r, a[0]), a[1..], b);
    }
  }

  lemma {:induction false} RingRunOne(r: Ring, op: Op)
    requires RingOk(r)
    ensures RingRun(r, [op]) == RingStep(r, op)
  {
    assert [op][1..] == [];
    assert RingRun(RingStep(r, op), []) == RingStep(r, op);
  }

  lemma {:induction false} LastRead(r: Ring, f: Fifo, a: seq<Op>)
    requires RingOk(r)
    ensures |RingReads(r, a + [Read])| > 0 && |Reads(f, a + [Read])| > 0
    ensures Last(RingReads(r, a + [Read])) == RingHead(RingRun(r, a)) && Last(Reads(f, a + [Read])) == Head(Run(f, a))
    decreases |a|
  {
    var ops := a + [Read];
    if a == [] {
      assert ops[1..] == [];
      assert RingReads(RingStep(r, Read), []) == [] && Reads(Step(f, Read), []) == [];
    } else {
      assert ops[0] == a[0] && ops[1..] == a[1..] + [Read];
      LastRead(RingStep(r, a[0]), Step(f, a[0]), a[1..]);
    }
  }

  lemma PutFirst(r: Ring, f: Fifo, c: Code)
    requires RingOk(r) && 3 <= r.size == f.size && c in {FIRST, LATER}
    requires FreeOf(r) == f.size - |f.queue| >= 1
    requires !r.previous.releaseAll && f.previous == r.previous
    ensures var (q, g) := (RingPut(r, c), Put(f, c));
            && q.write == Wrap(r.write + 1) && q.read == r.read && g.size == f.size
            && exists x :: (x == c || x.releaseAll) && q.cells == r.cells[Place(r.size, r.write) := x]
                           && g.queue == f.queue + [x] && g.log == f.log + [x]
                           && q.previous == g.previous && (FreeOf(r) > 1 ==> x == c && q.previous == ZERO)
  {
    var x := AdmitWith(r.size, FreeOf(r), r.previous, c).value;
    assert x == c || x.releaseAll;
    assert RingPut(r, c).cells == r.cells[Place(r.size, r.write) := x];
  }

  /** After the warm-up both are empty and the counters stand at n. */
  lemma {:induction false} Warm(size: nat, n: nat)
    requires 3 <= size <= 65000
    ensures var (r, f) := (RingRun(EmptyRing(size), WarmUp(n)), Run(Empty(size), WarmUp(n)));
            && r.read == r.write == Wrap(n) && r.previous == f.previous == ZERO && f.queue == [] && f.size == size
  {
    if n > 0 {
      Warm(size, n - 1);
      var (r, f) := (RingRun(EmptyRing(size), WarmUp(n - 1)), Run(Empty(size), WarmUp(n - 1)));
      TwoSteps(r, f, n - 1);
      RingRunCat(EmptyRing(size), WarmUp(n - 1), [Submit(FIRST), Read]);
      RunCat(Empty(size), WarmUp(n - 1), [Submit(FIRST), Read]);
    }
  }

  lemma TwoSteps(r: Ring, f: Fifo, n: nat)
    requires RingOk(r) && 3 <= r.size == f.size && r.read == r.write == Wrap(n) && f.queue == []
    requires r.previous == f.previous == ZERO
    ensures var (q, g) := (RingRun(r, [Submit(FIRST), Read]), Run(f, [Submit(FIRST), Read]));
            && q.read == q.write == Wrap(n + 1) && q.previous == g.previous == ZERO && g.queue == [] && g.size == f.size
  {
    Distance(r.size, n, n);
    WrapNext(n);
    var two := [Submit(FIRST), Read];
    assert two == [Submit(FIRST)] + [Read];
    RingRunCat(r, [Submit(FIRST)], [Read]);
    RunCat(f, [Submit(FIRST)], [Read]);
    RingRunOne(r, Submit(FIRST));
    RunOne(f, Submit(FIRST));
    RingRunOne(RingPut(r, FIRST), Read);
    RunOne(Put(f, FIRST), Read);
    Distance(r.size, n, n + 1);
  }

  /** After a burst of n events on empty ones, which is shorter than the ring. */
  lemma {:induction false} Bursting(r: Ring, f: Fifo, at: nat, n: nat)
    requires RingOk(r) && 3 <= r.size == f.size && r.read == r.write == Wrap(at) && f.queue == []
    requires r.previous == f.previous == ZERO && n < r.size
    ensures var (q, g) := (RingRun(r, Burst(n)), Run(f, Burst(n)));
            && q.read == Wrap(at) && q.write == Wrap(at + n) && q.previous == g.previous == ZERO
            && |g.queue| == n && g.size == f.size && (n > 0 ==> g.queue[0] == FIRST)
  {
    hide Wrap, Place, FreeOf, RingPut, Put;
    if n > 0 {
      Bursting(r, f, at, n - 1);
      var (q, g) := (RingRun(r, Burst(n - 1)), Run(f, Burst(n - 1)));
      var c := if n == 1 then FIRST else LATER;
      BurstStep(r, f, n);
      FreeAfter(q, r.size, at, n - 1);
      WrapNext(at + (n - 1));
      PutFirst(q, g, c);
    }
  }

  lemma BurstStep(r: Ring, f: Fifo, n: nat)
    requires RingOk(r) && n > 0
    ensures var c := if n == 1 then FIRST else LATER;
            && RingRun(r, Burst(n)) == RingPut(RingRun(r, Burst(n - 1)), c)
            && Run(f, Burst(n)) == Put(Run(f, Burst(n - 1)), c)
  {
    var c := if n == 1 then FIRST else LATER;
    RingRunCat(r, Burst(n - 1), [Submit(c)]);
    RunCat(f, Burst(n - 1), [Submit(c)]);
    RingRunOne(RingRun(r, Burst(n - 1)), Submit(c));
    RunOne(Run(f, Burst(n - 1)), Submit(c));
  }

  /** In this run a queued event is overwritten: the queue would give the reader the event
      that came first, the ring gives it another one. */
  lemma LosesAnEvent(size: nat)
    requires 2 <= size <= 65000 && WIDTH % size != 0
    ensures var ops := WarmUp(WIDTH - 1) + Burst(WIDTH % size + 1);
            && LosingRun(size) == ops + [Read]
            && Head(Run(Empty(size), ops)) == Some(FIRST) && RingHead(RingRun(EmptyRing(size), ops)) != Some(FIRST)
  {
    hide WarmUp, Burst, RingRun, Run, Wrap, Place, FreeOf, Put, RingPut;
    assert size >= 3;
    var (w, n) := (WIDTH - 1, WIDTH % size);
    var (r, f) := (RingRun(EmptyRing(size), WarmUp(w)), Run(Empty(size), WarmUp(w)));
    Warm(size, w);
    RingRunCat(EmptyRing(size), WarmUp(w), Burst(n + 1));
    RunCat(Empty(size), WarmUp(w), Burst(n + 1));
    BurstStep(r, f, n + 1);
    Bursting(r, f, w, n);
    var (q, g) := (RingRun(r, Burst(n)), Run(f, Burst(n)));
    assert FreeOf(q) == size - n by { FreeAfter(q, size, w, n); }
    PutFirst(q, g, LATER);
    Collision(size);
    Distance(size, w, w + n);
    FullDistance(size, w, n + 1);
    WrapNext(w + n);
  }

  lemma FreeAfter(q: Ring, size: nat, at: nat, n: nat)
    requires RingOk(q) && q.size == size && n <= size && q.read == Wrap(at) && q.write == Wrap(at + n)
    ensures FreeOf(q) == size - n
  {
    Distance(size, at, at + n);
  }

  lemma FullDistance(size: nat, at: nat, n: nat)
    requires 2 <= size <= 65000 && 0 < n <= size
    ensures Wrap(at) != Wrap(at + n)
  {
    Distance(size, at, at + n);
  }

  /** The ring is a queue, in every run, exactly if its size divides 2^32. */
  lemma RingIsQueueIff(size: nat)
    requires 2 <= size <= 65000
    ensures (forall ops :: RingReads(EmptyRing(size), ops) == Reads(Empty(size), ops)) <==> WIDTH % size == 0
  {
    if WIDTH % size == 0 {
      forall ops ensures RingReads(EmptyRing(size), ops) == Reads(Empty(size), ops) { RingIsQueue(size, ops); }
    } else {
      LosesAnEvent(size);
      LastRead(EmptyRing(size), Empty(size), WarmUp(WIDTH - 1) + Burst(WIDTH % size + 1));
    }
  }

  /** The default size, 7, loses an event: the fifth after 2^32 - 1 takes the place of the
      first, which has not been read. */
  lemma DefaultSizeLosesAnEvent()
    ensures WIDTH % 7 == 4
    ensures RingReads(EmptyRing(7), LosingRun(7)) != Reads(Empty(7), LosingRun(7))
  {
    LosesAnEvent(7);
    LastRead(EmptyRing(7), Empty(7), WarmUp(WIDTH - 1) + Burst(5));
  }

  // ------------------------------------------------------ the ring as it runs

  /** The static variables of mp_fifo.c. */
  class KeyRing {
    const size: nat
    var data: array?<Code>
    var read: nat
    var write: nat
    var previous: Code

    ghost predicate Valid()
      reads this, data
    {
      && (data != null ==> data.Length == size)
      && (data == null ==> read == write == 0)
      && RingOk(Abs())
    }

    /** Before the first event no array has been allocated. */
    ghost function Abs(): Ring
      reads this, data
    {
      Ring(size, if data == null then seq(size, _ => ZERO) else data[..], read, write, previous)
    }

    /** "key-fifo-size" is an option with range 2 to 65000. */
    constructor (size: nat)
      requires 2 <= size <= 65000
      ensures Valid() && Abs() == EmptyRing(size)
    {
      this.size, data, read, write, previous := size, null, 0, 0, ZERO;
    }

    /** mplayer_put_key_internal */
    method PutKey(code: Code)
      requires Valid()
      modifies this, data
      ensures Valid() && Abs() == RingPut(old(Abs()), code)
      ensures data == old(data) || fresh(data)
    {
      hide Wrap, Place;
      var free := Wrap(read + size + WIDTH - write);
      if data == null {
        data := new Code[size](_ => ZERO);
        assert data[..] == seq(size, _ => ZERO);
      }
      if free == 0 { return; }
      if code.down && free <= size / 2 { return; }
      var c := code;
      if free == 1 {
        if previous.releaseAll { return; }
        if c != previous { c := ZERO; }
        c := c.(releaseAll := true);
      }
      data[Place(size, write)] := c;
      write := Wrap(write + 1);
      previous := if c.down then c.(down := false) else Code(0, false, c.releaseAll);
    }

    /** mplayer_get_key: None is MP_INPUT_NOTHING. */
    method GetKey() returns (key: Option<Code>)
      requires Valid()
      modifies `read
      ensures Valid() && Abs() == RingGet(old(Abs())) && key == RingHead(old(Abs()))
    {
      if data == null { return None; }
      if write == read { return None; }
      key := Some(data[Place(size, read)]);
      read := Wrap(read + 1);
    }
  }
}
