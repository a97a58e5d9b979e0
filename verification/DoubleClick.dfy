/** mplayer_put_key of mp_fifo.c: what is submitted to the key FIFO when double clicks are
    recognised. */
module DoubleClick {
  import opened Wrappers
  import opened KeyFifo
  import opened KeyDelivery

  /** Mouse buttons and their double-click twins, MP_NO_REPEAT_KEY included. */
  const BTN0 := 0x1000_0200
  const BTN0_DBL := 0x1000_0300
  const BUTTONS := 20

  /** The last two key-downs, newest first, and when they came (unsigned milliseconds). */
  datatype Clicks = Clicks(key0: Code, key1: Code, time0: nat, time1: nat)

  const START := Clicks(ZERO, ZERO, 0, 0)

  function Bare(code: Code): Code { code.(down := false) }

  function Since(now: nat, then_: nat): nat {
    (now - then_) % WIDTH
  }

  /** A double click from elsewhere, while they are recognised here. */
  predicate Ignored(limit: nat, code: Code) {
    limit != 0 && !code.releaseAll && BTN0_DBL <= code.key < BTN0_DBL + BUTTONS
  }

  predicate Doubled(limit: nat, c: Clicks, code: Code, now: nat) {
    if code.down then c.key0 == Bare(code) && Since(now, c.time0) < limit
    else c.key0 == code && c.key1 == code && Since(now, c.time1) < limit
  }

  function Twin(code: Code): seq<Code> {
    if !code.releaseAll && BTN0 <= code.key < BTN0 + BUTTONS
    then [Code(code.key - BTN0 + BTN0_DBL, false, false)] else []
  }

  /** What is submitted for one event, in order. */
  function Submitted(limit: nat, c: Clicks, code: Code, now: nat): seq<Code> {
    if Ignored(limit, code) then []
    else [code] + if Doubled(limit, c, code, now) then Twin(code) else []
  }

  function After(limit: nat, c: Clicks, code: Code, now: nat): Clicks {
    if !Ignored(limit, code) && code.down then Clicks(Bare(code), c.key0, now, c.time0) else c
  }

  // ------------------------------------------------------ double clicks

  /** A press that follows a press of the same key in time is a double click; its release is
      one exactly if the press was and the release still comes in time after the first press. */
  lemma ReleaseDoubles(limit: nat, c: Clicks, k: nat, t: nat, u: nat)
    requires c.time0 <= t <= u < WIDTH && !Ignored(limit, KeyDown(k))
    ensures Doubled(limit, After(limit, c, KeyDown(k), t), KeyUp(k), u)
            <==> Doubled(limit, c, KeyDown(k), t) && u - c.time0 < limit
  {
  }

  /** Key-ups leave the record of presses alone; so a press is a double click exactly if the
      press before it was of the same key and less than the limit ago. */
  lemma PressDoubles(limit: nat, c: Clicks, j: nat, k: nat, t: nat, u: nat)
    requires t <= u < WIDTH && !Ignored(limit, KeyDown(j))
    ensures Doubled(limit, After(limit, c, KeyDown(j), t), KeyDown(k), u) <==> j == k && u - t < limit
    ensures After(limit, c, KeyUp(k), u) == c
  {
  }

  /** What is submitted: the event itself, and for a double click of mouse button b its double
      click event; while double clicks are recognised here, those from elsewhere are not. */
  lemma SubmitsExactly(limit: nat, c: Clicks, k: nat, down: bool, now: nat)
    ensures var code := Code(k, down, false);
            var b := k - 0x1000_0200;
            var fromElsewhere := 0x1000_0300 <= k <= 0x1000_0313;
            Submitted(limit, c, code, now)
            == if fromElsewhere && limit > 0 then []
               else if 0 <= b <= 19 && Doubled(limit, c, code, now) then [code, Code(0x1000_0300 + b, false, false)]
               else [code]
  {
  }

  // ------------------------------------------------------ whole runs

  datatype Event = Key(code: Code, now: nat) | ReadKey

  function OpsOf(cs: seq<Code>): seq<Op> {
    if cs == [] then [] else [Submit(cs[0])] + OpsOf(cs[1..])
  }

  function OpsAt(limit: nat, c: Clicks, e: Event): seq<Op> {
    match e
    case Key(code, now) => OpsOf(Submitted(limit, c, code, now))
    case ReadKey => [Read]
  }

  function ClicksAfter(limit: nat, c: Clicks, e: Event): Clicks {
    match e
    case Key(code, now) => After(limit, c, code, now)
    case ReadKey => c
  }

  function ClicksAfterAll(limit: nat, c: Clicks, es: seq<Event>): Clicks
    decreases |es|
  {
    if es == [] then c else ClicksAfterAll(limit, ClicksAfter(limit, c, es[0]), es[1..])
  }

  /** The FIFO operations that a run of events comes to. */
  function Ops(limit: nat, c: Clicks, es: seq<Event>): seq<Op>
    decreases |es|
  {
    if es == [] then [] else OpsAt(limit, c, es[0]) + Ops(limit, ClicksAfter(limit, c, es[0]), es[1..])
  }

  lemma {:induction false} OpsCat(limit: nat, c: Clicks, a: seq<Event>, b: seq<Event>)
    ensures Ops(limit, c, a + b) == Ops(limit, c, a) + Ops(limit, ClicksAfterAll(limit, c, a), b)
    decreases |a|
  {
    if a == [] {
      assert a + b == b;
    } else {
      assert (a + b)[0] == a[0] && (a + b)[1..] == a[1..] + b;
      OpsCat(limit, ClicksAfter(limit, c, a[0]), a[1..], b);
    }
  }

  /** What follows the submission of the event's own code: at most a double click. */
  function Extra(limit: nat, c: Clicks, code: Code, now: nat): seq<Op> {
    if Doubled(limit, c, code, now) then OpsOf(Twin(code)) else []
  }

  lemma OpsOne(limit: nat, c: Clicks, code: Code, now: nat)
    requires !Ignored(limit, code)
    ensures Ops(limit, c, [Key(code, now)]) == [Submit(code)] + Extra(limit, c, code, now)
  {
    var cs := Submitted(limit, c, code, now);
    assert cs[0] == code && cs[1..] == if Doubled(limit, c, code, now) then Twin(code) else [];
    assert [Key(code, now)][1..] == [];
    assert OpsOf([]) == [];
    var ops := OpsOf(cs);
    assert ops + [] == ops;
  }

  /** The admission rules leave no key stuck when double clicks are recognised either: the extra events take room
      in the FIFO, yet after a key-up some event accepted since the accepted key-down releases
      the key. */
  lemma NoStuckKeyAnyClicks(size: nat, limit: nat, before: seq<Event>, k: nat, t: nat, between: seq<Event>, u: nat)
    requires size >= 2 && !Ignored(limit, KeyDown(k))
    requires Admit(Run(Empty(size), Ops(limit, START, before)), KeyDown(k)).Some?
    ensures var f := Run(Empty(size), Ops(limit, START, before));
            var all := before + [Key(KeyDown(k), t)] + between + [Key(KeyUp(k), u)];
            var g := Run(Empty(size), Ops(limit, START, all));
            f.log + [KeyDown(k)] <= g.log && ReleasedAfter(g.log, |f.log|, k)
  {
    hide Run, Ops, Admit, ReleasedAfter, Doubled, Ignored;
    var (down, up) := ([Key(KeyDown(k), t)], [Key(KeyUp(k), u)]);
    var c1 := ClicksAfterAll(limit, START, before);
    var c2 := ClicksAfterAll(limit, START, before + down);
    var c3 := ClicksAfterAll(limit, START, before + down + between);
    OpsCat(limit, START, before + down + between, up);
    OpsCat(limit, START, before + down, between);
    OpsCat(limit, START, before, down);
    OpsOne(limit, c1, KeyDown(k), t);
    NotIgnoredUp(limit, k);
    OpsOne(limit, c3, KeyUp(k), u);
    var (o1, x1, o2, x2) := (Ops(limit, START, before), Extra(limit, c1, KeyDown(k), t), Ops(limit, c2, between), Extra(limit, c3, KeyUp(k), u));
    var upTo := o1 + [Submit(KeyDown(k))] + (x1 + o2) + [Submit(KeyUp(k))];
    assert Ops(limit, START, before + down + between + up) == upTo + x2;
    NoStuckKey(size, o1, k, x1 + o2);
    ReleasedLater(size, upTo, x2, |Run(Empty(size), o1).log|, k);
  }

  lemma NotIgnoredUp(limit: nat, k: nat)
    ensures Ignored(limit, KeyUp(k)) == Ignored(limit, KeyDown(k))
  {
  }

  // ------------------------------------------------------ at the reader

  /** FIFO operations as events that come at time 0. */
  function EventsOf(ops: seq<Op>): seq<Event> {
    seq(|ops|, i requires 0 <= i < |ops| => match ops[i] case Submit(c) => Key(c, 0) case Read => ReadKey)
  }

  /** No event is a mouse button's or a double click. */
  predicate Unremarkable(ops: seq<Op>) {
    forall i :: 0 <= i < |ops| && ops[i].Submit? ==> ops[i].code.key < BTN0
  }

  lemma {:induction false} PlainEvents(limit: nat, c: Clicks, ops: seq<Op>)
    requires Unremarkable(ops)
    ensures Ops(limit, c, EventsOf(ops)) == ops
    decreases |ops|
  {
    if ops != [] {
      var e := EventsOf(ops)[0];
      assert EventsOf(ops)[1..] == EventsOf(ops[1..]);
      PlainEvents(limit, ClicksAfter(limit, c, e), ops[1..]);
      assert OpsAt(limit, c, e) == [ops[0]] by {
        if ops[0].Submit? { OnlyItself(limit, c, ops[0].code); }
      }
      assert [ops[0]] + ops[1..] == ops;
    }
  }

  lemma OnlyItself(limit: nat, c: Clicks, code: Code)
    requires code.key < BTN0
    ensures OpsOf(Submitted(limit, c, code, 0)) == [Submit(code)]
  {
    assert Twin(code) == [] && Submitted(limit, c, code, 0) == [code];
    assert [code][1..] == [] && OpsOf([]) == [];
  }

  function Clicked(before: seq<Event>, k: nat, t: nat, between: seq<Event>, u: nat, after: seq<Event>): seq<Event> {
    before + [Key(KeyDown(k), t)] + between + [Key(KeyUp(k), u)] + after
  }

  /** If a key-down of k is accepted and a key-up of k comes later, then the reader, who at last
      reads the ring empty, gets after the key-down's turn an event that releases k. */
  ghost predicate ReaderReleasedAnyClicks(size: nat, limit: nat, before: seq<Event>, k: nat, t: nat, between: seq<Event>,
                                          u: nat, after: seq<Event>, n: nat)
    requires 2 <= size <= 65000
  {
    var f := Run(Empty(size), Ops(limit, START, before));
    var all := Clicked(before, k, t, between, u, after) + EventsOf(Drain(n));
    n >= size && !Ignored(limit, KeyDown(k)) && Admit(f, KeyDown(k)).Some?
    ==> ReleasedAfter(Got(RingReads(EmptyRing(size), Ops(limit, START, all))), |f.log|, k)
  }

  /** The double clicks added to the ring leave no key stuck at the reader, if the size is safe
      or at most 2^32 events are accepted. */
  lemma ReaderNeverStuckAnyClicks(size: nat, limit: nat, before: seq<Event>, k: nat, t: nat, between: seq<Event>,
                                  u: nat, after: seq<Event>, n: nat)
    requires 2 <= size <= 65000
    requires SafeSize(size) || |Run(Empty(size), Ops(limit, START, Clicked(before, k, t, between, u, after))).log| <= WIDTH
    ensures ReaderReleasedAnyClicks(size, limit, before, k, t, between, u, after, n)
  {
    hide Run, Ops, Admit, ReleasedAfter, Ignored, Drain, RingReads, Got, SafeSize;
    var f := Run(Empty(size), Ops(limit, START, before));
    if n >= size && !Ignored(limit, KeyDown(k)) && Admit(f, KeyDown(k)).Some? {
      var pressed := before + [Key(KeyDown(k), t)] + between + [Key(KeyUp(k), u)];
      NoStuckKeyAnyClicks(size, limit, before, k, t, between, u);
      OpsCat(limit, START, pressed, after);
      ReleasedLater(size, Ops(limit, START, pressed), Ops(limit, ClicksAfterAll(limit, START, pressed), after), |f.log|, k);
      OpsCat(limit, START, pressed + after, EventsOf(Drain(n)));
      DrainUnremarkable(n);
      PlainEvents(limit, ClicksAfterAll(limit, START, pressed + after), Drain(n));
      ReaderSees(size, Ops(limit, START, pressed + after), |f.log|, k, n);
    }
  }

  lemma {:induction false} DrainUnremarkable(n: nat)
    ensures Unremarkable(Drain(n))
  {
    if n > 0 { DrainUnremarkable(n - 1); }
  }

  lemma {:induction false} WarmUpUnremarkable(n: nat)
    ensures Unremarkable(WarmUp(n))
  {
    if n > 0 { WarmUpUnremarkable(n - 1); }
  }

  lemma {:induction false} LatersUnremarkable(n: nat)
    ensures Unremarkable(Laters(n))
  {
    if n > 0 { LatersUnremarkable(n - 1); }
  }

  /** With double clicks recognised too, no key stays stuck at the reader, over all runs,
      exactly if the size is safe. */
  lemma ReaderNeverStuckAnyClicksIff(size: nat, limit: nat)
    requires 2 <= size <= 65000
    ensures (forall before, k, t, between, u, after, n :: ReaderReleasedAnyClicks(size, limit, before, k, t, between, u, after, n))
            <==> SafeSize(size)
  {
    if SafeSize(size) {
      forall before, k, t, between, u, after, n
        ensures ReaderReleasedAnyClicks(size, limit, before, k, t, between, u, after, n)
      {
        ReaderNeverStuckAnyClicks(size, limit, before, k, t, between, u, after, n);
      }
    } else {
      StuckAnyClicks(size, limit);
    }
  }

  lemma StuckAnyClicks(size: nat, limit: nat)
    requires 2 <= size <= 65000 && !SafeSize(size)
    ensures !ReaderReleasedAnyClicks(size, limit, EventsOf(WarmUp(WIDTH - 2)), 1, 0, [ReadKey], 0, EventsOf(Laters(WIDTH % size)), size)
  {
    hide WarmUp, Laters, Drain, Run, RingReads, Got, Admit, Ops, SafeSize;
    var (warm, laters, drain) := (WarmUp(WIDTH - 2), Laters(WIDTH % size), Drain(size));
    WarmUpUnremarkable(WIDTH - 2);
    LatersUnremarkable(WIDTH % size);
    DrainUnremarkable(size);
    PlainEvents(limit, START, warm);
    PlainEvents(limit, START, StuckRun(size) + drain);
    assert Clicked(EventsOf(warm), 1, 0, [ReadKey], 0, EventsOf(laters)) + EventsOf(drain) == EventsOf(StuckRun(size) + drain);
    StuckKey(size, size);
  }

  // ------------------------------------------------------ mplayer_put_key

  class KeySource {
    const limit: nat
    const ring: KeyRing
    var lastKey0: Code
    var lastKey1: Code
    var lastTime0: nat
    var lastTime1: nat

    function Abs(): Clicks
      reads this
    {
      Clicks(lastKey0, lastKey1, lastTime0, lastTime1)
    }

    constructor (limit: nat, ring: KeyRing)
      ensures Abs() == START && this.limit == limit && this.ring == ring
    {
      this.limit, this.ring := limit, ring;
      lastKey0, lastKey1, lastTime0, lastTime1 := ZERO, ZERO, 0, 0;
    }

    method PutKey(code: Code, now: nat)
      requires ring.Valid()
      modifies this, ring, ring.data
      ensures ring.Valid() && Abs() == After(limit, old(Abs()), code, now)
      ensures ring.Abs() == RingRun(old(ring.Abs()), OpsOf(Submitted(limit, old(Abs()), code, now)))
    {
      hide KeyRing.Abs, RingPut, OpsOf, RingRun;
      ghost var (c, r) := (Abs(), ring.Abs());
      if limit != 0 && !code.releaseAll && BTN0_DBL <= code.key < BTN0_DBL + BUTTONS {
        NoneSubmitted(r, limit, c, code, now);
        return;
      }
      SubmittedRun(r, limit, c, code, now);
      ring.PutKey(code);
      if code.down {
        var key := code.(down := false);
        lastKey0, lastKey1, lastTime0, lastTime1 := key, lastKey0, now, lastTime0;
        if lastKey1 == key && (now - lastTime1) % WIDTH < limit { PutDouble(code); }
        return;
      }
      if lastKey0 == code && lastKey1 == code && (now - lastTime1) % WIDTH < limit { PutDouble(code); }
    }

    method PutDouble(code: Code)
      requires ring.Valid()
      modifies ring, ring.data
      ensures ring.Valid() && (ring.data == old(ring.data) || fresh(ring.data))
      ensures ring.Abs() == if Twin(code) == [] then old(ring.Abs()) else RingPut(old(ring.Abs()), Twin(code)[0])
    {
      hide KeyRing.Abs, RingPut;
      if !code.releaseAll && BTN0 <= code.key < BTN0 + BUTTONS {
        ring.PutKey(Code(code.key - BTN0 + BTN0_DBL, false, false));
      }
    }
  }

  lemma NoneSubmitted(r: Ring, limit: nat, c: Clicks, code: Code, now: nat)
    requires RingOk(r) && Ignored(limit, code)
    ensures RingRun(r, OpsOf(Submitted(limit, c, code, now))) == r
  {
  }

  lemma SubmittedRun(r: Ring, limit: nat, c: Clicks, code: Code, now: nat)
    requires RingOk(r) && !Ignored(limit, code)
    ensures RingRun(r, OpsOf(Submitted(limit, c, code, now)))
            == if Doubled(limit, c, code, now) && Twin(code) != [] then RingPut(RingPut(r, code), Twin(code)[0])
               else RingPut(r, code)
  {
    hide RingPut, Doubled;
    OpsOne(limit, c, code, now);
    assert OpsOf([]) == [];
    RingRunOne(r, Submit(code));
    if Doubled(limit, c, code, now) && Twin(code) != [] {
      var t := Twin(code)[0];
      assert Twin(code) == [t] && OpsOf([t]) == [Submit(t)] + OpsOf([]);
      RingRunCat(r, [Submit(code)], [Submit(t)]);
      RingRunOne(RingPut(r, code), Submit(t));
    }
  }
}
