/** The OSD message stack of mplayer.c: a linked list with the newest message on top,
    messages that are pulled to the top when they are set again, and a walk that ages
    messages and frees the expired ones as it goes. */
module Osd {
  import opened Wrappers

  /** `time` is an unsigned 32-bit number of milliseconds, `text` holds at most 127 characters. */
  datatype Msg = Msg(id: int, level: int, time: nat, started: bool, text: string)

  function Clip(text: string): string {
    if |text| >= 128 then text[..127] else text
  }

  function Unsigned(x: int): nat {
    x % 0x1_0000_0000
  }

  // ------------------------------------------------------ the stack, on values

  /** Where the walk from the top finds an id. */
  function IndexOf(s: seq<Msg>, id: int): (r: nat)
    ensures r <= |s|
    ensures r < |s| ==> s[r].id == id
    ensures forall k :: 0 <= k < r ==> s[k].id != id
  {
    if s == [] || s[0].id == id then 0
    else
      var r := IndexOf(s[1..], id);
      assert forall k :: 0 < k < 1 + r ==> s[k] == s[1..][k - 1];
      1 + r
  }

  function Without(s: seq<Msg>, k: nat): seq<Msg> {
    if k < |s| then s[..k] + s[k + 1..] else s
  }

  lemma IndexOfIs(s: seq<Msg>, id: int, k: nat)
    requires k <= |s| && (k < |s| ==> s[k].id == id)
    requires forall j :: 0 <= j < k ==> s[j].id != id
    ensures IndexOf(s, id) == k
  {
    assert IndexOf(s, id) >= k;
  }

  /** set_osd_msg: a message that is set again keeps its `started` flag. */
  function WithSet(s: seq<Msg>, id: int, level: int, time: int, text: string): seq<Msg> {
    var k := IndexOf(s, id);
    [Msg(id, level, Unsigned(time), k < |s| && s[k].started, Clip(text))] + Without(s, k)
  }

  function WithoutId(s: seq<Msg>, id: int): seq<Msg> {
    Without(s, IndexOf(s, id))
  }

  predicate Alive(m: Msg, diff: nat) {
    !m.started || m.time > diff
  }

  function Aged(m: Msg, diff: nat): Msg {
    if m.started then m.(time := if m.time > diff then m.time - diff else 0) else m.(started := true)
  }

  /** The walk of get_osd_msg: `shown` is the level up to which messages are visible, `done`
      says that a hidden message has been aged already. */
  function Walk(s: seq<Msg>, diff: nat, shown: int, done: bool): (seq<Msg>, Option<Msg>) {
    if s == [] then ([], None)
    else
      var (m, rest) := (s[0], s[1..]);
      if m.level > shown && done then Kept(m, Walk(rest, diff, shown, true))
      else if Alive(m, diff) then
        var a := Aged(m, diff);
        if m.level <= shown then (([a] + rest), Some(a)) else Kept(a, Walk(rest, diff, shown, true))
      else Walk(rest, diff, shown, done)
  }

  function Kept(m: Msg, r: (seq<Msg>, Option<Msg>)): (seq<Msg>, Option<Msg>) {
    ([m] + r.0, r.1)
  }

  // ------------------------------------------------------ ids stay unique

  predicate UniqueIds(s: seq<Msg>) {
    forall i, j :: 0 <= i < j < |s| ==> s[i].id != s[j].id
  }

  lemma SetKeepsUnique(s: seq<Msg>, id: int, level: int, time: int, text: string)
    requires UniqueIds(s)
    ensures UniqueIds(WithSet(s, id, level, time, text))
  {
    WithoutUnique(s, IndexOf(s, id));
    AbsentAfter(s, id);
    OnTopUnique(WithSet(s, id, level, time, text)[0], Without(s, IndexOf(s, id)));
  }

  predicate Present(s: seq<Msg>, id: int) {
    exists k :: 0 <= k < |s| && s[k].id == id
  }

  lemma WithoutUnique(s: seq<Msg>, k: nat)
    requires UniqueIds(s)
    ensures UniqueIds(Without(s, k))
  {
    var r := Without(s, k);
    if k < |s| {
      assert forall j: nat :: j < |r| ==> r[j] == s[if j < k then j else j + 1];
    }
  }

  /** Once the message the search finds is taken out, none of its id is left. */
  lemma AbsentAfter(s: seq<Msg>, id: int)
    requires UniqueIds(s)
    ensures !Present(Without(s, IndexOf(s, id)), id)
  {
    var k := IndexOf(s, id);
    var r := Without(s, k);
    forall j | 0 <= j < |r| ensures r[j].id != id { assert r[j] == s[if j < k then j else j + 1]; }
  }

  lemma OnTopUnique(m: Msg, rest: seq<Msg>)
    requires UniqueIds(rest) && !Present(rest, m.id)
    ensures UniqueIds([m] + rest)
  {
    var r := [m] + rest;
    assert forall j: nat :: 0 < j < |r| ==> r[j] == rest[j - 1];
  }

  /** The ids left by a walk are a subsequence of the ids there were. */
  predicate SubIds(r: seq<Msg>, s: seq<Msg>)
    decreases |s|
  {
    r == [] || (s != [] && ((r[0].id == s[0].id && SubIds(r[1..], s[1..])) || SubIds(r, s[1..])))
  }

  lemma {:induction false} SubIdsSelf(s: seq<Msg>)
    ensures SubIds(s, s)
  {
    if s != [] { SubIdsSelf(s[1..]); }
  }

  lemma {:induction false} WalkSubIds(s: seq<Msg>, diff: nat, shown: int, done: bool)
    ensures SubIds(Walk(s, diff, shown, done).0, s)
  {
    if s != [] {
      var (m, rest) := (s[0], s[1..]);
      if m.level > shown && done {
        WalkSubIds(rest, diff, shown, true);
        assert Walk(s, diff, shown, done).0[1..] == Walk(rest, diff, shown, true).0;
      } else if Alive(m, diff) {
        if m.level <= shown {
          SubIdsSelf(rest);
          assert Walk(s, diff, shown, done).0[1..] == rest;
        } else {
          WalkSubIds(rest, diff, shown, true);
          assert Walk(s, diff, shown, done).0[1..] == Walk(rest, diff, shown, true).0;
        }
      } else {
        WalkSubIds(rest, diff, shown, done);
      }
    }
  }

  lemma {:induction false} SubIdsIn(r: seq<Msg>, s: seq<Msg>, i: nat)
    requires SubIds(r, s) && i < |r|
    ensures exists k :: 0 <= k < |s| && s[k].id == r[i].id
    decreases |s|
  {
    if r[0].id == s[0].id && SubIds(r[1..], s[1..]) {
      if i > 0 {
        SubIdsIn(r[1..], s[1..], i - 1);
        var k :| 0 <= k < |s[1..]| && s[1..][k].id == r[i].id;
        assert s[k + 1].id == r[i].id;
      }
    } else {
      SubIdsIn(r, s[1..], i);
      var k :| 0 <= k < |s[1..]| && s[1..][k].id == r[i].id;
      assert s[k + 1].id == r[i].id;
    }
  }

  lemma {:induction false} SubIdsUnique(r: seq<Msg>, s: seq<Msg>)
    requires SubIds(r, s) && UniqueIds(s)
    ensures UniqueIds(r)
    decreases |s|
  {
    if r != [] {
      if r[0].id == s[0].id && SubIds(r[1..], s[1..]) {
        SubIdsUnique(r[1..], s[1..]);
        forall j | 0 < j < |r| ensures r[j].id != r[0].id {
          SubIdsIn(r[1..], s[1..], j - 1);
        }
      } else {
        SubIdsUnique(r, s[1..]);
      }
    }
  }

  datatype Op =
    | DoSet(id: int, level: int, time: int, text: string)
    | DoRemove(id: int)
    | DoClear
    | DoGet(diff: nat, shown: int)

  function Step(s: seq<Msg>, op: Op): seq<Msg> {
    match op
    case DoSet(id, level, time, text) => WithSet(s, id, level, time, text)
    case DoRemove(id) => WithoutId(s, id)
    case DoClear => []
    case DoGet(diff, shown) => Walk(s, diff, shown, false).0
  }

  function Run(s: seq<Msg>, ops: seq<Op>): seq<Msg>
    decreases |ops|
  {
    if ops == [] then s else Run(Step(s, ops[0]), ops[1..])
  }

  /** No two messages on the stack ever have the same id. */
  lemma {:induction false} RunKeepsUnique(s: seq<Msg>, ops: seq<Op>)
    requires UniqueIds(s)
    ensures UniqueIds(Run(s, ops))
    decreases |ops|
  {
    if ops != [] {
      match ops[0] {
        case DoSet(id, level, time, text) => SetKeepsUnique(s, id, level, time, text);
        case DoRemove(_) =>
        case DoClear =>
        case DoGet(diff, shown) =>
          WalkSubIds(s, diff, shown, false);
          SubIdsUnique(Walk(s, diff, shown, false).0, s);
      }
      RunKeepsUnique(Step(s, ops[0]), ops[1..]);
    }
  }

  // ------------------------------------------------------ what the walk finds and leaves

  /** The place of the first message that is visible and has not expired. */
  function FirstShown(s: seq<Msg>, diff: nat, shown: int): (r: nat)
    ensures r <= |s|
    ensures r < |s| ==> s[r].level <= shown && Alive(s[r], diff)
    ensures forall k :: 0 <= k < r ==> s[k].level > shown || !Alive(s[k], diff)
  {
    if s == [] || (s[0].level <= shown && Alive(s[0], diff)) then 0
    else
      var r := FirstShown(s[1..], diff, shown);
      assert forall k :: 0 < k < 1 + r ==> s[k] == s[1..][k - 1];
      1 + r
  }

  /** The hidden messages, up to the first that has not expired, are aged or freed; the
      others stay as they are. */
  function HiddenLeft(s: seq<Msg>, diff: nat, shown: int): seq<Msg> {
    if s == [] then []
    else if s[0].level <= shown || !Alive(s[0], diff) then HiddenLeft(s[1..], diff, shown)
    else [Aged(s[0], diff)] + Hidden(s[1..], shown)
  }

  function Hidden(s: seq<Msg>, shown: int): seq<Msg> {
    if s == [] then [] else (if s[0].level > shown then [s[0]] else []) + Hidden(s[1..], shown)
  }

  /** get_osd_msg shows the first visible message that has not expired, ages it, leaves the
      stack below it alone, frees every visible message above it (all have expired), and of
      the hidden ones above it frees the expired ones up to the first that has not, which
      alone is aged. */
  lemma {:induction false} WalkFinds(s: seq<Msg>, diff: nat, shown: int, done: bool)
    ensures Walk(s, diff, shown, done) == Found(s, diff, shown, done)
  {
    if s != [] {
      var (m, rest) := (s[0], s[1..]);
      if FirstShown(s, diff, shown) == 0 {
        assert Above([], diff, shown, done) == [] && s[..0] == [];
        assert [] + ([Aged(m, diff)] + rest) == [Aged(m, diff)] + rest;
      } else {
        var now := Left(m, diff, shown, done);
        WalkFinds(rest, diff, shown, done || now != []);
        FoundNext(s, diff, shown, done);
        var below := Found(rest, diff, shown, done || now != []);
        assert [] + below.0 == below.0;
      }
    }
  }

  function Above(s: seq<Msg>, diff: nat, shown: int, done: bool): seq<Msg> {
    if done then Hidden(s, shown) else HiddenLeft(s, diff, shown)
  }

  function Found(s: seq<Msg>, diff: nat, shown: int, done: bool): (seq<Msg>, Option<Msg>) {
    var k := FirstShown(s, diff, shown);
    var above := Above(s[..k], diff, shown, done);
    if k < |s| then (above + ([Aged(s[k], diff)] + s[k + 1..]), Some(Aged(s[k], diff))) else (above, None)
  }

  /** What the walk leaves of the message on top. */
  function Left(m: Msg, diff: nat, shown: int, done: bool): seq<Msg> {
    if m.level <= shown then [] else if done then [m] else if Alive(m, diff) then [Aged(m, diff)] else []
  }

  lemma AboveNext(s: seq<Msg>, k: nat, diff: nat, shown: int, done: bool)
    requires 0 < k <= |s|
    ensures var now := Left(s[0], diff, shown, done);
            Above(s[..k], diff, shown, done) == now + Above(s[1..][..k - 1], diff, shown, done || now != [])
  {
    assert s[..k][0] == s[0] && s[..k][1..] == s[1..][..k - 1];
  }

  lemma FoundNext(s: seq<Msg>, diff: nat, shown: int, done: bool)
    requires s != [] && FirstShown(s, diff, shown) > 0
    ensures var now := Left(s[0], diff, shown, done);
            var below := Found(s[1..], diff, shown, done || now != []);
            Found(s, diff, shown, done) == (now + below.0, below.1)
  {
    hide Above, Left;
    var k := FirstShown(s, diff, shown);
    var now := Left(s[0], diff, shown, done);
    AboveNext(s, k, diff, shown, done);
    if k < |s| {
      assert s[k] == s[1..][k - 1] && s[k + 1..] == s[1..][k..];
      Associative(now, Above(s[1..][..k - 1], diff, shown, done || now != []), [Aged(s[k], diff)] + s[k + 1..]);
    }
  }

  lemma Associative(a: seq<Msg>, b: seq<Msg>, c: seq<Msg>)
    ensures (a + b) + c == a + (b + c)
  {}

  /** Hidden messages take turns: the time runs for the one on top only, and if it is over,
      that one goes and the next one's time runs. */
  lemma HiddenTakeTurns(h1: Msg, h2: Msg, v: Msg, rest: seq<Msg>, diff: nat, shown: int)
    requires h1.level > shown && h2.level > shown && v.level <= shown
    requires h1.started && h2.started && v.started && v.time > diff
    ensures var w := Walk([h1, h2, v] + rest, diff, shown, false);
            var aged := v.(time := v.time - diff);
            && w.1 == Some(aged)
            && (h1.time > diff ==> w.0 == [h1.(time := h1.time - diff), h2, aged] + rest)
            && (h1.time <= diff < h2.time ==> w.0 == [h2.(time := h2.time - diff), aged] + rest)
            && (h1.time <= diff && h2.time <= diff ==> w.0 == [aged] + rest)
  {
    var s := [h1, h2, v] + rest;
    assert s[1..] == [h2, v] + rest && s[1..][1..] == [v] + rest && s[1..][1..][1..] == rest;
    var aged := v.(time := v.time - diff);
    assert Walk([v] + rest, diff, shown, true) == ([aged] + rest, Some(aged));
    assert Walk([v] + rest, diff, shown, false) == ([aged] + rest, Some(aged));
    assert [h2] + ([aged] + rest) == [h2, aged] + rest;
    if h2.time > diff {
      var a2 := h2.(time := h2.time - diff);
      assert [a2] + ([aged] + rest) == [a2, aged] + rest;
    }
    if h1.time > diff {
      var a1 := h1.(time := h1.time - diff);
      assert [a1] + ([h2, aged] + rest) == [a1, h2, aged] + rest;
    }
  }

  // ------------------------------------------------------ how long a message stays

  function Elapsed(ops: seq<Op>): nat {
    if ops == [] then 0 else (match ops[0] case DoGet(diff, _) => diff case _ => 0) + Elapsed(ops[1..])
  }

  lemma {:induction false} AbsentStays(s: seq<Msg>, ops: seq<Op>, id: int)
    requires !Present(s, id)
    requires forall k :: 0 <= k < |ops| ==> ops[k].DoGet?
    ensures !Present(Run(s, ops), id)
    decreases |ops|
  {
    if ops != [] {
      var r := Step(s, ops[0]);
      WalkSubIds(s, ops[0].diff, ops[0].shown, false);
      forall i | 0 <= i < |r| ensures r[i].id != id { SubIdsIn(r, s, i); }
      AbsentStays(r, ops[1..], id);
    }
  }

  lemma GetOnTop(m: Msg, rest: seq<Msg>, diff: nat, shown: int)
    requires m.started && m.level <= shown
    ensures Step([m] + rest, DoGet(diff, shown))
            == if m.time > diff then [m.(time := m.time - diff)] + rest else Step(rest, DoGet(diff, shown))
  {
    assert ([m] + rest)[1..] == rest;
  }

  /** A message on top of the stack that is visible and has been shown once stays there for
      as long as the updates take less than its time, hides all the others, and is gone for
      good with the update that completes its time. */
  lemma {:induction false} StaysForItsTime(m: Msg, rest: seq<Msg>, ops: seq<Op>)
    requires m.started && !Present(rest, m.id)
    requires forall k :: 0 <= k < |ops| ==> ops[k].DoGet? && m.level <= ops[k].shown
    ensures Present(Run([m] + rest, ops), m.id) <==> (ops == [] || Elapsed(ops) < m.time)
    ensures ops != [] && Elapsed(ops) < m.time
            ==> Run([m] + rest, ops) == [m.(time := m.time - Elapsed(ops))] + rest
    decreases |ops|
  {
    hide Step, SubIds;
    var s := [m] + rest;
    assert s[0].id == m.id;
    if ops != [] {
      var (diff, shown, later) := (ops[0].diff, ops[0].shown, ops[1..]);
      assert ops[0] == DoGet(diff, shown);
      GetOnTop(m, rest, diff, shown);
      if m.time > diff {
        var a := m.(time := m.time - diff);
        assert ([a] + rest)[0].id == m.id;
        StaysForItsTime(a, rest, later);
      } else {
        AbsentStays(rest, ops, m.id);
        assert Run(s, ops) == Run(rest, ops);
      }
    }
  }

  // ------------------------------------------------------ setting a message, then updating

  /** A message that is set while a message of its id is on the stack and has been shown
      inherits the "started" flag, so the first update already takes time from it.  What the
      update shows is the new message with its full time exactly if there was none of its id,
      or that one had not been shown yet, or the update takes no time; and the new message is
      freed without ever being shown exactly if that one had been shown and the update takes
      at least its time. */
  lemma SetThenUpdate(s: seq<Msg>, id: int, level: int, time: int, text: string, diff: nat, shown: int)
    requires UniqueIds(s) && level <= shown
    ensures var k := IndexOf(s, id);
            var started := k < |s| && s[k].started;
            var (left, display) := Walk(WithSet(s, id, level, time, text), diff, shown, false);
            && (display == Some(Msg(id, level, Unsigned(time), true, Clip(text)))
                <==> !started || (diff == 0 && Unsigned(time) > 0))
            && (!Present(left, id) <==> started && Unsigned(time) <= diff)
  {
    var k := IndexOf(s, id);
    var m := Msg(id, level, Unsigned(time), k < |s| && s[k].started, Clip(text));
    var rest := Without(s, k);
    var all := WithSet(s, id, level, time, text);
    assert all[0] == m && all[1..] == rest;
    AbsentAfter(s, id);
    var (left, display) := Walk(all, diff, shown, false);
    if Alive(m, diff) {
      assert left[0].id == id;
    } else {
      var w := Walk(rest, diff, shown, false);
      WalkSubIds(rest, diff, shown, false);
      forall i | 0 <= i < |w.0| ensures w.0[i].id != id { SubIdsIn(w.0, rest, i); }
      DisplayedIsLeft(rest, diff, shown, false);
    }
  }

  /** What a walk displays stays on the stack. */
  lemma {:induction false} DisplayedIsLeft(s: seq<Msg>, diff: nat, shown: int, done: bool)
    ensures var w := Walk(s, diff, shown, done); w.1.Some? ==> w.1.value in w.0
  {
    if s != [] {
      DisplayedIsLeft(s[1..], diff, shown, done);
      DisplayedIsLeft(s[1..], diff, shown, true);
    }
  }

  /** Message 1 is on display; it is set again with 50 ms to go, and an update after 60 ms
      frees it unshown, while on an empty stack the same message is shown. */
  lemma SetThenUpdateWitness()
    ensures Walk(WithSet([Msg(1, 0, 500, true, "")], 1, 0, 50, "new"), 60, 0, false) == ([], None)
    ensures var added := Msg(1, 0, 50, true, "new"); Walk(WithSet([], 1, 0, 50, "new"), 60, 0, false) == ([added], Some(added))
  {
    assert IndexOf([Msg(1, 0, 500, true, "")], 1) == 0;
    assert WithSet([Msg(1, 0, 500, true, "")], 1, 0, 50, "new") == [Msg(1, 0, 50, true, "new")];
    assert WithSet([], 1, 0, 50, "new") == [Msg(1, 0, 50, false, "new")];
  }

  // ------------------------------------------------------ removing, and what is stored

  function Others(s: seq<Msg>, id: int): seq<Msg> {
    if s == [] then [] else (if s[0].id == id then [] else [s[0]]) + Others(s[1..], id)
  }

  lemma {:induction false} OthersAbsent(s: seq<Msg>, id: int)
    requires !Present(s, id)
    ensures Others(s, id) == s
  {
    if s != [] {
      assert s[0].id != id;
      forall k | 0 <= k < |s[1..]| ensures s[1..][k].id != id { assert s[k + 1].id != id; }
      OthersAbsent(s[1..], id);
      assert [s[0]] + s[1..] == s;
    }
  }

  /** Removing an id leaves all the other messages, in their order, and that one only goes. */
  lemma {:induction false} RemoveLeavesOthers(s: seq<Msg>, id: int)
    requires UniqueIds(s)
    ensures WithoutId(s, id) == Others(s, id)
  {
    if s != [] {
      var rest := s[1..];
      forall i, j | 0 <= i < j < |rest| ensures rest[i].id != rest[j].id { assert s[i + 1].id != s[j + 1].id; }
      if s[0].id == id {
        forall k | 0 <= k < |rest| ensures rest[k].id != id { assert s[0].id != s[k + 1].id; }
        OthersAbsent(rest, id);
        assert s[..0] + s[1..] == rest;
      } else {
        RemoveLeavesOthers(rest, id);
        var k := IndexOf(rest, id);
        assert IndexOf(s, id) == k + 1;
        assert Without(s, k + 1) == [s[0]] + Without(rest, k) by {
          if k < |rest| { assert s[..k + 1] == [s[0]] + rest[..k] && s[k + 2..] == rest[k + 1..]; }
        }
      }
    }
  }

  /** A set leaves the others too, below the message, which holds the first 127 characters of
      the text. */
  lemma SetLeavesOthers(s: seq<Msg>, id: int, level: int, time: int, text: string)
    requires UniqueIds(s)
    ensures var r := WithSet(s, id, level, time, text);
            && r != [] && r[1..] == Others(s, id) && r[0].id == id && r[0].level == level
            && (|text| <= 127 ==> r[0].text == text) && (|text| > 127 ==> r[0].text == text[..127])
            && (0 <= time <= 0x7fff_ffff ==> r[0].time == time)
  {
    RemoveLeavesOthers(s, id);
    assert WithSet(s, id, level, time, text)[1..] == Without(s, IndexOf(s, id));
  }

  // ------------------------------------------------------ by the clock

  /** The stack and the clock reading of the last update, 0 before the first. */
  datatype Timed = Timed(stack: seq<Msg>, last: nat)

  /** An update: the clock's reading, and the level up to which messages are visible. */
  datatype Reading = Reading(now: nat, shown: int)

  /** get_osd_msg */
  function Update(st: Timed, r: Reading): (Timed, Option<Msg>) {
    var w := Walk(st.stack, Since(st.last, r.now), r.shown, false);
    (Timed(w.0, r.now), w.1)
  }

  /** What the last of some updates displays, and the state it leaves. */
  function Updates(st: Timed, rs: seq<Reading>): (Timed, Option<Msg>)
    requires rs != []
    decreases |rs|
  {
    var u := Update(st, rs[0]);
    if |rs| == 1 then u else Updates(u.0, rs[1..])
  }

  predicate Forward(last: nat, rs: seq<Reading>)
    decreases |rs|
  {
    rs == [] || (last <= rs[0].now && Forward(rs[0].now, rs[1..]))
  }

  predicate AllVisible(m: Msg, rs: seq<Reading>) {
    forall k :: 0 <= k < |rs| ==> m.level <= rs[k].shown
  }

  lemma {:induction false} AbsentByTheClock(st: Timed, rs: seq<Reading>, id: int)
    requires !Present(st.stack, id) && rs != []
    ensures !Present(Updates(st, rs).0.stack, id)
    ensures Updates(st, rs).1.Some? ==> Updates(st, rs).1.value.id != id
    decreases |rs|
  {
    var (diff, shown) := (Since(st.last, rs[0].now), rs[0].shown);
    var w := Walk(st.stack, diff, shown, false);
    WalkSubIds(st.stack, diff, shown, false);
    forall i | 0 <= i < |w.0| ensures w.0[i].id != id { SubIdsIn(w.0, st.stack, i); }
    DisplayedIsLeft(st.stack, diff, shown, false);
    if |rs| > 1 { AbsentByTheClock(Update(st, rs[0]).0, rs[1..], id); }
  }

  lemma UpdateOnTop(m: Msg, rest: seq<Msg>, last: nat, r: Reading)
    requires m.level <= r.shown
    ensures var d := Since(last, r.now);
            Update(Timed([m] + rest, last), r)
            == if !m.started then (Timed([m.(started := true)] + rest, r.now), Some(m.(started := true)))
               else if m.time > d then (Timed([m.(time := m.time - d)] + rest, r.now), Some(m.(time := m.time - d)))
               else Update(Timed(rest, last), r)
  {
    assert ([m] + rest)[0] == m && ([m] + rest)[1..] == rest;
  }

  /** Once on display, by a clock that does not go back, a message that stays on top and visible
      is displayed exactly while the clock has moved by less than its time. */
  lemma {:induction false} StaysByTheClock(m: Msg, rest: seq<Msg>, last: nat, rs: seq<Reading>)
    requires m.started && !Present(rest, m.id) && last > 0 && rs != [] && Forward(last, rs) && AllVisible(m, rs)
    ensures var (after, display) := Updates(Timed([m] + rest, last), rs);
            && (rs[|rs| - 1].now - last < m.time
                ==> display == Some(m.(time := m.time - (rs[|rs| - 1].now - last))))
            && (rs[|rs| - 1].now - last >= m.time
                ==> !Present(after.stack, m.id) && (display.Some? ==> display.value.id != m.id))
    decreases |rs|
  {
    hide Walk, Present;
    var d := rs[0].now - last;
    UpdateOnTop(m, rest, last, rs[0]);
    ForwardLast(last, rs);
    if m.time > d {
      if |rs| > 1 { StaysByTheClock(m.(time := m.time - d), rest, rs[0].now, rs[1..]); }
    } else {
      AbsentByTheClock(Timed(rest, last), rs, m.id);
    }
  }

  lemma {:induction false} ForwardLast(last: nat, rs: seq<Reading>)
    requires rs != [] && Forward(last, rs)
    ensures last <= rs[0].now <= rs[|rs| - 1].now
    decreases |rs|
  {
    if |rs| > 1 { ForwardLast(rs[0].now, rs[1..]); }
  }

  /** A message set on top is displayed by the first update, whatever the clock says, and from
      then on exactly while the last reading less that first one is below its time.  (A reading
      of 0 stands for "no update yet".) */
  lemma ShownByTheClock(m: Msg, rest: seq<Msg>, last: nat, first: Reading, rs: seq<Reading>)
    requires !m.started && !Present(rest, m.id) && first.now > 0 && Forward(first.now, rs) && AllVisible(m, [first] + rs)
    ensures var (after, display) := Updates(Timed([m] + rest, last), [first] + rs);
            var passed := if rs == [] then 0 else rs[|rs| - 1].now - first.now;
            (display.Some? && display.value.id == m.id) <==> (rs == [] || passed < m.time)
  {
    var all := [first] + rs;
    assert all[0] == first && all[1..] == rs;
    UpdateOnTop(m, rest, last, first);
    forall k | 0 <= k < |rs| ensures m.level <= rs[k].shown { assert all[k + 1] == rs[k]; }
    if rs != [] { StaysByTheClock(m.(started := true), rest, first.now, rs); }
  }

  /** A reading that goes back takes nothing from any message, nor does the first. */
  lemma GoingBackTakesNothing(m: Msg, rest: seq<Msg>, last: nat, r: Reading)
    requires m.started && m.time > 0 && m.level <= r.shown && (r.now < last || last == 0)
    ensures Update(Timed([m] + rest, last), r) == (Timed([m] + rest, r.now), Some(m))
  {
    UpdateOnTop(m, rest, last, r);
  }

  /** 500 ms, first shown at 1000: still there at 1499, and gone at 1500. */
  lemma ClockWitness()
    ensures var st := Timed([Msg(1, 0, 500, false, "")], 0);
            && Updates(st, [Reading(1000, 0), Reading(1499, 0)]).1 == Some(Msg(1, 0, 1, true, ""))
            && Updates(st, [Reading(1000, 0), Reading(1500, 0)]) == (Timed([], 1500), None)
  {
    assert [Reading(1000, 0), Reading(1499, 0)][1..] == [Reading(1499, 0)];
    assert [Reading(1000, 0), Reading(1500, 0)][1..] == [Reading(1500, 0)];
    var m := Msg(1, 0, 500, false, "");
    assert [m] + [] == [m];
    UpdateOnTop(m, [], 0, Reading(1000, 0));
    var n := m.(started := true);
    assert [n] + [] == [n];
    UpdateOnTop(n, [], 1000, Reading(1499, 0));
    UpdateOnTop(n, [], 1000, Reading(1500, 0));
  }

  // ------------------------------------------------------ the linked stack

  type Addr = nat

  datatype Cell = Cell(prev: Option<Addr>, msg: Msg)

  function Link(chain: seq<Addr>, i: nat): Option<Addr> {
    if i < |chain| then Some(chain[i]) else None
  }

  /** `chain` lists the nodes from the top: every allocated node is on it, once. */
  ghost predicate Linked(chain: seq<Addr>, cells: map<Addr, Cell>, stack: Option<Addr>) {
    && stack == Link(chain, 0)
    && Distinct(chain)
    && Placed(chain, cells)
    && (forall i: nat {:trigger NodeAt(chain, cells, i)} :: i < |chain| ==> NodeAt(chain, cells, i))
    && NoLeak(chain, cells)
  }

  ghost predicate Distinct(chain: seq<Addr>) {
    forall i, j :: 0 <= i < j < |chain| ==> chain[i] != chain[j]
  }

  ghost predicate Placed(chain: seq<Addr>, cells: map<Addr, Cell>) {
    forall i :: 0 <= i < |chain| ==> chain[i] in cells
  }

  ghost predicate NodeAt(chain: seq<Addr>, cells: map<Addr, Cell>, i: nat) {
    i < |chain| && chain[i] in cells && cells[chain[i]].prev == Link(chain, i + 1)
  }

  ghost predicate NoLeak(chain: seq<Addr>, cells: map<Addr, Cell>) {
    forall a :: a in cells ==> a in chain
  }

  ghost function Msgs(chain: seq<Addr>, cells: map<Addr, Cell>): (s: seq<Msg>)
    requires Placed(chain, cells)
    ensures |s| == |chain|
  {
    seq(|chain|, i requires 0 <= i < |chain| => cells[chain[i]].msg)
  }

  lemma MsgsAt(chain: seq<Addr>, cells: map<Addr, Cell>, stack: Option<Addr>)
    requires Linked(chain, cells, stack)
    ensures stack == Link(chain, 0) && Placed(chain, cells)
    ensures |Msgs(chain, cells)| == |chain|
    ensures forall i :: 0 <= i < |chain| ==> Msgs(chain, cells)[i] == cells[chain[i]].msg
    ensures forall i: nat {:trigger NodeAt(chain, cells, i)} :: i < |chain| ==> NodeAt(chain, cells, i)
  {}

  lemma Rewritten(chain: seq<Addr>, cells: map<Addr, Cell>, stack: Option<Addr>, i: nat, m: Msg)
    requires Linked(chain, cells, stack) && i < |chain|
    ensures var after := cells[chain[i] := cells[chain[i]].(msg := m)];
            Linked(chain, after, stack) && Msgs(chain, after) == Msgs(chain, cells)[i := m]
  {
    var after := cells[chain[i] := cells[chain[i]].(msg := m)];
    forall k: nat | k < |chain| ensures NodeAt(chain, after, k) { assert NodeAt(chain, cells, k); }
  }

  lemma Grown(chain: seq<Addr>, cells: map<Addr, Cell>, stack: Option<Addr>, a: Addr, m: Msg)
    requires Linked(chain, cells, stack) && a !in cells
    ensures var after := cells[a := Cell(stack, m)];
            Linked([a] + chain, after, Some(a)) && Msgs([a] + chain, after) == [m] + Msgs(chain, cells)
  {
    var after, longer := cells[a := Cell(stack, m)], [a] + chain;
    forall i: nat | i < |longer| ensures NodeAt(longer, after, i) {
      if i > 0 { assert longer[i] == chain[i - 1] && NodeAt(chain, cells, i - 1); }
    }
    forall b | b in after ensures b in longer {
      if b != a { assert b in chain; }
    }
  }

  function Bypassed(chain: seq<Addr>, cells: map<Addr, Cell>, i: nat): map<Addr, Cell>
    requires i < |chain| && chain[i] in cells && (i > 0 ==> chain[i - 1] in cells)
  {
    if i > 0 then cells[chain[i - 1] := cells[chain[i - 1]].(prev := cells[chain[i]].prev)] else cells
  }

  lemma Unlinked(chain: seq<Addr>, cells: map<Addr, Cell>, stack: Option<Addr>, i: nat)
    requires Linked(chain, cells, stack) && i < |chain|
    ensures var shorter := chain[..i] + chain[i + 1..];
            var after := Bypassed(chain, cells, i) - {chain[i]};
            && Linked(shorter, after, if i > 0 then stack else cells[chain[i]].prev)
            && Msgs(shorter, after) == Without(Msgs(chain, cells), i)
  {
    hide Distinct, NodeAt, NoLeak, Bypassed, Link;
    var shorter := chain[..i] + chain[i + 1..];
    var after := Bypassed(chain, cells, i) - {chain[i]};
    forall j: nat | j < |shorter|
      ensures NodeAt(shorter, after, j)
      ensures shorter[j] in after && after[shorter[j]].msg == cells[chain[if j < i then j else j + 1]].msg
    {
      NodeAfterUnlink(chain, cells, i, j);
    }
    DistinctAfterUnlink(chain, i);
    NoLeakAfterUnlink(chain, cells, i);
    FirstLink(chain, cells, i);
    assert Placed(shorter, after);
    var left, fewer := Without(Msgs(chain, cells), i), Msgs(shorter, after);
    forall j: nat | j < |shorter| ensures fewer[j] == left[j] {
      assert left[j] == Msgs(chain, cells)[if j < i then j else j + 1];
    }
    assert fewer == left;
  }

  lemma DistinctAfterUnlink(chain: seq<Addr>, i: nat)
    requires Distinct(chain) && i < |chain|
    ensures Distinct(chain[..i] + chain[i + 1..])
  {
    var shorter := chain[..i] + chain[i + 1..];
    assert forall j: nat :: j < |shorter| ==> shorter[j] == chain[if j < i then j else j + 1];
  }

  lemma FirstLink(chain: seq<Addr>, cells: map<Addr, Cell>, i: nat)
    requires i < |chain| && NodeAt(chain, cells, i)
    ensures Link(chain[..i] + chain[i + 1..], 0) == if i > 0 then Link(chain, 0) else cells[chain[0]].prev
  {}

  lemma NodeAfterUnlink(chain: seq<Addr>, cells: map<Addr, Cell>, i: nat, j: nat)
    requires Distinct(chain) && Placed(chain, cells) && i < |chain| && j + 1 < |chain|
    requires forall k: nat {:trigger NodeAt(chain, cells, k)} :: k < |chain| ==> NodeAt(chain, cells, k)
    ensures var shorter := chain[..i] + chain[i + 1..];
            var after := Bypassed(chain, cells, i) - {chain[i]};
            && NodeAt(shorter, after, j) && shorter[j] in after
            && after[shorter[j]].msg == cells[chain[if j < i then j else j + 1]].msg
  {
    var k := if j < i then j else j + 1;
    var shorter := chain[..i] + chain[i + 1..];
    assert shorter[j] == chain[k] && NodeAt(chain, cells, k) && NodeAt(chain, cells, i);
    assert chain[k] != chain[i];
    if i > 0 && k != i - 1 { assert chain[k] != chain[i - 1]; }
  }

  lemma NoLeakAfterUnlink(chain: seq<Addr>, cells: map<Addr, Cell>, i: nat)
    requires Placed(chain, cells) && NoLeak(chain, cells) && i < |chain|
    ensures NoLeak(chain[..i] + chain[i + 1..], Bypassed(chain, cells, i) - {chain[i]})
  {
    var shorter := chain[..i] + chain[i + 1..];
    var after := Bypassed(chain, cells, i) - {chain[i]};
    forall b | b in after ensures b in shorter {
      assert b in cells;
      var k :| 0 <= k < |chain| && chain[k] == b;
      assert shorter[if k < i then k else k - 1] == b;
    }
  }

  function Since(lastUpdate: nat, now: nat): nat {
    if lastUpdate != 0 && now >= lastUpdate then now - lastUpdate else 0
  }

  class OsdStack {
    var cells: map<Addr, Cell>
    var stack: Option<Addr>
    var nextAddr: Addr
    var lastUpdate: nat
    ghost var chain: seq<Addr>

    ghost predicate Valid()
      reads this
    {
      && Linked(chain, cells, stack)
      && (forall a :: a in cells ==> a < nextAddr)
    }

    ghost function Abs(): seq<Msg>
      reads this
      requires Valid()
    {
      Msgs(chain, cells)
    }

    constructor ()
      ensures Valid() && Abs() == [] && lastUpdate == 0
    {
      cells, stack, nextAddr, lastUpdate, chain := map[], None, 0, 0, [];
    }

    /** The search both set_osd_msg and rm_osd_msg start with. */
    method Search(id: int) returns (last: Option<Addr>, msg: Option<Addr>)
      requires Valid()
      ensures var k := IndexOf(Abs(), id);
              msg == Link(chain, k) && last == if k > 0 then Some(chain[k - 1]) else None
    {
      last, msg := None, stack;
      ghost var i := 0;
      while msg.Some? && cells[msg.value].msg.id != id
        invariant i <= |chain| && msg == Link(chain, i)
        invariant last == if i > 0 then Some(chain[i - 1]) else None
        invariant forall k :: 0 <= k < i ==> Abs()[k].id != id
        decreases |chain| - i
      {
        assert NodeAt(chain, cells, i);
        last, msg := msg, cells[msg.value].prev;
        i := i + 1;
      }
      IndexOfIs(Abs(), id, i);
    }

    method SetMsg(id: int, level: int, time: int, text: string)
      requires Valid()
      modifies this
      ensures Valid() && lastUpdate == old(lastUpdate)
      ensures Abs() == WithSet(old(Abs()), id, level, time, text)
    {
      hide Linked, Msgs;
      ghost var s, k := Abs(), IndexOf(Abs(), id);
      assert |s| == |chain| by { MsgsAt(chain, cells, stack); }
      var last, msg := Search(id);
      if msg.None? {
        Allocate();
      } else if last.Some? {
        PullUp(last.value, msg.value, k);
      } else {
        assert [s[0]] + Without(s, 0) == s;
      }
      ghost var lifted := Abs();
      MsgsAt(chain, cells, stack);
      assert lifted == [lifted[0]] + Without(s, k);
      var top := stack.value;
      var m := Msg(id, level, Unsigned(time), cells[top].msg.started, Clip(text));
      Rewrite(top, m, 0);
      assert lifted[0 := m] == [m] + Without(s, k);
    }

    /** A blank node on top. */
    method Allocate()
      requires Valid()
      modifies this
      ensures Valid() && lastUpdate == old(lastUpdate)
      ensures Abs() == [Msg(0, 0, 0, false, "")] + old(Abs())
    {
      var blank := Msg(0, 0, 0, false, "");
      assert nextAddr !in cells;
      Grown(chain, cells, stack, nextAddr, blank);
      chain := [nextAddr] + chain;
      cells, stack, nextAddr := cells[nextAddr := Cell(stack, blank)], Some(nextAddr), nextAddr + 1;
    }

    method PullUp(last: Addr, msg: Addr, ghost k: nat)
      requires Valid() && 0 < k < |chain| && last == chain[k - 1] && msg == chain[k]
      modifies this
      ensures Valid() && lastUpdate == old(lastUpdate)
      ensures Abs() == [old(Abs())[k]] + Without(old(Abs()), k)
    {
      hide Distinct, NodeAt, NoLeak;
      PulledUp(chain, cells, stack, k);
      assert forall a :: a in cells ==> a < nextAddr;
      cells := cells[last := cells[last].(prev := cells[msg].prev)];
      cells := cells[msg := cells[msg].(prev := stack)];
      stack, chain := Some(msg), [msg] + (chain[..k] + chain[k + 1..]);
    }

    method Rewrite(a: Addr, m: Msg, ghost i: nat)
      requires Valid() && i < |chain| && a == chain[i]
      modifies this`cells
      ensures Valid() && Abs() == old(Abs())[i := m]
      ensures a in cells && cells[a].msg == m
    {
      Rewritten(chain, cells, stack, i, m);
      cells := cells[a := cells[a].(msg := m)];
    }

    method RemoveMsg(id: int)
      requires Valid()
      modifies this
      ensures Valid() && lastUpdate == old(lastUpdate)
      ensures Abs() == WithoutId(old(Abs()), id)
    {
      ghost var k := IndexOf(Abs(), id);
      var last, msg := Search(id);
      if msg.None? { return; }
      Unlinked(chain, cells, stack, k);
      Detach(last, msg.value, k);
    }

    /** Takes a node off the list and frees it. */
    method Detach(last: Option<Addr>, msg: Addr, ghost k: nat)
      requires Valid() && k < |chain| && msg == chain[k]
      requires last == if k > 0 then Some(chain[k - 1]) else None
      modifies this
      ensures Valid() && lastUpdate == old(lastUpdate)
      ensures chain == old(chain[..k] + chain[k + 1..])
      ensures Abs() == Without(old(Abs()), k)
    {
      Unlinked(chain, cells, stack, k);
      var prev := cells[msg].prev;
      assert NodeAt(chain, cells, k);
      match last {
        case Some(l) => cells := cells[l := cells[l].(prev := prev)];
        case None => stack := prev;
      }
      cells := cells - {msg};
      chain := chain[..k] + chain[k + 1..];
    }

    method ClearMsgs()
      requires Valid()
      modifies this
      ensures Valid() && lastUpdate == old(lastUpdate)
      ensures Abs() == [] && cells == map[]
    {
      var msg := stack;
      while msg.Some?
        invariant Linked(chain, cells, msg) && lastUpdate == old(lastUpdate)
        decreases |chain|
      {
        var prev := cells[msg.value].prev;
        Unlinked(chain, cells, msg, 0);
        cells, chain := cells - {msg.value}, chain[..0] + chain[1..];
        msg := prev;
      }
      stack := None;
    }

    /** get_osd_msg: ages and frees messages, and returns the node to display. */
    method GetMsg(now: nat, osdLevel: int) returns (shown: Option<Addr>)
      requires Valid()
      modifies this
      ensures Valid()
      ensures var (st, display) := Update(old(Timed(Abs(), lastUpdate)), Reading(now, osdLevel));
              && Timed(Abs(), lastUpdate) == st
              && (shown.None? <==> display.None?)
              && (shown.Some? ==> shown.value in cells && Some(cells[shown.value].msg) == display)
    {
      hide Linked, Msgs, Walk, Ahead;
      if lastUpdate == 0 { lastUpdate := now; }
      var diff := if now >= lastUpdate then now - lastUpdate else 0;
      lastUpdate := now;
      var msg, last, done := stack, None, false;
      assert stack == Link(chain, 0) by { MsgsAt(chain, cells, stack); }
      ghost var i, w := 0, Walk(Abs(), diff, osdLevel, false);
      AheadAtStart(Abs(), diff, osdLevel);
      while msg.Some?
        invariant Valid() && lastUpdate == now
        invariant i <= |chain| && msg == Link(chain, i)
        invariant last == if i > 0 then Some(chain[i - 1]) else None
        invariant Ahead(Abs(), i, diff, osdLevel, done) == w
        decreases |chain| - i
      {
        var a := msg.value;
        MsgsAt(chain, cells, stack);
        assert NodeAt(chain, cells, i);
        var prev, m := cells[a].prev, cells[a].msg;
        ghost var s := Abs();
        AheadNext(s, i, diff, osdLevel, done);
        if m.level > osdLevel && done {
          last, msg, i := msg, prev, i + 1;
        } else if !m.started || m.time > diff {
          if m.started {
            Rewrite(a, m.(time := m.time - diff), i);
          } else {
            Rewrite(a, m.(started := true), i);
          }
          if m.level <= osdLevel { return msg; }
          done := true;
          last, msg, i := msg, prev, i + 1;
        } else {
          Detach(last, a, i);
          msg := prev;
        }
      }
      MsgsAt(chain, cells, stack);
      AheadAtEnd(Abs(), diff, osdLevel, done);
      shown := None;
    }
  }

  /** The walk from node `i` on, behind what it has left already. */
  ghost function Ahead(s: seq<Msg>, i: nat, diff: nat, shown: int, done: bool): (seq<Msg>, Option<Msg>)
    requires i <= |s|
  {
    var w := Walk(s[i..], diff, shown, done);
    (s[..i] + w.0, w.1)
  }

  lemma AheadAtStart(s: seq<Msg>, diff: nat, shown: int)
    ensures Ahead(s, 0, diff, shown, false) == Walk(s, diff, shown, false)
  {
    assert s[0..] == s && s[..0] == [];
    var w := Walk(s, diff, shown, false).0;
    assert [] + w == w;
  }

  lemma AheadAtEnd(s: seq<Msg>, diff: nat, shown: int, done: bool)
    ensures Ahead(s, |s|, diff, shown, done) == (s, None)
  {
    assert s[..|s|] == s && s[|s|..] == [] && s + [] == s;
  }

  lemma AheadNext(s: seq<Msg>, i: nat, diff: nat, shown: int, done: bool)
    requires i < |s|
    ensures Ahead(s, i, diff, shown, done)
            == if s[i].level > shown && done then Ahead(s, i + 1, diff, shown, done)
               else if !Alive(s[i], diff) then Ahead(Without(s, i), i, diff, shown, done)
               else if s[i].level <= shown then (s[i := Aged(s[i], diff)], Some(Aged(s[i], diff)))
               else Ahead(s[i := Aged(s[i], diff)], i + 1, diff, shown, true)
  {
    assert s[i..][1..] == s[i + 1..];
    var aged := s[i := Aged(s[i], diff)];
    if s[i].level > shown && done {
      var w := Walk(s[i + 1..], diff, shown, true).0;
      assert s[..i] + ([s[i]] + w) == s[..i + 1] + w;
    } else if Alive(s[i], diff) {
      assert aged[i + 1..] == s[i + 1..];
      if s[i].level <= shown {
        assert s[..i] + ([aged[i]] + s[i + 1..]) == aged;
      } else {
        var w := Walk(s[i + 1..], diff, shown, true).0;
        assert s[..i] + ([aged[i]] + w) == aged[..i + 1] + w;
      }
    } else {
      var less := Without(s, i);
      assert less[..i] == s[..i] && less[i..] == s[i + 1..];
    }
  }

  /** A node that is unlinked and put on top without being freed. */
  lemma PulledUp(chain: seq<Addr>, cells: map<Addr, Cell>, stack: Option<Addr>, i: nat)
    requires Linked(chain, cells, stack) && 0 < i < |chain|
    ensures var bypassed := Bypassed(chain, cells, i);
            var after := bypassed[chain[i] := bypassed[chain[i]].(prev := stack)];
            var moved := [chain[i]] + (chain[..i] + chain[i + 1..]);
            && Linked(moved, after, Some(chain[i]))
            && Msgs(moved, after) == [cells[chain[i]].msg] + Without(Msgs(chain, cells), i)
  {
    var bypassed := Bypassed(chain, cells, i);
    var (a, rest) := (chain[i], chain[..i] + chain[i + 1..]);
    Unlinked(chain, cells, stack, i);
    Grown(rest, bypassed - {a}, stack, a, cells[a].msg);
    assert (bypassed - {a})[a := Cell(stack, cells[a].msg)] == bypassed[a := bypassed[a].(prev := stack)];
  }
}
