/** The SET flag over whole runs, which decides whether a push saves an OLD option. */
module ConfigFlags {
  import opened Wrappers
  import opened ConfigSpec
  import opened ConfigRestore

  // ------------------------------------------------------ what a set marks

  /** The options whose sets are carried out when `arg` is set: the one found, unless the mode
      refuses or defers it or its parser reports an error, and those of the profiles it names. */
  function SetBy(parse: Parser, s: State, arg: string, param: Option<string>): set<nat>
    requires Valid(s)
    decreases Fuel(s), 2, 1
  {
    var found := Find(s.opts, arg);
    if found.None? || Forbidden(s, s.opts[found.value].def) || Deferred(s, s.opts[found.value]) then {}
    else SetByStore(parse, s, found.value, arg, param)
  }

  function SetByStore(parse: Parser, s: State, i: nat, arg: string, param: Option<string>): set<nat>
    requires Valid(s) && i < |s.opts|
    decreases Fuel(s), 2, 0
  {
    var (o, k) := SlotOf(s, i);
    var p := parse(s.opts[i].def, arg, param, Some(s.opts[o].chain[k].data));
    if p.code < 0 then {}
    else {i} + if s.opts[i].def.isProfile then SetByProfiles(parse, WriteSlot(s, i, p.out), NamesIn(p.out)) else {}
  }

  function SetByProfiles(parse: Parser, s: State, names: seq<string>): set<nat>
    requires Valid(s)
    decreases Fuel(s), 1, |names|
  {
    if names == [] then {}
    else
      var p := FindProfile(s.profiles, names[0]);
      if p.None? then SetByProfiles(parse, s, names[1..])
      else SetByProfile(parse, s, p.value.opts) + SetByProfiles(parse, SetProfile(parse, s, p.value.opts), names[1..])
  }

  function SetByProfile(parse: Parser, s: State, opts: seq<(string, Option<string>)>): set<nat>
    requires Valid(s)
    decreases Fuel(s), 0, 0
  {
    if s.depth > MAX_PROFILE_DEPTH then {}
    else
      DepthOnly(s, s.depth + 1);
      SetByAll(parse, s.(depth := s.depth + 1), opts)
  }

  function SetByAll(parse: Parser, s: State, opts: seq<(string, Option<string>)>): set<nat>
    requires Valid(s)
    decreases Fuel(s), 3, |opts|
  {
    if opts == [] then {}
    else SetBy(parse, s, opts[0].0, opts[0].1)
         + SetByAll(parse, ParseOption(parse, s, opts[0].0, opts[0].1, true).0, opts[1..])
  }

  /** Between s and t the options in `marked` have been marked as set, and no other flag has changed. */
  ghost predicate Marks(s: State, t: State, marked: set<nat>) {
    |t.opts| == |s.opts| && forall i :: 0 <= i < |s.opts| ==> (t.opts[i].isSet <==> s.opts[i].isSet || i in marked)
  }

  lemma MarksTrans(s: State, t: State, u: State, a: set<nat>, b: set<nat>)
    requires Marks(s, t, a) && Marks(t, u, b)
    ensures Marks(s, u, a + b)
  {
  }

  lemma {:induction false} SetMarks(parse: Parser, s: State, arg: string, param: Option<string>)
    requires Valid(s)
    ensures Marks(s, ParseOption(parse, s, arg, param, true).0, SetBy(parse, s, arg, param))
    decreases Fuel(s), 2, 1
  {
    var found := Find(s.opts, arg);
    if found.Some? && !Forbidden(s, s.opts[found.value].def) && !Deferred(s, s.opts[found.value]) {
      StoreMarks(parse, s, found.value, arg, param);
    }
  }

  lemma {:induction false} StoreMarks(parse: Parser, s: State, i: nat, arg: string, param: Option<string>)
    requires Valid(s) && i < |s.opts|
    ensures Marks(s, Store(parse, s, i, arg, param).0, SetByStore(parse, s, i, arg, param))
    decreases Fuel(s), 2, 0
  {
    hide Valid, Frame, ApplyProfiles, SetByProfiles;
    EntryIsOk(s, i);
    var (o, k) := SlotOf(s, i);
    var p := parse(s.opts[i].def, arg, param, Some(s.opts[o].chain[k].data));
    var s1 := WriteSlot(s, i, p.out);
    WriteMarksNothing(s, i, p.out);
    if p.code >= 0 {
      FrameSizes(s, s1);
      EntryIsOk(s1, i);
      var e := s.opts[i];
      var s2 := if e.def.isProfile then ApplyProfiles(parse, s1, NamesIn(p.out)) else WriteVar(s1, e.def, p.out);
      if e.def.isProfile { ProfilesMark(parse, s1, NamesIn(p.out)); }
      FrameSizes(s1, s2);
      var rest := if e.def.isProfile then SetByProfiles(parse, s1, NamesIn(p.out)) else {};
      assert Marks(s1, s2, rest);
      MarksTrans(s, s1, s2, {}, rest);
      MarksTrans(s, s2, MarkSet(s2, i), {} + rest, {i});
      assert {i} + rest == ({} + rest) + {i};
    }
  }

  lemma FrameSizes(s: State, t: State)
    requires Frame(s, t)
    ensures |t.opts| == |s.opts| && t.depth == s.depth && forall j :: 0 <= j < |s.opts| ==> t.opts[j].def == s.opts[j].def
  {
  }

  lemma WriteMarksNothing(s: State, i: nat, v: Value)
    requires Valid(s) && i < |s.opts|
    ensures Marks(s, WriteSlot(s, i, v), {})
  {
  }

  lemma {:induction false} ProfilesMark(parse: Parser, s: State, names: seq<string>)
    requires Valid(s)
    ensures Marks(s, ApplyProfiles(parse, s, names), SetByProfiles(parse, s, names))
    decreases Fuel(s), 1, |names|
  {
    if names != [] {
      var p := FindProfile(s.profiles, names[0]);
      if p.None? {
        ProfilesMark(parse, s, names[1..]);
      } else {
        var s1 := SetProfile(parse, s, p.value.opts);
        ProfileMarks(parse, s, p.value.opts);
        ProfilesMark(parse, s1, names[1..]);
        MarksTrans(s, s1, ApplyProfiles(parse, s1, names[1..]), SetByProfile(parse, s, p.value.opts), SetByProfiles(parse, s1, names[1..]));
      }
    }
  }

  lemma {:induction false} ProfileMarks(parse: Parser, s: State, opts: seq<(string, Option<string>)>)
    requires Valid(s)
    ensures Marks(s, SetProfile(parse, s, opts), SetByProfile(parse, s, opts))
    decreases Fuel(s), 0, 0
  {
    hide Valid, Frame, SetAll, SetByAll, Marks;
    if s.depth <= MAX_PROFILE_DEPTH {
      DepthOnly(s, s.depth + 1);
      var s0 := s.(depth := s.depth + 1);
      AllMark(parse, s0, opts);
      MarksDepth(s, s0, SetAll(parse, s0, opts), SetByAll(parse, s0, opts));
    } else {
      NothingMarked(s);
    }
  }

  lemma MarksDepth(s: State, s0: State, t: State, marked: set<nat>)
    requires s0.opts == s.opts && Marks(s0, t, marked)
    ensures Marks(s, t.(depth := s.depth), marked)
  {
  }

  lemma NothingMarked(s: State)
    ensures Marks(s, s, {})
  {
  }

  lemma {:induction false} AllMark(parse: Parser, s: State, opts: seq<(string, Option<string>)>)
    requires Valid(s)
    ensures Marks(s, SetAll(parse, s, opts), SetByAll(parse, s, opts))
    decreases Fuel(s), 3, |opts|
  {
    if opts != [] {
      var s1 := ParseOption(parse, s, opts[0].0, opts[0].1, true).0;
      SetMarks(parse, s, opts[0].0, opts[0].1);
      AllMark(parse, s1, opts[1..]);
      MarksTrans(s, s1, SetAll(parse, s1, opts[1..]), SetBy(parse, s, opts[0].0, opts[0].1), SetByAll(parse, s1, opts[1..]));
    }
  }

  // ------------------------------------------------------ the flag over runs

  /** The options set by one operation. */
  function OpSets(parse: Parser, s: State, op: Op): set<nat>
    requires Valid(s)
  {
    match op
    case Set(arg, param) => SetBy(parse, s, arg, param)
    case UseProfile(name) =>
      var p := FindProfile(s.profiles, name);
      if p.Some? then SetByProfile(parse, s, p.value.opts) else {}
    case _ => {}
  }

  predicate NoPush(ops: seq<Op>) {
    forall k :: 0 <= k < |ops| ==> !ops[k].DoPush?
  }

  /** Some operation sets option i, and no push follows it. */
  ghost predicate SetSincePush(parse: Parser, s: State, ops: seq<Op>, d: nat, i: nat)
    requires Valid(s) && Rooted(s) && s.lvl > d && Balanced(ops, d)
    decreases |ops|
  {
    ops != [] &&
    ((i in OpSets(parse, s, ops[0]) && NoPush(ops[1..]))
     || (StepKeepsValid(parse, s, ops[0]); SetSincePush(parse, Step(parse, s, ops[0]), ops[1..], NextDepth(ops[0], d), i)))
  }

  /** Right after a push no option that owns its variable and can be saved is marked as set:
      those it saved are reset, and it passes over an OLD one only because it was not set. */
  lemma PushClears(s: State, i: nat)
    requires Valid(s) && i < |s.opts| && s.opts[i].Own? && s.opts[i].def.Saved()
    ensures |Push(s).opts| == |s.opts| && !Push(s).opts[i].isSet
    ensures |Push(s).opts[i].chain| == |s.opts[i].chain| + if s.opts[i].def.oldStyle && !s.opts[i].isSet then 0 else 1
  {
    EntryIsOk(s, i);
  }

  lemma StepFlag(parse: Parser, s: State, op: Op, i: nat)
    requires Valid(s) && Rooted(s) && (op.DoPop? ==> s.lvl >= 2)
    requires i < |s.opts| && s.opts[i].Own? && s.opts[i].def.Saved()
    ensures var t := Step(parse, s, op);
            && |t.opts| == |s.opts| && t.opts[i].Own? && t.opts[i].def == s.opts[i].def
            && (t.opts[i].isSet <==> !op.DoPush? && (s.opts[i].isSet || i in OpSets(parse, s, op)))
  {
    match op
    case Set(arg, param) => SetMarks(parse, s, arg, param);
    case UseProfile(name) =>
      var p := FindProfile(s.profiles, name);
      if p.Some? { ProfileMarks(parse, s, p.value.opts); }
    case Assign(_, _) =>
    case DoPush => PushClears(s, i);
    case DoPop =>
  }

  /** After a balanced run, pushes and pops nested to any depth, an option is marked as set
      exactly if a set of it was carried out since the last push, or it was marked before and
      there was no push.  A pop never brings a mark back. */
  lemma {:induction false} FlagAfterRun(parse: Parser, s: State, ops: seq<Op>, d: nat, i: nat)
    requires Valid(s) && Rooted(s) && s.lvl > d && Balanced(ops, d)
    requires i < |s.opts| && s.opts[i].Own? && s.opts[i].def.Saved()
    ensures var t := Run(parse, s, ops, d);
            && |t.opts| == |s.opts| && t.opts[i].Own? && t.opts[i].def == s.opts[i].def
            && (t.opts[i].isSet <==> SetSincePush(parse, s, ops, d, i) || (s.opts[i].isSet && NoPush(ops)))
    decreases |ops|
  {
    hide Valid, Rooted, Step;
    if ops != [] {
      StepKeepsValid(parse, s, ops[0]);
      StepFlag(parse, s, ops[0], i);
      FlagAfterRun(parse, Step(parse, s, ops[0]), ops[1..], NextDepth(ops[0], d), i);
      NoPushHead(ops);
    }
  }

  lemma NoPushHead(ops: seq<Op>)
    requires ops != []
    ensures NoPush(ops) <==> !ops[0].DoPush? && NoPush(ops[1..])
  {
    if !ops[0].DoPush? && NoPush(ops[1..]) {
      forall k | 0 <= k < |ops| ensures !ops[k].DoPush? { if k > 0 { assert ops[k] == ops[1..][k - 1]; } }
    }
  }

  // ------------------------------------------------------ brackets around OLD options

  /** Is option i counted as set after these operations? */
  ghost predicate SetOnEntry(parse: Parser, s: State, ops: seq<Op>, i: nat)
    requires Valid(s) && Rooted(s) && Balanced(ops, 0) && i < |s.opts|
  {
    SetSincePush(parse, s, ops, 0, i) || (s.opts[i].isSet && NoPush(ops))
  }

  /** After any operations, a bracket restores an OLD option, whatever its body, exactly if the
      option has been set since the last push; otherwise it keeps the value of the end of the
      body and its number of slots.  The slot on top may not be an alias's, as for all options. */
  lemma OldRestoredIff(parse: Parser, s: State, ops: seq<Op>, i: nat)
    requires Valid(s) && Rooted(s) && Balanced(ops, 0)
    requires i < |s.opts| && s.opts[i].Own? && s.opts[i].def.Saved() && s.opts[i].def.oldStyle && s.opts[i].def.variable.Some?
    ensures var t := Run(parse, s, ops, 0);
            && i < |t.opts| && t.opts[i].Own? && t.opts[i].chain != [] && t.opts[i].def.variable == s.opts[i].def.variable
            && (!TopShared(t, i) ==> ((forall body | Balanced(body, 0) :: Restored(parse, t, i, body)) <==> SetOnEntry(parse, s, ops, i)))
  {
    var t := Run(parse, s, ops, 0);
    FlagAfterRun(parse, s, ops, 0, i);
    EntryIsOk(t, i);
    if !TopShared(t, i) { RestoredByEveryBody(parse, t, i); }
  }

  lemma OldPassedOver(parse: Parser, s: State, ops: seq<Op>, body: seq<Op>, i: nat)
    requires Valid(s) && Rooted(s) && Balanced(ops, 0) && Balanced(body, 0)
    requires i < |s.opts| && s.opts[i].Own? && s.opts[i].def.Saved() && s.opts[i].def.oldStyle && s.opts[i].def.variable.Some?
    requires !SetOnEntry(parse, s, ops, i)
    ensures var v := s.opts[i].def.variable.value;
            var t := Run(parse, s, ops, 0);
            var inside := Run(parse, Push(t), body, 0);
            var r := Bracket(parse, t, body);
            && v in inside.vars && v in r.vars && r.vars[v] == inside.vars[v]
            && i < |t.opts| && i < |r.opts| && t.opts[i].Own? && r.opts[i].Own? && |r.opts[i].chain| == |t.opts[i].chain|
  {
    var t := Run(parse, s, ops, 0);
    FlagAfterRun(parse, s, ops, 0, i);
    PushPopPassesOver(parse, t, body, i);
  }

  /** An OLD option that was set is restored by the first bracket, but not by a second one: the
      first push has reset its mark. */
  lemma OldOptionWitness(parse: Parser, s: State, i: nat)
    requires Valid(s) && Rooted(s)
    requires i < |s.opts| && s.opts[i].Own? && s.opts[i].def.Saved() && s.opts[i].def.oldStyle && s.opts[i].def.variable.Some?
    requires s.opts[i].isSet && s.opts[i].chain != [] && !TopShared(s, i)
    ensures forall body | Balanced(body, 0) :: Restored(parse, s, i, body)
    ensures Balanced([DoPush, DoPop], 0)
    ensures var t := Run(parse, s, [DoPush, DoPop], 0);
            && i < |t.opts| && t.opts[i].def.variable == s.opts[i].def.variable
            && exists body :: Balanced(body, 0) && !Restored(parse, t, i, body)
  {
    assert [DoPush, DoPop][1..] == [DoPop] && [DoPop][1..] == [];
    assert Run(parse, s, [], 0) == s;
    OldRestoredIff(parse, s, [], i);
    OldRestoredIff(parse, s, [DoPush, DoPop], i);
    NothingSet(parse, s, i);
    SameSharing(parse, s, i);
  }

  /** A push and a pop at once leave the sharing of slots as it was. */
  lemma SameSharing(parse: Parser, s: State, i: nat)
    requires Valid(s) && Rooted(s) && Balanced([DoPush, DoPop], 0)
    requires i < |s.opts| && s.opts[i].Own? && s.opts[i].chain != [] && s.opts[i].def.variable.Some?
    ensures var t := Run(parse, s, [DoPush, DoPop], 0);
            i < |t.opts| && t.opts[i].Own? && t.opts[i].chain != [] && TopShared(t, i) == TopShared(s, i)
  {
    hide Valid, Rooted, Shared;
    PushPopAtOnce(parse, s);
    PopAfterPushAtOnce(s, i);
  }

  lemma PushPopAtOnce(parse: Parser, s: State)
    requires Valid(s) && Rooted(s) && Balanced([DoPush, DoPop], 0)
    ensures Run(parse, s, [DoPush, DoPop], 0) == Pop(Push(s))
  {
    hide Valid, Rooted, PushAll, Pop, Run, Balanced;
    LevelPositive(s);
    PairIsBalanced();
    assert [DoPush, DoPop][1..] == [DoPop] && [DoPop][1..] == [];
    StepKeepsValid(parse, s, DoPush);
    RunHead(parse, s, [DoPush, DoPop], 0);
    StepKeepsValid(parse, Push(s), DoPop);
    RunHead(parse, Push(s), [DoPop], 1);
    RunNothing(parse, Pop(Push(s)));
  }

  lemma LevelPositive(s: State)
    requires Valid(s)
    ensures s.lvl >= 1
  {
  }

  lemma PairIsBalanced()
    ensures Balanced([DoPush, DoPop], 0) && Balanced([DoPop], 1) && Balanced([], 0)
  {
    assert [DoPush, DoPop][1..] == [DoPop] && [DoPop][1..] == [];
  }

  lemma RunHead(parse: Parser, s: State, ops: seq<Op>, d: nat)
    requires Valid(s) && Rooted(s) && s.lvl > d && Balanced(ops, d) && ops != []
    requires Valid(Step(parse, s, ops[0])) && Rooted(Step(parse, s, ops[0]))
    requires Step(parse, s, ops[0]).lvl > NextDepth(ops[0], d)
    ensures Run(parse, s, ops, d) == Run(parse, Step(parse, s, ops[0]), ops[1..], NextDepth(ops[0], d))
  {
    hide Valid, Rooted, Step;
  }

  lemma RunNothing(parse: Parser, s: State)
    requires Valid(s) && Rooted(s) && s.lvl > 0
    ensures Run(parse, s, [], 0) == s
  {
    hide Valid, Rooted;
  }

  lemma PopAfterPushAtOnce(s: State, i: nat)
    requires Valid(s) && i < |s.opts| && s.opts[i].Own? && s.opts[i].chain != []
    ensures var t := Pop(Push(s));
            i < |t.opts| && t.opts[i].Own? && |t.opts[i].chain| == |s.opts[i].chain| && forall k :: Shared(s, i, k) == Shared(t, i, k)
  {
    ChainAtPop(s, Push(s), i);
    SharedSame(s, Pop(Push(s)), i);
  }

  lemma NothingSet(parse: Parser, s: State, i: nat)
    requires Valid(s) && Rooted(s) && Balanced([DoPush, DoPop], 0)
    ensures !SetSincePush(parse, s, [DoPush, DoPop], 0, i)
  {
    StepKeepsValid(parse, s, DoPush);
    assert [DoPush, DoPop][1..] == [DoPop] && [DoPop][1..] == [];
    assert !SetSincePush(parse, Step(parse, s, DoPush), [DoPop], 1, i);
  }
}
