/** What setting options, applying profiles and registering options come to, from the start of
    the program on, and concrete configurations for what goes wrong. */
module ConfigEffects {
  import opened Wrappers
  import opened OptionCodes
  import opened ConfigSpec
  import opened ConfigRestore

  // ------------------------------------------------------ setting one option

  /** A set that is carried out leaves in the option's slot what the parser left there, error
      or not.  After an error nothing else has changed; otherwise the option's variable and no
      other has that value, and the option is marked as set. */
  lemma SetOutcome(parse: Parser, s: State, arg: string, param: Option<string>, i: nat)
    requires Valid(s) && Find(s.opts, arg) == Some(i) && !s.opts[i].def.isProfile
    requires !Forbidden(s, s.opts[i].def) && !Deferred(s, s.opts[i])
    ensures var (r, code) := ParseOption(parse, s, arg, param, true);
            var (o, k) := SlotOf(s, i);
            var p := parse(s.opts[i].def, arg, param, Some(s.opts[o].chain[k].data));
            && code == p.code && |r.opts| == |s.opts|
            && r.opts[o].Own? && k < |r.opts[o].chain| && r.opts[o].chain[k].data == p.out
            && (code < 0 ==> r.vars == s.vars && r.opts[i].isSet == s.opts[i].isSet)
            && (code >= 0 ==> r.opts[i].isSet && r.vars.Keys == s.vars.Keys
                              && forall v :: v in s.vars ==> r.vars[v] == if s.opts[i].def.variable == Some(v) then p.out else s.vars[v])
            && (forall j :: 0 <= j < |s.opts| && j != i && j != o ==> r.opts[j] == s.opts[j])
  {
    hide Valid, Frame;
    EntryIsOk(s, i);
    var (o, k) := SlotOf(s, i);
    var p := parse(s.opts[i].def, arg, param, Some(s.opts[o].chain[k].data));
    var s1 := WriteSlot(s, i, p.out);
    assert ParseOption(parse, s, arg, param, true) == Store(parse, s, i, arg, param);
    assert s1.opts[i].def == s.opts[i].def && s1.vars == s.vars;
    if p.code >= 0 { EntryIsOk(s1, i); }
  }

  /** Checking an option, or naming one that is unknown or forbidden, changes nothing. */
  lemma CheckChangesNothing(parse: Parser, s: State, arg: string, param: Option<string>, store: bool)
    requires Valid(s)
    ensures var (r, code) := ParseOption(parse, s, arg, param, store);
            && (!store ==> r == s)
            && (Find(s.opts, arg) == None ==> r == s && code < 0)
            && (Find(s.opts, arg).Some? && Forbidden(s, s.opts[Find(s.opts, arg).value].def) ==> r == s && code < 0)
  {}

  /** What the mode does to a set of the option found: a config file refuses options marked
      NOCFG and the command line those marked NOCMD; pre-parsing only checks options not marked
      for it; and after it an option marked for it is only checked once it is set.  Any other
      set that the parser accepts is carried out. */
  lemma ModeRules(parse: Parser, s: State, arg: string, param: Option<string>, i: nat)
    requires Valid(s) && Find(s.opts, arg) == Some(i)
    ensures var d := s.opts[i].def;
            var (r, code) := ParseOption(parse, s, arg, param, true);
            var checked := parse(d, arg, param, None).code;
            && (s.mode == ConfigFile && d.nocfg ==> r == s && code == -3)
            && (s.mode == CommandLine && d.nocmd ==> r == s && code == -3)
            && (s.mode == PreParse && !d.preparse ==> r == s && code == checked)
            && (s.mode == ConfigFile && !d.nocfg && d.preparse && s.opts[i].isSet ==> r == s && code == checked)
            && (s.mode == CommandLine && !d.nocmd && d.preparse && s.opts[i].isSet ==> r == s && code == checked)
            && (s.mode == PreParse && d.preparse && code >= 0 ==> i < |r.opts| && r.opts[i].isSet)
            && (s.mode == ConfigFile && !d.nocfg && !d.preparse && code >= 0 ==> i < |r.opts| && r.opts[i].isSet)
            && (s.mode == CommandLine && !d.nocmd && !d.preparse && code >= 0 ==> i < |r.opts| && r.opts[i].isSet)
  {
    EntryIsOk(s, i);
    assert ParseOption(parse, s, arg, param, true)
           == (if Forbidden(s, s.opts[i].def) then (s, INVALID)
               else if Deferred(s, s.opts[i]) then (s, parse(s.opts[i].def, arg, param, None).code)
               else Store(parse, s, i, arg, param));
    StoreMarks(parse, s, i, arg, param);
  }

  lemma StoreMarks(parse: Parser, s: State, i: nat, arg: string, param: Option<string>)
    requires Valid(s) && i < |s.opts|
    ensures var (r, code) := Store(parse, s, i, arg, param); code >= 0 ==> i < |r.opts| && r.opts[i].isSet
  {
    hide Valid, ApplyProfiles, WriteSlot;
  }

  /** Names are compared without case; a name that ends in '*' stands for all with its stem if
      its type allows it. */
  lemma NameWitness()
    ensures Matches(Def("vf*", None, false, false, false, false, false, false, true, false), "VF-add")
    ensures !Matches(Def("vf*", None, false, false, false, false, false, false, true, false), "v")
    ensures !Matches(Def("vf*", None, false, false, false, false, false, false, false, false), "vf-add")
    ensures Matches(Def("ss", None, false, false, false, false, false, false, false, false), "Ss")
    ensures !Matches(Def("ss", None, false, false, false, false, false, false, false, false), "sss")
  {
    var d := Def("vf*", None, false, false, false, false, false, false, true, false);
    assert d.name[..2] == "vf" && "VF-add"[..2] == "VF";
  }

  // ------------------------------------------------------ profiles

  /** A profile is ignored inside 21 others, and applied inside 20. */
  lemma ProfileDepth(parse: Parser, s: State, opts: seq<(string, Option<string>)>)
    requires Valid(s)
    ensures s.depth == 21 ==> SetProfile(parse, s, opts) == s
    ensures Valid(s.(depth := 21))
    ensures s.depth == 20 ==> SetProfile(parse, s, opts) == SetAll(parse, s.(depth := 21), opts).(depth := 20)
  {
    DepthOnly(s, 21);
  }

  /** Applying one list of profiles and then another is applying both as one list. */
  lemma {:induction false} ProfilesInOrder(parse: Parser, s: State, a: seq<string>, b: seq<string>)
    requires Valid(s)
    ensures ApplyProfiles(parse, s, a + b) == ApplyProfiles(parse, ApplyProfiles(parse, s, a), b)
    decreases |a|
  {
    if a == [] {
      assert a + b == b;
    } else {
      assert (a + b)[0] == a[0] && (a + b)[1..] == a[1..] + b;
      var p := FindProfile(s.profiles, a[0]);
      var t := if p.Some? then SetProfile(parse, s, p.value.opts) else s;
      ProfilesInOrder(parse, t, a[1..], b);
    }
  }

  lemma {:induction false} SetsInOrder(parse: Parser, s: State, a: seq<(string, Option<string>)>, b: seq<(string, Option<string>)>)
    requires Valid(s)
    ensures SetAll(parse, s, a + b) == SetAll(parse, SetAll(parse, s, a), b)
    decreases |a|
  {
    if a == [] {
      assert a + b == b;
    } else {
      assert (a + b)[0] == a[0] && (a + b)[1..] == a[1..] + b;
      SetsInOrder(parse, ParseOption(parse, s, a[0].0, a[0].1, true).0, a[1..], b);
    }
  }

  const PROFILE := Def("profile", None, false, true, false, false, false, false, false, true)

  /** A parser that makes a list of one name. */
  const ONE_NAME: Parser := (def: Def, name: string, param: Option<string>, dst: Option<Value>) => Parsed(1, Names([param.GetOr("")]))

  /** Profile "x" sets the profile option to "y". */
  const NESTED := State(1, CommandLine, 0, [Own(PROFILE, false, [Slot(0, Names([])), Slot(1, Names([]))])], map[],
                        [Profile("x", [("profile", Some("y"))]), Profile("y", [])])

  /** The slot a list of profiles came from does change while the list is applied: after
      "profile=x" it holds the list of the nested set. */
  lemma NestedProfileOverwritesSlot()
    ensures Valid(NESTED)
    ensures var (r, code) := ParseOption(ONE_NAME, NESTED, "profile", Some("x"), true);
            code == 1 && |r.opts| == 1 && r.opts[0].Own? && |r.opts[0].chain| == 2 && r.opts[0].chain[1].data == Names(["y"])
  {
    hide WriteSlot, MarkSet, Frame;
    assert Valid(NESTED) by { assert EntryOk(NESTED, NESTED.opts[0]); }
    var s1 := WriteSlot(NESTED, 0, Names(["x"]));
    SlotWritten(NESTED, Names(["x"]));
    ProfileStep(NESTED, "x", s1);
    SlotOverwritten(s1);
    var u := ApplyProfiles(ONE_NAME, s1, ["x"]);
    FlagMarked(u);
  }

  lemma SlotWritten(s: State, v: Value)
    requires Valid(s) && |s.opts| == 1 && s.opts[0].Own? && |s.opts[0].chain| == 2
    ensures var e := s.opts[0];
            WriteSlot(s, 0, v) == s.(opts := [e.(chain := e.chain[1 := e.chain[1].(data := v)])])
  {
    assert s.opts == [s.opts[0]];
  }

  lemma FlagMarked(s: State)
    requires Valid(s) && |s.opts| == 1
    ensures MarkSet(s, 0) == s.(opts := [s.opts[0].(isSet := true)])
  {
    assert s.opts == [s.opts[0]];
  }

  lemma SlotOverwritten(s: State)
    requires Valid(s) && s.profiles == NESTED.profiles && s.depth == 0 && s.mode == CommandLine
    requires |s.opts| == 1 && s.opts[0].Own? && s.opts[0].def == PROFILE && |s.opts[0].chain| == 2
    ensures var u := ApplyProfiles(ONE_NAME, s, ["x"]);
            |u.opts| == 1 && u.opts[0].Own? && |u.opts[0].chain| == 2 && u.opts[0].chain[1].data == Names(["y"])
  {
    hide WriteSlot, MarkSet, Frame, ParseOption;
    var p := NESTED.profiles[0];
    assert FindProfile(s.profiles, "x") == Some(p);
    DepthOnly(s, 1);
    var s2 := s.(depth := 1);
    var s3 := WriteSlot(s2, 0, Names(["y"]));
    SlotWritten(s2, Names(["y"]));
    ProfileStep(s2, "y", s3);
    assert FindProfile(s3.profiles, "y") == Some(NESTED.profiles[1]);
    NothingInProfile(s3, "y");
    FlagMarked(s3);
    var s5 := MarkSet(s3, 0);
    assert SetAll(ONE_NAME, s2, p.opts) == s5 by {
      assert p.opts[0] == ("profile", Some("y")) && p.opts[1..] == [];
      assert SetAll(ONE_NAME, s5, []) == s5;
    }
    var s6 := SetProfile(ONE_NAME, s, p.opts);
    assert s6 == s5.(depth := 0);
    assert ["x"][1..] == [];
    assert ApplyProfiles(ONE_NAME, s6, []) == s6;
  }

  /** Setting the profile option, in a configuration that has no other. */
  lemma ProfileStep(s: State, name: string, s1: State)
    requires Valid(s) && |s.opts| == 1 && s.opts[0].Own? && s.opts[0].def == PROFILE && s.mode == CommandLine
    requires s1 == WriteSlot(s, 0, Names([name]))
    ensures ParseOption(ONE_NAME, s, "profile", Some(name), true)
            == (MarkSet(ApplyProfiles(ONE_NAME, s1, [name]), 0), 1)
  {
    assert Matches(PROFILE, "profile");
    assert Find(s.opts, "profile") == Some(0);
    assert ONE_NAME(PROFILE, "profile", Some(name), Some(s.opts[0].chain[|s.opts[0].chain| - 1].data)) == Parsed(1, Names([name]));
  }

  lemma NothingInProfile(s: State, name: string)
    requires Valid(s) && s.depth <= MAX_PROFILE_DEPTH
    requires FindProfile(s.profiles, name).Some? && FindProfile(s.profiles, name).value.opts == []
    ensures ApplyProfiles(ONE_NAME, s, [name]) == s
  {
    DepthOnly(s, s.depth + 1);
    assert SetAll(ONE_NAME, s.(depth := s.depth + 1), []) == s.(depth := s.depth + 1);
    assert SetProfile(ONE_NAME, s, []) == s;
    assert [name][1..] == [];
  }

  // ------------------------------------------------------ registration

  /** An option for a variable that has options already becomes an alias of the variable's one
      owner; any other owns two slots, of level 0 and of the current level, that hold the
      variable's value.  The options registered before stay as they are. */
  lemma RegisterShares(s: State, def: Def)
    requires Valid(s) && Registrable(s, def)
    ensures var r := Register(s, def);
            var n := |s.opts|;
            && |r.opts| == n + 1 && r.opts[..n] == s.opts && r.vars == s.vars && r.lvl == s.lvl && r.opts[n].def == def
            && (r.opts[n].Alias? <==> def.variable.Some? && exists i :: 0 <= i < n && s.opts[i].def.variable == def.variable)
            && (r.opts[n].Alias? ==> var o := r.opts[n].of;
                                     o < n && s.opts[o].Own? && s.opts[o].def.variable == def.variable && r.opts[n].pos < |s.opts[o].chain|)
            && (r.opts[n].Own? ==> r.opts[n].chain == [Slot(0, Current(s, def)), Slot(s.lvl, Current(s, def))])
  {
    if def.variable.Some? && Holder(s.opts, def.variable.value).Some? {
      assert EntryOk(s, s.opts[Holder(s.opts, def.variable.value).value]);
    }
  }

  function Start(vars: map<nat, Value>, profiles: seq<Profile>): State {
    State(1, CommandLine, 0, [], vars, profiles)
  }

  ghost predicate AllRegistrable(s: State, defs: seq<Def>) {
    forall k :: 0 <= k < |defs| ==> Registrable(s, defs[k])
  }

  function RegisterAll(s: State, defs: seq<Def>): (r: State)
    requires Valid(s) && AllRegistrable(s, defs)
    ensures Valid(r) && r.lvl == s.lvl && r.vars == s.vars
    decreases |defs|
  {
    if defs == [] then s
    else
      RegisterValid(s, defs[0]);
      RegisterAll(Register(s, defs[0]), defs[1..])
  }

  /** Registering any options at level 1 gives a configuration all the guarantees start from. */
  lemma {:induction false} StartIsGood(s: State, defs: seq<Def>)
    requires Valid(s) && s.lvl == 1 && Rooted(s) && Levelled(s) && AllRegistrable(s, defs)
    ensures Rooted(RegisterAll(s, defs)) && Levelled(RegisterAll(s, defs))
    decreases |defs|
  {
    if defs != [] {
      RegisterValid(s, defs[0]);
      StartIsGood(Register(s, defs[0]), defs[1..]);
    }
  }

  /** MEncoder from its start: options are registered, the command line and the configuration
      files are read, one push is left open, files are played; around every file each saved
      option that is not OLD is restored. */
  lemma SessionRestores(parse: Parser, vars: map<nat, Value>, profiles: seq<Profile>, defs: seq<Def>,
                        reading: seq<Op>, before: seq<Op>, body: seq<Op>, i: nat)
    requires AllRegistrable(Start(vars, profiles), defs)
    requires Balanced(reading, 0) && Balanced(before, 0) && Balanced(body, 0)
    ensures var s0 := RegisterAll(Start(vars, profiles), defs);
            && Rooted(s0)
            && var s := Run(parse, s0, reading, 0);
               var t := Run(parse, Push(s), before, 0);
            i < |s.opts| && s.opts[i].Own? && s.opts[i].def.Saved() && !s.opts[i].def.oldStyle && s.opts[i].def.variable.Some?
            ==> i < |t.opts| && t.opts[i].def.variable == s.opts[i].def.variable && Restored(parse, t, i, body)
  {
    StartIsGood(Start(vars, profiles), defs);
    var s0 := RegisterAll(Start(vars, profiles), defs);
    RunLevelled(parse, s0, reading, 0);
    var s := Run(parse, s0, reading, 0);
    if i < |s.opts| && s.opts[i].Own? && s.opts[i].def.Saved() && !s.opts[i].def.oldStyle && s.opts[i].def.variable.Some? {
      EveryFileRestores(parse, s, before, body, i);
    }
  }

  // ------------------------------------------------------ concrete failures

  function Plain(name: string): Def {
    Def(name, Some(0), false, false, false, false, false, false, false, false)
  }

  const SEVEN: Parser := (def: Def, name: string, param: Option<string>, dst: Option<Value>) => Parsed(1, Raw([7]))

  /** Two options for one variable: "a" owns it, "b" is an alias. */
  const TWO := State(1, CommandLine, 0,
                     [Own(Plain("a"), false, [Slot(0, Raw([])), Slot(1, Raw([]))]), Alias(Plain("b"), false, 0, 1)],
                     map[0 := Raw([])], [])

  lemma TwoIsGood()
    ensures Valid(TWO) && Rooted(TWO) && Levelled(TWO)
  {
    assert EntryOk(TWO, TWO.opts[0]) && EntryOk(TWO, TWO.opts[1]);
  }

  /** One push from level 1, a set through "b", a pop: the variable keeps the value set. */
  lemma SinglePushWitness()
    ensures Valid(TWO) && Rooted(TWO) && Balanced([Set("b", None)], 0)
    ensures var r := Bracket(SEVEN, TWO, [Set("b", None)]); 0 in r.vars && r.vars[0] == Raw([7])
    ensures AliasSettable(SEVEN, TWO, 0) && !Restored(SEVEN, TWO, 0, [Set("b", None)])
  {
    TwoIsGood();
    var t := Push(TWO);
    assert t.opts[1] == TWO.opts[1];
    assert Find(t.opts, "b") == Some(1) by { assert Matches(Plain("b"), "b"); }
    assert SetsAlias(SEVEN, t, 1, "b", None, Raw([7]));
    AliasDefeatsPop(SEVEN, TWO, 0, 1, "b", None, Raw([7]));
    assert CanSetTop(SEVEN, TWO, 0, 1, "b", None, Raw([7]));
  }

  /** An option registered after a push, as an alias of a variable that the push saved: the
      pop frees the slot it points at. */
  lemma LateAliasDangles()
    ensures var one := TWO.(opts := TWO.opts[..1]);
            Valid(one) && var s := Register(Push(one), Plain("c")); Valid(s) && !AliasesSurvive(s) && !Valid(Pop(s))
  {
    var one := TWO.(opts := TWO.opts[..1]);
    assert Valid(one) by { assert EntryOk(one, one.opts[0]); }
    var p := Push(one);
    RegisterValid(p, Plain("c"));
    assert Holder(p.opts, 0) == Some(0);
    var late := Register(p, Plain("c"));
    assert late.opts[1] == Alias(Plain("c"), false, 0, 2);
    assert late.opts[0].chain[2].lvl == 2;
    PopValidIff(late);
  }
}
