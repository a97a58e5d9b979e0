/** Whole runs of the option context stack: what a push and the matching pop give back. */
module ConfigRestore {
  import opened Wrappers
  import opened ConfigSpec

  /** What can happen between a push and its pop: an option set by name, a profile
      applied, a direct write to an option variable by the program, a nested push or pop. */
  datatype Op =
    | Set(arg: string, param: Option<string>)
    | UseProfile(name: string)
    | Assign(variable: nat, value: Value)
    | DoPush
    | DoPop

  /** Reading the operations at nesting depth d, every pop has its push and no push is left open. */
  predicate Balanced(ops: seq<Op>, d: nat) {
    if ops == [] then d == 0
    else match ops[0]
         case DoPush => Balanced(ops[1..], d + 1)
         case DoPop => d > 0 && Balanced(ops[1..], d - 1)
         case _ => Balanced(ops[1..], d)
  }

  function Step(parse: Parser, s: State, op: Op): State
    requires Valid(s) && s.lvl >= 1
  {
    match op
    case Set(arg, param) => ParseOption(parse, s, arg, param, true).0
    case UseProfile(name) =>
      var p := FindProfile(s.profiles, name);
      if p.Some? then SetProfile(parse, s, p.value.opts) else s
    case Assign(v, x) => if v in s.vars then s.(vars := s.vars[v := x]) else s
    case DoPush => Push(s)
    case DoPop => Pop(s)
  }

  function NextDepth(op: Op, d: nat): nat
    requires op.DoPop? ==> d > 0
  {
    match op case DoPush => d + 1 case DoPop => d - 1 case _ => d
  }

  /** Runs the operations of a body entered at nesting depth d. */
  function Run(parse: Parser, s: State, ops: seq<Op>, d: nat): (r: State)
    requires Valid(s) && Rooted(s) && s.lvl > d && Balanced(ops, d)
    ensures Valid(r) && Rooted(r) && r.lvl == s.lvl - d
    decreases |ops|
  {
    if ops == [] then s
    else
      StepKeepsValid(parse, s, ops[0]);
      Run(parse, Step(parse, s, ops[0]), ops[1..], NextDepth(ops[0], d))
  }

  // ------------------------------------------------------ the invariant is kept

  lemma StepKeepsValid(parse: Parser, s: State, op: Op)
    requires Valid(s) && Rooted(s) && (op.DoPop? ==> s.lvl >= 2)
    ensures Valid(Step(parse, s, op)) && Rooted(Step(parse, s, op))
    ensures Step(parse, s, op).lvl == (if op.DoPush? then s.lvl + 1 else if op.DoPop? then s.lvl - 1 else s.lvl)
  {
    match op
    case Set(_, _) => FrameRooted(s, Step(parse, s, op));
    case UseProfile(_) => FrameRooted(s, Step(parse, s, op));
    case Assign(v, x) => if v in s.vars { AssignValid(s, v, x); }
    case DoPush =>
    case DoPop =>
      RootedSurvive(s);
      PopValid(s);
      PopRooted(s);
  }

  lemma FrameRooted(s: State, t: State)
    requires Frame(s, t) && Rooted(s)
    ensures Rooted(t)
  {
    forall i | 0 <= i < |t.opts|
      ensures match t.opts[i]
              case Own(def, _, chain) => |chain| >= 2 && chain[1].lvl == 1 && (!def.Saved() ==> |chain| == 2)
              case Alias(_, _, _, pos) => pos == 1
    {
      if s.opts[i].Own? {
        assert SameShape(s, t, i);
      }
    }
  }

  lemma AssignValid(s: State, v: nat, x: Value)
    requires Valid(s) && v in s.vars
    ensures Valid(s.(vars := s.vars[v := x]))
  {
    assert forall i :: 0 <= i < |s.opts| ==> EntryOk(s, s.opts[i]);
  }

  /** A pop leaves a valid state exactly if it frees no slot an alias points at.  Otherwise
      that alias is left with a dangling pointer. */
  lemma PopValidIff(s: State)
    requires Valid(s) && s.lvl >= 2
    ensures Valid(Pop(s)) <==> AliasesSurvive(s)
  {
    if AliasesSurvive(s) {
      PopValid(s);
    } else {
      var i :| 0 <= i < |s.opts| && s.opts[i].Alias? && s.opts[s.opts[i].of].def.Saved()
               && s.opts[s.opts[i].of].chain[s.opts[i].pos].lvl >= s.lvl;
      var e := s.opts[i];
      assert EntryOk(s, e) && EntryOk(s, s.opts[e.of]);
      PoppedBelow(s.opts[e.of].chain, s.lvl, e.pos);
      assert Pop(s).opts[e.of] == PopEntry(s.opts[e.of], s.lvl);
      assert !EntryOk(Pop(s), Pop(s).opts[i]);
    }
  }

  lemma PoppedBelow(c: seq<Slot>, lvl: nat, k: nat)
    requires ChainOk(c) && k < |c| && c[k].lvl >= lvl
    ensures |Popped(c, lvl)| <= k
  {
    var r := Popped(c, lvl);
    assert r != [] ==> Top(r) == c[|r| - 1];
  }

  lemma PopValid(s: State)
    requires Valid(s) && s.lvl >= 2 && AliasesSurvive(s)
    ensures Valid(Pop(s))
  {
    PopVarsKeys(s, s.opts, s.vars);
    forall i | 0 <= i < |s.opts|
      ensures EntryOk(Pop(s), PopEntry(s.opts[i], s.lvl))
    {
      PopEntryOk(s, i);
    }
  }

  lemma PopEntryOk(s: State, i: nat)
    requires Valid(s) && s.lvl >= 2 && AliasesSurvive(s) && i < |s.opts|
    requires Pop(s).vars.Keys == s.vars.Keys
    ensures EntryOk(Pop(s), PopEntry(s.opts[i], s.lvl))
  {
    assert EntryOk(s, s.opts[i]);
    if s.opts[i].Own? {
      PoppedKeeps(s.opts[i].chain, s.lvl, 1);
    } else {
      var o := s.opts[s.opts[i].of];
      assert EntryOk(s, o);
      if o.def.Saved() { PoppedKeeps(o.chain, s.lvl, s.opts[i].pos + 1); }
      assert Pop(s).opts[s.opts[i].of] == PopEntry(o, s.lvl);
    }
  }

  lemma PopRooted(s: State)
    requires Valid(s) && s.lvl >= 2 && Rooted(s)
    ensures Rooted(Pop(s))
  {
    forall i | 0 <= i < |s.opts| && s.opts[i].Own?
      ensures var e := PopEntry(s.opts[i], s.lvl); |e.chain| >= 2 && e.chain[1].lvl == 1 && (!e.def.Saved() ==> |e.chain| == 2)
    {
      assert EntryOk(s, s.opts[i]);
      PoppedKeeps(s.opts[i].chain, s.lvl, 2);
    }
  }

  /** Options registered at level 1 keep their alias slots alive for ever: no pop frees one. */
  lemma RootedSurvive(s: State)
    requires Valid(s) && Rooted(s) && s.lvl >= 2
    ensures AliasesSurvive(s)
  {
    forall i | 0 <= i < |s.opts| && s.opts[i].Alias?
      ensures s.opts[s.opts[i].of].chain[s.opts[i].pos].lvl < s.lvl
    {
      assert EntryOk(s, s.opts[i]);
      assert s.opts[s.opts[i].of].Own?;
    }
  }

  lemma {:induction false} PoppedKeeps(c: seq<Slot>, lvl: nat, m: nat)
    requires 1 <= m <= |c| && c[m - 1].lvl < lvl
    ensures m <= |Popped(c, lvl)|
  {
    if Top(c).lvl >= lvl {
      PoppedKeeps(c[..|c| - 1], lvl, m);
    }
  }

  lemma {:induction false} PopVarsKeys(s: State, opts: seq<Entry>, vars: map<nat, Value>)
    requires forall i :: 0 <= i < |opts| && opts[i].def.variable.Some? ==> opts[i].def.variable.value in vars
    ensures PopVars(opts, vars, s.lvl).Keys == vars.Keys
  {
    if opts != [] {
      PopVarsKeys(s, opts[..|opts| - 1], PopVar(opts[|opts| - 1], vars, s.lvl));
    }
  }

  /** The slot of the defaults, at the bottom of a chain, is never freed nor written, and
      profiles, however deeply they name each other, leave the profile depth as it was. */
  lemma StepKeepsDefaults(parse: Parser, s: State, op: Op, i: nat)
    requires Valid(s) && Rooted(s) && (op.DoPop? ==> s.lvl >= 2)
    requires i < |s.opts| && s.opts[i].Own?
    ensures var t := Step(parse, s, op);
            && t.depth == s.depth && i < |t.opts| && t.opts[i].Own?
            && s.opts[i].chain != [] && t.opts[i].chain != [] && t.opts[i].chain[0] == s.opts[i].chain[0]
  {
    var t := Step(parse, s, op);
    assert !Shared(s, i, 0);
    match op
    case Set(_, _) => assert SameShape(s, t, i);
    case UseProfile(_) => if t != s { assert SameShape(s, t, i); }
    case Assign(_, _) =>
    case DoPush => assert t.opts[i] == PushEntry(s.opts[i], s.vars, s.lvl + 1);
    case DoPop =>
      assert EntryOk(s, s.opts[i]);
      PoppedKeeps(s.opts[i].chain, s.lvl, 1);
  }

  // ------------------------------------------------------ what a pop does to one variable

  predicate DistinctOwners(opts: seq<Entry>) {
    forall i, j :: 0 <= i < j < |opts| && opts[i].Own? && opts[j].Own? && opts[i].def.variable.Some?
      ==> opts[i].def.variable != opts[j].def.variable
  }

  /** A variable whose owner is not among the options is left alone by the pop loop. */
  lemma {:induction false} PopVarsOther(opts: seq<Entry>, vars: map<nat, Value>, lvl: nat, v: nat)
    requires v in vars
    requires forall i :: 0 <= i < |opts| && opts[i].Own? ==> opts[i].def.variable != Some(v)
    ensures v in PopVars(opts, vars, lvl) && PopVars(opts, vars, lvl)[v] == vars[v]
  {
    if opts != [] {
      PopVarsOther(opts[..|opts| - 1], PopVar(opts[|opts| - 1], vars, lvl), lvl, v);
    }
  }

  lemma {:induction false} PopVarsAt(opts: seq<Entry>, vars: map<nat, Value>, lvl: nat, i: nat)
    requires DistinctOwners(opts) && i < |opts| && opts[i].Own? && opts[i].def.variable.Some?
    requires opts[i].def.variable.value in vars
    ensures var v := opts[i].def.variable.value;
            v in PopVars(opts, vars, lvl) && PopVars(opts, vars, lvl)[v] == PopVar(opts[i], vars, lvl)[v]
  {
    var v := opts[i].def.variable.value;
    var n := |opts| - 1;
    var vars' := PopVar(opts[n], vars, lvl);
    if i == n {
      PopVarsOther(opts[..n], vars', lvl, v);
    } else {
      PopVarsAt(opts[..n], vars', lvl, i);
    }
  }

  // ------------------------------------------------------ inside the bracket

  /** State t, reached from s by operations between a push and its pop, still has all of
      option i's slots of s below everything pushed since; only aliased data may differ. */
  ghost predicate Kept(s: State, t: State, i: nat) {
    && i < |s.opts| == |t.opts| && s.opts[i].Own? && t.opts[i].Own? && t.opts[i].def == s.opts[i].def
    && (forall k :: Shared(s, i, k) == Shared(t, i, k))
    && var (c, d) := (s.opts[i].chain, t.opts[i].chain);
    && |c| <= |d|
    && (forall k :: 0 <= k < |c| ==> d[k].lvl == c[k].lvl)
    && (forall k :: 0 <= k < |c| - 1 && !Shared(s, i, k) ==> d[k].data == c[k].data)
    && (forall k :: |c| <= k < |d| ==> d[k].lvl > s.lvl)
    && (!s.opts[i].def.Saved() ==> |d| == |c|)
  }

  lemma FrameKept(s: State, t: State, u: State, i: nat)
    requires Kept(s, t, i) && Frame(t, u)
    ensures Kept(s, u, i)
  {
    assert SameShape(t, u, i);
    forall k: nat ensures Shared(t, i, k) == Shared(u, i, k) { FrameShared(t, u, i, k); }
  }

  lemma SharedSame(t: State, u: State, i: nat)
    requires |t.opts| == |u.opts|
    requires forall j :: 0 <= j < |t.opts| ==> t.opts[j].Alias? == u.opts[j].Alias?
    requires forall j :: 0 <= j < |t.opts| && t.opts[j].Alias? ==> t.opts[j] == u.opts[j]
    ensures forall k :: Shared(t, i, k) == Shared(u, i, k)
  {
    forall k: nat ensures Shared(t, i, k) == Shared(u, i, k) {
      if Shared(t, i, k) {
        var j :| 0 <= j < |t.opts| && t.opts[j].Alias? && t.opts[j].of == i && t.opts[j].pos == k;
        assert u.opts[j].Alias?;
      }
      if Shared(u, i, k) {
        var j :| 0 <= j < |u.opts| && u.opts[j].Alias? && u.opts[j].of == i && u.opts[j].pos == k;
        assert t.opts[j].Alias?;
      }
    }
  }

  lemma PushKept(s: State, t: State, i: nat)
    requires Valid(t) && Kept(s, t, i) && s.lvl <= t.lvl
    ensures Kept(s, Push(t), i)
  {
    var (d, e) := (t.opts[i].chain, PushEntry(t.opts[i], t.vars, t.lvl + 1).chain);
    assert forall k :: 0 <= k < |d| ==> e[k].lvl == d[k].lvl;
    assert forall k :: 0 <= k < |d| - 1 ==> e[k] == d[k];
    SharedSame(t, Push(t), i);
    GrownKept(s, t, Push(t), i);
  }

  lemma GrownKept(s: State, t: State, u: State, i: nat)
    requires Kept(s, t, i) && |u.opts| == |t.opts| && u.opts[i].Own? && u.opts[i].def == t.opts[i].def
    requires forall k :: Shared(t, i, k) == Shared(u, i, k)
    requires |t.opts[i].chain| <= |u.opts[i].chain|
    requires forall k :: 0 <= k < |t.opts[i].chain| ==> u.opts[i].chain[k].lvl == t.opts[i].chain[k].lvl
    requires forall k :: 0 <= k < |t.opts[i].chain| - 1 ==> u.opts[i].chain[k] == t.opts[i].chain[k]
    requires forall k :: |t.opts[i].chain| <= k < |u.opts[i].chain| ==> u.opts[i].chain[k].lvl > s.lvl
    requires !s.opts[i].def.Saved() ==> u.opts[i].chain == t.opts[i].chain
    ensures Kept(s, u, i)
  {
  }

  lemma PrefixKept(s: State, t: State, u: State, i: nat)
    requires Kept(s, t, i) && |u.opts| == |t.opts| && u.opts[i].Own? && u.opts[i].def == t.opts[i].def
    requires forall k :: Shared(t, i, k) == Shared(u, i, k)
    requires u.opts[i].chain <= t.opts[i].chain && |s.opts[i].chain| <= |u.opts[i].chain|
    requires !s.opts[i].def.Saved() ==> u.opts[i].chain == t.opts[i].chain
    ensures Kept(s, u, i)
  {
  }

  lemma PopKept(s: State, t: State, i: nat)
    requires Valid(s) && Valid(t) && Kept(s, t, i) && s.lvl < t.lvl
    ensures Kept(s, Pop(t), i)
  {
    var (c, d) := (s.opts[i].chain, t.opts[i].chain);
    assert c != [] && (s.opts[i].def.Saved() ==> Top(c).lvl <= s.lvl) by { assert EntryOk(s, s.opts[i]); }
    SharedSame(t, Pop(t), i);
    if s.opts[i].def.Saved() {
      PoppedKeeps(d, t.lvl, |c|);
    }
    PrefixKept(s, t, Pop(t), i);
  }

  lemma StepKept(parse: Parser, s: State, t: State, op: Op, i: nat)
    requires Valid(s) && Valid(t) && Kept(s, t, i)
    requires s.lvl <= t.lvl && (op.DoPop? ==> s.lvl < t.lvl)
    ensures Kept(s, Step(parse, t, op), i)
  {
    match op
    case Set(_, _) => FrameKept(s, t, Step(parse, t, op), i);
    case UseProfile(_) => FrameKept(s, t, Step(parse, t, op), i);
    case Assign(_, _) => FrameKept(s, t, Step(parse, t, op), i);
    case DoPush => PushKept(s, t, i);
    case DoPop => PopKept(s, t, i);
  }

  lemma {:induction false} RunKept(parse: Parser, s: State, t: State, ops: seq<Op>, d: nat, i: nat)
    requires Valid(s) && Valid(t) && Rooted(t) && t.lvl == s.lvl + d && Balanced(ops, d)
    requires Kept(s, t, i)
    ensures Kept(s, Run(parse, t, ops, d), i)
    decreases |ops|
  {
    if ops != [] {
      StepKept(parse, s, t, ops[0], i);
      StepKeepsValid(parse, t, ops[0]);
      RunKept(parse, s, Step(parse, t, ops[0]), ops[1..], NextDepth(ops[0], d), i);
    }
  }

  // ------------------------------------------------------ the bracket theorem

  /** push; body; pop */
  function Bracket(parse: Parser, s: State, body: seq<Op>): (r: State)
    requires Valid(s) && Rooted(s) && Balanced(body, 0)
    ensures Valid(r) && Rooted(r) && r.lvl == s.lvl
  {
    var t := Run(parse, Push(s), body, 0);
    RootedSurvive(t);
    PopValid(t);
    PopRooted(t);
    Pop(t)
  }

  /** The slot on top when the push starts is the one that the pop will read. */
  ghost predicate TopShared(s: State, i: nat)
    requires i < |s.opts| && s.opts[i].Own? && s.opts[i].chain != []
  {
    Shared(s, i, |s.opts[i].chain| - 1)
  }

  lemma PopTo(c: seq<Slot>, lvl: nat, n: nat)
    requires 1 <= n <= |c| && c[n - 1].lvl < lvl
    requires forall k :: n <= k < |c| ==> c[k].lvl >= lvl
    ensures Popped(c, lvl) == c[..n]
  {
    PoppedKeeps(c, lvl, n);
  }

  lemma EntryIsOk(s: State, i: nat)
    requires Valid(s) && i < |s.opts|
    ensures EntryOk(s, s.opts[i])
  {
  }

  /** The chain of option i in a state t reached from the state right after a push of s. */
  lemma ChainAtPop(s: State, t: State, i: nat)
    requires Valid(s) && Valid(t) && t.lvl == s.lvl + 1
    requires i < |s.opts| && s.opts[i].Own? && Kept(Push(s), t, i)
    ensures var n := |s.opts[i].chain|;
            && 1 <= n && |t.opts[i].chain| == (if Pushed(s.opts[i]) then n + 1 else n)
            && PopEntry(t.opts[i], t.lvl) == t.opts[i].(chain := t.opts[i].chain[..n])
  {
    hide Shared, Valid;
    var p := Push(s);
    assert p.opts[i] == PushEntry(s.opts[i], s.vars, s.lvl + 1);
    EntryIsOk(s, i);
    EntryIsOk(t, i);
    assert EntryOk(s, s.opts[i]) && EntryOk(t, t.opts[i]);
    var c := t.opts[i].chain;
    var n := |s.opts[i].chain|;
    if s.opts[i].def.Saved() {
      assert |c| == |p.opts[i].chain|;
      PopTo(c, t.lvl, n);
    } else {
      assert c == c[..n];
    }
  }

  /** What a pop finds in state t, reached from the state right after a push of s. */
  lemma PopAfterPush(s: State, t: State, i: nat)
    requires Valid(s) && Valid(t) && t.lvl == s.lvl + 1
    requires i < |s.opts| && s.opts[i].Own? && s.opts[i].def.variable.Some?
    requires Kept(Push(s), t, i)
    ensures var v := s.opts[i].def.variable.value;
            var n := |s.opts[i].chain|;
            var r := Pop(t);
            && v in s.vars && v in t.vars && v in r.vars && i < |r.opts|
            && 1 <= n <= |t.opts[i].chain|
            && r.opts[i] == t.opts[i].(chain := t.opts[i].chain[..n])
            && r.vars[v] == if Pushed(s.opts[i]) then t.opts[i].chain[n - 1].data else t.vars[v]
  {
    var v := s.opts[i].def.variable.value;
    assert v in s.vars by { assert EntryOk(s, s.opts[i]); }
    assert v in t.vars by { assert EntryOk(t, t.opts[i]); }
    ChainAtPop(s, t, i);
    PopVarsAt(t.opts, t.vars, t.lvl, i);
  }

  /** Unless it is shared, the slot saved to still holds the value of the push. */
  lemma SavedValueKept(s: State, t: State, i: nat)
    requires Valid(s) && i < |s.opts| && Pushed(s.opts[i]) && s.opts[i].def.variable.Some?
    requires Kept(Push(s), t, i) && s.opts[i].chain != [] && !TopShared(s, i)
    ensures s.opts[i].def.variable.value in s.vars && |s.opts[i].chain| <= |t.opts[i].chain|
    ensures t.opts[i].chain[|s.opts[i].chain| - 1].data == s.vars[s.opts[i].def.variable.value]
  {
    assert s.opts[i].def.variable.value in s.vars by { assert EntryOk(s, s.opts[i]); }
    assert Push(s).opts[i] == PushEntry(s.opts[i], s.vars, s.lvl + 1);
    SharedSame(s, Push(s), i);
  }

  lemma AfterBracket(parse: Parser, s: State, body: seq<Op>, i: nat)
    requires Valid(s) && Rooted(s) && Balanced(body, 0)
    requires i < |s.opts| && s.opts[i].Own? && s.opts[i].def.variable.Some?
    ensures Kept(Push(s), Run(parse, Push(s), body, 0), i)
    ensures Bracket(parse, s, body) == Pop(Run(parse, Push(s), body, 0))
  {
    RunKept(parse, Push(s), Push(s), body, 0, i);
  }

  /** Push then pop restores.  After any balanced body -- options set by name, profiles
      applied, variables written directly, pushes and pops nested to any depth -- a pop
      gives back the value an option's variable had at the push, provided the push saved
      the option and no alias writes to the slot it saved to. */
  lemma PushPopRestores(parse: Parser, s: State, body: seq<Op>, i: nat)
    requires Valid(s) && Rooted(s) && Balanced(body, 0)
    requires i < |s.opts| && Pushed(s.opts[i]) && s.opts[i].def.variable.Some? && s.opts[i].chain != []
    requires !TopShared(s, i)
    ensures s.opts[i].def.variable.value in s.vars
    ensures s.opts[i].def.variable.value in Bracket(parse, s, body).vars
    ensures Bracket(parse, s, body).vars[s.opts[i].def.variable.value] == s.vars[s.opts[i].def.variable.value]
  {
    AfterBracket(parse, s, body, i);
    PopAfterPush(s, Run(parse, Push(s), body, 0), i);
    SavedValueKept(s, Run(parse, Push(s), body, 0), i);
  }

  /** What the pop leaves of options the push passes over (GLOBAL, NOSAVE, and OLD options
      not set at this level): the value at the end of the body, and the same save slots. */
  lemma PushPopPassesOver(parse: Parser, s: State, body: seq<Op>, i: nat)
    requires Valid(s) && Rooted(s) && Balanced(body, 0)
    requires i < |s.opts| && s.opts[i].Own? && !Pushed(s.opts[i]) && s.opts[i].def.variable.Some?
    ensures var v := s.opts[i].def.variable.value;
            var t := Run(parse, Push(s), body, 0);
            var r := Bracket(parse, s, body);
            && v in t.vars && v in r.vars && r.vars[v] == t.vars[v]
            && |r.opts| == |s.opts| && r.opts[i].Own? && |r.opts[i].chain| == |s.opts[i].chain|
  {
    AfterBracket(parse, s, body, i);
    PopAfterPush(s, Run(parse, Push(s), body, 0), i);
  }

  // ------------------------------------------------------ when it does not restore

  /** In the state right after the push, setting `arg` reaches alias j and parses to v. */
  ghost predicate SetsAlias(parse: Parser, t: State, j: nat, arg: string, param: Option<string>, v: Value)
    requires Valid(t) && j < |t.opts| && t.opts[j].Alias?
  {
    && Find(t.opts, arg) == Some(j)
    && !Forbidden(t, t.opts[j].def) && !Deferred(t, t.opts[j])
    && var (o, k) := SlotOf(t, j);
       var p := parse(t.opts[j].def, arg, param, Some(t.opts[o].chain[k].data));
    p.code >= 0 && p.out == v
  }

  /** An alias of the slot on top at the push defeats the pop: one set through the alias's
      name, and the "restored" value is the one just set. */
  lemma AliasDefeatsPop(parse: Parser, s: State, i: nat, j: nat, arg: string, param: Option<string>, x: Value)
    requires Valid(s) && Rooted(s)
    requires i < |s.opts| && Pushed(s.opts[i]) && s.opts[i].def.variable.Some? && s.opts[i].chain != []
    requires j < |s.opts| && s.opts[j].Alias? && s.opts[j].of == i && s.opts[j].pos == |s.opts[i].chain| - 1
    requires SetsAlias(parse, Push(s), j, arg, param, x)
    ensures var r := Bracket(parse, s, [Set(arg, param)]);
            var v := s.opts[i].def.variable.value;
            v in r.vars && r.vars[v] == x
  {
    var body := [Set(arg, param)];
    RunOne(parse, Push(s), body[0]);
    AfterBracket(parse, s, body, i);
    PopAfterPush(s, Run(parse, Push(s), body, 0), i);
    SetWritesAlias(parse, Push(s), j, arg, param, x);
    assert EntryOk(s, s.opts[i]);
  }

  lemma RunOne(parse: Parser, s: State, op: Op)
    requires Valid(s) && Rooted(s) && s.lvl > 0 && !op.DoPush? && !op.DoPop?
    ensures Run(parse, s, [op], 0) == Step(parse, s, op)
  {
    StepKeepsValid(parse, s, op);
    assert [op][1..] == [];
    assert Run(parse, Step(parse, s, op), [], 0) == Step(parse, s, op);
  }

  /** A set through an alias writes the shared slot of the owner's chain. */
  lemma SetWritesAlias(parse: Parser, t: State, j: nat, arg: string, param: Option<string>, x: Value)
    requires Valid(t) && j < |t.opts| && t.opts[j].Alias?
    requires SetsAlias(parse, t, j, arg, param, x)
    ensures var (o, k) := SlotOf(t, j);
            var u := ParseOption(parse, t, arg, param, true).0;
            o < |u.opts| && u.opts[o].Own? && k < |u.opts[o].chain| && u.opts[o].chain[k].data == x
  {
    assert EntryOk(t, t.opts[j]);
    var s1 := WriteSlot(t, j, x);
    var u := MarkSet(WriteVar(s1, t.opts[j].def, x), j);
    assert u == ParseOption(parse, t, arg, param, true).0;
  }

  /** Option i's variable comes back after a push, this body and a pop. */
  ghost predicate Restored(parse: Parser, s: State, i: nat, body: seq<Op>)
    requires Valid(s) && Rooted(s) && Balanced(body, 0)
    requires i < |s.opts| && s.opts[i].def.variable.Some?
  {
    var v := s.opts[i].def.variable.value;
    v in s.vars && v in Bracket(parse, s, body).vars && Bracket(parse, s, body).vars[v] == s.vars[v]
  }

  ghost predicate CanSetTop(parse: Parser, s: State, i: nat, j: nat, arg: string, param: Option<string>, x: Value)
    requires Valid(s) && i < |s.opts| && s.opts[i].Own? && s.opts[i].def.variable.Some?
    requires s.opts[i].def.variable.value in s.vars
  {
    && j < |s.opts| && s.opts[j].Alias? && s.opts[j].of == i && s.opts[j].pos == |s.opts[i].chain| - 1
    && SetsAlias(parse, Push(s), j, arg, param, x) && x != s.vars[s.opts[i].def.variable.value]
  }

  /** Some alias of option i's top slot can be set to a new value at all. */
  ghost predicate AliasSettable(parse: Parser, s: State, i: nat)
    requires Valid(s) && i < |s.opts| && s.opts[i].Own? && s.opts[i].def.variable.Some?
    requires s.opts[i].def.variable.value in s.vars
  {
    exists j: nat, arg, param, x :: CanSetTop(parse, s, i, j, arg, param, x)
  }

  /** Exactly when push and pop restore an option whatever happens in between: when the push
      saves it and its top slot is no alias's slot.  The one assumption is that some alias of
      such a slot can be set to a new value at all. */
  lemma RestoredByEveryBody(parse: Parser, s: State, i: nat)
    requires Valid(s) && Rooted(s)
    requires i < |s.opts| && s.opts[i].Own? && s.opts[i].def.variable.Some? && s.opts[i].chain != []
    requires s.opts[i].def.variable.value in s.vars
    requires TopShared(s, i) ==> AliasSettable(parse, s, i)
    ensures (forall body | Balanced(body, 0) :: Restored(parse, s, i, body))
            <==> Pushed(s.opts[i]) && !TopShared(s, i)
  {
    if Pushed(s.opts[i]) && !TopShared(s, i) {
      forall body | Balanced(body, 0) ensures Restored(parse, s, i, body) {
        PushPopRestores(parse, s, body, i);
      }
    } else {
      var body := DefeatingBody(parse, s, i);
      assert Balanced(body, 0) && !Restored(parse, s, i, body);
    }
  }

  lemma DefeatingBody(parse: Parser, s: State, i: nat) returns (body: seq<Op>)
    requires Valid(s) && Rooted(s)
    requires i < |s.opts| && s.opts[i].Own? && s.opts[i].def.variable.Some? && s.opts[i].chain != []
    requires s.opts[i].def.variable.value in s.vars
    requires TopShared(s, i) ==> AliasSettable(parse, s, i)
    requires !Pushed(s.opts[i]) || TopShared(s, i)
    ensures Balanced(body, 0) && !Restored(parse, s, i, body)
  {
    if Pushed(s.opts[i]) {
      var j: nat, arg, param, x :| CanSetTop(parse, s, i, j, arg, param, x);
      body := [Set(arg, param)];
      NotRestoredByAlias(parse, s, i, j, arg, param, x);
    } else {
      body := AssignDefeatsPop(parse, s, i);
    }
  }

  lemma NotRestoredByAlias(parse: Parser, s: State, i: nat, j: nat, arg: string, param: Option<string>, x: Value)
    requires Valid(s) && Rooted(s)
    requires i < |s.opts| && Pushed(s.opts[i]) && s.opts[i].def.variable.Some? && s.opts[i].chain != []
    requires s.opts[i].def.variable.value in s.vars
    requires CanSetTop(parse, s, i, j, arg, param, x)
    ensures Balanced([Set(arg, param)], 0) && !Restored(parse, s, i, [Set(arg, param)])
  {
    AliasDefeatsPop(parse, s, i, j, arg, param, x);
  }

  lemma AssignDefeatsPop(parse: Parser, s: State, i: nat) returns (body: seq<Op>)
    requires Valid(s) && Rooted(s)
    requires i < |s.opts| && s.opts[i].Own? && s.opts[i].def.variable.Some? && !Pushed(s.opts[i])
    requires s.opts[i].def.variable.value in s.vars
    ensures Balanced(body, 0) && !Restored(parse, s, i, body)
  {
    var v := s.opts[i].def.variable.value;
    var x := if s.vars[v] == Raw([]) then Names([]) else Raw([]);
    body := [Assign(v, x)];
    RunOne(parse, Push(s), body[0]);
    PushPopPassesOver(parse, s, body, i);
  }

  // ------------------------------------------------------ the double push

  /** A saved option that is not OLD has one slot for each level up to the current one. */
  ghost predicate Levelled(s: State) {
    forall i :: 0 <= i < |s.opts| && s.opts[i].Own? && s.opts[i].def.Saved() && !s.opts[i].def.oldStyle
      ==> DenseChain(s.opts[i].chain, s.lvl)
  }

  predicate DenseChain(c: seq<Slot>, lvl: nat) {
    |c| == lvl + 1 && forall k :: 0 <= k < |c| ==> c[k].lvl == k
  }

  lemma FrameLevelled(s: State, t: State)
    requires Frame(s, t) && Levelled(s)
    ensures Levelled(t)
  {
    forall i | 0 <= i < |t.opts| && t.opts[i].Own? && t.opts[i].def.Saved() && !t.opts[i].def.oldStyle
      ensures DenseChain(t.opts[i].chain, t.lvl)
    {
      assert SameShape(s, t, i);
    }
  }

  lemma PopLevelled(s: State)
    requires Levelled(s) && s.lvl >= 1
    ensures Levelled(Pop(s))
  {
    forall i | 0 <= i < |s.opts| && s.opts[i].Own? && s.opts[i].def.Saved() && !s.opts[i].def.oldStyle
      ensures DenseChain(PopEntry(s.opts[i], s.lvl).chain, s.lvl - 1)
    {
      PoppedKeeps(s.opts[i].chain, s.lvl, s.lvl);
    }
  }

  lemma StepLevelled(parse: Parser, s: State, op: Op)
    requires Valid(s) && Levelled(s)
    ensures Levelled(Step(parse, s, op))
  {
    match op
    case Set(_, _) => FrameLevelled(s, Step(parse, s, op));
    case UseProfile(_) => FrameLevelled(s, Step(parse, s, op));
    case Assign(_, _) =>
    case DoPush =>
    case DoPop => PopLevelled(s);
  }

  lemma {:induction false} RunLevelled(parse: Parser, s: State, ops: seq<Op>, d: nat)
    requires Valid(s) && Rooted(s) && Levelled(s) && s.lvl > d && Balanced(ops, d)
    ensures Levelled(Run(parse, s, ops, d))
    decreases |ops|
  {
    if ops != [] {
      StepLevelled(parse, s, ops[0]);
      StepKeepsValid(parse, s, ops[0]);
      RunLevelled(parse, Step(parse, s, ops[0]), ops[1..], NextDepth(ops[0], d));
    }
  }

  /** The double push of MEncoder.  Once one push is outstanding (level 2 or more), every
      saved option that is not OLD is restored by any further bracket, whatever its body
      sets, also through alias names: aliases share slots of level 1 only. */
  lemma DoublePushRestores(parse: Parser, s: State, body: seq<Op>, i: nat)
    requires Valid(s) && Rooted(s) && Levelled(s) && s.lvl >= 2 && Balanced(body, 0)
    requires i < |s.opts| && s.opts[i].Own? && s.opts[i].def.Saved() && !s.opts[i].def.oldStyle
    requires s.opts[i].def.variable.Some?
    ensures Restored(parse, s, i, body)
  {
    assert DenseChain(s.opts[i].chain, s.lvl);
    PushPopRestores(parse, s, body, i);
  }

  /** MEncoder's whole session: from level 1 one push is left open, then any number of files
      is played, each in its own bracket; after every file the options are as before it. */
  lemma EveryFileRestores(parse: Parser, s: State, before: seq<Op>, body: seq<Op>, i: nat)
    requires Valid(s) && Rooted(s) && Levelled(s) && s.lvl >= 1 && Balanced(before, 0) && Balanced(body, 0)
    requires i < |s.opts| && s.opts[i].Own? && s.opts[i].def.Saved() && !s.opts[i].def.oldStyle
    requires s.opts[i].def.variable.Some?
    ensures var t := Run(parse, Push(s), before, 0);
            && i < |t.opts| && t.opts[i].def.variable == s.opts[i].def.variable && Restored(parse, t, i, body)
  {
    StepLevelled(parse, s, DoPush);
    RunLevelled(parse, Push(s), before, 0);
    assert EntryOk(s, s.opts[i]);
    RunKept(parse, Push(s), Push(s), before, 0, i);
    DoublePushRestores(parse, Run(parse, Push(s), before, 0), body, i);
  }

  /** Why one push is not enough: at level 1 the top slot of an aliased option is the shared
      one, so some body defeats the pop (by RestoredByEveryBody). */
  lemma SinglePushIsNotEnough(parse: Parser, s: State, i: nat, j: nat)
    requires Valid(s) && Rooted(s) && s.lvl == 1
    requires i < |s.opts| && s.opts[i].Own? && s.opts[i].def.Saved() && s.opts[i].def.variable.Some?
    requires j < |s.opts| && s.opts[j].Alias? && s.opts[j].of == i
    requires s.opts[i].def.variable.value in s.vars && AliasSettable(parse, s, i)
    ensures exists body :: Balanced(body, 0) && !Restored(parse, s, i, body)
  {
    assert EntryOk(s, s.opts[i]) && EntryOk(s, s.opts[j]);
    assert |s.opts[i].chain| == 2;
    assert Shared(s, i, 1);
    RestoredByEveryBody(parse, s, i);
  }

  // ------------------------------------------------------ registration

  predicate Registrable(s: State, def: Def) {
    && (def.variable.Some? ==> def.variable.value in s.vars)
    && (def.isProfile ==> def.nosave && def.variable.None?)
  }

  /** Registration keeps the invariant.  A second option for a variable becomes an alias of
      the first one's slot, found through any aliases registered in between; at level 1
      this is the slot of level 1, which no pop ever frees. */
  lemma RegisterValid(s: State, def: Def)
    requires Valid(s) && Registrable(s, def)
    ensures Valid(Register(s, def))
    ensures s.lvl == 1 && Rooted(s) ==> Rooted(Register(s, def))
    ensures s.lvl == 1 && Levelled(s) ==> Levelled(Register(s, def))
  {
    RegisterNewEntry(s, def);
    RegisterOldEntries(s, def);
    if s.lvl == 1 && Rooted(s) {
      RegisterRooted(s, def);
    }
  }

  lemma RegisterRooted(s: State, def: Def)
    requires Valid(s) && s.lvl == 1 && Rooted(s)
    ensures Rooted(Register(s, def))
  {
    if def.variable.Some? && Holder(s.opts, def.variable.value).Some? {
      assert EntryOk(s, s.opts[Holder(s.opts, def.variable.value).value]);
    }
  }

  lemma RegisterOldEntries(s: State, def: Def)
    requires Valid(s) && Registrable(s, def)
    ensures var t := Register(s, def);
            && |t.opts| == |s.opts| + 1
            && (forall i :: 0 <= i < |s.opts| ==> t.opts[i] == s.opts[i] && EntryOk(t, t.opts[i]))
  {
    forall i | 0 <= i < |s.opts| ensures EntryOk(Register(s, def), s.opts[i]) { assert EntryOk(s, s.opts[i]); }
  }

  lemma RegisterNewEntry(s: State, def: Def)
    requires Valid(s) && Registrable(s, def)
    ensures EntryOk(Register(s, def), Register(s, def).opts[|s.opts|])
  {
    if def.variable.Some? && Holder(s.opts, def.variable.value).Some? {
      var h := Holder(s.opts, def.variable.value).value;
      assert EntryOk(s, s.opts[h]);
    }
  }
}
