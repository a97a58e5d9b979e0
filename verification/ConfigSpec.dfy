/** The option context stack of m_config.c, on values.

    A configuration is a list of registered options.  An option that owns its
    variable carries a chain of save slots, listed here bottom first: the slot
    of the defaults, the slot made at registration, one more for every push that
    saved it.  An option registered for a variable that already has an owner is
    an alias: it keeps a pointer to one slot of the owner's chain and is skipped
    by push and pop. */
module ConfigSpec {
  import opened Wrappers
  import opened OptionCodes

  /** The contents of an option variable or of a save slot.  `Names` is what the
      "profile" option parses its parameter to. */
  datatype Value = Raw(bytes: seq<int>) | Names(list: seq<string>)

  const MAX_PROFILE_DEPTH := 20

  datatype Mode = ConfigFile | CommandLine | PreParse

  /** The static description of an option: m_option_t and its type's flags. */
  datatype Def = Def(name: string, variable: Option<nat>, global: bool, nosave: bool, oldStyle: bool,
                     nocfg: bool, nocmd: bool, preparse: bool, wildcard: bool, isProfile: bool)
  {
    predicate Saved() { !global && !nosave }
  }

  /** Result of an option type's parse callback: return code and what is left in
      `dst`; the parse_profile callback fills `dst` even when it reports an error. */
  datatype Parsed = Parsed(code: int, out: Value)

  /** parse(option, name, parameter, contents of dst or None for a mere check) */
  type Parser = (Def, string, Option<string>, Option<Value>) -> Parsed

  datatype Slot = Slot(lvl: nat, data: Value)

  datatype Entry =
    | Own(def: Def, isSet: bool, chain: seq<Slot>)
    | Alias(def: Def, isSet: bool, of: nat, pos: nat)

  datatype Profile = Profile(name: string, opts: seq<(string, Option<string>)>)

  /** `opts` is in order of registration: the head of the C list is the last element. */
  datatype State = State(lvl: nat, mode: Mode, depth: nat, opts: seq<Entry>,
                         vars: map<nat, Value>, profiles: seq<Profile>)

  function Top(c: seq<Slot>): Slot
    requires c != []
  {
    c[|c| - 1]
  }

  // ---------------------------------------------------------------- invariant

  predicate ChainOk(c: seq<Slot>) {
    && c != []
    && c[0].lvl == 0
    && (forall j, k :: 0 <= j < k < |c| ==> c[j].lvl < c[k].lvl)
  }

  predicate EntryOk(s: State, e: Entry) {
    && (e.def.variable.Some? ==> e.def.variable.value in s.vars)
    && (e.def.isProfile ==> e.def.nosave && e.def.variable.None?)
    && match e
       case Own(def, _, chain) => ChainOk(chain) && (def.Saved() ==> Top(chain).lvl <= s.lvl)
       case Alias(def, _, of, pos) =>
         && of < |s.opts| && s.opts[of].Own?
         && def.variable.Some? && s.opts[of].def.variable == def.variable
         && pos < |s.opts[of].chain|
  }

  /** What every operation keeps: slot levels strictly decrease from the top of a
      chain down to the defaults at level 0, no saved option has a slot above the current level,
      every alias points at a live slot of its owner, and no variable has two owners. */
  predicate Valid(s: State) {
    && s.lvl >= 1
    && (forall i :: 0 <= i < |s.opts| ==> EntryOk(s, s.opts[i]))
    && (forall i, j :: 0 <= i < j < |s.opts| && s.opts[i].Own? && s.opts[j].Own? && s.opts[i].def.variable.Some?
          ==> s.opts[i].def.variable != s.opts[j].def.variable)
  }

  /** Slot k of option i is also the slot of some alias. */
  ghost predicate Shared(s: State, i: nat, k: nat) {
    exists j :: 0 <= j < |s.opts| && s.opts[j].Alias? && s.opts[j].of == i && s.opts[j].pos == k
  }

  /** Every option was registered at level 1, before any push: so are all options of
      the two programs. */
  predicate Rooted(s: State) {
    forall i :: 0 <= i < |s.opts| ==>
      match s.opts[i]
      case Own(def, _, chain) => |chain| >= 2 && chain[1].lvl == 1 && (!def.Saved() ==> |chain| == 2)
      case Alias(_, _, _, pos) => pos == 1
  }

  // ------------------------------------------------------------- registration

  /** Where m_config_add_option's search for the same variable stops: the option
      registered last among those with this variable. */
  function Holder(opts: seq<Entry>, v: nat): (r: Option<nat>)
    ensures r.Some? ==> r.value < |opts| && opts[r.value].def.variable == Some(v)
    ensures r.Some? ==> forall i :: r.value < i < |opts| ==> opts[i].def.variable != Some(v)
    ensures r.None? ==> forall i :: 0 <= i < |opts| ==> opts[i].def.variable != Some(v)
  {
    if opts == [] then None
    else if opts[|opts| - 1].def.variable == Some(v) then Some(|opts| - 1)
    else Holder(opts[..|opts| - 1], v)
  }

  function Current(s: State, def: Def): Value {
    if def.variable.Some? && def.variable.value in s.vars then s.vars[def.variable.value] else Raw([])
  }

  function Register(s: State, def: Def): (r: State)
    requires Valid(s)
  {
    var holder := if def.variable.Some? then Holder(s.opts, def.variable.value) else None;
    var e :=
      if holder.Some? then
        match s.opts[holder.value]
        case Own(_, _, chain) => Alias(def, false, holder.value, |chain| - 1)
        case Alias(_, _, of, pos) => Alias(def, false, of, pos)
      else Own(def, false, [Slot(0, Current(s, def)), Slot(s.lvl, Current(s, def))]);
    s.(opts := s.opts + [e])
  }

  // ------------------------------------------------------------- push and pop

  /** Does a push make a new slot for this option? */
  predicate Pushed(e: Entry) {
    e.Own? && e.def.Saved() && !(e.def.oldStyle && !e.isSet)
  }

  function PushEntry(e: Entry, vars: map<nat, Value>, lvl: nat): Entry {
    if Pushed(e) && e.chain != [] then
      var top := if e.def.variable.Some? && e.def.variable.value in vars
                 then vars[e.def.variable.value] else Top(e.chain).data;
      Own(e.def, false, e.chain[..|e.chain| - 1] + [Slot(Top(e.chain).lvl, top), Slot(lvl, top)])
    else e
  }

  function PushAll(s: State): State {
    s.(lvl := s.lvl + 1, opts := seq(|s.opts|, i requires 0 <= i < |s.opts| => PushEntry(s.opts[i], s.vars, s.lvl + 1)))
  }

  function Push(s: State): (r: State)
    requires Valid(s)
    ensures Valid(r) && (Rooted(s) ==> Rooted(r))
  {
    PushValid(s);
    PushAll(s)
  }

  lemma PushValid(s: State)
    requires Valid(s)
    ensures Valid(PushAll(s)) && (Rooted(s) ==> Rooted(PushAll(s)))
  {
    var t := PushAll(s);
    forall i | 0 <= i < |t.opts|
      ensures EntryOk(t, t.opts[i])
    {
      assert EntryOk(s, s.opts[i]);
      if s.opts[i].Alias? {
        assert EntryOk(s, s.opts[s.opts[i].of]);
      }
    }
  }

  /** What is left of a chain after freeing every slot of level `lvl` or more. */
  function Popped(c: seq<Slot>, lvl: nat): (r: seq<Slot>)
    ensures r <= c
    ensures r != [] ==> Top(r).lvl < lvl
    ensures |r| < |c| ==> c[|r|].lvl >= lvl
  {
    if c != [] && Top(c).lvl >= lvl then Popped(c[..|c| - 1], lvl) else c
  }

  function PopEntry(e: Entry, lvl: nat): Entry {
    if e.Own? && e.def.Saved() then e.(chain := Popped(e.chain, lvl)) else e
  }

  function PopVar(e: Entry, vars: map<nat, Value>, lvl: nat): map<nat, Value> {
    if e.Own? && e.def.Saved() && e.def.variable.Some? then
      var left := Popped(e.chain, lvl);
      if left != [] && |left| < |e.chain| then vars[e.def.variable.value := Top(left).data] else vars
    else vars
  }

  /** The variables after the pop loop, which starts at the option registered last. */
  function PopVars(opts: seq<Entry>, vars: map<nat, Value>, lvl: nat): map<nat, Value> {
    if opts == [] then vars
    else PopVars(opts[..|opts| - 1], PopVar(opts[|opts| - 1], vars, lvl), lvl)
  }

  function Pop(s: State): State
    requires s.lvl >= 1
  {
    s.(lvl := s.lvl - 1,
       opts := seq(|s.opts|, i requires 0 <= i < |s.opts| => PopEntry(s.opts[i], s.lvl)),
       vars := PopVars(s.opts, s.vars, s.lvl))
  }

  /** No alias's slot is freed by a pop from this state. */
  predicate AliasesSurvive(s: State)
    requires Valid(s)
  {
    forall i :: 0 <= i < |s.opts| && s.opts[i].Alias? && s.opts[s.opts[i].of].def.Saved()
      ==> s.opts[s.opts[i].of].chain[s.opts[i].pos].lvl < s.lvl
  }

  // --------------------------------------------------------- setting an option

  function Lower(c: char): char {
    if 'A' <= c <= 'Z' then (c as int + 32) as char else c
  }

  predicate SameNoCase(a: string, b: string) {
    |a| == |b| && forall i :: 0 <= i < |a| ==> Lower(a[i]) == Lower(b[i])
  }

  predicate Matches(def: Def, arg: string) {
    var l := |def.name| - 1;
    if def.wildcard && l >= 0 && def.name[l] == '*'
    then l <= |arg| && SameNoCase(def.name[..l], arg[..l])
    else SameNoCase(def.name, arg)
  }

  /** m_config_get_co: the option registered last among those matching the name. */
  function Find(opts: seq<Entry>, arg: string): (r: Option<nat>)
    ensures r.Some? ==> r.value < |opts| && Matches(opts[r.value].def, arg)
    ensures r.Some? ==> forall i :: r.value < i < |opts| ==> !Matches(opts[i].def, arg)
    ensures r.None? ==> forall i :: 0 <= i < |opts| ==> !Matches(opts[i].def, arg)
  {
    if opts == [] then None
    else if Matches(opts[|opts| - 1].def, arg) then Some(|opts| - 1)
    else Find(opts[..|opts| - 1], arg)
  }

  /** The slot `co->slots` of option i, as (owner, position in the owner's chain). */
  function SlotOf(s: State, i: nat): (r: (nat, nat))
    requires Valid(s) && i < |s.opts|
    ensures r.0 < |s.opts| && s.opts[r.0].Own? && r.1 < |s.opts[r.0].chain|
  {
    assert EntryOk(s, s.opts[i]);
    match s.opts[i]
    case Own(_, _, chain) => (i, |chain| - 1)
    case Alias(_, _, of, pos) => (of, pos)
  }

  function PutData(s: State, o: nat, k: nat, v: Value): State
    requires o < |s.opts| && s.opts[o].Own? && k < |s.opts[o].chain|
  {
    var e := s.opts[o];
    s.(opts := s.opts[o := e.(chain := e.chain[k := e.chain[k].(data := v)])])
  }

  lemma PutDataValid(s: State, o: nat, k: nat, v: Value)
    requires Valid(s) && o < |s.opts| && s.opts[o].Own? && k < |s.opts[o].chain|
    ensures Valid(PutData(s, o, k, v))
  {
    var r := PutData(s, o, k, v);
    forall j | 0 <= j < |r.opts|
      ensures EntryOk(r, r.opts[j])
    {
      assert EntryOk(s, s.opts[j]) && EntryOk(s, s.opts[o]);
    }
  }

  lemma PutDataFrame(s: State, o: nat, k: nat, v: Value)
    requires o < |s.opts| && s.opts[o].Own? && k < |s.opts[o].chain|
    requires k == |s.opts[o].chain| - 1 || Shared(s, o, k)
    ensures Frame(s, PutData(s, o, k, v))
  {
  }

  function WriteSlot(s: State, i: nat, v: Value): (r: State)
    requires Valid(s) && i < |s.opts|
    ensures Valid(r) && Frame(s, r)
  {
    var (o, k) := SlotOf(s, i);
    assert s.opts[i].Alias? ==> Shared(s, o, k);
    PutDataValid(s, o, k, v);
    PutDataFrame(s, o, k, v);
    PutData(s, o, k, v)
  }

  function WriteVar(s: State, def: Def, v: Value): (r: State)
    requires Valid(s) && (def.variable.Some? ==> def.variable.value in s.vars)
    ensures Valid(r) && Frame(s, r)
  {
    if def.variable.Some? then
      var r := s.(vars := s.vars[def.variable.value := v]);
      assert forall j :: 0 <= j < |s.opts| ==> EntryOk(s, s.opts[j]);
      r
    else s
  }

  function PutFlag(s: State, i: nat): State
    requires i < |s.opts|
  {
    s.(opts := s.opts[i := s.opts[i].(isSet := true)])
  }

  lemma PutFlagValid(s: State, i: nat)
    requires Valid(s) && i < |s.opts|
    ensures Valid(PutFlag(s, i))
  {
    var r := PutFlag(s, i);
    forall j | 0 <= j < |r.opts|
      ensures EntryOk(r, r.opts[j])
    {
      assert EntryOk(s, s.opts[j]);
    }
  }

  lemma PutFlagFrame(s: State, i: nat)
    requires i < |s.opts|
    ensures Frame(s, PutFlag(s, i))
  {
  }

  function MarkSet(s: State, i: nat): (r: State)
    requires Valid(s) && i < |s.opts|
    ensures Valid(r) && Frame(s, r)
  {
    PutFlagValid(s, i);
    PutFlagFrame(s, i);
    PutFlag(s, i)
  }

  predicate Forbidden(s: State, def: Def) {
    (s.mode.ConfigFile? && def.nocfg) || (s.mode.CommandLine? && def.nocmd)
  }

  /** Options are skipped silently while pre-parsing unless marked for it, and a
      pre-parse option that is already set is not set again. */
  predicate Deferred(s: State, e: Entry) {
    (s.mode.PreParse? && !e.def.preparse) || (!s.mode.PreParse? && e.def.preparse && e.isSet)
  }

  function Fuel(s: State): nat {
    if s.depth > MAX_PROFILE_DEPTH then 0 else MAX_PROFILE_DEPTH + 1 - s.depth
  }

  /** m_config_parse_option. */
  function ParseOption(parse: Parser, s: State, arg: string, param: Option<string>, store: bool): (r: (State, int))
    requires Valid(s)
    ensures Valid(r.0) && Frame(s, r.0)
    decreases Fuel(s), 2, 1
  {
    var found := Find(s.opts, arg);
    if found.None? then (s, UNKNOWN)
    else
      var i := found.value;
      var e := s.opts[i];
      assert EntryOk(s, e);
      if Forbidden(s, e.def) then (s, INVALID)
      else if !store || Deferred(s, e) then (s, parse(e.def, arg, param, None).code)
      else Store(parse, s, i, arg, param)
  }

  /** Parses into the option's slot and sets the option from it. */
  function Store(parse: Parser, s: State, i: nat, arg: string, param: Option<string>): (r: (State, int))
    requires Valid(s) && i < |s.opts|
    ensures Valid(r.0) && Frame(s, r.0)
    decreases Fuel(s), 2, 0
  {
    var e := s.opts[i];
    var (o, k) := SlotOf(s, i);
    var p := parse(e.def, arg, param, Some(s.opts[o].chain[k].data));
    var s1 := WriteSlot(s, i, p.out);
    if p.code < 0 then (s1, p.code)
    else
      assert s1.opts[i].def == e.def && EntryOk(s1, s1.opts[i]);
      var s2 := if e.def.isProfile then ApplyProfiles(parse, s1, NamesIn(p.out)) else WriteVar(s1, e.def, p.out);
      FrameTrans(s, s1, s2);
      var s3 := MarkSet(s2, i);
      FrameTrans(s, s2, s3);
      (s3, p.code)
  }

  function NamesIn(v: Value): seq<string> {
    if v.Names? then v.list else []
  }

  /** set_profile: works on its own copy of the list of names. */
  function ApplyProfiles(parse: Parser, s: State, names: seq<string>): (r: State)
    requires Valid(s)
    ensures Valid(r) && Frame(s, r)
    decreases Fuel(s), 1, |names|
  {
    if names == [] then s
    else
      var p := FindProfile(s.profiles, names[0]);
      var s1 := if p.Some? then SetProfile(parse, s, p.value.opts) else s;
      var s2 := ApplyProfiles(parse, s1, names[1..]);
      FrameTrans(s, s1, s2);
      s2
  }

  /** m_config_set_profile, given the profile's options. */
  function SetProfile(parse: Parser, s: State, opts: seq<(string, Option<string>)>): (r: State)
    requires Valid(s)
    ensures Valid(r) && Frame(s, r)
    decreases Fuel(s), 0, 0
  {
    if s.depth > MAX_PROFILE_DEPTH then s
    else
      DepthOnly(s, s.depth + 1);
      var s1 := SetAll(parse, s.(depth := s.depth + 1), opts);
      DepthOnly(s1, s.depth);
      FrameDepth(s, s1, s.depth + 1);
      s1.(depth := s.depth)
  }

  function SetAll(parse: Parser, s: State, opts: seq<(string, Option<string>)>): (r: State)
    requires Valid(s)
    ensures Valid(r) && Frame(s, r)
    decreases Fuel(s), 3, |opts|
  {
    if opts == [] then s
    else
      var s1 := ParseOption(parse, s, opts[0].0, opts[0].1, true).0;
      var s2 := SetAll(parse, s1, opts[1..]);
      FrameTrans(s, s1, s2);
      s2
  }

  function FindProfile(ps: seq<Profile>, name: string): (r: Option<Profile>)
    ensures r.Some? ==> r.value in ps && r.value.name == name
    ensures r.None? ==> forall p :: p in ps ==> p.name != name
  {
    if ps == [] then None else if ps[0].name == name then Some(ps[0]) else FindProfile(ps[1..], name)
  }

  // ------------------------------------------- what setting options leaves alone

  /** Between two states only variables, SET flags, data of top slots and data of
      slots shared with an alias differ. */
  ghost predicate Frame(s: State, t: State) {
    && t.lvl == s.lvl && t.mode == s.mode && t.depth == s.depth && t.profiles == s.profiles
    && t.vars.Keys == s.vars.Keys && |t.opts| == |s.opts|
    && (forall i :: 0 <= i < |s.opts| ==> t.opts[i].def == s.opts[i].def && t.opts[i].Own? == s.opts[i].Own?)
    && (forall i :: 0 <= i < |s.opts| && s.opts[i].Alias? ==> t.opts[i].of == s.opts[i].of && t.opts[i].pos == s.opts[i].pos)
    && (forall i :: 0 <= i < |s.opts| && s.opts[i].Own? ==> SameShape(s, t, i))
  }

  ghost predicate SameShape(s: State, t: State, i: nat)
    requires i < |s.opts| && i < |t.opts| && s.opts[i].Own? && t.opts[i].Own?
  {
    var (c, d) := (s.opts[i].chain, t.opts[i].chain);
    && |d| == |c|
    && (forall k :: 0 <= k < |c| ==> d[k].lvl == c[k].lvl)
    && (forall k :: 0 <= k < |c| - 1 && !Shared(s, i, k) ==> d[k].data == c[k].data)
  }

  lemma FrameShared(s: State, t: State, i: nat, k: nat)
    requires Frame(s, t)
    ensures Shared(s, i, k) == Shared(t, i, k)
  {
    if Shared(s, i, k) {
      var j :| 0 <= j < |s.opts| && s.opts[j].Alias? && s.opts[j].of == i && s.opts[j].pos == k;
      assert t.opts[j].Alias?;
    }
    if Shared(t, i, k) {
      var j :| 0 <= j < |t.opts| && t.opts[j].Alias? && t.opts[j].of == i && t.opts[j].pos == k;
      assert s.opts[j].Alias?;
    }
  }

  lemma FrameTrans(s: State, t: State, u: State)
    requires Frame(s, t) && Frame(t, u)
    ensures Frame(s, u)
  {
    forall i | 0 <= i < |s.opts| && s.opts[i].Own?
      ensures u.opts[i].Own? && SameShape(s, u, i)
    {
      assert SameShape(s, t, i) && t.opts[i].Own? && SameShape(t, u, i);
      forall k | 0 <= k < |s.opts[i].chain| - 1 && !Shared(s, i, k)
        ensures u.opts[i].chain[k].data == s.opts[i].chain[k].data
      {
        FrameShared(s, t, i, k);
      }
    }
  }

  lemma DepthOnly(s: State, d: nat)
    requires Valid(s)
    ensures Valid(s.(depth := d))
  {
    assert forall i :: 0 <= i < |s.opts| ==> EntryOk(s, s.opts[i]);
  }

  lemma FrameDepth(s: State, t: State, d: nat)
    requires Frame(s.(depth := d), t)
    ensures Frame(s, t.(depth := s.depth))
  {
    var s' := s.(depth := d);
    forall i | 0 <= i < |s.opts| && s.opts[i].Own?
      ensures t.opts[i].Own? && SameShape(s, t.(depth := s.depth), i)
    {
      assert SameShape(s', t, i);
      forall k: nat ensures Shared(s', i, k) == Shared(s, i, k) { SameOpts(s', s, i, k); }
    }
  }

  lemma SameOpts(s: State, t: State, i: nat, k: nat)
    requires s.opts == t.opts
    ensures Shared(s, i, k) == Shared(t, i, k)
  {
  }
}
