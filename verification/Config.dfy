/** m_config.c as it runs.  Save slots are cells of an explicit memory, named by address:
    a push allocates, a pop frees, `prev` and `co->slots` are addresses, and an alias holds
    the address of a cell in another option's chain.  A dangling address is one that is no
    longer a key of `cells`, so every dereference below is also proved safe. */
module Config {
  import opened Wrappers
  import opened OptionCodes
  import opened ConfigSpec
  import ConfigRestore

  /** m_config_save_slot_t */
  datatype Cell = Cell(prev: Option<nat>, lvl: nat, data: Value)

  /** m_config_option_t; the list of options is kept in order of registration. */
  datatype OptionEntry = OptionEntry(def: Def, slots: nat, isSet: bool, isAlias: bool)

  /** Where things are: the addresses of option i's own slots, bottom first; the owner and
      height of each live cell; for an alias the owner and height of the cell it points at. */
  datatype Layout = Layout(chains: seq<seq<nat>>, place: map<nat, (nat, nat)>, target: seq<(nat, nat)>)

  type Cells = map<nat, Cell>

  ghost predicate CellOk(cells: Cells, brk: nat, l: Layout, i: nat, k: nat)
    requires i < |l.chains| && k < |l.chains[i]|
  {
    var a := l.chains[i][k];
    && a in cells && a < brk && a in l.place && l.place[a] == (i, k)
    && cells[a].prev == if k == 0 then None else Some(l.chains[i][k - 1])
  }

  ghost predicate EntryShape(opts: seq<OptionEntry>, l: Layout, i: nat)
    requires i < |opts| == |l.chains| == |l.target|
  {
    if opts[i].isAlias then
      var (o, k) := l.target[i];
      && l.chains[i] == [] && o < |opts| && !opts[o].isAlias && k < |l.chains[o]| && opts[i].slots == l.chains[o][k]
    else
      l.chains[i] != [] && opts[i].slots == l.chains[i][|l.chains[i]| - 1]
  }

  /** The addresses are used as the C code expects: chains linked through `prev` to the
      slot of the defaults, disjoint, nothing freed still pointed at. */
  ghost predicate Shape(opts: seq<OptionEntry>, cells: Cells, brk: nat, l: Layout) {
    && |opts| == |l.chains| == |l.target|
    && (forall i, k :: 0 <= i < |l.chains| && 0 <= k < |l.chains[i]| ==> CellOk(cells, brk, l, i, k))
    && (forall i :: 0 <= i < |opts| ==> EntryShape(opts, l, i))
  }

  ghost function AbsSlot(cells: Cells, a: nat): Slot {
    if a in cells then Slot(cells[a].lvl, cells[a].data) else Slot(0, Raw([]))
  }

  ghost function AbsChain(cells: Cells, c: seq<nat>): (r: seq<Slot>)
    ensures |r| == |c| && forall k :: 0 <= k < |c| ==> r[k] == AbsSlot(cells, c[k])
  {
    seq(|c|, k requires 0 <= k < |c| => AbsSlot(cells, c[k]))
  }

  ghost function AbsEntry(o: OptionEntry, cells: Cells, chain: seq<nat>, target: (nat, nat)): Entry {
    if o.isAlias then Alias(o.def, o.isSet, target.0, target.1) else Own(o.def, o.isSet, AbsChain(cells, chain))
  }

  ghost function AbsOpts(opts: seq<OptionEntry>, cells: Cells, l: Layout): (r: seq<Entry>)
    requires |opts| == |l.chains| == |l.target|
    ensures |r| == |opts|
    ensures forall i :: 0 <= i < |opts| ==> r[i] == AbsEntry(opts[i], cells, l.chains[i], l.target[i])
  {
    seq(|opts|, i requires 0 <= i < |opts| => AbsEntry(opts[i], cells, l.chains[i], l.target[i]))
  }

  // ------------------------------------------------------------ single memory updates

  /** A memory that keeps the cells of option j's chain keeps the chain's value. */
  lemma ChainKept(cells: Cells, cells': Cells, brk: nat, l: Layout, j: nat)
    requires j < |l.chains| && forall m :: 0 <= m < |l.chains[j]| ==> CellOk(cells, brk, l, j, m)
    requires forall a :: a in cells && a in l.place && l.place[a].0 == j ==> a in cells' && cells'[a] == cells[a]
    ensures AbsChain(cells', l.chains[j]) == AbsChain(cells, l.chains[j])
  {
    forall m | 0 <= m < |l.chains[j]|
      ensures AbsSlot(cells', l.chains[j][m]) == AbsSlot(cells, l.chains[j][m])
    {
      assert CellOk(cells, brk, l, j, m);
    }
  }

  lemma OneEntryChanged(opts: seq<OptionEntry>, cells: Cells, l: Layout,
                        opts': seq<OptionEntry>, cells': Cells, l': Layout, n: nat)
    requires |opts| == |l.chains| == |l.target| == |opts'| == |l'.chains| && n < |opts|
    requires l'.target == l.target
    requires forall j :: 0 <= j < |opts| && j != n ==>
               opts'[j] == opts[j] && AbsChain(cells', l'.chains[j]) == AbsChain(cells, l.chains[j])
    ensures AbsOpts(opts', cells', l')
            == AbsOpts(opts, cells, l)[n := AbsEntry(opts'[n], cells', l'.chains[n], l.target[n])]
  {
  }

  lemma DataWrittenShape(opts: seq<OptionEntry>, cells: Cells, brk: nat, l: Layout, i: nat, k: nat, v: Value)
    requires Shape(opts, cells, brk, l) && i < |opts| && k < |l.chains[i]|
    ensures l.chains[i][k] in cells
    ensures Shape(opts, cells[l.chains[i][k] := cells[l.chains[i][k]].(data := v)], brk, l)
  {
    assert CellOk(cells, brk, l, i, k);
    var a := l.chains[i][k];
    var cells' := cells[a := cells[a].(data := v)];
    forall j, m | 0 <= j < |l.chains| && 0 <= m < |l.chains[j]|
      ensures CellOk(cells', brk, l, j, m)
    {
      assert CellOk(cells, brk, l, j, m);
    }
  }

  /** Writing the data of a slot changes that slot of its owner's entry and nothing else. */
  lemma DataWritten(opts: seq<OptionEntry>, cells: Cells, brk: nat, l: Layout, i: nat, k: nat, v: Value)
    requires Shape(opts, cells, brk, l) && i < |opts| && !opts[i].isAlias && k < |l.chains[i]|
    ensures l.chains[i][k] in cells
    ensures var cells' := cells[l.chains[i][k] := cells[l.chains[i][k]].(data := v)];
            var e := AbsOpts(opts, cells, l)[i];
            && Shape(opts, cells', brk, l)
            && AbsOpts(opts, cells', l)
               == AbsOpts(opts, cells, l)[i := e.(chain := e.chain[k := e.chain[k].(data := v)])]
  {
    DataWrittenShape(opts, cells, brk, l, i, k, v);
    var a := l.chains[i][k];
    var cells' := cells[a := cells[a].(data := v)];
    assert CellOk(cells, brk, l, i, k);
    forall m | 0 <= m < |l.chains[i]| && m != k
      ensures AbsSlot(cells', l.chains[i][m]) == AbsSlot(cells, l.chains[i][m])
    {
      assert CellOk(cells, brk, l, i, m);
    }
    assert AbsChain(cells', l.chains[i]) == AbsChain(cells, l.chains[i])[k := Slot(cells[a].lvl, v)];
    forall j | 0 <= j < |opts| && j != i
      ensures AbsChain(cells', l.chains[j]) == AbsChain(cells, l.chains[j])
    {
      ChainKept(cells, cells', brk, l, j);
    }
    OneEntryChanged(opts, cells, l, opts, cells', l, i);
  }

  ghost function Grown(l: Layout, i: nat, a: nat): Layout
    requires i < |l.chains|
  {
    Layout(l.chains[i := l.chains[i] + [a]], l.place[a := (i, |l.chains[i]|)], l.target)
  }

  lemma SlotAddedShape(opts: seq<OptionEntry>, cells: Cells, brk: nat, l: Layout, i: nat, o: OptionEntry, c: Cell)
    requires Shape(opts, cells, brk, l) && i < |opts| && !opts[i].isAlias
    requires !o.isAlias && o.slots == brk && c.prev == Some(opts[i].slots)
    ensures Shape(opts[i := o], cells[brk := c], brk + 1, Grown(l, i, brk))
  {
    var (opts', cells', brk', l') := (opts[i := o], cells[brk := c], brk + 1, Grown(l, i, brk));
    assert EntryShape(opts, l, i);
    forall j, m | 0 <= j < |l.chains| && 0 <= m < |l'.chains[j]|
      ensures CellOk(cells', brk', l', j, m)
    {
      if m < |l.chains[j]| { assert CellOk(cells, brk, l, j, m); }
    }
    forall j | 0 <= j < |opts|
      ensures EntryShape(opts', l', j)
    {
      assert EntryShape(opts, l, j);
      if opts[j].isAlias { assert EntryShape(opts, l, l.target[j].0); }
    }
  }

  /** A fresh slot on top of option i's chain. */
  lemma SlotAdded(opts: seq<OptionEntry>, cells: Cells, brk: nat, l: Layout, i: nat, o: OptionEntry, c: Cell)
    requires Shape(opts, cells, brk, l) && i < |opts| && !opts[i].isAlias
    requires !o.isAlias && o.slots == brk && c.prev == Some(opts[i].slots)
    ensures Shape(opts[i := o], cells[brk := c], brk + 1, Grown(l, i, brk))
    ensures var e := AbsOpts(opts, cells, l)[i];
            AbsOpts(opts[i := o], cells[brk := c], Grown(l, i, brk))
            == AbsOpts(opts, cells, l)[i := Own(o.def, o.isSet, e.chain + [Slot(c.lvl, c.data)])]
  {
    SlotAddedShape(opts, cells, brk, l, i, o, c);
    var (opts', cells', l') := (opts[i := o], cells[brk := c], Grown(l, i, brk));
    forall j | 0 <= j < |opts|
      ensures AbsChain(cells', l.chains[j]) == AbsChain(cells, l.chains[j])
    {
      forall m | 0 <= m < |l.chains[j]|
        ensures AbsSlot(cells', l.chains[j][m]) == AbsSlot(cells, l.chains[j][m])
      {
        assert CellOk(cells, brk, l, j, m);
      }
    }
    assert AbsChain(cells', l'.chains[i]) == AbsChain(cells, l.chains[i]) + [Slot(c.lvl, c.data)];
    OneEntryChanged(opts, cells, l, opts', cells', l', i);
  }

  ghost function Shrunk(l: Layout, i: nat): Layout
    requires i < |l.chains| && l.chains[i] != []
  {
    Layout(l.chains[i := l.chains[i][..|l.chains[i]| - 1]], l.place, l.target)
  }

  lemma SlotFreedShape(opts: seq<OptionEntry>, cells: Cells, brk: nat, l: Layout, i: nat)
    requires Shape(opts, cells, brk, l) && i < |opts| && !opts[i].isAlias && |l.chains[i]| >= 2
    requires forall j :: 0 <= j < |opts| && opts[j].isAlias ==> l.target[j] != (i, |l.chains[i]| - 1)
    ensures opts[i].slots in cells && cells[opts[i].slots].prev == Some(l.chains[i][|l.chains[i]| - 2])
    ensures Shape(opts[i := opts[i].(slots := l.chains[i][|l.chains[i]| - 2])], cells - {opts[i].slots}, brk, Shrunk(l, i))
  {
    var h := |l.chains[i]| - 1;
    assert EntryShape(opts, l, i) && CellOk(cells, brk, l, i, h);
    var (opts', cells', l') := (opts[i := opts[i].(slots := l.chains[i][h - 1])], cells - {opts[i].slots}, Shrunk(l, i));
    forall j, m | 0 <= j < |l.chains| && 0 <= m < |l'.chains[j]|
      ensures CellOk(cells', brk, l', j, m)
    {
      assert CellOk(cells, brk, l, j, m);
    }
    forall j | 0 <= j < |opts|
      ensures EntryShape(opts', l', j)
    {
      assert EntryShape(opts, l, j);
      if opts[j].isAlias { assert EntryShape(opts, l, l.target[j].0); }
    }
  }

  /** Freeing the top slot of option i's chain, which no alias points at. */
  lemma SlotFreed(opts: seq<OptionEntry>, cells: Cells, brk: nat, l: Layout, i: nat)
    requires Shape(opts, cells, brk, l) && i < |opts| && !opts[i].isAlias && |l.chains[i]| >= 2
    requires forall j :: 0 <= j < |opts| && opts[j].isAlias ==> l.target[j] != (i, |l.chains[i]| - 1)
    ensures opts[i].slots in cells && cells[opts[i].slots].prev == Some(l.chains[i][|l.chains[i]| - 2])
    ensures var opts' := opts[i := opts[i].(slots := l.chains[i][|l.chains[i]| - 2])];
            var cells' := cells - {opts[i].slots};
            var e := AbsOpts(opts, cells, l)[i];
            && Shape(opts', cells', brk, Shrunk(l, i))
            && AbsOpts(opts', cells', Shrunk(l, i))
               == AbsOpts(opts, cells, l)[i := e.(chain := e.chain[..|l.chains[i]| - 1])]
  {
    SlotFreedShape(opts, cells, brk, l, i);
    var h := |l.chains[i]| - 1;
    assert EntryShape(opts, l, i) && CellOk(cells, brk, l, i, h);
    var (opts', cells', l') := (opts[i := opts[i].(slots := l.chains[i][h - 1])], cells - {opts[i].slots}, Shrunk(l, i));
    forall j, m | 0 <= j < |l.chains| && 0 <= m < |l'.chains[j]|
      ensures AbsSlot(cells', l.chains[j][m]) == AbsSlot(cells, l.chains[j][m])
    {
      assert CellOk(cells, brk, l, j, m);
    }
    assert AbsChain(cells', l'.chains[i]) == AbsChain(cells, l.chains[i])[..h];
    OneEntryChanged(opts, cells, l, opts', cells', l', i);
  }

  ghost function WithOwn(l: Layout, a: nat): Layout {
    Layout(l.chains + [[a]], l.place[a := (|l.chains|, 0)], l.target + [(0, 0)])
  }

  ghost function WithAlias(l: Layout, t: (nat, nat)): Layout {
    Layout(l.chains + [[]], l.place, l.target + [t])
  }

  /** A new option with a slot for the defaults. */
  lemma OwnAdded(opts: seq<OptionEntry>, cells: Cells, brk: nat, l: Layout, o: OptionEntry, c: Cell)
    requires Shape(opts, cells, brk, l) && !o.isAlias && o.slots == brk && c.prev == None
    ensures Shape(opts + [o], cells[brk := c], brk + 1, WithOwn(l, brk))
    ensures AbsOpts(opts + [o], cells[brk := c], WithOwn(l, brk))
            == AbsOpts(opts, cells, l) + [Own(o.def, o.isSet, [Slot(c.lvl, c.data)])]
  {
    var (opts', cells', brk', l') := (opts + [o], cells[brk := c], brk + 1, WithOwn(l, brk));
    forall j, m | 0 <= j < |l'.chains| && 0 <= m < |l'.chains[j]|
      ensures CellOk(cells', brk', l', j, m)
    {
      if j < |l.chains| { assert CellOk(cells, brk, l, j, m); }
    }
    forall j | 0 <= j < |opts'|
      ensures EntryShape(opts', l', j)
    {
      if j < |opts| { assert EntryShape(opts, l, j); }
    }
    forall j | 0 <= j < |opts|
      ensures AbsChain(cells', l.chains[j]) == AbsChain(cells, l.chains[j])
    {
      forall m | 0 <= m < |l.chains[j]|
        ensures AbsSlot(cells', l.chains[j][m]) == AbsSlot(cells, l.chains[j][m])
      {
        assert CellOk(cells, brk, l, j, m);
      }
    }
    assert AbsChain(cells', [brk]) == [Slot(c.lvl, c.data)];
    assert l'.chains[|opts|] == [brk];
  }

  /** A new option that shares slot k of option i. */
  lemma AliasAdded(opts: seq<OptionEntry>, cells: Cells, brk: nat, l: Layout, o: OptionEntry, i: nat, k: nat)
    requires Shape(opts, cells, brk, l) && o.isAlias && i < |opts| && !opts[i].isAlias
    requires k < |l.chains[i]| && o.slots == l.chains[i][k]
    ensures Shape(opts + [o], cells, brk, WithAlias(l, (i, k)))
    ensures AbsOpts(opts + [o], cells, WithAlias(l, (i, k)))
            == AbsOpts(opts, cells, l) + [Alias(o.def, o.isSet, i, k)]
  {
    var (opts', l') := (opts + [o], WithAlias(l, (i, k)));
    forall j, m | 0 <= j < |l'.chains| && 0 <= m < |l'.chains[j]|
      ensures CellOk(cells, brk, l', j, m)
    {
      assert CellOk(cells, brk, l, j, m);
    }
    forall j | 0 <= j < |opts'|
      ensures EntryShape(opts', l', j)
    {
      if j < |opts| { assert EntryShape(opts, l, j); }
    }
  }

  class MConfig {
    const parse: Parser
    var opts: seq<OptionEntry>
    var lvl: nat
    var mode: Mode
    var depth: nat
    var vars: map<nat, Value>
    var profiles: seq<Profile>
    var cells: Cells
    var brk: nat
    ghost var layout: Layout

    ghost predicate Valid()
      reads this
    {
      Shape(opts, cells, brk, layout) && ConfigSpec.Valid(Abs())
    }

    ghost function Abs(): (s: State)
      requires Shape(opts, cells, brk, layout)
      reads this
    {
      State(lvl, mode, depth, AbsOpts(opts, cells, layout), vars, profiles)
    }

    constructor (parse: Parser, vars: map<nat, Value>, profiles: seq<Profile>)
      ensures Valid() && Abs() == State(1, CommandLine, 0, [], vars, profiles) && this.parse == parse
    {
      this.parse, this.vars, this.profiles := parse, vars, profiles;
      opts, lvl, mode, depth, cells, brk := [], 1, CommandLine, 0, map[], 0;
      layout := Layout([], map[], []);
    }

    // ---------------------------------------------------------- registration

    /** m_config_add_option for an option without children. */
    method Register(def: Def)
      requires Valid() && ConfigRestore.Registrable(Abs(), def)
      modifies this
      ensures Valid() && Abs() == ConfigSpec.Register(old(Abs()), def)
    {
      ghost var s := Abs();
      ConfigRestore.RegisterValid(s, def);
      var holder := None;
      if def.variable.Some? {
        holder := FindHolder(def.variable.value);
      }
      if holder.Some? {
        AddAlias(def, holder.value);
      } else {
        AddOwn(def, if def.variable.Some? && def.variable.value in vars then vars[def.variable.value] else Raw([]));
      }
      assert Abs() == ConfigSpec.Register(s, def);
    }

    /** A new option for a variable that has one already shares that one's top slot pointer. */
    method AddAlias(def: Def, i: nat)
      requires Shape(opts, cells, brk, layout) && i < |opts|
      modifies `opts, `layout
      ensures Shape(opts, cells, brk, layout)
      ensures var es := old(AbsOpts(opts, cells, layout));
              && (es[i].Own? ==> es[i].chain != [])
              && AbsOpts(opts, cells, layout)
                 == es + [if es[i].Own? then Alias(def, false, i, |es[i].chain| - 1)
                          else Alias(def, false, es[i].of, es[i].pos)]
    {
      ghost var t := if opts[i].isAlias then layout.target[i] else (i, |layout.chains[i]| - 1);
      assert EntryShape(opts, layout, i);
      var co := OptionEntry(def, opts[i].slots, false, true);
      AliasAdded(opts, cells, brk, layout, co, t.0, t.1);
      opts, layout := opts + [co], WithAlias(layout, t);
    }

    /** An option with a slot for the defaults and one of the current level. */
    method AddOwn(def: Def, value: Value)
      requires Shape(opts, cells, brk, layout)
      modifies `opts, `cells, `brk, `layout
      ensures Shape(opts, cells, brk, layout)
      ensures AbsOpts(opts, cells, layout)
              == old(AbsOpts(opts, cells, layout)) + [Own(def, false, [Slot(0, value), Slot(lvl, value)])]
    {
      ghost var es := AbsOpts(opts, cells, layout);
      var sl := Cell(None, 0, value);
      var co := OptionEntry(def, brk, false, false);
      OwnAdded(opts, cells, brk, layout, co, sl);
      opts, cells, brk, layout := opts + [co], cells[brk := sl], brk + 1, WithOwn(layout, brk);
      assert AbsOpts(opts, cells, layout) == es + [Own(def, false, [Slot(0, value)])];
      AddSlot(|opts| - 1);
      assert [Slot(0, value)] + [Slot(lvl, value)] == [Slot(0, value), Slot(lvl, value)];
    }

    /** The search for an option with the same variable, from the head of the list. */
    method FindHolder(v: nat) returns (r: Option<nat>)
      requires Shape(opts, cells, brk, layout)
      ensures r == Holder(AbsOpts(opts, cells, layout), v)
    {
      ghost var es := AbsOpts(opts, cells, layout);
      var n := |opts|;
      assert es[..n] == es;
      while n > 0
        invariant 0 <= n <= |opts| && Holder(es[..n], v) == Holder(es, v)
      {
        n := n - 1;
        assert es[..n + 1][..n] == es[..n];
        if opts[n].def.variable == Some(v) { return Some(n); }
      }
      return None;
    }

    method Push()
      requires Valid()
      modifies this
      ensures Valid() && Abs() == ConfigSpec.Push(old(Abs()))
    {
      ghost var s := Abs();
      assert ConfigSpec.Valid(s);
      lvl := lvl + 1;
      assert Abs() == s.(lvl := lvl);
      PushOptions(s);
      assert Abs() == ConfigSpec.Push(s);
    }

    method PushOptions(ghost s: State)
      requires Shape(opts, cells, brk, layout) && Abs() == s.(lvl := lvl) && lvl == s.lvl + 1
      modifies `opts, `cells, `brk, `layout
      ensures Shape(opts, cells, brk, layout) && Abs() == PushAll(s)
    {
      hide Shape, AbsChain, AbsEntry, PushEntry;
      ShapeSizes(opts, cells, brk, layout);
      var n := |opts|;
      ghost var after := PushAll(s).opts;
      while n > 0
        invariant 0 <= n <= |opts| == |s.opts| && Shape(opts, cells, brk, layout)
        invariant |opts| == |layout.chains| == |layout.target|
        invariant AbsOpts(opts, cells, layout) == s.opts[..n] + after[n..]
      {
        n := n - 1;
        PushOption(n);
        ShapeSizes(opts, cells, brk, layout);
        SplitMoved(s.opts, after, n);
      }
    }

    /** One turn of the push loop. */
    method PushOption(n: nat)
      requires Shape(opts, cells, brk, layout) && n < |opts|
      modifies `opts, `cells, `brk, `layout
      ensures Shape(opts, cells, brk, layout)
      ensures AbsOpts(opts, cells, layout)
              == old(AbsOpts(opts, cells, layout))[n := PushEntry(old(AbsOpts(opts, cells, layout)[n]), vars, lvl)]
    {
      hide Shape, AbsChain;
      ShapeSizes(opts, cells, brk, layout);
      var co := opts[n];
      if co.def.global || co.def.nosave { return; }
      if co.def.oldStyle && !co.isSet { return; }
      if co.isAlias { return; }
      ghost var e := AbsOpts(opts, cells, layout)[n];
      ghost var h := |e.chain| - 1;
      OwnEntry(opts, cells, brk, layout, n);
      // update the current status
      if co.def.variable.Some? && co.def.variable.value in vars {
        WriteData(co.slots, vars[co.def.variable.value], n, h);
      }
      AddSlot(n);
      assert AbsOpts(opts, cells, layout)[n].chain == PushEntry(e, vars, lvl).chain;
    }

    /** Writes the data of the slot at height k of option i's chain. */
    method WriteData(slot: nat, v: Value, ghost i: nat, ghost k: nat)
      requires Shape(opts, cells, brk, layout) && i < |opts| && !opts[i].isAlias
      requires k < |layout.chains[i]| && slot == layout.chains[i][k]
      modifies `cells
      ensures Shape(opts, cells, brk, layout)
      ensures var e := old(AbsOpts(opts, cells, layout))[i];
              AbsOpts(opts, cells, layout)
              == old(AbsOpts(opts, cells, layout))[i := e.(chain := e.chain[k := e.chain[k].(data := v)])]
      ensures slot in cells && cells[slot].data == v
    {
      DataWritten(opts, cells, brk, layout, i, k, v);
      cells := cells[slot := cells[slot].(data := v)];
    }

    /** Allocates a slot of the current level with a copy of the top slot's data, and resets the SET flag. */
    method AddSlot(n: nat)
      requires Shape(opts, cells, brk, layout) && n < |opts| && !opts[n].isAlias
      modifies `opts, `cells, `brk, `layout
      ensures Shape(opts, cells, brk, layout)
      ensures var e := old(AbsOpts(opts, cells, layout))[n];
              e.chain != [] &&
              AbsOpts(opts, cells, layout)
              == old(AbsOpts(opts, cells, layout))[n := Own(e.def, false, e.chain + [Slot(lvl, Top(e.chain).data)])]
    {
      var co := opts[n];
      ghost var h := |layout.chains[n]| - 1;
      assert co.slots == layout.chains[n][h] by { assert EntryShape(opts, layout, n); }
      assert co.slots in cells by { assert CellOk(cells, brk, layout, n, h); }
      var slot := Cell(Some(co.slots), lvl, cells[co.slots].data);
      co := co.(slots := brk, isSet := false);
      SlotAdded(opts, cells, brk, layout, n, co, slot);
      opts, cells, brk, layout := opts[n := co], cells[brk := slot], brk + 1, Grown(layout, n, brk);
    }

    // ------------------------------------------------------------------- pop

    method Pop()
      requires Valid() && lvl >= 2 && AliasesSurvive(Abs())
      modifies this
      ensures Valid() && Abs() == ConfigSpec.Pop(old(Abs()))
    {
      ghost var s := Abs();
      ConfigRestore.PopValid(s);
      forall i | 0 <= i < |opts| ensures EntryOk(s, s.opts[i]) && s.opts[i] == AbsOpts(opts, cells, layout)[i] { }
      PopOptions(s);
      lvl := lvl - 1;
      assert Abs() == ConfigSpec.Pop(s);
    }

    /** Every chain rests on a slot of level 0 and every alias's slot stays or is below level `lvl`. */
    ghost predicate Poppable(entries: seq<Entry>)
      reads this
    {
      && (forall i :: 0 <= i < |entries| && entries[i].Own? ==> entries[i].chain != [] && entries[i].chain[0].lvl < lvl)
      && (forall i :: 0 <= i < |entries| && entries[i].Alias? ==> AliasBelow(entries, i))
    }

    ghost predicate AliasBelow(entries: seq<Entry>, i: nat)
      requires i < |entries| && entries[i].Alias?
      reads this
    {
      var (o, k) := (entries[i].of, entries[i].pos);
      && o < |entries| && entries[o].Own? && k < |entries[o].chain|
      && (entries[o].def.Saved() ==> entries[o].chain[k].lvl < lvl)
    }

    method PopOptions(ghost s: State)
      requires Shape(opts, cells, brk, layout) && Abs() == s && lvl >= 1 && Poppable(s.opts)
      modifies `opts, `cells, `layout, `vars
      ensures Shape(opts, cells, brk, layout) && Abs() == ConfigSpec.Pop(s).(lvl := lvl)
    {
      var n := |opts|;
      ghost var after := ConfigSpec.Pop(s).opts;
      assert s.opts[..n] == s.opts;
      while n > 0
        invariant 0 <= n <= |opts| == |s.opts| && Shape(opts, cells, brk, layout)
        invariant AbsOpts(opts, cells, layout) == s.opts[..n] + after[n..]
        invariant Poppable(AbsOpts(opts, cells, layout))
        invariant PopVars(s.opts[..n], vars, lvl) == PopVars(s.opts, s.vars, lvl)
      {
        n := n - 1;
        assert s.opts[..n + 1][..n] == s.opts[..n];
        PopOption(n);
        SplitMoved(s.opts, after, n);
      }
    }

    /** One turn of the pop loop. */
    method PopOption(n: nat)
      requires Shape(opts, cells, brk, layout) && n < |opts| && Poppable(AbsOpts(opts, cells, layout))
      modifies `opts, `cells, `layout, `vars
      ensures Shape(opts, cells, brk, layout) && Poppable(AbsOpts(opts, cells, layout))
      ensures AbsOpts(opts, cells, layout)
              == old(AbsOpts(opts, cells, layout))[n := PopEntry(old(AbsOpts(opts, cells, layout)[n]), lvl)]
      ensures vars == PopVar(old(AbsOpts(opts, cells, layout)[n]), old(vars), lvl)
    {
      hide Shape, AbsChain;
      ShapeSizes(opts, cells, brk, layout);
      var co := opts[n];
      if co.def.global || co.def.nosave { return; }
      if co.isAlias { return; }
      ghost var e := AbsOpts(opts, cells, layout)[n];
      var pop := FreeSlots(n);
      ShapeSizes(opts, cells, brk, layout);
      if pop > 0 && co.def.variable.Some? {
        var slot := opts[n].slots;
        assert slot in cells && cells[slot].data == Top(Popped(e.chain, lvl)).data by {
          TopCell(opts, cells, brk, layout, n);
        }
        vars := vars[co.def.variable.value := cells[slot].data];
      }
    }

    /** Frees the slots of the current level and above; at least the defaults' slot stays. */
    method FreeSlots(n: nat) returns (pop: nat)
      requires Shape(opts, cells, brk, layout) && n < |opts| && !opts[n].isAlias && opts[n].def.Saved()
      requires Poppable(AbsOpts(opts, cells, layout))
      modifies `opts, `cells, `layout
      ensures Shape(opts, cells, brk, layout) && Poppable(AbsOpts(opts, cells, layout))
      ensures var e := old(AbsOpts(opts, cells, layout))[n];
              && AbsOpts(opts, cells, layout)
                 == old(AbsOpts(opts, cells, layout))[n := e.(chain := Popped(e.chain, lvl))]
              && pop == |e.chain| - |Popped(e.chain, lvl)| && Popped(e.chain, lvl) != []
    {
      hide Shape, AbsChain;
      ShapeSizes(opts, cells, brk, layout);
      ghost var before := AbsOpts(opts, cells, layout);
      ghost var c := before[n].chain;
      pop := 0;
      TopCell(opts, cells, brk, layout, n);
      while cells[opts[n].slots].lvl >= lvl
        invariant Shape(opts, cells, brk, layout) && |opts| == |layout.chains| == |layout.target|
        invariant |opts| == |before| && !opts[n].isAlias && opts[n].def.Saved()
        invariant AbsOpts(opts, cells, layout) == before[n := before[n].(chain := c)]
        invariant c != [] && opts[n].slots in cells && Top(c) == AbsSlot(cells, opts[n].slots)
        invariant pop == |before[n].chain| - |c| && Popped(c, lvl) == Popped(before[n].chain, lvl)
        invariant Poppable(AbsOpts(opts, cells, layout))
        decreases |c|
      {
        FreeTop(n);
        ShapeSizes(opts, cells, brk, layout);
        c := c[..|c| - 1];
        pop := pop + 1;
        TopCell(opts, cells, brk, layout, n);
      }
    }

    /** Takes the top slot off the chain and frees it. */
    method FreeTop(n: nat)
      requires Shape(opts, cells, brk, layout) && n < |opts| && !opts[n].isAlias && opts[n].def.Saved()
      requires Poppable(AbsOpts(opts, cells, layout))
      requires AbsOpts(opts, cells, layout)[n].chain != [] && Top(AbsOpts(opts, cells, layout)[n].chain).lvl >= lvl
      modifies `opts, `cells, `layout
      ensures Shape(opts, cells, brk, layout) && Poppable(AbsOpts(opts, cells, layout))
      ensures var e := old(AbsOpts(opts, cells, layout))[n];
              && |e.chain| >= 2
              && AbsOpts(opts, cells, layout)
                 == old(AbsOpts(opts, cells, layout))[n := e.(chain := e.chain[..|e.chain| - 1])]
    {
      ghost var es := AbsOpts(opts, cells, layout);
      forall j | 0 <= j < |opts| && opts[j].isAlias
        ensures layout.target[j] != (n, |layout.chains[n]| - 1)
      {
        assert es[j].Alias? && AliasBelow(es, j);
      }
      SlotFreed(opts, cells, brk, layout, n);
      var slot := opts[n].slots;
      opts := opts[n := opts[n].(slots := cells[slot].prev.value)];
      cells := cells - {slot};
      layout := Shrunk(layout, n);
      ghost var es' := AbsOpts(opts, cells, layout);
      forall j | 0 <= j < |es'| && es'[j].Alias?
        ensures AliasBelow(es', j)
      {
        assert AliasBelow(es, j);
      }
    }

    // --------------------------------------------------------- setting options

    /** m_config_get_co */
    method Find(arg: string) returns (r: Option<nat>)
      requires Shape(opts, cells, brk, layout)
      ensures r == ConfigSpec.Find(AbsOpts(opts, cells, layout), arg)
    {
      ghost var es := AbsOpts(opts, cells, layout);
      var n := |opts|;
      assert es[..n] == es;
      while n > 0
        invariant 0 <= n <= |opts| && ConfigSpec.Find(es[..n], arg) == ConfigSpec.Find(es, arg)
      {
        n := n - 1;
        assert es[..n + 1][..n] == es[..n];
        if Matches(opts[n].def, arg) { return Some(n); }
      }
      return None;
    }

    /** Parses the parameter into the option's slot. */
    method ParseIntoSlot(i: nat, arg: string, param: Option<string>) returns (p: Parsed)
      requires Valid() && i < |opts|
      modifies `cells
      ensures Valid() && Abs() == WriteSlot(old(Abs()), i, p.out)
      ensures var (o, k) := SlotOf(old(Abs()), i);
              p == parse(old(Abs()).opts[i].def, arg, param, Some(old(Abs()).opts[o].chain[k].data))
      ensures opts[i].slots in cells && cells[opts[i].slots].data == p.out
    {
      ghost var s := Abs();
      ghost var (o, k) := SlotOf(s, i);
      assert EntryShape(opts, layout, i);
      assert CellOk(cells, brk, layout, o, k);
      p := parse(opts[i].def, arg, param, Some(cells[opts[i].slots].data));
      WriteData(opts[i].slots, p.out, o, k);
      assert Abs() == WriteSlot(s, i, p.out);
    }

    /** Marks the option as set at this level. */
    method SetFlag(i: nat)
      requires Valid() && i < |opts|
      modifies `opts
      ensures Valid() && Abs() == MarkSet(old(Abs()), i)
    {
      ghost var s := Abs();
      opts := opts[i := opts[i].(isSet := true)];
      forall j | 0 <= j < |opts|
        ensures EntryShape(opts, layout, j)
      {
        assert EntryShape(old(opts), layout, j);
      }
      assert Abs() == MarkSet(s, i);
    }

    /** m_config_parse_option */
    method ParseOption(arg: string, param: Option<string>, store: bool) returns (r: int)
      requires Valid()
      modifies this
      ensures Valid() && (Abs(), r) == ConfigSpec.ParseOption(parse, old(Abs()), arg, param, store)
      decreases Fuel(Abs()), 2, 1
    {
      ghost var s := Abs();
      var found := Find(arg);
      if found.None? { return UNKNOWN; }
      var i := found.value;
      var def := opts[i].def;
      if mode.ConfigFile? && def.nocfg { return INVALID; }
      if mode.CommandLine? && def.nocmd { return INVALID; }
      if !store || (mode.PreParse? && !def.preparse) || (!mode.PreParse? && def.preparse && opts[i].isSet) {
        r := parse(def, arg, param, None).code;
        return;
      }
      r := Store(i, arg, param);
    }

    method Store(i: nat, arg: string, param: Option<string>) returns (r: int)
      requires Valid() && i < |opts|
      modifies this
      ensures Valid() && (Abs(), r) == ConfigSpec.Store(parse, old(Abs()), i, arg, param)
      decreases Fuel(Abs()), 2, 0
    {
      var def := opts[i].def;
      var p := ParseIntoSlot(i, arg, param);
      r := p.code;
      if r < 0 { return; }
      assert EntryOk(Abs(), Abs().opts[i]);
      // set the option
      if def.isProfile {
        ApplyProfiles(opts[i].slots);
      } else if def.variable.Some? {
        Assign(def.variable.value, p.out);
      }
      SetFlag(i);
    }

    /** A write to an option variable, by m_option_set or by the program itself. */
    method Assign(v: nat, x: Value)
      requires Valid() && v in vars
      modifies `vars
      ensures Valid() && Abs() == old(Abs()).(vars := old(vars)[v := x])
    {
      ConfigRestore.AssignValid(Abs(), v, x);
      ghost var s := Abs();
      vars := vars[v := x];
      assert Abs() == s.(vars := s.vars[v := x]);
    }

    /** set_profile: copies the list out of the slot first, for a nested profile that sets the
        same option overwrites the slot. */
    method ApplyProfiles(slot: nat)
      requires Valid() && slot in cells
      modifies this
      ensures Valid() && Abs() == ConfigSpec.ApplyProfiles(parse, old(Abs()), NamesIn(old(cells)[slot].data))
      decreases Fuel(Abs()), 1, 0
    {
      var names := NamesIn(cells[slot].data);
      ghost var s := Abs();
      var i := 0;
      while i < |names|
        invariant i <= |names| && Valid() && Fuel(Abs()) == Fuel(s)
        invariant ConfigSpec.ApplyProfiles(parse, Abs(), names[i..]) == ConfigSpec.ApplyProfiles(parse, s, names)
      {
        assert names[i..][0] == names[i] && names[i..][1..] == names[i + 1..];
        var p := FindProfile(profiles, names[i]);
        if p.Some? { SetProfile(p.value); }
        i := i + 1;
      }
    }

    /** m_config_set_profile */
    method SetProfile(p: Profile)
      requires Valid()
      modifies this
      ensures Valid() && Abs() == ConfigSpec.SetProfile(parse, old(Abs()), p.opts)
      decreases Fuel(Abs()), 0, 0
    {
      if depth > MAX_PROFILE_DEPTH { return; }
      hide Shape, ConfigSpec.Valid, ConfigSpec.SetAll, Frame;
      ghost var s := Abs();
      SetDepth(depth + 1);
      ghost var s1 := Abs();
      assert s1 == s.(depth := s.depth + 1);
      SetAll(p.opts);
      SetDepth(depth - 1);
    }

    method SetDepth(d: nat)
      requires Valid()
      modifies `depth
      ensures Valid() && depth == d && Abs() == old(Abs()).(depth := d)
    {
      ghost var s := Abs();
      DepthOnly(s, d);
      depth := d;
      assert Abs() == s.(depth := d);
    }

    method SetAll(opts: seq<(string, Option<string>)>)
      requires Valid()
      modifies this
      ensures Valid() && Abs() == ConfigSpec.SetAll(parse, old(Abs()), opts)
      decreases Fuel(Abs()), 3, 0
    {
      ghost var s := Abs();
      var i := 0;
      while i < |opts|
        invariant i <= |opts| && Valid() && Fuel(Abs()) == Fuel(s)
        invariant ConfigSpec.SetAll(parse, Abs(), opts[i..]) == ConfigSpec.SetAll(parse, s, opts)
      {
        assert opts[i..][0] == opts[i] && opts[i..][1..] == opts[i + 1..];
        var _ := ParseOption(opts[i].0, opts[i].1, true);
        i := i + 1;
      }
    }
  }

  lemma ShapeSizes(opts: seq<OptionEntry>, cells: Cells, brk: nat, l: Layout)
    requires Shape(opts, cells, brk, l)
    ensures |opts| == |l.chains| == |l.target|
  {
  }

  lemma OwnEntry(opts: seq<OptionEntry>, cells: Cells, brk: nat, l: Layout, n: nat)
    requires Shape(opts, cells, brk, l) && n < |opts| && !opts[n].isAlias
    ensures |opts| == |l.chains| && l.chains[n] != [] && opts[n].slots == l.chains[n][|l.chains[n]| - 1]
  {
    assert EntryShape(opts, l, n);
  }

  lemma TopCell(opts: seq<OptionEntry>, cells: Cells, brk: nat, l: Layout, n: nat)
    requires Shape(opts, cells, brk, l) && n < |opts| && !opts[n].isAlias
    ensures opts[n].slots in cells && AbsOpts(opts, cells, l)[n].chain != []
    ensures Top(AbsOpts(opts, cells, l)[n].chain) == AbsSlot(cells, opts[n].slots)
  {
    assert EntryShape(opts, l, n) && CellOk(cells, brk, l, n, |l.chains[n]| - 1);
  }

  lemma SplitMoved<T>(a: seq<T>, b: seq<T>, n: nat)
    requires |a| == |b| && n < |a|
    ensures (a[..n + 1] + b[n + 1..])[n := b[n]] == a[..n] + b[n..]
  {
  }
}
