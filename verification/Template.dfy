/** The property string expander of m_property.c: a one-pass scanner with level counters,
    proved equal on every input string to a recursive interpreter of nested conditionals. */
module Template {
  import opened Wrappers
  import opened Text

  /** The properties: M_PROPERTY_PRINT of a name, None when it fails, and whether
      M_PROPERTY_GET of a name succeeds. */
  datatype Env = Env(print_: string -> Option<string>, has: string -> bool)

  /** What starts at a position of the template.  `Broken` is a backslash with nothing after it. */
  datatype Token =
    | Text(text: string)
    | Prop(name: string)
    | Open(negated: bool, cond: string)
    | Close
    | Broken

  // ------------------------------------------------------------------ tokens

  /** The first c in s from a position on. */
  function FindChar(s: string, c: char, from: nat): (r: Option<nat>)
    ensures r.Some? ==> from <= r.value < |s| && s[r.value] == c && forall k :: from <= k < r.value ==> s[k] != c
    ensures r.None? ==> forall k :: from <= k < |s| ==> s[k] != c
    decreases |s| - from
  {
    if from >= |s| then None else if s[from] == c then Some(from) else FindChar(s, c, from + 1)
  }

  function HexDigit(c: char): Option<nat> {
    if '0' <= c <= '9' then Some(c as nat - '0' as nat)
    else if 'a' <= c <= 'f' then Some(c as nat - 'a' as nat + 10)
    else if 'A' <= c <= 'F' then Some(c as nat - 'A' as nat + 10)
    else None
  }

  /** strtol with base 16 on a two-character buffer: the value as a char and how much was read. */
  function Strtol16(a: char, b: char): (r: (char, nat))
    ensures r.1 <= 2 && (b == '\0' ==> r.1 <= 1)
  {
    var (x, y) := (HexDigit(a), HexDigit(b));
    if x.Some? && y.Some? then ((16 * x.value + y.value) as char, 2)
    else if x.Some? then (x.value as char, 1)
    else if y.Some? && (IsSpace(a) || a == '+') then (y.value as char, 2)
    else if y.Some? && a == '-' then (((256 - y.value) % 256) as char, 2)
    else ('\0', 0)
  }

  /** The escape at s[i] == '\\' and where the scan goes on.  After `\x` the scan resumes
      one place early: one character of the number is read again as text. */
  function Escape(s: string, i: nat): (r: (Token, nat))
    requires i < |s|
    ensures i < r.1 <= |s|
  {
    if i + 1 == |s| then (Broken, |s|)
    else match s[i + 1]
         case 'e' => (Text([27 as char]), i + 2)
         case 'n' => (Text("\n"), i + 2)
         case 'r' => (Text("\r"), i + 2)
         case 't' => (Text("\t"), i + 2)
         case 'x' =>
           if i + 2 < |s| then
             var (v, sl) := Strtol16(s[i + 2], if i + 3 < |s| then s[i + 3] else '\0');
             (Text([v]), i + 1 + sl)
           else (Text(""), i + 2)
         case c => (Text([c]), i + 2)
  }

  /** The token at position i; a ')' closes only inside a conditional. */
  function Next(s: string, i: nat, nested: bool): (r: (Token, nat))
    requires i < |s|
    ensures i < r.1 <= |s|
    ensures r.0.Close? ==> nested
  {
    if s[i] == '\\' then Escape(s, i)
    else if nested && s[i] == ')' then (Close, i + 1)
    else if s[i] == '$' && i + 1 < |s| && s[i + 1] == '{' && FindChar(s, '}', i + 2).Some? then
      var e := FindChar(s, '}', i + 2).value;
      (Prop(s[i + 2..e]), e + 1)
    else if s[i] == '?' && i + 1 < |s| && s[i + 1] == '(' && FindChar(s, ':', i + 2).Some? then
      var e := FindChar(s, ':', i + 2).value;
      var isNot := s[i + 2] == '!';
      (Open(isNot, s[if isNot then i + 3 else i + 2..e]), e + 1)
    else (Text([s[i]]), i + 1)
  }

  /** Two characters that open something, with the character that ends its name behind them. */
  predicate Opens(s: string, i: nat, a: char, b: char, end: char) {
    i + 1 < |s| && s[i] == a && s[i + 1] == b && exists k :: i + 2 <= k < |s| && s[k] == end
  }

  /** What the token at position i is, by the text it stands for: every token but an escape
      is the text from i to the place after it, names run to the first character that ends
      them, and what does not open or close anything is one character of text. */
  lemma NextReads(s: string, i: nat, nested: bool)
    requires i < |s| && s[i] != '\\'
    ensures var (t, n) := Next(s, i, nested);
            && (t.Close? <==> nested && s[i] == ')')
            && (t.Prop? <==> Opens(s, i, '$', '{', '}'))
            && (t.Open? <==> Opens(s, i, '?', '(', ':'))
            && match t
               case Text(x) => n == i + 1 && x == [s[i]]
               case Prop(x) => s[i..n] == "${" + x + "}" && '}' !in x
               case Open(neg, x) => s[i..n] == "?(" + (if neg then "!" else "") + x + ":" && ':' !in x && (!neg ==> x == "" || x[0] != '!')
               case Close => n == i + 1
               case Broken => false
  {
    var (t, n) := Next(s, i, nested);
    match t
    case Prop(x) =>
      Cut(s, i, i + 2, i + 2, n);
      assert s[i..i + 2] == "${" && s[n - 1..n] == "}" && s[i + 2..i + 2] == "";
    case Open(neg, x) =>
      var b := if neg then i + 3 else i + 2;
      Cut(s, i, i + 2, b, n);
      assert s[i..i + 2] == "?(" && s[n - 1..n] == ":" && s[i + 2..b] == if neg then "!" else "";
    case _ =>
  }

  lemma Cut(s: string, i: nat, j: nat, k: nat, n: nat)
    requires i <= j <= k < n <= |s|
    ensures s[i..n] == s[i..j] + s[j..k] + s[k..n - 1] + s[n - 1..n]
  {
  }

  /** What an escape stands for: e, n, r and t for control characters, and any character but x
      for itself, with the scan going on behind it. */
  lemma EscapesRead(s: string, i: nat, nested: bool)
    requires i + 1 < |s| && s[i] == '\\' && s[i + 1] != 'x'
    ensures var (t, n) := Next(s, i, nested);
            && n == i + 2 && t.Text? && |t.text| == 1
            && var code := t.text[0] as int;
            && (s[i + 1] == 'e' ==> code == 27) && (s[i + 1] == 'n' ==> code == 10)
            && (s[i + 1] == 'r' ==> code == 13) && (s[i + 1] == 't' ==> code == 9)
            && (s[i + 1] !in "enrt" ==> t.text[0] == s[i + 1])
  {
  }

  function HexValue(c: char): int {
    if '0' <= c <= '9' then c as int - 48
    else if 'a' <= c <= 'f' then c as int - 87
    else if 'A' <= c <= 'F' then c as int - 55
    else -1
  }

  /** `\x` and two hexadecimal digits stand for the character of that number, yet the scan goes
      on at the second digit, and so reads it again as text; after one digit, at that digit; and
      after none, at the x, behind a NUL. */
  lemma HexEscapesRead(s: string, i: nat, nested: bool)
    requires i + 2 < |s| && s[i] == '\\' && s[i + 1] == 'x'
    ensures var (t, n) := Next(s, i, nested);
            var (a, b) := (HexValue(s[i + 2]), if i + 3 < |s| then HexValue(s[i + 3]) else -1);
            && t.Text? && |t.text| == 1
            && (a >= 0 && b >= 0 ==> t.text[0] as int == 16 * a + b && n == i + 3)
            && (a >= 0 && b < 0 ==> t.text[0] as int == a && n == i + 2)
            && (a < 0 && s[i + 2] !in "+- " && !(9 <= s[i + 2] as int <= 13) ==> t.text[0] as int == 0 && n == i + 1)
  {
  }

  // ------------------------------------------------------ reference: trees of conditionals

  datatype Node =
    | Lit(text: string)
    | Value(name: string)
    | Cond(negated: bool, cond: string, body: seq<Node>)
    | Dangling // a backslash that ends the template

  /** The nodes from position i up to the ')' that closes the enclosing conditional, or to the
      end of the template, and the position after them. */
  function Parse(s: string, i: nat, nested: bool): (r: (seq<Node>, nat))
    requires i <= |s|
    ensures i <= r.1 <= |s|
    decreases |s| - i
  {
    if i == |s| then ([], i)
    else
      var (t, n) := Next(s, i, nested);
      match t
      case Close => ([], n)
      case Broken => ([Dangling], |s|)
      case Text(x) => var (rest, j) := Parse(s, n, nested); ([Lit(x)] + rest, j)
      case Prop(x) => var (rest, j) := Parse(s, n, nested); ([Value(x)] + rest, j)
      case Open(neg, x) =>
        var (body, k) := Parse(s, n, true);
        var (rest, j) := Parse(s, k, nested);
        ([Cond(neg, x, body)] + rest, j)
  }

  function Eval(env: Env, ts: seq<Node>): string {
    if ts == [] then "" else EvalNode(env, ts[0]) + Eval(env, ts[1..])
  }

  function EvalNode(env: Env, t: Node): string {
    match t
    case Lit(x) => x
    case Value(x) => env.print_(x).GetOr("")
    case Cond(neg, x, body) => if env.has(x) != neg then Eval(env, body) else ""
    case Dangling => ""
  }

  /** No backslash dangles. */
  predicate Sound(ts: seq<Node>) {
    ts == [] || (SoundNode(ts[0]) && Sound(ts[1..]))
  }

  predicate SoundNode(t: Node) {
    !t.Dangling? && (t.Cond? ==> Sound(t.body))
  }

  // ------------------------------------------------------ the flat scanner

  function Emit(env: Env, t: Token): string {
    match t
    case Text(x) => x
    case Prop(x) => env.print_(x).GetOr("")
    case _ => ""
  }

  function LevelAfter(t: Token, lvl: nat): nat {
    if t.Open? then lvl + 1 else if t.Close? && lvl > 0 then lvl - 1 else lvl
  }

  /** The level at which skipping started, 0 while output is being produced. */
  function SkipAfter(env: Env, t: Token, lvl: nat, sk: nat): nat {
    match t
    case Open(neg, x) => if sk == 0 && env.has(x) == neg then lvl + 1 else sk
    case Close => if lvl <= sk then 0 else sk
    case _ => sk
  }

  /** What the loop still appends to its buffer from position i on, and whether it stays
      inside the template. */
  function Scan(env: Env, s: string, i: nat, lvl: nat, sk: nat): (string, bool)
    requires i <= |s|
    decreases |s| - i
  {
    if i == |s| then ("", true)
    else
      var (t, n) := Next(s, i, lvl > 0);
      if t.Broken? then ("", false)
      else
        var sk' := SkipAfter(env, t, lvl, sk);
        var (rest, ok) := Scan(env, s, n, LevelAfter(t, lvl), sk');
        ((if sk' == 0 then Emit(env, t) else "") + rest, ok)
  }

  // ------------------------------------------------------ scanner = interpreter

  lemma {:induction false} EvalCons(env: Env, t: Node, ts: seq<Node>)
    ensures Eval(env, [t] + ts) == EvalNode(env, t) + Eval(env, ts)
    ensures Sound([t] + ts) <==> SoundNode(t) && Sound(ts)
  {
    assert ([t] + ts)[0] == t && ([t] + ts)[1..] == ts;
  }

  /** What the scanner still does after the nodes `ts`: their value when they are evaluated,
      nothing otherwise, then the rest. */
  function Then(out: string, ts: seq<Node>, rest: (string, bool)): (string, bool) {
    (out + rest.0, Sound(ts) && rest.1)
  }

  lemma {:induction false} ThenCons(env: Env, t: Node, ts: seq<Node>, rest: (string, bool))
    ensures Then(Eval(env, [t] + ts), [t] + ts, rest)
            == (EvalNode(env, t) + (Eval(env, ts) + rest.0), SoundNode(t) && Sound(ts) && rest.1)
    ensures Then("", [t] + ts, rest) == (rest.0, SoundNode(t) && Sound(ts) && rest.1)
  {
    EvalCons(env, t, ts);
    assert (EvalNode(env, t) + Eval(env, ts)) + rest.0 == EvalNode(env, t) + (Eval(env, ts) + rest.0);
    assert "" + rest.0 == rest.0;
  }

  /** The scanner's state and the interpreter's agree from position i on, while output is
      produced: the scanner appends the value of the nodes up to the next unmatched ')' and
      goes on after it one level up. */
  ghost predicate ActiveOk(env: Env, s: string, i: nat, lvl: nat)
    requires i <= |s|
  {
    var ts := Parse(s, i, lvl > 0).0;
    Scan(env, s, i, lvl, 0) == Then(Eval(env, ts), ts, ActiveRest(env, s, i, lvl))
  }

  function ActiveRest(env: Env, s: string, i: nat, lvl: nat): (string, bool)
    requires i <= |s|
  {
    Scan(env, s, Parse(s, i, lvl > 0).1, if lvl > 0 then lvl - 1 else 0, 0)
  }

  /** ... and while skipping since level sk: the nodes up to the next unmatched ')' leave no
      trace, and that ')' ends the skipping exactly when it closes level sk. */
  ghost predicate SkippingOk(env: Env, s: string, i: nat, lvl: nat, sk: nat)
    requires i <= |s| && 1 <= sk <= lvl
  {
    Scan(env, s, i, lvl, sk) == Then("", Parse(s, i, true).0, SkippingRest(env, s, i, lvl, sk))
  }

  function SkippingRest(env: Env, s: string, i: nat, lvl: nat, sk: nat): (string, bool)
    requires i <= |s| && 1 <= sk <= lvl
  {
    Scan(env, s, Parse(s, i, true).1, lvl - 1, if lvl == sk then 0 else sk)
  }

  lemma {:induction false} ActiveStop(env: Env, s: string, i: nat, lvl: nat)
    requires i <= |s| && (i < |s| ==> Next(s, i, lvl > 0).0.Close? || Next(s, i, lvl > 0).0.Broken?)
    ensures ActiveOk(env, s, i, lvl)
  {
    var rest := ActiveRest(env, s, i, lvl);
    assert "" + rest.0 == rest.0;
    assert !Sound([Dangling]);
    EvalCons(env, Dangling, []);
    assert [Dangling] + [] == [Dangling] && "" + "" == "";
  }

  lemma {:induction false} ActiveText(env: Env, s: string, i: nat, lvl: nat)
    requires i < |s| && (Next(s, i, lvl > 0).0.Text? || Next(s, i, lvl > 0).0.Prop?)
    requires ActiveOk(env, s, Next(s, i, lvl > 0).1, lvl)
    ensures ActiveOk(env, s, i, lvl)
  {
    var (t, n) := Next(s, i, lvl > 0);
    var node := if t.Text? then Lit(t.text) else Value(t.name);
    ThenCons(env, node, Parse(s, n, lvl > 0).0, ActiveRest(env, s, n, lvl));
  }

  /** A '?(' hands over to the body and passes its own text on to nobody. */
  lemma {:induction false} OpenScan(env: Env, s: string, i: nat, lvl: nat, sk: nat)
    requires i < |s| && Next(s, i, lvl > 0).0.Open?
    ensures var (t, n) := Next(s, i, lvl > 0);
            Scan(env, s, i, lvl, sk) == Scan(env, s, n, lvl + 1, SkipAfter(env, t, lvl, sk))
  {
    var (t, n) := Next(s, i, lvl > 0);
    var inner := Scan(env, s, n, lvl + 1, SkipAfter(env, t, lvl, sk));
    assert "" + inner.0 == inner.0;
  }

  lemma {:induction false} ActiveOpen(env: Env, s: string, i: nat, lvl: nat)
    requires i < |s| && Next(s, i, lvl > 0).0.Open?
    requires var (t, n) := Next(s, i, lvl > 0);
             && (if env.has(t.cond) == t.negated then SkippingOk(env, s, n, lvl + 1, lvl + 1)
                 else ActiveOk(env, s, n, lvl + 1))
             && ActiveOk(env, s, Parse(s, n, true).1, lvl)
    ensures ActiveOk(env, s, i, lvl)
  {
    var (t, n) := Next(s, i, lvl > 0);
    var (body, k) := Parse(s, n, true);
    var (rest, j) := Parse(s, k, lvl > 0);
    var after := Scan(env, s, k, lvl, 0);
    var value := if env.has(t.cond) != t.negated then Eval(env, body) else "";
    OpenScan(env, s, i, lvl, 0);
    assert Scan(env, s, i, lvl, 0) == Then(value, body, after);
    assert after == Then(Eval(env, rest), rest, ActiveRest(env, s, k, lvl));
    ThenCons(env, Cond(t.negated, t.cond, body), rest, ActiveRest(env, s, k, lvl));
    assert Parse(s, i, lvl > 0) == ([Cond(t.negated, t.cond, body)] + rest, j);
  }

  lemma {:induction false} ScanActive(env: Env, s: string, i: nat, lvl: nat)
    requires i <= |s|
    ensures ActiveOk(env, s, i, lvl)
    decreases |s| - i
  {
    if i == |s| || Next(s, i, lvl > 0).0.Close? || Next(s, i, lvl > 0).0.Broken? {
      ActiveStop(env, s, i, lvl);
    } else {
      var (t, n) := Next(s, i, lvl > 0);
      if t.Open? {
        if env.has(t.cond) == t.negated { ScanSkipping(env, s, n, lvl + 1, lvl + 1); } else { ScanActive(env, s, n, lvl + 1); }
        ScanActive(env, s, Parse(s, n, true).1, lvl);
        ActiveOpen(env, s, i, lvl);
      } else {
        ScanActive(env, s, n, lvl);
        ActiveText(env, s, i, lvl);
      }
    }
  }

  lemma {:induction false} SkippingStop(env: Env, s: string, i: nat, lvl: nat, sk: nat)
    requires 1 <= sk <= lvl
    requires i <= |s| && (i < |s| ==> Next(s, i, true).0.Close? || Next(s, i, true).0.Broken?)
    ensures SkippingOk(env, s, i, lvl, sk)
  {
    var rest := SkippingRest(env, s, i, lvl, sk);
    assert "" + rest.0 == rest.0;
    assert !Sound([Dangling]);
    assert "" + "" == "";
  }

  lemma {:induction false} SkippingText(env: Env, s: string, i: nat, lvl: nat, sk: nat)
    requires 1 <= sk <= lvl && i < |s| && (Next(s, i, true).0.Text? || Next(s, i, true).0.Prop?)
    requires SkippingOk(env, s, Next(s, i, true).1, lvl, sk)
    ensures SkippingOk(env, s, i, lvl, sk)
  {
    var (t, n) := Next(s, i, true);
    var node := if t.Text? then Lit(t.text) else Value(t.name);
    ThenCons(env, node, Parse(s, n, true).0, SkippingRest(env, s, n, lvl, sk));
  }

  lemma {:induction false} SkippingOpen(env: Env, s: string, i: nat, lvl: nat, sk: nat)
    requires 1 <= sk <= lvl && i < |s| && Next(s, i, true).0.Open?
    requires SkippingOk(env, s, Next(s, i, true).1, lvl + 1, sk)
    requires SkippingOk(env, s, Parse(s, Next(s, i, true).1, true).1, lvl, sk)
    ensures SkippingOk(env, s, i, lvl, sk)
  {
    var (t, n) := Next(s, i, true);
    var (body, k) := Parse(s, n, true);
    ThenCons(env, Cond(t.negated, t.cond, body), Parse(s, k, true).0, SkippingRest(env, s, k, lvl, sk));
  }

  lemma {:induction false} ScanSkipping(env: Env, s: string, i: nat, lvl: nat, sk: nat)
    requires i <= |s| && 1 <= sk <= lvl
    ensures SkippingOk(env, s, i, lvl, sk)
    decreases |s| - i, 1
  {
    if i == |s| || Next(s, i, true).0.Close? || Next(s, i, true).0.Broken? {
      SkippingStop(env, s, i, lvl, sk);
    } else if Next(s, i, true).0.Open? {
      ScanSkippedOpen(env, s, i, lvl, sk);
    } else {
      ScanSkipping(env, s, Next(s, i, true).1, lvl, sk);
      SkippingText(env, s, i, lvl, sk);
    }
  }

  lemma {:induction false} ScanSkippedOpen(env: Env, s: string, i: nat, lvl: nat, sk: nat)
    requires i < |s| && 1 <= sk <= lvl && Next(s, i, true).0.Open?
    ensures SkippingOk(env, s, i, lvl, sk)
    decreases |s| - i, 0
  {
    var n := Next(s, i, true).1;
    var k := Parse(s, n, true).1;
    assert SkippingOk(env, s, n, lvl + 1, sk) by { ScanSkipping(env, s, n, lvl + 1, sk); }
    assert SkippingOk(env, s, k, lvl, sk) by { ScanSkipping(env, s, k, lvl, sk); }
    SkippingOpen(env, s, i, lvl, sk);
  }

  /** On every template and under every environment the one-pass scanner produces the value
      of the template read as a tree of conditionals, and it leaves the template exactly when
      that tree ends in a lone backslash. */
  lemma ScannerIsInterpreter(env: Env, s: string)
    ensures Scan(env, s, 0, 0, 0) == (Eval(env, Parse(s, 0, false).0), Sound(Parse(s, 0, false).0))
  {
    ScanActive(env, s, 0, 0);
    TopLevelEnds(s, 0);
    var v := Eval(env, Parse(s, 0, false).0);
    assert v + "" == v;
  }

  /** Outside every conditional only the end of the template ends the parse. */
  lemma {:induction false} TopLevelEnds(s: string, i: nat)
    requires i <= |s|
    ensures Parse(s, i, false).1 == |s|
    decreases |s| - i
  {
    if i < |s| {
      var (t, n) := Next(s, i, false);
      if t.Open? {
        TopLevelEnds(s, Parse(s, n, true).1);
      } else if !t.Broken? {
        TopLevelEnds(s, n);
      }
    }
  }

  /** "\x41" gives "A1". */
  lemma HexEscapeWitness(env: Env)
    ensures Scan(env, "\\x41", 0, 0, 0) == ("A1", true)
  {
    var s := "\\x41";
    assert Next(s, 0, false) == (Text("A"), 3) && Next(s, 3, false) == (Text("1"), 4);
    assert Scan(env, s, 4, 0, 0) == ("", true);
    assert Scan(env, s, 3, 0, 0) == ("1", true) by { assert "1" + "" == "1"; }
    assert "A" + "1" == "A1";
  }

  // ------------------------------------------------------ writing templates

  /** A tree that can be written down: literals one character long, names free of the
      character that ends them, and no positive condition whose name starts with '!'. */
  predicate Writable(t: Node) {
    match t
    case Lit(x) => |x| == 1
    case Value(x) => '}' !in x
    case Cond(neg, x, body) => ':' !in x && (neg || x == "" || x[0] != '!') && AllWritable(body)
    case Dangling => false
  }

  predicate AllWritable(ts: seq<Node>) {
    ts == [] || (Writable(ts[0]) && AllWritable(ts[1..]))
  }

  function Write(t: Node): (r: string)
    requires Writable(t)
    ensures r != ""
  {
    match t
    case Lit(x) => if x[0] in "\\$?)" then "\\" + x else x
    case Value(x) => "${" + x + "}"
    case Cond(neg, x, body) => CondHead(neg, x) + (WriteAll(body) + ")")
  }

  function WriteAll(ts: seq<Node>): string
    requires AllWritable(ts)
  {
    if ts == [] then "" else Write(ts[0]) + WriteAll(ts[1..])
  }

  lemma {:induction false} FindAt(s: string, c: char, from: nat, x: string)
    requires At(s, from, x) && c !in x && from + |x| < |s| && s[from + |x|] == c
    ensures FindChar(s, c, from) == Some(from + |x|)
    decreases |x|
  {
    if x != "" {
      assert s[from + 0] == x[0];
      forall k | 0 <= k < |x[1..]| ensures s[from + 1 + k] == x[1..][k] { assert s[from + (k + 1)] == x[k + 1]; }
      FindAt(s, c, from + 1, x[1..]);
    }
  }

  lemma NextLit(s: string, i: nat, t: Node, nested: bool)
    requires t.Lit? && Writable(t) && At(s, i, Write(t))
    ensures Next(s, i, nested) == (Text(t.text), i + |Write(t)|)
  {
    assert s[i + 0] == Write(t)[0];
    if t.text[0] in "\\$?)" {
      assert s[i + 1] == Write(t)[1];
      assert t.text == [t.text[0]];
    } else {
      assert t.text[0] != "\\$?)"[0] && t.text[0] != "\\$?)"[1] && t.text[0] != "\\$?)"[2] && t.text[0] != "\\$?)"[3];
      assert t.text == [t.text[0]];
    }
  }

  lemma NextValue(s: string, i: nat, x: string, nested: bool)
    requires '}' !in x && At(s, i, "${" + x + "}")
    ensures Next(s, i, nested) == (Prop(x), i + |x| + 3)
  {
    var w := "${" + x + "}";
    assert s[i + 0] == w[0] && s[i + 1] == w[1] && s[i + (|x| + 2)] == w[|x| + 2];
    forall k | 0 <= k < |x| ensures s[i + 2 + k] == x[k] { assert s[i + (k + 2)] == w[k + 2]; }
    FindAt(s, '}', i + 2, x);
    assert s[i + 2..i + 2 + |x|] == x;
  }

  function Inner(neg: bool, x: string): string {
    if neg then "!" + x else x
  }

  function CondHead(neg: bool, x: string): string {
    "?(" + (Inner(neg, x) + ":")
  }

  /** The head of a written condition, and the ':' found at its end. */
  lemma HeadAt(s: string, i: nat, y: string)
    requires ':' !in y && At(s, i, "?(" + (y + ":"))
    ensures i + |y| + 3 <= |s| && s[i] == '?' && s[i + 1] == '(' && s[i + 2..i + 2 + |y|] == y
    ensures FindChar(s, ':', i + 2) == Some(i + 2 + |y|)
  {
    AtSplit(s, i, "?(", y + ":");
    AtSplit(s, i + 2, y, ":");
    assert s[i + 0] == "?("[0] && s[i + 1] == "?("[1] && s[i + 2 + |y| + 0] == ":"[0];
    FindAt(s, ':', i + 2, y);
  }

  lemma NextCond(s: string, i: nat, neg: bool, x: string, nested: bool)
    requires ':' !in x && (neg || x == "" || x[0] != '!')
    requires At(s, i, CondHead(neg, x))
    ensures Next(s, i, nested) == (Open(neg, x), i + |CondHead(neg, x)|)
  {
    var y := Inner(neg, x);
    HeadAt(s, i, y);
    var e := i + 2 + |y|;
    if y != "" { assert s[i + 2..e][0] == s[i + 2]; }
    if neg { assert s[i + 3..e] == s[i + 2..e][1..] == x; }
  }

  /** A parse p reads `ts` and then what the parse q reads. */
  predicate Reads(p: (seq<Node>, nat), ts: seq<Node>, q: (seq<Node>, nat)) {
    p.0 == ts + q.0 && p.1 == q.1
  }

  lemma ReadsTrans(p: (seq<Node>, nat), q: (seq<Node>, nat), r: (seq<Node>, nat), t: Node, ts: seq<Node>)
    requires Reads(p, [t], q) && Reads(q, ts, r)
    ensures Reads(p, [t] + ts, r)
  {
    assert ([t] + ts) + r.0 == [t] + (ts + r.0);
  }

  lemma {:induction false} ParseOpen(s: string, i: nat, nested: bool, neg: bool, x: string, b: nat, body: seq<Node>, n: nat)
    requires i < |s| && Next(s, i, nested) == (Open(neg, x), b) && Parse(s, b, true) == (body, n)
    ensures Reads(Parse(s, i, nested), [Cond(neg, x, body)], Parse(s, n, nested))
  {
  }

  lemma {:induction false} ParseLeaf(s: string, i: nat, nested: bool, t: Node, n: nat)
    requires t.Lit? || t.Value?
    requires i < |s| && Next(s, i, nested) == (if t.Lit? then Text(t.text) else Prop(t.name), n)
    ensures Reads(Parse(s, i, nested), [t], Parse(s, n, nested))
  {
  }

  /** A body that is read back is ended by the ')' after it. */
  lemma {:induction false} BodyEnds(s: string, b: nat, c: nat, body: seq<Node>)
    requires b <= c < |s| && s[c] == ')' && Reads(Parse(s, b, true), body, Parse(s, c, true))
    ensures Parse(s, b, true) == (body, c + 1)
  {
    assert Next(s, c, true) == (Close, c + 1);
    assert Parse(s, c, true) == ([], c + 1);
    assert body + [] == body;
  }

  /** A conditional is read back, if its body, which lies between b and the ')' at c, is. */
  lemma {:induction false} ParseWrittenCond(s: string, i: nat, b: nat, c: nat, neg: bool, x: string, body: seq<Node>, nested: bool)
    requires i < b <= c < |s| && s[c] == ')' && Next(s, i, nested) == (Open(neg, x), b)
    requires Reads(Parse(s, b, true), body, Parse(s, c, true))
    ensures Reads(Parse(s, i, nested), [Cond(neg, x, body)], Parse(s, c + 1, nested))
  {
    BodyEnds(s, b, c, body);
    ParseOpen(s, i, nested, neg, x, b, body, c + 1);
  }

  /** Where the parts of a written conditional are. */
  lemma CondAt(s: string, i: nat, head: string, body: string)
    requires At(s, i, head + (body + ")"))
    ensures At(s, i, head) && At(s, i + |head|, body)
    ensures i + |head| + |body| < |s| && s[i + |head| + |body|] == ')'
  {
    AtSplit(s, i, head, body + ")");
    AtSplit(s, i + |head|, body, ")");
    assert s[i + |head| + |body| + 0] == ")"[0];
  }

  /** Reading what was written, wherever it stands in a template. */
  lemma {:induction false} ParseWritten(s: string, i: nat, ts: seq<Node>, nested: bool)
    requires AllWritable(ts) && At(s, i, WriteAll(ts))
    ensures i + |WriteAll(ts)| <= |s|
    ensures Reads(Parse(s, i, nested), ts, Parse(s, i + |WriteAll(ts)|, nested))
    decreases ts, 0
  {
    hide At, Parse;
    AtInside(s, i, WriteAll(ts));
    if ts == [] {
      assert [] + Parse(s, i, nested).0 == Parse(s, i, nested).0;
    } else {
      var (t, ts') := (ts[0], ts[1..]);
      var n := i + |Write(t)|;
      assert |WriteAll(ts)| == |Write(t)| + |WriteAll(ts')| && [t] + ts' == ts;
      AtSplit(s, i, Write(t), WriteAll(ts'));
      ParseWrittenNode(s, i, t, nested);
      ParseWritten(s, n, ts', nested);
      ReadsTrans(Parse(s, i, nested), Parse(s, n, nested), Parse(s, n + |WriteAll(ts')|, nested), t, ts');
    }
  }

  lemma {:induction false} ParseWrittenNode(s: string, i: nat, t: Node, nested: bool)
    requires Writable(t) && At(s, i, Write(t))
    ensures Reads(Parse(s, i, nested), [t], Parse(s, i + |Write(t)|, nested))
    decreases t, 1
  {
    if t.Cond? {
      ParseWrittenOpen(s, i, t, nested);
    } else {
      ParseWrittenLeaf(s, i, t, nested);
    }
  }

  lemma {:induction false} ParseWrittenLeaf(s: string, i: nat, t: Node, nested: bool)
    requires Writable(t) && !t.Cond? && At(s, i, Write(t))
    ensures Reads(Parse(s, i, nested), [t], Parse(s, i + |Write(t)|, nested))
  {
    if t.Lit? { NextLit(s, i, t, nested); } else { NextValue(s, i, t.name, nested); }
    ParseLeaf(s, i, nested, t, i + |Write(t)|);
  }

  lemma {:induction false} ParseWrittenOpen(s: string, i: nat, t: Node, nested: bool)
    requires Writable(t) && t.Cond? && At(s, i, Write(t))
    ensures Reads(Parse(s, i, nested), [t], Parse(s, i + |Write(t)|, nested))
    decreases t, 0
  {
    hide At, Parse, Next, CondHead, Reads;
    var Cond(neg, x, body) := t;
    var (head, w) := (CondHead(neg, x), WriteAll(body));
    var (b, c) := (i + |head|, i + |head| + |w|);
    assert c + 1 == i + |Write(t)|;
    CondAt(s, i, head, w);
    assert Next(s, i, nested) == (Open(neg, x), b) by { NextCond(s, i, neg, x, nested); }
    assert Reads(Parse(s, b, true), body, Parse(s, c, true)) by { ParseWritten(s, b, body, true); }
    ParseWrittenCond(s, i, b, c, neg, x, body, nested);
  }

  /** Writing a tree and reading it back gives the tree. */
  lemma {:induction false} WriteThenParse(ts: seq<Node>)
    requires AllWritable(ts)
    ensures Parse(WriteAll(ts), 0, false).0 == ts
  {
    var s := WriteAll(ts);
    assert s[0..0 + |s|] == s;
    ParseWritten(s, 0, ts, false);
    assert Parse(s, |s|, false).0 == [];
    assert ts + [] == ts;
  }

  /** The scanner, run on a written template of any nesting depth, outputs the tree's value. */
  lemma WriteThenScan(env: Env, ts: seq<Node>)
    requires AllWritable(ts)
    ensures Scan(env, WriteAll(ts), 0, 0, 0) == (Eval(env, ts), true)
  {
    WriteThenParse(ts);
    ScannerIsInterpreter(env, WriteAll(ts));
    WritableSound(ts);
  }

  lemma {:induction false} WritableSound(ts: seq<Node>)
    requires AllWritable(ts)
    ensures Sound(ts)
    decreases ts
  {
    if ts != [] {
      WritableSound(ts[1..]);
      if ts[0].Cond? { WritableSound(ts[0].body); }
    }
  }

  /** A condition's body counts if the property is there, a negated one's if it is not, and a
      property that cannot be printed leaves no trace. */
  lemma ConditionWitness(env: Env)
    ensures Scan(env, "?(a:x)", 0, 0, 0) == (if env.has("a") then "x" else "", true)
    ensures Scan(env, "?(!a:x)", 0, 0, 0) == (if env.has("a") then "" else "x", true)
    ensures Scan(env, "${a}", 0, 0, 0) == (match env.print_("a") case Some(p) => p case None => "", true)
  {
    hide Scan;
    EvalOne(env, Lit("x"));
    WrittenCond();
    var (yes, no, value) := (Cond(false, "a", [Lit("x")]), Cond(true, "a", [Lit("x")]), Value("a"));
    OneWritten(env, yes, "?(a:x)");
    OneWritten(env, no, "?(!a:x)");
    OneWritten(env, value, "${a}");
  }

  lemma WrittenCond()
    ensures var (yes, no, value) := (Cond(false, "a", [Lit("x")]), Cond(true, "a", [Lit("x")]), Value("a"));
            && Writable(yes) && Writable(no) && Writable(value)
            && Write(yes) == "?(a:x)" && Write(no) == "?(!a:x)" && Write(value) == "${a}"
  {
    var body := [Lit("x")];
    assert body[1..] == [] && AllWritable(body);
    assert WriteAll(body) == "x" by { assert WriteAll([]) == "" && Write(Lit("x")) + "" == "x"; }
    assert CondHead(false, "a") == "?(a:" && CondHead(true, "a") == "?(!a:";
  }

  lemma EvalOne(env: Env, t: Node)
    ensures Eval(env, [t]) == EvalNode(env, t)
  {
    assert [t][1..] == [];
    assert EvalNode(env, t) + "" == EvalNode(env, t);
  }

  lemma OneWritten(env: Env, t: Node, s: string)
    requires Writable(t) && Write(t) == s
    ensures Scan(env, s, 0, 0, 0) == (EvalNode(env, t), true)
  {
    assert [t][1..] == [];
    assert WriteAll([t]) == s by { assert WriteAll([]) == "" && Write(t) + "" == Write(t); }
    WriteThenScan(env, [t]);
    EvalOne(env, t);
  }

  // ------------------------------------------------------ m_properties_expand_string

  function Prefixed(out: string, rest: (string, bool)): (string, bool) {
    (out + rest.0, rest.1)
  }

  lemma PrefixedUnit(rest: (string, bool), out: string, ok: bool)
    ensures Prefixed("", rest) == rest && Prefixed(out, ("", ok)) == (out, ok)
  {
    assert "" + rest.0 == rest.0 && out + "" == out;
  }

  /** One token of the scan, seen from the buffer. */
  lemma {:induction false} ScanToken(env: Env, s: string, i: nat, lvl: nat, sk: nat, out: string)
    requires i < |s| && !Next(s, i, lvl > 0).0.Broken?
    ensures var (t, n) := Next(s, i, lvl > 0);
            var sk' := SkipAfter(env, t, lvl, sk);
            Prefixed(out, Scan(env, s, i, lvl, sk))
            == Prefixed(out + (if sk' == 0 then Emit(env, t) else ""), Scan(env, s, n, LevelAfter(t, lvl), sk'))
  {
    var (t, n) := Next(s, i, lvl > 0);
    var sk' := SkipAfter(env, t, lvl, sk);
    var e := if sk' == 0 then Emit(env, t) else "";
    var rest := Scan(env, s, n, LevelAfter(t, lvl), sk');
    assert (out + e) + rest.0 == out + (e + rest.0);
  }

  /** The scanner as written: position, level, skip flag and skip level advance through the
      template while text is copied to a buffer that grows when needed.  `ok` is false when
      the template ends in an escape and the C code would read past its end. */
  method Expand(env: Env, str: string) returns (ret: array<char>, pos: nat, ok: bool)
    ensures fresh(ret) && pos < ret.Length
    ensures (ret[..pos], ok) == (Eval(env, Parse(str, 0, false).0), Sound(Parse(str, 0, false).0))
    ensures ret[pos] == '\0'
  {
    ret, pos, ok := RunScanner(env, str);
    ScannerIsInterpreter(env, str);
  }

  method RunScanner(env: Env, str: string) returns (ret: array<char>, pos: nat, ok: bool)
    ensures fresh(ret) && pos < ret.Length && ret[pos] == '\0'
    ensures (ret[..pos], ok) == Scan(env, str, 0, 0, 0)
  {
    ret := new char[|str| + 512];
    var i, skip: bool, lvl: nat, skipLvl: nat := 0, false, 0, 0;
    pos, ok := 0, true;
    ghost var all := Scan(env, str, 0, 0, 0);
    ghost var out := "";
    PrefixedUnit(all, "", true);
    while i < |str|
      invariant i <= |str| && fresh(ret) && pos + 1 <= ret.Length && ret[..pos] == out
      invariant skip ==> 1 <= skipLvl <= lvl
      invariant Prefixed(out, Scan(env, str, i, lvl, if skip then skipLvl else 0)) == all
      decreases |str| - i
    {
      var (t, n) := Next(str, i, lvl > 0);
      if t.Broken? {
        ok := false;
        break;
      }
      ScanToken(env, str, i, lvl, if skip then skipLvl else 0, out);
      skip, lvl, skipLvl := Count(env, t, skip, lvl, skipLvl);
      i := n;
      var p := if skip then "" else Emit(env, t);
      ret, pos := Append(ret, pos, p);
      out := out + p;
    }
    PrefixedUnit(all, out, ok);
    Terminate(ret, pos);
  }

  /** The level counters after a token. */
  method Count(env: Env, t: Token, skip: bool, lvl: nat, skipLvl: nat) returns (skip': bool, lvl': nat, skipLvl': nat)
    requires (skip ==> 1 <= skipLvl <= lvl) && (t.Close? ==> lvl > 0)
    ensures lvl' == LevelAfter(t, lvl) && (skip' ==> 1 <= skipLvl' <= lvl')
    ensures (if skip' then skipLvl' else 0) == SkipAfter(env, t, lvl, if skip then skipLvl else 0)
  {
    skip', lvl', skipLvl' := skip, lvl, skipLvl;
    match t {
      case Close =>
        if skip && lvl <= skipLvl { skip' := false; }
        lvl' := lvl - 1;
      case Open(isNot, x) =>
        lvl' := lvl + 1;
        if !skip && env.has(x) == isNot { skip', skipLvl' := true, lvl'; }
      case _ =>
    }
  }

  /** Copies p behind the text so far, in a longer buffer if this one is too short. */
  method Append(buf: array<char>, pos: nat, p: string) returns (ret: array<char>, end: nat)
    requires pos + 1 <= buf.Length
    modifies buf
    ensures ret == buf || fresh(ret)
    ensures end == pos + |p| && end + 1 <= ret.Length && ret[..end] == old(buf[..pos]) + p
  {
    ret, end := buf, pos + |p|;
    if end + 1 > buf.Length {
      ret := new char[end + 512];
      forall k | 0 <= k < pos { ret[k] := buf[k]; }
    }
    forall k | 0 <= k < |p| { ret[pos + k] := p[k]; }
  }

  /** Ends the text with a NUL. */
  method Terminate(ret: array<char>, pos: nat)
    requires pos < ret.Length
    modifies ret
    ensures ret[pos] == '\0' && ret[..pos] == old(ret[..pos])
  {
    ret[pos] := '\0';
  }
}
