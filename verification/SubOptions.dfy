/** Sub-option strings (parse_subconf of m_option.c): `name`, `name=value`, `name="value"`
    or `name=%length%value`, separated by ':'. */
module SubOptions {
  import opened Wrappers
  import opened OptionCodes
  import opened Text

  /** The child options: is there one of this name, and what its type's parser returns for a
      parameter when asked only to check it. */
  datatype Children = Children(known: string -> bool, check: (string, Option<string>) -> int)

  type Pair = (string, Option<string>)

  datatype Parsed = Failed(code: int) | Pairs(list: seq<Pair>)

  // ------------------------------------------------------ library functions

  /** The first a or b from position i on, or the end of the string. */
  function Span(s: string, i: nat, a: char, b: char): (r: nat)
    requires i <= |s|
    ensures i <= r <= |s|
    ensures r < |s| ==> s[r] == a || s[r] == b
    ensures forall k :: i <= k < r ==> s[k] != a && s[k] != b
    decreases |s| - i
  {
    if i == |s| || s[i] == a || s[i] == b then i else Span(s, i + 1, a, b)
  }

  function Digit(c: char, base: nat): Option<nat> {
    var d := if '0' <= c <= '9' then c as int - '0' as int
             else if 'a' <= c <= 'f' then c as int - 'a' as int + 10
             else if 'A' <= c <= 'F' then c as int - 'A' as int + 10
             else 99;
    if d < base then Some(d) else None
  }

  /** The value of the digits from i on, continuing from acc, and where they end. */
  function Digits(s: string, i: nat, base: nat, acc: nat): (r: (nat, nat))
    requires i <= |s|
    ensures i <= r.1 <= |s|
    decreases |s| - i
  {
    if i < |s| && Digit(s[i], base).Some? then Digits(s, i + 1, base, base * acc + Digit(s[i], base).value)
    else (acc, i)
  }

  function SkipSpace(s: string, i: nat): (r: nat)
    requires i <= |s|
    ensures i <= r <= |s|
    decreases |s| - i
  {
    if i < |s| && IsSpace(s[i]) then SkipSpace(s, i + 1) else i
  }

  const LONG_MAX := 0x7fff_ffff_ffff_ffff
  const INT_MAX := 0x7fff_ffff

  /** strtol with base 0 at position i: the value, cut to the range of long, and where it ends. */
  function Strtol(s: string, i: nat): (r: (int, nat))
    requires i <= |s|
    ensures i <= r.1 <= |s|
  {
    var j := SkipSpace(s, i);
    var neg := j < |s| && s[j] == '-';
    var k := if j < |s| && (s[j] == '-' || s[j] == '+') then j + 1 else j;
    var hex := k + 2 < |s| && s[k] == '0' && (s[k + 1] == 'x' || s[k + 1] == 'X') && Digit(s[k + 2], 16).Some?;
    var base := if hex then 16 else if k < |s| && s[k] == '0' then 8 else 10;
    var start := if hex then k + 2 else k;
    var (v, end) := Digits(s, start, base, 0);
    if end == start then (0, i)
    else (if neg then (if v > LONG_MAX then -LONG_MAX - 1 else 0 - v) else if v > LONG_MAX then LONG_MAX else v, end)
  }

  /** The conversion of a long to a 32-bit int. */
  function ToInt(v: int): (r: int)
    ensures -INT_MAX - 1 <= r <= INT_MAX
    ensures -INT_MAX - 1 <= v <= INT_MAX ==> r == v
  {
    (v + INT_MAX + 1) % 0x1_0000_0000 - INT_MAX - 1
  }

  // ------------------------------------------------------ one sub-option

  datatype Value = Malformed | Value(param: string, end: nat)

  /** What follows the '=' before position i. */
  function ReadValue(s: string, i: nat): (r: Value)
    requires i <= |s|
    ensures r.Value? ==> i <= r.end <= |s|
  {
    if i < |s| && s[i] == '"' then
      var q := Span(s, i + 1, '"', '"');
      if q == |s| then Malformed else Value(s[i + 1..q], q + 1)
    else if i < |s| && s[i] == '%' then
      var (v, q) := Strtol(s, i + 1);
      var n := ToInt(v);
      // a negative n is compared as a huge unsigned number
      if q == |s| || s[q] != '%' || n < 0 || n > |s| - q - 1 then Malformed
      else Value(s[q + 1..q + 1 + n], q + 1 + n)
    else
      var q := Span(s, i, ':', ':');
      Value(s[i..q], q)
  }

  datatype Item = BadItem | Item(name: string, param: string, next: nat)

  function ReadItem(s: string, i: nat): (r: Item)
    requires i < |s|
    ensures r.Item? ==> i < r.next <= |s|
  {
    var e := Span(s, i, ':', '=');
    var v := if e < |s| && s[e] == '=' then ReadValue(s, e + 1) else Value("", e);
    if v.Malformed? then BadItem
    else if v.end == |s| then Item(s[i..e], v.param, |s|)
    else if s[v.end] == ':' then Item(s[i..e], v.param, v.end + 1)
    else BadItem
  }

  function PairOf(name: string, param: string): Pair {
    (name, if param == "" then None else Some(param))
  }

  function ParseFrom(c: Children, s: string, i: nat): Parsed
    requires i <= |s|
    decreases |s| - i
  {
    if i == |s| then Pairs([])
    else match ReadItem(s, i)
         case BadItem => Failed(INVALID)
         case Item(name, param, next) =>
           var pair := PairOf(name, param);
           if !c.known(name) then Failed(UNKNOWN)
           else if c.check(name, pair.1) < 0 then Failed(c.check(name, pair.1))
           else match ParseFrom(c, s, next)
                case Failed(code) => Failed(code)
                case Pairs(rest) => Pairs([pair] + rest)
  }

  /** parse_subconf */
  function Parse(c: Children, param: string): Parsed {
    if param == "" then Failed(MISSING_PARAM) else ParseFrom(c, param, 0)
  }

  // ------------------------------------------------------ printing

  datatype Form = Bare | Quoted | Counted

  function Decimal(n: nat): (r: string)
    ensures r != ""
  {
    if n < 10 then [('0' as int + n) as char] else Decimal(n / 10) + [('0' as int + n % 10) as char]
  }

  function WriteValue(v: string, f: Form): string {
    match f
    case Bare => v
    case Quoted => "\"" + (v + "\"")
    case Counted => "%" + (Decimal(|v|) + ("%" + v))
  }

  /** Where each form may be used; the counted one always (lengths are 32-bit ints). */
  predicate Legal(v: string, f: Form) {
    match f
    case Bare => ':' !in v && (v != "" ==> v[0] != '"' && v[0] != '%')
    case Quoted => '"' !in v
    case Counted => |v| < INT_MAX
  }

  predicate IsName(name: string) {
    name != "" && ':' !in name && '=' !in name
  }

  function WriteItem(p: Pair, f: Form): string {
    if p.1.None? then p.0 else p.0 + ("=" + WriteValue(p.1.value, f))
  }

  /** Items joined with ':', each value in the form chosen for it. */
  function Write(ps: seq<Pair>, fs: seq<Form>): string
    requires |fs| == |ps|
  {
    if ps == [] then ""
    else if |ps| == 1 then WriteItem(ps[0], fs[0])
    else WriteItem(ps[0], fs[0]) + (":" + Write(ps[1..], fs[1..]))
  }

  predicate Writable(p: Pair, f: Form) {
    IsName(p.0) && (p.1.Some? ==> p.1.value != "" && Legal(p.1.value, f))
  }

  predicate Accepted(c: Children, p: Pair) {
    c.known(p.0) && c.check(p.0, p.1) >= 0
  }

  // ------------------------------------------------------ reading back what was written

  lemma AtSlice(s: string, i: nat, w: string)
    requires At(s, i, w)
    ensures s[i..i + |w|] == w
  {
  }

  lemma {:induction false} SpanAt(s: string, i: nat, a: char, b: char, w: string)
    requires At(s, i, w) && a !in w && b !in w
    requires i + |w| < |s| ==> s[i + |w|] == a || s[i + |w|] == b
    ensures Span(s, i, a, b) == i + |w|
    decreases |w|
  {
    if w != "" {
      assert s[i + 0] == w[0];
      forall k | 0 <= k < |w[1..]| ensures s[i + 1 + k] == w[1..][k] { assert s[i + (k + 1)] == w[k + 1]; }
      SpanAt(s, i + 1, a, b, w[1..]);
    }
  }

  lemma DecimalDigit(n: nat)
    requires n < 10
    ensures Digit(('0' as int + n) as char, 10) == Some(n)
  {
  }

  /** Reading a printed number. */
  lemma {:induction false} DigitsDecimal(s: string, i: nat, n: nat)
    requires At(s, i, Decimal(n))
    ensures Digits(s, i, 10, 0) == Digits(s, i + |Decimal(n)|, 10, n)
    decreases n
  {
    if n < 10 {
      DecimalDigit(n);
      assert s[i + 0] == Decimal(n)[0];
    } else {
      var (w, d) := (Decimal(n / 10), ('0' as int + n % 10) as char);
      AtSplit(s, i, w, [d]);
      DigitsDecimal(s, i, n / 10);
      DecimalDigit(n % 10);
      assert s[i + |w| + 0] == [d][0];
      assert 10 * (n / 10) + n % 10 == n;
    }
  }

  lemma {:induction false} DecimalHead(n: nat)
    requires n > 0
    ensures '1' <= Decimal(n)[0] <= '9'
  {
    if n >= 10 { DecimalHead(n / 10); }
  }

  lemma AtChar(s: string, i: nat, w: string)
    requires w != "" && At(s, i, w)
    ensures i < |s| && s[i] == w[0]
  {
    assert s[i + 0] == w[0];
  }

  lemma StrtolDecimal(s: string, i: nat, n: nat)
    requires 0 < n < INT_MAX && At(s, i, Decimal(n) + "%")
    ensures Strtol(s, i) == (n, i + |Decimal(n)|)
  {
    hide Decimal;
    AtSplit(s, i, Decimal(n), "%");
    DecimalHead(n);
    AtChar(s, i, Decimal(n));
    AtChar(s, i + |Decimal(n)|, "%");
    DigitsDecimal(s, i, n);
  }

  lemma ReadBare(s: string, i: nat, v: string)
    requires v != "" && Legal(v, Bare) && At(s, i, v)
    requires i + |v| < |s| ==> s[i + |v|] == ':'
    ensures ReadValue(s, i) == Value(v, i + |v|)
  {
    AtChar(s, i, v);
    SpanAt(s, i, ':', ':', v);
    AtSlice(s, i, v);
  }

  lemma ReadQuoted(s: string, i: nat, v: string)
    requires Legal(v, Quoted) && At(s, i, "\"" + (v + "\""))
    ensures ReadValue(s, i) == Value(v, i + |v| + 2)
  {
    AtSplit(s, i, "\"", v + "\"");
    AtSplit(s, i + 1, v, "\"");
    AtChar(s, i, "\"");
    AtChar(s, i + 1 + |v|, "\"");
    SpanAt(s, i + 1, '"', '"', v);
    AtSlice(s, i + 1, v);
  }

  lemma ReadCounted(s: string, i: nat, v: string)
    requires v != "" && Legal(v, Counted) && At(s, i, "%" + (Decimal(|v|) + ("%" + v)))
    ensures ReadValue(s, i) == Value(v, i + |Decimal(|v|)| + |v| + 2)
  {
    hide Decimal, Strtol;
    var d := Decimal(|v|);
    AtSplit(s, i, "%", d + ("%" + v));
    assert d + ("%" + v) == (d + "%") + v;
    AtSplit(s, i + 1, d + "%", v);
    AtSplit(s, i + 1, d, "%");
    AtChar(s, i, "%");
    AtChar(s, i + 1 + |d|, "%");
    StrtolDecimal(s, i + 1, |v|);
    AtSlice(s, i + 1 + |d| + 1, v);
  }

  /** A value written in a legal form is read back, when the next thing is ':' or the end. */
  lemma ReadWritten(s: string, i: nat, v: string, f: Form)
    requires v != "" && Legal(v, f) && At(s, i, WriteValue(v, f))
    requires var e := i + |WriteValue(v, f)|; e < |s| ==> s[e] == ':'
    ensures ReadValue(s, i) == Value(v, i + |WriteValue(v, f)|)
  {
    hide At, ReadValue, Legal;
    match f
    case Bare => ReadBare(s, i, v);
    case Quoted => ReadQuoted(s, i, v);
    case Counted => ReadCounted(s, i, v);
  }

  /** A written item is read back, whatever comes after the ':' behind it. */
  lemma ReadWrittenItem(s: string, i: nat, p: Pair, f: Form)
    requires Writable(p, f) && At(s, i, WriteItem(p, f))
    requires var e := i + |WriteItem(p, f)|; e < |s| ==> s[e] == ':'
    ensures i < |s|
    ensures var e := i + |WriteItem(p, f)|;
            ReadItem(s, i) == Item(p.0, p.1.GetOr(""), if e < |s| then e + 1 else e)
  {
    hide ReadValue, WriteValue, Legal;
    var (name, v) := p;
    if v.Some? {
      AtSplit(s, i, name, "=" + WriteValue(v.value, f));
      AtSplit(s, i + |name|, "=", WriteValue(v.value, f));
      AtChar(s, i + |name|, "=");
      ReadWritten(s, i + |name| + 1, v.value, f);
    }
    AtChar(s, i, name);
    SpanAt(s, i, ':', '=', name);
    AtSlice(s, i, name);
  }

  ghost predicate Written(ps: seq<Pair>, fs: seq<Form>) {
    |fs| == |ps| && forall i :: 0 <= i < |ps| ==> Writable(ps[i], fs[i])
  }

  ghost predicate AllWritable(c: Children, ps: seq<Pair>, fs: seq<Form>) {
    Written(ps, fs) && AllAccepted(c, ps)
  }

  ghost predicate AllAccepted(c: Children, ps: seq<Pair>) {
    forall i :: 0 <= i < |ps| ==> Accepted(c, ps[i])
  }

  /** What the parser makes of a list of pairs. */
  function Verdict(c: Children, ps: seq<Pair>): Parsed {
    if ps == [] then Pairs([])
    else if !c.known(ps[0].0) then Failed(UNKNOWN)
    else if c.check(ps[0].0, ps[0].1) < 0 then Failed(c.check(ps[0].0, ps[0].1))
    else match Verdict(c, ps[1..])
         case Failed(code) => Failed(code)
         case Pairs(rest) => Pairs([ps[0]] + rest)
  }

  lemma {:induction false} ParseWritten(c: Children, s: string, i: nat, ps: seq<Pair>, fs: seq<Form>)
    requires ps != [] && Written(ps, fs) && At(s, i, Write(ps, fs))
    requires var e := i + |Write(ps, fs)|; e == |s| || (e + 1 == |s| && s[e] == ':')
    ensures ParseFrom(c, s, i) == Verdict(c, ps)
    decreases |ps|
  {
    hide ReadItem, WriteItem, At;
    var (p, f) := (ps[0], fs[0]);
    var w := WriteItem(p, f);
    assert Writable(p, f);
    assert PairOf(p.0, p.1.GetOr("")) == p;
    if |ps| == 1 {
      ReadWrittenItem(s, i, p, f);
      assert ParseFrom(c, s, |s|) == Pairs([]);
      assert ps[1..] == [];
    } else {
      var rest := Write(ps[1..], fs[1..]);
      AtSplit(s, i, w, ":" + rest);
      AtSplit(s, i + |w|, ":", rest);
      AtChar(s, i + |w|, ":");
      ReadWrittenItem(s, i, p, f);
      ParseWritten(c, s, i + |w| + 1, ps[1..], fs[1..]);
    }
  }

  /** The first pair that is not accepted. */
  ghost predicate FirstBad(c: Children, ps: seq<Pair>, k: nat) {
    k < |ps| && !Accepted(c, ps[k]) && forall i :: 0 <= i < k ==> Accepted(c, ps[i])
  }

  lemma {:induction false} VerdictGood(c: Children, ps: seq<Pair>)
    requires AllAccepted(c, ps)
    ensures Verdict(c, ps) == Pairs(ps)
    decreases |ps|
  {
    if ps != [] {
      assert Accepted(c, ps[0]) && [ps[0]] + ps[1..] == ps;
      forall i | 0 <= i < |ps[1..]| ensures Accepted(c, ps[1..][i]) { assert Accepted(c, ps[i + 1]); }
      VerdictGood(c, ps[1..]);
    }
  }

  lemma {:induction false} VerdictBad(c: Children, ps: seq<Pair>, k: nat)
    requires FirstBad(c, ps, k)
    ensures Verdict(c, ps) == Failed(if c.known(ps[k].0) then c.check(ps[k].0, ps[k].1) else -1)
    decreases |ps|
  {
    if k > 0 {
      assert Accepted(c, ps[0]) && ps[1..][k - 1] == ps[k];
      forall i | 0 <= i < k - 1 ensures Accepted(c, ps[1..][i]) { assert Accepted(c, ps[i + 1]); }
      VerdictBad(c, ps[1..], k - 1);
    }
  }

  /** Round trip: any pairs of accepted names and non-empty values, each value written in a
      form that is legal for it, parse back to the same list; a ':' at the end changes nothing. */
  lemma RoundTrip(c: Children, ps: seq<Pair>, fs: seq<Form>)
    requires ps != [] && AllWritable(c, ps, fs)
    ensures Parse(c, Write(ps, fs)) == Pairs(ps) && Parse(c, Write(ps, fs) + ":") == Pairs(ps)
  {
    ParsesWritten(c, ps, fs);
    VerdictGood(c, ps);
  }

  /** The first sub-option that is unknown fails with M_OPT_UNKNOWN, and the first whose
      parameter its type refuses with that type's code, whatever follows it. */
  lemma FirstErrorDecides(c: Children, ps: seq<Pair>, fs: seq<Form>, k: nat)
    requires Written(ps, fs) && FirstBad(c, ps, k)
    ensures Parse(c, Write(ps, fs)) == Failed(if c.known(ps[k].0) then c.check(ps[k].0, ps[k].1) else -1)
  {
    ParsesWritten(c, ps, fs);
    VerdictBad(c, ps, k);
  }

  lemma ParsesWritten(c: Children, ps: seq<Pair>, fs: seq<Form>)
    requires ps != [] && Written(ps, fs)
    ensures Parse(c, Write(ps, fs)) == Verdict(c, ps) && Parse(c, Write(ps, fs) + ":") == Verdict(c, ps)
  {
    var w := Write(ps, fs);
    assert Writable(ps[0], fs[0]);
    WriteNonEmpty(ps, fs);
    ParseWritten(c, w, 0, ps, fs);
    ParseWritten(c, w + ":", 0, ps, fs);
  }

  /** Quotes that are not closed, and lengths that are negative or too large, make a value
      malformed, and a malformed value makes the whole parameter invalid. */
  lemma MalformedWitness()
    ensures ReadValue("\"b", 0) == Malformed && ReadValue("%2%b", 0) == Malformed && ReadValue("%-1%b", 0) == Malformed
  {
    assert Strtol("%2%b", 1) == (2, 2);
    assert Strtol("%-1%b", 1) == (-1, 3);
  }

  lemma MalformedFails(c: Children, name: string, rest: string)
    requires IsName(name) && ReadValue(name + "=" + rest, |name| + 1) == Malformed
    ensures Parse(c, name + "=" + rest) == Failed(-3) && Parse(c, "") == Failed(-2)
  {
    var s := name + "=" + rest;
    hide ReadValue;
    assert At(s, 0, name);
    SpanAt(s, 0, ':', '=', name);
  }

  /** Lengths may be octal, hexadecimal, signed, and have blanks in front. */
  lemma LengthWitness()
    ensures Strtol("010%", 0) == (8, 3) && Strtol("0x1f%", 0) == (31, 4) && Strtol(" +9%", 0) == (9, 3)
  {
  }

  lemma OddLengthWitness()
    ensures Strtol("-7%", 0) == (-7, 2) && Strtol("%", 0) == (0, 0) && Strtol("08%", 0) == (0, 1)
  {
  }

  lemma WriteNonEmpty(ps: seq<Pair>, fs: seq<Form>)
    requires ps != [] && |fs| == |ps| && IsName(ps[0].0)
    ensures Write(ps, fs) != ""
  {
  }

  /** Every form that is not legal for a value gives something else (or nothing at all). */
  lemma OnlyLegalForms(c: Children, name: string, v: string, f: Form)
    requires IsName(name) && v != "" && f != Counted && Accepted(c, (name, Some(v)))
    ensures Parse(c, Write([(name, Some(v))], [f])) == Pairs([(name, Some(v))]) <==> Legal(v, f)
  {
    var p: Pair := (name, Some(v));
    if Legal(v, f) {
      RoundTrip(c, [p], [f]);
    } else {
      var s := WriteItem(p, f);
      assert Write([p], [f]) == s;
      IllegalItem(s, p, f);
    }
  }

  /** The value read from an illegal form that fills the rest of the string is shorter. */
  lemma IllegalValue(s: string, i: nat, v: string, f: Form)
    requires i <= |s| && s[i..] == WriteValue(v, f) && v != "" && f != Counted && !Legal(v, f)
    ensures ReadValue(s, i).Value? ==> |ReadValue(s, i).param| < |v|
  {
    hide Strtol, Span;
    match f
    case Quoted =>
      var k :| 0 <= k < |v| && v[k] == '"';
      assert s[i..][0] == s[i] && s[i..][k + 1] == s[i + 1 + k] == v[k];
    case Bare =>
      assert s[i..][0] == s[i] == v[0];
      if v[0] != '"' && v[0] != '%' {
        var k :| 0 <= k < |v| && v[k] == ':';
        assert s[i..][k] == s[i + k];
      }
  }

  /** So the first item read has a shorter value. */
  lemma IllegalItem(s: string, p: Pair, f: Form)
    requires IsName(p.0) && p.1.Some? && p.1.value != "" && f != Counted && !Legal(p.1.value, f)
    requires s == WriteItem(p, f)
    ensures ReadItem(s, 0).Item? ==> |ReadItem(s, 0).param| < |p.1.value|
  {
    hide ReadValue, WriteValue, Legal;
    var (name, v) := (p.0, p.1.value);
    var e := |name|;
    assert s[e] == '=' && s[e + 1..] == WriteValue(v, f);
    assert At(s, 0, name);
    SpanAt(s, 0, ':', '=', name);
    IllegalValue(s, e + 1, v, f);
  }

  // ------------------------------------------------------ the parser as written

  /** The loop of parse_subconf, with the position p in the parameter and the list so far. */
  method ParseSubconf(c: Children, param: string) returns (code: int, lst: seq<Pair>)
    ensures match Parse(c, param)
            case Failed(r) => code == r < 0
            case Pairs(l) => code == 1 && lst == l
  {
    hide ReadItem;
    lst := [];
    if param == "" { return MISSING_PARAM, []; }
    var p := 0;
    while p < |param|
      invariant p <= |param|
      invariant Parse(c, param) == Prefixed(lst, ParseFrom(c, param, p))
      decreases |param| - p
    {
      var ok, subopt, subparam, next := ReadSuboption(param, p);
      if !ok { return INVALID, []; }
      p := next;
      if !c.known(subopt) { return UNKNOWN, []; }
      var value := if subparam == "" then None else Some(subparam);
      code := c.check(subopt, value);
      if code < 0 { return; }
      ghost var before := lst;
      lst := lst + [(subopt, value)];
      PrefixedStep(before, (subopt, value), ParseFrom(c, param, p));
    }
    code := 1;
  }

  /** One turn of the loop up to the checks: name, value and the position behind the ':'. */
  method ReadSuboption(param: string, start: nat) returns (ok: bool, subopt: string, subparam: string, p: nat)
    requires start < |param|
    ensures match ReadItem(param, start)
            case BadItem => !ok
            case Item(name, v, next) => ok && subopt == name && subparam == v && p == next
  {
    hide ReadValue, Span;
    p, ok := start, true;
    var optlen := Span(param, p, ':', '=') - p;
    subopt := param[p..p + optlen];
    subparam := "";
    p := p + optlen;
    if p < |param| && param[p] == '=' {
      ok, subparam, p := ReadParameter(param, p + 1);
      if !ok { return; }
    }
    if p < |param| && param[p] == ':' {
      p := p + 1;
    } else if p < |param| {
      ok := false;
    }
  }

  function Prefixed(l: seq<Pair>, r: Parsed): Parsed {
    match r case Failed(_) => r case Pairs(rest) => Pairs(l + rest)
  }

  lemma PrefixedStep(l: seq<Pair>, p: Pair, r: Parsed)
    ensures Prefixed(l, match r case Failed(_) => r case Pairs(rest) => Pairs([p] + rest)) == Prefixed(l + [p], r)
  {
    if r.Pairs? { assert l + ([p] + r.list) == (l + [p]) + r.list; }
  }

  /** The value after '=' and the position behind it. */
  method ReadParameter(param: string, start: nat) returns (ok: bool, subparam: string, p: nat)
    requires start <= |param|
    ensures match ReadValue(param, start)
            case Malformed => !ok
            case Value(v, end) => ok && subparam == v && p == end
  {
    p, ok, subparam := start, false, "";
    if p < |param| && param[p] == '"' {
      p := p + 1;
      var optlen := Span(param, p, '"', '"') - p;
      subparam := param[p..p + optlen];
      p := p + optlen;
      if p == |param| { return; }
      p := p + 1;
    } else if p < |param| && param[p] == '%' {
      p := p + 1;
      var v, q := Strtol(param, p).0, Strtol(param, p).1;
      var optlen := ToInt(v);
      if q == |param| || param[q] != '%' { return; }
      if optlen < 0 || optlen > |param| - q - 1 { return; }
      p := q + 1;
      subparam := param[p..p + optlen];
      p := p + optlen;
    } else {
      var optlen := Span(param, p, ':', ':') - p;
      subparam := param[p..p + optlen];
      p := p + optlen;
    }
    ok := true;
  }
}
