/** String list options (m_option.c): elements separated by ',', a ',' inside an element
    preceded by a backslash.  The parser looks back from each ',' it finds and squeezes
    backslashes out in place; the reference reads one character after the other. */
module StringList {
  import opened Wrappers
  import opened OptionCodes

  // ------------------------------------------------------ reference reader

  /** The first element of s and what follows its ',', if one ends it. */
  function Seg(s: string): (r: (string, Option<string>))
    ensures r.1.Some? ==> |r.1.value| < |s|
    ensures |r.0| <= |s|
  {
    if s == "" then ("", None)
    else if s[0] == ',' then ("", Some(s[1..]))
    else if s[0] == '\\' && |s| > 1 && s[1] == ',' then
      var (e, rest) := Seg(s[2..]);
      ("," + e, rest)
    else
      var (e, rest) := Seg(s[1..]);
      ([s[0]] + e, rest)
  }

  function Split(s: string): (r: seq<string>)
    ensures r != []
    decreases |s|
  {
    var (e, rest) := Seg(s);
    if rest.None? then [e] else [e] + Split(rest.value)
  }

  /** The number of elements found by the first pass, which stops at the end of the string. */
  function Count(s: string): nat
    decreases |s|
  {
    if s == "" then 0
    else match Seg(s).1 case None => 1 case Some(t) => 1 + Count(t)
  }

  lemma {:induction false} SegEmpty(s: string)
    ensures Seg(s) == ("", None) <==> s == ""
  {
  }

  /** The string is empty or ends in a ',' that no backslash escapes. */
  predicate EndsBare(s: string) {
    s == "" || (s[|s| - 1] == ',' && !(|s| > 1 && s[|s| - 2] == '\\'))
  }

  lemma {:induction false} SegTail(s: string)
    ensures match Seg(s).1
            case None => s != "" ==> !EndsBare(s)
            case Some(t) => EndsBare(s) <==> EndsBare(t)
    decreases |s|
  {
    if s != "" && s[0] != ',' {
      SegTail(if s[0] == '\\' && |s| > 1 && s[1] == ',' then s[2..] else s[1..]);
    }
  }

  /** The first pass counts one element too few exactly when the string ends in a bare ',' (or
      is empty), for then the last element is empty; so a list with room for two more entries
      than counted always holds the elements and the terminating null. */
  lemma {:induction false} CountIsLength(s: string)
    ensures |Split(s)| == Count(s) + if EndsBare(s) then 1 else 0
    ensures Split(s)[|Split(s)| - 1] == "" <==> EndsBare(s)
    decreases |s|
  {
    SegEmpty(s);
    SegTail(s);
    match Seg(s).1 {
      case None =>
      case Some(t) => CountIsLength(t);
    }
  }

  // ------------------------------------------------------ printing

  function Escape(e: string): string {
    if e == "" then "" else (if e[0] == ',' then "\\," else [e[0]]) + Escape(e[1..])
  }

  /** Elements escaped and joined. */
  function Print(l: seq<string>): string {
    if l == [] then "" else if |l| == 1 then Escape(l[0]) else Escape(l[0]) + ("," + Print(l[1..]))
  }

  predicate EndsInBackslash(e: string) {
    e != "" && e[|e| - 1] == '\\'
  }

  /** Reading an escaped element that is ended by a ',' or by the end of the string. */
  lemma {:induction false} SegEscaped(e: string, t: string)
    ensures Seg(Escape(e)) == (e, None)
    ensures !EndsInBackslash(e) ==> Seg(Escape(e) + ("," + t)) == (e, Some(t))
    decreases |e|
  {
    if e == "" {
      assert "" + ("," + t) == "," + t && ("," + t)[1..] == t;
    } else {
      hide Seg;
      var (c, e') := (e[0], e[1..]);
      SegEscaped(e', t);
      EscapedHead(e');
      assert e == [c] + e';
      EscapeCons(c, e', t);
      Step(c, Escape(e'));
      if !EndsInBackslash(e) {
        assert e' != "" ==> e'[|e'| - 1] == e[|e| - 1];
        Step(c, Escape(e') + ("," + t));
      }
    }
  }

  lemma {:induction false} EscapeCons(c: char, e: string, t: string)
    ensures Escape([c] + e) == Escape([c]) + Escape(e)
    ensures Escape([c] + e) + ("," + t) == Escape([c]) + (Escape(e) + ("," + t))
  {
    assert [c][1..] == "" && ([c] + e)[1..] == e;
    assert Escape([c]) + "" == Escape([c]);
  }

  /** An escaped element never begins with a bare ','. */
  lemma {:induction false} EscapedHead(e: string)
    ensures Escape(e) != "" ==> Escape(e)[0] != ','
  {
  }

  /** One escaped character in front of a string that it cannot combine with. */
  lemma {:induction false} Step(c: char, t: string)
    requires c == '\\' ==> t == "" || t[0] != ','
    ensures Escape([c]) == (if c == ',' then "\\," else [c])
    ensures Seg(Escape([c]) + t) == ([c] + Seg(t).0, Seg(t).1)
  {
    assert [c][1..] == "" && Escape("") == "";
    var w := Escape([c]) + t;
    if c == ',' {
      assert w[0] == '\\' && w[1] == ',' && w[2..] == t;
    } else {
      assert w[0] == c && w[1..] == t;
    }
  }

  predicate Separable(l: seq<string>) {
    forall i :: 0 <= i < |l| - 1 ==> !EndsInBackslash(l[i])
  }

  lemma {:induction false} SplitPrinted(l: seq<string>)
    requires l != [] && Separable(l)
    ensures Split(Print(l)) == l
    decreases |l|
  {
    if |l| == 1 {
      SegEscaped(l[0], "");
    } else {
      SegEscaped(l[0], Print(l[1..]));
      assert forall i :: 0 <= i < |l[1..]| - 1 ==> l[1..][i] == l[i + 1];
      SplitPrinted(l[1..]);
    }
  }

  /** The ',' after an element that ends in a backslash is read as part of the element. */
  lemma {:induction false} SegOverrun(e: string, t: string)
    requires EndsInBackslash(e)
    ensures |Seg(Escape(e) + ("," + t)).0| >= |e| && Seg(Escape(e) + ("," + t)).0[|e| - 1] == ','
    decreases |e|
  {
    var (c, e') := (e[0], e[1..]);
    assert e == [c] + e';
    if e' == "" {
      assert Escape(e) == "\\" + Escape("") && Escape("") == "";
      var w := Escape(e) + ("," + t);
      assert w[0] == '\\' && w[1] == ',';
    } else {
      assert e'[|e'| - 1] == e[|e| - 1];
      SegOverrun(e', t);
      EscapedHead(e');
      assert Escape(e') != "";
      assert Escape(e) + ("," + t) == Escape([c]) + (Escape(e') + ("," + t)) by { Step(c, Escape(e')); }
      Step(c, Escape(e') + ("," + t));
    }
  }

  lemma {:induction false} SplitOverrun(l: seq<string>)
    requires l != [] && !Separable(l)
    ensures Split(Print(l)) != l
    decreases |l|
  {
    if EndsInBackslash(l[0]) {
      SegOverrun(l[0], Print(l[1..]));
      assert Split(Print(l))[0] == Seg(Print(l)).0;
    } else {
      SegEscaped(l[0], Print(l[1..]));
      var i :| 0 <= i < |l| - 1 && EndsInBackslash(l[i]);
      assert l[1..][i - 1] == l[i];
      SplitOverrun(l[1..]);
      assert Split(Print(l)) == [l[0]] + Split(Print(l[1..]));
      assert Split(Print(l))[1..] == Split(Print(l[1..]));
    }
  }

  // ------------------------------------------------------ the parser's result

  datatype Parsed = Failed(code: int) | List(elements: seq<string>)

  /** parse_str_list without a suffix operation; bounds are on the counted number. */
  function Parse(param: string, min: Option<int>, max: Option<int>): Parsed {
    if param == "" then Failed(MISSING_PARAM)
    else if (min.Some? && Count(param) < min.value) || (max.Some? && Count(param) > max.value) then Failed(OUT_OF_RANGE)
    else List(Split(param))
  }

  /** The bounds are checked on the counted number: a list one too long for the maximum is
      accepted, and one that just meets the minimum refused, exactly if the string ends in a
      bare ','. */
  lemma RangeCheckSlips(p: string, min: Option<int>, max: Option<int>)
    requires p != ""
    ensures max.Some? && min.None?
            ==> ((Parse(p, min, max).List? && |Parse(p, min, max).elements| > max.value)
                 <==> EndsBare(p) && |Split(p)| == max.value + 1)
    ensures min.Some? && max.None?
            ==> ((Parse(p, min, max).Failed? && |Split(p)| >= min.value) <==> EndsBare(p) && |Split(p)| == min.value)
    ensures min.Some? && max.Some? && min.value <= max.value
            ==> (Parse(p, min, max).List? <==> min.value <= |Split(p)| - (if EndsBare(p) then 1 else 0) <= max.value)
  {
    CountIsLength(p);
  }

  /** "a," makes two elements, and passes a check for at most one. */
  lemma RangeCheckWitness()
    ensures Parse("a,", None, Some(1)) == List(["a", ""]) && Parse("a,", Some(2), None) == Failed(OUT_OF_RANGE)
  {
    assert "a,"[1..] == "," && ","[1..] == "";
    assert Seg(",") == ("", Some(""));
    assert Seg("a,") == ("a", Some("")) by { assert "a" + "" == "a"; }
    assert Split("") == [""];
    assert Count("a,") == 1 + Count("");
  }

  /** Escaping, joining and parsing gives the list back exactly when there is something to
      parse and no element but the last ends in a backslash. */
  lemma RoundTrip(l: seq<string>)
    ensures Parse(Print(l), None, None) == List(l) <==> l != [] && l != [""] && Separable(l)
  {
    if l != [] && Separable(l) { SplitPrinted(l); }
    if l != [] && !Separable(l) { SplitOverrun(l); }
    if l != [] && Print(l) == "" && Separable(l) {
      assert Split("") == [""];
    }
  }

  // ------------------------------------------------------ the program's own printer

  /** print_str_list: elements joined as they are. */
  function Join(l: seq<string>): string {
    if l == [] then "" else if |l| == 1 then l[0] else l[0] + ("," + Join(l[1..]))
  }

  function Commas(e: string): nat {
    if e == "" then 0 else (if e[0] == ',' then 1 else 0) + Commas(e[1..])
  }

  function AllCommas(l: seq<string>): nat {
    if l == [] then 0 else Commas(l[0]) + AllCommas(l[1..])
  }

  function Total(l: seq<string>): nat {
    if l == [] then 0 else |l[0]| + Total(l[1..])
  }

  lemma {:induction false} SegWeight(s: string)
    ensures var (e, rest) := Seg(s);
            |e| + Commas(e) + (if rest.Some? then 1 + |rest.value| else 0) == |s|
    decreases |s|
  {
    if s == "" || s[0] == ',' {
    } else if s[0] == '\\' && |s| > 1 && s[1] == ',' {
      SegWeight(s[2..]);
      var e := Seg(s[2..]).0;
      assert ("," + e)[1..] == e;
    } else {
      SegWeight(s[1..]);
      var e := Seg(s[1..]).0;
      assert ([s[0]] + e)[1..] == e;
    }
  }

  /** A character of s is in an element, or a separator, or a backslash in front of a ','. */
  lemma {:induction false} SplitWeight(s: string)
    ensures Total(Split(s)) + |Split(s)| - 1 + AllCommas(Split(s)) == |s|
    decreases |s|
  {
    SegWeight(s);
    var (e, rest) := Seg(s);
    if rest.Some? {
      SplitWeight(rest.value);
      assert ([e] + Split(rest.value))[1..] == Split(rest.value);
    } else {
      assert [e][1..] == [];
    }
  }

  lemma {:induction false} JoinWeight(l: seq<string>)
    requires l != []
    ensures |Join(l)| == Total(l) + |l| - 1
    decreases |l|
  {
    if |l| == 1 {
      assert l[1..] == [];
    } else {
      JoinWeight(l[1..]);
    }
  }

  lemma {:induction false} PlainEscape(e: string)
    requires Commas(e) == 0
    ensures Escape(e) == e
  {
    if e != "" { PlainEscape(e[1..]); }
  }

  lemma {:induction false} PlainPrint(l: seq<string>)
    requires AllCommas(l) == 0
    ensures Print(l) == Join(l)
    decreases |l|
  {
    if l != [] {
      PlainEscape(l[0]);
      PlainPrint(l[1..]);
    }
  }

  /** What the program prints it can read again exactly when, besides, no element contains a ','. */
  lemma RawRoundTrip(l: seq<string>)
    ensures Parse(Join(l), None, None) == List(l)
            <==> l != [] && l != [""] && Separable(l) && AllCommas(l) == 0
  {
    if l != [] {
      SplitWeight(Join(l));
      JoinWeight(l);
      if AllCommas(l) == 0 {
        PlainPrint(l);
        RoundTrip(l);
      }
    }
  }

  lemma RawRoundTripWitness()
    ensures Join(["a,b"]) == "a,b" && Parse("a,b", None, None) != List(["a,b"])
  {
    RawRoundTrip(["a,b"]);
    assert "a,b"[1..] == ",b" && Commas(",b") >= 1;
  }

  // ------------------------------------------------------ the two passes

  /** The next ',' from a position on, or the end of the string. */
  function Comma(s: string, from: nat): (r: nat)
    requires from <= |s|
    ensures from <= r <= |s|
    ensures forall k :: from <= k < r ==> s[k] != ','
    ensures r < |s| ==> s[r] == ','
    decreases |s| - from
  {
    if from == |s| || s[from] == ',' then from else Comma(s, from + 1)
  }

  predicate Plain(y: string) {
    forall k :: 0 <= k < |y| ==> y[k] != ','
  }

  lemma {:induction false} SegPlain(y: string)
    requires Plain(y)
    ensures Seg(y) == (y, None)
    decreases |y|
  {
    if y != "" {
      SegPlain(y[1..]);
      assert [y[0]] + y[1..] == y;
    }
  }

  /** A stretch without ',' is copied; what happens at the ',' depends on its last character. */
  lemma {:induction false} SegStretch(y: string, t: string)
    requires Plain(y)
    ensures Seg(y + ("," + t)) == if EndsInBackslash(y) then (y[..|y| - 1] + ("," + Seg(t).0), Seg(t).1) else (y, Some(t))
    decreases |y|
  {
    var w := y + ("," + t);
    if y == "" {
      assert w[0] == ',' && w[1..] == t;
    } else if y == "\\" {
      assert w[0] == '\\' && w[1] == ',' && w[2..] == t && y[..0] == "";
      assert y[..0] + ("," + Seg(t).0) == "," + Seg(t).0;
    } else {
      var y' := y[1..];
      SegStretch(y', t);
      StretchHead(y, y' + ("," + t));
      assert y == [y[0]] + y' && w == [y[0]] + (y' + ("," + t));
      assert y' != "" ==> y[|y| - 1] == y'[|y'| - 1];
      if EndsInBackslash(y) {
        assert y[..|y| - 1] == [y[0]] + y'[..|y'| - 1];
        assert ([y[0]] + y'[..|y'| - 1]) + ("," + Seg(t).0) == [y[0]] + (y'[..|y'| - 1] + ("," + Seg(t).0));
      }
    }
  }

  lemma {:induction false} StretchHead(y: string, t: string)
    requires Plain(y) && y != "" && y != "\\" && t != "" && t[0] == (if |y| > 1 then y[1] else ',')
    ensures Seg([y[0]] + t) == ([y[0]] + Seg(t).0, Seg(t).1)
  {
    var w := [y[0]] + t;
    assert w[0] == y[0] && w[1] == t[0] && w[1..] == t;
    assert |y| == 1 ==> y == [y[0]];
  }

  /** get_nextsep without modifying: the place of the ',' that ends the element starting at `start`. */
  method NextSep(s: string, start: nat) returns (r: Option<nat>)
    requires start <= |s|
    ensures r.None? ==> Seg(s[start..]).1 == None
    ensures r.Some? ==> start <= r.value < |s| && Seg(s[start..]).1 == Some(s[r.value + 1..])
  {
    hide Seg;
    var ptr := start;
    while true
      invariant start <= ptr <= |s| && Seg(s[ptr..]).1 == Seg(s[start..]).1
      invariant ptr > start ==> s[ptr - 1] == ','
      decreases |s| - ptr
    {
      var q := Comma(s, ptr);
      Stretch(s, ptr);
      if q == |s| { return None; }
      if q > start && s[q - 1] == '\\' {
        ptr := q + 1;
      } else {
        return Some(q);
      }
    }
  }

  lemma AllButLast(s: string, i: nat, j: nat)
    requires i < j <= |s|
    ensures |s[i..j]| == j - i && s[i..j][..j - i - 1] == s[i..j - 1] && s[i..j][j - i - 1] == s[j - 1]
  {
  }

  /** From ptr to the next ',', in terms of the string. */
  lemma {:induction false} Stretch(s: string, ptr: nat)
    requires ptr <= |s|
    ensures var q := Comma(s, ptr);
            && (q == |s| ==> Seg(s[ptr..]) == (s[ptr..], None))
            && (q < |s| && q > ptr && s[q - 1] == '\\' ==>
                  Seg(s[ptr..]) == (s[ptr..q - 1] + ("," + Seg(s[q + 1..]).0), Seg(s[q + 1..]).1))
            && (q < |s| && !(q > ptr && s[q - 1] == '\\') ==> Seg(s[ptr..]) == (s[ptr..q], Some(s[q + 1..])))
  {
    hide Seg;
    var q := Comma(s, ptr);
    var y := s[ptr..q];
    if q == |s| {
      assert y == s[ptr..];
      SegPlain(y);
    } else {
      SegStretch(y, s[q + 1..]);
      assert s[ptr..] == y + ("," + s[q + 1..]);
      if q > ptr { AllButLast(s, ptr, q); }
    }
  }

  /** The first pass. */
  method CountElements(param: string) returns (n: nat)
    ensures n == Count(param)
  {
    var ptr := 0;
    n := 0;
    while ptr < |param|
      invariant ptr <= |param| && n + Count(param[ptr..]) == Count(param)
      decreases |param| - ptr
    {
      var r := NextSep(param, ptr);
      if r.None? { return n + 1; }
      ptr := r.value + 1;
      n := n + 1;
    }
  }

  /** buf holds a C string whose terminator is at `len`. */
  ghost predicate Terminated(buf: array<char>, len: nat)
    reads buf
  {
    len < buf.Length && buf[len] == '\0' && forall k :: 0 <= k < len ==> buf[k] != '\0'
  }

  lemma TerminatedInside(buf: array<char>, len: nat)
    requires Terminated(buf, len)
    ensures len < buf.Length
  {
  }

  method Strlen(buf: array<char>, from: nat, ghost len: nat) returns (n: nat)
    requires Terminated(buf, len) && from <= len
    ensures n == len - from
  {
    n := 0;
    while buf[from + n] != '\0'
      invariant from + n <= len
      decreases len - n
    {
      n := n + 1;
    }
  }

  /** The next ',' from p on, or the terminator. */
  method Strchr(buf: array<char>, p: nat, ghost len: nat) returns (q: nat)
    requires Terminated(buf, len) && p <= len
    ensures len < buf.Length && q == Comma(buf[..len], p)
    ensures p <= q <= len && (buf[q] == '\0' <==> q == len)
  {
    q := p;
    while buf[q] != '\0' && buf[q] != ','
      invariant p <= q <= len && Comma(buf[..len], q) == Comma(buf[..len], p)
      decreases len - q
    {
      q := q + 1;
    }
  }

  /** Takes one character out: everything from q on moves one place down. */
  method Squeeze(buf: array<char>, q: nat, ghost len: nat)
    requires Terminated(buf, len) && 0 < q <= len
    modifies buf
    ensures Terminated(buf, len - 1) && buf[..len - 1] == old(buf[..q - 1]) + old(buf[q..len])
  {
    var n := Strlen(buf, q, len);
    ghost var before := buf[..];
    forall k | q <= k <= q + n { buf[k - 1] := buf[k]; }
    assert forall k :: 0 <= k < q - 1 ==> buf[k] == before[k];
    assert forall k :: q - 1 <= k < len ==> buf[k] == before[k + 1];
    assert buf[..len - 1] == before[..q - 1] + before[q..len];
  }

  /** The string s was reached from one whose element at `start` reads as `all`: up to ptr it
      has been unescaped, from there on it is untouched. */
  ghost predicate Reading(s: string, start: nat, ptr: nat, all: (string, Option<string>)) {
    && start <= ptr <= |s|
    && (ptr > start ==> s[ptr - 1] == ',')
    && all == (s[start..ptr] + Seg(s[ptr..]).0, Seg(s[ptr..]).1)
  }

  lemma ReadingStarts(s: string, start: nat)
    requires start <= |s|
    ensures Reading(s, start, start, Seg(s[start..]))
  {
    assert s[start..start] == "" && "" + Seg(s[start..]).0 == Seg(s[start..]).0;
  }

  lemma ReadingEnds(s: string, start: nat, ptr: nat, all: (string, Option<string>))
    requires Reading(s, start, ptr, all)
    ensures var q := Comma(s, ptr);
            && (q == |s| ==> all == (s[start..], None))
            && (q < |s| && !(q > start && s[q - 1] == '\\') ==> all == (s[start..q], Some(s[q + 1..])))
  {
    hide Seg;
    Stretch(s, ptr);
    var q := Comma(s, ptr);
    assert s[start..q] == s[start..ptr] + s[ptr..q] && s[start..] == s[start..ptr] + s[ptr..];
  }

  lemma ReadingSqueezed(s: string, t: string, start: nat, ptr: nat, all: (string, Option<string>))
    requires Reading(s, start, ptr, all)
    requires var q := Comma(s, ptr); start < q < |s| && s[q - 1] == '\\' && t == s[..q - 1] + s[q..]
    ensures Reading(t, start, Comma(s, ptr), all)
  {
    hide Seg;
    Stretch(s, ptr);
    var q := Comma(s, ptr);
    var x := Seg(s[q + 1..]).0;
    assert t[q..] == s[q + 1..];
    assert t[start..q] == s[start..ptr] + (s[ptr..q - 1] + ",");
    assert (s[start..ptr] + (s[ptr..q - 1] + ",")) + x == s[start..ptr] + (s[ptr..q - 1] + ("," + x));
  }

  lemma PrefixSqueezed(s: string, start: nat, q: nat)
    requires start < q <= |s|
    ensures (s[..q - 1] + s[q..])[..start] == s[..start]
  {
  }

  /** get_nextsep, modifying: ends the element starting at `start`, with the backslashes in
      front of its ','s taken out of the buffer. */
  method NextSepInPlace(buf: array<char>, start: nat, ghost len: nat) returns (r: Option<nat>, ghost len': nat)
    requires Terminated(buf, len) && start <= len
    modifies buf
    ensures start <= len' <= len && Terminated(buf, len') && buf[..start] == old(buf[..start])
    ensures var all := Seg(old(buf[..len])[start..]);
            var s := buf[..len'];
            match r
            case None => all == (s[start..], None)
            case Some(q) => start <= q < len' && all == (s[start..q], Some(s[q + 1..]))
  {
    hide Seg, Reading, Comma, Terminated;
    TerminatedInside(buf, len);
    len' := len;
    ghost var s := buf[..len];
    ghost var all := Seg(s[start..]);
    ReadingStarts(s, start);
    var ptr := start;
    while true
      invariant start <= ptr <= len' <= len < buf.Length && Terminated(buf, len') && s == buf[..len']
      invariant s[..start] == old(buf[..start]) && Reading(s, start, ptr, all)
      decreases len' - ptr
    {
      var q := Strchr(buf, ptr, len');
      ReadingEnds(s, start, ptr, all);
      if buf[q] == '\0' { return None, len'; }
      if q > start && buf[q - 1] == '\\' {
        Squeeze(buf, q, len');
        len' := len' - 1;
        ReadingSqueezed(s, buf[..len'], start, ptr, all);
        PrefixSqueezed(s, start, q);
        s := buf[..len'];
        ptr := q;
      } else {
        return Some(q), len';
      }
    }
  }

  /** The second pass: cuts the buffer up into the table.  n + 2 places are always enough. */
  method FillTable(buf: array<char>, param: string, n: nat) returns (res: array<Option<string>>)
    requires buf[..] == param + ['\0'] && '\0' !in param && n == Count(param)
    modifies buf
    ensures var l := Split(param);
            && |l| < res.Length && res[|l|] == None
            && forall i :: 0 <= i < |l| ==> res[i] == Some(l[i])
  {
    hide Seg, Count, Split;
    CountIsLength(param);
    ghost var l := Split(param);
    ghost var len := |param|;
    res := new Option<string>[n + 2](_ => None);
    var ptr: nat := 0;
    var m: nat := 0;
    assert forall k :: 0 <= k < len ==> buf[k] == buf[..][k] == param[k];
    assert buf[..len][0..] == param;
    while true
      invariant ptr <= len && Terminated(buf, len) && fresh(res) && res.Length == n + 2
      invariant m < |l| && l[m..] == Split(buf[..len][ptr..])
      invariant forall i :: 0 <= i < m ==> res[i] == Some(l[i])
      decreases |l| - m
    {
      ghost var rest := buf[..len][ptr..];
      var q;
      q, len := NextSepInPlace(buf, ptr, len);
      SplitStep(l, m, rest);
      if q.None? {
        var size := Strlen(buf, ptr, len);
        assert buf[..len][ptr..] == buf[ptr..ptr + size];
        res[m] := Some(buf[ptr..ptr + size]);
        m := m + 1;
        break;
      }
      assert buf[..len][ptr..q.value] == buf[ptr..q.value];
      res[m] := Some(buf[ptr..q.value]);
      ptr := q.value + 1;
      m := m + 1;
    }
    res[m] := None;
  }

  lemma {:induction false} SplitStep(l: seq<string>, m: nat, s: string)
    requires m < |l| && l[m..] == Split(s)
    ensures var (e, rest) := Seg(s);
            l[m] == e && (if rest.None? then |l| == m + 1 else m + 1 < |l| && l[m + 1..] == Split(rest.value))
  {
    var (e, rest) := Seg(s);
    assert l[m..][0] == l[m];
    assert l[m..][1..] == l[m + 1..];
  }

  /** parse_str_list without a suffix operation. */
  method ParseStrList(param: string, min: Option<int>, max: Option<int>)
    returns (code: int, res: array?<Option<string>>)
    requires '\0' !in param
    ensures match Parse(param, min, max)
            case Failed(c) => code == c && res == null
            case List(l) =>
              && code == 1 && res != null && |l| < res.Length && res[|l|] == None
              && forall i :: 0 <= i < |l| ==> res[i] == Some(l[i])
  {
    if param == "" { return MISSING_PARAM, null; }
    var n := CountElements(param);
    if min.Some? && n < min.value { return OUT_OF_RANGE, null; }
    if max.Some? && n > max.value { return OUT_OF_RANGE, null; }
    var buf := new char[|param| + 1](i => if 0 <= i < |param| then param[i] else '\0');
    assert buf[..] == param + ['\0'];
    code := 1;
    res := FillTable(buf, param, n);
  }
}
