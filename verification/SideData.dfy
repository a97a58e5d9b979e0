/** Packet side data carried behind the payload (av_helpers.c): each element's bytes, their
    length as a 32-bit big-endian number and its type, first element last, the innermost one
    flagged by bit 7 of its type, then an 8-byte marker. */
module SideData {
  import opened Wrappers

  newtype byte = x: int | 0 <= x < 256

  const INT_MAX := 0x7fff_ffff
  /** AV_INPUT_BUFFER_PADDING_SIZE */
  const PADDING := 64
  /** AV_PKT_DATA_NB: the number of side data types */
  const DATA_NB := 32
  const EINVAL := -22
  const ERANGE := -34

  const MARKER: seq<byte> := [0x8c, 0x4d, 0x9d, 0x10, 0x8e, 0x25, 0xe9, 0xfe]

  datatype Side = Side(kind: nat, data: seq<byte>)

  // ------------------------------------------------------ numbers

  /** AV_WB32 */
  function WB32(n: nat): (r: seq<byte>)
    requires n < 0x1_0000_0000
    ensures |r| == 4
  {
    [(n / 0x100_0000) as byte, (n / 0x1_0000 % 0x100) as byte, (n / 0x100 % 0x100) as byte, (n % 0x100) as byte]
  }

  /** AV_RB32 at position p */
  function RB32(b: seq<byte>, p: nat): (r: nat)
    requires p + 4 <= |b|
    ensures r < 0x1_0000_0000
  {
    b[p] as int * 0x100_0000 + b[p + 1] as int * 0x1_0000 + b[p + 2] as int * 0x100 + b[p + 3] as int
  }

  lemma Digits(n: nat)
    ensures n == n / 0x100_0000 * 0x100_0000 + n / 0x1_0000 % 0x100 * 0x1_0000 + n / 0x100 % 0x100 * 0x100 + n % 0x100
  {
    var (a, b, c) := (n / 0x100, n / 0x1_0000, n / 0x100_0000);
    assert n == 0x100 * a + n % 0x100;
    assert a == 0x100 * b + a % 0x100;
    assert b == 0x100 * c + b % 0x100;
  }

  lemma ReadWritten(b: seq<byte>, p: nat, n: nat)
    requires p + 4 <= |b| && n < 0x1_0000_0000 && b[p..p + 4] == WB32(n)
    ensures RB32(b, p) == n
  {
    var w := b[p..p + 4];
    assert w[0] == b[p] && w[1] == b[p + 1] && w[2] == b[p + 2] && w[3] == b[p + 3];
    Digits(n);
  }

  lemma WriteRead(b: seq<byte>, p: nat)
    requires p + 4 <= |b|
    ensures WB32(RB32(b, p)) == b[p..p + 4]
  {
    var (x, y, z, w) := (b[p] as int, b[p + 1] as int, b[p + 2] as int, b[p + 3] as int);
    var n := RB32(b, p);
    assert n / 0x100_0000 == x && n / 0x1_0000 == x * 0x100 + y && n / 0x100 == x * 0x1_0000 + y * 0x100 + z;
  }

  // ------------------------------------------------------ the format

  /** `type | (innermost ? 128 : 0)`, stored in a byte. */
  function TypeByte(kind: nat, innermost: bool): byte {
    var low := kind % 256;
    (if innermost && low < 128 then low + 128 else low) as byte
  }

  function Element(s: Side, innermost: bool): (r: seq<byte>)
    requires |s.data| <= INT_MAX
    ensures |r| == |s.data| + 5
  {
    s.data + WB32(|s.data|) + [TypeByte(s.kind, innermost)]
  }

  predicate Sized(sides: seq<Side>) {
    forall s :: s in sides ==> |s.data| <= INT_MAX - 5
  }

  /** All elements; the first one ends up next to the marker. */
  function Trailer(sides: seq<Side>): (r: seq<byte>)
    requires sides != [] && Sized(sides)
    ensures |r| == TrailerSize(sides)
    decreases |sides|
  {
    if |sides| == 1 then Element(sides[0], true)
    else Trailer(sides[1..]) + Element(sides[0], false)
  }

  function TrailerSize(sides: seq<Side>): nat {
    if sides == [] then 0 else |sides[0].data| + 5 + TrailerSize(sides[1..])
  }

  datatype Merged = Unmerged | Refused(code: int) | Bytes(bytes: seq<byte>)

  function Merge(payload: seq<byte>, sides: seq<Side>): Merged {
    if sides == [] then Unmerged
    else if |payload| + 8 + PADDING + TrailerSize(sides) > INT_MAX then Refused(EINVAL)
    else
      SizedByTotal(sides);
      Bytes(payload + Trailer(sides) + MARKER)
  }

  lemma {:induction false} SizedByTotal(sides: seq<Side>)
    ensures TrailerSize(sides) <= INT_MAX ==> Sized(sides)
    ensures forall s :: s in sides ==> |s.data| + 5 <= TrailerSize(sides)
  {
    if sides != [] {
      SizedByTotal(sides[1..]);
      assert forall s :: s in sides ==> s == sides[0] || s in sides[1..];
    }
  }

  /** The elements read backwards from the length field at p, and where the first byte of the
      innermost one lies; None if a length does not fit. */
  function Elements(b: seq<byte>, p: nat): (r: Option<(seq<Side>, nat)>)
    requires p + 5 <= |b|
    ensures r.Some? ==> r.value.0 != [] && r.value.1 <= p
    ensures r.Some? ==> forall s :: s in r.value.0 ==> s.kind < 128 && |s.data| <= INT_MAX - 5
    decreases p
  {
    var size := RB32(b, p);
    if size > INT_MAX - 5 || p < size then None
    else
      var s := Side(b[p + 4] as nat % 128, b[p - size..p]);
      if b[p + 4] >= 128 then Some(([s], p - size))
      else if p < size + 5 then None
      else match Elements(b, p - size - 5)
           case None => None
           case Some((rest, start)) => Some(([s] + rest, start))
  }

  datatype Splitted = Unsplit | TooMany | Parts(payload: seq<byte>, sides: seq<Side>)

  predicate Marked(b: seq<byte>) {
    |b| > 12 && b[|b| - 8..] == MARKER
  }

  function Split(b: seq<byte>): Splitted {
    if !Marked(b) then Unsplit
    else match Elements(b, |b| - 13)
         case None => Unsplit
         case Some((sides, start)) => if |sides| > DATA_NB then TooMany else Parts(b[..start], sides)
  }

  // ------------------------------------------------------ split undoes merge

  lemma Slice(b: seq<byte>, lo: nat, hi: nat, i: nat, j: nat)
    requires lo <= hi <= |b| && i <= j <= hi - lo
    ensures b[lo..hi][i..j] == b[lo + i..lo + j]
  {
    var (x, y) := (b[lo..hi][i..j], b[lo + i..lo + j]);
    forall k | 0 <= k < j - i ensures x[k] == y[k] { }
  }

  lemma TypeKept(kind: nat, innermost: bool)
    requires kind < 128
    ensures TypeByte(kind, innermost) as nat % 128 == kind
    ensures TypeByte(kind, innermost) >= 128 <==> innermost
  {
  }

  /** Reading element s, which ends right after p + 4. */
  lemma ReadElement(b: seq<byte>, p: nat, s: Side, innermost: bool)
    requires |s.data| <= p && p + 5 <= |b| && |s.data| <= INT_MAX - 5
    requires b[p - |s.data|..p + 5] == Element(s, innermost)
    ensures RB32(b, p) == |s.data| && b[p - |s.data|..p] == s.data && b[p + 4] == TypeByte(s.kind, innermost)
  {
    var n := |s.data|;
    var e := b[p - n..p + 5];
    assert Element(s, innermost) == s.data + (WB32(n) + [TypeByte(s.kind, innermost)]);
    assert e[..n] == s.data && e[n..n + 4] == WB32(n) && e[n + 4] == TypeByte(s.kind, innermost);
    Slice(b, p - n, p + 5, 0, n);
    Slice(b, p - n, p + 5, n, n + 4);
    assert b[p + 4] == e[n + 4];
    ReadWritten(b, p, n);
  }

  /** The first element is the last part of the trailer. */
  lemma {:induction false} FirstElementLast(b: seq<byte>, start: nat, sides: seq<Side>)
    requires sides != [] && Sized(sides)
    requires start + TrailerSize(sides) <= |b| && b[start..start + TrailerSize(sides)] == Trailer(sides)
    ensures var (s, rest) := (sides[0], sides[1..]);
            var m := TrailerSize(rest);
            && TrailerSize(sides) == m + |s.data| + 5
            && b[start + m..start + m + |s.data| + 5] == Element(s, rest == [])
            && (rest == [] ==> m == 0) && (rest != [] ==> m >= 5 && b[start..start + m] == Trailer(rest))
  {
    var (s, rest) := (sides[0], sides[1..]);
    var m := TrailerSize(rest);
    var t := b[start..start + TrailerSize(sides)];
    assert |sides| == 1 <==> rest == [];
    assert t[m..] == Element(s, rest == []);
    assert b[start + m..start + TrailerSize(sides)] == t[m..];
    if rest != [] {
      assert t[..m] == Trailer(rest);
      assert b[start..start + m] == t[..m];
    }
  }

  /** What the parser does with an element it can read. */
  lemma {:induction false} ElementsStep(b: seq<byte>, p: nat, s: Side, innermost: bool)
    requires p + 5 <= |b| && s.kind < 128 && |s.data| <= p && |s.data| <= INT_MAX - 5
    requires RB32(b, p) == |s.data| && b[p - |s.data|..p] == s.data && b[p + 4] == TypeByte(s.kind, innermost)
    ensures innermost ==> Elements(b, p) == Some(([s], p - |s.data|))
    ensures !innermost && p >= |s.data| + 5 && Elements(b, p - |s.data| - 5).Some? ==>
              var (rest, start) := Elements(b, p - |s.data| - 5).value; Elements(b, p) == Some(([s] + rest, start))
  {
    hide RB32, TypeByte;
    TypeKept(s.kind, innermost);
    assert Side(b[p + 4] as nat % 128, b[p - |s.data|..p]) == s;
  }

  lemma {:induction false} ElementsOfTrailer(b: seq<byte>, start: nat, sides: seq<Side>)
    requires sides != [] && Sized(sides) && forall s :: s in sides ==> s.kind < 128
    requires start + TrailerSize(sides) <= |b| && b[start..start + TrailerSize(sides)] == Trailer(sides)
    ensures TrailerSize(sides) >= 5 && Elements(b, start + TrailerSize(sides) - 5) == Some((sides, start))
    decreases |sides|
  {
    hide Trailer, Element, Elements, RB32, TypeByte;
    var (s, rest) := (sides[0], sides[1..]);
    var m := TrailerSize(rest);
    FirstElementLast(b, start, sides);
    var p := start + m + |s.data|;
    assert s in sides;
    ReadElement(b, p, s, rest == []);
    ElementsStep(b, p, s, rest == []);
    if rest != [] {
      forall x | x in rest ensures x in sides { }
      ElementsOfTrailer(b, start, rest);
      assert sides == [s] + rest;
    } else {
      assert sides == [s];
    }
  }

  /** Split after merge gives back payload and side data, whatever bytes they hold, exactly
      when there are no more elements than side data types and every type fits in 7 bits. */
  lemma SplitUndoesMerge(payload: seq<byte>, sides: seq<Side>)
    requires Merge(payload, sides).Bytes?
    ensures Split(Merge(payload, sides).bytes) == Parts(payload, sides)
            <==> |sides| <= 32 && forall s :: s in sides ==> s.kind < 128
  {
    hide Trailer, Elements;
    var b := Merge(payload, sides).bytes;
    SizedByTotal(sides);
    if |sides| <= DATA_NB && forall s :: s in sides ==> s.kind < 128 {
      var (n, m) := (|payload|, TrailerSize(sides));
      Concatenated(payload, Trailer(sides), MARKER);
      ElementsOfTrailer(b, n, sides);
    }
  }

  /** An element of type 128 is lost: its type reads back as 0. */
  lemma TypeTooLargeWitness(payload: seq<byte>)
    requires |payload| <= 1000
    ensures Merge(payload, [Side(128, [])]).Bytes?
    ensures Split(Merge(payload, [Side(128, [])]).bytes) != Parts(payload, [Side(128, [])])
  {
    var sides := [Side(128, [])];
    assert sides[1..] == [] && TrailerSize(sides) == 5;
    SplitUndoesMerge(payload, sides);
    assert sides[0] in sides;
  }

  /** Lengths are big-endian. */
  lemma ByteOrderWitness()
    ensures WB32(0x0102_0304) == [1, 2, 3, 4]
    ensures Element(Side(6, []), true) == [0, 0, 0, 0, 134] && Element(Side(5, [7, 8]), false) == [7, 8, 0, 0, 0, 2, 5]
  {
    assert WB32(0) == [0, 0, 0, 0] && WB32(2) == [0, 0, 0, 2];
  }

  /** The last element comes first, and is flagged. */
  lemma LayoutWitness()
    ensures Merge([1], [Side(5, [7, 8]), Side(6, [])])
            == Bytes([1] + ([0, 0, 0, 0, 134] + [7, 8, 0, 0, 0, 2, 5]) + [0x8c, 0x4d, 0x9d, 0x10, 0x8e, 0x25, 0xe9, 0xfe])
  {
    hide Element;
    var sides := [Side(5, [7, 8]), Side(6, [])];
    assert sides[1..] == [Side(6, [])] && sides[1..][1..] == [];
    assert TrailerSize(sides[1..]) == 5 && TrailerSize(sides) == 12;
    ByteOrderWitness();
    SizedByTotal(sides);
    SizedByTotal(sides[1..]);
  }

  /** Bytes without the marker, or too few, are left alone, and so is a length that reaches
      beyond the packet. */
  lemma SplitLeavesAlone(b: seq<byte>)
    ensures |b| <= 12 || b[|b| - 8..] != MARKER ==> Split(b) == Unsplit
    ensures |b| > 12 && RB32(b, |b| - 13) > |b| - 13 ==> Split(b) == Unsplit
  {
  }

  lemma Concatenated(x: seq<byte>, y: seq<byte>, z: seq<byte>)
    ensures var b := x + y + z;
            && |b| == |x| + |y| + |z| && b[..|x|] == x && b[|x|..|x| + |y|] == y && b[|b| - |z|..] == z
  {
  }

  lemma Reassembled(b: seq<byte>, i: nat, j: nat)
    requires i <= j <= |b|
    ensures b[..i] + b[i..j] + b[j..] == b
  {
  }

  // ------------------------------------------------------ merge undoes split

  lemma {:induction false} TrailerOfElements(b: seq<byte>, p: nat)
    requires p + 5 <= |b| && Elements(b, p).Some?
    ensures var (sides, start) := Elements(b, p).value;
            Sized(sides) && start + TrailerSize(sides) == p + 5 && b[start..p + 5] == Trailer(sides)
    decreases p
  {
    hide RB32, Element, Trailer, TrailerSize;
    var size := RB32(b, p);
    var s := Side(b[p + 4] as nat % 128, b[p - size..p]);
    RewriteElement(b, p);
    if b[p + 4] < 128 {
      var q := p - size - 5;
      TrailerOfElements(b, q);
      var (rest, start) := Elements(b, q).value;
      TrailerCons(s, rest);
      Adjacent(b, start, q + 5, p + 5);
    } else {
      TrailerOne(s);
    }
  }

  lemma {:induction false} TrailerOne(s: Side)
    requires |s.data| <= INT_MAX - 5
    ensures Sized([s]) && Trailer([s]) == Element(s, true) && TrailerSize([s]) == |s.data| + 5
  {
    assert TrailerSize([s][1..]) == 0;
  }

  lemma {:induction false} TrailerCons(s: Side, rest: seq<Side>)
    requires rest != [] && Sized(rest) && |s.data| <= INT_MAX - 5
    ensures Sized([s] + rest) && Trailer([s] + rest) == Trailer(rest) + Element(s, false)
    ensures TrailerSize([s] + rest) == TrailerSize(rest) + |s.data| + 5
  {
    assert ([s] + rest)[1..] == rest;
  }

  lemma Adjacent(b: seq<byte>, i: nat, j: nat, k: nat)
    requires i <= j <= k <= |b|
    ensures b[i..j] + b[j..k] == b[i..k]
  {
  }

  /** Writing an element that was read gives the bytes it was read from. */
  lemma RewriteElement(b: seq<byte>, p: nat)
    requires p + 5 <= |b| && RB32(b, p) <= p && RB32(b, p) <= INT_MAX - 5
    ensures var n := RB32(b, p);
            Element(Side(b[p + 4] as nat % 128, b[p - n..p]), b[p + 4] >= 128) == b[p - n..p + 5]
  {
    var n := RB32(b, p);
    WriteRead(b, p);
    assert b[p - n..p + 5] == b[p - n..p] + b[p..p + 4] + [b[p + 4]];
  }

  /** On any byte string that splits, nothing is lost: the pieces are laid out in it end to
      end, their sizes add up to its size, and merging them gives the same bytes -- unless
      the packet is so long that merge refuses it for want of room for the padding. */
  lemma MergeUndoesSplit(b: seq<byte>)
    requires Split(b).Parts?
    ensures var Parts(payload, sides) := Split(b);
            && |payload| + TrailerSize(sides) + 8 == |b|
            && Merge(payload, sides) == if |b| + PADDING <= INT_MAX then Bytes(b) else Refused(EINVAL)
  {
    hide Trailer, Elements;
    TrailerOfElements(b, |b| - 13);
    var (sides, start) := Elements(b, |b| - 13).value;
    Reassembled(b, start, |b| - 8);
    assert |b| - 13 + 5 == |b| - 8;
  }

  function ElementAt(b: seq<byte>, p: nat): Side
    requires p + 5 <= |b| && RB32(b, p) <= p
  {
    Side(b[p + 4] as nat % 128, b[p - RB32(b, p)..p])
  }

  /** One step of either pass. */
  lemma {:induction false} ElementsUnfold(b: seq<byte>, p: nat)
    requires p + 5 <= |b|
    ensures var n := RB32(b, p);
            if n > INT_MAX - 5 || p < n then Elements(b, p) == None
            else if b[p + 4] >= 128 then Elements(b, p) == Some(([ElementAt(b, p)], p - n))
            else if p < n + 5 then Elements(b, p) == None
            else if Elements(b, p - n - 5) == None then Elements(b, p) == None
            else var (rest, start) := Elements(b, p - n - 5).value;
                 Elements(b, p) == Some(([ElementAt(b, p)] + rest, start))
  {
    hide RB32;
  }

  // ------------------------------------------------------ the packet

  /** AVPacket: a buffer of which the first `size` bytes are the packet, and side data. */
  class Packet {
    var data: array<byte>
    var size: nat
    var side: seq<Side>

    ghost predicate Valid()
      reads this
    {
      size <= data.Length && size <= INT_MAX
    }

    ghost function Bytes(): seq<byte>
      requires Valid()
      reads this, data
    {
      data[..size]
    }

    /** mp_packet_merge_side_data */
    method MergeSideData() returns (r: int)
      requires Valid()
      modifies this
      ensures Valid()
      ensures match Merge(old(Bytes()), old(side))
              case Unmerged => r == 0 && unchanged(this)
              case Refused(code) => r == code && unchanged(this)
              case Bytes(b) =>
                && r == 1 && fresh(data) && Bytes() == b && side == []
                && data.Length == size + PADDING && forall k :: size <= k < data.Length ==> data[k] == 0
    {
      if side == [] { return 0; }
      var total := size + 8 + PADDING;
      var i := 0;
      while i < |side|
        invariant i <= |side| && total + TrailerSize(side[i..]) == size + 8 + PADDING + TrailerSize(side)
      {
        assert side[i..][1..] == side[i + 1..];
        total := total + |side[i].data| + 5;
        i := i + 1;
      }
      if total > INT_MAX { return EINVAL; }
      SizedByTotal(side);
      var buf := new byte[total];
      var p := Put(buf, 0, data[..size]);
      p := PutSides(buf, p, side);
      ghost var body := buf[..p];
      p := Put(buf, p, MARKER);
      assert buf[..p] == body + MARKER;
      Clear(buf, p);
      data, size, side := buf, total - PADDING, [];
      r := 1;
    }

    /** mp_packet_split_side_data */
    method SplitSideData() returns (r: int)
      requires Valid()
      modifies this
      ensures Valid() && data == old(data)
      ensures old(side) != [] ==> r == 0 && unchanged(this)
      ensures old(side) == [] ==>
                match Split(old(Bytes()))
                case Unsplit => r == 0 && unchanged(this)
                case TooMany => r == ERANGE && unchanged(this)
                case Parts(payload, sides) => r == 1 && Bytes() == payload && side == sides
    {
      if side != [] || size <= 12 { return 0; }
      ghost var b := Bytes();
      if data[size - 8..size] != MARKER {
        assert b[|b| - 8..] == data[size - 8..size];
        return 0;
      }
      assert b[|b| - 8..] == data[size - 8..size];
      var fits, n := CountElements();
      if !fits { return 0; }
      if n > DATA_NB { return ERANGE; }
      TakeElements(n);
      r := 1;
    }

    /** First pass: does every length fit, and how many elements are there? */
    method CountElements() returns (fits: bool, i: nat)
      requires Valid() && size >= 13
      ensures fits <==> Elements(Bytes(), size - 13).Some?
      ensures fits ==> i == |Elements(Bytes(), size - 13).value.0|
    {
      hide RB32, Elements, ElementAt;
      ghost var b := Bytes();
      var p: nat := size - 13;
      i := 1;
      while true
        invariant p + 5 <= size && i >= 1
        invariant Elements(b, size - 13).Some? <==> Elements(b, p).Some?
        invariant Elements(b, p).Some? ==> |Elements(b, size - 13).value.0| == i - 1 + |Elements(b, p).value.0|
        decreases p
      {
        ElementsUnfold(b, p);
        var n := ReadSize(p);
        if n > INT_MAX - 5 || p < n { return false, i; }
        if data[p + 4] >= 128 { return true, i; }
        if p < n + 5 { return false, i; }
        p := p - n - 5;
        i := i + 1;
      }
    }

    /** Second pass: takes the elements out of the packet. */
    method TakeElements(ghost count: nat)
      requires Valid() && size >= 13 && side == []
      requires Elements(Bytes(), size - 13).Some? && |Elements(Bytes(), size - 13).value.0| == count
      modifies this
      ensures Valid() && data == old(data)
      ensures var (sides, start) := Elements(old(Bytes()), old(size) - 13).value;
              side == sides && size == start
    {
      hide RB32, Elements;
      ghost var b := Bytes();
      ghost var (sides, start) := Elements(b, size - 13).value;
      var p: nat := size - 13;
      while true
        invariant p + 5 <= |b| <= data.Length && data == old(data) && data[..|b|] == b && size == p + 13 <= |b|
        invariant Elements(b, p).Some?
        invariant sides == side + Elements(b, p).value.0 && start == Elements(b, p).value.1
        decreases p
      {
        ElementsUnfold(b, p);
        var n := ReadSizeAt(data, |b|, p);
        var e := Side(data[p + 4] as nat % 128, data[p - n..p]);
        assert e.data == b[p - n..p] && data[p + 4] == b[p + 4];
        assert e == ElementAt(b, p);
        side := side + [e];
        size := size - (n + 5);
        if data[p + 4] >= 128 { break; }
        p := p - (n + 5);
      }
      size := size - 8;
    }

    method ReadSize(p: nat) returns (n: nat)
      requires Valid() && p + 5 <= size
      ensures n == RB32(Bytes(), p)
    {
      n := ReadSizeAt(data, size, p);
    }
  }

  method ReadSizeAt(data: array<byte>, ghost size: nat, p: nat) returns (n: nat)
    requires p + 5 <= size <= data.Length
    ensures n == RB32(data[..size], p)
  {
    n := data[p] as int * 0x100_0000 + data[p + 1] as int * 0x1_0000 + data[p + 2] as int * 0x100 + data[p + 3] as int;
  }

  /** bytestream_put_buffer: copies src to the cursor and returns the cursor after it. */
  method Put(buf: array<byte>, p: nat, src: seq<byte>) returns (end: nat)
    requires p + |src| <= buf.Length
    modifies buf
    ensures end == p + |src| && buf[..end] == old(buf[..p]) + src
  {
    forall k | 0 <= k < |src| { buf[p + k] := src[k]; }
    end := p + |src|;
  }

  method PutElement(buf: array<byte>, start: nat, s: Side, innermost: bool) returns (p: nat)
    requires |s.data| <= INT_MAX && start + |s.data| + 5 <= buf.Length
    modifies buf
    ensures p == start + |s.data| + 5 && buf[..p] == old(buf[..start]) + Element(s, innermost)
  {
    hide WB32, TypeByte;
    p := Put(buf, start, s.data);
    p := Put(buf, p, WB32(|s.data|));
    p := Put(buf, p, [TypeByte(s.kind, innermost)]);
  }

  /** Writes the elements, the last one first. */
  method PutSides(buf: array<byte>, start: nat, side: seq<Side>) returns (p: nat)
    requires side != [] && Sized(side) && start + TrailerSize(side) <= buf.Length
    modifies buf
    ensures p == start + TrailerSize(side) && buf[..p] == old(buf[..start]) + Trailer(side)
  {
    hide Element, Trailer, TrailerSize;
    p := start;
    ghost var before := buf[..start];
    ghost var written: seq<byte> := [];
    var i := |side|;
    while i > 0
      invariant 0 <= i <= |side| && p == start + |written| <= buf.Length
      invariant buf[..p] == before + written
      invariant if i == |side| then written == []
                else Sized(side[i..]) && written == Trailer(side[i..])
    {
      i := i - 1;
      Suffix(side, i);
      p := PutElement(buf, p, side[i], i == |side| - 1);
      written := written + Element(side[i], i == |side| - 1);
    }
    assert side[0..] == side;
  }

  /** The trailer of a suffix grows by the element before it. */
  lemma {:induction false} Suffix(side: seq<Side>, i: nat)
    requires i < |side| && Sized(side)
    ensures Sized(side[i..]) && Sized(side[i + 1..]) && side[i] in side
    ensures TrailerSize(side[i..]) <= TrailerSize(side)
    ensures |Element(side[i], i == |side| - 1)| + (if i == |side| - 1 then 0 else |Trailer(side[i + 1..])|) == |Trailer(side[i..])|
    ensures Trailer(side[i..])
            == (if i == |side| - 1 then [] else Trailer(side[i + 1..])) + Element(side[i], i == |side| - 1)
  {
    assert side[i..][1..] == side[i + 1..] && side[i..][0] == side[i];
    SuffixSize(side, i);
  }

  lemma {:induction false} SuffixSize(side: seq<Side>, i: nat)
    requires i <= |side|
    ensures TrailerSize(side[i..]) <= TrailerSize(side)
    decreases i
  {
    if i > 0 {
      SuffixSize(side, i - 1);
      assert side[i - 1..][1..] == side[i..];
    } else {
      assert side[0..] == side;
    }
  }

  /** Fills the rest of the buffer with zeros. */
  method Clear(buf: array<byte>, p: nat)
    requires p <= buf.Length
    modifies buf
    ensures buf[..p] == old(buf[..p]) && forall k :: p <= k < buf.Length ==> buf[k] == 0
  {
    forall k | p <= k < buf.Length { buf[k] := 0; }
  }
}
