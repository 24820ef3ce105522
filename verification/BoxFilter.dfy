/**
 The MP4 box parser and filter of the live sender: `readBox` and `filterAtoms`.

 A packet is a byte string.  A box is a 32-bit big-endian size (which counts its own
 eight header bytes), a four-byte type and size-8 bytes of data.  The module gives an
 independent reading of a packet, `Split`, proves that it is the only one possible, and
 then proves what the loop of `filterAtoms` computes against it.
 */
module BoxFilter {
  import opened Bytes

  const FTYP: seq<byte> := [0x66, 0x74, 0x79, 0x70]
  const MOOV: seq<byte> := [0x6D, 0x6F, 0x6F, 0x76]

  // ---------------------------------------------------------------------------
  // Boxes on the wire
  // ---------------------------------------------------------------------------

  /** One complete box, header included. */
  predicate IsBox(s: seq<byte>) {
    |s| >= 8 && ReadU32(s) == |s|
  }

  type RawBox = s: seq<byte> | IsBox(s) witness [0, 0, 0, 8, 0, 0, 0, 0]

  /** `s` starts with a complete box. */
  predicate StartsWithBox(s: seq<byte>) {
    |s| >= 8 && 8 <= ReadU32(s) <= |s|
  }

  /** The four type bytes of a box. */
  function TypeOf(s: seq<byte>): (t: seq<byte>)
    requires |s| >= 8
    ensures |t| == 4
  {
    s[4..8]
  }

  /** A box the filter removes. */
  predicate IsInit(s: RawBox) {
    TypeOf(s) == FTYP || TypeOf(s) == MOOV
  }

  datatype Parsed = Parsed(boxes: seq<RawBox>, tail: seq<byte>)

  /** The first box of a byte string that starts with one. */
  function FirstBox(p: seq<byte>): (b: RawBox)
    requires StartsWithBox(p)
    ensures b <= p
  {
    var b := p[..ReadU32(p)];
    assert ReadU32(b) == |b|;
    b
  }

  /** The longest parsable prefix of a packet, box by box, and what is left. */
  function Split(p: seq<byte>): (r: Parsed)
    ensures !StartsWithBox(r.tail)
    decreases |p|
  {
    if StartsWithBox(p) then
      var rest := Split(p[|FirstBox(p)|..]);
      Parsed([FirstBox(p)] + rest.boxes, rest.tail)
    else
      Parsed([], p)
  }

  /** Nothing is lost by reading a packet as boxes and a tail. */
  lemma {:induction false} SplitJoins(p: seq<byte>)
    ensures Concat(Split(p).boxes) + Split(p).tail == p
    decreases |p|
  {
    if StartsWithBox(p) {
      var first := FirstBox(p);
      var q := p[|first|..];
      var rest := Split(q);
      calc {
        Concat(Split(p).boxes) + Split(p).tail;
        { ConcatCons(first, rest.boxes); }
        (first + Concat(rest.boxes)) + rest.tail;
        first + (Concat(rest.boxes) + rest.tail);
        { SplitJoins(q); }
        first + q;
        p;
      }
    }
  }

  lemma SplitFirst(b: RawBox, q: seq<byte>)
    ensures StartsWithBox(b + q) && FirstBox(b + q) == b
    ensures Split(b + q) == Parsed([b] + Split(q).boxes, Split(q).tail)
  {
    var p := b + q;
    assert p[..4] == b[..4];
    assert ReadU32(p) == ReadU32(b) == |b|;
    assert p[..|b|] == b && p[|b|..] == q;
  }

  /** `Split` is the only decomposition into complete boxes that cannot be continued. */
  lemma {:induction false} SplitUnique(boxes: seq<RawBox>, tail: seq<byte>)
    requires !StartsWithBox(tail)
    ensures Split(Concat(boxes) + tail) == Parsed(boxes, tail)
  {
    if boxes == [] {
      assert Concat(boxes) + tail == tail;
    } else {
      SplitUnique(boxes[1..], tail);
      Regroup(boxes[0], Concat(boxes[1..]), tail);
      SplitFirst(boxes[0], Concat(boxes[1..]) + tail);
      assert boxes == [boxes[0]] + boxes[1..];
    }
  }

  // ---------------------------------------------------------------------------
  // What the filter ought to return, and what it returns
  // ---------------------------------------------------------------------------

  /** The boxes that are neither `ftyp` nor `moov`, in order. */
  function Keep(boxes: seq<RawBox>): (r: seq<RawBox>)
  {
    if boxes == [] then []
    else if IsInit(boxes[0]) then Keep(boxes[1..])
    else [boxes[0]] + Keep(boxes[1..])
  }

  /** The boxes the filter removes, in order. */
  function Drop(boxes: seq<RawBox>): (r: seq<RawBox>)
  {
    if boxes == [] then []
    else if IsInit(boxes[0]) then [boxes[0]] + Drop(boxes[1..])
    else Drop(boxes[1..])
  }

  /** The intended result: the kept boxes of the parsable prefix, byte for byte. */
  function Kept(p: seq<byte>): seq<byte> {
    Concat(Keep(Split(p).boxes))
  }

  /** `std::string(type)`: a C string ends at its first zero byte. */
  function CString(t: seq<byte>): (s: seq<byte>)
    ensures s <= t
    ensures |s| < |t| <==> 0 in t
  {
    if t == [] || t[0] == 0 then [] else [t[0]] + CString(t[1..])
  }

  /** It holds no zero byte, and a zero byte follows it when it is not the whole. */
  lemma {:induction false} CStringEnds(t: seq<byte>)
    ensures 0 !in CString(t) && (|CString(t)| < |t| ==> t[|CString(t)|] == 0)
  {
    if t != [] && t[0] != 0 {
      CStringEnds(t[1..]);
    }
  }

  lemma CStringIs(t: seq<byte>, name: seq<byte>)
    requires |t| == |name| == 4 && 0 !in name
    ensures CString(t) == name <==> t == name
  {
    if t == name {
      assert |CString(t)| == 4;
    }
  }

  /** A box whose type holds no zero byte. */
  predicate CleanType(s: RawBox) {
    0 !in TypeOf(s)
  }

  /** The characters of some bytes. */
  function Name(t: seq<byte>): (s: string)
    ensures |s| == |t| && forall i | 0 <= i < |s| :: s[i] == t[i] as char
  {
    seq(|t|, i requires 0 <= i < |t| => t[i] as char)
  }

  lemma SameName(t: seq<byte>, u: seq<byte>)
    requires Name(t) == Name(u)
    ensures t == u
  {
    assert |t| == |u|;
    forall i | 0 <= i < |t| ensures t[i] == u[i] {
      assert Name(t)[i] == Name(u)[i];
    }
  }

  /** The boxes the filter removes are those named `ftyp` and `moov`. */
  lemma InitByName(b: RawBox)
    ensures IsInit(b) <==> Name(TypeOf(b)) == "ftyp" || Name(TypeOf(b)) == "moov"
  {
    assert Name(FTYP) == "ftyp" && Name(MOOV) == "moov";
    if Name(TypeOf(b)) == "ftyp" {
      SameName(TypeOf(b), FTYP);
    } else if Name(TypeOf(b)) == "moov" {
      SameName(TypeOf(b), MOOV);
    }
  }

  /** A box as the filter prints it again: size, type as a C string, data. */
  function Reprint(s: RawBox): (r: seq<byte>)
    ensures |r| <= |s|
    ensures r == s <==> CleanType(s)
    ensures |r| == |s| ==> CleanType(s)
  {
    var r := s[..4] + CString(TypeOf(s)) + s[8..];
    assert s == s[..4] + TypeOf(s) + s[8..];
    r
  }

  function ReprintAll(boxes: seq<RawBox>): (r: seq<seq<byte>>)
    ensures |r| == |boxes|
  {
    if boxes == [] then [] else [Reprint(boxes[0])] + ReprintAll(boxes[1..])
  }

  /** What the filter appends for a list of boxes. */
  function Output(boxes: seq<RawBox>): seq<byte> {
    Concat(ReprintAll(Keep(boxes)))
  }

  /** What `filterAtoms` returns for a packet whose headers are all readable. */
  function Filter(p: seq<byte>): seq<byte> {
    Output(Split(p).boxes)
  }

  /**
   The parsing stops at a header whose declared size is below eight.  There the data
   length `size - 8` wraps to almost 2^32 and the copy has no defined result.
   */
  predicate StopsAtShortSize(p: seq<byte>) {
    var t := Split(p).tail;
    |t| >= 8 && ReadU32(t) < 8
  }

  // ---------------------------------------------------------------------------
  // The code
  // ---------------------------------------------------------------------------

  datatype Box = Box(size: nat, boxType: seq<byte>, data: seq<byte>)

  /** The fields `readBox` fills in for one complete box. */
  function BoxOf(b: RawBox): Box {
    Box(|b|, CString(TypeOf(b)), b[8..])
  }

  /** `readBox`: a box and the new offset, one of the two exceptions, or a wrapped length. */
  datatype ReadResult =
    | Success(box: Box, offset: nat)
    | IncompleteHeader
    | IncompleteData
    | Undefined

  lemma SizeParts(data: seq<byte>, start: nat)
    requires start + 8 <= |data|
    ensures ReadU32(data[start..start + 4]) == ReadU32(data[start..])
  {
    assert data[start..start + 4] == data[start..][..4];
  }

  lemma SameSize(s: seq<byte>, t: seq<byte>)
    requires |s| >= 4 && |t| >= 4
    requires forall i | 0 <= i < 4 :: s[i] == t[i]
    ensures ReadU32(s) == ReadU32(t)
  {
  }

  lemma SliceOfSlice(data: seq<byte>, start: nat, end: nat, a: nat, b: nat)
    requires start <= end <= |data| && a <= b <= end - start
    ensures data[start..end][a..b] == data[start + a..start + b]
  {
    forall i | 0 <= i < b - a ensures data[start..end][a..b][i] == data[start + a..start + b][i] {
      assert data[start..end][a + i] == data[start + (a + i)];
    }
  }

  lemma WindowParts(data: seq<byte>, start: nat, end: nat)
    requires start + 8 <= end <= |data|
    ensures data[start..end][8..] == data[start + 8..end]
    ensures data[start..end][4..8] == data[start + 4..start + 8]
    ensures ReadU32(data[start..end]) == ReadU32(data[start..])
  {
    SliceOfSlice(data, start, end, 4, 8);
    SliceOfSlice(data, start, end, 8, end - start);
    SameSize(data[start..end], data[start..]);
  }

  method ReadBox(data: seq<byte>, start: nat) returns (r: ReadResult)
    ensures r.IncompleteHeader? <==> start + 8 > |data|
    ensures r.IncompleteData? <==> start + 8 <= |data| && ReadU32(data[start..]) > |data| - start
    ensures r.Undefined? <==> start + 8 <= |data| && ReadU32(data[start..]) < 8
    ensures r.Success? <==> start <= |data| && StartsWithBox(data[start..])
    ensures r.Success? ==>
      && r.offset == start + r.box.size
      && start + 8 <= r.offset <= |data|
      && IsBox(data[start..r.offset])
      && r.box == BoxOf(data[start..r.offset])
  {
    var offset := start;
    if offset + 8 > |data| {
      return IncompleteHeader;
    }
    var size := ReadU32(data[offset..offset + 4]);
    SizeParts(data, start);
    offset := offset + 4;
    var boxType := CString(data[offset..offset + 4]);
    offset := offset + 4;
    if offset + size - 8 > |data| {
      return IncompleteData;
    }
    if size < 8 {
      return ReadResult.Undefined;
    }
    var payload := data[offset..offset + (size - 8)];
    offset := offset + |payload|;
    WindowParts(data, start, offset);
    return Success(Box(size, boxType, payload), offset);
  }

  datatype FilterResult = Filtered(packet: seq<byte>) | Undefined {
    function Prepend(front: seq<byte>): FilterResult {
      if Filtered? then Filtered(front + packet) else this
    }
  }

  /** What the loop still has to do for the unread part `p` of a packet. */
  function Run(p: seq<byte>): FilterResult
    decreases |p|
  {
    if StartsWithBox(p) then
      Run(p[|FirstBox(p)|..]).Prepend(OutputOne(BoxOf(FirstBox(p))))
    else if |p| >= 8 && ReadU32(p) < 8 then FilterResult.Undefined
    else Filtered([])
  }

  /** `filterAtoms`: the loop over the packet, left on the first exception. */
  method FilterAtoms(packet: seq<byte>) returns (r: FilterResult)
    ensures r == Run(packet)
  {
    var filtered: seq<byte> := [];
    var offset := 0;
    assert packet[0..] == packet;
    while offset < |packet|
      invariant offset <= |packet|
      invariant Run(packet) == Run(packet[offset..]).Prepend(filtered)
      decreases |packet| - offset
    {
      var read := ReadBox(packet, offset);
      match read {
        case Success(box, next) =>
          RunReads(packet, offset, next, filtered);
          if box.boxType != FTYP && box.boxType != MOOV {
            filtered := filtered + (WriteU32(box.size) + box.boxType + box.data);
          } else {
            assert filtered + [] == filtered;
          }
          offset := next;
        case IncompleteHeader => break;
        case IncompleteData => break;
        case Undefined => return FilterResult.Undefined;
      }
    }
    return Filtered(filtered);
  }

  /** Reading one box moves its printed form from the unread part to the output. */
  lemma RunReads(p: seq<byte>, offset: nat, next: nat, done: seq<byte>)
    requires offset <= next <= |p| && IsBox(p[offset..next])
    ensures Run(p[offset..]).Prepend(done) == Run(p[next..]).Prepend(done + OutputOne(BoxOf(p[offset..next])))
  {
    var b: RawBox := p[offset..next];
    assert p[offset..] == b + p[next..];
    SplitFirst(b, p[next..]);
    assert p[offset..][|b|..] == p[next..];
    var rest := Run(p[next..]);
    if rest.Filtered? {
      assert done + (OutputOne(BoxOf(b)) + rest.packet) == (done + OutputOne(BoxOf(b))) + rest.packet;
    }
  }

  // ---------------------------------------------------------------------------
  // Lists of boxes
  // ---------------------------------------------------------------------------

  function OutputOne(box: Box): seq<byte>
    requires box.size < 0x1_0000_0000
  {
    if box.boxType != FTYP && box.boxType != MOOV
    then WriteU32(box.size) + box.boxType + box.data
    else []
  }

  lemma OutputSingle(b: RawBox)
    ensures Output([b]) == OutputOne(BoxOf(b))
  {
    CStringIs(TypeOf(b), FTYP);
    CStringIs(TypeOf(b), MOOV);
    ReprintParts(b);
    assert [b][1..] == [];
    if IsInit(b) {
      assert Keep([b]) == [];
    } else {
      assert Keep([b]) == [b];
      assert ReprintAll([b]) == [Reprint(b)] + ReprintAll([b][1..]);
      ConcatCons(Reprint(b), []);
    }
  }

  lemma OutputConcat(a: seq<RawBox>, b: seq<RawBox>)
    ensures Output(a + b) == Output(a) + Output(b)
  {
    KeepConcat(a, b);
    ReprintAppend(Keep(a), Keep(b));
    ConcatAppend(ReprintAll(Keep(a)), ReprintAll(Keep(b)));
  }

  lemma ReprintParts(b: RawBox)
    ensures Reprint(b) == WriteU32(|b|) + CString(TypeOf(b)) + b[8..]
  {
    WriteReadU32(b);
  }

  lemma {:induction false} KeepConcat(a: seq<RawBox>, b: seq<RawBox>)
    ensures Keep(a + b) == Keep(a) + Keep(b)
  {
    if a == [] {
      assert a + b == b;
    } else {
      assert (a + b)[1..] == a[1..] + b;
      KeepConcat(a[1..], b);
    }
  }

  lemma {:induction false} ReprintAppend(a: seq<RawBox>, b: seq<RawBox>)
    ensures ReprintAll(a + b) == ReprintAll(a) + ReprintAll(b)
  {
    if a == [] {
      assert a + b == b;
    } else {
      assert (a + b)[1..] == a[1..] + b;
      ReprintAppend(a[1..], b);
    }
  }

  lemma {:induction false} ReprintIdentity(boxes: seq<RawBox>)
    ensures |Concat(ReprintAll(boxes))| <= |Concat(boxes)|
    ensures |Concat(ReprintAll(boxes))| == |Concat(boxes)| <==> forall b <- boxes :: CleanType(b)
    ensures (forall b <- boxes :: CleanType(b)) ==> ReprintAll(boxes) == boxes
  {
    if boxes != [] {
      ReprintIdentity(boxes[1..]);
      assert boxes == [boxes[0]] + boxes[1..];
    }
  }

  lemma {:induction false} KeepDropLength(boxes: seq<RawBox>)
    ensures |Concat(Keep(boxes))| + |Concat(Drop(boxes))| == |Concat(boxes)|
  {
    if boxes != [] {
      KeepDropLength(boxes[1..]);
    }
  }

  // ---------------------------------------------------------------------------
  // Main results
  // ---------------------------------------------------------------------------

  /**
   The code meets its specification: it has no defined result exactly when the reading
   stops at a size below eight, and otherwise returns the reprinted kept boxes.
   */
  lemma {:induction false} RunIsFilter(p: seq<byte>)
    ensures Run(p) == if StopsAtShortSize(p) then FilterResult.Undefined else Filtered(Filter(p))
    decreases |p|
  {
    if StartsWithBox(p) {
      var b := FirstBox(p);
      var q := p[|b|..];
      RunIsFilter(q);
      OutputConcat([b], Split(q).boxes);
      OutputSingle(b);
    }
  }

  /**
   The filter returns exactly the kept boxes, byte for byte and in order, if and only if
   no kept box of the parsable prefix has a zero byte in its type.
   */
  lemma FilterIsKept(p: seq<byte>)
    ensures Filter(p) == Kept(p) <==> forall b <- Split(p).boxes :: !IsInit(b) ==> CleanType(b)
  {
    var boxes := Split(p).boxes;
    var kept := Keep(boxes);
    ReprintIdentity(kept);
    KeepMembers(boxes);
  }

  lemma {:induction false} KeepMembers(boxes: seq<RawBox>)
    ensures forall b <- boxes :: b in Keep(boxes) <==> !IsInit(b)
    ensures forall b <- Keep(boxes) :: b in boxes && !IsInit(b)
  {
    if boxes != [] {
      KeepMembers(boxes[1..]);
      assert boxes == [boxes[0]] + boxes[1..];
    }
  }

  /** Every byte of a packet is kept, dropped, or in the unparsed tail. */
  lemma FilterConserves(p: seq<byte>)
    ensures |Kept(p)| + |Concat(Drop(Split(p).boxes))| + |Split(p).tail| == |p|
  {
    KeepDropLength(Split(p).boxes);
  }

  /** The kept bytes parse completely, into the kept boxes; none is `ftyp` or `moov`. */
  lemma KeptParses(p: seq<byte>)
    ensures Split(Kept(p)) == Parsed(Keep(Split(p).boxes), [])
    ensures forall b <- Split(Kept(p)).boxes :: !IsInit(b)
    ensures !StopsAtShortSize(Kept(p))
  {
    var kept := Keep(Split(p).boxes);
    SplitUnique(kept, []);
    assert Concat(kept) + [] == Concat(kept);
    KeepMembers(Split(p).boxes);
  }

  /**
   A packet is unchanged by the filter if and only if it parses completely into boxes
   that are kept and have clean types.
   */
  lemma FilterFixpoint(p: seq<byte>)
    ensures Filter(p) == p <==>
            Split(p).tail == [] && forall b <- Split(p).boxes :: !IsInit(b) && CleanType(b)
  {
    var r := Split(p);
    FilterConserves(p);
    ReprintIdentity(Keep(r.boxes));
    KeepMembers(r.boxes);
    KeepAll(r.boxes);
    SplitJoins(p);
    assert r.tail == [] ==> Concat(r.boxes) == p;
  }

  /** Nothing is dropped exactly when no box is an init box. */
  lemma {:induction false} KeepAll(boxes: seq<RawBox>)
    ensures Concat(Drop(boxes)) == [] <==> forall b <- boxes :: !IsInit(b)
    ensures Concat(Drop(boxes)) == [] ==> Keep(boxes) == boxes
  {
    if boxes != [] {
      KeepAll(boxes[1..]);
      assert boxes == [boxes[0]] + boxes[1..];
    }
  }

  /** Filtering twice is filtering once, when the kept boxes have clean types. */
  lemma FilterIdempotent(p: seq<byte>)
    requires forall b <- Split(p).boxes :: !IsInit(b) ==> CleanType(b)
    ensures Filter(Filter(p)) == Filter(p)
    ensures Run(Filter(p)) == Filtered(Filter(p))
  {
    FilterIsKept(p);
    KeptParses(p);
    KeepMembers(Split(p).boxes);
    FilterFixpoint(Kept(p));
    RunIsFilter(Kept(p));
  }

  /** Filtering twice is filtering once exactly when what is left parses completely into clean kept boxes. */
  lemma FilterTwiceIff(p: seq<byte>)
    ensures Filter(Filter(p)) == Filter(p) <==>
            var r := Split(Filter(p));
            r.tail == [] && forall b <- r.boxes :: !IsInit(b) && CleanType(b)
  {
    FilterFixpoint(Filter(p));
  }

  /** A box whose type holds a zero byte is printed as something that is no box any more. */
  lemma UncleanIsNoBox(b: RawBox)
    requires !CleanType(b)
    ensures Reprint(b) != [] && !StartsWithBox(Reprint(b))
  {
    var r := Reprint(b);
    assert r[..4] == b[..4];
    if |r| >= 8 {
      assert r[0] == b[0] && r[1] == b[1] && r[2] == b[2] && r[3] == b[3];
      assert ReadU32(r) == |b|;
    }
  }

  /** When only the last kept box has an unclean type, the others come out, and its bytes as a tail. */
  lemma LastUncleanParses(p: seq<byte>, front: seq<RawBox>, last: RawBox)
    requires Keep(Split(p).boxes) == front + [last] && (forall b <- front :: CleanType(b)) && !CleanType(last)
    ensures Split(Filter(p)) == Parsed(front, Reprint(last))
  {
    ReprintAppend(front, [last]);
    ReprintIdentity(front);
    ConcatAppend(front, [Reprint(last)]);
    assert ReprintAll([last]) == [Reprint(last)] && Concat([Reprint(last)]) == Reprint(last);
    UncleanIsNoBox(last);
    SplitUnique(front, Reprint(last));
  }

  /** All kept boxes but the last have clean types. */
  ghost predicate CleanButLast(p: seq<byte>) {
    var kept := Keep(Split(p).boxes);
    forall i | 0 <= i < |kept| - 1 :: CleanType(kept[i])
  }

  /** Then no box comes out that the filter removes. */
  lemma NoInitComesOut(p: seq<byte>)
    requires CleanButLast(p)
    ensures forall b <- Split(Filter(p)).boxes :: !IsInit(b)
  {
    var kept := Keep(Split(p).boxes);
    KeepMembers(Split(p).boxes);
    if forall b <- kept :: CleanType(b) {
      forall b | b in Split(p).boxes && !IsInit(b) ensures CleanType(b) {
        assert b in kept;
      }
      FilterIsKept(p);
      KeptParses(p);
    } else {
      var front, last := kept[..|kept| - 1], kept[|kept| - 1];
      assert kept == front + [last];
      forall b | b in front ensures CleanType(b) && b in kept {
        var i :| 0 <= i < |front| && front[i] == b;
        assert kept[i] == b;
      }
      LastUncleanParses(p, front, last);
    }
  }

  /**
   When only the last kept box may have an unclean type, filtering twice is filtering once
   exactly when it has a clean one.
   */
  lemma FilterTwiceIffLastClean(p: seq<byte>, front: seq<RawBox>, last: RawBox)
    requires Keep(Split(p).boxes) == front + [last] && forall b <- front :: CleanType(b)
    ensures Filter(Filter(p)) == Filter(p) <==> CleanType(last)
  {
    var boxes := Split(p).boxes;
    KeepMembers(boxes);
    if CleanType(last) {
      forall b | b in boxes && !IsInit(b) ensures CleanType(b) {
        assert b in front + [last];
      }
      FilterIdempotent(p);
    } else {
      UncleanIsNoBox(last);
      LastUncleanParses(p, front, last);
      FilterFixpoint(Filter(p));
    }
  }

  /** A kept box whose type ends in a zero byte, and the seven bytes it is printed as. */
  const ZERO_TYPE: seq<byte> := [0, 0, 0, 8, 0x66, 0x72, 0x65, 0]
  const SHORTENED: seq<byte> := [0, 0, 0, 8, 0x66, 0x72, 0x65]

  /** With a zero byte in a type the filter loses a byte, and a second pass the whole box. */
  lemma ZeroInTypeLosesBytes()
    ensures Filter(ZERO_TYPE) == SHORTENED
    ensures Filter(SHORTENED) == []
  {
    ZeroTypeParts();
    FilterSingle(ZERO_TYPE);
  }

  lemma ZeroTypeIsBox()
    ensures IsBox(ZERO_TYPE) && |ZERO_TYPE| == 8
    ensures TypeOf(ZERO_TYPE) == [0x66, 0x72, 0x65] + [0]
  {
  }

  lemma ZeroTypeParts()
    ensures IsBox(ZERO_TYPE) && OutputOne(BoxOf(ZERO_TYPE)) == SHORTENED
  {
    var t: seq<byte> := [0x66, 0x72, 0x65];
    ZeroTypeIsBox();
    CStringStops(t);
    assert |t| < |FTYP| && |t| < |MOOV|;
    assert ZERO_TYPE[8..] == [];
    assert WriteU32(8) == [0, 0, 0, 8];
  }

  lemma {:induction false} CStringStops(t: seq<byte>)
    requires 0 !in t
    ensures CString(t + [0]) == t
  {
    if t != [] {
      assert (t + [0])[1..] == t[1..] + [0];
      CStringStops(t[1..]);
    }
  }

  // Two boxes without a type, the second with a box in its data; and what they are printed as.

  const NAMELESS: seq<byte> := [0, 0, 0, 12, 0, 0, 0, 0, 0x61, 0x62, 0x63, 0x64]
  const NAMED: seq<byte> := [0, 0, 0, 12, 0x61, 0x62, 0x63, 0x64, 0, 0, 0, 16]

  function Hiding(t: seq<byte>): seq<byte> {
    [0, 0, 0, 16, 0, 0, 0, 0, 0, 0, 0, 8] + t
  }

  function Hidden(t: seq<byte>): seq<byte> {
    [0, 0, 0, 8] + t
  }

  lemma NamelessParts()
    ensures IsBox(NAMELESS) && OutputOne(BoxOf(NAMELESS)) == [0, 0, 0, 12, 0x61, 0x62, 0x63, 0x64]
    ensures !CleanType(NAMELESS)
  {
    var t: seq<byte> := [0, 0, 0, 0];
    assert TypeOf(NAMELESS) == t && t[0] == 0;
    assert CString(t) == [];
    assert NAMELESS[8..] == [0x61, 0x62, 0x63, 0x64];
    assert WriteU32(12) == [0, 0, 0, 12];
  }

  lemma HidingParts(t: seq<byte>)
    requires |t| == 4
    ensures IsBox(Hiding(t)) && OutputOne(BoxOf(Hiding(t))) == [0, 0, 0, 16] + Hidden(t)
    ensures !CleanType(Hiding(t))
  {
    var none: seq<byte> := [0, 0, 0, 0];
    assert TypeOf(Hiding(t)) == none && none[0] == 0;
    assert CString(none) == [];
    assert Hiding(t)[8..] == Hidden(t);
    assert WriteU32(16) == [0, 0, 0, 16];
  }

  lemma NamedParts()
    ensures IsBox(NAMED) && !IsInit(NAMED) && CleanType(NAMED)
  {
    var t: seq<byte> := [0x61, 0x62, 0x63, 0x64];
    assert TypeOf(NAMED) == t && t[0] == 0x61;
  }

  lemma HiddenParts(t: seq<byte>)
    requires |t| == 4
    ensures IsBox(Hidden(t)) && TypeOf(Hidden(t)) == t
  {
  }

  lemma UncleanIsKept(b: RawBox)
    requires TypeOf(b)[0] == 0
    ensures !CleanType(b) && !IsInit(b)
  {
    var t := TypeOf(b);
    assert t[0] in t;
  }

  lemma TwoBoxes(a: RawBox, b: RawBox)
    ensures Split(a) == Parsed([a], []) && Split(a + b) == Parsed([a, b], [])
  {
    SplitFirst(a, []);
    assert a + [] == a;
    SplitFirst(b, []);
    assert b + [] == b;
    SplitFirst(a, b);
  }

  /** Two boxes that are printed as the bytes of two other boxes. */
  lemma PairBecomes(a: RawBox, b: RawBox, c: RawBox, d: RawBox)
    requires OutputOne(BoxOf(a)) + OutputOne(BoxOf(b)) == c + d
    ensures Split(a + b).boxes == [a, b] && Filter(a + b) == c + d && Split(c + d) == Parsed([c, d], [])
  {
    TwoBoxes(a, b);
    FilterSingle(a);
    FilterSingle(b);
    FilterAppend(a, b);
    TwoBoxes(c, d);
  }

  /** The boxes slip: the first one printed takes four bytes of the second, and what it hid comes out. */
  lemma HiddenBoxComesOut(t: seq<byte>)
    requires |t| == 4
    ensures IsBox(NAMELESS) && IsBox(Hiding(t)) && IsBox(NAMED) && IsBox(Hidden(t))
    ensures Split(NAMELESS + Hiding(t)).boxes == [NAMELESS, Hiding(t)]
    ensures Filter(NAMELESS + Hiding(t)) == NAMED + Hidden(t)
    ensures Split(NAMED + Hidden(t)) == Parsed([NAMED, Hidden(t)], [])
  {
    NamelessParts();
    HidingParts(t);
    NamedParts();
    HiddenParts(t);
    var a: seq<byte>, b: seq<byte> := [0, 0, 0, 12, 0x61, 0x62, 0x63, 0x64], [0, 0, 0, 16];
    Regroup(a, b, Hidden(t));
    assert a + b == NAMED;
    PairBecomes(NAMELESS, Hiding(t), NAMED, Hidden(t));
  }

  lemma CleanPairStays(c: RawBox, d: RawBox)
    requires !IsInit(c) && CleanType(c) && !IsInit(d) && CleanType(d)
    ensures Filter(c + d) == c + d
  {
    TwoBoxes(c, d);
    FilterFixpoint(c + d);
  }

  const FREE: seq<byte> := [0x66, 0x72, 0x65, 0x65]

  lemma FreeIsClean(b: RawBox)
    requires TypeOf(b) == FREE
    ensures !IsInit(b) && CleanType(b)
  {
    assert FREE[0] == 0x66 && FREE[1] == 0x72;
  }

  lemma PairIsUnclean(t: seq<byte>)
    requires |t| == 4
    ensures IsBox(NAMELESS) && !IsInit(NAMELESS) && !CleanType(NAMELESS)
    ensures IsBox(Hiding(t)) && !IsInit(Hiding(t)) && !CleanType(Hiding(t))
  {
    NamelessParts();
    HidingParts(t);
    assert TypeOf(NAMELESS)[0] == 0 && TypeOf(Hiding(t))[0] == 0;
    UncleanIsKept(NAMELESS);
    UncleanIsKept(Hiding(t));
  }

  /** So clean types are not needed for filtering twice to be filtering once. */
  lemma UncleanYetIdempotent()
    ensures var p := NAMELESS + Hiding(FREE);
            && Filter(Filter(p)) == Filter(p)
            && forall b <- Split(p).boxes :: !IsInit(b) && !CleanType(b)
  {
    HiddenBoxComesOut(FREE);
    PairIsUnclean(FREE);
    NamedParts();
    HiddenParts(FREE);
    FreeIsClean(Hidden(FREE));
    CleanPairStays(NAMED, Hidden(FREE));
  }

  lemma LastIsInit(p: seq<byte>, c: RawBox, d: RawBox)
    requires IsInit(d) && Split(p).boxes == [c, d]
    ensures exists b <- Split(p).boxes :: IsInit(b)
  {
    assert Split(p).boxes[1] == d;
  }

  lemma PairIsKept(p: seq<byte>, a: RawBox, b: RawBox)
    requires Split(p).boxes == [a, b] && !IsInit(a) && !IsInit(b)
    ensures forall c <- Split(p).boxes :: !IsInit(c)
  {
  }

  /** And with unclean types the filter can let a box out that it would have removed. */
  lemma UncleanLetsInitOut()
    ensures var p := NAMELESS + Hiding(MOOV);
            && (forall b <- Split(p).boxes :: !IsInit(b))
            && exists b <- Split(Filter(p)).boxes :: IsInit(b)
  {
    var p := NAMELESS + Hiding(MOOV);
    HiddenBoxComesOut(MOOV);
    PairIsUnclean(MOOV);
    PairIsKept(p, NAMELESS, Hiding(MOOV));
    HiddenParts(MOOV);
    LastIsInit(Filter(p), NAMED, Hidden(MOOV));
  }

  lemma FilterSingle(b: RawBox)
    ensures Filter(b) == OutputOne(BoxOf(b))
  {
    assert b + [] == b;
    SplitFirst(b, []);
    assert Split(b).boxes == [b];
    OutputSingle(b);
  }

  /**
   Filtering distributes over appending when the first packet parses completely.  It
   needs no condition on the types, and the second packet may be cut short.
   */
  lemma FilterAppend(a: seq<byte>, b: seq<byte>)
    requires Split(a).tail == []
    ensures Filter(a + b) == Filter(a) + Filter(b)
    ensures Run(a + b) == Run(b).Prepend(Filter(a))
  {
    SplitAppend(a, b);
    OutputConcat(Split(a).boxes, Split(b).boxes);
    RunIsFilter(a + b);
    RunIsFilter(b);
  }

  /** A box named `ftyp` or `moov` is dropped, any other is printed: size, type, data. */
  lemma OutputByName(b: RawBox)
    ensures OutputOne(BoxOf(b)) == if Name(TypeOf(b)) == "ftyp" || Name(TypeOf(b)) == "moov" then []
                                   else b[..4] + CString(TypeOf(b)) + b[8..]
  {
    InitByName(b);
    CStringIs(TypeOf(b), FTYP);
    CStringIs(TypeOf(b), MOOV);
    WriteReadU32(b);
  }

  /** So is the first box of a packet, and then the rest is filtered. */
  lemma FilterByName(b: RawBox, rest: seq<byte>)
    ensures Filter(b + rest) == (if Name(TypeOf(b)) == "ftyp" || Name(TypeOf(b)) == "moov" then []
                                 else b[..4] + CString(TypeOf(b)) + b[8..]) + Filter(rest)
  {
    SplitFirst(b, []);
    assert b + [] == b;
    FilterAppend(b, rest);
    FilterSingle(b);
    OutputByName(b);
  }

  lemma SplitAppend(a: seq<byte>, b: seq<byte>)
    requires Split(a).tail == []
    ensures Split(a + b) == Parsed(Split(a).boxes + Split(b).boxes, Split(b).tail)
  {
    var x, y, t := Split(a).boxes, Split(b).boxes, Split(b).tail;
    assert Concat(x) + [] == Concat(x);
    ConcatAppend(x, y);
    Regroup(Concat(x), Concat(y), t);
    SplitJoins(a);
    SplitJoins(b);
    assert Concat(x + y) + t == a + b;
    SplitUnique(x + y, t);
  }

  /** A box before printing: a type and the data. */
  datatype Atom = Atom(kind: seq<byte>, data: seq<byte>)

  predicate WellFormed(a: Atom) {
    |a.kind| == 4 && 0 !in a.kind && |a.data| + 8 < 0x1_0000_0000
  }

  function Print(a: Atom): (s: RawBox)
    requires WellFormed(a)
    ensures TypeOf(s) == a.kind && s[8..] == a.data
  {
    ReadWriteU32(|a.data| + 8);
    var s := WriteU32(|a.data| + 8) + a.kind + a.data;
    assert s[..4] == WriteU32(|a.data| + 8);
    assert s[4..8] == a.kind && s[8..] == a.data;
    s
  }

  function PrintAll(atoms: seq<Atom>): (r: seq<RawBox>)
    requires forall a <- atoms :: WellFormed(a)
    ensures |r| == |atoms| && forall i | 0 <= i < |r| :: r[i] == Print(atoms[i])
  {
    if atoms == [] then [] else [Print(atoms[0])] + PrintAll(atoms[1..])
  }

  function WithoutInit(atoms: seq<Atom>): (r: seq<Atom>)
    ensures forall a <- r :: a in atoms && a.kind != FTYP && a.kind != MOOV
  {
    if atoms == [] then []
    else if atoms[0].kind == FTYP || atoms[0].kind == MOOV then WithoutInit(atoms[1..])
    else [atoms[0]] + WithoutInit(atoms[1..])
  }

  /** Printing a list of boxes and filtering it is printing the filtered list. */
  lemma PrintThenFilter(atoms: seq<Atom>)
    requires forall a <- atoms :: WellFormed(a)
    ensures Filter(Concat(PrintAll(atoms))) == Concat(PrintAll(WithoutInit(atoms)))
    ensures !StopsAtShortSize(Concat(PrintAll(atoms)))
  {
    var boxes := PrintAll(atoms);
    SplitUnique(boxes, []);
    assert Concat(boxes) + [] == Concat(boxes);
    KeepPrinted(atoms);
    ReprintIdentity(PrintAll(WithoutInit(atoms)));
  }

  lemma {:induction false} KeepPrinted(atoms: seq<Atom>)
    requires forall a <- atoms :: WellFormed(a)
    ensures Keep(PrintAll(atoms)) == PrintAll(WithoutInit(atoms))
  {
    if atoms != [] {
      KeepPrinted(atoms[1..]);
      assert PrintAll(atoms)[1..] == PrintAll(atoms[1..]);
    }
  }
}
