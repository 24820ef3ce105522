/**
 The frames of `send_websocket_frame`, and a reader for them written from section 5.2 of
 RFC 6455.
 */
module WebSocketFrame {
  import opened Bytes

  /** `n >> (8 * k)`. */
  function DropOctets(n: nat, k: nat): nat {
    if k == 0 then n else DropOctets(n / 256, k - 1)
  }

  lemma {:induction false} DropOneMore(n: nat, k: nat)
    ensures DropOctets(n, k + 1) == DropOctets(n, k) / 256
  {
    if k > 0 {
      DropOneMore(n / 256, k - 1);
    }
  }

  /** `n & 0xFF`. */
  function LastOctet(n: nat): byte {
    (n % 256) as byte
  }

  /** The last `k` octets of a number in network byte order. */
  function Octets(n: nat, k: nat): (r: seq<byte>)
    ensures |r| == k
  {
    if k == 0 then [] else Octets(n / 256, k - 1) + [LastOctet(n)]
  }

  /** 256 to the power `k`. */
  function Values(k: nat): nat {
    if k == 0 then 1 else 256 * Values(k - 1)
  }

  lemma {:induction false} NumberOfOctets(n: nat, k: nat)
    requires n < Values(k)
    ensures Number(Octets(n, k)) == n
  {
    if k > 0 {
      NumberOfOctets(n / 256, k - 1);
      assert (Octets(n / 256, k - 1) + [LastOctet(n)])[..k - 1] == Octets(n / 256, k - 1);
    }
  }

  lemma {:induction false} OctetsOfNumber(s: seq<byte>)
    ensures Number(s) < Values(|s|) && Octets(Number(s), |s|) == s
  {
    if s != [] {
      var k := |s| - 1;
      OctetsOfNumber(s[..k]);
      LastIs(Number(s[..k]), s[k]);
      assert s == s[..k] + [s[k]];
    }
  }

  lemma LastIs(n: nat, b: byte)
    ensures (n * 256 + b as nat) / 256 == n && LastOctet(n * 256 + b as nat) == b
  {
  }

  lemma UpperHalf(m: nat, b: nat, w: nat)
    requires b < 256
    ensures 2 * (m * 256 + b) >= 256 * (2 * w) <==> 2 * m >= 2 * w
  {
  }

  lemma EvenValues(k: nat)
    requires k > 0
    ensures Values(k) == 2 * (128 * Values(k - 1))
  {
  }

  /** The first octet has its high bit set exactly for numbers in the upper half. */
  lemma {:induction false} HighBit(s: seq<byte>)
    requires s != []
    ensures s[0] >= 128 <==> 2 * Number(s) >= Values(|s|)
  {
    var k := |s| - 1;
    if k == 0 {
      assert Number(s[..k]) == 0 && Values(k) == 1;
    } else {
      HighBit(s[..k]);
      EvenValues(k);
      UpperHalf(Number(s[..k]), s[k] as nat, 128 * Values(k - 1));
    }
  }

  lemma TwoOctetValues(k: nat)
    requires k == 2
    ensures Values(k) == 0x1_0000
  {
    assert Values(k - 2) == 1;
    assert Values(k - 1) == 0x100;
  }

  lemma EightOctetValues(k: nat)
    requires k == 8
    ensures Values(k) == 0x1_0000_0000_0000_0000
  {
    TwoOctetValues(k - 6);
    assert Values(k - 5) == 0x100_0000;
    assert Values(k - 4) == 0x1_0000_0000;
    assert Values(k - 3) == 0x100_0000_0000;
    assert Values(k - 2) == 0x1_0000_0000_0000;
    assert Values(k - 1) == 0x100_0000_0000_0000;
  }

  // ---------------------------------------------------------------------------
  // The writer
  // ---------------------------------------------------------------------------

  /** How many octets the length takes besides the one with its short form. */
  function Width(n: nat): nat {
    if n <= 125 then 0 else if n <= 65535 then 2 else 8
  }

  /** The seven-bit length: the length, or the sign of a longer form. */
  function Short(n: nat): byte {
    if n <= 125 then n as byte else if n <= 65535 then 126 else 127
  }

  /** A frame without its first octet. */
  function Tail(payload: seq<byte>): seq<byte> {
    [Short(|payload|)] + Octets(|payload|, Width(|payload|)) + payload
  }

  /** A frame; the first octet has FIN set and the opcode of binary data. */
  function Frame(payload: seq<byte>): seq<byte> {
    [0x82] + Tail(payload)
  }

  lemma {:induction false} OctetAt(n: nat, k: nat, i: nat)
    requires i < k
    ensures Octets(n, k)[i] == LastOctet(DropOctets(n, k - 1 - i))
  {
    if i < k - 1 {
      OctetAt(n / 256, k - 1, i);
    }
  }

  /** The octets of a frame: the length takes the shortest of three forms, and the payload comes last. */
  lemma FrameForm(p: seq<byte>)
    ensures var w := if |p| <= 125 then 0 else if |p| <= 65535 then 2 else 8;
            && |Frame(p)| == 2 + w + |p|
            && Frame(p)[0] == 0x82
            && Frame(p)[1] as int == (if w == 0 then |p| else if w == 2 then 126 else 127)
            && Frame(p)[2..2 + w] == Octets(|p|, w)
            && Frame(p)[2 + w..] == p
  {
    var short, length := [0x82, Short(|p|)], Octets(|p|, Width(|p|));
    assert Frame(p) == short + length + p;
  }

  /** `send_websocket_frame`, up to the call of send. */
  method BuildFrame(data: seq<byte>) returns (frame: seq<byte>)
    ensures frame == Frame(data)
  {
    frame := [0x82];
    var n := |data|;
    if n <= 125 {
      frame := frame + [n as byte];
    } else if n <= 65535 {
      frame := frame + [126];
      frame := frame + [LastOctet(DropOctets(n, 1))];
      frame := frame + [LastOctet(n)];
      TwoOctets(n, Width(n));
    } else {
      frame := frame + [127];
      var i := Width(n);
      while i > 0
        invariant 0 <= i <= Width(n)
        invariant frame == [0x82, 127] + Octets(DropOctets(n, i), Width(n) - i)
        decreases i
      {
        i := i - 1;
        DropOneMore(n, i);
        frame := frame + [LastOctet(DropOctets(n, i))];
      }
      assert DropOctets(n, i) == n;
    }
    assert frame == [0x82] + ([Short(n)] + Octets(n, Width(n)));
    frame := frame + data;
  }

  lemma TwoOctets(n: nat, k: nat)
    requires k == 2
    ensures Octets(n, k) == [LastOctet(DropOctets(n, 1)), LastOctet(n)]
  {
    assert Octets(n / 256, k - 1) == Octets(n / 256 / 256, k - 2) + [LastOctet(n / 256)];
    assert Octets(n / 256 / 256, k - 2) == [];
    assert DropOctets(n, 1) == DropOctets(n / 256, 0);
  }

  // ---------------------------------------------------------------------------
  // The reader
  // ---------------------------------------------------------------------------

  /** What a frame carries: the FIN bit, the opcode (2 is binary) and the payload. */
  datatype Message = Message(fin: bool, opcode: nat, payload: seq<byte>)

  datatype Result = Got(message: Message, rest: seq<byte>) | Incomplete | Illegal

  /** The part of the frame from the payload on. */
  function ReadPayload(first: byte, n: nat, s: seq<byte>): (r: Result)
    ensures r.Got? ==> |r.rest| <= |s|
  {
    if |s| < n then Incomplete
    else Got(Message(first >= 128, first as nat % 16, s[..n]), s[n..])
  }

  /** The octets of a length that needs as many, and is below 2^63. */
  predicate LongLength(length: seq<byte>) {
    if |length| == 2 then Number(length) > 125
    else |length| == 8 && Number(length) > 65535 && length[0] < 128
  }

  /** The part of the frame from a length of that many octets on. */
  function ReadLong(first: byte, width: nat, s: seq<byte>): (r: Result)
    ensures r.Got? ==> |r.rest| <= |s|
  {
    if |s| < width then Incomplete
    else if LongLength(s[..width]) then ReadPayload(first, Number(s[..width]), s[width..])
    else Illegal
  }

  /**
   Reads one frame sent by a server: reserved bits zero, not masked, the length in its
   shortest form, and a 64-bit length below 2^63.
   */
  function ReadFrame(s: seq<byte>): (r: Result)
    ensures r.Got? ==> |r.rest| < |s|
  {
    if |s| < 2 then Incomplete
    else if s[0] as nat / 16 % 8 != 0 || s[1] >= 128 then Illegal
    else if s[1] <= 125 then ReadPayload(s[0], s[1] as nat, s[2..])
    else ReadLong(s[0], if s[1] == 126 then 2 else 8, s[2..])
  }

  /** The messages of a whole stream; not ok when it does not end after a legal frame. */
  datatype Stream = Stream(messages: seq<Message>, ok: bool)

  function ReadStream(s: seq<byte>): Stream
    decreases |s|
  {
    if s == [] then Stream([], true)
    else
      match ReadFrame(s)
      case Got(m, rest) =>
        var more := ReadStream(rest);
        more.(messages := [m] + more.messages)
      case _ => Stream([], false)
  }

  // ---------------------------------------------------------------------------
  // One frame
  // ---------------------------------------------------------------------------

  const LIMIT: nat := 0x8000_0000_0000_0000

  /** The octets of a length that has its form. */
  lemma LengthRead(n: nat)
    requires Width(n) > 0 && n < LIMIT
    ensures var t := Octets(n, Width(n));
            Number(t) == n && LongLength(t)
  {
    var w := Width(n);
    if w == 2 {
      TwoOctetValues(w);
    } else {
      EightOctetValues(w);
      HighBit(Octets(n, w));
    }
    NumberOfOctets(n, w);
  }

  /** A length the reader accepts, in the octets it accepts it from. */
  lemma LengthWritten(t: seq<byte>)
    requires LongLength(t)
    ensures t == Octets(Number(t), |t|) && |t| == Width(Number(t)) && Number(t) < LIMIT
  {
    OctetsOfNumber(t);
    if |t| == 8 {
      EightOctetValues(|t|);
      HighBit(t);
    } else {
      TwoOctetValues(|t|);
    }
  }

  lemma FirstTwo(a: byte, b: byte, body: seq<byte>, s: seq<byte>)
    requires s == [a] + ([b] + body)
    ensures s[0] == a && s[1] == b && s[2..] == body
  {
  }

  lemma Behind(a: seq<byte>, b: seq<byte>)
    ensures (a + b)[..|a|] == a && (a + b)[|a|..] == b
  {
  }

  lemma TailThen(p: seq<byte>, rest: seq<byte>)
    ensures Tail(p) + rest == [Short(|p|)] + (Octets(|p|, Width(|p|)) + (p + rest))
  {
    var short, length := [Short(|p|)], Octets(|p|, Width(|p|));
    Regroup(short + length, p, rest);
    Regroup(short, length, p + rest);
  }

  lemma SplitFrame(p: seq<byte>, rest: seq<byte>)
    ensures var s := Frame(p) + rest;
            && |s| >= 2 && s[0] == 0x82 && s[1] == Short(|p|)
            && s[2..] == Octets(|p|, Width(|p|)) + (p + rest)
  {
    Regroup([0x82], Tail(p), rest);
    TailThen(p, rest);
    FirstTwo(0x82, Short(|p|), Octets(|p|, Width(|p|)) + (p + rest), Frame(p) + rest);
  }

  /** The reader gets back the payload of a frame, and leaves what follows it. */
  lemma FrameIsRead(p: seq<byte>, rest: seq<byte>)
    requires |p| < LIMIT
    ensures ReadFrame(Frame(p) + rest) == Got(Message(true, 2, p), rest)
  {
    SplitFrame(p, rest);
    Behind(p, rest);
    Behind(Octets(|p|, Width(|p|)), p + rest);
    if Width(|p|) > 0 {
      LengthRead(|p|);
    } else {
      assert Octets(|p|, Width(|p|)) + (p + rest) == p + rest;
    }
  }

  lemma LongParts(first: byte, width: nat, s: seq<byte>)
    requires ReadLong(first, width, s).Got? && width > 0
    ensures var r := ReadLong(first, width, s);
            var n := |r.message.payload|;
            && n < LIMIT && width == Width(n)
            && s[..width] == Octets(n, width) && s[width..] == r.message.payload + r.rest
  {
    LengthWritten(s[..width]);
  }

  /** The parts of what the reader accepts. */
  lemma AcceptedParts(s: seq<byte>) returns (length: seq<byte>)
    requires ReadFrame(s).Got?
    ensures var r := ReadFrame(s);
            var p := r.message.payload;
            && s[1] == Short(|p|) && |p| < LIMIT
            && length == Octets(|p|, Width(|p|))
            && s[2..] == length + (p + r.rest)
  {
    if s[1] <= 125 {
      length := [];
      assert s[2..] == ReadFrame(s).message.payload + ReadFrame(s).rest;
    } else {
      var width := if s[1] == 126 then 2 else 8;
      LongParts(s[0], width, s[2..]);
      length := s[2..][..width];
      assert s[2..] == length + s[2..][width..];
    }
  }

  /** Whatever the reader accepts is, from the second octet on, the frame of its payload. */
  lemma AcceptedForm(s: seq<byte>)
    requires ReadFrame(s).Got?
    ensures var r := ReadFrame(s);
            && |r.message.payload| < LIMIT
            && s == [s[0]] + (Tail(r.message.payload) + r.rest)
  {
    var r := ReadFrame(s);
    var length := AcceptedParts(s);
    TailThen(r.message.payload, r.rest);
    FirstAndRest(s);
  }

  lemma FirstAndRest(s: seq<byte>)
    requires |s| >= 2
    ensures s == [s[0]] + ([s[1]] + s[2..])
  {
  }

  lemma FirstOctet(b: byte)
    ensures b == 0x82 <==> b >= 128 && b as nat % 16 == 2 && b as nat / 16 % 8 == 0
  {
  }

  /**
   The reader takes a final binary message and a remainder from a byte string exactly when
   the string is the frame of that message followed by the remainder, and the length fits
   in 63 bits.  So the frame is the only legal form of its payload.
   */
  lemma ReadsExactlyFrames(s: seq<byte>, p: seq<byte>, rest: seq<byte>)
    ensures ReadFrame(s) == Got(Message(true, 2, p), rest) <==> s == Frame(p) + rest && |p| < LIMIT
  {
    if |p| < LIMIT {
      FrameIsRead(p, rest);
    }
    if ReadFrame(s) == Got(Message(true, 2, p), rest) {
      AcceptedForm(s);
      FirstOctet(s[0]);
      Regroup([0x82], Tail(p), rest);
    }
  }

  // ---------------------------------------------------------------------------
  // A stream of frames
  // ---------------------------------------------------------------------------

  /** The frames of a list of payloads, one after the other. */
  function Sent(ps: seq<seq<byte>>): seq<byte> {
    if ps == [] then [] else Frame(ps[0]) + Sent(ps[1..])
  }

  function Binary(ps: seq<seq<byte>>): (r: seq<Message>)
    ensures |r| == |ps|
  {
    if ps == [] then [] else [Message(true, 2, ps[0])] + Binary(ps[1..])
  }

  /**
   What was sent reads back as the payloads it was made of, each a final binary message,
   exactly when every payload is shorter than 2^63 bytes.
   */
  lemma {:induction false} StreamRoundTripIff(ps: seq<seq<byte>>)
    ensures ReadStream(Sent(ps)) == Stream(Binary(ps), true) <==> forall p <- ps :: |p| < LIMIT
  {
    if ps != [] {
      var s := Sent(ps);
      StreamRoundTripIff(ps[1..]);
      ReadsExactlyFrames(s, ps[0], Sent(ps[1..]));
      assert ps == [ps[0]] + ps[1..];
      assert Binary(ps)[1..] == Binary(ps[1..]);
      if |ps[0]| < LIMIT {
        var more := ReadStream(Sent(ps[1..]));
        assert ReadStream(s) == more.(messages := [Message(true, 2, ps[0])] + more.messages);
        assert ReadStream(s).messages[1..] == more.messages;
      } else {
        NotRead(s, ps);
      }
    }
  }

  lemma NotRead(s: seq<byte>, ps: seq<seq<byte>>)
    requires ps != [] && |ps[0]| >= LIMIT && s != []
    ensures ReadStream(s) != Stream(Binary(ps), true)
  {
    var r := ReadFrame(s);
    if r.Got? {
      AcceptedForm(s);
      assert ReadStream(s).messages[0] == r.message;
    }
  }

  lemma {:induction false} BinaryInjective(ps: seq<seq<byte>>, qs: seq<seq<byte>>)
    requires Binary(ps) == Binary(qs)
    ensures ps == qs
  {
    assert |ps| == |qs|;
    if ps != [] {
      assert Binary(ps)[0] == Binary(qs)[0];
      assert Binary(ps)[1..] == Binary(ps[1..]) && Binary(qs)[1..] == Binary(qs[1..]);
      BinaryInjective(ps[1..], qs[1..]);
      assert ps == [ps[0]] + ps[1..] && qs == [qs[0]] + qs[1..];
    }
  }

  /** Different lists of payloads give different streams. */
  lemma SentInjective(ps: seq<seq<byte>>, qs: seq<seq<byte>>)
    requires Sent(ps) == Sent(qs)
    requires forall p <- ps + qs :: |p| < LIMIT
    ensures ps == qs
  {
    StreamRoundTripIff(ps);
    StreamRoundTripIff(qs);
    BinaryInjective(ps, qs);
  }
}
