/**
 * Length-prefixed frames on the daemon socket (src/daemon/transport.ts). How an envelope is written as
 * JSON bytes is a parameter; only its round trip is assumed, and only where a lemma says so.
 */
module Frames {
  import opened Common

  const HEADER_LENGTH := 4

  /** The first length that no longer fits the four header bytes. */
  const LENGTH_LIMIT := 0x1_0000_0000

  datatype Codec<!M> = Codec(stringify: M -> Bytes, parse: Bytes -> Option<M>)

  ghost predicate Faithful<M(!new)>(c: Codec<M>) {
    forall m :: c.parse(c.stringify(m)) == Some(m)
  }

  /** Big-endian: each byte is taken off the end and the rest shifted right, as writeUInt32BE does it. */
  function Header(n: nat): (h: Bytes)
    requires n < LENGTH_LIMIT
    ensures |h| == HEADER_LENGTH
  {
    [n / 0x100 / 0x100 / 0x100, n / 0x100 / 0x100 % 0x100, n / 0x100 % 0x100, n % 0x100]
  }

  function Weigh(b0: nat, b1: nat, b2: nat, b3: nat): nat {
    b0 * 0x100_0000 + b1 * 0x1_0000 + b2 * 0x100 + b3
  }

  function ReadLength(b: Bytes): (n: nat)
    requires |b| >= HEADER_LENGTH
  {
    Weigh(b[0], b[1], b[2], b[3])
  }

  lemma SplitByte(q: nat, r: nat)
    requires r < 0x100
    ensures (q * 0x100 + r) / 0x100 == q && (q * 0x100 + r) % 0x100 == r
  {
  }

  lemma HeaderRoundTrip(n: nat, tail: Bytes)
    requires n < LENGTH_LIMIT
    ensures |Header(n) + tail| == HEADER_LENGTH + |tail| && ReadLength(Header(n) + tail) == n
  {
    var h := Header(n) + tail;
    assert h[0] == n / 0x100 / 0x100 / 0x100 && h[1] == n / 0x100 / 0x100 % 0x100;
    assert h[2] == n / 0x100 % 0x100 && h[3] == n % 0x100;
  }

  lemma ReadLengthBounded(b: Bytes)
    requires |b| >= HEADER_LENGTH
    ensures ReadLength(b) < LENGTH_LIMIT
    ensures Header(ReadLength(b)) == b[..HEADER_LENGTH]
  {
    var b0: nat, b1: nat, b2: nat, b3: nat := b[0], b[1], b[2], b[3];
    var n := Weigh(b0, b1, b2, b3);
    var q1 := b0 * 0x1_0000 + b1 * 0x100 + b2;
    var q2 := b0 * 0x100 + b1;
    assert n == q1 * 0x100 + b3 && q1 == q2 * 0x100 + b2;
    SplitByte(q1, b3);
    SplitByte(q2, b2);
    SplitByte(b0, b1);
    assert b[..HEADER_LENGTH] == [b[0], b[1], b[2], b[3]];
  }

  datatype EncodeError = LengthOutOfRange

  function Frame(payload: Bytes): Bytes
    requires |payload| < LENGTH_LIMIT
  {
    Header(|payload|) + payload
  }

  function Encoded<M>(c: Codec<M>, m: M): Result<Bytes, EncodeError> {
    var payload := c.stringify(m);
    if |payload| < LENGTH_LIMIT then Ok(Frame(payload)) else Err(LengthOutOfRange)
  }

  /** What goes on the wire: the length in four bytes, the most significant first, and the payload. */
  ghost predicate OnWire(payload: Bytes, b: Bytes) {
    && |b| == 4 + |payload| && b[4..] == payload
    && b[0] as int * 0x100_0000 + b[1] as int * 0x1_0000 + b[2] as int * 0x100 + b[3] as int == |payload|
  }

  /** Encoding fails exactly for payloads of 2^32 bytes and more. */
  lemma EncodedExactly<M>(c: Codec<M>, m: M)
    ensures match Encoded(c, m)
            case Ok(b) => |c.stringify(m)| < 0x1_0000_0000 && OnWire(c.stringify(m), b)
            case Err(_) => |c.stringify(m)| >= 0x1_0000_0000
  {
    var payload := c.stringify(m);
    if |payload| < LENGTH_LIMIT {
      HeaderRoundTrip(|payload|, payload);
    }
  }

  method EncodeFrame<M>(c: Codec<M>, m: M) returns (r: Result<Bytes, EncodeError>)
    ensures r == Encoded(c, m)
  {
    var payload := c.stringify(m);
    var n := |payload|;
    if n >= LENGTH_LIMIT {
      return Err(LengthOutOfRange);
    }
    var header := new Byte[HEADER_LENGTH](_ => 0);
    header[3] := n % 0x100;
    n := n / 0x100;
    header[2] := n % 0x100;
    n := n / 0x100;
    header[1] := n % 0x100;
    n := n / 0x100;
    header[0] := n;
    assert header[..] == Header(|payload|);
    return Ok(header[..] + payload);
  }

  // ------------------------------------------------------------------ what a byte stream means

  /** The buffer starts with a whole frame. */
  predicate Complete(b: Bytes) {
    |b| >= HEADER_LENGTH && |b| >= HEADER_LENGTH + ReadLength(b)
  }

  function Payload(b: Bytes): (p: Bytes)
    requires Complete(b)
  {
    b[HEADER_LENGTH..HEADER_LENGTH + ReadLength(b)]
  }

  function Tail(b: Bytes): (t: Bytes)
    requires Complete(b)
    ensures |t| < |b|
  {
    b[HEADER_LENGTH + ReadLength(b)..]
  }

  /** The payloads of the whole frames at the front of the buffer, well formed or not. */
  function Payloads(b: Bytes): seq<Bytes>
    decreases |b|
  {
    if Complete(b) then [Payload(b)] + Payloads(Tail(b)) else []
  }

  /** What is left once they are taken off. */
  function Residue(b: Bytes): Bytes
    decreases |b|
  {
    if Complete(b) then Residue(Tail(b)) else b
  }

  function Parsed<M>(c: Codec<M>, payloads: seq<Bytes>): seq<M> {
    if payloads == [] then []
    else
      match c.parse(payloads[0])
      case Some(m) => [m] + Parsed(c, payloads[1..])
      case None => Parsed(c, payloads[1..])
  }

  lemma ParsedSnoc<M>(c: Codec<M>, taken: seq<Bytes>, payload: Bytes)
    ensures Parsed(c, taken + [payload]) ==
            Parsed(c, taken) + (match c.parse(payload) case Some(m) => [m] case None => [])
  {
    ParsedConcat(c, taken, [payload]);
    assert [payload][1..] == [];
  }

  class FrameDecoder<M(!new)> {
    const codec: Codec<M>
    var buffer: Bytes

    constructor (codec: Codec<M>)
      ensures this.codec == codec && buffer == []
    {
      this.codec := codec;
      buffer := [];
    }

    method Push(chunk: Bytes) returns (messages: seq<M>)
      modifies this
      ensures messages == Parsed(codec, Payloads(old(buffer) + chunk))
      ensures buffer == Residue(old(buffer) + chunk)
    {
      buffer := buffer + chunk;
      messages := [];
      ghost var all, taken := buffer, [];
      while |buffer| >= HEADER_LENGTH
        invariant Payloads(all) == taken + Payloads(buffer)
        invariant Residue(all) == Residue(buffer)
        invariant messages == Parsed(codec, taken)
        decreases |buffer|
      {
        var length := ReadLength(buffer);
        if |buffer| < HEADER_LENGTH + length {
          break;
        }
        var payload := buffer[HEADER_LENGTH..HEADER_LENGTH + length];
        ParsedSnoc(codec, taken, payload);
        PayloadsUnfold(buffer);
        AppendAssociates(taken, [payload], Payloads(Tail(buffer)));
        taken := taken + [payload];
        buffer := buffer[HEADER_LENGTH + length..];
        match codec.parse(payload)
        case Some(m) => messages := messages + [m];
        case None =>
      }
      assert taken + [] == taken;
    }
  }

  lemma {:induction false} ParsedConcat<M>(c: Codec<M>, a: seq<Bytes>, b: seq<Bytes>)
    ensures Parsed(c, a + b) == Parsed(c, a) + Parsed(c, b)
  {
    if a == [] {
      assert a + b == b;
    } else {
      assert (a + b)[1..] == a[1..] + b;
      ParsedConcat(c, a[1..], b);
    }
  }

  // ------------------------------------------------------------------ nothing is lost or invented

  /** Every payload has a length the header can hold. */
  ghost predicate Fits(payloads: seq<Bytes>) {
    forall i :: 0 <= i < |payloads| ==> |payloads[i]| < LENGTH_LIMIT
  }

  ghost function Stream(payloads: seq<Bytes>): Bytes
    requires Fits(payloads)
  {
    if payloads == [] then [] else Frame(payloads[0]) + Stream(payloads[1..])
  }

  lemma PayloadOfFrame(payload: Bytes, rest: Bytes)
    requires |payload| < LENGTH_LIMIT
    ensures var b := Frame(payload) + rest; Complete(b) && Payload(b) == payload && Tail(b) == rest
  {
    assert Frame(payload) + rest == Header(|payload|) + (payload + rest);
    HeaderRoundTrip(|payload|, payload + rest);
  }

  lemma CutAtPayload(b: Bytes)
    requires Complete(b)
    ensures b == b[..HEADER_LENGTH] + Payload(b) + Tail(b)
  {
  }

  lemma FrameOfPayload(b: Bytes)
    requires Complete(b)
    ensures |Payload(b)| < LENGTH_LIMIT
    ensures Frame(Payload(b)) + Tail(b) == b
  {
    ReadLengthBounded(b);
    assert |Payload(b)| == ReadLength(b);
    CutAtPayload(b);
  }

  /** Any buffer is exactly the frames taken from it followed by the residue, and the residue holds no whole frame. */
  lemma {:induction false} StreamConserved(b: Bytes)
    ensures Fits(Payloads(b))
    ensures Stream(Payloads(b)) + Residue(b) == b
    ensures !Complete(Residue(b))
    decreases |b|
  {
    if Complete(b) {
      var first, later := Payload(b), Payloads(Tail(b));
      StreamConserved(Tail(b));
      FrameOfPayload(b);
      assert ([first] + later)[1..] == later;
      assert Frame(first) + Stream(later) + Residue(b) == Frame(first) + (Stream(later) + Residue(b));
    }
  }

  lemma StreamUnfold(payloads: seq<Bytes>, rest: Bytes)
    requires Fits(payloads) && payloads != []
    ensures Stream(payloads) + rest == Frame(payloads[0]) + (Stream(payloads[1..]) + rest)
  {
  }

  lemma PayloadsUnfold(b: Bytes)
    requires Complete(b)
    ensures Payloads(b) == [Payload(b)] + Payloads(Tail(b)) && Residue(b) == Residue(Tail(b))
  {
  }

  lemma FrameComesFirst(payload: Bytes, more: Bytes)
    requires |payload| < LENGTH_LIMIT
    ensures Payloads(Frame(payload) + more) == [payload] + Payloads(more)
    ensures Residue(Frame(payload) + more) == Residue(more)
  {
    PayloadOfFrame(payload, more);
    PayloadsUnfold(Frame(payload) + more);
  }

  /** A stream is cut into frames in one way only. */
  lemma {:induction false} StreamParsesBack(payloads: seq<Bytes>, rest: Bytes)
    requires Fits(payloads)
    ensures Payloads(Stream(payloads) + rest) == payloads + Payloads(rest)
    ensures Residue(Stream(payloads) + rest) == Residue(rest)
  {
    if payloads == [] {
      assert Stream(payloads) + rest == rest;
      assert payloads + Payloads(rest) == Payloads(rest);
    } else {
      var first, later := payloads[0], payloads[1..];
      StreamUnfold(payloads, rest);
      StreamParsesBack(later, rest);
      FrameComesFirst(first, Stream(later) + rest);
      AppendAssociates([first], later, Payloads(rest));
      assert payloads == [first] + later;
    }
  }

  /** Handing over `a` and then `b` is the same as handing over both at once, for any bytes. */
  lemma PushIsIncremental<M>(c: Codec<M>, a: Bytes, b: Bytes)
    ensures Payloads(a + b) == Payloads(a) + Payloads(Residue(a) + b)
    ensures Residue(a + b) == Residue(Residue(a) + b)
    ensures Parsed(c, Payloads(a + b)) == Parsed(c, Payloads(a)) + Parsed(c, Payloads(Residue(a) + b))
  {
    StreamConserved(a);
    assert a + b == Stream(Payloads(a)) + (Residue(a) + b);
    StreamParsesBack(Payloads(a), Residue(a) + b);
    ParsedConcat(c, Payloads(a), Payloads(Residue(a) + b));
  }

  /** A decoder fed chunk by chunk: everything it returned, and its final buffer. */
  function Fed<M>(c: Codec<M>, buffer: Bytes, chunks: seq<Bytes>): (seq<M>, Bytes)
    decreases |chunks|
  {
    if chunks == [] then ([], buffer)
    else
      var (later, residue) := Fed(c, Residue(buffer + chunks[0]), chunks[1..]);
      (Parsed(c, Payloads(buffer + chunks[0])) + later, residue)
  }

  function Flatten(chunks: seq<Bytes>): Bytes {
    if chunks == [] then [] else chunks[0] + Flatten(chunks[1..])
  }

  lemma {:induction false} FedIsChunkingFree<M>(c: Codec<M>, buffer: Bytes, chunks: seq<Bytes>)
    requires !Complete(buffer)
    ensures Fed(c, buffer, chunks) == (Parsed(c, Payloads(buffer + Flatten(chunks))), Residue(buffer + Flatten(chunks)))
    decreases |chunks|
  {
    if chunks == [] {
      assert buffer + Flatten(chunks) == buffer;
    } else {
      var first, more := buffer + chunks[0], Flatten(chunks[1..]);
      assert buffer + Flatten(chunks) == first + more;
      PushIsIncremental(c, first, more);
      StreamConserved(first);
      FedIsChunkingFree(c, Residue(first), chunks[1..]);
    }
  }

  function Printed<M>(c: Codec<M>, messages: seq<M>): seq<Bytes> {
    if messages == [] then [] else [c.stringify(messages[0])] + Printed(c, messages[1..])
  }

  lemma {:induction false} PrintedParsesBack<M(!new)>(c: Codec<M>, messages: seq<M>)
    requires Faithful(c)
    ensures Parsed(c, Printed(c, messages)) == messages
  {
    if messages != [] {
      PrintedParsesBack(c, messages[1..]);
      assert Printed(c, messages)[1..] == Printed(c, messages[1..]);
      assert messages == [messages[0]] + messages[1..];
    }
  }

  /** The frames are what the encoder makes of the messages. */
  ghost predicate EncodedAs<M>(c: Codec<M>, messages: seq<M>, frames: seq<Bytes>) {
    |frames| == |messages| && forall i :: 0 <= i < |messages| ==> Encoded(c, messages[i]) == Ok(frames[i])
  }

  lemma {:induction false} EncodedIsStream<M>(c: Codec<M>, messages: seq<M>, frames: seq<Bytes>)
    requires EncodedAs(c, messages, frames)
    ensures Fits(Printed(c, messages)) && Flatten(frames) == Stream(Printed(c, messages))
  {
    if messages != [] {
      var payloads := Printed(c, messages);
      EncodedIsStream(c, messages[1..], frames[1..]);
      assert payloads[0] == c.stringify(messages[0]) && payloads[1..] == Printed(c, messages[1..]);
      assert Encoded(c, messages[0]) == Ok(frames[0]);
      assert forall i :: 1 <= i < |payloads| ==> payloads[i] == payloads[1..][i - 1];
    }
  }

  /** However the frames of some envelopes are cut up, the decoder returns those envelopes, in order. */
  lemma RoundTrip<M(!new)>(c: Codec<M>, messages: seq<M>, frames: seq<Bytes>, chunks: seq<Bytes>)
    requires Faithful(c) && EncodedAs(c, messages, frames) && Flatten(chunks) == Flatten(frames)
    ensures Fed(c, [], chunks) == (messages, [])
  {
    var payloads := Printed(c, messages);
    EncodedIsStream(c, messages, frames);
    FedIsChunkingFree(c, [], chunks);
    assert [] + Flatten(chunks) == Stream(payloads) + [];
    StreamParsesBack(payloads, []);
    PrintedParsesBack(c, messages);
    assert payloads + [] == payloads;
  }

  /** A payload that is not JSON costs its own frame and nothing else. */
  lemma MalformedPayloadIsSkipped<M>(c: Codec<M>, before: seq<Bytes>, bad: Bytes, rest: Bytes)
    requires Fits(before)
    requires |bad| < LENGTH_LIMIT && c.parse(bad) == None
    ensures var hit, clean := Stream(before) + (Frame(bad) + rest), Stream(before) + rest;
            Parsed(c, Payloads(hit)) == Parsed(c, Payloads(clean)) && Residue(hit) == Residue(clean)
  {
    StreamParsesBack(before, Frame(bad) + rest);
    StreamParsesBack(before, rest);
    PayloadOfFrame(bad, rest);
    ParsedConcat(c, before, Payloads(Frame(bad) + rest));
    ParsedConcat(c, before, Payloads(rest));
    assert Payloads(Frame(bad) + rest)[1..] == Payloads(rest);
  }
}
