/** Length-prefixed frames on a byte stream: four big-endian length bytes, then the payload. */
module Framing {
  import opened Seqs

  type Bytes = seq<Byte>

  const MAX_MESSAGE_SIZE := 1024 * 1024

  datatype Written = Frame(bytes: Bytes) | MessageTooLarge(size: nat)

  datatype Received =
    | Payload(data: Bytes)
    | EmptyStream
    | StreamTooShort(size: nat)
    | PayloadTooLarge(size: nat)
    | IncompletePayload(expected: nat, got: nat)

  /** `setUint32`, big-endian; it keeps the low 32 bits. */
  function Header(n: nat): (h: Bytes)
    ensures |h| == 4
  {
    [n / 0x1000000 % 256, n / 0x10000 % 256, n / 0x100 % 256, n % 256]
  }

  /** `getUint32`, big-endian. */
  function HeaderValue(a: Byte, b: Byte, c: Byte, d: Byte): nat {
    a as nat * 0x1000000 + b as nat * 0x10000 + c as nat * 0x100 + d as nat
  }

  function FrameOf(payload: Bytes): Bytes {
    Header(|payload|) + payload
  }

  function Flatten(chunks: seq<Bytes>): Bytes {
    if chunks == [] then [] else Flatten(chunks[..|chunks| - 1]) + chunks[|chunks| - 1]
  }

  function ReadBuffer(buffer: Bytes): Received {
    if |buffer| < 4 then StreamTooShort(|buffer|)
    else
      var n := HeaderValue(buffer[0], buffer[1], buffer[2], buffer[3]);
      if n > MAX_MESSAGE_SIZE then PayloadTooLarge(n)
      else if |buffer| < 4 + n then IncompletePayload(n, |buffer| - 4)
      else Payload(buffer[4..4 + n])
  }

  function Read(chunks: seq<Bytes>): Received {
    if chunks == [] then EmptyStream else ReadBuffer(Flatten(chunks))
  }

  // ---- headers -----------------------------------------------------------------------------

  lemma HeaderRoundTrip(n: nat)
    requires n < 0x1_0000_0000
    ensures var h := Header(n); HeaderValue(h[0], h[1], h[2], h[3]) == n
  {
    assert n / 0x100 == n / 0x10000 * 256 + n / 0x100 % 256;
    assert n / 0x10000 == n / 0x1000000 * 256 + n / 0x10000 % 256;
  }

  /** A frame is four length bytes, the most significant first, and the payload. */
  lemma FrameIsBigEndian(payload: Bytes)
    requires |payload| < 0x1_0000_0000
    ensures var f := FrameOf(payload);
            && |f| == 4 + |payload| && f[4..] == payload
            && f[0] as nat * 0x1000000 + f[1] as nat * 0x10000 + f[2] as nat * 0x100 + f[3] as nat == |payload|
  {
    HeaderRoundTrip(|payload|);
  }

  lemma ByteOf(high: nat, low: Byte)
    ensures (high * 256 + low as nat) / 256 == high && (high * 256 + low as nat) % 256 == low as nat
  {
  }

  lemma ValueRoundTrip(a: Byte, b: Byte, c: Byte, d: Byte)
    ensures Header(HeaderValue(a, b, c, d)) == [a, b, c, d]
    ensures HeaderValue(a, b, c, d) < 0x1_0000_0000
  {
    var n := HeaderValue(a, b, c, d);
    var high: nat := a as nat * 256 + b as nat;
    ByteOf(high * 256 + c as nat, d);
    ByteOf(high, c);
    ByteOf(a as nat, b);
    assert n / 0x10000 == n / 0x100 / 0x100 && n / 0x1000000 == n / 0x10000 / 0x100;
  }

  // ---- the promises ------------------------------------------------------------------------

  /** A byte stream is accepted with a payload exactly when it starts with that payload's frame. */
  lemma AcceptedIffStartsWithFrame(buffer: Bytes, payload: Bytes)
    ensures ReadBuffer(buffer) == Payload(payload)
            <==> |payload| <= 1_048_576 && FrameOf(payload) <= buffer
  {
    if |payload| <= MAX_MESSAGE_SIZE && FrameOf(payload) <= buffer {
      HeaderRoundTrip(|payload|);
      var h := Header(|payload|);
      assert buffer[0] == FrameOf(payload)[0] && buffer[1] == FrameOf(payload)[1];
      assert buffer[2] == FrameOf(payload)[2] && buffer[3] == FrameOf(payload)[3];
      assert buffer[..|FrameOf(payload)|][4..] == payload;
    }
    if ReadBuffer(buffer) == Payload(payload) {
      ValueRoundTrip(buffer[0], buffer[1], buffer[2], buffer[3]);
      assert buffer[..4 + |payload|] == FrameOf(payload);
    }
  }

  /** However a payload's frame is cut into chunks, reading returns the payload. */
  lemma ReadWhatWasWritten(chunks: seq<Bytes>, payload: Bytes)
    requires |payload| <= MAX_MESSAGE_SIZE && Flatten(chunks) == FrameOf(payload)
    ensures Read(chunks) == Payload(payload)
  {
    AcceptedIffStartsWithFrame(FrameOf(payload), payload);
    assert Flatten([]) == [];
  }

  /** Every strict prefix of a frame is refused, and after the header the answer says how much is missing. */
  lemma StrictPrefixRefused(chunks: seq<Bytes>, payload: Bytes)
    requires |payload| <= MAX_MESSAGE_SIZE && Flatten(chunks) < FrameOf(payload)
    ensures !Read(chunks).Payload?
    ensures |Flatten(chunks)| >= 4 ==> Read(chunks) == IncompletePayload(|payload|, |Flatten(chunks)| - 4)
  {
    var buffer := Flatten(chunks);
    HeaderRoundTrip(|payload|);
    if |buffer| >= 4 {
      var f := FrameOf(payload);
      assert buffer[0] == f[0] && buffer[1] == f[1] && buffer[2] == f[2] && buffer[3] == f[3];
      assert Flatten([]) == [];
    }
  }

  /** Accepted streams: those that start with a complete frame of legal length. */
  lemma AcceptedStreams(chunks: seq<Bytes>)
    ensures Read(chunks).Payload?
            <==> exists payload: Bytes :: |payload| <= 1_048_576 && FrameOf(payload) <= Flatten(chunks)
  {
    assert Flatten([]) == [];
    if Read(chunks).Payload? {
      AcceptedIffStartsWithFrame(Flatten(chunks), Read(chunks).data);
    }
    forall payload: Bytes | |payload| <= MAX_MESSAGE_SIZE && FrameOf(payload) <= Flatten(chunks)
      ensures Read(chunks) == Payload(payload)
    {
      AcceptedIffStartsWithFrame(Flatten(chunks), payload);
    }
  }

  /** Exactly which streams are refused, and for what. */
  lemma RefusalsIff(chunks: seq<Bytes>)
    ensures var b := Flatten(chunks);
            var size := if |b| < 4 then 0
                        else b[0] as nat * 0x1000000 + b[1] as nat * 0x10000 + b[2] as nat * 0x100 + b[3] as nat;
            && (Read(chunks) == EmptyStream <==> chunks == [])
            && (Read(chunks) == StreamTooShort(|b|) <==> chunks != [] && |b| < 4)
            && (Read(chunks) == PayloadTooLarge(size) <==> |b| >= 4 && size > 1_048_576)
            && (Read(chunks).IncompletePayload? <==> |b| >= 4 && size <= 1_048_576 && |b| < 4 + size)
            && (Read(chunks).IncompletePayload? ==> Read(chunks) == IncompletePayload(size, |b| - 4))
  {
    assert Flatten([]) == [];
  }

  // ---- the buffers -------------------------------------------------------------------------

  /** Copies a chunk into the buffer at an offset. */
  method Set(buffer: array<Byte>, chunk: Bytes, offset: nat)
    requires offset + |chunk| <= buffer.Length
    modifies buffer
    ensures buffer[..offset] == old(buffer[..offset])
    ensures buffer[offset..offset + |chunk|] == chunk
  {
    forall k | 0 <= k < |chunk| {
      buffer[offset + k] := chunk[k];
    }
  }

  /** The frame handed to `send`. */
  method WriteLengthPrefixed(payload: Bytes) returns (r: Written)
    ensures r == if |payload| > 1_048_576 then MessageTooLarge(|payload|) else Frame(FrameOf(payload))
  {
    if |payload| > MAX_MESSAGE_SIZE {
      return MessageTooLarge(|payload|);
    }
    var header := Header(|payload|);
    var frame := new Byte[4 + |payload|](_ => 0);
    Set(frame, header, 0);
    Set(frame, payload, 4);
    assert frame[..] == frame[..4] + frame[4..4 + |payload|];
    r := Frame(frame[..]);
  }

  lemma {:induction false} FlattenTake(chunks: seq<Bytes>, k: nat)
    requires k < |chunks|
    ensures Flatten(chunks[..k + 1]) == Flatten(chunks[..k]) + chunks[k]
  {
    assert chunks[..k + 1][..k] == chunks[..k];
  }

  lemma {:induction false} FlattenLength(chunks: seq<Bytes>, k: nat)
    requires k <= |chunks|
    ensures |Flatten(chunks[..k])| <= |Flatten(chunks)|
    decreases |chunks| - k
  {
    if k < |chunks| {
      FlattenTake(chunks, k);
      FlattenLength(chunks, k + 1);
    } else {
      assert chunks[..k] == chunks;
    }
  }

  /** The number of bytes in all chunks. */
  method TotalLength(chunks: seq<Bytes>) returns (n: nat)
    ensures n == |Flatten(chunks)|
  {
    n := 0;
    for k := 0 to |chunks|
      invariant n == |Flatten(chunks[..k])|
    {
      FlattenTake(chunks, k);
      n := n + |chunks[k]|;
    }
    assert chunks[..|chunks|] == chunks;
  }

  method ReadLengthPrefixed(chunks: seq<Bytes>) returns (r: Received)
    ensures r == Read(chunks)
  {
    if |chunks| == 0 {
      return EmptyStream;
    }
    var totalLength := TotalLength(chunks);
    var buffer := new Byte[totalLength](_ => 0);
    var offset := 0;
    for k := 0 to |chunks|
      invariant offset == |Flatten(chunks[..k])| <= totalLength
      invariant buffer[..offset] == Flatten(chunks[..k])
    {
      FlattenTake(chunks, k);
      FlattenLength(chunks, k + 1);
      Set(buffer, chunks[k], offset);
      assert buffer[..offset + |chunks[k]|] == buffer[..offset] + buffer[offset..offset + |chunks[k]|];
      offset := offset + |chunks[k]|;
    }
    assert chunks[..|chunks|] == chunks;
    assert buffer[..] == Flatten(chunks);
    if buffer.Length < 4 {
      return StreamTooShort(buffer.Length);
    }
    var payloadLength := HeaderValue(buffer[0], buffer[1], buffer[2], buffer[3]);
    if payloadLength > MAX_MESSAGE_SIZE {
      return PayloadTooLarge(payloadLength);
    }
    if buffer.Length < 4 + payloadLength {
      return IncompletePayload(payloadLength, buffer.Length - 4);
    }
    r := Payload(buffer[4..4 + payloadLength]);
  }
}
