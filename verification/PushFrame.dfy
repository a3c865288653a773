/** The push body: a concatenation of self-delimiting frames
    `addr(32) | stamp(113) | wire_len(u16 LE) | wire`. */
module PushFrame {
  import opened Arith

  const ADDR_LEN: nat := 32
  const STAMP_LEN: nat := 113
  const MAX_WIRE_LEN: nat := 4104
  const HEADER_LEN: nat := ADDR_LEN + STAMP_LEN + 2
  const MAX_FRAME_LEN: nat := HEADER_LEN + MAX_WIRE_LEN

  datatype StampedChunk = StampedChunk(addr: seq<byte>, stamp: seq<byte>, wire: seq<byte>) {
    /** What the encoder's callers guarantee. */
    predicate WellSized() { |addr| == ADDR_LEN && |stamp| == STAMP_LEN && |wire| <= MAX_WIRE_LEN }
  }

  datatype FrameError =
    | Truncated(at: nat)
    | WireTooLong(length: nat)
    | TooManyFrames(count: nat, max: nat)

  type Decoded = Result<seq<StampedChunk>, FrameError>

  // ---- Encoding ------------------------------------------------------------

  function LenBytes(n: nat): seq<byte>
    requires n < 65536
  {
    [(n % 256) as byte, (n / 256) as byte]
  }

  function LenOf(lo: byte, hi: byte): nat { (lo as int + 256 * (hi as int)) as nat }

  function Frame(c: StampedChunk): (f: seq<byte>)
    requires c.WellSized()
    ensures |f| == HEADER_LEN + |c.wire|
  {
    c.addr + c.stamp + LenBytes(|c.wire|) + c.wire
  }

  /** The layout: 32 bytes of address, 113 of stamp, the length low byte first, the chunk. */
  lemma FrameLayout(c: StampedChunk)
    requires c.WellSized()
    ensures var f := Frame(c);
            && f[..32] == c.addr && f[32..145] == c.stamp && f[147..] == c.wire
            && f[145] as nat + 256 * f[146] as nat == |c.wire|
  {
    assert Frame(c)[145..147] == LenBytes(|c.wire|);
    assert Frame(c)[145] == Frame(c)[145..147][0] && Frame(c)[146] == Frame(c)[145..147][1];
  }

  ghost predicate AllWellSized(cs: seq<StampedChunk>) { forall c :: c in cs ==> c.WellSized() }

  ghost function Body(cs: seq<StampedChunk>): seq<byte>
    requires AllWellSized(cs)
  {
    if cs == [] then [] else Frame(cs[0]) + Body(cs[1..])
  }

  method EncodeFrame(out: seq<byte>, c: StampedChunk) returns (r: seq<byte>)
    requires c.WellSized()
    ensures r == out + Frame(c)
  {
    r := out + c.addr;
    r := r + c.stamp;
    r := r + LenBytes(|c.wire|);
    r := r + c.wire;
  }

  lemma Assoc(a: seq<byte>, b: seq<byte>, c: seq<byte>)
    ensures (a + b) + c == a + (b + c)
  {
  }

  method EncodeBatch(cs: seq<StampedChunk>) returns (out: seq<byte>)
    requires AllWellSized(cs)
    ensures out == Body(cs)
  {
    out := [];
    for i := 0 to |cs|
      invariant out + Body(cs[i..]) == Body(cs)
    {
      assert cs[i..][1..] == cs[i + 1..];
      var next := EncodeFrame(out, cs[i]);
      Assoc(out, Frame(cs[i]), Body(cs[i + 1..]));
      out := next;
    }
  }

  // ---- Decoding ------------------------------------------------------------

  /** The length field of a frame at the head of `buf`. */
  function WireLen(buf: seq<byte>): nat
    requires |buf| >= HEADER_LEN
  {
    LenOf(buf[ADDR_LEN + STAMP_LEN], buf[ADDR_LEN + STAMP_LEN + 1])
  }

  function HeadChunk(buf: seq<byte>): StampedChunk
    requires |buf| >= HEADER_LEN && |buf| >= HEADER_LEN + WireLen(buf)
  {
    StampedChunk(buf[..ADDR_LEN], buf[ADDR_LEN..ADDR_LEN + STAMP_LEN], buf[HEADER_LEN..HEADER_LEN + WireLen(buf)])
  }

  /** The frame at the head, or why there is none. */
  function HeadError(buf: seq<byte>, count: nat, max: nat, at: nat): Option<FrameError> {
    if count >= max then Some(TooManyFrames(count + 1, max))
    else if |buf| < HEADER_LEN then Some(Truncated(at))
    else if WireLen(buf) > MAX_WIRE_LEN then Some(WireTooLong(WireLen(buf)))
    else if |buf| < HEADER_LEN + WireLen(buf) then Some(Truncated(at))
    else None
  }

  /** Chunks already decoded, followed by the rest's outcome. */
  function Then(out: seq<StampedChunk>, rest: Decoded): Decoded {
    if rest.Ok? then Ok(out + rest.value) else rest
  }

  lemma ThenJoins(out: seq<StampedChunk>, c: StampedChunk, rest: Decoded)
    ensures Then(out, Then([c], rest)) == Then(out + [c], rest)
  {
    if rest.Ok? {
      assert out + ([c] + rest.value) == (out + [c]) + rest.value;
    }
  }

  lemma ThenNil(rest: Decoded)
    ensures Then([], rest) == rest
  {
    if rest.Ok? {
      assert [] + rest.value == rest.value;
    }
  }

  /** Decoding the rest of a body, `count` frames and `at` bytes in. */
  function Decode(buf: seq<byte>, count: nat, max: nat, at: nat): Decoded
    decreases |buf|
  {
    if buf == [] then Ok([])
    else if HeadError(buf, count, max, at).Some? then Err(HeadError(buf, count, max, at).value)
    else
      var n := HEADER_LEN + WireLen(buf);
      Then([HeadChunk(buf)], Decode(buf[n..], count + 1, max, at + n))
  }

  method DecodeBatch(body: seq<byte>, maxFrames: nat) returns (r: Decoded)
    ensures r == Decode(body, 0, maxFrames, 0)
  {
    var buf := body;
    var out: seq<StampedChunk> := [];
    var consumed := 0;
    ThenNil(Decode(body, 0, maxFrames, 0));
    while buf != []
      invariant Decode(body, 0, maxFrames, 0) == Then(out, Decode(buf, |out|, maxFrames, consumed))
      decreases |buf|
    {
      if |out| >= maxFrames {
        return Err(TooManyFrames(|out| + 1, maxFrames));
      }
      if |buf| < HEADER_LEN {
        return Err(Truncated(consumed));
      }
      var addr := buf[..ADDR_LEN];
      var stamp := buf[ADDR_LEN..ADDR_LEN + STAMP_LEN];
      var wireLen := LenOf(buf[ADDR_LEN + STAMP_LEN], buf[ADDR_LEN + STAMP_LEN + 1]);
      if wireLen > MAX_WIRE_LEN {
        return Err(WireTooLong(wireLen));
      }
      var frameLen := HEADER_LEN + wireLen;
      if |buf| < frameLen {
        return Err(Truncated(consumed));
      }
      var wire := buf[HEADER_LEN..frameLen];
      ThenJoins(out, HeadChunk(buf), Decode(buf[frameLen..], |out| + 1, maxFrames, consumed + frameLen));
      out := out + [StampedChunk(addr, stamp, wire)];
      buf := buf[frameLen..];
      consumed := consumed + frameLen;
    }
    assert out + [] == out;
    r := Ok(out);
  }

  // ---- Round trips ---------------------------------------------------------

  /** A frame at the head of a buffer reads back as its chunk, whatever follows. */
  lemma HeadOfFrame(c: StampedChunk, rest: seq<byte>)
    requires c.WellSized()
    ensures var buf := Frame(c) + rest;
            && |buf| >= HEADER_LEN + |c.wire| && WireLen(buf) == |c.wire|
            && HeadChunk(buf) == c && buf[HEADER_LEN + |c.wire|..] == rest
  {
    var buf := Frame(c) + rest;
    assert buf[..ADDR_LEN] == c.addr;
    assert buf[ADDR_LEN..ADDR_LEN + STAMP_LEN] == c.stamp;
    assert buf[ADDR_LEN + STAMP_LEN] == LenBytes(|c.wire|)[0];
    assert buf[ADDR_LEN + STAMP_LEN + 1] == LenBytes(|c.wire|)[1];
    assert buf[HEADER_LEN..HEADER_LEN + |c.wire|] == c.wire;
  }

  /** What a decoded head re-encodes to is the bytes it was read from. */
  lemma FrameOfHead(buf: seq<byte>)
    requires |buf| >= HEADER_LEN && WireLen(buf) <= MAX_WIRE_LEN && |buf| >= HEADER_LEN + WireLen(buf)
    ensures HeadChunk(buf).WellSized() && Frame(HeadChunk(buf)) == buf[..HEADER_LEN + WireLen(buf)]
  {
    var n := WireLen(buf);
    assert LenBytes(n) == buf[ADDR_LEN + STAMP_LEN..HEADER_LEN];
    assert buf[..HEADER_LEN + n] == buf[..ADDR_LEN] + buf[ADDR_LEN..ADDR_LEN + STAMP_LEN]
                                    + buf[ADDR_LEN + STAMP_LEN..HEADER_LEN] + buf[HEADER_LEN..HEADER_LEN + n];
  }

  lemma DecodeFrame(c: StampedChunk, rest: seq<byte>, count: nat, max: nat, at: nat)
    requires c.WellSized()
    ensures Decode(Frame(c) + rest, count, max, at) ==
            if count >= max then Err(TooManyFrames(count + 1, max))
            else Then([c], Decode(rest, count + 1, max, at + |Frame(c)|))
  {
    HeadOfFrame(c, rest);
  }

  /** What decoding a batch should yield, `count` frames in. */
  function Expected(cs: seq<StampedChunk>, count: nat, max: nat): Decoded {
    if count + |cs| <= max then Ok(cs) else Err(TooManyFrames(max + 1, max))
  }

  lemma ExpectedCons(c: StampedChunk, rest: seq<StampedChunk>, count: nat, max: nat)
    requires count < max
    ensures Then([c], Expected(rest, count + 1, max)) == Expected([c] + rest, count, max)
  {
  }

  /** Decoding an encoded batch gives it back when it is within the cap, and
      otherwise stops at the first frame past it. */
  lemma {:induction false} DecodeEncode(cs: seq<StampedChunk>, count: nat, max: nat, at: nat)
    requires AllWellSized(cs) && count <= max
    ensures Decode(Body(cs), count, max, at) == Expected(cs, count, max)
    decreases |cs|
  {
    if cs != [] {
      var c, rest := cs[0], cs[1..];
      assert cs == [c] + rest;
      DecodeFrame(c, Body(rest), count, max, at);
      if count < max {
        DecodeEncode(rest, count + 1, max, at + |Frame(c)|);
        ExpectedCons(c, rest, count, max);
      }
    }
  }

  /** A body that decodes starts with a frame that does. */
  lemma DecodeHead(buf: seq<byte>, cs: seq<StampedChunk>, count: nat, max: nat, at: nat) returns (n: nat)
    requires buf != [] && Decode(buf, count, max, at) == Ok(cs)
    ensures count < max && 0 < n <= |buf| && cs != [] && cs[0].WellSized()
    ensures Frame(cs[0]) == buf[..n]
    ensures Decode(buf[n..], count + 1, max, at + n) == Ok(cs[1..])
  {
    n := HEADER_LEN + WireLen(buf);
    FrameOfHead(buf);
  }

  lemma BodyCons(buf: seq<byte>, n: nat, cs: seq<StampedChunk>)
    requires n <= |buf| && cs != [] && cs[0].WellSized() && Frame(cs[0]) == buf[..n]
    requires AllWellSized(cs[1..]) && Body(cs[1..]) == buf[n..]
    ensures AllWellSized(cs) && Body(cs) == buf
  {
    assert cs == [cs[0]] + cs[1..];
    assert buf == buf[..n] + buf[n..];
  }

  /** Whatever decodes re-encodes to exactly the same bytes, so a body has one meaning and one spelling. */
  lemma {:induction false} EncodeDecode(buf: seq<byte>, cs: seq<StampedChunk>, count: nat, max: nat, at: nat)
    requires Decode(buf, count, max, at) == Ok(cs) && count <= max
    ensures AllWellSized(cs) && Body(cs) == buf && count + |cs| <= max
    decreases |buf|
  {
    if buf == [] {
      assert cs == [];
    } else {
      var n := DecodeHead(buf, cs, count, max, at);
      var rest, later := buf[n..], cs[1..];
      EncodeDecode(rest, later, count + 1, max, at + n);
      assert |cs| == 1 + |later|;
      BodyCons(buf, n, cs);
    }
  }

  /** Why decoding stops at a place: too many frames, fewer bytes left than a frame
      header or than the length it states, or a length past the largest chunk. */
  predicate Stops(rest: seq<byte>, count: nat, max: nat, at: nat, e: FrameError) {
    && rest != []
    && if count >= max then e == TooManyFrames(count + 1, max)
       else if |rest| < 147 then e == Truncated(at)
       else
         var wire := rest[145] as nat + 256 * rest[146] as nat;
         if wire > 4104 then e == WireTooLong(wire) else |rest| < 147 + wire && e == Truncated(at)
  }

  /** A refused body starts with whole frames, and the error names what follows them
      and where. */
  lemma {:induction false} DecodeStops(buf: seq<byte>, count: nat, max: nat, at: nat) returns (cs: seq<StampedChunk>)
    requires Decode(buf, count, max, at).Err?
    ensures AllWellSized(cs) && Body(cs) <= buf
    ensures Stops(buf[|Body(cs)|..], count + |cs|, max, at + |Body(cs)|, Decode(buf, count, max, at).error)
    decreases |buf|
  {
    if HeadError(buf, count, max, at).Some? {
      cs := [];
      StopsHere(buf, count, max, at);
      assert buf[0..] == buf;
    } else {
      var n := HEADER_LEN + WireLen(buf);
      var later := DecodeStops(buf[n..], count + 1, max, at + n);
      FrameOfHead(buf);
      cs := [HeadChunk(buf)] + later;
      FrameFirst(HeadChunk(buf), later);
      StopsLater(buf, n, Frame(HeadChunk(buf)), Body(later));
    }
  }

  lemma StopsHere(buf: seq<byte>, count: nat, max: nat, at: nat)
    requires buf != [] && HeadError(buf, count, max, at).Some?
    ensures Stops(buf, count, max, at, HeadError(buf, count, max, at).value)
  {
  }

  lemma FrameFirst(c: StampedChunk, later: seq<StampedChunk>)
    requires c.WellSized() && AllWellSized(later)
    ensures AllWellSized([c] + later) && Body([c] + later) == Frame(c) + Body(later)
  {
    assert ([c] + later)[1..] == later;
  }

  lemma StopsLater(buf: seq<byte>, n: nat, frame: seq<byte>, body: seq<byte>)
    requires n <= |buf| && frame == buf[..n] && body <= buf[n..]
    ensures frame + body <= buf && buf[n..][|body|..] == buf[|frame + body|..]
  {
    assert buf == buf[..n] + buf[n..];
  }

  /** The two directions together, from the start of a body. */
  lemma BodiesAreCanonical(buf: seq<byte>, max: nat, cs: seq<StampedChunk>)
    requires AllWellSized(cs)
    ensures Decode(buf, 0, max, 0) == Ok(cs) <==> Body(cs) == buf && |cs| <= max
  {
    DecodeEncode(cs, 0, max, 0);
    if Decode(buf, 0, max, 0) == Ok(cs) {
      EncodeDecode(buf, cs, 0, max, 0);
    }
  }

  /** Frames are self-delimiting: a body that starts like another is a batch that
      starts like the other, so a cut anywhere but between frames never decodes. */
  lemma {:induction false} CutsOnlyBetweenFrames(cs: seq<StampedChunk>, ds: seq<StampedChunk>)
    requires AllWellSized(cs) && AllWellSized(ds) && Body(ds) <= Body(cs)
    ensures ds <= cs
    decreases |ds|
  {
    if ds != [] {
      HeadOfFrame(ds[0], Body(ds[1..]));
      var rest := Body(cs)[|Body(ds)|..];
      assert Body(cs) == Body(ds) + rest == Frame(ds[0]) + (Body(ds[1..]) + rest);
      HeadOfFrame(ds[0], Body(ds[1..]) + rest);
      HeadOfFrame(cs[0], Body(cs[1..]));
      assert cs[0] == ds[0];
      assert Body(cs[1..]) == Body(ds[1..]) + rest;
      CutsOnlyBetweenFrames(cs[1..], ds[1..]);
      assert ds == [ds[0]] + ds[1..] && cs == [cs[0]] + cs[1..];
    }
  }
}
