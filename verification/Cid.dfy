/** Swarm references as CIDv1 text: an unsigned LEB128 header, then lowercase
    unpadded base32 (section 6 of RFC 4648) over a 32-bit shift buffer. */
module Cid {
  import opened Arith

  const CID_V1: nat := 1
  const SWARM_MANIFEST_CODEC: nat := 0xfa
  const KECCAK_256_MULTIHASH: nat := 0x1b

  function ShiftRight(x: nat, k: nat): nat {
    if k == 0 then x else ShiftRight(x / 2, k - 1)
  }

  function ShiftLeft(x: nat, k: nat): nat {
    if k == 0 then x else 2 * ShiftLeft(x, k - 1)
  }

  /** What a `k`-bit word keeps of a number, or a mask of `k` ones. */
  function Truncate(x: nat, k: nat): (r: nat)
    ensures r < Pow2(k)
  {
    if k == 0 then 0 else 2 * Truncate(x / 2, k - 1) + x % 2
  }

  // ---- Bit strings ---------------------------------------------------------

  /** The low `b` bits of a number, most significant first. */
  function LowBits(x: nat, b: nat): (s: seq<bool>)
    ensures |s| == b
  {
    if b == 0 then [] else LowBits(x / 2, b - 1) + [x % 2 == 1]
  }

  function ByteBits(bs: seq<byte>): seq<bool> {
    if bs == [] then [] else ByteBits(bs[..|bs| - 1]) + LowBits(bs[|bs| - 1] as nat, 8)
  }

  function Zeros(n: nat): (s: seq<bool>)
    ensures |s| == n
  {
    LowBits(0, n)
  }

  /** Appending `k` bits is shifting left by `k` and adding them. */
  lemma {:induction false} LowBitsAppend(x: nat, y: nat, b: nat, k: nat)
    requires y < Pow2(k)
    ensures LowBits(ShiftLeft(x, k) + y, b + k) == LowBits(x, b) + LowBits(y, k)
    decreases k
  {
    if k == 0 {
      assert LowBits(x, b) + [] == LowBits(x, b);
    } else {
      var z := ShiftLeft(x, k) + y;
      assert z / 2 == ShiftLeft(x, k - 1) + y / 2 && z % 2 == y % 2;
      LowBitsAppend(x, y / 2, b, k - 1);
      assert LowBits(z, b + k) == LowBits(z / 2, b + (k - 1)) + [z % 2 == 1];
    }
  }

  /** Reading off the top `b` of `b + k` bits is shifting right by `k`. */
  lemma {:induction false} LowBitsSplit(x: nat, b: nat, k: nat)
    ensures LowBits(x, b + k) == LowBits(ShiftRight(x, k), b) + LowBits(x, k)
    decreases k
  {
    if k == 0 {
      assert LowBits(x, b) + [] == LowBits(x, b);
    } else {
      LowBitsSplit(x / 2, b, k - 1);
      assert LowBits(x, b + k) == LowBits(x / 2, b + (k - 1)) + [x % 2 == 1];
    }
  }

  /** Bits dropped above the ones read make no difference. */
  lemma {:induction false} LowBitsTruncate(x: nat, m: nat, b: nat)
    requires b <= m
    ensures LowBits(Truncate(x, m), b) == LowBits(x, b)
    decreases b
  {
    if b > 0 {
      var z := Truncate(x, m);
      assert z / 2 == Truncate(x / 2, m - 1) && z % 2 == x % 2;
      LowBitsTruncate(x / 2, m - 1, b - 1);
    }
  }

  /** Different numbers below `2^b` have different low bits. */
  lemma {:induction false} LowBitsInjective(x: nat, y: nat, b: nat)
    requires x < Pow2(b) && y < Pow2(b) && LowBits(x, b) == LowBits(y, b)
    ensures x == y
    decreases b
  {
    if b > 0 {
      var s, t := LowBits(x / 2, b - 1), LowBits(y / 2, b - 1);
      assert LowBits(x, b)[..b - 1] == s && LowBits(y, b)[..b - 1] == t;
      assert LowBits(x, b)[b - 1] == (x % 2 == 1) && LowBits(y, b)[b - 1] == (y % 2 == 1);
      LowBitsInjective(x / 2, y / 2, b - 1);
    }
  }

  lemma Associate<T>(s: seq<T>, t: seq<T>, u: seq<T>)
    ensures s + (t + u) == (s + t) + u
  {
  }

  lemma SameParts(s: seq<bool>, t: seq<bool>, u: seq<bool>, v: seq<bool>)
    requires |s| == |u| && s + t == u + v
    ensures s == u && t == v
  {
    assert s == (s + t)[..|s|] && u == (u + v)[..|u|];
    assert t == (s + t)[|s|..] && v == (u + v)[|u|..];
  }

  lemma {:induction false} ByteBitsLength(bs: seq<byte>)
    ensures |ByteBits(bs)| == 8 * |bs|
  {
    if bs != [] {
      ByteBitsLength(bs[..|bs| - 1]);
    }
  }

  lemma {:induction false} ByteBitsInjective(a: seq<byte>, b: seq<byte>)
    requires |a| == |b| && ByteBits(a) == ByteBits(b)
    ensures a == b
  {
    if a != [] {
      var n := |a| - 1;
      ByteBitsLength(a[..n]);
      ByteBitsLength(b[..n]);
      SameParts(ByteBits(a[..n]), LowBits(a[n] as nat, 8), ByteBits(b[..n]), LowBits(b[n] as nat, 8));
      ByteBitsInjective(a[..n], b[..n]);
      LowBitsInjective(a[n] as nat, b[n] as nat, 8);
      assert a == a[..n] + [a[n]] && b == b[..n] + [b[n]];
    }
  }

  // ---- Base32 --------------------------------------------------------------

  /** The alphabet `abcdefghijklmnopqrstuvwxyz234567`. */
  function Letter(i: nat): char
    requires i < 32
  {
    if i < 26 then ('a' as int + i) as char else ('2' as int + (i - 26)) as char
  }

  function SymbolOf(c: char): nat {
    if 'a' <= c <= 'z' then c as int - 'a' as int
    else if '2' <= c <= '7' then 26 + (c as int - '2' as int)
    else 32
  }

  predicate InAlphabet(text: string) { forall i :: 0 <= i < |text| ==> SymbolOf(text[i]) < 32 }

  function TextBits(text: string): seq<bool> {
    if text == [] then [] else TextBits(text[..|text| - 1]) + LowBits(SymbolOf(text[|text| - 1]), 5)
  }

  /** The text's 5-bit symbols spell the input's bits, padded with fewer than
      five zeros to a whole symbol. */
  ghost predicate Spells(text: string, input: seq<byte>) {
    && InAlphabet(text)
    && 0 <= 5 * |text| - 8 * |input| < 5
    && TextBits(text) == ByteBits(input) + Zeros(5 * |text| - 8 * |input|)
  }

  /** The 32-bit buffer after a byte is shifted in. */
  function Absorb(buffer: nat, b: byte): nat {
    Truncate(ShiftLeft(buffer, 8) + b as nat, 32)
  }

  /** The symbol above the `bits` lowest bits of the buffer. */
  function TopSymbol(buffer: nat, bits: nat): (r: nat)
    ensures r < 32
  {
    assert Pow2(5) == 32;
    Truncate(ShiftRight(buffer, bits), 5)
  }

  /** The last `bits` bits, padded with zeros to a symbol. */
  function LastSymbol(buffer: nat, bits: nat): (r: nat)
    requires bits < 5
    ensures r < 32
  {
    assert Pow2(5) == 32;
    Truncate(Truncate(ShiftLeft(buffer, 5 - bits), 32), 5)
  }

  /** The bits a byte pushes off the top of the buffer are ones already emitted. */
  lemma AbsorbBits(buffer: nat, bits: nat, b: byte)
    requires bits < 5
    ensures LowBits(Absorb(buffer, b), bits + 8) == LowBits(buffer, bits) + LowBits(b as nat, 8)
  {
    assert Pow2(8) == 256;
    LowBitsTruncate(ShiftLeft(buffer, 8) + b as nat, 32, bits + 8);
    LowBitsAppend(buffer, b as nat, bits, 8);
  }

  lemma TopSymbolBits(buffer: nat, bits: nat)
    ensures LowBits(buffer, bits + 5) == LowBits(TopSymbol(buffer, bits), 5) + LowBits(buffer, bits)
  {
    assert LowBits(buffer, 5 + bits) == LowBits(buffer, bits + 5);
    LowBitsSplit(buffer, 5, bits);
    LowBitsTruncate(ShiftRight(buffer, bits), 5, 5);
  }

  lemma LastSymbolBits(buffer: nat, bits: nat)
    requires bits < 5
    ensures LowBits(LastSymbol(buffer, bits), 5) == LowBits(buffer, bits) + Zeros(5 - bits)
  {
    var x := ShiftLeft(buffer, 5 - bits);
    LowBitsTruncate(Truncate(x, 32), 5, 5);
    LowBitsTruncate(x, 32, 5);
    LowBitsAppend(buffer, 0, bits, 5 - bits);
  }

  lemma TextAppend(text: string, i: nat)
    requires i < 32
    ensures TextBits(text + [Letter(i)]) == TextBits(text) + LowBits(i, 5)
    ensures InAlphabet(text) ==> InAlphabet(text + [Letter(i)])
  {
    assert (text + [Letter(i)])[..|text|] == text;
  }

  /** What has been emitted, followed by what the buffer still holds, is the input so far. */
  ghost predicate Buffered(out: string, buffer: nat, bits: nat, input: seq<byte>) {
    && InAlphabet(out)
    && 5 * |out| + bits == 8 * |input|
    && TextBits(out) + LowBits(buffer, bits) == ByteBits(input)
  }

  lemma BufferByte(out: string, buffer: nat, bits: nat, input: seq<byte>, b: byte)
    requires bits < 5 && Buffered(out, buffer, bits, input)
    ensures Buffered(out, Absorb(buffer, b), bits + 8, input + [b])
  {
    AbsorbBits(buffer, bits, b);
    assert (input + [b])[..|input|] == input;
    Associate(TextBits(out), LowBits(buffer, bits), LowBits(b as nat, 8));
  }

  lemma EmitSymbol(out: string, buffer: nat, bits: nat, input: seq<byte>)
    requires Buffered(out, buffer, bits + 5, input)
    ensures Buffered(out + [Letter(TopSymbol(buffer, bits))], buffer, bits, input)
  {
    var i := TopSymbol(buffer, bits);
    TopSymbolBits(buffer, bits);
    TextAppend(out, i);
    Associate(TextBits(out), LowBits(i, 5), LowBits(buffer, bits));
  }

  lemma EmitLast(out: string, buffer: nat, bits: nat, input: seq<byte>)
    requires 0 < bits < 5 && Buffered(out, buffer, bits, input)
    ensures Spells(out + [Letter(LastSymbol(buffer, bits))], input)
  {
    var i := LastSymbol(buffer, bits);
    LastSymbolBits(buffer, bits);
    TextAppend(out, i);
    Associate(TextBits(out), LowBits(buffer, bits), Zeros(5 - bits));
  }

  /** The encoder spells its input exactly, though its 32-bit buffer keeps
      dropping high bits as bytes are shifted in. */
  method EncodeBase32Lower(input: seq<byte>) returns (out: string)
    ensures Spells(out, input)
  {
    out := "";
    var buffer: nat, bits: nat := 0, 0;
    for n := 0 to |input|
      invariant bits < 5
      invariant Buffered(out, buffer, bits, input[..n])
    {
      BufferByte(out, buffer, bits, input[..n], input[n]);
      assert input[..n] + [input[n]] == input[..n + 1];
      buffer := Absorb(buffer, input[n]);
      bits := bits + 8;
      while bits >= 5
        invariant Buffered(out, buffer, bits, input[..n + 1])
      {
        bits := bits - 5;
        EmitSymbol(out, buffer, bits, input[..n + 1]);
        out := out + [Letter(TopSymbol(buffer, bits))];
      }
    }
    assert input[..|input|] == input;
    if bits > 0 {
      EmitLast(out, buffer, bits, input);
      out := out + [Letter(LastSymbol(buffer, bits))];
    } else {
      assert TextBits(out) + [] == TextBits(out);
      assert ByteBits(input) + Zeros(0) == ByteBits(input);
    }
  }

  /** A text spells at most one byte string, of any length: its length fixes the
      input's, and its bits the bytes. */
  lemma SpellingIsInjective(text: string, a: seq<byte>, b: seq<byte>)
    requires Spells(text, a) && Spells(text, b)
    ensures a == b
  {
    ByteBitsLength(a);
    ByteBitsLength(b);
    assert ByteBits(a) == TextBits(text)[..8 * |a|] && ByteBits(b) == TextBits(text)[..8 * |b|];
    ByteBitsInjective(a, b);
  }

  lemma {:induction false} TextBitsLength(text: string)
    ensures |TextBits(text)| == 5 * |text|
  {
    if text != [] {
      TextBitsLength(text[..|text| - 1]);
    }
  }

  lemma SymbolBitsInjective(c: char, d: char)
    requires SymbolOf(c) < 32 && SymbolOf(d) < 32 && LowBits(SymbolOf(c), 5) == LowBits(SymbolOf(d), 5)
    ensures c == d
  {
    var i, j := SymbolOf(c), SymbolOf(d);
    assert i == j by {
      assert Pow2(5) == 32;
      LowBitsInjective(i, j, 5);
    }
  }

  lemma {:induction false} TextBitsInjective(s: string, t: string)
    requires |s| == |t| && InAlphabet(s) && InAlphabet(t) && TextBits(s) == TextBits(t)
    ensures s == t
  {
    if s != [] {
      var n := |s| - 1;
      TextBitsLength(s[..n]);
      TextBitsLength(t[..n]);
      SameParts(TextBits(s[..n]), LowBits(SymbolOf(s[n]), 5), TextBits(t[..n]), LowBits(SymbolOf(t[n]), 5));
      TextBitsInjective(s[..n], t[..n]);
      SymbolBitsInjective(s[n], t[n]);
      assert s == s[..n] + [s[n]] && t == t[..n] + [t[n]];
    }
  }

  /** And a byte string has exactly one spelling, so `Spells` determines the encoder. */
  lemma SpellingIsUnique(s: string, t: string, input: seq<byte>)
    requires Spells(s, input) && Spells(t, input)
    ensures s == t
  {
    TextBitsInjective(s, t);
  }

  // ---- The CID -------------------------------------------------------------

  function Varint(v: nat): seq<byte> {
    if v < 128 then [v as byte] else [(v % 128 + 128) as byte] + Varint(v / 128)
  }

  method PushVarint(out: seq<byte>, value: nat) returns (r: seq<byte>)
    ensures r == out + Varint(value)
  {
    r := out;
    var v := value;
    while v >= 128
      invariant r + Varint(v) == out + Varint(value)
    {
      var low := (v % 256 % 128 + 128) as byte;
      assert Varint(v) == [low] + Varint(v / 128);
      Associate(r, [low], Varint(v / 128));
      r := r + [low];
      v := v / 128;
    }
    r := r + [v as byte];
  }

  /** Reading a varint off the front of a buffer. */
  function ReadVarint(bs: seq<byte>): Option<(nat, seq<byte>)> {
    if bs == [] then None
    else if bs[0] < 128 then Some((bs[0] as nat, bs[1..]))
    else match ReadVarint(bs[1..])
      case None => None
      case Some((v, rest)) => Some((bs[0] as nat - 128 + 128 * v, rest))
  }

  /** Varints are self-delimiting and read back as written. */
  lemma {:induction false} VarintRoundTrip(v: nat, rest: seq<byte>)
    ensures ReadVarint(Varint(v) + rest) == Some((v, rest))
  {
    var bs := Varint(v) + rest;
    if v < 128 {
      assert bs[1..] == rest;
    } else {
      assert bs[1..] == Varint(v / 128) + rest;
      VarintRoundTrip(v / 128, rest);
    }
  }

  function CidHeader(): seq<byte> {
    Varint(CID_V1) + Varint(SWARM_MANIFEST_CODEC) + Varint(KECCAK_256_MULTIHASH) + Varint(32)
  }

  lemma CidHeaderBytes()
    ensures CidHeader() == [0x01, 0xfa, 0x01, 0x1b, 0x20]
  {
  }

  /** A text is a reference's CID: the multibase prefix, then its spelling. */
  ghost predicate IsCid(text: string, reference: seq<byte>) {
    text != "" && text[0] == 'b' && Spells(text[1..], CidHeader() + reference)
  }

  method ReferenceToCid(reference: seq<byte>) returns (text: string)
    requires |reference| == 32
    ensures IsCid(text, reference)
  {
    var bytes := PushVarint([], CID_V1);
    bytes := PushVarint(bytes, SWARM_MANIFEST_CODEC);
    bytes := PushVarint(bytes, KECCAK_256_MULTIHASH);
    bytes := PushVarint(bytes, |reference|);
    assert bytes == CidHeader();
    var body := EncodeBase32Lower(bytes + reference);
    text := "b" + body;
    assert text[1..] == body;
  }

  /** Every reference has one CID and no two references share one. */
  lemma CidIdentifiesReference(s: string, t: string, a: seq<byte>, b: seq<byte>)
    requires IsCid(s, a) && IsCid(t, b)
    ensures s == t <==> a == b
  {
    if s == t {
      SpellingIsInjective(s[1..], CidHeader() + a, CidHeader() + b);
      assert (CidHeader() + a)[|CidHeader()|..] == a && (CidHeader() + b)[|CidHeader()|..] == b;
    }
    if a == b {
      SpellingIsUnique(s[1..], t[1..], CidHeader() + a);
      assert s == [s[0]] + s[1..] && t == [t[0]] + t[1..];
    }
  }
}
