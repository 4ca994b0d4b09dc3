/** Fixed-width and variable-length integers in bytes (LevelDB util/coding.h and util/coding.cc). */
module Coding {
  import opened Options
  import opened DbFormat

  const TWO_32: nat := 0x1_0000_0000

  function Power256(w: nat): (p: nat)
    ensures p > 0
  {
    if w == 0 then 1 else 256 * Power256(w - 1)
  }

  /** EncodeFixed32 and EncodeFixed64: little-endian, `w` bytes, higher bits lost. */
  function Fixed(n: nat, w: nat): (b: Bytes)
    ensures |b| == w
  {
    if w == 0 then [] else [(n % 256) as byte] + Fixed(n / 256, w - 1)
  }

  function DecodeFixed(b: Bytes): nat {
    if b == [] then 0 else b[0] as nat + 256 * DecodeFixed(b[1..])
  }

  lemma {:induction false} FixedRoundTrip(n: nat, w: nat)
    requires n < Power256(w)
    ensures DecodeFixed(Fixed(n, w)) == n
  {
    if w > 0 {
      FixedRoundTrip(n / 256, w - 1);
      assert Fixed(n, w)[1..] == Fixed(n / 256, w - 1);
    }
  }

  /** EncodeVarint32: seven bits a byte, low ones first, the top bit set on all but the last. */
  function PutVarint32(v: nat): (b: Bytes)
    requires v < TWO_32
    ensures 0 < |b| <= 5
  {
    if v < 0x80 then [v as byte]
    else if v < 0x4000 then [More(v), (v / 0x80) as byte]
    else if v < 0x20_0000 then [More(v), More(v / 0x80), (v / 0x4000) as byte]
    else if v < 0x1000_0000 then [More(v), More(v / 0x80), More(v / 0x4000), (v / 0x20_0000) as byte]
    else [More(v), More(v / 0x80), More(v / 0x4000), More(v / 0x20_0000), (v / 0x1000_0000) as byte]
  }

  function More(v: nat): byte {
    (v % 128 + 128) as byte
  }

  /** `b << 7 * k` and `v >> 7 * k`. */
  function Shifted(b: nat, k: nat): nat
    requires k < 5
  {
    match k
    case 0 => b
    case 1 => b * 0x80
    case 2 => b * 0x4000
    case 3 => b * 0x20_0000
    case 4 => b * 0x1000_0000
  }

  function Bits(v: nat, k: nat): nat
    requires k < 5
  {
    match k
    case 0 => v
    case 1 => v / 0x80
    case 2 => v / 0x4000
    case 3 => v / 0x20_0000
    case 4 => v / 0x1000_0000
  }

  /** What reading on from byte `k` of a varint comes to, `result` being the bits before it; the
      bits past the thirty-second are lost. */
  function Varint32From(input: Bytes, k: nat, result: nat): (r: Option<(nat, Bytes)>)
    requires k <= 5
    ensures r.Some? ==> |r.value.1| < |input| && r.value.0 < TWO_32
    decreases 5 - k
  {
    if k == 5 || input == [] then None
    else
      var b := input[0] as nat;
      var sum := (result + Shifted(b % 128, k)) % TWO_32;
      if b >= 128 then Varint32From(input[1..], k + 1, sum) else Some((sum, input[1..]))
  }

  /** GetVarint32: the value and what is left of the input, or nothing if it ends too soon or is
      longer than five bytes. */
  method GetVarint32(input: Bytes) returns (r: Option<(nat, Bytes)>)
    ensures r == Varint32From(input, 0, 0)
  {
    if input != [] && input[0] < 128 {
      return Some((input[0] as nat, input[1..]));
    }
    var result: nat, k: nat, p: nat := 0, 0, 0;
    while k < 5 && p < |input|
      invariant k == p <= 5 && p <= |input|
      invariant Varint32From(input, 0, 0) == Varint32From(input[p..], k, result)
    {
      var b := input[p] as nat;
      assert input[p..][1..] == input[p + 1..];
      result := (result + Shifted(b % 128, k)) % TWO_32;
      p := p + 1;
      if b < 128 {
        return Some((result, input[p..]));
      }
      k := k + 1;
    }
    return None;
  }

  lemma OneMoreByte(b: byte, rest: Bytes, k: nat, result: nat)
    requires k < 5 && b >= 128
    ensures Varint32From([b] + rest, k, result) ==
            Varint32From(rest, k + 1, (result + Shifted(b as nat - 128, k)) % TWO_32)
  {
    hide Shifted;
    assert ([b] + rest)[1..] == rest;
    assert b as nat % 128 == b as nat - 128;
  }

  lemma LastByte(b: byte, rest: Bytes, k: nat, result: nat)
    requires k < 5 && b < 128
    ensures Varint32From([b] + rest, k, result) == Some(((result + Shifted(b as nat, k)) % TWO_32, rest))
  {
    hide Shifted;
    assert ([b] + rest)[1..] == rest;
    assert b as nat % 128 == b as nat;
  }

  function LowBits(v: nat, k: nat): nat
    requires k < 5
  {
    v - Shifted(Bits(v, k), k)
  }

  lemma SevenMoreBits(v: nat, k: nat)
    requires k < 4 && v < TWO_32
    ensures LowBits(v, k) + Shifted(Bits(v, k) % 128, k) == LowBits(v, k + 1) < TWO_32
  {
    match k
    case 0 =>
    case 1 => FirstGroups(v);
    case 2 => SecondGroups(v);
    case 3 => ThirdGroups(v);
  }

  lemma FirstGroups(v: nat)
    ensures v / 0x4000 == v / 0x80 / 128 && (v / 0x80) % 128 == v / 0x80 - 128 * (v / 0x4000)
  {
  }

  lemma SecondGroups(v: nat)
    ensures v / 0x20_0000 == v / 0x4000 / 128 && (v / 0x4000) % 128 == v / 0x4000 - 128 * (v / 0x20_0000)
  {
  }

  lemma ThirdGroups(v: nat)
    ensures v / 0x1000_0000 == v / 0x20_0000 / 128 && (v / 0x20_0000) % 128 == v / 0x20_0000 - 128 * (v / 0x1000_0000)
  {
  }

  lemma VarintByte(v: nat, k: nat)
    requires v < TWO_32 && k < |PutVarint32(v)|
    ensures k < |PutVarint32(v)| - 1 ==> PutVarint32(v)[k] as nat == Bits(v, k) % 128 + 128
    ensures k == |PutVarint32(v)| - 1 ==> PutVarint32(v)[k] as nat == Bits(v, k) < 128
  {
  }

  /** The bytes of v from the k-th on, read with the bits before them in hand, give v. */
  lemma {:induction false} VarintTail(v: nat, k: nat, rest: Bytes)
    requires v < TWO_32 && k < |PutVarint32(v)|
    ensures Varint32From(PutVarint32(v)[k..] + rest, k, LowBits(v, k)) == Some((v, rest))
    decreases 5 - k
  {
    hide PutVarint32, Bits, Shifted, Varint32From;
    var b := PutVarint32(v);
    VarintByte(v, k);
    if k == |b| - 1 {
      assert b[k..] + rest == [b[k]] + rest;
      LastByte(b[k], rest, k, LowBits(v, k));
    } else {
      VarintTail(v, k + 1, rest);
      assert b[k..] + rest == [b[k]] + (b[k + 1..] + rest);
      OneMoreByte(b[k], b[k + 1..] + rest, k, LowBits(v, k));
      SevenMoreBits(v, k);
    }
  }

  lemma VarintRoundTrip(v: nat, rest: Bytes)
    requires v < TWO_32
    ensures Varint32From(PutVarint32(v) + rest, 0, 0) == Some((v, rest))
  {
    VarintTail(v, 0, rest);
    assert PutVarint32(v)[0..] == PutVarint32(v);
  }

  // ---------------------------------------------------------------------------------------------
  // Length-prefixed byte strings

  function PutLengthPrefixedSlice(s: Bytes): (b: Bytes)
    requires |s| < TWO_32
    ensures |b| > 0
  {
    PutVarint32(|s|) + s
  }

  function LengthPrefixedSlice(input: Bytes): (r: Option<(Bytes, Bytes)>)
    ensures r.Some? ==> |r.value.1| < |input|
  {
    var v := Varint32From(input, 0, 0);
    if v.Some? && v.value.0 <= |v.value.1| then
      Some((v.value.1[..v.value.0], v.value.1[v.value.0..]))
    else
      None
  }

  method GetLengthPrefixedSlice(input: Bytes) returns (r: Option<(Bytes, Bytes)>)
    ensures r == LengthPrefixedSlice(input)
  {
    var v := GetVarint32(input);
    if v.Some? && v.value.0 <= |v.value.1| {
      return Some((v.value.1[..v.value.0], v.value.1[v.value.0..]));
    }
    return None;
  }

  lemma SliceRoundTrip(s: Bytes, rest: Bytes)
    requires |s| < TWO_32
    ensures LengthPrefixedSlice(PutLengthPrefixedSlice(s) + rest) == Some((s, rest))
  {
    VarintRoundTrip(|s|, s + rest);
    assert PutVarint32(|s|) + (s + rest) == PutLengthPrefixedSlice(s) + rest;
    assert (s + rest)[..|s|] == s && (s + rest)[|s|..] == rest;
  }
}
