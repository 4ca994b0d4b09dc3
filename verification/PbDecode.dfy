/** Reading messages (nanopb pb_decode.c and pb_common.c, for statically allocated fields). */
module PbDecode {
  import opened DbFormat
  import opened PbFormat

  // ---------------------------------------------------------------------------------------------
  // Varints, seven bits at a time

  function Pow2(n: nat): (p: nat)
    ensures p > 0
  {
    if n == 0 then 1 else 2 * Pow2(n - 1)
  }

  /** What is left of v above its first k groups of seven bits, and what those come to. */
  function High(v: nat, k: nat): nat {
    if k == 0 then v else High(v, k - 1) / 128
  }

  function Low(v: nat, k: nat): nat {
    if k == 0 then 0 else Low(v, k - 1) + Times(High(v, k - 1) % 128, Pow2(7 * (k - 1)))
  }

  function Times(a: nat, b: nat): nat {
    a * b
  }

  /** Unsigned arithmetic of fixed width. */
  function Wrap(n: nat, modulus: nat): (r: nat)
    requires modulus > 0
    ensures r < modulus && (n < modulus ==> r == n)
  {
    n % modulus
  }

  lemma SevenDoublings(n: nat)
    ensures Pow2(n + 7) == 128 * Pow2(n)
  {
    assert Pow2(n + 7) == 2 * Pow2(n + 6) == 4 * Pow2(n + 5) == 8 * Pow2(n + 4) == 16 * Pow2(n + 3);
    assert Pow2(n + 3) == 2 * Pow2(n + 2) == 4 * Pow2(n + 1) == 8 * Pow2(n);
  }

  lemma {:induction false} LowAndHigh(v: nat, k: nat)
    ensures Low(v, k) + Times(High(v, k), Pow2(7 * k)) == v
  {
    if k > 0 {
      LowAndHigh(v, k - 1);
      SevenDoublings(7 * (k - 1));
      Regroup(High(v, k - 1), Pow2(7 * (k - 1)));
    }
  }

  lemma Regroup(h: nat, p: nat)
    ensures Times(h % 128, p) + Times(h / 128, 128 * p) == Times(h, p)
  {
    assert h == h % 128 + 128 * (h / 128);
    assert Times(h, p) == (h % 128 + 128 * (h / 128)) * p;
  }

  /** The k-th byte of a varint, and what it adds. */
  lemma VarintAt(v: nat, k: nat)
    ensures var h := High(v, k);
            && Low(v, k + 1) == Low(v, k) + Times(h % 128, Pow2(7 * k)) <= v
            && High(v, k + 1) == h / 128
            && VarintBytes(h) == (if h < 128 then [h as byte] else [(h % 128 + 128) as byte] + VarintBytes(h / 128))
            && (h < 128 ==> Low(v, k + 1) == v)
  {
    LowAndHigh(v, k);
    LowAndHigh(v, k + 1);
  }

  lemma {:induction false} TimesGrow(c: nat, a: nat, b: nat)
    requires c <= a
    ensures Times(c, b) <= Times(a, b)
  {
    if c < a {
      TimesGrow(c, a - 1, b);
      assert a * b == (a - 1) * b + b;
    }
  }

  lemma OneTime(b: nat)
    ensures Times(1, b) == b
  {
  }

  lemma HighIsSmall(v: nat, k: nat)
    ensures High(v, k) > 0 ==> Pow2(7 * k) <= v
  {
    LowAndHigh(v, k);
    if High(v, k) > 0 {
      hide Times, Pow2, High, Low;
      TimesGrow(1, High(v, k), Pow2(7 * k));
      OneTime(Pow2(7 * k));
    }
  }

  // ---------------------------------------------------------------------------------------------
  // The stream

  /** Of the bytes left from pos on, the first are those of `b`. */
  predicate Holds(data: Bytes, pos: nat, left: nat, b: Bytes) {
    pos + left <= |data| && |b| <= left && data[pos..pos + |b|] == b
  }

  /** Of a varint's bytes, the next: its seven bits go on top of those gathered. */
  lemma NextGroup(data: Bytes, pos: nat, left: nat, v: nat, k: nat, modulus: nat)
    requires Holds(data, pos, left, VarintBytes(High(v, k))) && v < modulus && (k > 0 ==> High(v, k) > 0)
    ensures 0 < left && pos < |data|
    ensures Wrap(Low(v, k) + Times(data[pos] as nat % 128, Pow2(7 * k)), modulus) == Low(v, k + 1)
    ensures data[pos] < 128 ==> Low(v, k + 1) == v && |VarintBytes(High(v, k))| == 1 && High(v, k) == data[pos] as nat
    ensures data[pos] >= 128 ==> |VarintBytes(High(v, k))| == 1 + |VarintBytes(High(v, k + 1))| && High(v, k + 1) > 0
    ensures data[pos] >= 128 ==> Holds(data, pos + 1, left - 1, VarintBytes(High(v, k + 1)))
  {
    VarintAt(v, k);
    hide Times, Pow2, High, Low, VarintBytes, Wrap;
    var h, b := High(v, k), VarintBytes(High(v, k));
    assert data[pos] == b[0];
    if h >= 128 {
      assert data[pos + 1..pos + |b|] == b[1..] == VarintBytes(h / 128);
    }
  }

  /** What comes behind `a` once it has been read. */
  lemma HoldsBoth(data: Bytes, pos: nat, left: nat, a: Bytes, b: Bytes)
    requires Holds(data, pos, left, a + b)
    ensures Holds(data, pos, left, a) && Holds(data, pos + |a|, left - |a|, b)
  {
    assert data[pos..pos + |a|] == data[pos..pos + |a| + |b|][..|a|];
    assert data[pos + |a|..pos + |a| + |b|] == data[pos..pos + |a| + |b|][|a|..];
  }

  class IStream {
    const data: Bytes
    var pos: nat
    var left: nat

    ghost predicate Valid()
      reads this
    {
      pos + left <= |data|
    }

    /** The stream goes on with `b`. */
    ghost predicate At(b: Bytes)
      reads this
    {
      Holds(data, pos, left, b)
    }

    constructor (data: Bytes, pos: nat, left: nat)
      requires pos + left <= |data|
      ensures Valid() && this.data == data && this.pos == pos && this.left == left
    {
      this.data, this.pos, this.left := data, pos, left;
    }

    method ReadByte() returns (ok: bool, b: byte)
      requires Valid()
      modifies this
      ensures Valid() && ok == (old(left) > 0)
      ensures ok ==> b == data[old(pos)] && pos == old(pos) + 1 && left == old(left) - 1
      ensures !ok ==> pos == old(pos) && left == old(left)
    {
      if left == 0 {
        return false, 0;
      }
      b := data[pos];
      pos, left := pos + 1, left - 1;
      return true, b;
    }

    method Read(count: nat) returns (ok: bool, b: Bytes)
      requires Valid()
      modifies this
      ensures Valid() && ok == (count <= old(left))
      ensures ok ==> b == data[old(pos)..old(pos) + count] && pos == old(pos) + count && left == old(left) - count
      ensures !ok ==> pos == old(pos) && left == old(left)
    {
      if count == 0 {
        return true, [];
      }
      if left < count {
        return false, [];
      }
      b := data[pos..pos + count];
      pos, left := pos + count, left - count;
      return true, b;
    }

    /** A 64-bit varint; nine more groups may follow the first. */
    method DecodeVarint(ghost v: nat) returns (ok: bool, value: nat)
      requires Valid()
      modifies this
      ensures Valid() && pos >= old(pos) && pos + left == old(pos + left) && value < U64 && (ok ==> left < old(left))
      ensures v < U64 && old(At(VarintBytes(v))) ==> ok && value == v && pos == old(pos) + |VarintBytes(v)|
    {
      var k: nat, result: nat := 0, 0;
      ghost var good := v < U64 && At(VarintBytes(v));
      assert High(v, 0) == v && Low(v, 0) == 0;
      hide Pow2, Times, High, Low, VarintBytes, Holds;
      ghost var end := pos + |VarintBytes(v)|;
      while true
        invariant Valid() && pos == old(pos) + k && pos + left == old(pos + left) && k <= 10 && result < U64
        invariant good ==> At(VarintBytes(High(v, k))) && result == Low(v, k)
        invariant good ==> pos + |VarintBytes(High(v, k))| == end
        invariant good && k > 0 ==> High(v, k) > 0
        decreases 10 - k
      {
        if 7 * k >= 64 {
          if good {
            TenGroups(v);
          }
          return false, 0;
        }
        if good {
          NextGroup(data, pos, left, v, k, U64);
        }
        var b;
        ok, b := ReadByte();
        if !ok {
          return false, 0;
        }
        result := Wrap(result + Times(b as nat % 128, Pow2(7 * k)), U64);
        k := k + 1;
        if b < 128 {
          return true, result;
        }
      }
    }

    /** A 32-bit varint, which may be padded or sign-extended to more bytes; `eof` if there is none. */
    method DecodeVarint32(ghost v: nat) returns (ok: bool, value: nat, eof: bool)
      requires Valid()
      modifies this
      ensures Valid() && pos >= old(pos) && pos + left == old(pos + left) && value < U32
      ensures ok ==> left < old(left)
      ensures eof <==> old(left) == 0
      ensures v < U32 && old(At(VarintBytes(v))) ==> ok && value == v && pos == old(pos) + |VarintBytes(v)|
    {
      ghost var good := v < U32 && At(VarintBytes(v));
      ghost var end := pos + |VarintBytes(v)|;
      assert High(v, 0) == v && Low(v, 0) == 0;
      assert Pow2(0) == 1 && forall n: nat :: Times(n, 1) == n;
      hide Pow2, Times, High, Low, VarintBytes, Holds;
      if good {
        NextGroup(data, pos, left, v, 0, U32);
      }
      var b;
      ok, b := ReadByte();
      if !ok {
        return false, 0, true;
      }
      eof := false;
      if b < 128 {
        return true, b as nat, false;
      }
      ok, value := MoreVarint32(b as nat % 128, v, end, good);
    }

    /** The bytes of a varint after the first. */
    method MoreVarint32(first: nat, ghost v: nat, ghost end: nat, ghost good: bool) returns (ok: bool, value: nat)
      requires Valid() && first < 128
      requires good ==> v < U32 && At(VarintBytes(High(v, 1))) && first == Low(v, 1) && High(v, 1) > 0
                        && pos + |VarintBytes(High(v, 1))| == end
      modifies this
      ensures Valid() && pos >= old(pos) && pos + left == old(pos + left) && value < U32
      ensures good ==> ok && value == v && pos == end
    {
      hide Pow2, Times, High, Low, VarintBytes, Holds;
      var bitpos: nat, result: nat := 7, first;
      ghost var k: nat := 1;
      while true
        invariant Valid() && pos >= old(pos) && pos + left == old(pos + left) && result < U32
        invariant good ==> At(VarintBytes(High(v, k))) && result == Low(v, k) && pos + |VarintBytes(High(v, k))| == end
        invariant good ==> bitpos == 7 * k && High(v, k) > 0
        decreases left
      {
        if good {
          NextGroup(data, pos, left, v, k, U32);
          FiveGroups(v, k);
        }
        var b;
        ok, b := ReadByte();
        if !ok {
          return false, 0;
        }
        if bitpos >= 32 {
          var signExtension := if bitpos < 63 then 0xFF else 0x01;
          if b as nat % 128 != 0 && (result / 0x8000_0000 == 0 || b as nat != signExtension) {
            return false, 0;
          }
        } else {
          result := Wrap(result + Times(b as nat % 128, Pow2(bitpos)), U32);
        }
        bitpos, k := (bitpos + 7) % 256, k + 1;
        if b < 128 {
          if bitpos == 35 && (b as nat / 16) % 8 != 0 {
            return false, 0;
          }
          return true, result;
        }
      }
    }

    /** A tag of zero ends a message. */
    method DecodeTag(ghost tag0: nat, ghost wire0: nat) returns (ok: bool, wire: nat, tag: nat, eof: bool)
      requires Valid()
      modifies this
      ensures Valid() && pos >= old(pos) && pos + left == old(pos + left) && (ok ==> left < old(left))
      ensures 0 < tag0 < 0x2000_0000 && wire0 < 8 && old(At(VarintBytes(tag0 * 8 + wire0))) ==>
                ok && wire == wire0 && tag == tag0 && pos == old(pos) + |VarintBytes(tag0 * 8 + wire0)|
    {
      hide VarintBytes;
      var temp;
      ok, temp, eof := DecodeVarint32(tag0 * 8 + wire0);
      wire, tag := 0, 0;
      if !ok {
        return;
      }
      if temp == 0 {
        return false, 0, 0, true;
      }
      wire, tag := temp % 8, temp / 8;
    }

    /** The stream of a delimited part; the part leaves this one at once. */
    method MakeSubstream(ghost b: Bytes) returns (ok: bool, substream: IStream?)
      requires Valid()
      modifies this
      ensures Valid() && pos >= old(pos) && pos + left <= old(pos + left)
      ensures ok ==> substream != null && fresh(substream) && substream.Valid() && substream.data == data
                     && substream.pos == pos && pos + substream.left + left == old(pos + left) && left < old(left)
      ensures |b| < U32 && old(At(Delimited(b))) ==>
                ok && substream.left == |b| && substream.At(b) && pos + |b| == old(pos) + |Delimited(b)|
    {
      hide VarintBytes;
      if |b| < U32 && At(Delimited(b)) {
        HoldsBoth(data, pos, left, VarintBytes(|b|), b);
      }
      var size, eof;
      ok, size, eof := DecodeVarint32(|b|);
      substream := null;
      if !ok {
        return;
      }
      if left < size {
        return false, null;
      }
      substream := new IStream(data, pos, size);
      left := left - size;
    }

    /** Goes on behind the part, whatever of it has not been read. */
    method CloseSubstream(substream: IStream)
      requires Valid() && substream.Valid() && substream.data == data && substream != this
      requires substream.pos + substream.left + left <= |data| && pos <= substream.pos
      modifies this, substream
      ensures Valid() && pos == old(substream.pos + substream.left) && left == old(left)
    {
      if substream.left != 0 {
        var ok, rest := substream.Read(substream.left);
      }
      pos := substream.pos;
    }

    method SkipVarint(ghost raw: Bytes) returns (ok: bool)
      requires Valid()
      modifies this
      ensures Valid() && pos >= old(pos) && pos + left == old(pos + left)
      ensures RawOk(0, raw) && old(At(raw)) ==> ok && pos == old(pos) + |raw|
    {
      ghost var good, k: nat := RawOk(0, raw) && At(raw), 0;
      while true
        invariant Valid() && pos == old(pos) + k && pos + left == old(pos + left)
        invariant good ==> k < |raw|
        decreases left
      {
        assert good ==> data[pos] == raw[k] by {
          assert good ==> data[old(pos)..old(pos) + |raw|][k] == raw[k];
        }
        var b;
        ok, b := ReadByte();
        if !ok {
          return;
        }
        k := k + 1;
        if b < 128 {
          return;
        }
      }
    }

    /** Skips a field that the descriptor does not have. */
    method SkipField(wire: nat, ghost raw: Bytes) returns (ok: bool)
      requires Valid()
      modifies this
      ensures Valid() && pos >= old(pos) && pos + left == old(pos + left)
      ensures ok ==> wire == 0 || wire == 1 || wire == 2 || wire == 5
      ensures RawOk(wire, raw) && old(At(RawBytes(wire, raw))) ==> ok && pos == old(pos) + |RawBytes(wire, raw)|
    {
      if RawOk(2, raw) && At(Delimited(raw)) {
        HoldsBoth(data, pos, left, VarintBytes(|raw|), raw);
      }
      hide VarintBytes;
      var b;
      match wire
      case 0 => ok := SkipVarint(raw);
      case 1 => ok, b := Read(8);
      case 2 =>
        var size, eof;
        ok, size, eof := DecodeVarint32(|raw|);
        if ok {
          ok, b := Read(size);
        }
      case 5 => ok, b := Read(4);
      case _ => ok := false;
    }

    /** The decoders of numbers: a value that does not fit its storage is an error. */
    method DecodeNumber(k: Kind, ghost n: int) returns (ok: bool, value: int)
      requires Valid()
      modifies this
      ensures Valid() && pos >= old(pos) && pos + left == old(pos + left) && (ok ==> left < old(left))
      ensures ok ==> NumberOk(k, value)
      ensures NumberOk(k, n) && old(At(NumberBytes(k, n))) ==>
                ok && value == n && pos == old(pos) + |NumberBytes(k, n)|
    {
      hide VarintBytes, FixedBytesOf, Holds, Zigzag, Bits, Half;
      value := 0;
      match k
      case BoolT =>
        var v, eof;
        ok, v, eof := DecodeVarint32(if n == 0 then 0 else 1);
        value := if v != 0 then 1 else 0;
      case Varint(size) => ok, value := DecodeSigned(size, n);
      case UVarint(size) => ok, value := DecodeUnsigned(size, n);
      case SVarint(size) => ok, value := DecodeZigzag(size, n);
      case Fixed32 =>
        Powers();
        BitsAreFew(n);
        ok, value := DecodeFixed(4, Bits(n));
      case Fixed64 =>
        Powers();
        BitsAreFew(n);
        ok, value := DecodeFixed(8, Bits(n));
      case _ => ok := false;
    }

    method DecodeSigned(size: nat, ghost n: int) returns (ok: bool, value: int)
      requires Valid()
      modifies this
      ensures Valid() && pos >= old(pos) && pos + left == old(pos + left) && (ok ==> left < old(left))
      ensures ok ==> NumberOk(Varint(size), value)
      ensures NumberOk(Varint(size), n) && old(At(VarintBytes(Bits(n)))) ==>
                ok && value == n && pos == old(pos) + |VarintBytes(Bits(n))|
    {
      hide VarintBytes, Holds, Signed, Bits, Half;
      if NumberOk(Varint(size), n) {
        SignedIsStored(size, n);
      }
      BitsAreFew(n);
      var v;
      ok, v := DecodeVarint(Bits(n));
      value := 0;
      if ok {
        ok, value := StoreSigned(size, v);
      }
    }

    method DecodeUnsigned(size: nat, ghost n: int) returns (ok: bool, value: int)
      requires Valid()
      modifies this
      ensures Valid() && pos >= old(pos) && pos + left == old(pos + left) && (ok ==> left < old(left))
      ensures ok ==> NumberOk(UVarint(size), value)
      ensures NumberOk(UVarint(size), n) && old(At(VarintBytes(Bits(n)))) ==>
                ok && value == n && pos == old(pos) + |VarintBytes(Bits(n))|
    {
      hide VarintBytes, Holds;
      BitsAreFew(n);
      ok, value := DecodeVarint(Bits(n));
      if ok && (!SizeOk(size) || value >= 2 * Half(size)) {
        ok := false;
      }
    }

    method DecodeZigzag(size: nat, ghost n: int) returns (ok: bool, value: int)
      requires Valid()
      modifies this
      ensures Valid() && pos >= old(pos) && pos + left == old(pos + left) && (ok ==> left < old(left))
      ensures ok ==> NumberOk(SVarint(size), value)
      ensures NumberOk(SVarint(size), n) && old(At(VarintBytes(Zigzag(n)))) ==>
                ok && value == n && pos == old(pos) + |VarintBytes(Zigzag(n))|
    {
      hide VarintBytes, Holds;
      var v: int;
      ok, v := DecodeVarint(Zigzag(n));
      value := if v % 2 == 1 then -1 - v / 2 else v / 2;
      if ok && (!SizeOk(size) || value < 0 - Half(size) || value >= Half(size)) {
        ok := false;
      }
    }

    method DecodeFixed(width: nat, ghost n: nat) returns (ok: bool, value: nat)
      requires Valid()
      modifies this
      ensures Valid() && pos >= old(pos) && pos + left == old(pos + left) && (ok ==> left == old(left) - width)
      ensures value < Pow2(8 * width)
      ensures n < Pow2(8 * width) && old(At(FixedBytesOf(n, width))) ==> ok && value == n && pos == old(pos) + width
    {
      value := 0;
      var b;
      ok, b := Read(width);
      if ok {
        value := FixedValue(b);
        FixedIsBounded(b);
      }
      if n < Pow2(8 * width) {
        FixedIsRead(n, width);
      }
    }
  }

  lemma BitsAreFew(n: int)
    ensures Bits(n) < U64 && (0 <= n < U64 ==> Bits(n) == n)
  {
  }

  /** A 32-bit number has at most five groups, the last of four bits. */
  lemma FiveGroups(v: nat, k: nat)
    requires v < U32 && High(v, k) > 0
    ensures k <= 4 && (k == 4 ==> High(v, k) < 16)
  {
    HighIsSmall(v, k);
    hide Pow2, High, Low, Times;
    Powers();
    if k >= 5 {
      PowersGrow(35, 7 * k);
    }
    if k == 4 {
      LowAndHigh(v, k);
      SevenDoublings(28);
      FourBits(High(v, k), Pow2(7 * k), v);
    }
  }

  lemma FourBits(a: nat, b: nat, v: nat)
    requires Times(a, b) <= v < 16 * b
    ensures a < 16
  {
    TimesGrow(16, if a < 16 then 16 else a, b);
  }

  lemma {:induction false} PowersGrow(m: nat, n: nat)
    requires m <= n
    ensures Pow2(m) <= Pow2(n)
  {
    if m < n {
      PowersGrow(m, n - 1);
    }
  }

  /** Storing 64 bits as a signed number of the given size; numbers of up to 32 bits are cut to 32
      first, as other writers sign-extend them only so far. */
  function Signed(v: nat, size: nat): int {
    if v % (2 * Half(size)) >= Half(size) then v % (2 * Half(size)) - 2 * Half(size) else v % (2 * Half(size))
  }

  method StoreSigned(size: nat, v: nat) returns (ok: bool, value: int)
    ensures ok ==> NumberOk(Varint(size), value)
    ensures var s := Signed(v, if size == 8 then 8 else 4);
            value == (if SizeOk(size) then Signed(Bits(s), size) else 0) && ok == (SizeOk(size) && value == s)
  {
    var svalue := Signed(v, if size == 8 then 8 else 4);
    if !SizeOk(size) {
      return false, 0;
    }
    value := Signed(Bits(svalue), size);
    ok := value == svalue;
  }

  lemma SignedIsStored(size: nat, n: int)
    requires NumberOk(Varint(size), n)
    ensures Signed(Bits(n), if size == 8 then 8 else 4) == n && Signed(Bits(n), size) == n
  {
    hide Signed, Bits;
    match size
    case 1 => SignedByte(n); SignedWord(n);
    case 2 => SignedShort(n); SignedWord(n);
    case 4 => SignedWord(n);
    case _ => SignedLong(n);
  }

  lemma SignedByte(n: int)
    requires n + 0x80 >= 0 && n < 0x80
    ensures Signed(Bits(n), 1) == n
  {
  }

  lemma SignedShort(n: int)
    requires n + 0x8000 >= 0 && n < 0x8000
    ensures Signed(Bits(n), 2) == n
  {
  }

  lemma SignedWord(n: int)
    requires n + 0x8000_0000 >= 0 && n < 0x8000_0000
    ensures Signed(Bits(n), 4) == n
  {
  }

  lemma SignedLong(n: int)
    requires n + 0x8000_0000_0000_0000 >= 0 && n < 0x8000_0000_0000_0000
    ensures Signed(Bits(n), 8) == n
  {
  }

  function FixedValue(b: Bytes): nat {
    if b == [] then 0 else b[0] as nat + 256 * FixedValue(b[1..])
  }

  lemma {:induction false} FixedIsBounded(b: Bytes)
    ensures FixedValue(b) < Pow2(8 * |b|)
  {
    if b != [] {
      FixedIsBounded(b[1..]);
      EightDoublings(8 * (|b| - 1));
    } else {
      assert Pow2(0) == 1;
    }
  }

  lemma EightDoublings(n: nat)
    ensures Pow2(n + 8) == 256 * Pow2(n)
  {
    SevenDoublings(n + 1);
    assert Pow2(n + 1) == 2 * Pow2(n);
  }

  lemma {:induction false} FixedIsRead(n: nat, w: nat)
    requires n < Pow2(8 * w)
    ensures FixedValue(FixedBytesOf(n, w)) == n
  {
    if w > 0 {
      EightDoublings(8 * (w - 1));
      FixedIsRead(n / 256, w - 1);
      assert FixedBytesOf(n, w)[1..] == FixedBytesOf(n / 256, w - 1);
    }
  }

  /** A 64-bit number has at most ten groups. */
  lemma TenGroups(v: nat)
    requires v < U64
    ensures High(v, 10) == 0
  {
    hide Pow2, High, Low, Times;
    var ten: nat := 10;
    HighIsSmall(v, ten);
    Powers();
  }

  lemma Powers()
    ensures Pow2(32) == U32 && Pow2(35) == 8 * U32 && Pow2(64) == U64 && Pow2(70) > U64
  {
    assert Pow2(0) == 1;
    assert Pow2(64) == 2 * Pow2(63);
    assert Pow2(32) == 2 * Pow2(31) == 4 * Pow2(30) == 8 * Pow2(29) == 16 * Pow2(28);
    hide Pow2;
    SevenDoublings(0);
    SevenDoublings(7);
    SevenDoublings(14);
    SevenDoublings(21);
    SevenDoublings(28);
    SevenDoublings(35);
    SevenDoublings(42);
    SevenDoublings(49);
    SevenDoublings(56);
    SevenDoublings(63);
  }
}
