/** Labels of domain names in ASCII (libuv src/idna.c, over code points already decoded), and the
    decoder of section 6.2 of RFC 3492 that takes them back. */
module Punycode {
  import Division
  import opened Options

  const U32: nat := 0x1_0000_0000
  const E2BIG: int := -7

  // ---------------------------------------------------------------------------------------------
  // Unsigned arithmetic

  lemma {:induction false} TimesAtLeast(b: nat, m: nat)
    requires b > 0
    ensures b * m >= m && (m > 0 ==> b * m >= b)
  {
    if m > 0 {
      TimesAtLeast(b, m - 1);
      assert b * m == b * (m - 1) + b;
    }
  }

  lemma TimesSign(b: nat, q: int)
    requires b > 0
    ensures q < 0 ==> b * q + b <= 0
    ensures q >= 0 ==> b * q >= q
  {
    TimesAtLeast(b, if q < 0 then -q else q);
    if q < 0 {
      assert b * -q == -(b * q);
    }
  }

  lemma QuotientBound(a: nat, b: nat)
    requires b > 0
    ensures 0 <= a / b <= a
  {
    TimesSign(b, a / b);
    assert a == b * (a / b) + a % b;
  }

  function Quotient(a: nat, b: nat): (q: nat)
    requires b > 0
    ensures q <= a
  {
    QuotientBound(a, b);
    a / b
  }

  function Remainder(a: nat, b: nat): (r: nat)
    requires b > 0
    ensures r < b
  {
    a % b
  }

  function Product(a: nat, b: nat): nat {
    a * b
  }

  lemma Divided(a: nat, b: nat)
    requires b > 0
    ensures a == Product(b, Quotient(a, b)) + Remainder(a, b)
  {
  }

  /** Only one quotient and remainder make a number. */
  lemma DividesUniquely(a: nat, b: nat, q: nat, r: nat)
    requires b > 0 && r < b && a == Product(b, q) + r
    ensures Quotient(a, b) == q && Remainder(a, b) == r
  {
    var q', r' := Quotient(a, b), Remainder(a, b);
    Divided(a, b);
    assert b * (q - q') == r' - r;
    TimesSign(b, q - q');
    TimesSign(b, q' - q);
    assert b * (q' - q) == r - r';
  }

  lemma ReadOn(i: nat, d: nat, w: nat, y: nat, q: nat)
    ensures (i + Product(d, w)) + Product(q, Product(w, y)) == i + Product(d + Product(y, q), w)
  {
    assert q * (w * y) == (y * q) * w;
  }

  // ---------------------------------------------------------------------------------------------
  // Digits, variable-length integers and the bias (sections 3.3, 5 and 6.1 of RFC 3492)

  /** The alphabet: a to z, then 0 to 9. */
  function DigitByte(d: nat): nat
    requires d < 36
  {
    if d < 26 then 97 + d else 22 + d
  }

  function DigitValue(b: nat): Option<nat> {
    if 97 <= b <= 122 then Some(b - 97)
    else if 65 <= b <= 90 then Some(b - 65)
    else if 48 <= b <= 57 then Some(b - 22)
    else None
  }

  function Clamp(k: nat, bias: nat): (t: nat)
    ensures 1 <= t <= 26
  {
    if k <= bias + 1 then 1 else if k >= bias + 26 then 26 else k - bias
  }

  /** The digits of `q` from the threshold at `k` on. */
  function VarInt(q: nat, k: nat, bias: nat): (b: seq<nat>)
    ensures |b| > 0
    decreases q
  {
    var t := Clamp(k, bias);
    if q < t then [DigitByte(q)]
    else
      [DigitByte(t + Remainder(q - t, 36 - t))] + VarInt(Quotient(q - t, 36 - t), k + 36, bias)
  }

  /** The loop that reads one integer: what `i` becomes, and what is left of the input. */
  function ReadVarInt(input: seq<nat>, k: nat, bias: nat, w: nat, i: nat): Option<(nat, seq<nat>)> {
    if input == [] then None
    else
      var d := DigitValue(input[0]);
      if d.None? then None
      else
        var t := Clamp(k, bias);
        var i' := i + Product(d.value, w);
        if d.value < t then Some((i', input[1..])) else ReadVarInt(input[1..], k + 36, bias, Product(w, 36 - t), i')
  }

  function Scale(delta: nat): nat {
    if delta > 455 then 36 + Scale(delta / 35) else Quotient(36 * delta, delta + 38)
  }

  function Adapt(delta: nat, numPoints: nat, first: bool): nat
    requires numPoints > 0
  {
    var d := if first then delta / 700 else delta / 2;
    Scale(d + Quotient(d, numPoints))
  }

  // ---------------------------------------------------------------------------------------------
  // The decoder (section 6.2)

  function Inserted(out: seq<nat>, pos: nat, c: nat): (r: seq<nat>)
    requires pos <= |out|
    ensures |r| == |out| + 1
  {
    out[..pos] + [c] + out[pos..]
  }

  function DecodeFrom(input: seq<nat>, n: nat, i: nat, bias: nat, first: bool, out: seq<nat>): Option<seq<nat>>
    decreases |input|
  {
    if input == [] then Some(out)
    else
      var r := ReadVarInt(input, 36, bias, 1, i);
      if r.None? || |r.value.1| >= |input| || r.value.0 < i then None
      else
        var i', num := r.value.0, |out| + 1;
        var n', pos := n + Quotient(i', num), Remainder(i', num);
        DecodeFrom(r.value.1, n', pos + 1, Adapt(i' - i, num, first), false, Inserted(out, pos, n'))
  }

  /** Where the last delimiter stands, if there is one. */
  function LastHyphen(input: seq<nat>): (r: Option<nat>)
    ensures r.Some? ==> r.value < |input| && input[r.value] == 45
    ensures forall k :: 0 <= k < |input| && (r.Some? ==> r.value < k) ==> input[k] != 45
  {
    if input == [] then None
    else if input[|input| - 1] == 45 then Some(|input| - 1)
    else LastHyphen(input[..|input| - 1])
  }

  function Decode(input: seq<nat>): Option<seq<nat>> {
    var h := LastHyphen(input);
    if h.None? || h.value == 0 then DecodeFrom(input, 128, 0, 72, true, [])
    else if exists k :: 0 <= k < h.value && input[k] >= 128 then None
    else DecodeFrom(input[h.value + 1..], 128, 0, 72, true, input[..h.value])
  }

  // ---------------------------------------------------------------------------------------------
  // What the encoder writes

  /** How many code points are at least `n`: those a label still has to encode. */
  function AtLeast(cps: seq<nat>, n: nat): nat {
    if cps == [] then 0 else (if cps[|cps| - 1] >= n then 1 else 0) + AtLeast(cps[..|cps| - 1], n)
  }

  /** The least code point of at least `n`. */
  function LeastFrom(cps: seq<nat>, n: nat): (m: nat)
    requires AtLeast(cps, n) > 0
    ensures n <= m && m in cps && (forall k :: 0 <= k < |cps| && n <= cps[k] ==> m <= cps[k])
  {
    var last := cps[|cps| - 1];
    if AtLeast(cps[..|cps| - 1], n) == 0 then
      NoneAtLeast(cps[..|cps| - 1], n);
      last
    else
      var m := LeastFrom(cps[..|cps| - 1], n);
      if n <= last < m then last else m
  }

  lemma {:induction false} NoneAtLeast(cps: seq<nat>, n: nat)
    ensures AtLeast(cps, n) == 0 <==> forall k :: 0 <= k < |cps| ==> cps[k] < n
  {
    if cps != [] {
      NoneAtLeast(cps[..|cps| - 1], n);
    }
  }

  lemma {:induction false} FewerAtLeast(cps: seq<nat>, n: nat, m: nat)
    requires n <= m
    ensures AtLeast(cps, m) <= AtLeast(cps, n)
    ensures (forall k :: 0 <= k < |cps| && n <= cps[k] ==> m <= cps[k]) ==> AtLeast(cps, m) == AtLeast(cps, n)
    ensures (exists k :: 0 <= k < |cps| && n <= cps[k] < m) ==> AtLeast(cps, m) < AtLeast(cps, n)
  {
    if cps != [] {
      FewerAtLeast(cps[..|cps| - 1], n, m);
    }
  }

  /** The deltas still to write before a round over the code points of at least `n`, and within the
      round over `n` at place `j`; the numbers are unbounded. */
  function Rounds(cps: seq<nat>, n: nat, delta: nat, h: nat): seq<nat>
    decreases AtLeast(cps, n), |cps| + 1
  {
    if AtLeast(cps, n) == 0 then []
    else
      var m := LeastFrom(cps, n);
      FewerAtLeast(cps, n, m);
      Scan(cps, m, 0, delta + Product(m - n, h + 1), h)
  }

  function Scan(cps: seq<nat>, n: nat, j: nat, delta: nat, h: nat): seq<nat>
    requires j <= |cps| && n in cps
    decreases AtLeast(cps, n), |cps| - j
  {
    if j == |cps| then
      FewerAtLeast(cps, n, n + 1);
      Rounds(cps, n + 1, delta + 1, h)
    else if cps[j] < n then Scan(cps, n, j + 1, delta + 1, h)
    else if cps[j] == n then [delta] + Scan(cps, n, j + 1, 0, h + 1)
    else Scan(cps, n, j + 1, delta, h)
  }

  /** The deltas as variable-length integers, the bias adapted after each. */
  function DeltaBytes(deltas: seq<nat>, bias: nat, first: bool, h: nat): seq<nat> {
    if deltas == [] then []
    else VarInt(deltas[0], 36, bias) + DeltaBytes(deltas[1..], Adapt(deltas[0], h + 1, first), false, h + 1)
  }

  /** The code points below `n`, in order. */
  function Kept(cps: seq<nat>, n: nat): seq<nat> {
    if cps == [] then [] else Kept(cps[..|cps| - 1], n) + (if cps[|cps| - 1] < n then [cps[|cps| - 1]] else [])
  }

  /** All deltas of a label. */
  function Deltas(cps: seq<nat>): seq<nat> {
    Rounds(cps, 128, 0, |Kept(cps, 128)|)
  }

  /** Section 6.3 of RFC 3492, without a bound on the numbers. */
  function Encode(cps: seq<nat>): seq<nat> {
    var basic := Kept(cps, 128);
    basic + (if basic != [] then [45] else []) + DeltaBytes(Deltas(cps), 72, true, |basic|)
  }

  // ---------------------------------------------------------------------------------------------
  // The decoder takes it back

  lemma DigitsAreRead(d: nat)
    requires d < 36
    ensures DigitValue(DigitByte(d)) == Some(d) && DigitByte(d) != 45
  {
  }

  /** A variable-length integer is read as it was written, wherever the reading stands. */
  lemma {:induction false} VarIntIsRead(q: nat, k: nat, bias: nat, w: nat, i: nat, rest: seq<nat>)
    ensures ReadVarInt(VarInt(q, k, bias) + rest, k, bias, w, i) == Some((i + Product(q, w), rest))
    decreases q
  {
    hide Quotient, Remainder, Product, DigitByte, DigitValue, Clamp;
    var t, b := Clamp(k, bias), VarInt(q, k, bias);
    if q < t {
      DigitsAreRead(q);
      assert (b + rest)[1..] == rest;
    } else {
      var y, x := 36 - t, q - t;
      Divided(x, y);
      DigitsAreRead(t + Remainder(x, y));
      assert (b + rest)[1..] == VarInt(Quotient(x, y), k + 36, bias) + rest;
      VarIntIsRead(Quotient(x, y), k + 36, bias, Product(w, y), i + Product(t + Remainder(x, y), w), rest);
      ReadOn(i, t + Remainder(x, y), w, y, Quotient(x, y));
    }
  }

  /** The code points the decoder has once those up to place `j` of the round over `n` are in. */
  function Handled(cps: seq<nat>, n: nat, j: nat): seq<nat>
    requires j <= |cps|
  {
    Kept(cps[..j], n + 1) + Kept(cps[j..], n)
  }

  /** Where in them the one at place `j` belongs. */
  function Place(cps: seq<nat>, n: nat, j: nat): nat
    requires j <= |cps|
  {
    |Kept(cps[..j], n + 1)|
  }

  lemma {:induction false} KeptConcat(a: seq<nat>, b: seq<nat>, n: nat)
    ensures Kept(a + b, n) == Kept(a, n) + Kept(b, n)
  {
    if b == [] {
      assert a + b == a;
    } else {
      KeptConcat(a, b[..|b| - 1], n);
      assert (a + b)[..|a + b| - 1] == a + b[..|b| - 1];
    }
  }

  lemma {:induction false} KeptSame(cps: seq<nat>, n: nat, m: nat)
    requires n <= m && forall k :: 0 <= k < |cps| && n <= cps[k] ==> m <= cps[k]
    ensures Kept(cps, n) == Kept(cps, m)
  {
    if cps != [] {
      KeptSame(cps[..|cps| - 1], n, m);
    }
  }

  lemma {:induction false} KeptAll(cps: seq<nat>, n: nat)
    requires forall k :: 0 <= k < |cps| ==> cps[k] < n
    ensures Kept(cps, n) == cps
  {
    if cps != [] {
      KeptAll(cps[..|cps| - 1], n);
      assert cps == cps[..|cps| - 1] + [cps[|cps| - 1]];
    }
  }

  /** One place further in a round. */
  lemma HandledNext(cps: seq<nat>, n: nat, j: nat)
    requires j < |cps|
    ensures var out, pos := Handled(cps, n, j), Place(cps, n, j);
            && pos <= |out|
            && Handled(cps, n, j + 1) == (if cps[j] == n then Inserted(out, pos, n) else out)
            && Place(cps, n, j + 1) == pos + (if cps[j] <= n then 1 else 0)
  {
    hide Kept;
    assert cps[..j + 1] == cps[..j] + [cps[j]];
    assert cps[j..] == [cps[j]] + cps[j + 1..];
    KeptConcat(cps[..j], [cps[j]], n + 1);
    KeptConcat([cps[j]], cps[j + 1..], n);
    KeptOne(cps[j], n);
    KeptOne(cps[j], n + 1);
  }

  lemma KeptOne(c: nat, n: nat)
    ensures Kept([c], n) == if c < n then [c] else []
  {
    assert [c][..0] == [];
  }

  lemma HandledEnds(cps: seq<nat>, n: nat)
    ensures Handled(cps, n, 0) == Kept(cps, n) && Place(cps, n, 0) == 0
    ensures Handled(cps, n, |cps|) == Kept(cps, n + 1) && Place(cps, n, |cps|) == |Kept(cps, n + 1)|
  {
    assert cps[..0] == [] && cps[0..] == cps && cps[..|cps|] == cps && cps[|cps|..] == [];
  }

  lemma ProductSum(a: nat, b: nat, c: nat)
    ensures Product(a + b, c) == Product(a, c) + Product(b, c) && Product(1, c) == c && Product(0, c) == 0
    ensures Product(a, c) == Product(c, a) && Product(a, 1) == a
  {
  }

  lemma LeastOf(cps: seq<nat>, n: nat) returns (m: nat)
    requires AtLeast(cps, n) > 0
    ensures m == LeastFrom(cps, n) && n <= m && m in cps
    ensures forall k :: 0 <= k < |cps| && n <= cps[k] ==> m <= cps[k]
  {
    m := LeastFrom(cps, n);
  }

  lemma RoundsStart(cps: seq<nat>, n: nat, delta: nat, h: nat)
    requires AtLeast(cps, n) > 0
    ensures var m := LeastFrom(cps, n);
            && n <= m && m in cps && |Kept(cps, m)| == |Kept(cps, n)|
            && Rounds(cps, n, delta, h) == Scan(cps, m, 0, delta + Product(m - n, h + 1), h)
  {
    var m := LeastOf(cps, n);
    KeptSame(cps, n, m);
  }

  lemma RoundsEnd(cps: seq<nat>, n: nat, delta: nat, h: nat, bias: nat, first: bool)
    requires AtLeast(cps, n) == 0
    ensures Rounds(cps, n, delta, h) == [] && DeltaBytes([], bias, first, h) == []
  {
  }

  lemma DecodeNothing(n: nat, i: nat, bias: nat, first: bool, out: seq<nat>)
    ensures DecodeFrom([], n, i, bias, first, out) == Some(out)
  {
  }

  /** Decoding what a round still writes, from where the decoder stands, gives back the label. */
  lemma {:induction false} RoundsAreDecoded(cps: seq<nat>, n: nat, delta: nat, h: nat, nd: nat, i: nat, bias: nat,
                                            first: bool)
    requires h == |Kept(cps, n)| && nd <= n && delta + i == Product(n - nd, h + 1)
    ensures DecodeFrom(DeltaBytes(Rounds(cps, n, delta, h), bias, first, h), nd, i, bias, first, Kept(cps, n))
          == Some(cps)
    decreases AtLeast(cps, n), |cps| + 1
  {
    hide Rounds, Scan, DeltaBytes, DecodeFrom, Product, Kept, Handled, Place, AtLeast, LeastFrom;
    NoneAtLeast(cps, n);
    if AtLeast(cps, n) == 0 {
      RoundsEnd(cps, n, delta, h, bias, first);
      KeptAll(cps, n);
      DecodeNothing(nd, i, bias, first, cps);
    } else {
      var m := LeastOf(cps, n);
      FewerAtLeast(cps, n, m);
      KeptSame(cps, n, m);
      HandledEnds(cps, m);
      RoundsStart(cps, n, delta, h);
      ProductSum(n - nd, m - n, h + 1);
      ScanIsDecoded(cps, m, 0, delta + Product(m - n, h + 1), h, nd, i, bias, first);
    }
  }

  lemma {:induction false} ScanIsDecoded(cps: seq<nat>, n: nat, j: nat, delta: nat, h: nat, nd: nat, i: nat, bias: nat,
                                         first: bool)
    requires j <= |cps| && n in cps
    requires h == |Handled(cps, n, j)| && nd <= n && delta + i == Product(n - nd, h + 1) + Place(cps, n, j)
    ensures DecodeFrom(DeltaBytes(Scan(cps, n, j, delta, h), bias, first, h), nd, i, bias, first, Handled(cps, n, j))
          == Some(cps)
    decreases AtLeast(cps, n), |cps| - j
  {
    hide Product, VarInt, Adapt, Handled, Place, Quotient, Remainder;
    HandledEnds(cps, n);
    if j == |cps| {
      FewerAtLeast(cps, n, n + 1);
      ProductSum(n - nd, 1, h + 1);
      RoundsAreDecoded(cps, n + 1, delta + 1, h, nd, i, bias, first);
    } else {
      HandledNext(cps, n, j);
      if cps[j] < n {
        ScanIsDecoded(cps, n, j + 1, delta + 1, h, nd, i, bias, first);
      } else if cps[j] > n {
        ScanIsDecoded(cps, n, j + 1, delta, h, nd, i, bias, first);
      } else {
        var rest := Scan(cps, n, j + 1, 0, h + 1);
        ProductSum(0, 0, h + 2);
        ScanIsDecoded(cps, n, j + 1, 0, h + 1, n, Place(cps, n, j) + 1, Adapt(delta, h + 1, first), false);
        OneIsDecoded(delta, rest, n, nd, i, bias, first, Handled(cps, n, j), Place(cps, n, j));
      }
    }
  }

  /** One delta is decoded into one insertion. */
  lemma OneIsDecoded(delta: nat, rest: seq<nat>, n: nat, nd: nat, i: nat, bias: nat, first: bool, out: seq<nat>,
                     pos: nat)
    requires pos <= |out| && nd <= n && delta + i == Product(n - nd, |out| + 1) + pos
    ensures var h := |out|;
            DecodeFrom(DeltaBytes([delta] + rest, bias, first, h), nd, i, bias, first, out)
            == DecodeFrom(DeltaBytes(rest, Adapt(delta, h + 1, first), false, h + 1), n, pos + 1,
                          Adapt(delta, h + 1, first), false, Inserted(out, pos, n))
  {
    hide Product, VarInt, Adapt, Quotient, Remainder, ReadVarInt;
    var h := |out|;
    var tail := DeltaBytes(rest, Adapt(delta, h + 1, first), false, h + 1);
    assert ([delta] + rest)[1..] == rest;
    assert DeltaBytes([delta] + rest, bias, first, h) == VarInt(delta, 36, bias) + tail;
    VarIntIsRead(delta, 36, bias, 1, i, tail);
    VarIntIsSome(delta, 36, bias);
    ProductSum(delta, 0, 1);
    ProductSum(n - nd, 0, h + 1);
    DividesUniquely(delta + i, h + 1, n - nd, pos);
  }

  lemma VarIntIsSome(q: nat, k: nat, bias: nat)
    ensures |VarInt(q, k, bias)| > 0
  {
  }

  lemma {:induction false} DigitsOnly(q: nat, k: nat, bias: nat, e: nat)
    requires e < |VarInt(q, k, bias)|
    ensures VarInt(q, k, bias)[e] != 45
    decreases q
  {
    var t := Clamp(k, bias);
    if q < t {
      DigitsAreRead(q);
    } else {
      DigitsAreRead(t + Remainder(q - t, 36 - t));
      if e > 0 {
        DigitsOnly(Quotient(q - t, 36 - t), k + 36, bias, e - 1);
      }
    }
  }

  lemma {:induction false} NoHyphen(deltas: seq<nat>, bias: nat, first: bool, h: nat, e: nat)
    requires e < |DeltaBytes(deltas, bias, first, h)|
    ensures DeltaBytes(deltas, bias, first, h)[e] != 45
    decreases |deltas|
  {
    hide VarInt, Adapt;
    var b := VarInt(deltas[0], 36, bias);
    if e < |b| {
      DigitsOnly(deltas[0], 36, bias, e);
    } else {
      NoHyphen(deltas[1..], Adapt(deltas[0], h + 1, first), false, h + 1, e - |b|);
    }
  }

  lemma {:induction false} KeptIsBelow(cps: seq<nat>, n: nat)
    ensures forall k :: 0 <= k < |Kept(cps, n)| ==> Kept(cps, n)[k] < n
  {
    if cps != [] {
      KeptIsBelow(cps[..|cps| - 1], n);
    }
  }

  /** Every label is decoded to itself. */
  lemma DecodeOfEncode(cps: seq<nat>)
    ensures Decode(Encode(cps)) == Some(cps)
  {
    hide DeltaBytes, Rounds, DecodeFrom, Kept, Deltas;
    var basic := Kept(cps, 128);
    var digits := DeltaBytes(Deltas(cps), 72, true, |basic|);
    RoundsFromStart(cps);
    KeptIsBelow(cps, 128);
    forall k | 0 <= k < |digits|
      ensures digits[k] != 45
    {
      NoHyphen(Deltas(cps), 72, true, |basic|, k);
    }
    DecodeSplits(basic, digits);
  }

  lemma RoundsFromStart(cps: seq<nat>)
    ensures var basic := Kept(cps, 128);
            DecodeFrom(DeltaBytes(Deltas(cps), 72, true, |basic|), 128, 0, 72, true, basic) == Some(cps)
  {
    hide Product, Rounds, DeltaBytes, DecodeFrom, Kept;
    ProductSum(0, 0, |Kept(cps, 128)| + 1);
    RoundsAreDecoded(cps, 128, 0, |Kept(cps, 128)|, 128, 0, 72, true);
  }

  /** The last hyphen parts the basic code points from the digits. */
  lemma DecodeSplits(basic: seq<nat>, digits: seq<nat>)
    requires (forall k :: 0 <= k < |digits| ==> digits[k] != 45) && forall k :: 0 <= k < |basic| ==> basic[k] < 128
    ensures Decode(basic + (if basic != [] then [45] else []) + digits) == DecodeFrom(digits, 128, 0, 72, true, basic)
  {
    hide DecodeFrom;
    var e := basic + (if basic != [] then [45] else []) + digits;
    if basic == [] {
      assert e == digits;
    } else {
      assert e[|basic|] == 45 && e[..|basic|] == basic && e[|basic| + 1..] == digits;
      assert forall k :: |basic| < k < |e| ==> e[k] == digits[k - |basic| - 1];
      assert LastHyphen(e) == Some(|basic|);
    }
  }

  // ---------------------------------------------------------------------------------------------
  // The encoder in 32-bit arithmetic

  ghost predicate Overflows(deltas: seq<nat>) {
    exists k :: 0 <= k < |deltas| && deltas[k] >= U32
  }

  lemma {:induction false} KeptAndAtLeast(cps: seq<nat>, n: nat)
    ensures |Kept(cps, n)| + AtLeast(cps, n) == |cps|
  {
    if cps != [] {
      KeptAndAtLeast(cps[..|cps| - 1], n);
    }
  }

  /** The next delta is no less than what has been counted so far. */
  lemma {:induction false} ScanGrows(cps: seq<nat>, n: nat, j: nat, delta: nat, h: nat)
    requires j <= |cps| && n in cps[j..]
    ensures n in cps && Scan(cps, n, j, delta, h) != [] && Scan(cps, n, j, delta, h)[0] >= delta
    decreases |cps| - j
  {
    assert cps[j..] == [cps[j]] + cps[j + 1..];
    if cps[j] != n {
      ScanGrows(cps, n, j + 1, if cps[j] < n then delta + 1 else delta, h);
    }
  }

  lemma VarIntStep(q: nat, k: nat, bias: nat, t: nat)
    requires t == Clamp(k, bias)
    ensures q < t ==> VarInt(q, k, bias) == [DigitByte(q)]
    ensures q >= t ==>
              && Remainder(q - t, 36 - t) + t < 36 && Quotient(q - t, 36 - t) < q
              && VarInt(q, k, bias)
                 == [DigitByte(t + Remainder(q - t, 36 - t))] + VarInt(Quotient(q - t, 36 - t), k + 36, bias)
  {
    hide DigitByte, Quotient, Remainder;
  }

  method EmitDelta(delta: nat, bias: nat) returns (digits: seq<nat>)
    ensures digits == VarInt(delta, 36, bias)
  {
    hide Quotient, Remainder, DigitByte, VarInt;
    var k: nat, q: nat := 36, delta;
    digits := [];
    while true
      invariant VarInt(delta, 36, bias) == digits + VarInt(q, k, bias)
      decreases q
    {
      var t := 1;
      if k > bias {
        t := k - bias;
      }
      if t > 26 {
        t := 26;
      }
      VarIntStep(q, k, bias, t);
      if q < t {
        break;
      }
      var x, y := q - t, 36 - t;
      var r := Remainder(x, y);
      digits := digits + [DigitByte(t + r)];
      q, k := Quotient(x, y), k + 36;
    }
    digits := digits + [DigitByte(q)];
  }

  /** The same bias as section 6.1 asks for, and no sum on the way wraps around. */
  method AdaptBias(delta0: nat, first: bool, h: nat) returns (bias: nat)
    requires delta0 < U32 && 0 < h
    ensures bias == Adapt(delta0, h, first)
  {
    hide Quotient, Scale;
    var delta: nat := delta0 / 2;
    if first {
      delta := delta / 350;
    }
    HalfTwice(delta0, first, h, delta);
    delta := (delta + Quotient(delta, h)) % U32;
    ghost var scaled := delta;
    bias := 0;
    while delta > 455
      invariant Scale(scaled) == bias + Scale(delta)
    {
      ScaleStep(delta);
      delta := delta / 35;
      bias := bias + 36;
    }
    ScaleStep(delta);
    bias := bias + Quotient(36 * delta, delta + 38);
  }

  /** A number halved and then grown by a fraction of itself has room in 32 bits. */
  lemma HalfTwice(delta0: nat, first: bool, h: nat, d: nat)
    requires delta0 < U32 && h > 0 && d == if first then delta0 / 2 / 350 else delta0 / 2
    ensures d == (if first then delta0 / 700 else delta0 / 2) && d + Quotient(d, h) < U32
  {
    hide Quotient;
  }

  lemma ScaleStep(delta: nat)
    ensures delta > 455 ==> Scale(delta) == 36 + Scale(delta / 35)
    ensures delta <= 455 ==> Scale(delta) == Quotient(36 * delta, delta + 38)
  {
  }

  method CopyBasic(cps: seq<nat>, h: nat) returns (out: seq<nat>)
    requires h == |Kept(cps, 128)|
    ensures out == Kept(cps, 128)
  {
    out := [];
    var j, x := 0, 0;
    while j < |cps|
      invariant j <= |cps| && out == Kept(cps[..j], 128) && x == |out|
    {
      assert cps[..j + 1][..j] == cps[..j];
      if cps[j] < 128 {
        out, x := out + [cps[j]], x + 1;
        if x == h {
          KeptConcat(cps[..j + 1], cps[j + 1..], 128);
          assert cps[..j + 1] + cps[j + 1..] == cps;
          return;
        }
      }
      j := j + 1;
    }
    assert cps[..j] == cps;
  }

  method CountLabel(cps: seq<nat>) returns (h: nat, todo: nat)
    ensures h == |Kept(cps, 128)| && todo == AtLeast(cps, 128)
  {
    h, todo := 0, 0;
    for j := 0 to |cps|
      invariant h == |Kept(cps[..j], 128)| && todo == AtLeast(cps[..j], 128)
    {
      assert cps[..j + 1][..j] == cps[..j];
      if cps[j] < 128 {
        h := h + 1;
      } else {
        todo := todo + 1;
      }
    }
    assert cps[..|cps|] == cps;
  }

  method FindLeast(cps: seq<nat>, n: nat) returns (m: nat)
    requires AtLeast(cps, n) > 0 && forall k :: 0 <= k < |cps| ==> cps[k] < U32 - 1
    ensures m == LeastFrom(cps, n)
  {
    m := U32 - 1;
    NoneAtLeast(cps, n);
    for j := 0 to |cps|
      invariant (m == U32 - 1 && forall k :: 0 <= k < j ==> cps[k] < n) || (n <= m && m in cps[..j])
      invariant forall k :: 0 <= k < j && n <= cps[k] ==> m <= cps[k]
    {
      assert cps[..j + 1] == cps[..j] + [cps[j]];
      if cps[j] >= n && cps[j] < m {
        m := cps[j];
      }
    }
    assert cps[..|cps|] == cps;
    var least := LeastOf(cps, n);
  }

  lemma OneMoreFits(deltas: seq<nat>, delta: nat)
    requires !Overflows(deltas) && delta < U32
    ensures !Overflows(deltas + [delta])
  {
  }

  lemma ScanStep(cps: seq<nat>, n: nat, j: nat, delta: nat, h: nat, bias: nat, first: bool)
    requires j < |cps| && n in cps
    ensures var c, now := cps[j], Scan(cps, n, j, delta, h);
            if c == n then
              var rest := Scan(cps, n, j + 1, 0, h + 1);
              && now == [delta] + rest
              && DeltaBytes(now, bias, first, h)
                 == VarInt(delta, 36, bias) + DeltaBytes(rest, Adapt(delta, h + 1, first), false, h + 1)
            else now == Scan(cps, n, j + 1, if c < n then delta + 1 else delta, h)
  {
    hide VarInt, Adapt;
    if cps[j] == n {
      var rest := Scan(cps, n, j + 1, 0, h + 1);
      assert ([delta] + rest)[1..] == rest;
    }
  }

  lemma ScanOverflows(cps: seq<nat>, n: nat, j: nat, delta: nat, h: nat, emitted: seq<nat>)
    requires j <= |cps| && n in cps[j..] && n in cps && delta >= U32
    ensures Overflows(emitted + Scan(cps, n, j, delta, h))
  {
    ScanGrows(cps, n, j, delta, h);
    assert (emitted + Scan(cps, n, j, delta, h))[|emitted|] >= U32;
  }

  /** One round over the label: every code point equal to `n` is encoded. */
  method EncodeRound(cps: seq<nat>, n: nat, delta0: nat, bias0: nat, first0: bool, h0: nat, todo0: int)
    returns (ok: bool, delta: nat, bias: nat, first: bool, h: nat, todo: int, digits: seq<nat>, ghost emitted: seq<nat>)
    requires n in cps && delta0 < U32 && h0 == |Kept(cps, n)| && |cps| < U32 - 2
    ensures !ok ==> Overflows(Scan(cps, n, 0, delta0, h0))
    ensures todo + h == todo0 + h0
    ensures ok ==>
              && delta <= |cps| && h == |Kept(cps, n + 1)| && !Overflows(emitted)
              && Scan(cps, n, 0, delta0, h0) == emitted + Rounds(cps, n + 1, delta + 1, h)
              && DeltaBytes(Scan(cps, n, 0, delta0, h0), bias0, first0, h0)
                 == digits + DeltaBytes(Rounds(cps, n + 1, delta + 1, h), bias, first, h)
  {
    hide VarInt, Adapt, DeltaBytes, Rounds, Scan, Handled, Kept, Place, Overflows, Product, Quotient, Inserted;
    NothingOverflows();
    ok, delta, bias, first, h, todo, digits, emitted := true, delta0, bias0, first0, h0, todo0, [], [];
    var j := 0;
    assert cps[0..] == cps;
    HandledEnds(cps, n);
    while j < |cps|
      invariant j <= |cps| && delta < U32 && h == |Handled(cps, n, j)| && !Overflows(emitted)
      invariant (n in cps[j..] || delta <= j) && todo + h == todo0 + h0
      invariant Scan(cps, n, 0, delta0, h0) == emitted + Scan(cps, n, j, delta, h)
      invariant DeltaBytes(Scan(cps, n, 0, delta0, h0), bias0, first0, h0)
                == digits + DeltaBytes(Scan(cps, n, j, delta, h), bias, first, h)
    {
      ScanStep(cps, n, j, delta, h, bias, first);
      HandledNext(cps, n, j);
      assert cps[j..] == [cps[j]] + cps[j + 1..];
      if cps[j] < n {
        ghost var before := delta;
        delta := (delta + 1) % U32;
        if delta == 0 {
          ScanOverflows(cps, n, j + 1, before + 1, h, emitted);
          return false, delta, bias, first, h, todo, digits, emitted;
        }
      }
      if cps[j] == n {
        var d := EmitDelta(delta, bias);
        digits := digits + d;
        OneMoreFits(emitted, delta);
        emitted := emitted + [delta];
        h := h + 1;
        bias := AdaptBias(delta, first, h);
        delta, first, todo := 0, false, todo - 1;
      }
      j := j + 1;
    }
    ScanEnds(cps, n, delta, h);
  }

  lemma ScanEnds(cps: seq<nat>, n: nat, delta: nat, h: nat)
    requires n in cps
    ensures Scan(cps, n, |cps|, delta, h) == Rounds(cps, n + 1, delta + 1, h)
  {
  }

  /** The check before `delta += x * y`: it lets pass exactly what does not wrap around. */
  lemma CheckIsExact(delta: nat, x: nat, y: nat)
    requires delta < U32 && y > 0
    ensures x > Quotient(U32 - 1 - delta, y) <==> delta + Product(x, y) >= U32
  {
    var room := U32 - 1 - delta;
    var q := Quotient(room, y);
    Divided(room, y);
    if x > q {
      TimesSign(y, x - q - 1);
      assert y * x == y * q + y + y * (x - q - 1);
    } else {
      TimesSign(y, q - x);
      assert y * q == y * x + y * (q - x);
    }
  }

  lemma OverflowsIn(a: seq<nat>, b: seq<nat>)
    ensures Overflows(a + b) <==> Overflows(a) || Overflows(b)
  {
    if k :| 0 <= k < |a| && a[k] >= U32 {
      assert (a + b)[k] >= U32;
    }
    if k :| 0 <= k < |b| && b[k] >= U32 {
      assert (a + b)[|a| + k] >= U32;
    }
  }

  /** The part after the basic code points: all the deltas, or an overflow exactly if one of them does
      not fit in 32 bits. */
  method EncodeDeltas(cps: seq<nat>, h0: nat, todo0: nat) returns (ok: bool, digits: seq<nat>)
    requires h0 == |Kept(cps, 128)| && todo0 == AtLeast(cps, 128)
    requires |cps| < U32 - 2 && forall k :: 0 <= k < |cps| ==> cps[k] < U32 - 1
    ensures ok <==> !Overflows(Deltas(cps))
    ensures ok ==> digits == DeltaBytes(Deltas(cps), 72, true, h0)
  {
    hide Rounds, Scan, DeltaBytes, Kept, AtLeast, LeastFrom, Quotient, Product, Overflows;
    var n: nat, bias: nat, delta: nat, first, h: nat, todo: int := 128, 72, 0, true, h0, todo0;
    ok, digits := true, [];
    ghost var emitted: seq<nat> := [];
    ghost var all := Deltas(cps);
    NothingOverflows();
    while todo > 0
      invariant h == |Kept(cps, n)| && todo == AtLeast(cps, n) && delta < U32
      invariant all == emitted + Rounds(cps, n, delta, h) && !Overflows(emitted)
      invariant DeltaBytes(all, 72, true, h0) == digits + DeltaBytes(Rounds(cps, n, delta, h), bias, first, h)
      decreases todo
    {
      var m := FindLeast(cps, n);
      RoundsStart(cps, n, delta, h);
      var x, y := m - n, h + 1;
      CheckIsExact(delta, x, y);
      if x > Quotient(U32 - 1 - delta, y) {
        assert m in cps[0..];
        ScanOverflows(cps, m, 0, delta + Product(x, y), h, emitted);
        return false, digits;
      }
      delta := (delta + Product(x, y)) % U32;
      LessToDo(cps, n, m);
      n := m;
      var d;
      ghost var more, round := [], Scan(cps, n, 0, delta, h);
      ok, delta, bias, first, h, todo, d, more := EncodeRound(cps, n, delta, bias, first, h, todo);
      OverflowsIn(emitted, round);
      if !ok {
        return;
      }
      OverflowsIn(emitted, more);
      digits, emitted := digits + d, emitted + more;
      delta, n := delta + 1, n + 1;
      KeptAndAtLeast(cps, n);
    }
    RoundsEnd(cps, n, delta, h, bias, first);
    assert emitted + [] == emitted && digits + [] == digits;
  }

  lemma NothingOverflows()
    ensures !Overflows([])
  {
  }

  lemma LessToDo(cps: seq<nat>, n: nat, m: nat)
    requires AtLeast(cps, n) > 0 && m == LeastFrom(cps, n)
    ensures AtLeast(cps, m + 1) < AtLeast(cps, n) && AtLeast(cps, n) + |Kept(cps, n)| == |cps|
  {
    var least := LeastOf(cps, n);
    FewerAtLeast(cps, n, m + 1);
    KeptAndAtLeast(cps, n);
  }

  const XN: seq<nat> := [120, 110, 45, 45]

  /** A label in ASCII: itself if it is so already, and otherwise an encoding that the decoder takes
      back to it; unless a distance between code points does not fit in 32 bits, and only then. */
  method ToAsciiLabel(cps: seq<nat>) returns (rc: int, out: seq<nat>)
    requires |cps| < U32 - 2 && forall k :: 0 <= k < |cps| ==> cps[k] <= 0x10FFFF
    ensures rc == E2BIG <==> Overflows(Deltas(cps))
    ensures rc != E2BIG && (forall k :: 0 <= k < |cps| ==> cps[k] < 128) ==> rc == |cps| && out == cps
    ensures rc != E2BIG && (exists k :: 0 <= k < |cps| && cps[k] >= 128) ==>
              rc == 0 && |out| >= 4 && out[..4] == [120, 110, 45, 45] && out[4..] == Encode(cps)
              && Decode(out[4..]) == Some(cps)
  {
    hide Rounds, DeltaBytes, Decode;
    var h, todo := CountLabel(cps);
    NoneAtLeast(cps, 128);
    out := if todo > 0 then XN else [];
    var basic := CopyBasic(cps, h);
    out := out + basic;
    if todo == 0 {
      KeptAll(cps, 128);
      RoundsEnd(cps, 128, 0, h, 0, true);
      NothingOverflows();
      return h, out;
    }
    if h > 0 {
      out := out + [45];
    }
    var ok, digits := EncodeDeltas(cps, h, todo);
    if !ok {
      return E2BIG, out;
    }
    out := out + digits;
    assert out == XN + Encode(cps);
    DecodeOfEncode(cps);
    return 0, out;
  }

  // ---------------------------------------------------------------------------------------------
  // The parameters of section 5 of RFC 3492, in numbers

  /** Digits 0 to 35 are the letters and then the numerals. */
  lemma AlphabetIs(d: nat)
    requires d < 36
    ensures DigitByte(d) == "abcdefghijklmnopqrstuvwxyz0123456789"[d] as int
  {
  }

  /** The threshold is the position less the bias, kept between 1 and 26. */
  lemma ThresholdIs(k: nat, bias: nat)
    ensures var t := if k - bias < 26 then k - bias else 26; Clamp(k, bias) == if t > 1 then t else 1
  {
  }

  lemma {:induction false} ScaleIs(delta: nat) returns (m: nat, x: nat)
    ensures Division.Power(35, m) > 0 && x == delta / Division.Power(35, m) && x <= 455
    ensures m > 0 ==> Division.Power(35, m - 1) > 0 && delta / Division.Power(35, m - 1) > 455
    ensures Scale(delta) == 36 * m + 36 * x / (x + 38)
  {
    if delta <= 455 {
      m, x := 0, delta;
    } else {
      var n;
      n, x := ScaleIs(delta / 35);
      m := n + 1;
      Division.DigitShifts(35, delta, n);
      if n > 0 {
        Division.DigitShifts(35, delta, n - 1);
      }
    }
  }

  /** The bias after a delta: damped by 700 the first time and halved later, grown by its share of the points so
      far, divided by 35 until it is no more than 455, and 36 for each division and the skewed rest. */
  lemma AdaptIs(delta: nat, numPoints: nat, first: bool) returns (m: nat, x: nat)
    requires numPoints > 0
    ensures Division.Power(35, m) > 0
    ensures var damped := if first then delta / 700 else delta / 2;
            var grown := damped + damped / numPoints;
            && x == grown / Division.Power(35, m) && x <= 455
            && (m > 0 ==> Division.Power(35, m - 1) > 0 && grown / Division.Power(35, m - 1) > 455)
            && Adapt(delta, numPoints, first) == 36 * m + 36 * x / (x + 38)
  {
    var damped := if first then delta / 700 else delta / 2;
    m, x := ScaleIs(damped + Quotient(damped, numPoints));
  }

  /** A label with one code point beyond ASCII. */
  ghost predicate OneForeign(cps: seq<nat>, p: nat) {
    p < |cps| && cps[p] >= 128 && forall k :: 0 <= k < |cps| && k != p ==> cps[k] < 128
  }

  lemma {:induction false} AtLeastNone(cps: seq<nat>, n: nat)
    requires forall k :: 0 <= k < |cps| ==> cps[k] < n
    ensures AtLeast(cps, n) == 0
  {
    NoneAtLeast(cps, n);
  }

  lemma {:induction false} NoMoreDeltas(cps: seq<nat>, p: nat, j: nat, delta: nat, h: nat)
    requires OneForeign(cps, p) && p < j <= |cps|
    ensures Scan(cps, cps[p], j, delta, h) == []
    decreases |cps| - j
  {
    if j == |cps| {
      AtLeastNone(cps, cps[p] + 1);
    } else {
      NoMoreDeltas(cps, p, j + 1, delta + 1, h);
    }
  }

  lemma {:induction false} ScanComesTo(cps: seq<nat>, p: nat, j: nat, delta: nat, h: nat)
    requires OneForeign(cps, p) && j <= p
    ensures Scan(cps, cps[p], j, delta, h) == [delta + p - j]
    decreases p - j
  {
    if j == p {
      NoMoreDeltas(cps, p, p + 1, 0, h + 1);
    } else {
      ScanComesTo(cps, p, j + 1, delta + 1, h);
    }
  }

  lemma {:induction false} KeptLength(cps: seq<nat>, n: nat)
    ensures |Kept(cps, n)| + AtLeast(cps, n) == |cps|
  {
    if cps != [] {
      KeptLength(cps[..|cps| - 1], n);
    }
  }

  lemma {:induction false} AtLeastOne(cps: seq<nat>, p: nat)
    requires OneForeign(cps, p)
    ensures AtLeast(cps, 128) == 1
  {
    var last := |cps| - 1;
    if p == last {
      AtLeastNone(cps[..last], 128);
    } else {
      assert cps[..last][p] == cps[p];
      AtLeastOne(cps[..last], p);
    }
  }

  /** Its one delta goes around the whole label for each code point below it, and on to its place. */
  lemma DeltaOfOne(cps: seq<nat>, p: nat)
    requires OneForeign(cps, p)
    ensures Deltas(cps) == [(cps[p] - 128) * |cps| + p]
  {
    AtLeastOne(cps, p);
    KeptLength(cps, 128);
    var m := LeastFrom(cps, 128);
    assert m == cps[p];
    ScanComesTo(cps, p, 0, Product(m - 128, |cps|), |cps| - 1);
  }

  lemma KeptOfMore(c: nat, rest: seq<nat>, n: nat)
    ensures Kept([c] + rest, n) == (if c < n then [c] else []) + Kept(rest, n)
  {
    assert [c][..0] == [];
    KeptConcat([c], rest, n);
  }

  lemma KeptPrepended(c: nat, rest: seq<nat>, all: seq<nat>, n: nat)
    requires all == [c] + rest
    ensures Kept(all, n) == (if c < n then [c] else []) + Kept(rest, n)
  {
    KeptOfMore(c, rest, n);
  }

  lemma KnownBasic()
    ensures Kept([98, 252, 99, 104, 101, 114], 128) == [98, 99, 104, 101, 114]
  {
    var rest := [99, 104, 101, 114];
    KeptAll(rest, 128);
    hide Kept;
    KeptPrepended(252, rest, [252] + rest, 128);
    KeptPrepended(98, [252] + rest, [98] + ([252] + rest), 128);
    assert [98] + ([252] + rest) == [98, 252, 99, 104, 101, 114];
  }

  lemma OneDigit(q: nat, k: nat, bias: nat, t: nat, d: nat, r: nat)
    requires t == Clamp(k, bias) && t <= d < 36 && t <= q && q - t == (36 - t) * r + (d - t)
    ensures VarInt(q, k, bias) == [DigitByte(d)] + VarInt(r, k + 36, bias)
  {
    DividesUniquely(q - t, 36 - t, r, d - t);
    hide Quotient, Remainder, DigitByte, Clamp;
  }

  lemma LastDigit(q: nat, k: nat, bias: nat)
    requires q < Clamp(k, bias)
    ensures VarInt(q, k, bias) == [DigitByte(q)]
  {
  }

  lemma KnownDigits()
    ensures VarInt(745, 36, 72) == [107, 118, 97]
  {
    hide VarInt;
    LastDigit(0, 108, 72);
    OneDigit(21, 72, 72, 1, 21, 0);
    OneDigit(745, 36, 72, 1, 10, 21);
  }

  lemma OneDelta(delta: nat, bias: nat, first: bool, h: nat)
    ensures DeltaBytes([delta], bias, first, h) == VarInt(delta, 36, bias)
  {
    hide VarInt, Adapt;
    assert [delta][1..] == [];
  }

  /** The label b, u with two dots, c, h, e, r becomes "bcher-kva". */
  lemma KnownLabel()
    ensures Encode([98, 252, 99, 104, 101, 114]) == [98, 99, 104, 101, 114, 45, 107, 118, 97]
  {
    var cps := [98, 252, 99, 104, 101, 114];
    DeltaOfOne(cps, 1);
    hide Kept, Deltas, DeltaBytes, VarInt, OneForeign;
    KnownBasic();
    KnownDigits();
    OneDelta(745, 72, true, 5);
  }

  lemma PairCounts(n: nat)
    ensures AtLeast([228, 246], n) == (if n <= 228 then 1 else 0) + (if n <= 246 then 1 else 0)
  {
    assert [228][..0] == [] && AtLeast([], n) == 0;
    assert AtLeast([228], n) == if n <= 228 then 1 else 0;
    assert [228, 246][..1] == [228];
  }

  lemma PairDeltas()
    ensures Deltas([228, 246]) == [100, 36]
  {
    var cps := [228, 246];
    PairCounts(128);
    PairCounts(229);
    PairCounts(247);
    KeptPrepended(228, [246], cps, 128);
    KeptPrepended(246, [], [246], 128);
    assert LeastFrom(cps, 128) == 228 && LeastFrom(cps, 229) == 246;
    hide AtLeast, LeastFrom;
    assert Rounds(cps, 247, 1, 2) == [];
    assert Scan(cps, 246, 2, 0, 2) == [];
    assert Scan(cps, 246, 1, 36, 1) == [36];
    assert Scan(cps, 246, 0, 35, 1) == [36];
    assert Rounds(cps, 229, 1, 1) == [36];
    assert Scan(cps, 228, 2, 0, 1) == [36];
    assert Scan(cps, 228, 1, 0, 1) == [36];
    assert Scan(cps, 228, 0, 100, 0) == [100] + [36];
  }

  lemma FirstDigits()
    ensures VarInt(100, 36, 72) == [52, 99, 97]
  {
    hide VarInt;
    LastDigit(0, 108, 72);
    OneDigit(2, 72, 72, 1, 2, 0);
    OneDigit(100, 36, 72, 1, 30, 2);
  }

  lemma SecondDigits()
    ensures VarInt(36, 36, 0) == [48, 98]
  {
    hide VarInt;
    LastDigit(1, 72, 0);
    OneDigit(36, 36, 0, 26, 26, 1);
  }

  lemma SecondBias()
    ensures Adapt(100, 1, true) == 0
  {
  }

  /** The label a, o, both with two dots, becomes "4ca0b": the second delta is written at the bias that the first
      one leaves. */
  lemma KnownPair()
    ensures Encode([228, 246]) == [52, 99, 97, 48, 98]
  {
    PairDeltas();
    FirstDigits();
    SecondDigits();
    SecondBias();
    OneDelta(36, 0, false, 1);
    KeptPrepended(228, [246], [228, 246], 128);
    KeptPrepended(246, [], [246], 128);
    hide Deltas, VarInt, Adapt;
    assert [100, 36][1..] == [36];
    assert DeltaBytes([100, 36], 72, true, 0) == VarInt(100, 36, 72) + DeltaBytes([36], 0, false, 1);
  }
}
