/** The network byte stream: big-endian integers, booleans, arrays and vectors. */
module ByteStreams {
  import opened Rounding

  type Byte = n: nat | n < 256
  type Bytes = seq<Byte>

  /** A value and the bytes after it, or the exception that parsing throws. */
  datatype Parsed<+T> = Parsed(value: T, rest: Bytes) | Failed

  // ---------------------------------------------------------------- unsigned integers

  /** 256 to the power n. */
  function Limit(n: nat): (limit: nat)
    ensures limit > 0
  {
    if n == 0 then 1 else 256 * Limit(n - 1)
  }

  /** The integer in n bytes, the most significant first. */
  function PrintUInt(n: nat, x: nat): (bs: Bytes)
    requires x < Limit(n)
    ensures |bs| == n
  {
    if n == 0 then [] else PrintUInt(n - 1, x / 256) + [x % 256]
  }

  function UIntOf(bs: Bytes): (x: nat)
    ensures x < Limit(|bs|)
  {
    if bs == [] then 0 else UIntOf(bs[..|bs| - 1]) * 256 + bs[|bs| - 1]
  }

  function ParseUInt(n: nat, bs: Bytes): (p: Parsed<nat>)
    ensures p.Parsed? ==> p.value < Limit(n)
  {
    if |bs| < n then Failed else Parsed(UIntOf(bs[..n]), bs[n..])
  }

  lemma {:induction false} UIntOfPrinted(n: nat, x: nat)
    requires x < Limit(n)
    ensures UIntOf(PrintUInt(n, x)) == x
  {
    if n > 0 {
      UIntOfPrinted(n - 1, x / 256);
      var bs := PrintUInt(n - 1, x / 256) + [x % 256];
      assert bs[..|bs| - 1] == PrintUInt(n - 1, x / 256);
    }
  }

  lemma {:induction false} PrintedUIntOf(bs: Bytes)
    ensures PrintUInt(|bs|, UIntOf(bs)) == bs
  {
    if bs != [] {
      var init, last := bs[..|bs| - 1], bs[|bs| - 1];
      hide Limit;
      PrintedUIntOf(init);
      LastDigit(UIntOf(init), last);
      assert bs == init + [last];
    }
  }

  lemma LastDigit(u: nat, last: Byte)
    ensures (u * 256 + last) / 256 == u && (u * 256 + last) % 256 == last
  {
  }

  /** Printing then parsing gives the integer back, and leaves what follows it. */
  lemma ParsePrintedUInt(n: nat, x: nat, rest: Bytes)
    requires x < Limit(n)
    ensures ParseUInt(n, PrintUInt(n, x) + rest) == Parsed(x, rest)
  {
    UIntOfPrinted(n, x);
    assert (PrintUInt(n, x) + rest)[..n] == PrintUInt(n, x);
  }

  /** Parsing reads exactly what printing writes. */
  lemma PrintParsedUInt(n: nat, bs: Bytes)
    requires ParseUInt(n, bs).Parsed?
    ensures PrintUInt(n, ParseUInt(n, bs).value) + ParseUInt(n, bs).rest == bs
  {
    PrintedUIntOf(bs[..n]);
  }

  lemma {:induction false} LimitSum(a: nat, b: nat)
    ensures Limit(a + b) == Limit(a) * Limit(b)
  {
    if a > 0 { LimitSum(a - 1, b); }
  }

  lemma DivideTwice(x: nat, d: int)
    requires d > 0
    ensures x / 256 / d == x / (256 * d)
  {
    var q, r := x / 256 / d, x / 256 % d;
    assert x / 256 == q * d + r;
    assert x == 256 * (q * d + r) + x % 256 == q * (256 * d) + (256 * r + x % 256);
    QuotientIs(x, 256 * d, q);
  }

  /** The bytes are big-endian. */
  lemma {:induction false} PrintedByte(n: nat, x: nat, k: nat)
    requires x < Limit(n) && k < n
    ensures PrintUInt(n, x)[k] == x / Limit(n - 1 - k) % 256
  {
    if k == n - 1 {
      assert Limit(0) == 1;
    } else {
      PrintedByte(n - 1, x / 256, k);
      DivideTwice(x, Limit(n - 2 - k));
    }
  }

  // ---------------------------------------------------------------- 64-bit integers

  const TWO_63 := 0x8000_0000_0000_0000
  const TWO_64 := 0x1_0000_0000_0000_0000

  type Int64 = i: int | -TWO_63 <= i < TWO_63

  /** Two's complement. */
  function Bits(i: Int64): nat { if i < 0 then i + TWO_64 else i }

  function FromBits(u: nat): Int64
    requires u < TWO_64
  {
    if u < TWO_63 then u else u - TWO_64
  }

  lemma LimitOf8()
    ensures Limit(8) == TWO_64
  {
    assert Limit(4) == 0x1_0000_0000;
  }

  lemma LimitOf4()
    ensures Limit(4) == 0x1_0000_0000
  {
  }

  function PrintInt64(i: Int64): (bs: Bytes)
    ensures |bs| == 8
  {
    LimitOf8();
    PrintUInt(8, Bits(i))
  }

  function ParseInt64(bs: Bytes): Parsed<Int64> {
    LimitOf8();
    match ParseUInt(8, bs)
    case Parsed(u, rest) => Parsed(FromBits(u), rest)
    case Failed => Failed
  }

  lemma ParsePrintedInt64(i: Int64, rest: Bytes)
    ensures ParseInt64(PrintInt64(i) + rest) == Parsed(i, rest)
  {
    hide Limit, PrintUInt, ParseUInt;
    LimitOf8();
    ParsePrintedUInt(8, Bits(i), rest);
  }

  lemma PrintParsedInt64(bs: Bytes)
    requires ParseInt64(bs).Parsed?
    ensures PrintInt64(ParseInt64(bs).value) + ParseInt64(bs).rest == bs
  {
    hide Limit, PrintUInt, ParseUInt;
    LimitOf8();
    PrintParsedUInt(8, bs);
  }

  /** The bytes are big-endian and in two's complement: of a negative integer too each is the
      remainder of a quotient rounded down. */
  lemma PrintedInt64Byte(i: Int64, k: nat)
    requires k < 8
    ensures PrintInt64(i)[k] == i / Limit(7 - k) % 256
  {
    hide PrintUInt;
    LimitOf8();
    PrintedByte(8, Bits(i), k);
    var d := Limit(7 - k);
    LimitSum(1 + k, 7 - k);
    LimitSum(1, k);
    assert Limit(1) == 256;
    if i < 0 { ModuloLimit(i, 256 * Limit(k), d); }
  }

  lemma ModuloLimit(i: int, c: int, d: int)
    requires d > 0 && c % 256 == 0
    ensures (i + c * d) / d % 256 == i / d % 256
  {
    var q, r := i / d, i % d;
    assert i + c * d == (q + c) * d + r;
    QuotientIs(i + c * d, d, q + c);
  }

  // ---------------------------------------------------------------- booleans

  function PrintBool(b: bool): (bs: Bytes)
    ensures |bs| == 1
  {
    [if b then 1 else 0]
  }

  function ParseBool(bs: Bytes): Parsed<bool> {
    if bs == [] then Failed else Parsed(bs[0] != 0, bs[1..])
  }

  lemma ParsePrintedBool(b: bool, rest: Bytes)
    ensures ParseBool(PrintBool(b) + rest) == Parsed(b, rest)
  {
  }

  // ---------------------------------------------------------------- containers

  /** The elements one after the other. */
  function PrintAll<T>(encode: T -> Bytes, xs: seq<T>): Bytes {
    if xs == [] then [] else encode(xs[0]) + PrintAll(encode, xs[1..])
  }

  /** Up to a number of elements, as many as there are bytes for: running out of bytes
      between two elements is not an error. */
  function ParseUpTo<T>(decode: Bytes -> Parsed<T>, max: nat, bs: Bytes): Parsed<seq<T>> {
    if bs == [] || max == 0 then Parsed([], bs)
    else
      match decode(bs)
      case Failed => Failed
      case Parsed(x, rest) =>
        match ParseUpTo(decode, max - 1, rest)
        case Failed => Failed
        case Parsed(xs, end) => Parsed([x] + xs, end)
  }

  method DeserializeContainer<T>(decode: Bytes -> Parsed<T>, max: nat, bs: Bytes) returns (p: Parsed<seq<T>>)
    ensures p == ParseUpTo(decode, max, bs)
  {
    var xs: seq<T>, left, numElements := [], bs, 0;
    ghost var all := ParseUpTo(decode, max, bs);
    assert all.Parsed? ==> [] + all.value == all.value;
    while left != [] && numElements < max
      invariant numElements <= max
      invariant all
             == match ParseUpTo(decode, max - numElements, left)
                case Failed => Failed
                case Parsed(ys, end) => Parsed(xs + ys, end)
      decreases max - numElements
    {
      match decode(left) {
        case Failed => return Failed;
        case Parsed(x, rest) =>
          ghost var ys := ParseUpTo(decode, max - numElements - 1, rest);
          assert ys.Parsed? ==> xs + ([x] + ys.value) == (xs + [x]) + ys.value;
          xs, left, numElements := xs + [x], rest, numElements + 1;
      }
    }
    assert xs + [] == xs;
    return Parsed(xs, left);
  }

  /** An element codec whose output is not empty and decodes back. */
  ghost predicate IsCodec<T(!new)>(encode: T -> Bytes, decode: Bytes -> Parsed<T>) {
    && (forall x :: encode(x) != [])
    && (forall x, rest :: decode(encode(x) + rest) == Parsed(x, rest))
  }

  /** Of the printed elements the first ones are parsed back, up to the maximum, whether
      there are more of them or fewer. */
  lemma {:induction false} ParsePrinted<T(!new)>(encode: T -> Bytes, decode: Bytes -> Parsed<T>, max: nat, xs: seq<T>)
    requires IsCodec(encode, decode)
    ensures var n := if |xs| <= max then |xs| else max;
            ParseUpTo(decode, max, PrintAll(encode, xs)) == Parsed(xs[..n], PrintAll(encode, xs[n..]))
  {
    if xs != [] && max > 0 {
      ParsePrinted(encode, decode, max - 1, xs[1..]);
      var n := if |xs| <= max then |xs| else max;
      assert encode(xs[0]) != [];
      assert xs[1..][..n - 1] == xs[1..n] && xs[..n] == [xs[0]] + xs[1..n];
      assert xs[1..][n - 1..] == xs[n..];
    }
  }

  /** The right number of printed elements parse back, and what follows is left. */
  lemma {:induction false} ParsePrintedAll<T(!new)>(encode: T -> Bytes, decode: Bytes -> Parsed<T>, xs: seq<T>,
                                                    rest: Bytes)
    requires IsCodec(encode, decode)
    ensures ParseUpTo(decode, |xs|, PrintAll(encode, xs) + rest) == Parsed(xs, rest)
  {
    if xs != [] {
      ParsePrintedAll(encode, decode, xs[1..], rest);
      assert encode(xs[0]) != [];
      assert PrintAll(encode, xs) + rest == encode(xs[0]) + (PrintAll(encode, xs[1..]) + rest);
      assert [xs[0]] + xs[1..] == xs;
    }
  }

  /** A vector is its length in four bytes and its elements. */
  function PrintVector<T>(encode: T -> Bytes, xs: seq<T>): Bytes
    requires |xs| < Limit(4)
  {
    PrintUInt(4, |xs|) + PrintAll(encode, xs)
  }

  function ParseVector<T>(decode: Bytes -> Parsed<T>, bs: Bytes): Parsed<seq<T>> {
    match ParseUInt(4, bs)
    case Failed => Failed
    case Parsed(n, rest) => ParseUpTo(decode, n, rest)
  }

  lemma ParsePrintedVector<T(!new)>(encode: T -> Bytes, decode: Bytes -> Parsed<T>, xs: seq<T>, rest: Bytes)
    requires IsCodec(encode, decode) && |xs| < Limit(4)
    ensures ParseVector(decode, PrintVector(encode, xs) + rest) == Parsed(xs, rest)
  {
    hide Limit, PrintUInt, ParseUInt;
    assert PrintVector(encode, xs) + rest == PrintUInt(4, |xs|) + (PrintAll(encode, xs) + rest);
    ParsePrintedUInt(4, |xs|, PrintAll(encode, xs) + rest);
    ParsePrintedAll(encode, decode, xs, rest);
  }

  /** A vector cut off after some of its elements is accepted, with those. */
  lemma ParseCutVector<T(!new)>(encode: T -> Bytes, decode: Bytes -> Parsed<T>, n: nat, xs: seq<T>)
    requires IsCodec(encode, decode) && |xs| <= n < Limit(4)
    ensures ParseVector(decode, PrintUInt(4, n) + PrintAll(encode, xs)) == Parsed(xs, [])
  {
    hide Limit, PrintUInt, ParseUInt;
    ParsePrintedUInt(4, n, PrintAll(encode, xs));
    ParsePrinted(encode, decode, n, xs);
    assert xs[..|xs|] == xs;
  }

  /** An element of which only a part is there fails to decode. */
  ghost predicate CutsFail<T(!new)>(encode: T -> Bytes, decode: Bytes -> Parsed<T>) {
    forall x, k :: 0 < k < |encode(x)| ==> decode(encode(x)[..k]).Failed?
  }

  /** The first k bytes of the printed elements are a number of whole ones. */
  ghost predicate CutsBetween<T>(encode: T -> Bytes, xs: seq<T>, k: nat) {
    exists j :: 0 <= j <= |xs| && k == |PrintAll(encode, xs[..j])|
  }

  lemma {:induction false} CutElements<T(!new)>(encode: T -> Bytes, decode: Bytes -> Parsed<T>, max: nat, xs: seq<T>,
                                                k: nat)
    requires IsCodec(encode, decode) && CutsFail(encode, decode)
    requires |xs| <= max && k <= |PrintAll(encode, xs)|
    ensures ParseUpTo(decode, max, PrintAll(encode, xs)[..k]).Parsed? <==> CutsBetween(encode, xs, k)
  {
    if k == 0 {
      assert k == |PrintAll(encode, xs[..0])|;
    } else {
      var first, rest := encode(xs[0]), PrintAll(encode, xs[1..]);
      NextCut(encode, xs, k);
      if k < |first| {
        assert PrintAll(encode, xs)[..k] == first[..k];
      } else {
        assert first != [];
        assert PrintAll(encode, xs)[..k] == first + rest[..k - |first|];
        CutElements(encode, decode, max - 1, xs[1..], k - |first|);
      }
    }
  }

  lemma NextCut<T>(encode: T -> Bytes, xs: seq<T>, k: nat)
    requires xs != [] && k > 0
    ensures CutsBetween(encode, xs, k)
       <==> k >= |encode(xs[0])| && CutsBetween(encode, xs[1..], k - |encode(xs[0])|)
  {
    var n := |encode(xs[0])|;
    if j :| 0 <= j <= |xs| && k == |PrintAll(encode, xs[..j])| {
      assert xs[..j][1..] == xs[1..][..j - 1];
      assert k - n == |PrintAll(encode, xs[1..][..j - 1])|;
    }
    if k >= n && CutsBetween(encode, xs[1..], k - n) {
      var i :| 0 <= i <= |xs| - 1 && k - n == |PrintAll(encode, xs[1..][..i])|;
      assert xs[..i + 1][1..] == xs[1..][..i];
      assert k == |PrintAll(encode, xs[..i + 1])|;
    }
  }

  /** A printed vector that is cut off is accepted exactly if that is between two elements. */
  lemma CutVectorExactly<T(!new)>(encode: T -> Bytes, decode: Bytes -> Parsed<T>, xs: seq<T>, k: nat)
    requires IsCodec(encode, decode) && CutsFail(encode, decode)
    requires |xs| < Limit(4) && k <= |PrintVector(encode, xs)|
    ensures ParseVector(decode, PrintVector(encode, xs)[..k]).Parsed? <==> k >= 4 && CutsBetween(encode, xs, k - 4)
  {
    hide Limit, PrintUInt, UIntOf;
    var length, elements := PrintUInt(4, |xs|), PrintAll(encode, xs);
    if k >= 4 {
      assert PrintVector(encode, xs)[..k] == length + elements[..k - 4];
      ParsePrintedUInt(4, |xs|, elements[..k - 4]);
      CutElements(encode, decode, |xs|, xs, k - 4);
    }
  }

  /** So for vectors of integers. */
  lemma Int64IsCodec()
    ensures IsCodec(PrintInt64, ParseInt64) && CutsFail(PrintInt64, ParseInt64)
  {
    hide PrintInt64, ParseInt64;
    forall i: Int64, rest ensures ParseInt64(PrintInt64(i) + rest) == Parsed(i, rest) { ParsePrintedInt64(i, rest); }
    forall bs: Bytes | |bs| < 8 ensures ParseInt64(bs).Failed? { ShortInt64(bs); }
  }

  lemma ShortInt64(bs: Bytes)
    requires |bs| < 8
    ensures ParseInt64(bs).Failed?
  {
  }

  // ---------------------------------------------------------------- byte arrays

  function ParseByte(bs: Bytes): Parsed<Byte> {
    if bs == [] then Failed else Parsed(bs[0], bs[1..])
  }

  function Zeros(n: nat): (bs: Bytes)
    ensures |bs| == n
  {
    if n == 0 then [] else [0] + Zeros(n - 1)
  }

  /** An array of n bytes: what is not read stays zero. */
  function ParseArray(n: nat, bs: Bytes): Parsed<Bytes> {
    match ParseUpTo(ParseByte, n, bs)
    case Failed => Failed
    case Parsed(xs, rest) => Parsed(xs + Zeros(if |xs| <= n then n - |xs| else 0), rest)
  }

  lemma {:induction false} ParseBytes(n: nat, bs: Bytes)
    ensures ParseUpTo(ParseByte, n, bs) == if |bs| <= n then Parsed(bs, []) else Parsed(bs[..n], bs[n..])
  {
    if bs != [] && n > 0 {
      ParseBytes(n - 1, bs[1..]);
      assert [bs[0]] + bs[1..] == bs;
      if |bs| > n {
        assert [bs[0]] + bs[1..][..n - 1] == bs[..n];
      }
    }
  }

  /** The first n bytes, with zeros for those that are not there. */
  function Padded(n: nat, bs: Bytes): (r: Bytes)
    ensures |r| == n
    ensures |bs| == n ==> r == bs
  {
    if |bs| >= n then bs[..n] else bs + Zeros(n - |bs|)
  }

  /** The bytes after the first n. */
  function After(n: nat, bs: Bytes): (r: Bytes)
    ensures r == [] <==> |bs| <= n
  {
    if |bs| >= n then bs[n..] else []
  }

  /** Reading an array never fails, however few bytes there are. */
  lemma ParseArrayIs(n: nat, bs: Bytes)
    ensures ParseArray(n, bs) == Parsed(Padded(n, bs), After(n, bs))
  {
    ParseBytes(n, bs);
    if |bs| >= n {
      assert bs[..n] + Zeros(0) == bs[..n];
      assert |bs| == n ==> bs[..n] == bs;
    }
  }
}
