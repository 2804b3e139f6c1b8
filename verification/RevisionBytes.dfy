/**
 Revisions as byte strings (pkg/index/revision.go) and the bucket a revision is placed by
 (cmd/http/main.go). The 64-bit width is explicit here.
 */
module RevisionBytes {
  import opened Options
  import opened Bytes
  import opened Division
  import opened Revisions

  const TWO_63 := 0x8000_0000_0000_0000
  const TWO_64 := 0x1_0000_0000_0000_0000

  predicate IsInt64(x: int) {
    -TWO_63 <= x < TWO_63
  }

  /** uint64(x) for an int64 x. */
  function ToUnsigned(x: int): (u: nat)
    requires IsInt64(x)
    ensures u < TWO_64
  {
    if x < 0 then x + TWO_64 else x
  }

  /** int64(u) for a uint64 u. */
  function ToSigned(u: nat): (x: int)
    requires u < TWO_64
    ensures IsInt64(x) && ToUnsigned(x) == u
  {
    if u >= TWO_63 then u - TWO_64 else u
  }

  // ---------------------------------------------------------------- big-endian numbers

  function Power(n: nat): (p: nat)
    ensures p > 0
  {
    if n == 0 then 1 else 256 * Power(n - 1)
  }

  lemma PowerOfEight()
    ensures Power(8) == TWO_64
  {
  }

  /** The n lowest bytes, highest first. */
  function BigEndian(u: nat, n: nat): (s: seq<byte>)
    ensures |s| == n
  {
    if n == 0 then [] else BigEndian(u / 256, n - 1) + [(u % 256) as byte]
  }

  function Value(s: seq<byte>): nat {
    if s == [] then 0 else Value(s[..|s| - 1]) * 256 + s[|s| - 1] as nat
  }

  lemma {:induction false} ValueOfBigEndian(u: nat, n: nat)
    requires u < Power(n)
    ensures Value(BigEndian(u, n)) == u
  {
    if n > 0 {
      ValueOfBigEndian(u / 256, n - 1);
      assert BigEndian(u, n)[..n - 1] == BigEndian(u / 256, n - 1);
    }
  }

  /** Byte i from the end is the i-th digit to the base 256. */
  lemma {:induction false} BigEndianDigit(u: nat, n: nat, i: nat)
    requires i < n
    ensures BigEndian(u, n)[n - 1 - i] as int == u / Power(i) % 256
  {
    if i > 0 {
      BigEndianDigit(u / 256, n - 1, i - 1);
      DivideTwice(u, 256, Power(i - 1));
      assert BigEndian(u, n)[n - 1 - i] == BigEndian(u / 256, n - 1)[n - 1 - i];
    }
  }

  lemma {:induction false} ValueIsBounded(s: seq<byte>)
    ensures Value(s) < Power(|s|)
  {
    if s != [] {
      ValueIsBounded(s[..|s| - 1]);
    }
  }

  /** One more byte at the end decides only among equals. */
  lemma {:induction false} LessAppend(a: Key, b: Key, c: Key, d: Key)
    requires |a| == |b|
    ensures Less(a + c, b + d) <==> if a == b then Less(c, d) else Less(a, b)
  {
    if a == [] {
      assert a + c == c && b + d == d;
    } else {
      assert (a + c)[1..] == a[1..] + c && (b + d)[1..] == b[1..] + d;
      LessAppend(a[1..], b[1..], c, d);
      assert a == [a[0]] + a[1..] && b == [b[0]] + b[1..];
    }
  }

  /** Byte order is number order. */
  lemma {:induction false} BigEndianOrder(u: nat, v: nat, n: nat)
    requires u < Power(n) && v < Power(n)
    ensures Less(BigEndian(u, n), BigEndian(v, n)) <==> u < v
    ensures BigEndian(u, n) == BigEndian(v, n) <==> u == v
  {
    ValueOfBigEndian(u, n);
    ValueOfBigEndian(v, n);
    if n > 0 {
      BigEndianOrder(u / 256, v / 256, n - 1);
      LessAppend(BigEndian(u / 256, n - 1), BigEndian(v / 256, n - 1), [(u % 256) as byte], [(v % 256) as byte]);
    }
  }

  // ---------------------------------------------------------------- revisions as bytes

  ghost predicate Encodable(rev: Revision) {
    IsInt64(rev.main) && IsInt64(rev.sub)
  }

  const UNDERSCORE: byte := 0x5f

  /** Main, an underscore, sub. */
  function Encode(rev: Revision): (s: seq<byte>)
    requires IsInt64(rev.main) && IsInt64(rev.sub)
    ensures |s| == 17
  {
    BigEndian(ToUnsigned(rev.main), 8) + [UNDERSCORE] + BigEndian(ToUnsigned(rev.sub), 8)
  }

  /** Byte by byte: digits of the main number, an underscore, digits of the sub number. */
  lemma EncodeLayout(rev: Revision, i: nat)
    requires IsInt64(rev.main) && IsInt64(rev.sub) && i < 8
    ensures Encode(rev)[7 - i] as int == ToUnsigned(rev.main) / Power(i) % 256
    ensures Encode(rev)[8] as int == '_' as int
    ensures Encode(rev)[16 - i] as int == ToUnsigned(rev.sub) / Power(i) % 256
  {
    BigEndianDigit(ToUnsigned(rev.main), 8, i);
    BigEndianDigit(ToUnsigned(rev.sub), 8, i);
    hide BigEndian, Power;
  }

  /** The byte in between is not looked at, and nodes are not encoded. */
  function Decode(s: seq<byte>): Revision
    requires |s| >= 17
  {
    PowerOfEight();
    ValueIsBounded(s[..8]);
    ValueIsBounded(s[9..17]);
    Revision(ToSigned(Value(s[..8])), ToSigned(Value(s[9..17])), [])
  }

  /** Decoding undoes encoding, whatever follows. */
  lemma DecodeUndoesEncode(rev: Revision, rest: seq<byte>)
    requires Encodable(rev)
    ensures Decode(Encode(rev) + rest) == rev.(nodes := [])
  {
    var main, sub := ToUnsigned(rev.main), ToUnsigned(rev.sub);
    var s := Encode(rev) + rest;
    PowerOfEight();
    ValueOfBigEndian(main, 8);
    ValueOfBigEndian(sub, 8);
    hide BigEndian, Value, Power;
    assert s[..8] == BigEndian(main, 8) && s[9..17] == BigEndian(sub, 8);
  }

  /** Bytes compare as the unsigned numbers do. */
  lemma EncodeOrder(a: Revision, b: Revision)
    requires Encodable(a) && Encodable(b)
    ensures Less(Encode(a), Encode(b)) <==>
              if a.main != b.main then ToUnsigned(a.main) < ToUnsigned(b.main)
              else ToUnsigned(a.sub) < ToUnsigned(b.sub)
  {
    var m, n, p, q := ToUnsigned(a.main), ToUnsigned(b.main), ToUnsigned(a.sub), ToUnsigned(b.sub);
    PowerOfEight();
    BigEndianOrder(m, n, 8);
    BigEndianOrder(p, q, 8);
    hide BigEndian, Power, Less;
    LessAppend(BigEndian(m, 8) + [UNDERSCORE], BigEndian(n, 8) + [UNDERSCORE], BigEndian(p, 8), BigEndian(q, 8));
    LessAppend(BigEndian(m, 8), BigEndian(n, 8), [UNDERSCORE], [UNDERSCORE]);
    assert (BigEndian(m, 8) + [UNDERSCORE])[..8] == BigEndian(m, 8);
    assert (BigEndian(n, 8) + [UNDERSCORE])[..8] == BigEndian(n, 8);
  }

  /** Byte order is the revision order exactly when the numbers that decide have the same sign. */
  lemma OrderIsExact(a: Revision, b: Revision)
    requires Encodable(a) && Encodable(b)
    ensures (Less(Encode(a), Encode(b)) <==> GreaterThan(b, a)) <==>
            if a.main != b.main then (a.main < 0 <==> b.main < 0) else (a.sub < 0 <==> b.sub < 0)
  {
    EncodeOrder(a, b);
    hide Encode, Less;
  }

  /** In particular for all revisions in use, which are not negative. */
  lemma OrderOfNonNegatives(a: Revision, b: Revision)
    requires Encodable(a) && Encodable(b)
    requires a.main >= 0 && a.sub >= 0 && b.main >= 0 && b.sub >= 0
    ensures Less(Encode(a), Encode(b)) <==> GreaterThan(b, a)
    ensures Encode(a) == Encode(b) <==> SameAge(a, b)
  {
    OrderIsExact(a, b);
    DecodeUndoesEncode(a, []);
    DecodeUndoesEncode(b, []);
    assert Encode(a) + [] == Encode(a) && Encode(b) + [] == Encode(b);
    hide Encode, Less, Decode;
  }

  /** binary.BigEndian.PutUint64 at an offset. */
  method PutUint64(bytes: array<byte>, offset: nat, u: nat)
    requires offset + 8 <= bytes.Length
    modifies bytes
    ensures bytes[..] == old(bytes[..offset]) + BigEndian(u, 8) + old(bytes[offset + 8..])
  {
    var left, k := u, 8;
    ghost var was := bytes[..];
    while k > 0
      invariant 0 <= k <= 8
      invariant forall i :: 0 <= i < bytes.Length && !(offset + k <= i < offset + 8) ==> bytes[i] == was[i]
      invariant BigEndian(u, 8) == BigEndian(left, k) + bytes[offset + k..offset + 8]
    {
      k := k - 1;
      ghost var tail := bytes[offset + k + 1..offset + 8];
      bytes[offset + k] := (left % 256) as byte;
      assert bytes[offset + k..offset + 8] == [(left % 256) as byte] + tail;
      left := left / 256;
    }
    assert bytes[..] == bytes[..offset] + bytes[offset..offset + 8] + bytes[offset + 8..];
  }

  /** A buffer that is too short panics, after the parts that fit have been written. */
  method RevToBytes(rev: Revision, bytes: array<byte>) returns (ok: bool)
    requires IsInt64(rev.main) && IsInt64(rev.sub)
    modifies bytes
    ensures ok <==> bytes.Length >= 17
    ensures ok ==> bytes[..] == Encode(rev) + old(bytes[17..])
    ensures bytes.Length < 8 ==> bytes[..] == old(bytes[..])
    ensures bytes.Length == 8 ==> bytes[..] == Encode(rev)[..8]
    ensures 8 < bytes.Length < 17 ==> bytes[..] == Encode(rev)[..9] + old(bytes[9..])
  {
    hide BigEndian;
    ghost var was := bytes[..];
    if bytes.Length < 8 {
      return false;
    }
    PutUint64(bytes, 0, ToUnsigned(rev.main));
    assert bytes[..8] == Encode(rev)[..8] && bytes[8..] == was[8..];
    if bytes.Length == 8 {
      return false;
    }
    bytes[8] := UNDERSCORE;
    assert bytes[..9] == Encode(rev)[..9] && bytes[9..] == was[9..];
    if bytes.Length < 17 {
      return false;
    }
    assert bytes[17..] == was[17..];
    PutUint64(bytes, 9, ToUnsigned(rev.sub));
    ok := true;
  }

  /** None stands for the panic on a short buffer. */
  method BytesToRev(bytes: array<byte>) returns (rev: Option<Revision>)
    ensures rev.Some? <==> bytes.Length >= 17
    ensures rev.Some? ==> rev.value == Decode(bytes[..])
    ensures rev.Some? ==> forall sent: Revision :: Encodable(sent) && bytes[..17] == Encode(sent) ==>
              rev.value == sent.(nodes := [])
  {
    if bytes.Length < 17 {
      return None;
    }
    rev := Some(Decode(bytes[..]));
    forall sent: Revision | Encodable(sent) && bytes[..17] == Encode(sent)
      ensures rev.value == sent.(nodes := [])
    {
      DecodeUndoesEncode(sent, bytes[17..]);
      assert bytes[..] == bytes[..17] + bytes[17..];
    }
  }

  // ---------------------------------------------------------------- buckets

  function Abs(x: int): nat {
    if x < 0 then -x else x
  }

  function Magnitude(x: int, y: int): nat
    requires y != 0
  {
    Over(Abs(x), Abs(y))
  }

  function Over(a: nat, b: nat): nat
    requires b > 0
  {
    a / b
  }

  /** Division that drops the fraction, and wraps for the one quotient that does not fit. */
  function Quotient(x: int, y: int): (q: int)
    requires IsInt64(x) && IsInt64(y) && y != 0
    ensures IsInt64(q)
  {
    MagnitudeFits(x, y);
    var m: int := Magnitude(x, y);
    var q := if (x < 0) != (y < 0) then -m else m;
    if q == TWO_63 then -TWO_63 else q
  }

  lemma MagnitudeDivides(x: int, y: int)
    requires y != 0
    ensures IsRemainder(Abs(x), Abs(y), Abs(x) % Abs(y), Magnitude(x, y))
  {
    DivisionGives(Abs(x), Abs(y));
  }

  /** Only the smallest number over one in magnitude reaches 2^63. */
  lemma MagnitudeFits(x: int, y: int)
    requires IsInt64(x) && y != 0
    ensures Magnitude(x, y) <= TWO_63 && (Magnitude(x, y) == TWO_63 ==> x == -TWO_63 && Abs(y) == 1)
  {
    MagnitudeDivides(x, y);
    var a, b, q := Abs(x), Abs(y), Magnitude(x, y);
    hide Magnitude;
    AtLeastOne(b, q);
    if b > 1 && q == TWO_63 {
      RoundsApart(1, b, TWO_63);
    }
  }

  /** Magnitudes divide, with the sign of the exact quotient; only the smallest number over -1 wraps. */
  lemma QuotientTruncates(x: int, y: int)
    requires IsInt64(x) && IsInt64(y) && y != 0
    ensures x == -TWO_63 && y == -1 ==> Quotient(x, y) == -TWO_63
    ensures !(x == -TWO_63 && y == -1) ==>
              && (exists rest :: IsRemainder(Abs(x), Abs(y), rest, Abs(Quotient(x, y))))
              && (Quotient(x, y) != 0 ==> (Quotient(x, y) < 0 <==> ((x < 0) != (y < 0))))
  {
    MagnitudeFits(x, y);
    MagnitudeDivides(x, y);
    if x == -TWO_63 && y == -1 {
      WrapsOnce(x, y);
    } else {
      hide Magnitude;
      assert Abs(Quotient(x, y)) == Magnitude(x, y);
      hide IsRemainder;
      assert IsRemainder(Abs(x), Abs(y), Abs(x) % Abs(y), Abs(Quotient(x, y)));
    }
  }

  lemma WrapsOnce(x: int, y: int)
    requires x == -TWO_63 && y == -1
    ensures Magnitude(x, y) == TWO_63
  {
    MagnitudeDivides(x, y);
  }

  function Reversed(s: seq<byte>): (r: seq<byte>)
    ensures |r| == |s| && forall i :: 0 <= i < |s| ==> r[i] == s[|s| - 1 - i]
  {
    seq(|s|, i requires 0 <= i < |s| => s[|s| - 1 - i])
  }

  /** The key a revision is placed by: the number of its bucket, lowest byte first. */
  function BucketKey(main: int, size: int): Key
    requires IsInt64(main) && IsInt64(size) && size != 0
  {
    Reversed(BigEndian(ToUnsigned(Quotient(main, size)), 8))
  }

  /** The number of bytes with the lowest first. */
  function LittleValue(s: seq<byte>): nat {
    if s == [] then 0 else s[0] as nat + 256 * LittleValue(s[1..])
  }

  lemma {:induction false} LittleOfReversed(s: seq<byte>)
    ensures LittleValue(Reversed(s)) == Value(s)
  {
    if s != [] {
      var n := |s| - 1;
      LittleOfReversed(s[..n]);
      assert Reversed(s)[1..] == Reversed(s[..n]);
    }
  }

  /** Byte i of a placement key is the i-th digit of the bucket number; weighted, they add up to it. */
  lemma BucketBytes(main: int, size: int)
    requires IsInt64(main) && IsInt64(size) && size != 0
    ensures |BucketKey(main, size)| == 8
    ensures forall i :: 0 <= i < 8 ==>
              BucketKey(main, size)[i] as int == ToUnsigned(Quotient(main, size)) / Power(i) % 256
    ensures LittleValue(BucketKey(main, size)) == ToUnsigned(Quotient(main, size))
  {
    var u := ToUnsigned(Quotient(main, size));
    PowerOfEight();
    ValueOfBigEndian(u, 8);
    LittleOfReversed(BigEndian(u, 8));
    hide BigEndian, Power, Value, Quotient;
    forall i | 0 <= i < 8
      ensures BucketKey(main, size)[i] as int == u / Power(i) % 256
    {
      BigEndianDigit(u, 8, i);
    }
  }

  /** getPrimaryRevBytesWithBucket: eight bytes, lowest first. A bucket size of 0 panics. */
  method PrimaryRevBytes(main: int, size: int) returns (bytes: array?<byte>)
    requires IsInt64(main) && IsInt64(size)
    ensures bytes == null <==> size == 0
    ensures bytes != null ==> fresh(bytes) && bytes[..] == BucketKey(main, size)
  {
    if size == 0 {
      return null;
    }
    var u := ToUnsigned(Quotient(main, size));
    bytes := new byte[8];
    var left := u;
    for i := 0 to 8
      invariant left == u / Power(i)
      invariant forall j :: 0 <= j < i ==> bytes[j] as int == u / Power(j) % 256
    {
      bytes[i] := (left % 256) as byte;
      NextDigit(u, i);
      left := left / 256;
    }
    BucketBytes(main, size);
    hide Power, BucketKey, Quotient;
    assert forall j :: 0 <= j < 8 ==> bytes[j] as int == BucketKey(main, size)[j] as int;
  }

  lemma NextDigit(u: nat, i: nat)
    ensures u / Power(i) / 256 == u / Power(i + 1)
  {
    DivideTwice(u, Power(i), 256);
  }

  /** Revisions are placed together exactly when they fall into the same bucket. */
  lemma BucketsAreExact(a: int, b: int, size: int)
    requires IsInt64(a) && IsInt64(b) && IsInt64(size) && size != 0
    ensures BucketKey(a, size) == BucketKey(b, size) <==> Quotient(a, size) == Quotient(b, size)
  {
    var u, v := ToUnsigned(Quotient(a, size)), ToUnsigned(Quotient(b, size));
    PowerOfEight();
    BigEndianOrder(u, v, 8);
    hide BigEndian, Power, Quotient;
    var s, t := BigEndian(u, 8), BigEndian(v, 8);
    if Reversed(s) == Reversed(t) {
      forall i | 0 <= i < 8
        ensures s[i] == t[i]
      {
        assert Reversed(s)[7 - i] == s[i] && Reversed(t)[7 - i] == t[i];
      }
    }
  }
}
