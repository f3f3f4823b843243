/**
 * UTF-8 (section 3 of RFC 3629) as TextEncoder and TextDecoder apply it: an unpaired surrogate is
 * encoded as U+FFFD, a malformed sequence is decoded as U+FFFD, and a leading byte order mark is
 * dropped by the decoder.
 */
module Utf8 {
  import opened Utf16

  type Byte = x: int | 0 <= x < 256

  // A Unicode scalar value: any code point but a surrogate.
  type Scalar = x: int | 0 <= x < 0x11_0000 && !(0xD800 <= x < 0xE000)

  const REPLACEMENT: Scalar := 0xFFFD
  const BYTE_ORDER_MARK: Scalar := 0xFEFF

  // ---------------------------------------------------------------- code units and scalars

  function ToScalars(s: JsString): seq<Scalar> {
    if s == [] then []
    else if |s| > 1 && IsLead(s[0]) && IsTrail(s[1]) then
      [0x1_0000 + (s[0] - 0xD800) * 0x400 + (s[1] - 0xDC00)] + ToScalars(s[2..])
    else if IsLead(s[0]) || IsTrail(s[0]) then [REPLACEMENT] + ToScalars(s[1..])
    else [s[0]] + ToScalars(s[1..])
  }

  function UnitsOf(x: Scalar): (u: JsString)
    ensures WellFormed(u)
  {
    if x < 0x1_0000 then [x]
    else
      var y := x - 0x1_0000;
      [0xD800 + y / 0x400, 0xDC00 + y % 0x400]
  }

  function FromScalars(x: seq<Scalar>): JsString {
    if x == [] then [] else UnitsOf(x[0]) + FromScalars(x[1..])
  }

  lemma {:induction false} FromScalarsInverts(s: JsString)
    requires WellFormed(s)
    ensures FromScalars(ToScalars(s)) == s
  {
    if s == [] {
    } else if IsLead(s[0]) {
      FromScalarsInverts(s[2..]);
      var x := ToScalars(s)[0];
      assert UnitsOf(x) == [s[0], s[1]];
      assert [s[0], s[1]] + s[2..] == s;
    } else {
      FromScalarsInverts(s[1..]);
      assert [s[0]] + s[1..] == s;
    }
  }

  lemma {:induction false} ToScalarsInverts(x: seq<Scalar>)
    ensures WellFormed(FromScalars(x)) && ToScalars(FromScalars(x)) == x
  {
    if x != [] {
      ToScalarsInverts(x[1..]);
      var u, rest := UnitsOf(x[0]), FromScalars(x[1..]);
      WellFormedConcat(u, rest);
      assert (u + rest)[|u|..] == rest;
    }
  }

  // ---------------------------------------------------------------- encoding

  function EncodeScalar(x: Scalar): (e: seq<Byte>)
    ensures 1 <= |e| <= 4
  {
    if x < 0x80 then [x]
    else if x < 0x800 then [0xC0 + x / 64, 0x80 + x % 64]
    else if x < 0x1_0000 then [0xE0 + x / 64 / 64, 0x80 + x / 64 % 64, 0x80 + x % 64]
    else [0xF0 + x / 64 / 64 / 64, 0x80 + x / 64 / 64 % 64, 0x80 + x / 64 % 64, 0x80 + x % 64]
  }

  function Encode(x: seq<Scalar>): seq<Byte> {
    if x == [] then [] else EncodeScalar(x[0]) + Encode(x[1..])
  }

  function EncodeString(s: JsString): seq<Byte> {
    Encode(ToScalars(s))
  }

  predicate IsContinuation(b: Byte) {
    0x80 <= b < 0xC0
  }

  lemma {:induction false} EncodeConcat(x: seq<Scalar>, y: seq<Scalar>)
    ensures Encode(x + y) == Encode(x) + Encode(y)
  {
    if x == [] {
      assert x + y == y;
    } else {
      assert (x + y)[1..] == x[1..] + y;
      EncodeConcat(x[1..], y);
    }
  }

  // A scalar's first octet is no continuation and all the others are.
  lemma EncodeScalarShape(x: Scalar)
    ensures !IsContinuation(EncodeScalar(x)[0])
    ensures forall i :: 1 <= i < |EncodeScalar(x)| ==> IsContinuation(EncodeScalar(x)[i])
  {
  }

  // ---------------------------------------------------------------- decoding

  // How many continuations a first octet announces, or 0 if it announces none.
  function Follows(b: Byte): nat {
    if 0xC2 <= b <= 0xDF then 1
    else if 0xE0 <= b <= 0xEF then 2
    else if 0xF0 <= b <= 0xF4 then 3
    else 0
  }

  // The second octet is kept to the range that rules out overlong forms, surrogates and what lies past U+10FFFF.
  predicate SecondAllowed(b: Byte, second: Byte) {
    && IsContinuation(second)
    && (b == 0xE0 ==> second >= 0xA0)
    && (b == 0xED ==> second <= 0x9F)
    && (b == 0xF0 ==> second >= 0x90)
    && (b == 0xF4 ==> second <= 0x8F)
  }

  // How many octets of `b`, from the first, are a beginning of one well-formed scalar.
  function Matched(b: seq<Byte>): (n: nat)
    requires b != []
    ensures 1 <= n <= |b| && n <= 1 + Follows(b[0])
  {
    if Follows(b[0]) == 0 || |b| == 1 || !SecondAllowed(b[0], b[1]) then 1
    else if Follows(b[0]) == 1 || |b| == 2 || !IsContinuation(b[2]) then 2
    else if Follows(b[0]) == 2 || |b| == 3 || !IsContinuation(b[3]) then 3
    else 4
  }

  function ScalarOf(b: seq<Byte>): Scalar
    requires b != [] && Matched(b) == 1 + Follows(b[0])
  {
    match Follows(b[0])
    case 0 => if b[0] < 0x80 then b[0] else REPLACEMENT
    case 1 => Six(b[0] - 0xC0, b[1])
    case 2 => Six(Six(b[0] - 0xE0, b[1]), b[2])
    case _ => Six(Six(Six(b[0] - 0xF0, b[1]), b[2]), b[3])
  }

  // Six more bits, from a continuation.
  function Six(high: int, b: Byte): int {
    high * 64 + b - 0x80
  }

  function Decode(b: seq<Byte>): seq<Scalar> {
    if b == [] then []
    else
      var n := Matched(b);
      [if n == 1 + Follows(b[0]) then ScalarOf(b) else REPLACEMENT] + Decode(b[n..])
  }

  function DropMark(x: seq<Scalar>): seq<Scalar> {
    if x != [] && x[0] == BYTE_ORDER_MARK then x[1..] else x
  }

  function DecodeString(b: seq<Byte>): JsString {
    FromScalars(DropMark(Decode(b)))
  }

  lemma DecodeScalar(x: Scalar, rest: seq<Byte>)
    ensures var b := EncodeScalar(x) + rest;
      Matched(b) == |EncodeScalar(x)| == 1 + Follows(b[0]) && ScalarOf(b) == x
  {
  }

  lemma {:induction false} DecodeInvertsEncode(x: seq<Scalar>)
    ensures Decode(Encode(x)) == x
  {
    if x != [] {
      var e, rest := EncodeScalar(x[0]), Encode(x[1..]);
      DecodeScalar(x[0], rest);
      assert (e + rest)[|e|..] == rest;
      DecodeInvertsEncode(x[1..]);
    }
  }

  // These octets begin the encoding of some scalar.
  ghost predicate BeginsScalar(p: seq<Byte>) {
    exists x: Scalar :: p <= EncodeScalar(x)
  }

  // What is matched whole is the encoding of the scalar read.
  lemma MatchedIsScalar(b: seq<Byte>)
    requires b != [] && Matched(b) == 1 + Follows(b[0]) && (Follows(b[0]) == 0 ==> b[0] < 0x80)
    ensures EncodeScalar(ScalarOf(b)) <= b
  {
    if Follows(b[0]) == 1 {
      MatchedTwo(b);
    } else if Follows(b[0]) == 2 {
      MatchedThree(b);
    } else if Follows(b[0]) == 3 {
      MatchedFour(b);
    }
  }

  lemma MatchedTwo(b: seq<Byte>)
    requires b != [] && Matched(b) == 2 && Follows(b[0]) == 1
    ensures EncodeScalar(ScalarOf(b)) <= b
  {
    TwoOctets(b[0], b[1]);
  }

  lemma MatchedThree(b: seq<Byte>)
    requires b != [] && Matched(b) == 3 && Follows(b[0]) == 2
    ensures EncodeScalar(ScalarOf(b)) <= b
  {
    ThreeOctets(b[0], b[1], b[2]);
    assert [b[0], b[1], b[2]] == b[..3];
  }

  lemma MatchedFour(b: seq<Byte>)
    requires b != [] && Matched(b) == 4 && Follows(b[0]) == 3
    ensures EncodeScalar(ScalarOf(b)) <= b
  {
    assert [b[0], b[1], b[2], b[3]] == b[..4];
    FourOctetsMatch(b);
    EncodedFour(b[0], b[1], b[2], b[3], ScalarOf(b));
  }

  lemma FourOctetsMatch(b: seq<Byte>)
    requires b != [] && Matched(b) == 4 && Follows(b[0]) == 3
    ensures SecondAllowed(b[0], b[1]) && IsContinuation(b[2]) && IsContinuation(b[3])
    ensures ScalarOf(b) == Six(Six(Six(b[0] - 0xF0, b[1]), b[2]), b[3])
  {
  }

  lemma EncodedFour(b0: Byte, b1: Byte, b2: Byte, b3: Byte, x: Scalar)
    requires Follows(b0) == 3 && SecondAllowed(b0, b1) && IsContinuation(b2) && IsContinuation(b3)
    requires x == Six(Six(Six(b0 - 0xF0, b1), b2), b3)
    ensures EncodeScalar(x) == [b0, b1, b2, b3]
  {
    FourOctets(b0, b1, b2, b3);
  }

  lemma SixComesOff(high: int, b: Byte)
    requires IsContinuation(b)
    ensures Six(high, b) / 64 == high && Six(high, b) % 64 == b - 0x80
  {
  }

  lemma TwoOctets(b0: Byte, b1: Byte)
    requires Follows(b0) == 1 && IsContinuation(b1)
    ensures EncodeScalar(Six(b0 - 0xC0, b1)) == [b0, b1]
  {
    SixComesOff(b0 - 0xC0, b1);
  }

  lemma ThreeOctets(b0: Byte, b1: Byte, b2: Byte)
    requires Follows(b0) == 2 && SecondAllowed(b0, b1) && IsContinuation(b2)
    ensures var x := Six(Six(b0 - 0xE0, b1), b2); (x < 0xD800 || x >= 0xE000) && EncodeScalar(x) == [b0, b1, b2]
  {
    var high := Six(b0 - 0xE0, b1);
    SixComesOff(b0 - 0xE0, b1);
    SixComesOff(high, b2);
  }

  lemma FourOctets(b0: Byte, b1: Byte, b2: Byte, b3: Byte)
    requires Follows(b0) == 3 && SecondAllowed(b0, b1) && IsContinuation(b2) && IsContinuation(b3)
    ensures var x := Six(Six(Six(b0 - 0xF0, b1), b2), b3);
      0x1_0000 <= x < 0x11_0000 && EncodeScalar(x) == [b0, b1, b2, b3]
  {
    var high := Six(b0 - 0xF0, b1);
    var higher := Six(high, b2);
    SixComesOff(b0 - 0xF0, b1);
    SixComesOff(high, b2);
    SixComesOff(higher, b3);
    assert 16 <= high < 0x110;
    FourOctetsOf(Six(higher, b3), higher, high);
  }

  lemma FourOctetsOf(x: int, higher: int, high: int)
    requires x / 64 == higher && higher / 64 == high && 16 <= high < 0x110
    ensures 0x1_0000 <= x < 0x11_0000
    ensures EncodeScalar(x) == [0xF0 + high / 64, 0x80 + high % 64, 0x80 + higher % 64, 0x80 + x % 64]
  {
  }

  // More than one octet matched is the beginning of a scalar.
  lemma MatchedBegins(b: seq<Byte>)
    requires b != [] && Matched(b) > 1
    ensures BeginsScalar(b[..Matched(b)])
  {
    var n := Matched(b);
    var missing := 1 + Follows(b[0]) - n;
    var more: seq<Byte> := b[..n] + if missing == 0 then [] else if missing == 1 then [0x80] else [0x80, 0x80];
    assert more[0] == b[0] && more[1] == b[1];
    assert Matched(more) == 1 + Follows(more[0]);
    MatchedIsScalar(more);
    assert b[..n] <= EncodeScalar(ScalarOf(more));
  }

  // Of octets that begin a scalar all are matched.
  lemma BeginningIsMatched(b: seq<Byte>, x: Scalar, k: nat)
    ensures 1 <= k <= |b| && b[..k] <= EncodeScalar(x) ==> Matched(b) >= k
  {
    var e := EncodeScalar(x);
    DecodeScalar(x, []);
    assert e + [] == e;
    if 1 <= k <= |b| && b[..k] <= e {
      assert forall i :: 0 <= i < k ==> b[i] == e[i];
    }
  }

  // Where no scalar is encoded, U+FFFD stands for the longest beginning of one, or else for one octet, and
  // decoding goes on past it.
  lemma MalformedIsReplaced(b: seq<Byte>) returns (n: nat)
    requires b != [] && forall x: Scalar :: !(EncodeScalar(x) <= b)
    ensures 1 <= n <= |b| && Decode(b) == [REPLACEMENT] + Decode(b[n..])
    ensures (n > 1 ==> BeginsScalar(b[..n])) && (n < |b| ==> !BeginsScalar(b[..n + 1]))
  {
    n := Matched(b);
    if n == 1 + Follows(b[0]) && (Follows(b[0]) == 0 ==> b[0] < 0x80) {
      MatchedIsScalar(b);
    }
    if n > 1 {
      MatchedBegins(b);
    }
    forall x: Scalar
      ensures n < |b| ==> !(b[..n + 1] <= EncodeScalar(x))
    {
      BeginningIsMatched(b, x, n + 1);
    }
  }

  // And a scalar that is encoded is decoded.
  lemma ScalarIsDecoded(b: seq<Byte>, x: Scalar)
    requires EncodeScalar(x) <= b
    ensures Decode(b) == [x] + Decode(b[|EncodeScalar(x)|..])
  {
    var e := EncodeScalar(x);
    DecodeScalar(x, b[|e|..]);
    assert e + b[|e|..] == b;
  }

  // The string with each unpaired surrogate replaced.
  function Repaired(s: JsString): (r: JsString)
    ensures |r| == |s|
  {
    if s == [] then []
    else if |s| > 1 && IsLead(s[0]) && IsTrail(s[1]) then s[..2] + Repaired(s[2..])
    else [if IsLead(s[0]) || IsTrail(s[0]) then REPLACEMENT else s[0]] + Repaired(s[1..])
  }

  function WithoutMark(s: JsString): JsString {
    if s != [] && s[0] == BYTE_ORDER_MARK then s[1..] else s
  }

  lemma {:induction false} RepairedThroughScalars(s: JsString)
    ensures FromScalars(ToScalars(s)) == Repaired(s)
    ensures Repaired(s) == s <==> WellFormed(s)
  {
    if s == [] {
    } else if |s| > 1 && IsLead(s[0]) && IsTrail(s[1]) {
      RepairedThroughScalars(s[2..]);
      PairIsKept(s);
      SameHeads(s[..2], Repaired(s[2..]), s[2..]);
      assert s == s[..2] + s[2..];
    } else {
      RepairedThroughScalars(s[1..]);
      var u := if IsLead(s[0]) || IsTrail(s[0]) then REPLACEMENT else s[0];
      OneIsRepaired(s, u);
      SameHeads([u], Repaired(s[1..]), s[1..]);
      assert s == [s[0]] + s[1..] && ([u] + Repaired(s[1..]))[0] == u;
    }
  }

  lemma PairIsKept(s: JsString)
    requires |s| > 1 && IsLead(s[0]) && IsTrail(s[1])
    ensures FromScalars(ToScalars(s)) == s[..2] + FromScalars(ToScalars(s[2..]))
  {
    var x := ToScalars(s);
    assert x[1..] == ToScalars(s[2..]);
    UnitsOfPair(s[0], s[1]);
    assert s[..2] == [s[0], s[1]];
  }

  lemma UnitsOfPair(a: Unit, b: Unit)
    requires IsLead(a) && IsTrail(b)
    ensures UnitsOf(0x1_0000 + (a - 0xD800) * 0x400 + (b - 0xDC00)) == [a, b]
  {
    HighAndLow(a - 0xD800, b - 0xDC00);
  }

  lemma HighAndLow(high: nat, low: nat)
    requires low < 0x400
    ensures (high * 0x400 + low) / 0x400 == high && (high * 0x400 + low) % 0x400 == low
  {
  }

  lemma OneIsRepaired(s: JsString, u: Unit)
    requires s != [] && !(|s| > 1 && IsLead(s[0]) && IsTrail(s[1]))
    requires u == if IsLead(s[0]) || IsTrail(s[0]) then REPLACEMENT else s[0]
    ensures FromScalars(ToScalars(s)) == [u] + FromScalars(ToScalars(s[1..]))
  {
    var x := ToScalars(s);
    assert x[1..] == ToScalars(s[1..]);
  }

  lemma SameHeads(head: JsString, x: JsString, y: JsString)
    ensures head + x == head + y <==> x == y
  {
    assert (head + x)[|head|..] == x && (head + y)[|head|..] == y;
  }

  lemma MarkThroughScalars(s: JsString)
    ensures DropMark(ToScalars(s)) == ToScalars(WithoutMark(s))
  {
  }

  // Any string comes back with its unpaired surrogates replaced and a leading mark gone; it comes back
  // as it was exactly when it had neither.
  lemma DecodeInvertsEncodeString(s: JsString)
    ensures DecodeString(EncodeString(s)) == Repaired(WithoutMark(s))
    ensures DecodeString(EncodeString(s)) == s <==> WellFormed(s) && WithoutMark(s) == s
  {
    DecodeInvertsEncode(ToScalars(s));
    MarkThroughScalars(s);
    RepairedThroughScalars(WithoutMark(s));
  }
}
