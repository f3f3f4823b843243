/**
 * Envelope bounds: packages/envelope/src/bounds.ts. An observation over a bound comes out clipped
 * and says so.
 *
 * An envelope is a JavaScript object, kept here as its list of members. Everything is measured in
 * octets of UTF-8, and the whole envelope in octets of its canonical form, so a value that cannot
 * be canonicalized cannot be measured: None stands for that exception.
 */
module Bounds {
  import opened Prelude
  import opened Utf16
  import opened Utf8
  import opened Jcs

  const MAX_ENVELOPE_OCTETS: nat := 65536
  const MAX_PAYLOAD_TEXT: nat := 8192
  const MAX_PAYLOAD_DEPTH: nat := 8
  const MAX_REFS: nat := 32
  const MAX_REF: nat := 2048
  const MAX_LABEL: nat := 200
  const SMALLEST_BUDGET: nat := 64

  const ACTOR: JsString := [97, 99, 116, 111, 114]  // actor
  const LABEL: JsString := [108, 97, 98, 101, 108]  // label
  const EXTERNAL_ID: JsString := [101, 120, 116, 101, 114, 110, 97, 108, 95, 105, 100]  // external_id
  const SOURCE: JsString := [115, 111, 117, 114, 99, 101]  // source
  const KIND: JsString := [107, 105, 110, 100]  // kind
  const REFS: JsString := [114, 101, 102, 115]  // refs
  const VALUE: JsString := [118, 97, 108, 117, 101]  // value
  const PAYLOAD: JsString := [112, 97, 121, 108, 111, 97, 100]  // payload
  const CLIPPED: JsString := [99, 108, 105, 112, 112, 101, 100]  // clipped
  const LENGTH_SUFFIX: JsString := [95, 108, 101, 110, 103, 116, 104]  // _length

  function Octets(s: JsString): nat {
    |EncodeString(s)|
  }

  // ---------------------------------------------------------------- clipping

  // The longest run of whole scalars, from the first, that `max` octets hold.
  function FitPrefix(x: seq<Scalar>, max: nat): (p: seq<Scalar>)
    ensures p <= x && |Encode(p)| <= max
  {
    if x == [] || |EncodeScalar(x[0])| > max then []
    else [x[0]] + FitPrefix(x[1..], max - |EncodeScalar(x[0])|)
  }

  // A string that fits is left alone; otherwise it is cut, and what is left is decoded.
  function Clipped(s: JsString, max: nat): JsString {
    if Octets(s) <= max then s else FromScalars(DropMark(FitPrefix(ToScalars(s), max)))
  }

  method Clip(s: JsString, max: nat) returns (r: JsString)
    ensures r == Clipped(s, max)
  {
    var bytes := EncodeString(s);
    if |bytes| <= max {
      return s;
    }
    ghost var x := ToScalars(s);
    CutIsAtFirstOctet(x, max);
    var end := StepBack(bytes, max, |Encode(FitPrefix(x, max))|);
    DecodeInvertsEncode(FitPrefix(x, max));
    r := DecodeString(bytes[..end]);
  }

  method StepBack(bytes: seq<Byte>, max: nat, ghost k: nat) returns (end: nat)
    requires CutsAt(bytes, k, max)
    ensures end == k
  {
    end := max;
    while end > 0 && IsContinuation(bytes[end])
      invariant k <= end <= max
    {
      end := end - 1;
    }
  }

  // Octet k begins a scalar that runs on past `max`.
  ghost predicate CutsAt(bytes: seq<Byte>, k: nat, max: nat) {
    && k <= max < |bytes|
    && !IsContinuation(bytes[k])
    && forall i :: k < i <= max ==> IsContinuation(bytes[i])
  }

  lemma CutShifts(e: seq<Byte>, rest: seq<Byte>, k: nat, max: nat)
    requires CutsAt(rest, k, max)
    ensures CutsAt(e + rest, |e| + k, |e| + max)
    ensures (e + rest)[..|e| + k] == e + rest[..k]
  {
    forall i | |e| + k < i <= |e| + max
      ensures IsContinuation((e + rest)[i])
    {
      assert (e + rest)[i] == rest[i - |e|];
    }
  }

  // Past the last scalar that fits, the next one's first octet is followed by its continuations.
  lemma {:induction false} CutIsAtFirstOctet(x: seq<Scalar>, max: nat)
    requires |Encode(x)| > max
    ensures CutsAt(Encode(x), |Encode(FitPrefix(x, max))|, max)
    ensures Encode(x)[..|Encode(FitPrefix(x, max))|] == Encode(FitPrefix(x, max))
  {
    var e := EncodeScalar(x[0]);
    if |e| <= max {
      var p := FitPrefix(x[1..], max - |e|);
      CutIsAtFirstOctet(x[1..], max - |e|);
      FirstFits(x, max, e, p);
      CutShifts(e, Encode(x[1..]), |Encode(p)|, max - |e|);
      assert (e + Encode(x[1..]))[..|e| + |Encode(p)|] == e + Encode(x[1..])[..|Encode(p)|];
    } else {
      CutsInFirst(x, max, e);
    }
  }

  lemma FirstFits(x: seq<Scalar>, max: nat, e: seq<Byte>, p: seq<Scalar>)
    requires x != [] && e == EncodeScalar(x[0]) && |e| <= max && p == FitPrefix(x[1..], max - |e|)
    ensures Encode(x) == e + Encode(x[1..]) && Encode(FitPrefix(x, max)) == e + Encode(p)
  {
    assert FitPrefix(x, max)[1..] == p;
  }

  lemma CutsInFirst(x: seq<Scalar>, max: nat, e: seq<Byte>)
    requires x != [] && e == EncodeScalar(x[0]) && |e| > max
    ensures FitPrefix(x, max) == [] && CutsAt(Encode(x), 0, max)
  {
    EncodeScalarShape(x[0]);
  }

  // No prefix that fits is longer.
  lemma {:induction false} FitPrefixIsLongest(x: seq<Scalar>, max: nat, p: seq<Scalar>)
    requires p <= x && |Encode(p)| <= max
    ensures |p| <= |FitPrefix(x, max)|
  {
    if p != [] {
      assert p[0] == x[0] && p[1..] <= x[1..];
      FitPrefixIsLongest(x[1..], max - |EncodeScalar(x[0])|, p[1..]);
    }
  }

  // A clipped string fits, holds no scalar its source does not encode, and differs from it exactly when that
  // did not fit.
  lemma ClippedIsBounded(s: JsString, max: nat)
    ensures Octets(Clipped(s, max)) <= max
    ensures Clipped(s, max) == s <==> Octets(s) <= max
    ensures forall x :: x in ToScalars(Clipped(s, max)) ==> x in ToScalars(s)
  {
    if Octets(s) > max {
      var p := FitPrefix(ToScalars(s), max);
      ToScalarsInverts(DropMark(p));
      if p != [] {
        assert p == [p[0]] + p[1..];
        EncodeConcat([p[0]], p[1..]);
      }
    }
  }

  // The code points of a string, an unpaired surrogate being one of its own.
  function CodePoints(s: JsString): seq<int> {
    if s == [] then []
    else if |s| > 1 && IsLead(s[0]) && IsTrail(s[1]) then
      [0x1_0000 + (s[0] - 0xD800) * 0x400 + (s[1] - 0xDC00)] + CodePoints(s[2..])
    else [s[0]] + CodePoints(s[1..])
  }

  predicate IsSurrogate(x: int) {
    0xD800 <= x < 0xE000
  }

  // Encoding keeps every code point but an unpaired surrogate, which it replaces.
  lemma {:induction false} ScalarsOfCodePoints(s: JsString)
    ensures |ToScalars(s)| == |CodePoints(s)|
    ensures forall i :: 0 <= i < |CodePoints(s)| ==>
              ToScalars(s)[i] == if IsSurrogate(CodePoints(s)[i]) then REPLACEMENT else CodePoints(s)[i]
  {
    if s == [] {
    } else if |s| > 1 && IsLead(s[0]) && IsTrail(s[1]) {
      ScalarsOfCodePoints(s[2..]);
    } else {
      ScalarsOfCodePoints(s[1..]);
    }
  }

  lemma {:induction false} CodePointsOfUnits(x: Scalar, rest: JsString)
    ensures CodePoints(UnitsOf(x) + rest) == [x] + CodePoints(rest)
  {
    var s := UnitsOf(x) + rest;
    if x < 0x1_0000 {
      assert s[1..] == rest;
    } else {
      assert s[2..] == rest;
    }
  }

  lemma {:induction false} CodePointsOfScalars(x: seq<Scalar>)
    ensures CodePoints(FromScalars(x)) == x
  {
    if x != [] {
      CodePointsOfScalars(x[1..]);
      CodePointsOfUnits(x[0], FromScalars(x[1..]));
      assert [x[0]] + x[1..] == x;
    }
  }

  ghost predicate AddsNoCodePoint(s: JsString, r: JsString) {
    forall x :: x in CodePoints(r) ==> x in CodePoints(s)
  }

  // Among the code points of s that fit there is no unpaired surrogate.
  ghost predicate KeepsNoSurrogate(s: JsString, max: nat) {
    forall i :: 0 <= i < |CodePoints(s)| && i < |FitPrefix(ToScalars(s), max)| ==> !IsSurrogate(CodePoints(s)[i])
  }

  // Clipping adds no code point if and only if the string fits, or no unpaired surrogate stands in what is
  // kept of it, or it holds the replacement character anyway.
  lemma ClipAddsNothingIff(s: JsString, max: nat)
    ensures AddsNoCodePoint(s, Clipped(s, max)) <==>
            Octets(s) <= max || REPLACEMENT in CodePoints(s) || KeepsNoSurrogate(s, max)
  {
    if Octets(s) > max {
      var p := FitPrefix(ToScalars(s), max);
      ScalarsOfCodePoints(s);
      CodePointsOfScalars(DropMark(p));
      PrefixAddsNothingIff(CodePoints(s), ToScalars(s), p);
    }
  }

  lemma PrefixAddsNothingIff(points: seq<int>, scalars: seq<Scalar>, p: seq<Scalar>)
    requires |scalars| == |points| && p <= scalars
    requires forall i :: 0 <= i < |points| ==> scalars[i] == if IsSurrogate(points[i]) then REPLACEMENT else points[i]
    ensures (forall x :: x in DropMark(p) ==> x in points) <==>
            REPLACEMENT in points || forall i :: 0 <= i < |points| && i < |p| ==> !IsSurrogate(points[i])
  {
    if i :| 0 <= i < |points| && i < |p| && IsSurrogate(points[i]) {
      assert p[i] == REPLACEMENT;
      var d := DropMark(p);
      assert d == p || d[i - 1] == p[i];
      assert REPLACEMENT in d;
      forall x | x in d && REPLACEMENT in points
        ensures x in points
      {
        var k :| 0 <= k < |p| && p[k] == x;
        assert scalars[k] == x;
      }
    } else {
      forall x | x in DropMark(p)
        ensures x in points
      {
        var k :| 0 <= k < |p| && p[k] == x;
        assert scalars[k] == x == points[k];
      }
    }
  }

  // An unpaired surrogate before the cut comes out as a character the string did not hold.
  lemma UnpairedIsReplaced()
    ensures Clipped([0xD800, 97, 97], 4) == [0xFFFD, 97] && !AddsNoCodePoint([0xD800, 97, 97], [0xFFFD, 97])
  {
    var s, r: JsString := [0xD800, 97, 97], [0xFFFD, 97];
    var x: seq<Scalar> := [REPLACEMENT, 97, 97];
    PlainTail(0xD800, s);
    PlainTail(0xFFFD, x);
    assert FitPrefix([97, 97], 1) == [97] by {
      assert [97, 97][1..] == [97];
    }
    assert FitPrefix(x, 4) == [REPLACEMENT] + [97] == r;
    CodePointsOfScalars([REPLACEMENT, 97]);
    assert FromScalars([REPLACEMENT, 97]) == r by {
      assert [REPLACEMENT, 97][1..] == [97] && [97][1..] == [];
      assert FromScalars([97]) == [97];
    }
    assert 0xFFFD in [REPLACEMENT, 97] && 0xFFFD in CodePoints(r) && 0xFFFD !in CodePoints(s);
  }

  lemma PlainTail(u: Unit, s: JsString)
    requires s == [u, 97, 97]
    ensures s[1..] == [97, 97] && ToScalars([97, 97]) == [97, 97] && CodePoints([97, 97]) == [97, 97]
    ensures |Encode([97, 97])| == 2
  {
    assert [97, 97][1..] == [97] && [97][1..] == [];
    assert ToScalars([97]) == [97] && CodePoints([97]) == [97] && Encode([97]) == [97];
  }

  // ---------------------------------------------------------------- objects

  type Record = seq<Member>

  function Get(r: Record, key: JsString): Value {
    if r == [] then Undefined else if r[0].key == key then r[0].value else Get(r[1..], key)
  }

  // A member keeps its place when it is given a new value; a new one goes last.
  function Set(r: Record, key: JsString, value: Value): Record {
    if r == [] then [Member(key, value)]
    else if r[0].key == key then [Member(key, value)] + r[1..]
    else [r[0]] + Set(r[1..], key, value)
  }

  function Delete(r: Record, key: JsString): Record {
    if r == [] then [] else if r[0].key == key then Delete(r[1..], key) else [r[0]] + Delete(r[1..], key)
  }

  function MemberOf(v: Value, key: JsString): Value {
    if v.Obj? then Get(v.members, key) else Undefined
  }

  function Digits(n: nat): (d: Numeral)
  {
    if n < 10 then [48 + n] else Digits(n / 10) + [48 + n % 10]
  }

  function Indexed(values: seq<Value>, from: nat): Record {
    if values == [] then [] else [Member(Digits(from), values[0])] + Indexed(values[1..], from + 1)
  }

  function UnitStrings(s: JsString): seq<Value> {
    if s == [] then [] else [Str([s[0]])] + UnitStrings(s[1..])
  }

  // What {...value} gives.
  function Spread(v: Value): Record {
    match v
    case Obj(members) => members
    case Arr(items) => Indexed(items, 0)
    case Str(s) => Indexed(UnitStrings(s), 0)
    case _ => []
  }

  // ---------------------------------------------------------------- the bounds

  predicate TextWithin(v: Value, max: nat) {
    v.Str? ==> Octets(v.s) <= max
  }

  // payloadViolation finds nothing: strings within `max`, no value deeper than the limit.
  predicate PayloadWithin(v: Value, max: nat, depth: nat)
    requires depth <= MAX_PAYLOAD_DEPTH + 1
    decreases MAX_PAYLOAD_DEPTH + 1 - depth, 1, 0
  {
    && depth <= MAX_PAYLOAD_DEPTH
    && match v
       case Str(s) => Octets(s) <= max
       case Arr(items) => ItemsWithin(items, max, depth)
       case Obj(members) => MembersWithin(members, max, depth)
       case _ => true
  }

  predicate ItemsWithin(items: seq<Value>, max: nat, depth: nat)
    requires depth <= MAX_PAYLOAD_DEPTH
    decreases MAX_PAYLOAD_DEPTH + 1 - depth, 0, |items|
  {
    items == [] || (PayloadWithin(items[0], max, depth + 1) && ItemsWithin(items[1..], max, depth))
  }

  predicate MembersWithin(members: Record, max: nat, depth: nat)
    requires depth <= MAX_PAYLOAD_DEPTH
    decreases MAX_PAYLOAD_DEPTH + 1 - depth, 0, |members|
  {
    members == [] || (PayloadWithin(members[0].value, max, depth + 1) && MembersWithin(members[1..], max, depth))
  }

  predicate RefsWithin(refs: seq<Value>) {
    refs == [] || (TextWithin(MemberOf(refs[0], VALUE), MAX_REF) && RefsWithin(refs[1..]))
  }

  // The size of the canonical form, or None where canonicalizing refuses.
  function Size(e: Record): Option<nat> {
    match Canon(Obj(e), 0)
    case Refused(_) => None
    case Text(t) => Some(Octets(t))
  }

  // The bounds `bound` enforces member by member.
  predicate MembersBounded(e: Record) {
    && TextWithin(MemberOf(Get(e, ACTOR), LABEL), MAX_LABEL)
    && (Get(e, REFS).Arr? ==> |Get(e, REFS).items| <= MAX_REFS && RefsWithin(Get(e, REFS).items))
    && PayloadWithin(Get(e, PAYLOAD), MAX_PAYLOAD_TEXT, 0)
  }

  // boundsViolation: true exactly when it finds nothing (None: measuring threw).
  function Conforms(e: Record): Option<bool> {
    if !(MembersBounded(e) &&
         TextWithin(MemberOf(Get(e, ACTOR), EXTERNAL_ID), MAX_LABEL) &&
         TextWithin(Get(e, SOURCE), MAX_LABEL) && TextWithin(Get(e, KIND), MAX_LABEL)) then Some(false)
    else
      var size :- Size(e);
      Some(size <= MAX_ENVELOPE_OCTETS)
  }

  // ---------------------------------------------------------------- bounding a payload

  datatype Bounded = Bounded(value: Value, clipped: bool)

  function LengthOf(v: Value): Value
    requires v.Str?
  {
    Num(Finite(Digits(Octets(v.s))))
  }

  function BoundedValue(v: Value, budget: nat, depth: nat): Bounded
    requires depth <= MAX_PAYLOAD_DEPTH
    decreases MAX_PAYLOAD_DEPTH + 1 - depth, 1, 0
  {
    match v
    case Str(s) => Bounded(Str(Clipped(s, budget)), Clipped(s, budget) != s)
    case Arr(items) =>
      if depth == MAX_PAYLOAD_DEPTH then Bounded(Arr([]), items != [])
      else
        var (out, clipped) := BoundedItems(items, budget, depth);
        Bounded(Arr(out), clipped)
    case Obj(members) =>
      if depth == MAX_PAYLOAD_DEPTH then Bounded(Obj([]), members != [])
      else
        var (out, clipped) := BoundedMembers(members, budget, depth, []);
        Bounded(Obj(out), clipped)
    case _ => Bounded(v, false)
  }

  function BoundedItems(items: seq<Value>, budget: nat, depth: nat): (seq<Value>, bool)
    requires depth < MAX_PAYLOAD_DEPTH
    decreases MAX_PAYLOAD_DEPTH + 1 - depth, 0, |items|
  {
    if items == [] then ([], false)
    else
      var head := BoundedValue(items[0], budget, depth + 1);
      var (rest, clipped) := BoundedItems(items[1..], budget, depth);
      ([head.value] + rest, head.clipped || clipped)
  }

  // What one member adds to the object being built: its bounded value, and its length if a string was cut.
  function WithMember(out: Record, m: Member, b: Bounded): Record {
    var out' := Set(out, m.key, b.value);
    if b.clipped && m.value.Str? then Set(out', m.key + LENGTH_SUFFIX, LengthOf(m.value)) else out'
  }

  function BoundedMembers(members: Record, budget: nat, depth: nat, out: Record): (Record, bool)
    requires depth < MAX_PAYLOAD_DEPTH
    decreases MAX_PAYLOAD_DEPTH + 1 - depth, 0, |members|
  {
    if members == [] then (out, false)
    else
      var b := BoundedValue(members[0].value, budget, depth + 1);
      var (all, clipped) := BoundedMembers(members[1..], budget, depth, WithMember(out, members[0], b));
      (all, b.clipped || clipped)
  }

  method BoundPayload(value: Value, budget: nat, depth: nat) returns (r: Bounded)
    requires depth <= MAX_PAYLOAD_DEPTH
    ensures r == BoundedValue(value, budget, depth)
    decreases MAX_PAYLOAD_DEPTH + 1 - depth, 1
  {
    match value
    case Str(s) =>
      var out := Clip(s, budget);
      r := Bounded(Str(out), out != s);
    case Arr(items) =>
      if depth >= MAX_PAYLOAD_DEPTH {
        return Bounded(Arr([]), items != []);
      }
      var out, clipped := BoundItems(items, budget, depth);
      r := Bounded(Arr(out), clipped);
    case Obj(members) =>
      if depth >= MAX_PAYLOAD_DEPTH {
        return Bounded(Obj([]), members != []);
      }
      var out, clipped := BoundMembers(members, budget, depth);
      r := Bounded(Obj(out), clipped);
    case _ => r := Bounded(value, false);
  }

  lemma ItemsFrom(items: seq<Value>, i: nat, budget: nat, depth: nat)
    requires depth < MAX_PAYLOAD_DEPTH && i < |items|
    ensures var head, rest := BoundedValue(items[i], budget, depth + 1), BoundedItems(items[i + 1..], budget, depth);
      && BoundedItems(items[i..], budget, depth).0 == [head.value] + rest.0
      && BoundedItems(items[i..], budget, depth).1 == (head.clipped || rest.1)
  {
    assert items[i..][0] == items[i] && items[i..][1..] == items[i + 1..];
  }

  method BoundItems(items: seq<Value>, budget: nat, depth: nat) returns (out: seq<Value>, clipped: bool)
    requires depth < MAX_PAYLOAD_DEPTH
    ensures out == BoundedItems(items, budget, depth).0 && clipped == BoundedItems(items, budget, depth).1
    decreases MAX_PAYLOAD_DEPTH + 1 - depth, 0
  {
    out, clipped := [], false;
    ghost var whole := BoundedItems(items, budget, depth);
    ghost var left := whole;
    assert items[0..] == items;
    for i := 0 to |items|
      invariant left == BoundedItems(items[i..], budget, depth)
      invariant out + left.0 == whole.0 && (clipped || left.1) == whole.1
    {
      ItemsFrom(items, i, budget, depth);
      left := BoundedItems(items[i + 1..], budget, depth);
      var b := BoundPayload(items[i], budget, depth + 1);
      clipped := clipped || b.clipped;
      out := out + [b.value];
    }
  }

  lemma MembersFrom(members: Record, i: nat, budget: nat, depth: nat, out: Record, b: Bounded)
    requires depth < MAX_PAYLOAD_DEPTH && i < |members| && b == BoundedValue(members[i].value, budget, depth + 1)
    ensures var rest := BoundedMembers(members[i + 1..], budget, depth, WithMember(out, members[i], b));
      && BoundedMembers(members[i..], budget, depth, out).0 == rest.0
      && BoundedMembers(members[i..], budget, depth, out).1 == (b.clipped || rest.1)
  {
    assert members[i..][0] == members[i] && members[i..][1..] == members[i + 1..];
  }

  method BoundMembers(members: Record, budget: nat, depth: nat) returns (out: Record, clipped: bool)
    requires depth < MAX_PAYLOAD_DEPTH
    ensures out == BoundedMembers(members, budget, depth, []).0
    ensures clipped == BoundedMembers(members, budget, depth, []).1
    decreases MAX_PAYLOAD_DEPTH + 1 - depth, 0
  {
    out, clipped := [], false;
    ghost var whole := BoundedMembers(members, budget, depth, []);
    ghost var left := whole;
    assert members[0..] == members;
    for i := 0 to |members|
      invariant left == BoundedMembers(members[i..], budget, depth, out)
      invariant left.0 == whole.0 && (clipped || left.1) == whole.1
    {
      var b := BoundPayload(members[i].value, budget, depth + 1);
      MembersFrom(members, i, budget, depth, out, b);
      ghost var out' := WithMember(out, members[i], b);
      left := BoundedMembers(members[i + 1..], budget, depth, out');
      out := Set(out, members[i].key, b.value);
      if b.clipped {
        clipped := true;
        if members[i].value.Str? {
          out := Set(out, members[i].key + LENGTH_SUFFIX, LengthOf(members[i].value));
        }
      }
      assert out == out';
    }
  }
}
