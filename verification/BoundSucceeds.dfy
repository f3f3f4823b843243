/**
 * When `bound` of packages/envelope/src/bounds.ts fails: exactly when its first pass leaves something that
 * is not JSON. No later stage makes a value the canonical form refuses, and none does on an envelope that
 * is JSON.
 */
module BoundSucceeds {
  import opened Prelude
  import opened Utf16
  import opened Utf8
  import opened Jcs
  import opened JcsReader
  import opened Bounds
  import opened BoundEnvelope

  // A member's value JSON can carry, nesting at most d levels, or no member at all.
  predicate Light(v: Value, d: nat) {
    v.Undefined? || (Supported(v) && Depth(v) <= d)
  }

  predicate AllLight(r: Record, d: nat) {
    forall i :: 0 <= i < |r| ==> Light(r[i].value, d)
  }

  predicate ItemsLight(items: seq<Value>, d: nat) {
    forall i :: 0 <= i < |items| ==> Supported(items[i]) && Depth(items[i]) <= d
  }

  // An envelope that is JSON: every member JSON can carry, and the whole no deeper than the canonical form allows.
  predicate IsJson(e: Record) {
    AllLight(e, MAX_DEPTH - 1)
  }

  lemma {:induction false} MembersLightIff(r: Record, d: nat)
    ensures AllLight(r, d) <==> SupportedMembers(r) && MembersDepth(r) <= d + 1
  {
    if r != [] {
      MembersLightIff(r[1..], d);
      assert AllLight(r, d) <==> Light(r[0].value, d) && AllLight(r[1..], d) by {
        assert r == [r[0]] + r[1..];
      }
    }
  }

  lemma {:induction false} ItemsLightIff(items: seq<Value>, d: nat)
    ensures ItemsLight(items, d) <==> SupportedItems(items) && ItemsDepth(items) <= d + 1
  {
    if items != [] {
      ItemsLightIff(items[1..], d);
      assert ItemsLight(items, d) <==> Supported(items[0]) && Depth(items[0]) <= d && ItemsLight(items[1..], d) by {
        assert items == [items[0]] + items[1..];
      }
    }
  }

  // Being JSON is having a size.
  lemma JsonIsSized(e: Record)
    ensures IsJson(e) <==> TooBig(e).Some?
  {
    AcceptedIff(Obj(e), 0);
    MembersLightIff(e, MAX_DEPTH - 1);
  }

  lemma {:induction false} SetIsLight(r: Record, key: JsString, v: Value, d: nat)
    requires AllLight(r, d) && Light(v, d)
    ensures AllLight(Set(r, key, v), d)
  {
    if r != [] && r[0].key != key {
      SetIsLight(r[1..], key, v, d);
    }
  }

  lemma {:induction false} GetIsLight(r: Record, key: JsString, d: nat)
    requires AllLight(r, d)
    ensures Light(Get(r, key), d)
  {
    if r != [] && r[0].key != key {
      GetIsLight(r[1..], key, d);
    }
  }

  lemma DeleteIsLight(r: Record, key: JsString, d: nat)
    requires AllLight(r, d)
    ensures AllLight(Delete(r, key), d)
  {
    DeleteKeys(r, key);
    forall i | 0 <= i < |Delete(r, key)|
      ensures Light(Delete(r, key)[i].value, d)
    {
      assert Delete(r, key)[i] in r;
    }
  }

  // ---------------------------------------------------------------- payloads

  // A bounded payload is as deep as its bound at most, however deep it came.
  lemma {:induction false} BoundedIsLight(v: Value, budget: nat, depth: nat)
    requires depth <= MAX_PAYLOAD_DEPTH && (v.Undefined? || Supported(v))
    ensures var r := BoundedValue(v, budget, depth).value;
      Light(r, MAX_PAYLOAD_DEPTH - depth) && (r.Undefined? <==> v.Undefined?)
    decreases MAX_PAYLOAD_DEPTH + 1 - depth, 1, 0
  {
    match v
    case Arr(items) =>
      if depth < MAX_PAYLOAD_DEPTH {
        BoundedItemsAreLight(items, budget, depth);
        ItemsLightIff(BoundedItems(items, budget, depth).0, MAX_PAYLOAD_DEPTH - depth - 1);
      }
    case Obj(members) =>
      if depth < MAX_PAYLOAD_DEPTH {
        BoundedMembersAreLight(members, budget, depth, []);
        MembersLightIff(BoundedMembers(members, budget, depth, []).0, MAX_PAYLOAD_DEPTH - depth - 1);
      }
    case _ =>
  }

  lemma {:induction false} BoundedItemsAreLight(items: seq<Value>, budget: nat, depth: nat)
    requires depth < MAX_PAYLOAD_DEPTH && SupportedItems(items)
    ensures ItemsLight(BoundedItems(items, budget, depth).0, MAX_PAYLOAD_DEPTH - depth - 1)
    decreases MAX_PAYLOAD_DEPTH + 1 - depth, 0, |items|
  {
    if items != [] {
      BoundedIsLight(items[0], budget, depth + 1);
      BoundedItemsAreLight(items[1..], budget, depth);
    }
  }

  lemma {:induction false} BoundedMembersAreLight(members: Record, budget: nat, depth: nat, out: Record)
    requires depth < MAX_PAYLOAD_DEPTH && SupportedMembers(members)
    requires AllLight(out, MAX_PAYLOAD_DEPTH - depth - 1)
    ensures AllLight(BoundedMembers(members, budget, depth, out).0, MAX_PAYLOAD_DEPTH - depth - 1)
    decreases MAX_PAYLOAD_DEPTH + 1 - depth, 0, |members|
  {
    if members != [] {
      var m, d := members[0], MAX_PAYLOAD_DEPTH - depth - 1;
      var b := BoundedValue(m.value, budget, depth + 1);
      BoundedIsLight(m.value, budget, depth + 1);
      SetIsLight(out, m.key, b.value, d);
      if m.value.Str? {
        SetIsLight(Set(out, m.key, b.value), m.key + LENGTH_SUFFIX, LengthOf(m.value), d);
      }
      BoundedMembersAreLight(members[1..], budget, depth, WithMember(out, m, b));
    }
  }

  lemma WithPayloadIsJson(e: Record, payload: Value, budget: nat)
    requires IsJson(e) && Light(BoundedValue(payload, budget, 0).value, MAX_PAYLOAD_DEPTH)
    ensures IsJson(WithPayload(e, payload, budget))
    ensures Get(WithPayload(e, payload, budget), PAYLOAD) == BoundedValue(payload, budget, 0).value
  {
    var v := BoundedValue(payload, budget, 0).value;
    SetIsLight(e, PAYLOAD, v, MAX_DEPTH - 1);
    GetOfSet(e, PAYLOAD, PAYLOAD, v);
  }

  // ---------------------------------------------------------------- one allowance and a smaller one

  predicate Fine(v: Value) {
    v.Undefined? || Supported(v)
  }

  // A bounded payload nests at most eight levels, whatever it holds.
  lemma {:induction false} BoundedIsShallow(v: Value, budget: nat, depth: nat)
    requires depth <= MAX_PAYLOAD_DEPTH
    ensures Depth(BoundedValue(v, budget, depth).value) <= MAX_PAYLOAD_DEPTH - depth
    decreases MAX_PAYLOAD_DEPTH + 1 - depth, 1, 0
  {
    match v
    case Arr(items) =>
      if depth < MAX_PAYLOAD_DEPTH {
        BoundedItemsAreShallow(items, budget, depth);
      }
    case Obj(members) =>
      if depth < MAX_PAYLOAD_DEPTH {
        BoundedMembersAreShallow(members, budget, depth, []);
      }
    case _ =>
  }

  lemma {:induction false} BoundedItemsAreShallow(items: seq<Value>, budget: nat, depth: nat)
    requires depth < MAX_PAYLOAD_DEPTH
    ensures ItemsDepth(BoundedItems(items, budget, depth).0) <= MAX_PAYLOAD_DEPTH - depth
    decreases MAX_PAYLOAD_DEPTH + 1 - depth, 0, |items|
  {
    if items != [] {
      BoundedIsShallow(items[0], budget, depth + 1);
      BoundedItemsAreShallow(items[1..], budget, depth);
      assert BoundedItems(items, budget, depth).0[1..] == BoundedItems(items[1..], budget, depth).0;
    }
  }

  lemma {:induction false} SetIsShallow(r: Record, key: JsString, v: Value, d: nat)
    requires MembersDepth(r) <= d && 1 + Depth(v) <= d
    ensures MembersDepth(Set(r, key, v)) <= d
  {
    if r == [] {
      assert [Member(key, v)][1..] == [];
    } else if r[0].key == key {
      assert ([Member(key, v)] + r[1..])[1..] == r[1..];
    } else {
      SetIsShallow(r[1..], key, v, d);
      assert ([r[0]] + Set(r[1..], key, v))[1..] == Set(r[1..], key, v);
    }
  }

  lemma {:induction false} BoundedMembersAreShallow(members: Record, budget: nat, depth: nat, out: Record)
    requires depth < MAX_PAYLOAD_DEPTH && MembersDepth(out) <= MAX_PAYLOAD_DEPTH - depth
    ensures MembersDepth(BoundedMembers(members, budget, depth, out).0) <= MAX_PAYLOAD_DEPTH - depth
    decreases MAX_PAYLOAD_DEPTH + 1 - depth, 0, |members|
  {
    if members != [] {
      var m, d := members[0], MAX_PAYLOAD_DEPTH - depth;
      var b := BoundedValue(m.value, budget, depth + 1);
      BoundedIsShallow(m.value, budget, depth + 1);
      SetIsShallow(out, m.key, b.value, d);
      if m.value.Str? {
        SetIsShallow(Set(out, m.key, b.value), m.key + LENGTH_SUFFIX, LengthOf(m.value), d);
      }
      BoundedMembersAreShallow(members[1..], budget, depth, WithMember(out, m, b));
    }
  }

  ghost predicate UniqueKeys(r: Record) {
    forall i, j :: 0 <= i < j < |r| ==> r[i].key != r[j].key
  }

  lemma {:induction false} SetKeepsUnique(r: Record, key: JsString, v: Value)
    requires UniqueKeys(r)
    ensures UniqueKeys(Set(r, key, v))
    ensures forall m :: m in Set(r, key, v) ==> m.key == key || m in r
  {
    if r != [] && r[0].key != key {
      var tail := Set(r[1..], key, v);
      SetKeepsUnique(r[1..], key, v);
      forall j | 0 <= j < |tail|
        ensures tail[j].key != r[0].key
      {
        assert tail[j] in tail;
        if tail[j].key != key {
          var k :| 0 <= k < |r[1..]| && r[1..][k] == tail[j];
          assert r[k + 1] == tail[j];
        }
      }
    }
  }

  // With one member to a key, the members are fine when what is read under every key is.
  lemma {:induction false} AllFine(r: Record)
    requires UniqueKeys(r) && forall key :: Fine(Get(r, key))
    ensures SupportedMembers(r)
  {
    if r != [] {
      assert Fine(Get(r, r[0].key));
      forall key
        ensures Fine(Get(r[1..], key))
      {
        if key == r[0].key {
          NotAmong(r[1..], key);
        } else {
          assert Get(r, key) == Get(r[1..], key);
        }
      }
      AllFine(r[1..]);
    }
  }

  lemma {:induction false} NotAmong(r: Record, key: JsString)
    requires forall i :: 0 <= i < |r| ==> r[i].key != key
    ensures Get(r, key) == Undefined
  {
    if r != [] {
      NotAmong(r[1..], key);
    }
  }

  lemma {:induction false} GetIsFine(r: Record, key: JsString)
    requires SupportedMembers(r)
    ensures Fine(Get(r, key))
  {
    if r != [] && r[0].key != key {
      GetIsFine(r[1..], key);
    }
  }

  // Whatever key is fine in the first is fine in the second.
  ghost predicate Tracks(x: Record, y: Record) {
    forall key :: Fine(Get(x, key)) ==> Fine(Get(y, key))
  }

  // What is fine at one allowance is fine at every smaller one: a string that is cut anyway is cut again, and
  // the length written beside it is always a number.
  lemma {:induction false} SmallerIsFine(v: Value, large: nat, small: nat, depth: nat)
    requires depth <= MAX_PAYLOAD_DEPTH && small <= large
    ensures Fine(BoundedValue(v, large, depth).value) ==> Fine(BoundedValue(v, small, depth).value)
    ensures BoundedValue(v, large, depth).value.Undefined? <==> BoundedValue(v, small, depth).value.Undefined?
    ensures v.Str? && BoundedValue(v, large, depth).clipped ==> BoundedValue(v, small, depth).clipped
    decreases MAX_PAYLOAD_DEPTH + 1 - depth, 1, 0
  {
    match v
    case Str(s) =>
      ClippedIsBounded(s, large);
      ClippedIsBounded(s, small);
    case Arr(items) =>
      if depth < MAX_PAYLOAD_DEPTH {
        SmallerItemsAreFine(items, large, small, depth);
      }
    case Obj(members) =>
      if depth < MAX_PAYLOAD_DEPTH {
        SmallerMembersAreFine(members, large, small, depth, [], []);
      }
    case _ =>
  }

  lemma {:induction false} SmallerItemsAreFine(items: seq<Value>, large: nat, small: nat, depth: nat)
    requires depth < MAX_PAYLOAD_DEPTH && small <= large
    ensures SupportedItems(BoundedItems(items, large, depth).0) ==> SupportedItems(BoundedItems(items, small, depth).0)
    decreases MAX_PAYLOAD_DEPTH + 1 - depth, 0, |items|
  {
    if items != [] {
      SmallerIsFine(items[0], large, small, depth + 1);
      SmallerItemsAreFine(items[1..], large, small, depth);
      assert BoundedItems(items, large, depth).0[1..] == BoundedItems(items[1..], large, depth).0;
      assert BoundedItems(items, small, depth).0[1..] == BoundedItems(items[1..], small, depth).0;
    }
  }

  lemma {:induction false} SmallerMembersAreFine(members: Record, large: nat, small: nat, depth: nat,
                                                 x: Record, y: Record)
    requires depth < MAX_PAYLOAD_DEPTH && small <= large && Tracks(x, y) && UniqueKeys(y)
    ensures SupportedMembers(BoundedMembers(members, large, depth, x).0) ==>
            SupportedMembers(BoundedMembers(members, small, depth, y).0)
    decreases MAX_PAYLOAD_DEPTH + 1 - depth, 0, |members|
  {
    if members == [] {
      if SupportedMembers(x) {
        forall key
          ensures Fine(Get(y, key))
        {
          GetIsFine(x, key);
        }
        AllFine(y);
      }
    } else {
      var m := members[0];
      var b, c := BoundedValue(m.value, large, depth + 1), BoundedValue(m.value, small, depth + 1);
      SmallerIsFine(m.value, large, small, depth + 1);
      MemberTracks(x, y, m, b, c);
      SmallerMembersAreFine(members[1..], large, small, depth, WithMember(x, m, b), WithMember(y, m, c));
    }
  }

  lemma MemberTracks(x: Record, y: Record, m: Member, b: Bounded, c: Bounded)
    requires Tracks(x, y) && UniqueKeys(y)
    requires (Fine(b.value) ==> Fine(c.value)) && (m.value.Str? && b.clipped ==> c.clipped)
    ensures Tracks(WithMember(x, m, b), WithMember(y, m, c)) && UniqueKeys(WithMember(y, m, c))
  {
    SetKeepsUnique(y, m.key, c.value);
    if m.value.Str? {
      SetKeepsUnique(Set(y, m.key, c.value), m.key + LENGTH_SUFFIX, LengthOf(m.value));
    }
    forall key | Fine(Get(WithMember(x, m, b), key))
      ensures Fine(Get(WithMember(y, m, c), key))
    {
      GetOfMember(x, m, b, key);
      GetOfMember(y, m, c, key);
    }
  }

  lemma GetOfMember(r: Record, m: Member, b: Bounded, key: JsString)
    ensures Get(WithMember(r, m, b), key) ==
            if b.clipped && m.value.Str? && key == m.key + LENGTH_SUFFIX then LengthOf(m.value)
            else if key == m.key then b.value else Get(r, key)
  {
    GetOfSet(r, m.key, key, b.value);
    if m.value.Str? {
      GetOfSet(Set(r, m.key, b.value), m.key + LENGTH_SUFFIX, key, LengthOf(m.value));
    }
  }

  // The payload is JSON at every allowance.
  ghost predicate Boundable(payload: Value) {
    forall budget: nat :: budget <= MAX_PAYLOAD_TEXT ==>
      Light(BoundedValue(payload, budget, 0).value, MAX_PAYLOAD_DEPTH)
  }

  lemma FineIsBoundable(payload: Value)
    requires Fine(BoundedValue(payload, MAX_PAYLOAD_TEXT, 0).value)
    ensures Boundable(payload)
  {
    forall budget: nat | budget <= MAX_PAYLOAD_TEXT
      ensures Light(BoundedValue(payload, budget, 0).value, MAX_PAYLOAD_DEPTH)
    {
      SmallerIsFine(payload, MAX_PAYLOAD_TEXT, budget, 0);
      BoundedIsShallow(payload, budget, 0);
    }
  }

  // ---------------------------------------------------------------- the first pass

  lemma TextInside(members: Record, key: JsString, s: JsString, d: nat)
    requires d > 0 && Light(Obj(members), d)
    ensures Light(Obj(Set(members, key, Str(s))), d)
  {
    MembersLightIff(members, d - 1);
    SetIsLight(members, key, Str(s), d - 1);
    MembersLightIff(Set(members, key, Str(s)), d - 1);
  }

  lemma LabelIsJson(e: Record)
    requires IsJson(e)
    ensures IsJson(ClippedLabel(e))
  {
    var actor := Get(e, ACTOR);
    GetIsLight(e, ACTOR, MAX_DEPTH - 1);
    if actor.Obj? && Get(actor.members, LABEL).Str? {
      var shown := Clipped(Get(actor.members, LABEL).s, MAX_LABEL);
      TextInside(actor.members, LABEL, shown, MAX_DEPTH - 1);
      SetIsLight(e, ACTOR, Obj(Set(actor.members, LABEL, Str(shown))), MAX_DEPTH - 1);
    }
  }

  lemma {:induction false} ClippedRefsAreLight(refs: seq<Value>, d: nat)
    requires ItemsLight(refs, d) && d > 0
    ensures ItemsLight(ClippedRefs(refs), d)
  {
    if refs != [] {
      var ref := refs[0];
      if ref.Obj? && Get(ref.members, VALUE).Str? {
        TextInside(ref.members, VALUE, Clipped(Get(ref.members, VALUE).s, MAX_REF), d);
      }
      ClippedRefsAreLight(refs[1..], d);
    }
  }

  lemma RefsAreJson(e: Record)
    requires IsJson(e)
    ensures IsJson(BoundedRefs(e))
  {
    var refs := Get(e, REFS);
    GetIsLight(e, REFS, MAX_DEPTH - 1);
    if refs.Arr? {
      var kept := refs.items[..Min(MAX_REFS, |refs.items|)];
      ItemsLightIff(refs.items, MAX_DEPTH - 2);
      ClippedRefsAreLight(kept, MAX_DEPTH - 2);
      ItemsLightIff(ClippedRefs(kept), MAX_DEPTH - 2);
      SetIsLight(e, REFS, Arr(ClippedRefs(kept)), MAX_DEPTH - 1);
    }
  }

  lemma FirstPassIsJson(candidate: Record)
    requires IsJson(candidate)
    ensures IsJson(FirstPass(candidate))
  {
    LabelIsJson(candidate);
    RefsAreJson(ClippedLabel(candidate));
    GetIsLight(candidate, PAYLOAD, MAX_DEPTH - 1);
    BoundedIsLight(Get(candidate, PAYLOAD), MAX_PAYLOAD_TEXT, 0);
    WithPayloadIsJson(BoundedRefs(ClippedLabel(candidate)), Get(candidate, PAYLOAD), MAX_PAYLOAD_TEXT);
  }

  // ---------------------------------------------------------------- the reductions

  // The payload an envelope carries through the reductions: one that was bounded.
  ghost predicate Carries(e: Record, payload: Value) {
    IsJson(e) && Boundable(payload) &&
    exists budget: nat :: budget <= MAX_PAYLOAD_TEXT && Get(e, PAYLOAD) == BoundedValue(payload, budget, 0).value
  }

  lemma {:induction false} HalvingSucceeds(e: Record, payload: Value, budget: nat)
    requires Carries(e, payload) && budget <= MAX_PAYLOAD_TEXT
    ensures Halve(e, payload, budget).Some? && Carries(Halve(e, payload, budget).value.0, payload)
    decreases budget
  {
    JsonIsSized(e);
    HalveOnce(e, payload, budget, TooBig(e).value);
    if TooBig(e).value && budget > SMALLEST_BUDGET {
      WithPayloadIsJson(e, payload, budget / 2);
      HalvingSucceeds(WithPayload(e, payload, budget / 2), payload, budget / 2);
    }
  }

  lemma {:induction false} IndexedIsLight(values: seq<Value>, from: nat, d: nat)
    requires ItemsLight(values, d)
    ensures AllLight(Indexed(values, from), d)
  {
    if values != [] {
      IndexedIsLight(values[1..], from + 1, d);
    }
  }

  lemma {:induction false} UnitStringsAreLight(s: JsString)
    ensures ItemsLight(UnitStrings(s), 0)
  {
    if s != [] {
      UnitStringsAreLight(s[1..]);
    }
  }

  lemma SpreadIsLight(v: Value, d: nat)
    requires Light(v, d + 1)
    ensures AllLight(Spread(v), d)
  {
    match v
    case Obj(members) => MembersLightIff(members, d);
    case Arr(items) =>
      ItemsLightIff(items, d);
      IndexedIsLight(items, 0, d);
    case Str(s) =>
      UnitStringsAreLight(s);
      IndexedIsLight(UnitStrings(s), 0, 0);
    case _ =>
  }

  lemma ObjectIsLight(r: Record, d: nat)
    requires AllLight(r, d)
    ensures Light(Obj(r), d + 1)
  {
    MembersLightIff(r, d);
  }

  lemma {:induction false} DroppingSucceeds(e: Record, payload: Record, keys: seq<JsString>)
    requires IsJson(e) && AllLight(payload, MAX_PAYLOAD_DEPTH)
    ensures DropMembers(e, payload, keys).Some? && AllLight(DropMembers(e, payload, keys).value, MAX_PAYLOAD_DEPTH)
    decreases |keys|
  {
    if keys != [] {
      var e' := Set(e, PAYLOAD, Obj(payload));
      ObjectIsLight(payload, MAX_PAYLOAD_DEPTH);
      SetIsLight(e, PAYLOAD, Obj(payload), MAX_DEPTH - 1);
      JsonIsSized(e');
      DeleteIsLight(payload, keys[0], MAX_PAYLOAD_DEPTH);
      DeleteIsLight(Delete(payload, keys[0]), keys[0] + LENGTH_SUFFIX, MAX_PAYLOAD_DEPTH);
      DroppingSucceeds(e, Drop(payload, keys[0]), keys[1..]);
    }
  }

  lemma EmptyingSucceeds(e: Record, payload: Value)
    requires Carries(e, payload)
    ensures Emptied(e).Some? && IsJson(Emptied(e).value)
  {
    JsonIsSized(e);
    if TooBig(e).value {
      var budget: nat :| budget <= MAX_PAYLOAD_TEXT && Get(e, PAYLOAD) == BoundedValue(payload, budget, 0).value;
      var reduced := Spread(Get(e, PAYLOAD));
      SpreadIsLight(Get(e, PAYLOAD), MAX_PAYLOAD_DEPTH);
      var keys := KeysBackwards(Sort(reduced));
      DroppingSucceeds(e, reduced, keys);
      var left := DropMembers(e, reduced, keys).value;
      ObjectIsLight(left, MAX_PAYLOAD_DEPTH);
      SetIsLight(e, PAYLOAD, Obj(left), MAX_DEPTH - 1);
    }
  }

  lemma FewerRefsIsJson(e: Record, n: nat)
    requires IsJson(e) && n <= RefCount(e)
    ensures IsJson(WithRefs(e, n))
  {
    GetIsLight(e, REFS, MAX_DEPTH - 1);
    if n < RefCount(e) {
      var items := Get(e, REFS).items;
      ItemsLightIff(items, MAX_DEPTH - 2);
      ItemsLightIff(items[..n], MAX_DEPTH - 2);
      SetIsLight(e, REFS, Arr(items[..n]), MAX_DEPTH - 1);
    }
  }

  lemma {:induction false} DroppingRefsSucceeds(e: Record, n: nat)
    requires IsJson(e) && n == RefCount(e)
    ensures DropRefs(e, n).Some?
    decreases n
  {
    JsonIsSized(e);
    DropOneRef(e, n, TooBig(e).value);
    if TooBig(e).value && n > 0 {
      FewerRefsIsJson(e, n - 1);
      DroppingRefsSucceeds(WithRefs(e, n - 1), n - 1);
    }
  }

  lemma FirstPassCarries(candidate: Record)
    requires IsJson(FirstPass(candidate))
    ensures Carries(FirstPass(candidate), Get(candidate, PAYLOAD))
  {
    var first, payload := FirstPass(candidate), Get(candidate, PAYLOAD);
    var v := BoundedValue(payload, MAX_PAYLOAD_TEXT, 0).value;
    GetOfSet(BoundedRefs(ClippedLabel(candidate)), PAYLOAD, PAYLOAD, v);
    GetIsLight(first, PAYLOAD, MAX_DEPTH - 1);
    FineIsBoundable(payload);
  }

  // An envelope comes out bounded if and only if what the first pass makes of it is JSON: no later stage throws.
  lemma BoundsIff(candidate: Record)
    ensures Form(candidate).Some? <==> IsJson(FirstPass(candidate))
    ensures Cut(candidate).Some? <==> IsJson(FirstPass(candidate))
  {
    var first, payload := FirstPass(candidate), Get(candidate, PAYLOAD);
    JsonIsSized(first);
    if IsJson(first) {
      FirstPassCarries(candidate);
      HalvingSucceeds(first, payload, MAX_PAYLOAD_TEXT);
      var halved := Halve(first, payload, MAX_PAYLOAD_TEXT).value.0;
      EmptyingSucceeds(halved, payload);
      DroppingRefsSucceeds(Emptied(halved).value, RefCount(Emptied(halved).value));
    }
  }

  // Every envelope that is JSON comes out bounded.
  lemma JsonIsBounded(candidate: Record)
    requires IsJson(candidate)
    ensures Form(candidate).Some? && Cut(candidate).Some?
  {
    FirstPassIsJson(candidate);
    BoundsIff(candidate);
  }

  lemma {:induction false} SetsCommute(r: Record, k: JsString, v: Value, l: JsString, w: Value)
    requires k != l && !Get(r, k).Undefined?
    ensures Set(Set(r, l, w), k, v) == Set(Set(r, k, v), l, w)
  {
    if r != [] && r[0].key != k {
      if r[0].key == l {
        assert ([Member(l, w)] + r[1..])[1..] == r[1..];
        assert ([r[0]] + Set(r[1..], k, v))[1..] == Set(r[1..], k, v);
      } else {
        SetsCommute(r[1..], k, v, l, w);
        assert ([r[0]] + Set(r[1..], l, w))[1..] == Set(r[1..], l, w);
        assert ([r[0]] + Set(r[1..], k, v))[1..] == Set(r[1..], k, v);
      }
    } else if r != [] {
      assert ([r[0]] + Set(r[1..], l, w))[1..] == Set(r[1..], l, w);
      assert ([Member(k, v)] + r[1..])[1..] == r[1..];
    }
  }

  // Bounding label and refs does not look at the payload.
  lemma PayloadApart(e: Record, payload: Value)
    ensures ClippedLabel(Set(e, PAYLOAD, payload)) == Set(ClippedLabel(e), PAYLOAD, payload)
    ensures BoundedRefs(Set(e, PAYLOAD, payload)) == Set(BoundedRefs(e), PAYLOAD, payload)
  {
    GetOfSet(e, PAYLOAD, ACTOR, payload);
    GetOfSet(e, PAYLOAD, REFS, payload);
    var actor, refs := Get(e, ACTOR), Get(e, REFS);
    if actor.Obj? && Get(actor.members, LABEL).Str? {
      var shown := Clipped(Get(actor.members, LABEL).s, MAX_LABEL);
      SetsCommute(e, ACTOR, Obj(Set(actor.members, LABEL, Str(shown))), PAYLOAD, payload);
    }
    if refs.Arr? {
      SetsCommute(e, REFS, Arr(ClippedRefs(refs.items[..Min(MAX_REFS, |refs.items|)])), PAYLOAD, payload);
    }
  }

  // So does one that is JSON but for a payload that nests too deep, however deep it nests: the first pass
  // cuts it.
  lemma DeepPayloadIsBounded(candidate: Record, payload: Value)
    requires IsJson(candidate) && Supported(payload)
    ensures Form(Set(candidate, PAYLOAD, payload)).Some?
  {
    var deep, e := Set(candidate, PAYLOAD, payload), BoundedRefs(ClippedLabel(candidate));
    PayloadApart(candidate, payload);
    PayloadApart(ClippedLabel(candidate), payload);
    GetOfSet(candidate, PAYLOAD, PAYLOAD, payload);
    SetTwice(e, PAYLOAD, payload, BoundedValue(payload, MAX_PAYLOAD_TEXT, 0).value);
    BoundedIsLight(payload, MAX_PAYLOAD_TEXT, 0);
    LabelIsJson(candidate);
    RefsAreJson(ClippedLabel(candidate));
    WithPayloadIsJson(e, payload, MAX_PAYLOAD_TEXT);
    BoundsIff(deep);
  }
}
