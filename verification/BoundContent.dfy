/**
 * What a bounded envelope says: which strings are cut and to what, what number stands beside a cut string,
 * what is kept of label and refs, and in which order payload members go.
 */
module BoundContent {
  import opened Prelude
  import opened Utf16
  import opened Utf8
  import opened Jcs
  import opened JcsReader
  import opened Bounds
  import opened BoundEnvelope
  import opened BoundSucceeds

  // ---------------------------------------------------------------- numbers

  predicate IsDigit(u: Unit) {
    48 <= u <= 57
  }

  // The value of a run of decimal digits.
  function ValueOf(d: JsString): int {
    if d == [] then 0 else 10 * ValueOf(d[..|d| - 1]) + (d[|d| - 1] as int) - 48
  }

  // The number n, written in decimal without a leading zero.
  ghost predicate SaysNumber(v: Value, n: nat) {
    && v.Num? && v.n.Finite? && (forall u :: u in v.n.numeral ==> IsDigit(u))
    && ValueOf(v.n.numeral) == n && (v.n.numeral[0] == 48 ==> |v.n.numeral| == 1)
  }

  lemma {:induction false} DigitsSayNumber(n: nat)
    ensures SaysNumber(Num(Finite(Digits(n))), n)
    ensures n > 0 ==> Digits(n)[0] != 48
  {
    var d := Digits(n);
    assert d[..|d| - 1] == if n < 10 then [] else Digits(n / 10);
    if n >= 10 {
      DigitsSayNumber(n / 10);
    }
  }

  // ---------------------------------------------------------------- one level of a payload

  // The string is over the allowance, so it is cut.
  predicate IsCut(v: Value, budget: nat) {
    v.Str? && |EncodeString(v.s)| > budget
  }

  // Bounding this member writes this key: its own, or the one its length goes to.
  predicate Writes(m: Member, budget: nat, key: JsString) {
    m.key == key || (IsCut(m.value, budget) && m.key + LENGTH_SUFFIX == key)
  }

  lemma StringIsClipped(s: JsString, budget: nat, depth: nat)
    requires depth <= MAX_PAYLOAD_DEPTH
    ensures BoundedValue(Str(s), budget, depth) == Bounded(Str(Clipped(s, budget)), IsCut(Str(s), budget))
  {
    ClippedIsBounded(s, budget);
  }

  lemma OneMember(out: Record, m: Member, budget: nat, depth: nat, key: JsString)
    requires depth < MAX_PAYLOAD_DEPTH
    ensures var b := BoundedValue(m.value, budget, depth + 1);
      && (IsCut(m.value, budget) && key == m.key + LENGTH_SUFFIX ==>
            SaysNumber(Get(WithMember(out, m, b), key), |EncodeString(m.value.s)|))
      && (key == m.key ==> Get(WithMember(out, m, b), key) == b.value)
      && (!Writes(m, budget, key) ==> Get(WithMember(out, m, b), key) == Get(out, key))
  {
    var b := BoundedValue(m.value, budget, depth + 1);
    if m.value.Str? {
      StringIsClipped(m.value.s, budget, depth + 1);
      DigitsSayNumber(Octets(m.value.s));
    }
    GetOfMember(out, m, b, key);
  }

  lemma {:induction false} Untouched(members: Record, budget: nat, depth: nat, out: Record, key: JsString)
    requires depth < MAX_PAYLOAD_DEPTH && forall i :: 0 <= i < |members| ==> !Writes(members[i], budget, key)
    ensures Get(BoundedMembers(members, budget, depth, out).0, key) == Get(out, key)
    decreases |members|
  {
    if members != [] {
      var b := BoundedValue(members[0].value, budget, depth + 1);
      OneMember(out, members[0], budget, depth, key);
      Untouched(members[1..], budget, depth, WithMember(out, members[0], b), key);
    }
  }

  // The i-th member is the last to write this key.
  ghost predicate LastWriter(members: Record, budget: nat, i: nat, key: JsString) {
    && i < |members| && Writes(members[i], budget, key)
    && forall j :: i < j < |members| ==> !Writes(members[j], budget, key)
  }

  lemma {:induction false} LastWins(members: Record, budget: nat, depth: nat, out: Record, i: nat, key: JsString)
    requires depth < MAX_PAYLOAD_DEPTH && LastWriter(members, budget, i, key)
    ensures var r := Get(BoundedMembers(members, budget, depth, out).0, key);
      if members[i].key == key then r == BoundedValue(members[i].value, budget, depth + 1).value
      else SaysNumber(r, |EncodeString(members[i].value.s)|)
    decreases |members|
  {
    var rest, more := members[1..], WithMember(out, members[0], BoundedValue(members[0].value, budget, depth + 1));
    if i == 0 {
      OneMember(out, members[0], budget, depth, key);
      Untouched(rest, budget, depth, more, key);
    } else {
      LastWins(rest, budget, depth, more, i - 1, key);
    }
  }

  // What a bounded object holds under each key: the bounded value of the member that wrote it last, the
  // number of octets of the string that did, as it came, or nothing.
  lemma ObjectHolds(members: Record, budget: nat, depth: nat, key: JsString, i: nat)
    requires depth < MAX_PAYLOAD_DEPTH
    ensures BoundedValue(Obj(members), budget, depth).value.Obj?
    ensures var r := Get(BoundedValue(Obj(members), budget, depth).value.members, key);
      && (LastWriter(members, budget, i, key) && members[i].key == key ==>
            r == BoundedValue(members[i].value, budget, depth + 1).value)
      && (LastWriter(members, budget, i, key) && members[i].key != key ==>
            SaysNumber(r, |EncodeString(members[i].value.s)|))
      && ((forall j :: 0 <= j < |members| ==> !Writes(members[j], budget, key)) ==> r == Undefined)
  {
    if LastWriter(members, budget, i, key) {
      LastWins(members, budget, depth, [], i, key);
    }
    if forall j :: 0 <= j < |members| ==> !Writes(members[j], budget, key) {
      Untouched(members, budget, depth, [], key);
    }
  }

  // Beside a string that was cut stands the number of octets it came with, unless a later member is named so.
  lemma LengthIsWritten(members: Record, budget: nat, depth: nat, i: nat)
    requires depth < MAX_PAYLOAD_DEPTH && i < |members| && UniqueKeys(members) && IsCut(members[i].value, budget)
    requires forall j :: i < j < |members| ==> members[j].key != members[i].key + LENGTH_SUFFIX
    ensures SaysNumber(Get(BoundedValue(Obj(members), budget, depth).value.members, members[i].key + LENGTH_SUFFIX),
                       |EncodeString(members[i].value.s)|)
  {
    var key := members[i].key + LENGTH_SUFFIX;
    forall j | i < j < |members|
      ensures !Writes(members[j], budget, key)
    {
      assert members[j].key != members[i].key;
      SuffixIsApart(members[j].key, members[i].key);
    }
    ObjectHolds(members, budget, depth, key, i);
  }

  lemma SuffixIsApart(x: JsString, y: JsString)
    ensures x + LENGTH_SUFFIX == y + LENGTH_SUFFIX ==> x == y
  {
    if x + LENGTH_SUFFIX == y + LENGTH_SUFFIX {
      assert |x| == |y|;
      assert (x + LENGTH_SUFFIX)[..|x|] == x && (y + LENGTH_SUFFIX)[..|y|] == y;
    }
  }

  // A list keeps its length and order, each item bounded one level down; nothing stays at the depth limit.
  lemma {:induction false} ItemsHold(items: seq<Value>, budget: nat, depth: nat)
    requires depth < MAX_PAYLOAD_DEPTH
    ensures var out := BoundedItems(items, budget, depth).0;
      |out| == |items| && forall i :: 0 <= i < |items| ==> out[i] == BoundedValue(items[i], budget, depth + 1).value
  {
    if items != [] {
      ItemsHold(items[1..], budget, depth);
      var rest := BoundedItems(items[1..], budget, depth).0;
      assert BoundedItems(items, budget, depth).0[1..] == rest;
    }
  }

  // ---------------------------------------------------------------- the reductions

  lemma AtHasPayload(candidate: Record, stop: nat)
    ensures var e := At(FirstPass(candidate), Get(candidate, PAYLOAD), MAX_PAYLOAD_TEXT, stop);
      Get(e, PAYLOAD) == BoundedValue(Get(candidate, PAYLOAD), stop, 0).value
  {
    var payload := Get(candidate, PAYLOAD);
    GetOfSet(BoundedRefs(ClippedLabel(candidate)), PAYLOAD, PAYLOAD, BoundedValue(payload, MAX_PAYLOAD_TEXT, 0).value);
    GetOfSet(FirstPass(candidate), PAYLOAD, PAYLOAD, BoundedValue(payload, stop, 0).value);
  }

  // What is dropped is gone, and what is not is as it was.
  lemma {:induction false} DroppedOrKept(payload: Record, keys: seq<JsString>, n: nat, key: JsString)
    requires n <= |keys|
    ensures var left := Get(DropFirst(payload, keys, n), key);
      left == if exists i :: 0 <= i < n && (keys[i] == key || keys[i] + LENGTH_SUFFIX == key) then Undefined
              else Get(payload, key)
    decreases n
  {
    if n > 0 {
      var less := Drop(payload, keys[0]);
      GetOfDelete(payload, keys[0], key);
      GetOfDelete(Delete(payload, keys[0]), keys[0] + LENGTH_SUFFIX, key);
      DroppedOrKept(less, keys[1..], n - 1, key);
      if i :| 0 <= i < n && (keys[i] == key || keys[i] + LENGTH_SUFFIX == key) {
        assert i > 0 ==> keys[1..][i - 1] == keys[i];
      }
      if i :| 0 <= i < n - 1 && (keys[1..][i] == key || keys[1..][i] + LENGTH_SUFFIX == key) {
        assert keys[i + 1] == keys[1..][i];
      }
    }
  }

  lemma {:induction false} GetOfDelete(r: Record, key: JsString, other: JsString)
    ensures Get(Delete(r, key), other) == if other == key then Undefined else Get(r, other)
  {
    if r != [] {
      GetOfDelete(r[1..], key, other);
      if r[0].key != key {
        assert ([r[0]] + Delete(r[1..], key))[1..] == Delete(r[1..], key);
      }
    }
  }

  lemma {:induction false} BackwardsDescends(sorted: Record)
    requires Increasing(sorted)
    ensures |KeysBackwards(sorted)| == |sorted|
    ensures forall i :: 0 <= i < |sorted| ==> KeysBackwards(sorted)[i] == sorted[|sorted| - 1 - i].key
  {
    if sorted != [] {
      BackwardsDescends(sorted[1..]);
    }
  }

  // Members go from the last key, in order of code units, to the first.
  lemma KeysDescend(payload: Record)
    requires ProperMembers(payload)
    ensures var keys := KeysBackwards(Sort(payload));
      && (forall m :: m in payload ==> m.key in keys)
      && forall i, j :: 0 <= i < j < |keys| ==> Less(keys[j], keys[i])
  {
    SortIsProper(payload);
    KeysCoverPayload(payload);
    BackwardsDescends(Sort(payload));
  }

  // The payload of the form when nothing had to be dropped: that of the candidate, bounded at the allowance
  // halving stopped at.
  lemma PayloadSurvives(candidate: Record) returns (stop: nat)
    requires Form(candidate).Some?
    ensures stop <= MAX_PAYLOAD_TEXT
    ensures var halved := At(FirstPass(candidate), Get(candidate, PAYLOAD), MAX_PAYLOAD_TEXT, stop);
      TooBig(halved) == Some(false) ==>
        Get(Form(candidate).value, PAYLOAD) == BoundedValue(Get(candidate, PAYLOAD), stop, 0).value
    ensures LargerAreTooBig(FirstPass(candidate), Get(candidate, PAYLOAD), MAX_PAYLOAD_TEXT, stop)
  {
    FormKeepsMostText(candidate);
    stop := Halve(FirstPass(candidate), Get(candidate, PAYLOAD), MAX_PAYLOAD_TEXT).value.1;
    AtHasPayload(candidate, stop);
  }

  // The mark is there exactly when something was cut, and otherwise whatever was there before; the payload
  // is that of the form either way.
  lemma MarkReads(form: Record, cut: bool)
    ensures Get(Marked(form, cut), CLIPPED) == if cut then Bool(true) else Get(form, CLIPPED)
    ensures Get(Marked(form, cut), PAYLOAD) == Get(form, PAYLOAD)
  {
    GetOfSet(form, CLIPPED, CLIPPED, Bool(true));
    GetOfSet(form, CLIPPED, PAYLOAD, Bool(true));
  }

  // So in what `bound` returns, the length beside a cut string is that of the string as it came.
  lemma BoundSaysLengths(candidate: Record, i: nat) returns (stop: nat)
    requires Form(candidate).Some? && Cut(candidate).Some?
    requires Get(candidate, PAYLOAD).Obj? && i < |Get(candidate, PAYLOAD).members|
    requires UniqueKeys(Get(candidate, PAYLOAD).members) && Get(candidate, PAYLOAD).members[i].value.Str?
    requires var members := Get(candidate, PAYLOAD).members;
      forall j :: i < j < |members| ==> members[j].key != members[i].key + LENGTH_SUFFIX
    ensures var m, bounded := Get(candidate, PAYLOAD).members[i], Marked(Form(candidate).value, Cut(candidate).value);
      && stop <= MAX_PAYLOAD_TEXT
      && (TooBig(At(FirstPass(candidate), Get(candidate, PAYLOAD), MAX_PAYLOAD_TEXT, stop)) == Some(false) ==>
            && Get(bounded, PAYLOAD).Obj?
            && (IsCut(m.value, stop) ==>
                  SaysNumber(Get(Get(bounded, PAYLOAD).members, m.key + LENGTH_SUFFIX), |EncodeString(m.value.s)|)))
  {
    stop := PayloadSurvives(candidate);
    MarkReads(Form(candidate).value, Cut(candidate).value);
    var members := Get(candidate, PAYLOAD).members;
    if IsCut(members[i].value, stop) {
      LengthIsWritten(members, stop, 0, i);
    }
  }

  // ---------------------------------------------------------------- label and refs

  lemma {:induction false} RefsHold(refs: seq<Value>)
    ensures |ClippedRefs(refs)| == |refs|
    ensures forall i :: 0 <= i < |refs| ==> ClippedRefs(refs)[i] == ClippedRef(refs[i])
  {
    if refs != [] {
      RefsHold(refs[1..]);
    }
  }

  // A ref keeps every member but `value`, which is clipped when it is a string.
  lemma RefHolds(ref: Value, key: JsString)
    ensures !ref.Obj? || !MemberOf(ref, VALUE).Str? ==> ClippedRef(ref) == ref
    ensures ref.Obj? && MemberOf(ref, VALUE).Str? ==>
              && ClippedRef(ref).Obj?
              && MemberOf(ClippedRef(ref), key) ==
                 if key == VALUE then Str(Clipped(MemberOf(ref, VALUE).s, MAX_REF)) else MemberOf(ref, key)
  {
    if ref.Obj? && MemberOf(ref, VALUE).Str? {
      var s := MemberOf(ref, VALUE).s;
      GetOfSet(ref.members, VALUE, key, Str(Clipped(s, MAX_REF)));
      ClippedIsBounded(s, MAX_REF);
    }
  }

  // The actor keeps every member but its label, which is clipped when it is a string.
  lemma ActorHolds(candidate: Record, key: JsString)
    requires Form(candidate).Some?
    ensures var actor, shown := Get(candidate, ACTOR), Get(Form(candidate).value, ACTOR);
      && (!actor.Obj? || !MemberOf(actor, LABEL).Str? ==> shown == actor)
      && (actor.Obj? && MemberOf(actor, LABEL).Str? ==>
            shown.Obj? && MemberOf(shown, key) ==
                          if key == LABEL then Str(Clipped(MemberOf(actor, LABEL).s, MAX_LABEL))
                          else MemberOf(actor, key))
  {
    FormKeepsTheRest(candidate, CLIPPED);
    var actor := Get(candidate, ACTOR);
    if actor.Obj? && MemberOf(actor, LABEL).Str? {
      var s := MemberOf(actor, LABEL).s;
      var shown := Obj(Set(actor.members, LABEL, Str(Clipped(s, MAX_LABEL))));
      GetOfSet(candidate, ACTOR, ACTOR, shown);
      GetOfSet(actor.members, LABEL, key, Str(Clipped(s, MAX_LABEL)));
      ClippedIsBounded(s, MAX_LABEL);
    }
  }

  // The first pass keeps the first refs, each clipped.
  lemma FirstPassRefs(candidate: Record)
    ensures var refs, kept := Get(candidate, REFS), Get(FirstPass(candidate), REFS);
      && (!refs.Arr? ==> kept == refs)
      && (refs.Arr? ==>
            && kept.Arr? && |kept.items| == Min(MAX_REFS, |refs.items|)
            && forall i :: 0 <= i < |kept.items| ==> kept.items[i] == ClippedRef(refs.items[i]))
  {
    var e, refs := ClippedLabel(candidate), Get(candidate, REFS);
    GetOfSet(candidate, ACTOR, REFS, Get(e, ACTOR));
    assert Get(e, REFS) == refs by {
      var actor := Get(candidate, ACTOR);
      if e != candidate {
        var shown := Obj(Set(actor.members, LABEL, Str(Clipped(Get(actor.members, LABEL).s, MAX_LABEL))));
        GetOfSet(candidate, ACTOR, REFS, shown);
      }
    }
    var v := BoundedValue(Get(candidate, PAYLOAD), MAX_PAYLOAD_TEXT, 0).value;
    GetOfSet(BoundedRefs(e), PAYLOAD, REFS, v);
    if refs.Arr? {
      var first := refs.items[..Min(MAX_REFS, |refs.items|)];
      RefsHold(first);
      GetOfSet(e, REFS, REFS, Arr(ClippedRefs(first)));
    }
  }
}
