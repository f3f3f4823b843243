/**
 * `bound` of packages/envelope/src/bounds.ts: an envelope is brought inside its bounds in stages,
 * each entered only if the one before was not enough. First every member is clipped to its own
 * bound; then payload strings are clipped to half the allowance, and half again; then payload
 * members are dropped; then refs.
 */
module BoundEnvelope {
  import opened Prelude
  import opened Utf16
  import opened Utf8
  import opened Jcs
  import opened JcsReader
  import opened Bounds

  // ---------------------------------------------------------------- the stages

  function TooBig(e: Record): Option<bool> {
    var size :- Size(e);
    Some(size > MAX_ENVELOPE_OCTETS)
  }

  function ClippedLabel(e: Record): Record {
    var actor := Get(e, ACTOR);
    if actor.Obj? && Get(actor.members, LABEL).Str? && Octets(Get(actor.members, LABEL).s) > MAX_LABEL then
      Set(e, ACTOR, Obj(Set(actor.members, LABEL, Str(Clipped(Get(actor.members, LABEL).s, MAX_LABEL)))))
    else e
  }

  function ClippedRef(ref: Value): Value {
    if ref.Obj? && Get(ref.members, VALUE).Str? && Octets(Get(ref.members, VALUE).s) > MAX_REF then
      Obj(Set(ref.members, VALUE, Str(Clipped(Get(ref.members, VALUE).s, MAX_REF))))
    else ref
  }

  function ClippedRefs(refs: seq<Value>): seq<Value> {
    if refs == [] then [] else [ClippedRef(refs[0])] + ClippedRefs(refs[1..])
  }

  function BoundedRefs(e: Record): Record {
    var refs := Get(e, REFS);
    if refs.Arr? then Set(e, REFS, Arr(ClippedRefs(refs.items[..Min(MAX_REFS, |refs.items|)]))) else e
  }

  function WithPayload(e: Record, payload: Value, budget: nat): Record {
    Set(e, PAYLOAD, BoundedValue(payload, budget, 0).value)
  }

  // Every member inside its own bound.
  function FirstPass(candidate: Record): Record {
    WithPayload(BoundedRefs(ClippedLabel(candidate)), Get(candidate, PAYLOAD), MAX_PAYLOAD_TEXT)
  }

  // The envelope once halving stops, and the allowance it stopped at.
  function Halve(e: Record, payload: Value, budget: nat): Option<(Record, nat)>
    decreases budget
  {
    var big :- TooBig(e);
    if big && budget > SMALLEST_BUDGET then Halve(WithPayload(e, payload, budget / 2), payload, budget / 2)
    else Some((e, budget))
  }

  function Drop(payload: Record, key: JsString): Record {
    Delete(Delete(payload, key), key + LENGTH_SUFFIX)
  }

  function DropMembers(e: Record, payload: Record, keys: seq<JsString>): Option<Record>
    decreases |keys|
  {
    if keys == [] then Some(payload)
    else
      var big :- TooBig(Set(e, PAYLOAD, Obj(payload)));
      if big then DropMembers(e, Drop(payload, keys[0]), keys[1..]) else Some(payload)
  }

  // The keys of an object from the last in canonical order to the first.
  function KeysBackwards(sorted: Record): seq<JsString> {
    if sorted == [] then [] else KeysBackwards(sorted[1..]) + [sorted[0].key]
  }

  function Emptied(e: Record): Option<Record> {
    var big :- TooBig(e);
    if !big then Some(e)
    else
      var payload := Spread(Get(e, PAYLOAD));
      var left :- DropMembers(e, payload, KeysBackwards(Sort(payload)));
      Some(Set(e, PAYLOAD, Obj(left)))
  }

  function RefCount(e: Record): nat {
    if Get(e, REFS).Arr? then |Get(e, REFS).items| else 0
  }

  function DropRefs(e: Record, n: nat): Option<Record>
    requires n == RefCount(e)
    decreases n
  {
    var big :- TooBig(e);
    if big && n > 0 then
      var fewer := Set(e, REFS, Arr(Get(e, REFS).items[..n - 1]));
      GetOfSet(e, REFS, REFS, Arr(Get(e, REFS).items[..n - 1]));
      DropRefs(fewer, n - 1)
    else Some(e)
  }

  lemma {:induction false} GetOfSet(r: Record, key: JsString, other: JsString, v: Value)
    ensures Get(Set(r, key, v), other) == if other == key then v else Get(r, other)
  {
    if r != [] && r[0].key != key {
      GetOfSet(r[1..], key, other, v);
      assert ([r[0]] + Set(r[1..], key, v))[1..] == Set(r[1..], key, v);
    } else if r != [] {
      assert ([Member(key, v)] + r[1..])[1..] == r[1..];
    }
  }

  // The envelope before it is marked.
  function Form(candidate: Record): Option<Record> {
    var (halved, _) :- Halve(FirstPass(candidate), Get(candidate, PAYLOAD), MAX_PAYLOAD_TEXT);
    var emptied :- Emptied(halved);
    DropRefs(emptied, RefCount(emptied))
  }

  // Was anything cut: a member over its own bound, or the whole over its.
  function Cut(candidate: Record): Option<bool> {
    var big :- TooBig(FirstPass(candidate));
    Some(!MembersBounded(candidate) || big)
  }

  // `clipped` is true or absent, never false.
  function Marked(form: Record, cut: bool): Record {
    if cut then Set(form, CLIPPED, Bool(true)) else form
  }

  // ---------------------------------------------------------------- the method

  method ClipRefs(refs: seq<Value>) returns (kept: seq<Value>, clipped: bool)
    ensures kept == ClippedRefs(refs[..Min(MAX_REFS, |refs|)])
    ensures clipped <==> !(|refs| <= MAX_REFS && RefsWithin(refs))
  {
    var n := Min(MAX_REFS, |refs|);
    ghost var first := refs[..n];
    ghost var left := ClippedRefs(first);
    kept, clipped := [], n != |refs|;
    assert first[0..] == first;
    for i := 0 to n
      invariant left == ClippedRefs(first[i..]) && kept + left == ClippedRefs(first)
      invariant clipped <==> n != |refs| || !RefsBelow(refs, i)
    {
      ClippedRefsFrom(first, i);
      left := ClippedRefs(first[i + 1..]);
      BelowOneMore(refs, i);
      var ref, cut := ClipRef(refs[i]);
      clipped := clipped || cut;
      kept := kept + [ref];
    }
    RefsWithinBelow(refs);
  }

  method ClipRef(ref: Value) returns (kept: Value, clipped: bool)
    ensures kept == ClippedRef(ref)
    ensures clipped <==> !TextWithin(MemberOf(ref, VALUE), MAX_REF)
  {
    if ref.Obj? && Get(ref.members, VALUE).Str? {
      var value := Clip(Get(ref.members, VALUE).s, MAX_REF);
      ClippedIsBounded(Get(ref.members, VALUE).s, MAX_REF);
      if value != Get(ref.members, VALUE).s {
        return Obj(Set(ref.members, VALUE, Str(value))), true;
      }
    }
    return ref, false;
  }

  ghost predicate RefsBelow(refs: seq<Value>, n: nat)
    requires n <= |refs|
  {
    forall i :: 0 <= i < n ==> TextWithin(MemberOf(refs[i], VALUE), MAX_REF)
  }

  lemma BelowOneMore(refs: seq<Value>, n: nat)
    requires n < |refs|
    ensures RefsBelow(refs, n + 1) <==> RefsBelow(refs, n) && TextWithin(MemberOf(refs[n], VALUE), MAX_REF)
  {
  }

  lemma ClippedRefsFrom(refs: seq<Value>, i: nat)
    requires i < |refs|
    ensures ClippedRefs(refs[i..]) == [ClippedRef(refs[i])] + ClippedRefs(refs[i + 1..])
  {
    assert refs[i..][0] == refs[i] && refs[i..][1..] == refs[i + 1..];
  }

  lemma {:induction false} RefsWithinBelow(refs: seq<Value>)
    ensures RefsWithin(refs) <==> RefsBelow(refs, |refs|)
  {
    if refs != [] {
      RefsWithinBelow(refs[1..]);
      assert RefsBelow(refs, |refs|) ==> RefsBelow(refs[1..], |refs| - 1);
      assert forall i :: 1 <= i < |refs| ==> refs[i] == refs[1..][i - 1];
    }
  }

  method ClipMembers(candidate: Record) returns (out: Record, clipped: bool)
    ensures out == FirstPass(candidate)
    ensures clipped <==> !MembersBounded(candidate)
  {
    out, clipped := candidate, false;
    var actor := Get(out, ACTOR);
    if actor.Obj? && Get(actor.members, LABEL).Str? {
      var shown := Clip(Get(actor.members, LABEL).s, MAX_LABEL);
      ClippedIsBounded(Get(actor.members, LABEL).s, MAX_LABEL);
      if shown != Get(actor.members, LABEL).s {
        out := Set(out, ACTOR, Obj(Set(actor.members, LABEL, Str(shown))));
        clipped := true;
      }
    }
    assert out == ClippedLabel(candidate);
    GetOfSet(candidate, ACTOR, REFS, Get(out, ACTOR));
    var refs := Get(out, REFS);
    if refs.Arr? {
      var kept, cut := ClipRefs(refs.items);
      clipped := clipped || cut;
      out := Set(out, REFS, Arr(kept));
    }
    var bounded := BoundPayload(Get(candidate, PAYLOAD), MAX_PAYLOAD_TEXT, 0);
    out := Set(out, PAYLOAD, bounded.value);
    clipped := clipped || bounded.clipped;
    ClippedIffBeyond(Get(candidate, PAYLOAD), MAX_PAYLOAD_TEXT, 0);
  }

  method HalveText(first: Record, payload: Value) returns (r: Option<Record>, clipped: bool)
    ensures r == match Halve(first, payload, MAX_PAYLOAD_TEXT) case None => None case Some((e, _)) => Some(e)
    ensures r.Some? ==> TooBig(first) == Some(clipped) && TooBig(r.value).Some?
  {
    var out: Record, budget: nat := first, MAX_PAYLOAD_TEXT;
    clipped := false;
    ghost var target := Halve(first, payload, MAX_PAYLOAD_TEXT);
    while true
      invariant Halve(out, payload, budget) == target
      invariant if clipped then TooBig(first) == Some(true) else out == first && budget == MAX_PAYLOAD_TEXT
      decreases budget
    {
      var big := TooBig(out);
      if big.None? {
        return None, clipped;
      }
      if !(big.value && budget > SMALLEST_BUDGET) {
        return Some(out), clipped;
      }
      budget := budget / 2;
      var bounded := BoundPayload(payload, budget, 0);
      out := Set(out, PAYLOAD, bounded.value);
      clipped := true;
    }
  }

  method DropPayload(e: Record) returns (r: Option<Record>)
    requires TooBig(e) == Some(true)
    ensures r == Emptied(e)
  {
    var reduced := Spread(Get(e, PAYLOAD));
    var keys := KeysBackwards(Sort(reduced));
    ghost var target := DropMembers(e, reduced, keys);
    assert keys[0..] == keys;
    for i := 0 to |keys|
      invariant target == DropMembers(e, reduced, keys[i..])
    {
      assert keys[i..][0] == keys[i] && keys[i..][1..] == keys[i + 1..];
      var still := TooBig(Set(e, PAYLOAD, Obj(reduced)));
      if still.None? {
        return None;
      }
      if !still.value {
        break;
      }
      reduced := Delete(reduced, keys[i]);
      reduced := Delete(reduced, keys[i] + LENGTH_SUFFIX);
    }
    r := Some(Set(e, PAYLOAD, Obj(reduced)));
  }

  method DropLastRefs(e: Record) returns (r: Option<Record>)
    ensures r == DropRefs(e, RefCount(e))
  {
    var out := e;
    while true
      invariant DropRefs(out, RefCount(out)) == DropRefs(e, RefCount(e))
      decreases RefCount(out)
    {
      var big := TooBig(out);
      if big.None? {
        return None;
      }
      if !(big.value && Get(out, REFS).Arr? && |Get(out, REFS).items| > 0) {
        return Some(out);
      }
      var fewer := Get(out, REFS).items[..|Get(out, REFS).items| - 1];
      GetOfSet(out, REFS, REFS, Arr(fewer));
      out := Set(out, REFS, Arr(fewer));
    }
  }

  method Bound(candidate: Record) returns (r: Option<Record>)
    ensures r.Some? <==> Form(candidate).Some?
    ensures r.Some? ==> Cut(candidate).Some?
    ensures r.Some? ==> r.value == Marked(Form(candidate).value, Cut(candidate).value)
  {
    var out, clipped := ClipMembers(candidate);
    var halved, shrunk := HalveText(out, Get(candidate, PAYLOAD));
    if halved.None? {
      return None;
    }
    out, clipped := halved.value, clipped || shrunk;
    var big := TooBig(out);
    if big.value {
      var emptied := DropPayload(out);
      if emptied.None? {
        return None;
      }
      out := emptied.value;
    }
    r := DropLastRefs(out);
    if r.Some? && clipped {
      r := Some(Set(r.value, CLIPPED, Bool(true)));
    }
  }

  // ---------------------------------------------------------------- payloads

  // Clipping a payload reports a cut exactly when the payload was out of bounds.
  lemma {:induction false} ClippedIffBeyond(v: Value, budget: nat, depth: nat)
    requires depth <= MAX_PAYLOAD_DEPTH
    ensures BoundedValue(v, budget, depth).clipped <==> !PayloadWithin(v, budget, depth)
    decreases MAX_PAYLOAD_DEPTH + 1 - depth, 1, 0
  {
    match v
    case Str(s) => ClippedIsBounded(s, budget);
    case Arr(items) =>
      if depth < MAX_PAYLOAD_DEPTH {
        ItemsClippedIffBeyond(items, budget, depth);
      }
    case Obj(members) =>
      if depth < MAX_PAYLOAD_DEPTH {
        MembersClippedIffBeyond(members, budget, depth, []);
      }
    case _ =>
  }

  lemma {:induction false} ItemsClippedIffBeyond(items: seq<Value>, budget: nat, depth: nat)
    requires depth < MAX_PAYLOAD_DEPTH
    ensures BoundedItems(items, budget, depth).1 <==> !ItemsWithin(items, budget, depth)
    decreases MAX_PAYLOAD_DEPTH + 1 - depth, 0, |items|
  {
    if items != [] {
      ClippedIffBeyond(items[0], budget, depth + 1);
      ItemsClippedIffBeyond(items[1..], budget, depth);
    }
  }

  lemma {:induction false} MembersClippedIffBeyond(members: Record, budget: nat, depth: nat, out: Record)
    requires depth < MAX_PAYLOAD_DEPTH
    ensures BoundedMembers(members, budget, depth, out).1 <==> !MembersWithin(members, budget, depth)
    decreases MAX_PAYLOAD_DEPTH + 1 - depth, 0, |members|
  {
    if members != [] {
      var b := BoundedValue(members[0].value, budget, depth + 1);
      ClippedIffBeyond(members[0].value, budget, depth + 1);
      MembersClippedIffBeyond(members[1..], budget, depth, WithMember(out, members[0], b));
    }
  }

  // A bounded payload is within bounds.
  lemma {:induction false} BoundedIsWithin(v: Value, budget: nat, depth: nat)
    requires depth <= MAX_PAYLOAD_DEPTH
    ensures PayloadWithin(BoundedValue(v, budget, depth).value, budget, depth)
    decreases MAX_PAYLOAD_DEPTH + 1 - depth, 1, 0
  {
    match v
    case Str(s) => ClippedIsBounded(s, budget);
    case Arr(items) =>
      if depth < MAX_PAYLOAD_DEPTH {
        BoundedItemsWithin(items, budget, depth);
      }
    case Obj(members) =>
      if depth < MAX_PAYLOAD_DEPTH {
        BoundedMembersWithin(members, budget, depth, []);
      }
    case _ =>
  }

  lemma {:induction false} BoundedItemsWithin(items: seq<Value>, budget: nat, depth: nat)
    requires depth < MAX_PAYLOAD_DEPTH
    ensures ItemsWithin(BoundedItems(items, budget, depth).0, budget, depth)
    decreases MAX_PAYLOAD_DEPTH + 1 - depth, 0, |items|
  {
    if items != [] {
      BoundedIsWithin(items[0], budget, depth + 1);
      BoundedItemsWithin(items[1..], budget, depth);
      assert BoundedItems(items, budget, depth).0[1..] == BoundedItems(items[1..], budget, depth).0;
    }
  }

  lemma {:induction false} SetKeepsWithin(out: Record, key: JsString, v: Value, max: nat, depth: nat)
    requires depth < MAX_PAYLOAD_DEPTH
    requires MembersWithin(out, max, depth) && PayloadWithin(v, max, depth + 1)
    ensures MembersWithin(Set(out, key, v), max, depth)
  {
    if out == [] {
      assert [Member(key, v)][1..] == [];
    } else if out[0].key == key {
      assert ([Member(key, v)] + out[1..])[1..] == out[1..];
    } else {
      SetKeepsWithin(out[1..], key, v, max, depth);
      assert ([out[0]] + Set(out[1..], key, v))[1..] == Set(out[1..], key, v);
    }
  }

  lemma {:induction false} BoundedMembersWithin(members: Record, budget: nat, depth: nat, out: Record)
    requires depth < MAX_PAYLOAD_DEPTH && MembersWithin(out, budget, depth)
    ensures MembersWithin(BoundedMembers(members, budget, depth, out).0, budget, depth)
    decreases MAX_PAYLOAD_DEPTH + 1 - depth, 0, |members|
  {
    if members != [] {
      var m, b := members[0], BoundedValue(members[0].value, budget, depth + 1);
      BoundedIsWithin(m.value, budget, depth + 1);
      SetKeepsWithin(out, m.key, b.value, budget, depth);
      if b.clipped && m.value.Str? {
        SetKeepsWithin(Set(out, m.key, b.value), m.key + LENGTH_SUFFIX, LengthOf(m.value), budget, depth);
      }
      BoundedMembersWithin(members[1..], budget, depth, WithMember(out, m, b));
    }
  }

  lemma {:induction false} WithinIsMonotone(v: Value, small: nat, max: nat, depth: nat)
    requires depth <= MAX_PAYLOAD_DEPTH && small <= max && PayloadWithin(v, small, depth)
    ensures PayloadWithin(v, max, depth)
    decreases MAX_PAYLOAD_DEPTH + 1 - depth, 1, 0
  {
    match v
    case Arr(items) => ItemsMonotone(items, small, max, depth);
    case Obj(members) => MembersMonotone(members, small, max, depth);
    case _ =>
  }

  lemma {:induction false} ItemsMonotone(items: seq<Value>, small: nat, max: nat, depth: nat)
    requires depth <= MAX_PAYLOAD_DEPTH && small <= max && ItemsWithin(items, small, depth)
    ensures ItemsWithin(items, max, depth)
    decreases MAX_PAYLOAD_DEPTH + 1 - depth, 0, |items|
  {
    if items != [] {
      if depth < MAX_PAYLOAD_DEPTH {
        WithinIsMonotone(items[0], small, max, depth + 1);
      }
      ItemsMonotone(items[1..], small, max, depth);
    }
  }

  lemma {:induction false} MembersMonotone(members: Record, small: nat, max: nat, depth: nat)
    requires depth <= MAX_PAYLOAD_DEPTH && small <= max && MembersWithin(members, small, depth)
    ensures MembersWithin(members, max, depth)
    decreases MAX_PAYLOAD_DEPTH + 1 - depth, 0, |members|
  {
    if members != [] {
      if depth < MAX_PAYLOAD_DEPTH {
        WithinIsMonotone(members[0].value, small, max, depth + 1);
      }
      MembersMonotone(members[1..], small, max, depth);
    }
  }

  lemma NoItemsPastDepth(items: seq<Value>, budget: nat, depth: nat)
    requires depth == MAX_PAYLOAD_DEPTH
    ensures ItemsWithin(items, budget, depth) ==> items == []
  {
    if items != [] {
      assert !PayloadWithin(items[0], budget, depth + 1);
    }
  }

  lemma NoMembersPastDepth(members: Record, budget: nat, depth: nat)
    requires depth == MAX_PAYLOAD_DEPTH
    ensures MembersWithin(members, budget, depth) ==> members == []
  {
    if members != [] {
      assert !PayloadWithin(members[0].value, budget, depth + 1);
    }
  }

  // A payload within bounds is left exactly as it was.
  lemma {:induction false} WithinIsUnchanged(v: Value, budget: nat, depth: nat)
    requires depth <= MAX_PAYLOAD_DEPTH && Proper(v) && PayloadWithin(v, budget, depth)
    ensures BoundedValue(v, budget, depth).value == v
    decreases MAX_PAYLOAD_DEPTH + 1 - depth, 1, 0
  {
    match v
    case Arr(items) =>
      if depth < MAX_PAYLOAD_DEPTH {
        ItemsUnchanged(items, budget, depth);
      } else {
        NoItemsPastDepth(items, budget, depth);
      }
    case Obj(members) =>
      if depth < MAX_PAYLOAD_DEPTH {
        MembersUnchanged(members, budget, depth, []);
        assert BoundedMembers(members, budget, depth, []).0 == members;
      } else {
        NoMembersPastDepth(members, budget, depth);
      }
    case _ =>
  }

  lemma {:induction false} ItemsUnchanged(items: seq<Value>, budget: nat, depth: nat)
    requires depth < MAX_PAYLOAD_DEPTH && ProperItems(items) && ItemsWithin(items, budget, depth)
    ensures BoundedItems(items, budget, depth).0 == items
    decreases MAX_PAYLOAD_DEPTH + 1 - depth, 0, |items|
  {
    if items != [] {
      WithinIsUnchanged(items[0], budget, depth + 1);
      ItemsUnchanged(items[1..], budget, depth);
    }
  }

  lemma {:induction false} SetAppends(r: Record, key: JsString, v: Value)
    requires !HasKey(r, key)
    ensures Set(r, key, v) == r + [Member(key, v)]
  {
    if r != [] {
      assert r == [r[0]] + r[1..];
      KeyOfConcat(r[0], r[1..], key);
      SetAppends(r[1..], key, v);
    }
  }

  lemma {:induction false} MembersUnchanged(members: Record, budget: nat, depth: nat, out: Record)
    requires depth < MAX_PAYLOAD_DEPTH && ProperMembers(members) && MembersWithin(members, budget, depth)
    requires NoneHeld(members, out)
    ensures BoundedMembers(members, budget, depth, out).0 == out + members
    decreases MAX_PAYLOAD_DEPTH + 1 - depth, 0, |members|, 1
  {
    if members != [] {
      NoneHeldAfter(members, out);
      MemberUnchanged(members[0], budget, depth, out);
      MembersUnchanged(members[1..], budget, depth, out + [members[0]]);
      assert out + [members[0]] + members[1..] == out + members;
    }
  }

  lemma {:induction false} MemberUnchanged(m: Member, budget: nat, depth: nat, out: Record)
    requires depth < MAX_PAYLOAD_DEPTH && Proper(m.value) && PayloadWithin(m.value, budget, depth + 1)
    requires !HasKey(out, m.key)
    ensures WithMember(out, m, BoundedValue(m.value, budget, depth + 1)) == out + [m]
    decreases MAX_PAYLOAD_DEPTH + 1 - depth, 0, 0, 0
  {
    WithinIsUnchanged(m.value, budget, depth + 1);
    ClippedIffBeyond(m.value, budget, depth + 1);
    SetAppends(out, m.key, m.value);
  }

  ghost predicate NoneHeld(members: Record, out: Record) {
    forall m :: m in members ==> !HasKey(out, m.key)
  }

  lemma NoneHeldAfter(members: Record, out: Record)
    requires members != [] && ProperMembers(members) && NoneHeld(members, out)
    ensures !HasKey(out, members[0].key) && NoneHeld(members[1..], out + [members[0]])
  {
    var m, rest := members[0], members[1..];
    assert m in members;
    forall x | x in rest
      ensures !HasKey(out + [m], x.key)
    {
      assert x in members && HasKey(rest, x.key);
      HasKeyAppended(out, m, x.key);
    }
  }

  lemma HasKeyAppended(out: Record, m: Member, key: JsString)
    ensures HasKey(out + [m], key) ==> HasKey(out, key) || m.key == key
  {
    if HasKey(out + [m], key) && m.key != key {
      var i :| 0 <= i < |out + [m]| && (out + [m])[i].key == key;
      assert i < |out| && out[i].key == key;
    }
  }

  // ---------------------------------------------------------------- the stages keep every bound

  lemma {:induction false} ClippedRefsAreWithin(refs: seq<Value>)
    ensures RefsWithin(ClippedRefs(refs)) && |ClippedRefs(refs)| == |refs|
    ensures RefsWithin(refs) ==> ClippedRefs(refs) == refs
  {
    if refs != [] {
      ClippedRefsAreWithin(refs[1..]);
      assert ClippedRefs(refs)[1..] == ClippedRefs(refs[1..]);
      if refs[0].Obj? && Get(refs[0].members, VALUE).Str? {
        ClippedIsBounded(Get(refs[0].members, VALUE).s, MAX_REF);
        GetOfSet(refs[0].members, VALUE, VALUE, Str(Clipped(Get(refs[0].members, VALUE).s, MAX_REF)));
      }
    }
  }

  lemma LabelIsBounded(e: Record)
    ensures TextWithin(MemberOf(Get(ClippedLabel(e), ACTOR), LABEL), MAX_LABEL)
  {
    var actor := Get(e, ACTOR);
    if actor.Obj? && Get(actor.members, LABEL).Str? {
      var shown := Str(Clipped(Get(actor.members, LABEL).s, MAX_LABEL));
      ClippedIsBounded(Get(actor.members, LABEL).s, MAX_LABEL);
      GetOfSet(actor.members, LABEL, LABEL, shown);
      GetOfSet(e, ACTOR, ACTOR, Obj(Set(actor.members, LABEL, shown)));
    }
  }

  lemma FirstPassIsBounded(candidate: Record)
    ensures MembersBounded(FirstPass(candidate))
  {
    var e1 := ClippedLabel(candidate);
    var e2 := BoundedRefs(e1);
    var payload := Get(candidate, PAYLOAD);
    LabelIsBounded(candidate);
    if Get(e1, REFS).Arr? {
      var kept := Get(e1, REFS).items[..Min(MAX_REFS, |Get(e1, REFS).items|)];
      ClippedRefsAreWithin(kept);
      GetOfSet(e1, REFS, REFS, Arr(ClippedRefs(kept)));
      GetOfSet(e1, REFS, ACTOR, Arr(ClippedRefs(kept)));
    }
    PayloadKeepsBounded(e2, payload, MAX_PAYLOAD_TEXT);
  }

  lemma PayloadKeepsBounded(e: Record, payload: Value, budget: nat)
    requires TextWithin(MemberOf(Get(e, ACTOR), LABEL), MAX_LABEL)
    requires Get(e, REFS).Arr? ==> |Get(e, REFS).items| <= MAX_REFS && RefsWithin(Get(e, REFS).items)
    requires budget <= MAX_PAYLOAD_TEXT
    ensures MembersBounded(WithPayload(e, payload, budget))
  {
    var v := BoundedValue(payload, budget, 0).value;
    BoundedIsWithin(payload, budget, 0);
    WithinIsMonotone(v, budget, MAX_PAYLOAD_TEXT, 0);
    GetOfSet(e, PAYLOAD, PAYLOAD, v);
    GetOfSet(e, PAYLOAD, ACTOR, v);
    GetOfSet(e, PAYLOAD, REFS, v);
  }

  lemma {:induction false} SetTwice(r: Record, key: JsString, v: Value, w: Value)
    ensures Set(Set(r, key, v), key, w) == Set(r, key, w)
  {
    if r == [] {
    } else if r[0].key == key {
      assert ([Member(key, v)] + r[1..])[1..] == r[1..];
    } else {
      SetTwice(r[1..], key, v, w);
      assert ([r[0]] + Set(r[1..], key, v))[1..] == Set(r[1..], key, v);
    }
  }

  // The allowances: SMALLEST_BUDGET doubled any number of times.
  predicate InSeries(budget: nat) {
    budget == SMALLEST_BUDGET || (budget > SMALLEST_BUDGET && budget % 2 == 0 && InSeries(budget / 2))
  }

  // The envelope with its payload at an allowance, the whole one being where it starts.
  function At(e: Record, payload: Value, whole: nat, budget: nat): Record {
    if budget == whole then e else WithPayload(e, payload, budget)
  }

  lemma HalveOnce(e: Record, payload: Value, budget: nat, big: bool)
    requires TooBig(e) == Some(big)
    ensures Halve(e, payload, budget) ==
            if big && budget > SMALLEST_BUDGET then Halve(WithPayload(e, payload, budget / 2), payload, budget / 2)
            else Some((e, budget))
  {
  }

  lemma AtTwice(e: Record, payload: Value, half: nat, budget: nat)
    ensures At(WithPayload(e, payload, half), payload, half, budget) == WithPayload(e, payload, budget)
  {
    SetTwice(e, PAYLOAD, BoundedValue(payload, half, 0).value, BoundedValue(payload, budget, 0).value);
  }

  // An allowance below another of the series is at most half of it.
  lemma {:induction false} SeriesHalves(low: nat, high: nat)
    requires InSeries(low) && InSeries(high) && low < high
    ensures SMALLEST_BUDGET <= low <= high / 2
  {
    SeriesIsAbove(low);
    if low > SMALLEST_BUDGET {
      SeriesHalves(low / 2, high / 2);
    } else {
      SeriesIsAbove(high / 2);
    }
  }

  lemma {:induction false} SeriesIsAbove(budget: nat)
    requires InSeries(budget)
    ensures budget >= SMALLEST_BUDGET
  {
  }

  // Every allowance of the series above this one is too much.
  ghost predicate LargerAreTooBig(e: Record, payload: Value, budget: nat, stop: nat) {
    forall b: nat :: InSeries(b) && stop < b <= budget ==> TooBig(At(e, payload, budget, b)) == Some(true)
  }

  lemma LargerOnce(e: Record, payload: Value, budget: nat, stop: nat)
    requires InSeries(budget) && budget > SMALLEST_BUDGET && TooBig(e) == Some(true)
    requires LargerAreTooBig(WithPayload(e, payload, budget / 2), payload, budget / 2, stop)
    ensures LargerAreTooBig(e, payload, budget, stop)
  {
    forall b: nat | InSeries(b) && stop < b <= budget
      ensures TooBig(At(e, payload, budget, b)) == Some(true)
    {
      if b < budget {
        SeriesHalves(b, budget);
        AtTwice(e, payload, budget / 2, b);
      }
    }
  }

  // Halving stops at the largest allowance of its series that fits, or at the smallest there is.
  lemma {:induction false} HalveStops(e: Record, payload: Value, budget: nat, r: Record, stop: nat)
    requires InSeries(budget) && Halve(e, payload, budget) == Some((r, stop))
    ensures InSeries(stop) && stop <= budget && r == At(e, payload, budget, stop)
    ensures TooBig(r) == Some(false) || (TooBig(r) == Some(true) && stop == SMALLEST_BUDGET)
    ensures LargerAreTooBig(e, payload, budget, stop)
    decreases budget
  {
    var big := TooBig(e).value;
    HalveOnce(e, payload, budget, big);
    if big && budget > SMALLEST_BUDGET {
      var half := budget / 2;
      HalveStops(WithPayload(e, payload, half), payload, half, r, stop);
      AtTwice(e, payload, half, stop);
      LargerOnce(e, payload, budget, stop);
    }
  }

  lemma SeriesReachesMax()
    ensures InSeries(MAX_PAYLOAD_TEXT)
  {
    assert InSeries(64) && InSeries(128) && InSeries(256) && InSeries(512);
    assert InSeries(1024) && InSeries(2048) && InSeries(4096);
  }

  lemma AtKeepsBounded(e: Record, payload: Value, whole: nat, budget: nat)
    requires MembersBounded(e) && budget <= MAX_PAYLOAD_TEXT
    ensures MembersBounded(At(e, payload, whole, budget))
    ensures forall key :: key != PAYLOAD ==> Get(At(e, payload, whole, budget), key) == Get(e, key)
  {
    PayloadKeepsBounded(e, payload, budget);
    forall key | key != PAYLOAD
      ensures Get(At(e, payload, whole, budget), key) == Get(e, key)
    {
      GetOfSet(e, PAYLOAD, key, BoundedValue(payload, budget, 0).value);
    }
  }

  // ---------------------------------------------------------------- dropping payload members

  function DropFirst(payload: Record, keys: seq<JsString>, n: nat): Record
    requires n <= |keys|
    decreases n
  {
    if n == 0 then payload else DropFirst(Drop(payload, keys[0]), keys[1..], n - 1)
  }

  function SizedWith(e: Record, payload: Record): Option<bool> {
    TooBig(Set(e, PAYLOAD, Obj(payload)))
  }

  // With fewer than n of these keys dropped it is too big.
  ghost predicate TooBigBefore(e: Record, payload: Record, keys: seq<JsString>, n: nat)
    requires n <= |keys|
  {
    forall j :: 0 <= j < n ==> SizedWith(e, DropFirst(payload, keys, j)) == Some(true)
  }

  lemma TooBigOnce(e: Record, payload: Record, keys: seq<JsString>, n: nat)
    requires 0 < n <= |keys| && SizedWith(e, payload) == Some(true)
    requires TooBigBefore(e, Drop(payload, keys[0]), keys[1..], n - 1)
    ensures TooBigBefore(e, payload, keys, n)
  {
    forall j | 0 <= j < n
      ensures SizedWith(e, DropFirst(payload, keys, j)) == Some(true)
    {
      assert j > 0 ==> DropFirst(payload, keys, j) == DropFirst(Drop(payload, keys[0]), keys[1..], j - 1);
    }
  }

  // Members are dropped from the first key on, no more of them than it takes to fit.
  lemma {:induction false} DropStops(e: Record, payload: Record, keys: seq<JsString>) returns (n: nat)
    requires DropMembers(e, payload, keys).Some?
    ensures n <= |keys| && DropMembers(e, payload, keys).value == DropFirst(payload, keys, n)
    ensures n < |keys| ==> SizedWith(e, DropFirst(payload, keys, n)) == Some(false)
    ensures TooBigBefore(e, payload, keys, n)
    decreases |keys|
  {
    if keys == [] || !SizedWith(e, payload).value {
      n := 0;
    } else {
      var n' := DropStops(e, Drop(payload, keys[0]), keys[1..]);
      n := n' + 1;
      TooBigOnce(e, payload, keys, n);
    }
  }

  lemma {:induction false} DeleteKeys(r: Record, key: JsString)
    ensures forall m :: m in Delete(r, key) <==> m in r && m.key != key
  {
    if r != [] {
      DeleteKeys(r[1..], key);
      assert r == [r[0]] + r[1..];
    }
  }

  lemma {:induction false} DeleteKeepsWithin(r: Record, key: JsString, max: nat, depth: nat)
    requires depth <= MAX_PAYLOAD_DEPTH && MembersWithin(r, max, depth)
    ensures MembersWithin(Delete(r, key), max, depth)
  {
    if r != [] {
      DeleteKeepsWithin(r[1..], key, max, depth);
      assert r[0].key != key ==> Delete(r, key)[1..] == Delete(r[1..], key);
    }
  }

  lemma {:induction false} DropKeepsWithin(e: Record, payload: Record, keys: seq<JsString>, max: nat)
    requires MembersWithin(payload, max, 0) && DropMembers(e, payload, keys).Some?
    ensures MembersWithin(DropMembers(e, payload, keys).value, max, 0)
    decreases |keys|
  {
    if keys != [] && TooBig(Set(e, PAYLOAD, Obj(payload))).value {
      DeleteKeepsWithin(payload, keys[0], max, 0);
      DeleteKeepsWithin(Delete(payload, keys[0]), keys[0] + LENGTH_SUFFIX, max, 0);
      DropKeepsWithin(e, Drop(payload, keys[0]), keys[1..], max);
    }
  }

  // Dropping every key of an object leaves nothing.
  lemma {:induction false} DropFitsOrEmpties(e: Record, payload: Record, keys: seq<JsString>)
    requires DropMembers(e, payload, keys).Some?
    requires forall m :: m in payload ==> m.key in keys
    ensures var r := DropMembers(e, payload, keys).value;
      r == [] || TooBig(Set(e, PAYLOAD, Obj(r))) == Some(false)
    decreases |keys|
  {
    assert payload == [] || payload[0] in payload;
    if keys == [] {
    } else if TooBig(Set(e, PAYLOAD, Obj(payload))).value {
      var k := keys[0];
      DeleteKeys(payload, k);
      DeleteKeys(Delete(payload, k), k + LENGTH_SUFFIX);
      forall m | m in Drop(payload, k)
        ensures m.key in keys[1..]
      {
        assert m.key in keys && m.key != k;
      }
      DropFitsOrEmpties(e, Drop(payload, k), keys[1..]);
    }
  }

  lemma {:induction false} BackwardsHasKeys(sorted: Record)
    ensures forall m :: m in sorted ==> m.key in KeysBackwards(sorted)
  {
    if sorted != [] {
      BackwardsHasKeys(sorted[1..]);
      assert sorted == [sorted[0]] + sorted[1..];
    }
  }

  lemma KeysCoverPayload(payload: Record)
    ensures forall m :: m in payload ==> m.key in KeysBackwards(Sort(payload))
  {
    SortPermutes(payload);
    BackwardsHasKeys(Sort(payload));
    forall m | m in payload
      ensures m.key in KeysBackwards(Sort(payload))
    {
      assert m in multiset(payload) && m in Sort(payload);
    }
  }

  lemma {:induction false} IndexedIsWithin(values: seq<Value>, from: nat, max: nat)
    requires ItemsWithin(values, max, 0)
    ensures MembersWithin(Indexed(values, from), max, 0)
    decreases |values|
  {
    if values != [] {
      IndexedIsWithin(values[1..], from + 1, max);
      assert Indexed(values, from)[1..] == Indexed(values[1..], from + 1);
    }
  }

  lemma {:induction false} UnitStringsAreWithin(s: JsString, max: nat)
    requires max >= 3
    ensures ItemsWithin(UnitStrings(s), max, 0)
  {
    if s != [] {
      UnitStringsAreWithin(s[1..], max);
      assert UnitStrings(s)[1..] == UnitStrings(s[1..]);
      assert [s[0]][1..] == [];
      assert |ToScalars([s[0]])| == 1 && ToScalars([s[0]])[0] < 0x1_0000 && ToScalars([s[0]])[1..] == [];
      assert Encode(ToScalars([s[0]])) == EncodeScalar(ToScalars([s[0]])[0]) + Encode([]);
    }
  }

  lemma SpreadIsWithin(v: Value, max: nat)
    requires PayloadWithin(v, max, 0) && max >= 3
    ensures MembersWithin(Spread(v), max, 0)
  {
    match v
    case Arr(items) => IndexedIsWithin(items, 0, max);
    case Str(s) =>
      UnitStringsAreWithin(s, max);
      IndexedIsWithin(UnitStrings(s), 0, max);
    case _ =>
  }

  // Afterwards the form fits, or the payload is empty.
  lemma EmptiedStops(e: Record)
    requires MembersBounded(e) && Emptied(e).Some?
    ensures var r := Emptied(e).value;
      && MembersBounded(r)
      && (TooBig(r) == Some(false) || Get(r, PAYLOAD) == Obj([]))
      && (forall key :: key != PAYLOAD ==> Get(r, key) == Get(e, key))
  {
    if TooBig(e).value {
      var payload := Spread(Get(e, PAYLOAD));
      var keys := KeysBackwards(Sort(payload));
      var left := DropMembers(e, payload, keys).value;
      SpreadIsWithin(Get(e, PAYLOAD), MAX_PAYLOAD_TEXT);
      DropKeepsWithin(e, payload, keys, MAX_PAYLOAD_TEXT);
      KeysCoverPayload(payload);
      DropFitsOrEmpties(e, payload, keys);
      forall key
        ensures Get(Emptied(e).value, key) == if key == PAYLOAD then Obj(left) else Get(e, key)
      {
        GetOfSet(e, PAYLOAD, key, Obj(left));
      }
    }
  }

  // ---------------------------------------------------------------- dropping refs

  lemma {:induction false} RefsPrefixWithin(refs: seq<Value>, n: nat)
    requires n <= |refs| && RefsWithin(refs)
    ensures RefsWithin(refs[..n])
  {
    if n > 0 {
      RefsPrefixWithin(refs[1..], n - 1);
      assert refs[..n][1..] == refs[1..][..n - 1];
    }
  }

  // The envelope with its first n refs, all of them being where it starts.
  function WithRefs(e: Record, n: nat): Record
    requires n <= RefCount(e)
  {
    if n == RefCount(e) then e else Set(e, REFS, Arr(Get(e, REFS).items[..n]))
  }

  lemma WithRefsKeepsBounded(e: Record, n: nat)
    requires n <= RefCount(e) && MembersBounded(e)
    ensures MembersBounded(WithRefs(e, n)) && RefCount(WithRefs(e, n)) == n
    ensures forall key :: key != REFS ==> Get(WithRefs(e, n), key) == Get(e, key)
  {
    if n < RefCount(e) {
      var items := Get(e, REFS).items[..n];
      forall key
        ensures Get(Set(e, REFS, Arr(items)), key) == if key == REFS then Arr(items) else Get(e, key)
      {
        GetOfSet(e, REFS, key, Arr(items));
      }
      RefsPrefixWithin(Get(e, REFS).items, n);
    }
  }

  lemma WithRefsTwice(e: Record, n: nat, k: nat)
    requires k <= n <= RefCount(e)
    ensures RefCount(WithRefs(e, n)) == n && WithRefs(WithRefs(e, n), k) == WithRefs(e, k)
  {
    if k < n < RefCount(e) {
      var items := Get(e, REFS).items;
      GetOfSet(e, REFS, REFS, Arr(items[..n]));
      assert items[..n][..k] == items[..k];
      SetTwice(e, REFS, Arr(items[..n]), Arr(items[..k]));
    } else if n < RefCount(e) {
      GetOfSet(e, REFS, REFS, Arr(Get(e, REFS).items[..n]));
    }
  }

  lemma DropOneRef(e: Record, n: nat, big: bool)
    requires n == RefCount(e) && TooBig(e) == Some(big)
    ensures n > 0 ==> RefCount(WithRefs(e, n - 1)) == n - 1
    ensures DropRefs(e, n) == if big && n > 0 then DropRefs(WithRefs(e, n - 1), n - 1) else Some(e)
  {
    if n > 0 {
      WithRefsTwice(e, n - 1, n - 1);
    }
  }

  // What is left is the first k refs: it fits, or k is zero, and with any more refs it would not.
  ghost predicate StopsAt(e: Record, n: nat, r: Record, k: nat)
    requires n == RefCount(e)
  {
    && k <= n && r == WithRefs(e, k)
    && (TooBig(r) == Some(false) || k == 0)
    && (forall j :: k < j <= n ==> TooBig(WithRefs(e, j)) == Some(true))
  }

  lemma StopsHere(e: Record, n: nat)
    requires n == RefCount(e) && (TooBig(e) == Some(false) || n == 0)
    ensures StopsAt(e, n, e, n)
  {
  }

  lemma StopsBelow(e: Record, n: nat, fewer: Record, r: Record, k: nat)
    requires n == RefCount(e) && n > 0 && TooBig(e) == Some(true)
    requires fewer == WithRefs(e, n - 1) && RefCount(fewer) == n - 1 && StopsAt(fewer, n - 1, r, k)
    ensures StopsAt(e, n, r, k)
  {
    WithRefsTwice(e, n - 1, k);
    forall j | k < j <= n
      ensures TooBig(WithRefs(e, j)) == Some(true)
    {
      if j < n {
        WithRefsTwice(e, n - 1, j);
      }
    }
  }

  // Refs go from the last, no more of them than it takes to fit.
  lemma {:induction false} DropRefsStops(e: Record, n: nat, r: Record) returns (k: nat)
    requires n == RefCount(e) && DropRefs(e, n) == Some(r)
    ensures StopsAt(e, n, r, k)
    decreases n
  {
    var big := TooBig(e).value;
    DropOneRef(e, n, big);
    if big && n > 0 {
      k := DropRefsStops(WithRefs(e, n - 1), n - 1, r);
      StopsBelow(e, n, WithRefs(e, n - 1), r, k);
    } else {
      StopsHere(e, n);
      k := n;
    }
  }

  // ---------------------------------------------------------------- what `bound` promises

  // Every member the bounds name is inside its bound, and the whole is too unless nothing is left to drop.
  lemma FormIsBounded(candidate: Record)
    requires Form(candidate).Some?
    ensures var form := Form(candidate).value;
      && MembersBounded(form)
      && (TooBig(form) == Some(false) || (Get(form, PAYLOAD) == Obj([]) && RefCount(form) == 0))
  {
    var first, payload := FirstPass(candidate), Get(candidate, PAYLOAD);
    SeriesReachesMax();
    FirstPassIsBounded(candidate);
    var (halved, stop) := Halve(first, payload, MAX_PAYLOAD_TEXT).value;
    HalveStops(first, payload, MAX_PAYLOAD_TEXT, halved, stop);
    AtKeepsBounded(first, payload, MAX_PAYLOAD_TEXT, stop);
    EmptiedStops(halved);
    var emptied := Emptied(halved).value;
    var k := DropRefsStops(emptied, RefCount(emptied), Form(candidate).value);
    WithRefsKeepsBounded(emptied, k);
  }

  // Strings are clipped to the largest allowance of the series under which the whole fits, if there is one.
  lemma FormKeepsMostText(candidate: Record)
    requires Form(candidate).Some?
    ensures var first, payload := FirstPass(candidate), Get(candidate, PAYLOAD);
      var stop := Halve(first, payload, MAX_PAYLOAD_TEXT).value.1;
      && InSeries(stop) && stop <= MAX_PAYLOAD_TEXT
      && LargerAreTooBig(first, payload, MAX_PAYLOAD_TEXT, stop)
      && (TooBig(At(first, payload, MAX_PAYLOAD_TEXT, stop)) == Some(false) ==>
            Form(candidate).value == At(first, payload, MAX_PAYLOAD_TEXT, stop))
  {
    SeriesReachesMax();
    var (halved, stop) := Halve(FirstPass(candidate), Get(candidate, PAYLOAD), MAX_PAYLOAD_TEXT).value;
    HalveStops(FirstPass(candidate), Get(candidate, PAYLOAD), MAX_PAYLOAD_TEXT, halved, stop);
  }

  // Of the members of the payload, in reverse key order, n are gone, and k refs are left.
  ghost predicate Dropped(halved: Record, payload: Record, keys: seq<JsString>, form: Record, n: nat, k: nat) {
    && n <= |keys|
    && (var gone := DropFirst(payload, keys, n);
        var left := Set(halved, PAYLOAD, Obj(gone));
        // With any fewer members gone it is too big, and so it is with any more refs left.
        && TooBigBefore(halved, payload, keys, n) && StopsAt(left, RefCount(left), form, k)
        // Refs go only once no member is left.
        && (k < RefCount(left) ==> gone == []))
  }

  lemma RefsGoLast(left: Record, gone: Record, form: Record, k: nat)
    requires gone == [] || TooBig(left) == Some(false)
    requires StopsAt(left, RefCount(left), form, k)
    ensures k < RefCount(left) ==> gone == []
  {
    assert WithRefs(left, RefCount(left)) == left;
  }

  // No payload member and no ref is dropped beyond what it takes to fit: none at all when some allowance
  // fits, and otherwise with any fewer dropped the whole is too big.
  lemma FormDropsNoMore(candidate: Record) returns (n: nat, k: nat)
    requires Form(candidate).Some?
    ensures var halved := Halve(FirstPass(candidate), Get(candidate, PAYLOAD), MAX_PAYLOAD_TEXT).value.0;
      var payload := Spread(Get(halved, PAYLOAD));
      if TooBig(halved) == Some(false) then Form(candidate).value == halved
      else
        TooBig(halved) == Some(true) &&
        Dropped(halved, payload, KeysBackwards(Sort(payload)), Form(candidate).value, n, k)
  {
    var halved := Halve(FirstPass(candidate), Get(candidate, PAYLOAD), MAX_PAYLOAD_TEXT).value.0;
    n, k := 0, 0;
    if TooBig(halved) == Some(true) {
      n, k := StagesDropNoMore(halved, Form(candidate).value);
    }
  }

  lemma StagesDropNoMore(halved: Record, form: Record) returns (n: nat, k: nat)
    requires TooBig(halved) == Some(true) && Emptied(halved).Some?
    requires DropRefs(Emptied(halved).value, RefCount(Emptied(halved).value)) == Some(form)
    ensures var payload := Spread(Get(halved, PAYLOAD));
      Dropped(halved, payload, KeysBackwards(Sort(payload)), form, n, k)
  {
    var payload := Spread(Get(halved, PAYLOAD));
    var keys := KeysBackwards(Sort(payload));
    n := DropStops(halved, payload, keys);
    KeysCoverPayload(payload);
    DropFitsOrEmpties(halved, payload, keys);
    var gone := DropFirst(payload, keys, n);
    var left := Set(halved, PAYLOAD, Obj(gone));
    k := DropRefsStops(left, RefCount(left), form);
    RefsGoLast(left, gone, form, k);
  }

  // Nothing but the actor's label, the refs and the payload is touched.
  lemma FormKeepsTheRest(candidate: Record, key: JsString)
    requires Form(candidate).Some?
    requires key != ACTOR && key != REFS && key != PAYLOAD
    ensures Get(Form(candidate).value, key) == Get(candidate, key)
    ensures Get(Form(candidate).value, ACTOR) == Get(ClippedLabel(candidate), ACTOR)
  {
    var first, payload := FirstPass(candidate), Get(candidate, PAYLOAD);
    FirstPassKeepsTheRest(candidate, key);
    SeriesReachesMax();
    FirstPassIsBounded(candidate);
    var (halved, stop) := Halve(first, payload, MAX_PAYLOAD_TEXT).value;
    HalveStops(first, payload, MAX_PAYLOAD_TEXT, halved, stop);
    AtKeepsBounded(first, payload, MAX_PAYLOAD_TEXT, stop);
    EmptiedStops(halved);
    var emptied := Emptied(halved).value;
    var k := DropRefsStops(emptied, RefCount(emptied), Form(candidate).value);
    WithRefsKeepsBounded(emptied, k);
  }

  lemma FirstPassKeepsTheRest(candidate: Record, key: JsString)
    requires key != ACTOR && key != REFS && key != PAYLOAD
    ensures Get(FirstPass(candidate), key) == Get(candidate, key)
    ensures Get(FirstPass(candidate), ACTOR) == Get(ClippedLabel(candidate), ACTOR)
  {
    var e1 := ClippedLabel(candidate);
    var e2 := BoundedRefs(e1);
    var v := BoundedValue(Get(candidate, PAYLOAD), MAX_PAYLOAD_TEXT, 0).value;
    GetOfSet(candidate, ACTOR, key, Get(e1, ACTOR));
    GetOfSet(candidate, ACTOR, ACTOR, Get(e1, ACTOR));
    GetOfSet(e1, REFS, key, Get(e2, REFS));
    GetOfSet(e1, REFS, ACTOR, Get(e2, REFS));
    GetOfSet(e2, PAYLOAD, key, v);
    GetOfSet(e2, PAYLOAD, ACTOR, v);
    if e1 != candidate {
      var actor := Get(candidate, ACTOR);
      var shown := Obj(Set(actor.members, LABEL, Str(Clipped(Get(actor.members, LABEL).s, MAX_LABEL))));
      GetOfSet(candidate, ACTOR, ACTOR, shown);
      GetOfSet(candidate, ACTOR, key, shown);
    }
    if Get(e1, REFS).Arr? {
      var kept := Arr(ClippedRefs(Get(e1, REFS).items[..Min(MAX_REFS, |Get(e1, REFS).items|)]));
      GetOfSet(e1, REFS, key, kept);
      GetOfSet(e1, REFS, ACTOR, kept);
    }
  }

  lemma {:induction false} SetToGet(r: Record, key: JsString)
    ensures HasKey(r, key) ==> Set(r, key, Get(r, key)) == r
    ensures !HasKey(r, key) ==> Set(r, key, Get(r, key)) == r + [Member(key, Undefined)] && Get(r, key) == Undefined
  {
    if r != [] {
      assert r == [r[0]] + r[1..];
      KeyOfConcat(r[0], r[1..], key);
      SetToGet(r[1..], key);
    }
  }

  lemma {:induction false} GetIsProper(r: Record, key: JsString)
    requires ProperMembers(r)
    ensures Proper(Get(r, key))
  {
    if r != [] {
      GetIsProper(r[1..], key);
    }
  }

  // An envelope whose members are bounded comes through the first pass as it was, `payload` written in its place.
  lemma BoundedFirstPass(candidate: Record)
    requires MembersBounded(candidate) && ProperMembers(candidate)
    ensures FirstPass(candidate) == Set(candidate, PAYLOAD, Get(candidate, PAYLOAD))
  {
    GetIsProper(candidate, PAYLOAD);
    WithinIsUnchanged(Get(candidate, PAYLOAD), MAX_PAYLOAD_TEXT, 0);
    var refs := Get(candidate, REFS);
    if refs.Arr? {
      assert refs.items[..Min(MAX_REFS, |refs.items|)] == refs.items;
      ClippedRefsAreWithin(refs.items);
      SetToGet(candidate, REFS);
    }
  }

  // No mark, no difference: an envelope that comes out unmarked is the one that went in.
  lemma UncutIsUnchanged(candidate: Record)
    requires ProperMembers(candidate) && Cut(candidate) == Some(false)
    ensures Form(candidate) == Some(Set(candidate, PAYLOAD, Get(candidate, PAYLOAD)))
  {
    BoundedFirstPass(candidate);
  }

  lemma {:induction false} MeaningOfAppended(r: Record, key: JsString)
    requires SupportedMembers(r) && ProperMembers(r) && !HasKey(r, key)
    ensures SupportedMembers(r + [Member(key, Undefined)]) && ProperMembers(r + [Member(key, Undefined)])
    ensures MeaningOfMembers(r + [Member(key, Undefined)]) == MeaningOfMembers(r)
  {
    if r != [] {
      var more := r[1..] + [Member(key, Undefined)];
      assert r == [r[0]] + r[1..];
      KeyOfConcat(r[0], r[1..], key);
      MeaningOfAppended(r[1..], key);
      assert (r + [Member(key, Undefined)])[1..] == more;
      HasKeyAppended(r[1..], Member(key, Undefined), r[0].key);
    }
  }

  // Writing a member back to what it was does not change the canonical form.
  lemma SizeOfRewritten(r: Record, key: JsString)
    requires ProperMembers(r) && Size(r).Some?
    ensures Size(Set(r, key, Get(r, key))) == Size(r)
  {
    SetToGet(r, key);
    if !HasKey(r, key) {
      AcceptedIff(Obj(r), 0);
      MeaningOfAppended(r, key);
      SameMeaningSameText(Obj(r), Obj(r + [Member(key, Undefined)]), 0);
    }
  }

  // A conforming envelope comes back unchanged and unmarked.
  lemma ConformingIsUnchanged(candidate: Record)
    requires ProperMembers(candidate) && Conforms(candidate) == Some(true)
    ensures Cut(candidate) == Some(false)
    ensures Form(candidate) == Some(Set(candidate, PAYLOAD, Get(candidate, PAYLOAD)))
    ensures HasKey(candidate, PAYLOAD) ==> Form(candidate) == Some(candidate)
  {
    BoundedFirstPass(candidate);
    SizeOfRewritten(candidate, PAYLOAD);
    UncutIsUnchanged(candidate);
    SetToGet(candidate, PAYLOAD);
  }
}
