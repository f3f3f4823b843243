/**
 * Rotation lineage: packages/identity/src/rotation.ts, and its use as the party gate in
 * packages/federation/src/serve.ts. A rotation is a statement by an old key that a new one takes
 * its place; a set of them is a graph, and the lineage of a key is the walk along it.
 *
 * A signature is a predicate over the signed core, the signature and the key.
 */
module Rotation {
  import opened Prelude

  type Key = string

  type Sig = string

  datatype Core = Core(v: string, old': Key, new': Key, rotatedAt: int)

  // A parsed statement: its core and whichever signature members it carries.
  datatype Rotation = Rotation(core: Core, sig: Option<Sig>, sigOld: Option<Sig>)

  type Verifier = (Core, Sig, Key) -> bool

  datatype Rejection = Malformed | SelfRotation | MissingOldKeySignature | NotSignedByOldKey | LegacyUnverifiable

  datatype Encoding = BySig | BySigOld

  datatype Verdict = Ok(rotation: Rotation, encoding: Encoding) | Rejected(reason: Rejection)

  datatype Stop = End | Fork | Cycle | Depth

  const MAX_ROTATION_DEPTH: nat := 32

  // None is an input the schema refuses.
  type Input = Option<Rotation>

  // How statements are judged: the signature check, and whether the withdrawn encoding is accepted.
  datatype Options = Options(verifies: Verifier, acceptLegacySigOld: bool)

  // The signature that decides: `sig` when there is one, the withdrawn one only where that is accepted.
  function Deciding(r: Rotation, options: Options): Option<Sig> {
    if r.sig.Some? || !options.acceptLegacySigOld then r.sig else r.sigOld
  }

  // The old key signed the statement.
  predicate OldKeySigned(r: Rotation, options: Options) {
    var sig := Deciding(r, options);
    sig.Some? && options.verifies(r.core, sig.value, r.core.old')
  }

  // Accepted exactly when it parses, names two keys, and the old one signed it.
  function VerifyRotation(input: Input, options: Options): (verdict: Verdict)
    ensures verdict.Ok? <==> input.Some? && input.value.core.old' != input.value.core.new' &&
                             OldKeySigned(input.value, options)
    ensures verdict.Ok? ==> input == Some(verdict.rotation) && (verdict.encoding.BySigOld? <==> input.value.sig.None?)
  {
    if input.None? then Rejected(Malformed)
    else
      var r := input.value;
      if r.core.old' == r.core.new' then Rejected(SelfRotation)
      else if r.sig.Some? then
        if options.verifies(r.core, r.sig.value, r.core.old') then Ok(r, BySig) else Rejected(NotSignedByOldKey)
      else if r.sigOld.None? then Rejected(MissingOldKeySignature)
      else if !options.acceptLegacySigOld then Rejected(LegacyUnverifiable)
      else if options.verifies(r.core, r.sigOld.value, r.core.old') then Ok(r, BySigOld)
      else Rejected(NotSignedByOldKey)
  }

  // ---------------------------------------------------------------- the graph

  type Graph = map<Key, map<Key, Rotation>>

  function WithRotation(g: Graph, r: Rotation): Graph {
    var byNew := if r.core.old' in g then g[r.core.old'] else map[];
    g[r.core.old' := byNew[r.core.new' := r]]
  }

  // The verified statements, filed by old key and then by new key; a later one replaces an earlier.
  function GraphOf(inputs: seq<Input>, options: Options): Graph {
    if inputs == [] then map[]
    else
      var g := GraphOf(inputs[..|inputs| - 1], options);
      var verdict := VerifyRotation(inputs[|inputs| - 1], options);
      if verdict.Ok? then WithRotation(g, verdict.rotation) else g
  }

  function RejectedOf(inputs: seq<Input>, options: Options): seq<(Input, Rejection)> {
    if inputs == [] then []
    else
      var last := inputs[|inputs| - 1];
      var before := RejectedOf(inputs[..|inputs| - 1], options);
      var verdict := VerifyRotation(last, options);
      if verdict.Ok? then before else before + [(last, verdict.reason)]
  }

  function Successors(g: Graph, key: Key): set<Key> {
    if key in g then g[key].Keys else {}
  }

  // The keys verified statements name as taking over from `key`.
  ghost function Named(inputs: seq<Input>, options: Options, key: Key): set<Key> {
    set i | 0 <= i < |inputs| && VerifyRotation(inputs[i], options).Ok? && inputs[i].value.core.old' == key ::
      inputs[i].value.core.new'
  }

  // ---------------------------------------------------------------- the walk

  // The one successor, when there is exactly one.
  function Only(s: set<Key>): (k: Key)
    requires |s| == 1
    ensures s == {k}
  {
    SingletonHasOne(s);
    var k :| k in s && s == {k};
    k
  }

  lemma SingletonHasOne(s: set<Key>)
    requires |s| == 1
    ensures exists k :: k in s && s == {k}
    ensures forall k, l :: k in s && l in s ==> k == l
  {
    var k :| k in s;
    assert |s - {k}| == 0;
    assert s == {k};
  }

  // The successor the walk goes on to, or why it stops.
  datatype Next = To(key: Key) | Halt(stop: Stop)

  function Step(succ: set<Key>, seen: set<Key>, taken: nat): Next {
    if succ == {} then Halt(End)
    else if |succ| > 1 then Halt(Fork)
    else if Only(succ) in seen then Halt(Cycle)
    else if taken >= MAX_ROTATION_DEPTH then Halt(Depth)
    else To(Only(succ))
  }

  // The keys after `current`, having seen `seen` and taken `taken` steps.
  function Later(g: Graph, current: Key, seen: set<Key>, taken: nat): seq<Key>
    requires taken <= MAX_ROTATION_DEPTH
    decreases MAX_ROTATION_DEPTH - taken
  {
    var next := Step(Successors(g, current), seen, taken);
    if next.Halt? then [] else [next.key] + Later(g, next.key, seen + {next.key}, taken + 1)
  }

  function StopOf(g: Graph, current: Key, seen: set<Key>, taken: nat): Stop
    requires taken <= MAX_ROTATION_DEPTH
    decreases MAX_ROTATION_DEPTH - taken
  {
    var next := Step(Successors(g, current), seen, taken);
    if next.Halt? then next.stop else StopOf(g, next.key, seen + {next.key}, taken + 1)
  }

  // The keys a party has held, oldest first.
  function KeysOf(g: Graph, key: Key): seq<Key> {
    [key] + Later(g, key, {key}, 0)
  }

  // The rotations that lead along a list of keys.
  ghost predicate Leads(g: Graph, keys: seq<Key>, chain: seq<Rotation>) {
    && |keys| == |chain| + 1
    && forall i :: 0 <= i < |chain| ==>
         keys[i] in g && keys[i + 1] in g[keys[i]] && chain[i] == g[keys[i]][keys[i + 1]]
  }

  datatype Resolution =
    Resolution(key: Key, current: Key, chain: seq<Rotation>, rejected: seq<(Input, Rejection)>, stoppedBecause: Stop)

  method ResolveSuccessor(key: Key, rotations: seq<Input>, options: Options) returns (r: Resolution)
    ensures var g := GraphOf(rotations, options);
      && r.key == key
      && r.current == KeysOf(g, key)[|KeysOf(g, key)| - 1]
      && Leads(g, KeysOf(g, key), r.chain)
      && r.rejected == RejectedOf(rotations, options)
      && r.stoppedBecause == StopOf(g, key, {key}, 0)
  {
    var edges, rejected := FileRotations(rotations, options);
    var current, chain, stop := Follow(edges, key);
    r := Resolution(key, current, chain, rejected, stop);
  }

  method FileRotations(rotations: seq<Input>, options: Options)
    returns (edges: Graph, rejected: seq<(Input, Rejection)>)
    ensures edges == GraphOf(rotations, options) && rejected == RejectedOf(rotations, options)
  {
    edges, rejected := map[], [];
    for i := 0 to |rotations|
      invariant edges == GraphOf(rotations[..i], options)
      invariant rejected == RejectedOf(rotations[..i], options)
    {
      assert rotations[..i + 1][..i] == rotations[..i];
      var verdict := VerifyRotation(rotations[i], options);
      if !verdict.Ok? {
        rejected := rejected + [(rotations[i], verdict.reason)];
        continue;
      }
      edges := WithRotation(edges, verdict.rotation);
    }
    assert rotations[..|rotations|] == rotations;
  }

  method Follow(edges: Graph, key: Key) returns (current: Key, chain: seq<Rotation>, stop: Stop)
    ensures var keys := KeysOf(edges, key);
      current == keys[|keys| - 1] && Leads(edges, keys, chain) && stop == StopOf(edges, key, {key}, 0)
  {
    var seen := {key};
    chain, current := [], key;
    ghost var keys, whole, end := [key], KeysOf(edges, key), StopOf(edges, key, {key}, 0);
    while true
      invariant Followed(edges, whole, end, current, seen, chain, keys)
      decreases MAX_ROTATION_DEPTH - |chain|
    {
      var next := Step(Successors(edges, current), seen, |chain|);
      if next.Halt? {
        return current, chain, next.stop;
      }
      FollowOn(edges, whole, end, current, seen, chain, keys, next.key);
      keys := keys + [next.key];
      chain := chain + [edges[current][next.key]];
      seen := seen + {next.key};
      current := next.key;
    }
  }

  // Having come along `keys` to `current`, what is left to walk is the rest of the whole walk.
  ghost predicate Followed(edges: Graph, whole: seq<Key>, end: Stop, current: Key, seen: set<Key>,
                           chain: seq<Rotation>, keys: seq<Key>) {
    && |chain| <= MAX_ROTATION_DEPTH
    && keys + Later(edges, current, seen, |chain|) == whole
    && StopOf(edges, current, seen, |chain|) == end
    && Leads(edges, keys, chain) && current == keys[|keys| - 1]
  }

  lemma FollowOn(edges: Graph, whole: seq<Key>, end: Stop, current: Key, seen: set<Key>,
                 chain: seq<Rotation>, keys: seq<Key>, next: Key)
    requires Followed(edges, whole, end, current, seen, chain, keys)
    requires Step(Successors(edges, current), seen, |chain|) == To(next)
    ensures next in Successors(edges, current) && |chain| < MAX_ROTATION_DEPTH
    ensures Followed(edges, whole, end, next, seen + {next}, chain + [edges[current][next]], keys + [next])
  {
    WalkOn(edges, current, seen, |chain|, next, keys, Later(edges, current, seen, |chain|));
    LeadsOn(edges, keys, chain, next);
  }

  lemma WalkOn(g: Graph, current: Key, seen: set<Key>, taken: nat, next: Key, keys: seq<Key>, left: seq<Key>)
    requires taken <= MAX_ROTATION_DEPTH && left == Later(g, current, seen, taken)
    requires Step(Successors(g, current), seen, taken) == To(next)
    ensures next in Successors(g, current) && taken < MAX_ROTATION_DEPTH
    ensures keys + [next] + Later(g, next, seen + {next}, taken + 1) == keys + left
    ensures StopOf(g, current, seen, taken) == StopOf(g, next, seen + {next}, taken + 1)
  {
  }

  lemma LeadsOn(g: Graph, keys: seq<Key>, chain: seq<Rotation>, next: Key)
    requires keys != [] && Leads(g, keys, chain)
    requires next in Successors(g, keys[|keys| - 1])
    ensures Leads(g, keys + [next], chain + [g[keys[|keys| - 1]][next]])
  {
  }

  datatype PartyKey = PartyKey(key: Key, supersededAt: Option<int>)

  // Each key with the instant the rotation that replaced it was made.
  ghost predicate IsStamped(g: Graph, keys: seq<Key>, lineage: seq<PartyKey>) {
    && |lineage| == |keys| > 0
    && (forall i :: 0 <= i < |keys| ==> lineage[i].key == keys[i])
    && lineage[|keys| - 1].supersededAt == None
    && (forall i :: 0 <= i < |keys| - 1 ==>
          keys[i] in g && keys[i + 1] in g[keys[i]] &&
          lineage[i].supersededAt == Some(g[keys[i]][keys[i + 1]].core.rotatedAt))
  }

  ghost predicate IsLineage(g: Graph, key: Key, lineage: seq<PartyKey>) {
    IsStamped(g, KeysOf(g, key), lineage)
  }

  function Stamped(g: Graph, keys: seq<Key>): seq<PartyKey> {
    if |keys| <= 1 then seq(|keys|, i requires 0 <= i < |keys| => PartyKey(keys[i], None))
    else
      var at := if keys[0] in g && keys[1] in g[keys[0]] then Some(g[keys[0]][keys[1]].core.rotatedAt) else None;
      [PartyKey(keys[0], at)] + Stamped(g, keys[1..])
  }

  // The lineage of a key, as the methods below compute it.
  function LineageOf(g: Graph, key: Key): seq<PartyKey> {
    Stamped(g, KeysOf(g, key))
  }

  lemma {:induction false} StampedIsStamped(g: Graph, keys: seq<Key>)
    requires keys != [] && forall i :: 0 <= i < |keys| - 1 ==> keys[i + 1] in Successors(g, keys[i])
    ensures IsStamped(g, keys, Stamped(g, keys))
  {
    if |keys| > 1 {
      StampedIsStamped(g, keys[1..]);
      assert keys[1] in Successors(g, keys[0]);
    }
  }

  lemma StampedIsUnique(g: Graph, keys: seq<Key>, x: seq<PartyKey>, y: seq<PartyKey>)
    requires IsStamped(g, keys, x) && IsStamped(g, keys, y)
    ensures x == y
  {
    forall i | 0 <= i < |keys|
      ensures x[i] == y[i]
    {
      assert x[i].key == y[i].key == keys[i];
      if i < |keys| - 1 {
        assert keys[i] in g && keys[i + 1] in g[keys[i]];
      }
    }
  }

  lemma LineageIsExact(g: Graph, key: Key, lineage: seq<PartyKey>)
    ensures IsLineage(g, key, LineageOf(g, key))
    ensures IsLineage(g, key, lineage) ==> lineage == LineageOf(g, key)
  {
    var keys := KeysOf(g, key);
    LaterIsLinked(g, key, {key}, 0);
    StampedIsStamped(g, keys);
    if IsLineage(g, key, lineage) {
      StampedIsUnique(g, keys, lineage, Stamped(g, keys));
    }
  }

  method KeyLineage(key: Key, rotations: seq<Input>, options: Options) returns (lineage: seq<PartyKey>)
    ensures lineage == LineageOf(GraphOf(rotations, options), key)
  {
    var resolution := ResolveSuccessor(key, rotations, options);
    lineage := StampChain(key, resolution.chain);
    ghost var g := GraphOf(rotations, options);
    ChainNamesKeys(rotations, options, g, KeysOf(g, key), resolution.chain);
    ChainIsLineage(g, KeysOf(g, key), resolution.chain);
  }

  // The keys rotated to, each stamped with the instant of the statement that replaced it.
  function Replacements(chain: seq<Rotation>): seq<PartyKey> {
    if chain == [] then []
    else
      [PartyKey(chain[0].core.new', if |chain| > 1 then Some(chain[1].core.rotatedAt) else None)] +
      Replacements(chain[1..])
  }

  method StampChain(key: Key, chain: seq<Rotation>) returns (lineage: seq<PartyKey>)
    ensures lineage ==
            [PartyKey(key, if chain == [] then None else Some(chain[0].core.rotatedAt))] + Replacements(chain)
  {
    lineage := [PartyKey(key, if chain == [] then None else Some(chain[0].core.rotatedAt))];
    ghost var first, left := lineage, Replacements(chain);
    assert chain[0..] == chain;
    for i := 0 to |chain|
      invariant left == Replacements(chain[i..]) && lineage + left == first + Replacements(chain)
    {
      ReplacementsFrom(chain, i);
      left := Replacements(chain[i + 1..]);
      var r := chain[i];
      lineage := lineage +
        [PartyKey(r.core.new', if i + 1 < |chain| then Some(chain[i + 1].core.rotatedAt) else None)];
    }
  }

  lemma ReplacementsFrom(chain: seq<Rotation>, i: nat)
    requires i < |chain|
    ensures Replacements(chain[i..]) ==
            [PartyKey(chain[i].core.new', if i + 1 < |chain| then Some(chain[i + 1].core.rotatedAt) else None)] +
            Replacements(chain[i + 1..])
  {
    assert chain[i..][0] == chain[i] && chain[i..][1..] == chain[i + 1..];
    assert i + 1 < |chain| ==> chain[i..][1] == chain[i + 1];
  }

  lemma {:induction false} ChainIsLineage(g: Graph, keys: seq<Key>, chain: seq<Rotation>)
    requires keys != [] && Leads(g, keys, chain)
    requires forall i :: 0 <= i < |chain| ==> chain[i].core.new' == keys[i + 1]
    ensures [PartyKey(keys[0], if chain == [] then None else Some(chain[0].core.rotatedAt))] + Replacements(chain) ==
            Stamped(g, keys)
    decreases |chain|
  {
    if chain != [] {
      assert Leads(g, keys[1..], chain[1..]);
      ChainIsLineage(g, keys[1..], chain[1..]);
    }
  }

  lemma ChainNamesKeys(rotations: seq<Input>, options: Options, g: Graph, keys: seq<Key>, chain: seq<Rotation>)
    requires g == GraphOf(rotations, options) && keys != [] && Leads(g, keys, chain)
    ensures forall i :: 0 <= i < |chain| ==> chain[i].core.new' == keys[i + 1]
  {
    forall i | 0 <= i < |chain|
      ensures chain[i].core.new' == keys[i + 1]
    {
      GraphIsFiled(rotations, options, keys[i], keys[i + 1]);
    }
  }

  // r is a verified statement among the inputs that says `old` is replaced by `new`.
  ghost predicate Says(inputs: seq<Input>, options: Options, r: Rotation, old': Key, new': Key) {
    && r.core.old' == old' && r.core.new' == new' && old' != new'
    && Some(r) in inputs && VerifyRotation(Some(r), options).Ok?
  }

  // Every statement in the graph is one of the inputs, filed under its own keys.
  lemma {:induction false} GraphIsFiled(inputs: seq<Input>, options: Options, old': Key, new': Key)
    requires new' in Successors(GraphOf(inputs, options), old')
    ensures Says(inputs, options, GraphOf(inputs, options)[old'][new'], old', new')
  {
    var before, last := inputs[..|inputs| - 1], inputs[|inputs| - 1];
    assert inputs == before + [last];
    if !(VerifyRotation(last, options).Ok? && last.value.core.old' == old' && last.value.core.new' == new') {
      GraphIsFiled(before, options, old', new');
      assert Some(GraphOf(before, options)[old'][new']) in before;
    }
  }

  // Where to send: the key resolution arrives at, whatever statements the lineage was made from.
  method CurrentKeyOf(key: Key, lineage: Key -> seq<PartyKey>) returns (current: Key)
    ensures lineage(key) == [] ==> current == key
    ensures forall g :: IsLineage(g, key, lineage(key)) ==>
              current == Current(g, key) && PartyKey(current, None) in lineage(key)
  {
    var held := lineage(key);
    current := if held == [] then key else held[|held| - 1].key;
    forall g | IsLineage(g, key, held)
      ensures current == Current(g, key) && PartyKey(current, None) in held
    {
      CurrentIsLast(g, key, held);
    }
  }

  // ---------------------------------------------------------------- order and repetition

  lemma {:induction false} SuccessorsAreNamed(inputs: seq<Input>, options: Options, key: Key)
    ensures Successors(GraphOf(inputs, options), key) == Named(inputs, options, key)
  {
    if inputs != [] {
      var n := |inputs| - 1;
      var before := inputs[..n];
      SuccessorsAreNamed(before, options, key);
      assert forall i :: 0 <= i < n ==> before[i] == inputs[i];
      var verdict := VerifyRotation(inputs[n], options);
      var grown := if verdict.Ok? && inputs[n].value.core.old' == key then {inputs[n].value.core.new'} else {};
      assert Named(inputs, options, key) == Named(before, options, key) + grown;
    }
  }

  ghost predicate SameStatements(x: seq<Input>, y: seq<Input>) {
    forall input :: input in x <==> input in y
  }

  lemma {:induction false} SameSuccessorsSameWalk(g: Graph, h: Graph, current: Key, seen: set<Key>, taken: nat)
    requires taken <= MAX_ROTATION_DEPTH
    requires forall k :: Successors(g, k) == Successors(h, k)
    ensures Later(g, current, seen, taken) == Later(h, current, seen, taken)
    ensures StopOf(g, current, seen, taken) == StopOf(h, current, seen, taken)
    decreases MAX_ROTATION_DEPTH - taken
  {
    var next := Step(Successors(g, current), seen, taken);
    if next.To? {
      SameSuccessorsSameWalk(g, h, next.key, seen + {next.key}, taken + 1);
    }
  }

  // The keys of a lineage depend on which statements there are, not on their order or repetition.
  lemma KeysIgnoreOrder(x: seq<Input>, y: seq<Input>, options: Options, key: Key)
    requires SameStatements(x, y)
    ensures KeysOf(GraphOf(x, options), key) == KeysOf(GraphOf(y, options), key)
    ensures StopOf(GraphOf(x, options), key, {key}, 0) == StopOf(GraphOf(y, options), key, {key}, 0)
  {
    forall k
      ensures Successors(GraphOf(x, options), k) == Successors(GraphOf(y, options), k)
    {
      SuccessorsAreNamed(x, options, k);
      SuccessorsAreNamed(y, options, k);
      NamedWithin(x, y, options, k);
      NamedWithin(y, x, options, k);
    }
    SameSuccessorsSameWalk(GraphOf(x, options), GraphOf(y, options), key, {key}, 0);
  }

  lemma NamedWithin(x: seq<Input>, y: seq<Input>, options: Options, key: Key)
    requires forall input :: input in x ==> input in y
    ensures Named(x, options, key) <= Named(y, options, key)
  {
    forall n | n in Named(x, options, key)
      ensures n in Named(y, options, key)
    {
      var i :| 0 <= i < |x| && VerifyRotation(x[i], options).Ok? && x[i].value.core.old' == key &&
               x[i].value.core.new' == n;
      assert x[i] in y;
      var j :| 0 <= j < |y| && y[j] == x[i];
    }
  }

  // ---------------------------------------------------------------- distinct and bounded

  lemma {:induction false} LaterIsFresh(g: Graph, current: Key, seen: set<Key>, taken: nat)
    requires taken <= MAX_ROTATION_DEPTH
    ensures |Later(g, current, seen, taken)| <= MAX_ROTATION_DEPTH - taken
    ensures Distinct(Later(g, current, seen, taken))
    ensures forall k :: k in Later(g, current, seen, taken) ==> k !in seen
    decreases MAX_ROTATION_DEPTH - taken
  {
    var next := Step(Successors(g, current), seen, taken);
    if next.To? {
      LaterIsFresh(g, next.key, seen + {next.key}, taken + 1);
      var rest := Later(g, next.key, seen + {next.key}, taken + 1);
      assert next.key !in rest;
    }
  }

  // A lineage never repeats a key and holds at most one more than the depth bound.
  lemma KeysAreDistinct(g: Graph, key: Key)
    ensures Distinct(KeysOf(g, key)) && |KeysOf(g, key)| <= MAX_ROTATION_DEPTH + 1
  {
    LaterIsFresh(g, key, {key}, 0);
    assert key !in Later(g, key, {key}, 0);
  }

  // ---------------------------------------------------------------- the instants depend on more

  // When the key at position i was superseded, going by the statement the graph kept.
  function LinkTime(g: Graph, keys: seq<Key>, i: nat): int
    requires i + 1 < |keys| && keys[i + 1] in Successors(g, keys[i])
  {
    g[keys[i]][keys[i + 1]].core.rotatedAt
  }

  // All verified statements of one link give one instant.
  ghost predicate LinkAgrees(inputs: seq<Input>, options: Options, old': Key, new': Key) {
    forall r, s :: Says(inputs, options, r, old', new') && Says(inputs, options, s, old', new') ==>
                     r.core.rotatedAt == s.core.rotatedAt
  }

  ghost predicate LinksAgree(inputs: seq<Input>, options: Options, keys: seq<Key>) {
    forall i :: 0 <= i < |keys| - 1 ==> LinkAgrees(inputs, options, keys[i], keys[i + 1])
  }

  // Each key of the list is a successor of the one before.
  ghost predicate Linked(g: Graph, keys: seq<Key>) {
    forall i :: 0 <= i < |keys| - 1 ==> keys[i + 1] in Successors(g, keys[i])
  }

  ghost predicate SameTimes(g: Graph, h: Graph, keys: seq<Key>)
    requires Linked(g, keys) && Linked(h, keys)
  {
    forall i :: 0 <= i < |keys| - 1 ==> LinkTime(g, keys, i) == LinkTime(h, keys, i)
  }

  lemma LinkedCons(g: Graph, head: Key, keys: seq<Key>)
    requires keys != [] && keys[0] in Successors(g, head) && Linked(g, keys)
    ensures Linked(g, [head] + keys)
  {
  }

  lemma {:induction false} LaterIsLinked(g: Graph, current: Key, seen: set<Key>, taken: nat)
    requires taken <= MAX_ROTATION_DEPTH
    ensures Linked(g, [current] + Later(g, current, seen, taken))
    decreases MAX_ROTATION_DEPTH - taken
  {
    var next := Step(Successors(g, current), seen, taken);
    if next.To? {
      LaterIsLinked(g, next.key, seen + {next.key}, taken + 1);
      LinkedCons(g, current, [next.key] + Later(g, next.key, seen + {next.key}, taken + 1));
    }
  }

  lemma SameKeysAreLinked(x: seq<Input>, y: seq<Input>, options: Options, key: Key)
    requires SameStatements(x, y)
    ensures KeysOf(GraphOf(y, options), key) == KeysOf(GraphOf(x, options), key)
    ensures Linked(GraphOf(y, options), KeysOf(GraphOf(x, options), key))
  {
    KeysIgnoreOrder(x, y, options, key);
    LaterIsLinked(GraphOf(y, options), key, {key}, 0);
  }

  // Listing the same statements as y does gives the keys of x the same instants.
  ghost predicate TimesAgree(x: seq<Input>, y: seq<Input>, options: Options, keys: seq<Key>) {
    var g, h := GraphOf(x, options), GraphOf(y, options);
    Linked(g, keys) && Linked(h, keys) && SameTimes(g, h, keys)
  }

  // The instants of a lineage ignore order and repetition if and only if no two verified statements
  // of one of its links differ in theirs: the graph keeps whichever comes last.
  lemma TimesIgnoreOrderIff(x: seq<Input>, options: Options, key: Key)
    ensures
      var keys := KeysOf(GraphOf(x, options), key);
      (forall y :: SameStatements(x, y) ==> TimesAgree(x, y, options, keys)) <==> LinksAgree(x, options, keys)
  {
    var keys := KeysOf(GraphOf(x, options), key);
    SameKeysAreLinked(x, x, options, key);
    if LinksAgree(x, options, keys) {
      forall y | SameStatements(x, y)
        ensures TimesAgree(x, y, options, keys)
      {
        SameKeysAreLinked(x, y, options, key);
        AgreeingTimes(x, y, options, keys);
      }
    } else {
      var i :| 0 <= i < |keys| - 1 && !LinkAgrees(x, options, keys[i], keys[i + 1]);
      DisagreeingTimes(x, options, keys, i);
    }
  }

  lemma AgreeingTimes(x: seq<Input>, y: seq<Input>, options: Options, keys: seq<Key>)
    requires SameStatements(x, y) && LinksAgree(x, options, keys)
    requires Linked(GraphOf(x, options), keys) && Linked(GraphOf(y, options), keys)
    ensures SameTimes(GraphOf(x, options), GraphOf(y, options), keys)
  {
    forall i | 0 <= i < |keys| - 1
      ensures LinkTime(GraphOf(x, options), keys, i) == LinkTime(GraphOf(y, options), keys, i)
    {
      GraphIsFiled(x, options, keys[i], keys[i + 1]);
      GraphIsFiled(y, options, keys[i], keys[i + 1]);
      assert LinkAgrees(x, options, keys[i], keys[i + 1]);
    }
  }

  lemma LastStatementWins(x: seq<Input>, options: Options, r: Rotation)
    requires VerifyRotation(Some(r), options).Ok?
    ensures r.core.new' in Successors(GraphOf(x + [Some(r)], options), r.core.old')
    ensures GraphOf(x + [Some(r)], options)[r.core.old'][r.core.new'] == r
  {
    assert (x + [Some(r)])[..|x|] == x;
  }

  lemma DisagreeingTimes(x: seq<Input>, options: Options, keys: seq<Key>, i: nat)
    requires i + 1 < |keys| && !LinkAgrees(x, options, keys[i], keys[i + 1])
    requires Linked(GraphOf(x, options), keys)
    ensures exists y :: SameStatements(x, y) && !TimesAgree(x, y, options, keys)
  {
    var r, s :| Says(x, options, r, keys[i], keys[i + 1]) && Says(x, options, s, keys[i], keys[i + 1]) &&
                r.core.rotatedAt != s.core.rotatedAt;
    var last := if LinkTime(GraphOf(x, options), keys, i) == r.core.rotatedAt then s else r;
    var y := x + [Some(last)];
    assert SameStatements(x, y);
    LastStatementWins(x, options, last);
    assert LinkTime(GraphOf(y, options), keys, i) == last.core.rotatedAt;
    assert !TimesAgree(x, y, options, keys);
  }

  // ---------------------------------------------------------------- one statement more

  // h is g with `new` named as a successor of `old` as well.
  ghost predicate Grows(g: Graph, h: Graph, old': Key, new': Key) {
    forall k :: Successors(h, k) == if k == old' then Successors(g, k) + {new'} else Successors(g, k)
  }

  lemma {:induction false} SameAway(g: Graph, h: Graph, old': Key, new': Key, current: Key, seen: set<Key>, taken: nat)
    requires taken <= MAX_ROTATION_DEPTH && Grows(g, h, old', new') && current != old' && old' in seen
    ensures Later(g, current, seen, taken) == Later(h, current, seen, taken)
    ensures StopOf(g, current, seen, taken) == StopOf(h, current, seen, taken)
    decreases MAX_ROTATION_DEPTH - taken
  {
    var next := Step(Successors(g, current), seen, taken);
    if next.To? {
      SameAway(g, h, old', new', next.key, seen + {next.key}, taken + 1);
    }
  }

  // The walk changes only where the new statement starts: cut short there by a fork, or led on from there.
  ghost predicate CutOrExtended(before: seq<Key>, after: seq<Key>, old': Key, stopBefore: Stop, stopAfter: Stop)
    requires before != [] && after != []
  {
    || (before == after)
    || (before < after && before[|before| - 1] == old' && stopBefore == End)
    || (after < before && after[|after| - 1] == old' && stopAfter == Fork)
  }

  lemma HaltsHere(g: Graph, current: Key, seen: set<Key>, taken: nat)
    requires taken <= MAX_ROTATION_DEPTH && Step(Successors(g, current), seen, taken).Halt?
    ensures Later(g, current, seen, taken) == []
    ensures StopOf(g, current, seen, taken) == Step(Successors(g, current), seen, taken).stop
  {
  }

  lemma SameStepHere(g: Graph, h: Graph, old': Key, new': Key, seen: set<Key>, taken: nat)
    requires taken <= MAX_ROTATION_DEPTH && Grows(g, h, old', new') && old' in seen
    requires Successors(h, old') == Successors(g, old')
    ensures Later(g, old', seen, taken) == Later(h, old', seen, taken)
    ensures StopOf(g, old', seen, taken) == StopOf(h, old', seen, taken)
  {
    var next := Step(Successors(g, old'), seen, taken);
    if next.To? {
      SameAway(g, h, old', new', next.key, seen + {next.key}, taken + 1);
    } else {
      HaltsHere(g, old', seen, taken);
      HaltsHere(h, old', seen, taken);
    }
  }

  lemma GrownHere(g: Graph, h: Graph, old': Key, new': Key, seen: set<Key>, taken: nat, x: seq<Key>, y: seq<Key>)
    requires taken <= MAX_ROTATION_DEPTH && Grows(g, h, old', new') && old' in seen
    requires x == Later(g, old', seen, taken) && y == Later(h, old', seen, taken)
    ensures CutOrExtended([old'] + x, [old'] + y, old', StopOf(g, old', seen, taken), StopOf(h, old', seen, taken))
  {
    var succ := Successors(g, old');
    if new' in succ {
      assert Successors(h, old') == succ;
      SameStepHere(g, h, old', new', seen, taken);
    } else if succ == {} {
      HaltsHere(g, old', seen, taken);
      assert [old'] + x == [old'];
    } else {
      ForkIsLarger(succ, new');
      HaltsHere(h, old', seen, taken);
      assert [old'] + y == [old'];
    }
  }

  lemma {:induction false} GrownWalk(g: Graph, h: Graph, old': Key, new': Key, current: Key, seen: set<Key>, taken: nat)
    requires taken <= MAX_ROTATION_DEPTH && Grows(g, h, old', new') && current in seen
    ensures CutOrExtended([current] + Later(g, current, seen, taken), [current] + Later(h, current, seen, taken), old',
                          StopOf(g, current, seen, taken), StopOf(h, current, seen, taken))
    decreases MAX_ROTATION_DEPTH - taken
  {
    var next := Step(Successors(g, current), seen, taken);
    if current == old' {
      GrownHere(g, h, old', new', seen, taken, Later(g, current, seen, taken), Later(h, current, seen, taken));
    } else if next.To? {
      GrownWalk(g, h, old', new', next.key, seen + {next.key}, taken + 1);
      var x, y := Later(g, next.key, seen + {next.key}, taken + 1), Later(h, next.key, seen + {next.key}, taken + 1);
      PrefixUnderHead(current, [next.key] + x, [next.key] + y);
    }
  }

  lemma ForkIsLarger(s: set<Key>, k: Key)
    requires s != {} && k !in s
    ensures |s + {k}| > 1
  {
    assert |s + {k}| == |s| + 1;
  }

  lemma PrefixUnderHead(head: Key, x: seq<Key>, y: seq<Key>)
    ensures x < y ==> [head] + x < [head] + y
    ensures y < x ==> [head] + y < [head] + x
  {
  }

  // Adding one verified statement never redirects a lineage: its keys stay, stop early at the fork the
  // statement makes, or go on from where they ended.
  lemma AddingOneStatement(inputs: seq<Input>, options: Options, r: Rotation, key: Key)
    requires VerifyRotation(Some(r), options).Ok?
    ensures var g, h := GraphOf(inputs, options), GraphOf(inputs + [Some(r)], options);
      CutOrExtended(KeysOf(g, key), KeysOf(h, key), r.core.old', StopOf(g, key, {key}, 0), StopOf(h, key, {key}, 0))
  {
    var g, h := GraphOf(inputs, options), GraphOf(inputs + [Some(r)], options);
    assert (inputs + [Some(r)])[..|inputs|] == inputs;
    assert h == WithRotation(g, r);
    forall k
      ensures Successors(h, k) == if k == r.core.old' then Successors(g, k) + {r.core.new'} else Successors(g, k)
    {
    }
    GrownWalk(g, h, r.core.old', r.core.new', key, {key}, 0);
  }

  // A statement that does not verify changes nothing.
  lemma RejectedChangesNothing(inputs: seq<Input>, options: Options, input: Input)
    requires VerifyRotation(input, options).Rejected?
    ensures GraphOf(inputs + [input], options) == GraphOf(inputs, options)
  {
    assert (inputs + [input])[..|inputs|] == inputs;
  }

  // ---------------------------------------------------------------- resolving twice

  lemma {:induction false} StopAtEnd(g: Graph, current: Key, seen: set<Key>, taken: nat)
    requires taken <= MAX_ROTATION_DEPTH
    ensures var keys := [current] + Later(g, current, seen, taken);
      var last := Successors(g, keys[|keys| - 1]);
      && (StopOf(g, current, seen, taken) == End <==> last == {})
      && (StopOf(g, current, seen, taken) == Fork <==> |last| > 1)
    decreases MAX_ROTATION_DEPTH - taken
  {
    var next := Step(Successors(g, current), seen, taken);
    if next.To? {
      StopAtEnd(g, next.key, seen + {next.key}, taken + 1);
      StepsOn(g, current, seen, taken, next.key, Later(g, next.key, seen + {next.key}, taken + 1));
    } else {
      HaltsHere(g, current, seen, taken);
      assert [current] + [] == [current];
    }
  }

  lemma StepsOn(g: Graph, current: Key, seen: set<Key>, taken: nat, next: Key, rest: seq<Key>)
    requires taken < MAX_ROTATION_DEPTH && Step(Successors(g, current), seen, taken) == To(next)
    requires rest == Later(g, next, seen + {next}, taken + 1)
    ensures StopOf(g, current, seen, taken) == StopOf(g, next, seen + {next}, taken + 1)
    ensures var keys := [current] + Later(g, current, seen, taken); keys[|keys| - 1] == ([next] + rest)[|rest|]
  {
    assert Later(g, current, seen, taken) == [next] + rest;
  }

  function Current(g: Graph, key: Key): Key {
    KeysOf(g, key)[|KeysOf(g, key)| - 1]
  }

  // A key nothing rotates to itself resolves to itself exactly when it has no one successor.
  lemma StaysIff(g: Graph, current: Key, succ: set<Key>, later: seq<Key>)
    requires succ == Successors(g, current) && current !in succ && later == Later(g, current, {current}, 0)
    ensures Current(g, current) == current <==> |succ| != 1
  {
    assert Current(g, current) == ([current] + later)[|later|];
    if |succ| == 1 {
      LaterIsFresh(g, current, {current}, 0);
      assert later != [] && later[|later| - 1] in later;
    } else {
      assert |succ| == 0 ==> succ == {};
      HaltsHere(g, current, {current}, 0);
    }
  }

  // Why resolution stopped shows in how many successors the key it stopped at has.
  lemma StopsIff(g: Graph, key: Key, stop: Stop, succ: set<Key>)
    requires stop == StopOf(g, key, {key}, 0) && succ == Successors(g, Current(g, key))
    ensures stop == End || stop == Fork <==> |succ| != 1
  {
    StopAtEnd(g, key, {key}, 0);
    assert |succ| == 0 <==> succ == {};
  }

  lemma NothingRotatesToItself(inputs: seq<Input>, options: Options, key: Key)
    ensures key !in Successors(GraphOf(inputs, options), key)
  {
    if key in Successors(GraphOf(inputs, options), key) {
      GraphIsFiled(inputs, options, key, key);
    }
  }

  // The key resolved to resolves to itself exactly when resolution ended or forked there; one that
  // stopped at a cycle or at the depth bound moves on when it is asked about.
  lemma ResolvingTwice(inputs: seq<Input>, options: Options, key: Key, g: Graph, current: Key, stop: Stop)
    requires g == GraphOf(inputs, options) && current == Current(g, key) && stop == StopOf(g, key, {key}, 0)
    ensures Current(g, current) == current <==> stop == End || stop == Fork
  {
    var succ := Successors(g, current);
    StopsIff(g, key, stop, succ);
    NothingRotatesToItself(inputs, options, current);
    StaysIff(g, current, succ, Later(g, current, {current}, 0));
  }

  // The last entry of a lineage, the only one still open, is the key resolution arrives at.
  lemma CurrentIsLast(g: Graph, key: Key, lineage: seq<PartyKey>)
    requires IsLineage(g, key, lineage)
    ensures lineage != [] && lineage[|lineage| - 1] == PartyKey(Current(g, key), None)
    ensures forall i :: 0 <= i < |lineage| - 1 ==> lineage[i].supersededAt.Some?
  {
    var keys := KeysOf(g, key);
    forall i | 0 <= i < |lineage| - 1
      ensures lineage[i].supersededAt.Some?
    {
      assert keys[i] in g && keys[i + 1] in g[keys[i]];
    }
  }

  // A lineage that stops at a fork is the single key it started from if and only if that key is where
  // the fork is: an address is at a fork the last key before it.
  lemma ForkedLineageIsSingleIff(g: Graph, key: Key)
    requires StopOf(g, key, {key}, 0) == Fork
    ensures KeysOf(g, key) == [key] <==> |Successors(g, key)| > 1
    ensures |Successors(g, Current(g, key))| > 1
  {
    StopAtEnd(g, key, {key}, 0);
    if |Successors(g, key)| > 1 {
      HaltsHere(g, key, {key}, 0);
    }
  }

  // ---------------------------------------------------------------- the one walk

  // Why a walk stops at its last key, told by that key's successors.
  ghost predicate StopsFor(succ: set<Key>, keys: seq<Key>, stop: Stop) {
    match stop
    case End => succ == {}
    case Fork => exists x, y :: x in succ && y in succ && x != y
    case Cycle => exists k :: succ == {k} && k in keys
    case Depth => |keys| == 33 && exists k :: succ == {k} && k !in keys
  }

  // Each key but the last has the next one as its only successor, no key comes twice, there are at most 33,
  // and the walk stops for the reason given.
  ghost predicate IsWalk(g: Graph, key: Key, keys: seq<Key>, stop: Stop) {
    && 1 <= |keys| <= 33 && keys[0] == key && Distinct(keys)
    && (forall i :: 0 <= i < |keys| - 1 ==> Successors(g, keys[i]) == {keys[i + 1]})
    && StopsFor(Successors(g, keys[|keys| - 1]), keys, stop)
  }

  ghost predicate Holds(keys: seq<Key>, seen: set<Key>) {
    forall k :: k in keys <==> k in seen
  }

  lemma StepIs(succ: set<Key>, keys: seq<Key>, seen: set<Key>, taken: nat)
    requires Holds(keys, seen) && |keys| == taken + 1 && taken <= MAX_ROTATION_DEPTH
    ensures var next := Step(succ, seen, taken);
      match next
      case Halt(stop) => StopsFor(succ, keys, stop)
      case To(k) => succ == {k} && k !in keys && taken < 32
  {
    if |succ| > 1 {
      var x :| x in succ;
      assert |succ - {x}| == |succ| - 1;
      var y :| y in succ - {x};
    } else if succ != {} {
      assert |succ| == 1;
      assert succ == {Only(succ)};
    }
  }

  // Whatever goes on from here goes on alike.
  lemma StepIsForced(succ: set<Key>, keys: seq<Key>, seen: set<Key>, taken: nat, stop: Stop)
    requires Holds(keys, seen) && |keys| == taken + 1 && taken <= MAX_ROTATION_DEPTH
    requires StopsFor(succ, keys, stop)
    ensures Step(succ, seen, taken) == Halt(stop)
  {
    StepIs(succ, keys, seen, taken);
    match stop
    case Fork =>
      var x, y :| x in succ && y in succ && x != y;
      assert {x, y} <= succ && |succ| == |{x, y}| + |succ - {x, y}|;
    case Depth =>
      var k :| succ == {k} && k !in keys;
      assert k in {k} && |{k}| == 1;
    case Cycle =>
      var k :| succ == {k} && k in keys;
      assert k in {k} && |{k}| == 1;
    case End =>
  }

  // The walk has come along these keys.
  ghost predicate SoFar(g: Graph, keys: seq<Key>, seen: set<Key>, taken: nat) {
    && |keys| == taken + 1 && taken <= MAX_ROTATION_DEPTH && Holds(keys, seen) && Distinct(keys)
    && forall i :: 0 <= i < taken ==> Successors(g, keys[i]) == {keys[i + 1]}
  }

  lemma OneFurther(g: Graph, keys: seq<Key>, seen: set<Key>, taken: nat, k: Key)
    requires SoFar(g, keys, seen, taken) && taken < 32 && Successors(g, keys[taken]) == {k} && k !in keys
    ensures SoFar(g, keys + [k], seen + {k}, taken + 1)
  {
    var more := keys + [k];
    assert forall i :: 0 <= i <= taken ==> more[i] == keys[i];
    forall other
      ensures other in more <==> other in seen + {k}
    {
      assert other in more <==> other in keys || other == k;
    }
  }

  lemma LaterGoesOn(g: Graph, current: Key, seen: set<Key>, taken: nat, k: Key, keys: seq<Key>, whole: seq<Key>)
    requires taken <= MAX_ROTATION_DEPTH && Step(Successors(g, current), seen, taken) == To(k)
    requires whole == keys + Later(g, current, seen, taken)
    ensures taken < MAX_ROTATION_DEPTH && whole == keys + [k] + Later(g, k, seen + {k}, taken + 1)
    ensures StopOf(g, current, seen, taken) == StopOf(g, k, seen + {k}, taken + 1)
  {
  }

  lemma {:induction false} WalkGoesOn(g: Graph, keys: seq<Key>, current: Key, seen: set<Key>, taken: nat,
                                      whole: seq<Key>, stop: Stop)
    requires SoFar(g, keys, seen, taken) && current == keys[taken]
    requires whole == keys + Later(g, current, seen, taken) && stop == StopOf(g, current, seen, taken)
    ensures IsWalk(g, keys[0], whole, stop)
    decreases MAX_ROTATION_DEPTH - taken
  {
    var next := Step(Successors(g, current), seen, taken);
    StepIs(Successors(g, current), keys, seen, taken);
    match next
    case Halt(_) =>
      HaltsHere(g, current, seen, taken);
      assert whole == keys;
    case To(k) =>
      OneFurther(g, keys, seen, taken, k);
      LaterGoesOn(g, current, seen, taken, k, keys, whole);
      WalkGoesOn(g, keys + [k], k, seen + {k}, taken + 1, whole, stop);
  }

  // A walk that has more keys than these goes on to the next of them.
  lemma StepToOnly(g: Graph, keys: seq<Key>, seen: set<Key>, taken: nat, whole: seq<Key>, stop: Stop)
    requires SoFar(g, keys, seen, taken) && taken + 1 < |whole| && keys == whole[..taken + 1]
    requires IsWalk(g, keys[0], whole, stop)
    ensures var k := whole[taken + 1];
      && Successors(g, keys[taken]) == {k} && k !in keys && taken < 32
      && Step({k}, seen, taken) == To(k)
  {
    var k := whole[taken + 1];
    assert Successors(g, whole[taken]) == {whole[taken + 1]};
    assert k in {k} && |{k}| == 1;
    assert Only({k}) == k;
  }

  lemma {:induction false} WalkIsForced(g: Graph, keys: seq<Key>, current: Key, seen: set<Key>, taken: nat,
                                        whole: seq<Key>, stop: Stop)
    requires SoFar(g, keys, seen, taken) && current == keys[taken]
    requires keys <= whole && IsWalk(g, keys[0], whole, stop)
    ensures whole == keys + Later(g, current, seen, taken) && stop == StopOf(g, current, seen, taken)
    decreases |whole| - taken
  {
    if |whole| == taken + 1 {
      assert whole == keys;
      StepIsForced(Successors(g, current), keys, seen, taken, stop);
      HaltsHere(g, current, seen, taken);
    } else {
      var k := whole[taken + 1];
      StepToOnly(g, keys, seen, taken, whole, stop);
      OneFurther(g, keys, seen, taken, k);
      assert keys + [k] <= whole;
      WalkIsForced(g, keys + [k], k, seen + {k}, taken + 1, whole, stop);
      LaterGoesOn(g, current, seen, taken, k, keys, keys + Later(g, current, seen, taken));
    }
  }

  // The walk from a key is the one list of keys that goes on as long as there is exactly one successor, not
  // met before, within the depth bound; and it stops for the one reason there is.
  lemma WalkIsTheOne(g: Graph, key: Key, keys: seq<Key>, stop: Stop)
    ensures IsWalk(g, key, keys, stop) <==> keys == KeysOf(g, key) && stop == StopOf(g, key, {key}, 0)
  {
    WalkGoesOn(g, [key], key, {key}, 0, KeysOf(g, key), StopOf(g, key, {key}, 0));
    if IsWalk(g, key, keys, stop) {
      assert [key] <= keys;
      WalkIsForced(g, [key], key, {key}, 0, keys, stop);
    }
  }

  // Why a statement is refused: the first of these that holds.
  lemma RefusedFor(r: Rotation, options: Options)
    ensures VerifyRotation(None, options) == Rejected(Malformed)
    ensures var v := VerifyRotation(Some(r), options);
      && (v == Rejected(SelfRotation) <==> r.core.old' == r.core.new')
      && (v == Rejected(MissingOldKeySignature) <==> r.core.old' != r.core.new' && r.sig.None? && r.sigOld.None?)
      && (v == Rejected(LegacyUnverifiable) <==>
            r.core.old' != r.core.new' && r.sig.None? && r.sigOld.Some? && !options.acceptLegacySigOld)
      && v != Rejected(Malformed)
  {
  }

  // Every input that does not verify is reported as often as it came, and nothing else is.
  lemma {:induction false} RejectedIsExact(inputs: seq<Input>, options: Options, entry: (Input, Rejection))
    ensures multiset(RejectedOf(inputs, options))[entry] ==
            if VerifyRotation(entry.0, options) == Rejected(entry.1) then multiset(inputs)[entry.0] else 0
  {
    if inputs != [] {
      var n := |inputs| - 1;
      assert inputs == inputs[..n] + [inputs[n]];
      RejectedIsExact(inputs[..n], options, entry);
    }
  }

  // ---------------------------------------------------------------- statements that show it

  function Stated(old': Key, new': Key, at: int): Input {
    Some(Rotation(Core("1", old', new', at), Some(""), None))
  }

  function Trusting(): Options {
    Options((_: Core, _: Sig, _: Key) => true, false)
  }

  // Two statements of one link at two instants: the later listed one dates the lineage.
  lemma LinkDatedTwice()
    ensures SameStatements([Stated("a", "b", 1), Stated("a", "b", 2)], [Stated("a", "b", 2), Stated("a", "b", 1)])
    ensures LineageOf(GraphOf([Stated("a", "b", 1), Stated("a", "b", 2)], Trusting()), "a") ==
            [PartyKey("a", Some(2)), PartyKey("b", None)]
    ensures LineageOf(GraphOf([Stated("a", "b", 2), Stated("a", "b", 1)], Trusting()), "a") ==
            [PartyKey("a", Some(1)), PartyKey("b", None)]
  {
    TwoOfOneLink(1, 2);
    TwoOfOneLink(2, 1);
  }

  lemma TwoOfOneLink(x: int, y: int)
    ensures LineageOf(GraphOf([Stated("a", "b", x), Stated("a", "b", y)], Trusting()), "a") ==
            [PartyKey("a", Some(y)), PartyKey("b", None)]
  {
    var both := [Stated("a", "b", x), Stated("a", "b", y)];
    GraphOfTwo(both);
    var g := GraphOf(both, Trusting());
    assert g["a"] == map["b" := both[1].value];
    LineageOfOneLink(g, "a", "b");
  }

  lemma LineageOfOneLink(g: Graph, x: Key, y: Key)
    requires x != y && Successors(g, x) == {y} && Successors(g, y) == {}
    ensures LineageOf(g, x) == [PartyKey(x, Some(g[x][y].core.rotatedAt)), PartyKey(y, None)]
  {
    OneStep(g, x, y, {x}, 0);
    HaltsHere(g, y, {x} + {y}, 1);
    assert KeysOf(g, x) == [x, y] && [x, y][1..] == [y];
    assert Stamped(g, [y]) == [PartyKey(y, None)];
  }

  lemma GraphOfTwo(both: seq<Input>)
    requires |both| == 2 && both[0].Some? && both[1].Some?
    requires VerifyRotation(both[0], Trusting()) == Ok(both[0].value, BySig)
    requires VerifyRotation(both[1], Trusting()) == Ok(both[1].value, BySig)
    ensures GraphOf(both, Trusting()) == WithRotation(WithRotation(map[], both[0].value), both[1].value)
  {
    assert both[..1] == [both[0]] && [both[0]][..0] == [];
    assert GraphOf([both[0]], Trusting()) == WithRotation(map[], both[0].value);
  }

  lemma OneStep(g: Graph, current: Key, next: Key, seen: set<Key>, taken: nat)
    requires taken < MAX_ROTATION_DEPTH && Successors(g, current) == {next} && next !in seen
    ensures Later(g, current, seen, taken) == [next] + Later(g, next, seen + {next}, taken + 1)
    ensures StopOf(g, current, seen, taken) == StopOf(g, next, seen + {next}, taken + 1)
  {
    assert Only({next}) == next;
  }

  // Two keys that each replace the other: each resolves to the other one.
  lemma CycleGoesRound()
    ensures var g := GraphOf([Stated("a", "b", 1), Stated("b", "a", 2)], Trusting());
      StopOf(g, "a", {"a"}, 0) == Cycle && Current(g, "a") == "b" && Current(g, "b") == "a"
  {
    var both := [Stated("a", "b", 1), Stated("b", "a", 2)];
    GraphOfTwo(both);
    var g := GraphOf(both, Trusting());
    assert g == map["a" := map["b" := both[0].value], "b" := map["a" := both[1].value]];
    TurnsBack(g, "a", "b");
    TurnsBack(g, "b", "a");
  }

  lemma TurnsBack(g: Graph, x: Key, y: Key)
    requires x != y && Successors(g, x) == {y} && Successors(g, y) == {x}
    ensures StopOf(g, x, {x}, 0) == Cycle && KeysOf(g, x) == [x, y]
  {
    OneStep(g, x, y, {x}, 0);
    assert Only({x}) == x && |{x}| == 1 && {x} + {y} == {x, y};
    HaltsHere(g, y, {x, y}, 1);
  }

  // A fork one step on: the lineage is not the single key it started from.
  lemma ForkAfterOneStep()
    ensures var g := GraphOf([Stated("a", "b", 1), Stated("b", "c", 2), Stated("b", "d", 3)], Trusting());
      StopOf(g, "a", {"a"}, 0) == Fork && KeysOf(g, "a") == ["a", "b"]
  {
    var all := [Stated("a", "b", 1), Stated("b", "c", 2), Stated("b", "d", 3)];
    assert all[..2] == [all[0], all[1]];
    GraphOfTwo(all[..2]);
    var g := GraphOf(all, Trusting());
    assert g == WithRotation(GraphOf(all[..2], Trusting()), all[2].value);
    assert Successors(g, "a") == {"b"} && Successors(g, "b") == {"c", "d"};
    OneStep(g, "a", "b", {"a"}, 0);
    HaltsHere(g, "b", {"a"} + {"b"}, 1);
  }
}
