/**
 * The keyset of a vault: packages/crypto/src/content-key.ts. One content key is wrapped for each
 * passphrase slot and each device. Opening with a passphrase tries the slots in turn, within a budget
 * of derivation work that covers the whole call.
 *
 * The ciphers are functions: a box opens only under the key and nonce it was sealed with. Salts and
 * nonces are drawn by the caller, and a keyset's numbers are integers.
 */
module ContentKey {
  import opened Prelude

  type Key = seq<int>

  datatype Params = Params(m: int, t: int, p: int)

  function Work(params: Params): int {
    params.m * params.t * params.p
  }

  datatype Kdf = Kdf(salt: string, params: Params)

  datatype Kind = Passphrase | Device

  datatype Wrap = Wrap(kind: Kind, slot: string, nonce: string, ciphertext: string, kdf: Option<Kdf>)

  datatype Error =
    | TooManyCandidates | NotPositive | BadSalt | ShortSalt | TooMuchMemory | OverBudget | NothingOpened
    | EmptyPassphrase | BelowMemoryFloor | BelowWorkFloor | AboveMemoryCeiling | AboveWorkCeiling
    | NotDerivable | M16Violation

  datatype Result<+T> = Ok(value: T) | Err(error: Error)

  const DESKTOP: Params := Params(1_048_576, 2, 4)
  const CONSTRAINED: Params := Params(65_536, 3, 1)
  const MAX_UNWRAP_MEMORY_KIB: int := 2_097_152
  const MAX_UNWRAP_WORK: int := 16_777_216
  const MAX_PASSPHRASE_CANDIDATES: nat := 8
  const MIN_SALT_BYTES: nat := 16
  const MAX_SAFE_INTEGER: int := 9_007_199_254_740_991

  // ---------------------------------------------------------------- the ciphers

  datatype Suite = Suite(
    derive: (string, string, Params) -> Key,
    seal: (Key, string, Key) -> string,
    unseal: (Key, string, string) -> Option<Key>)

  // A box opens to what was sealed in it under its own key and to nothing under another; no box is
  // empty, and different passphrases derive different keys from one salt at one cost.
  ghost predicate Sound(suite: Suite) {
    && (forall k, n, c {:trigger suite.seal(k, n, c)} :: suite.seal(k, n, c) != "")
    && (forall k, n, c {:trigger suite.unseal(k, n, suite.seal(k, n, c))} ::
          suite.unseal(k, n, suite.seal(k, n, c)) == Some(c))
    && (forall j, k, n, c {:trigger suite.unseal(j, n, suite.seal(k, n, c))} ::
          j != k ==> suite.unseal(j, n, suite.seal(k, n, c)) == None)
    && (forall x, y, s, q {:trigger suite.derive(x, s, q), suite.derive(y, s, q)} ::
          suite.derive(x, s, q) == suite.derive(y, s, q) ==> x == y)
  }

  predicate IsHexDigit(c: char) {
    '0' <= c <= '9' || 'a' <= c <= 'f' || 'A' <= c <= 'F'
  }

  predicate IsHex(s: string) {
    |s| % 2 == 0 && forall c :: c in s ==> IsHexDigit(c)
  }

  // ---------------------------------------------------------------- what may be written, what may be opened

  predicate Positive(n: int) {
    1 <= n <= MAX_SAFE_INTEGER
  }

  // None when a wrap may be written at these parameters.
  function ProfileFault(params: Params): Option<Error> {
    if params.m < CONSTRAINED.m then Some(BelowMemoryFloor)
    else if Work(params) < Work(CONSTRAINED) then Some(BelowWorkFloor)
    else if params.m > MAX_UNWRAP_MEMORY_KIB then Some(AboveMemoryCeiling)
    else if Work(params) > MAX_UNWRAP_WORK then Some(AboveWorkCeiling)
    else None
  }

  // What is left of the budget once a wrap's derivation is paid for.
  function Spendable(kdf: Kdf, remaining: int): (r: Result<int>)
    ensures r.Ok? ==> 0 <= r.value < remaining && r.value == remaining - Work(kdf.params)
  {
    var params := kdf.params;
    if !(Positive(params.m) && Positive(params.t) && Positive(params.p)) then Err(NotPositive)
    else if !IsHex(kdf.salt) then Err(BadSalt)
    else if |kdf.salt| / 2 < MIN_SALT_BYTES then Err(ShortSalt)
    else if params.m > MAX_UNWRAP_MEMORY_KIB then Err(TooMuchMemory)
    else if Work(params) > remaining then Err(OverBudget)
    else
      WorkIsPositive(params);
      Ok(remaining - Work(params))
  }

  lemma WorkIsPositive(params: Params)
    requires params.m >= 1 && params.t >= 1 && params.p >= 1
    ensures Work(params) >= 1
    ensures Work(params) >= params.m && Work(params) >= params.t && Work(params) >= params.p
  {
    var mt := params.m * params.t;
    Grows(params.m, params.t);
    Grows(mt, params.p);
  }

  lemma Grows(x: int, y: int)
    requires x >= 1 && y >= 1
    ensures x * y >= x && x * y >= y
  {
    assert x * y - x == x * (y - 1);
    assert x * y - y == (x - 1) * y;
  }

  lemma NotPositiveTimes(x: int, y: int)
    ensures x >= 1 && y <= 0 ==> x * y <= 0
  {
  }

  lemma SignsAgree(x: int, y: int, z: int)
    requires x >= 1 && x * y * z >= 1
    ensures y >= 1 <==> z >= 1
  {
    assert x * y * z == x * (y * z);
    NotPositiveTimes(x, y * z);
    NotPositiveTimes(y, z);
    NotPositiveTimes(z, y);
  }

  // A profile the write path admits can be opened by itself exactly when its iteration count is
  // positive: nothing there looks at t and p one by one.
  lemma AdmittedOpensIff(params: Params, salt: string)
    requires ProfileFault(params).None? && IsHex(salt) && |salt| >= 2 * MIN_SALT_BYTES
    ensures Spendable(Kdf(salt, params), MAX_UNWRAP_WORK).Ok? <==> params.t >= 1
  {
    SignsAgree(params.m, params.t, params.p);
    if params.t >= 1 {
      WorkIsPositive(params);
    }
  }

  // Both named profiles are admitted, and two desktop slots fit one open.
  lemma NamedProfilesAreAdmitted()
    ensures ProfileFault(DESKTOP).None? && ProfileFault(CONSTRAINED).None?
    ensures 2 * Work(DESKTOP) == MAX_UNWRAP_WORK
  {
  }

  // A profile may be written exactly between the constrained profile and what one open may cost.
  lemma AdmittedIff(params: Params)
    ensures ProfileFault(params).None? <==>
            65_536 <= params.m <= 2_097_152 && 196_608 <= params.m * params.t * params.p <= 16_777_216
    ensures ProfileFault(params) == Some(BelowMemoryFloor) <==> params.m < 65_536
  {
  }

  // A slot can be paid for exactly when its parameters are positive, its salt is at least sixteen octets, its
  // memory is within the ceiling, and its work is within what remains.
  lemma SpendableIff(kdf: Kdf, remaining: int)
    ensures Spendable(kdf, remaining).Ok? <==>
            && Positive(kdf.params.m) && Positive(kdf.params.t) && Positive(kdf.params.p)
            && IsHex(kdf.salt) && |kdf.salt| >= 32 && kdf.params.m <= 2_097_152
            && kdf.params.m * kdf.params.t * kdf.params.p <= remaining
  {
  }

  // ---------------------------------------------------------------- opening with a passphrase

  // The passphrase slots considered: all of them, or those of one name.
  function Candidates(wraps: seq<Wrap>, kind: Kind, slot: Option<string>): seq<Wrap> {
    if wraps == [] then []
    else
      var rest := Candidates(wraps[1..], kind, slot);
      if wraps[0].kind == kind && (slot.None? || wraps[0].slot == slot.value) then [wraps[0]] + rest else rest
  }

  predicate Offers(w: Wrap, kind: Kind, slot: Option<string>) {
    w.kind == kind && (slot.Some? ==> w.slot == slot.value)
  }

  // The wraps of the kind and name asked for, each as often as it comes, and no others.
  lemma {:induction false} CandidatesAreExact(wraps: seq<Wrap>, kind: Kind, slot: Option<string>, w: Wrap)
    ensures multiset(Candidates(wraps, kind, slot))[w] == if Offers(w, kind, slot) then multiset(wraps)[w] else 0
  {
    if wraps != [] {
      CandidatesAreExact(wraps[1..], kind, slot, w);
      assert wraps == [wraps[0]] + wraps[1..];
    }
  }

  // They stay in the order of the keyset.
  lemma {:induction false} CandidatesInOrder(x: seq<Wrap>, y: seq<Wrap>, kind: Kind, slot: Option<string>)
    ensures Candidates(x + y, kind, slot) == Candidates(x, kind, slot) + Candidates(y, kind, slot)
    decreases |x|
  {
    if x == [] {
      assert x + y == y;
    } else {
      assert (x + y)[1..] == x[1..] + y;
      CandidatesInOrder(x[1..], y, kind, slot);
    }
  }

  function OpenWith(suite: Suite, passphrase: string, w: Wrap): Option<Key>
    requires w.kdf.Some?
  {
    suite.unseal(suite.derive(passphrase, w.kdf.value.salt, w.kdf.value.params), w.nonce, w.ciphertext)
  }

  function Try(suite: Suite, passphrase: string, candidates: seq<Wrap>, budget: int): Result<Key>
    decreases |candidates|
  {
    if candidates == [] then Err(NothingOpened)
    else if candidates[0].kdf.None? then Try(suite, passphrase, candidates[1..], budget)
    else
      var left := Spendable(candidates[0].kdf.value, budget);
      if left.Err? then Err(left.error)
      else
        var got := OpenWith(suite, passphrase, candidates[0]);
        if got.Some? then Ok(got.value) else Try(suite, passphrase, candidates[1..], left.value)
  }

  function Unwrap(suite: Suite, wraps: seq<Wrap>, passphrase: string, slot: Option<string>): Result<Key> {
    var candidates := Candidates(wraps, Passphrase, slot);
    if |candidates| > MAX_PASSPHRASE_CANDIDATES then Err(TooManyCandidates)
    else Try(suite, passphrase, candidates, MAX_UNWRAP_WORK)
  }

  // The derivations an open makes, in turn: one for each slot it comes to, until it is refused or opens one.
  function Derived(suite: Suite, passphrase: string, candidates: seq<Wrap>, budget: int): seq<Params>
    decreases |candidates|
  {
    if candidates == [] then []
    else if candidates[0].kdf.None? then Derived(suite, passphrase, candidates[1..], budget)
    else
      var left := Spendable(candidates[0].kdf.value, budget);
      if left.Err? then []
      else
        var more := if OpenWith(suite, passphrase, candidates[0]).Some? then []
                    else Derived(suite, passphrase, candidates[1..], left.value);
        [candidates[0].kdf.value.params] + more
  }

  function Derivations(suite: Suite, wraps: seq<Wrap>, passphrase: string, slot: Option<string>): seq<Params> {
    var candidates := Candidates(wraps, Passphrase, slot);
    if |candidates| > MAX_PASSPHRASE_CANDIDATES then [] else Derived(suite, passphrase, candidates, MAX_UNWRAP_WORK)
  }

  method UnwrapWithPassphrase(suite: Suite, wraps: seq<Wrap>, passphrase: string, slot: Option<string>)
    returns (r: Result<Key>, derived: seq<Params>)
    ensures r == Unwrap(suite, wraps, passphrase, slot)
    ensures derived == Derivations(suite, wraps, passphrase, slot)
  {
    derived := [];
    var candidates := Candidates(wraps, Passphrase, slot);
    if |candidates| > MAX_PASSPHRASE_CANDIDATES {
      return Err(TooManyCandidates), derived;
    }
    var budget := MAX_UNWRAP_WORK;
    assert candidates[0..] == candidates;
    for i := 0 to |candidates|
      invariant Try(suite, passphrase, candidates[i..], budget) == Unwrap(suite, wraps, passphrase, slot)
      invariant derived + Derived(suite, passphrase, candidates[i..], budget)
                == Derivations(suite, wraps, passphrase, slot)
    {
      assert candidates[i..][0] == candidates[i] && candidates[i..][1..] == candidates[i + 1..];
      var w := candidates[i];
      if w.kdf.None? {
        continue;
      }
      var left := Spendable(w.kdf.value, budget);
      if left.Err? {
        return Err(left.error), derived;
      }
      budget := left.value;
      derived := derived + [w.kdf.value.params];
      var got := OpenWith(suite, passphrase, w);
      if got.Some? {
        return Ok(got.value), derived;
      }
    }
    return Err(NothingOpened), derived;
  }

  function TotalWork(all: seq<Params>): int {
    if all == [] then 0 else Work(all[0]) + TotalWork(all[1..])
  }

  // Nothing about it costs more than one open may: every parameter is positive and the memory is bounded.
  predicate Bounded(params: Params) {
    params.t >= 1 && params.p >= 1 && 1 <= params.m <= MAX_UNWRAP_MEMORY_KIB && Work(params) >= 1
  }

  lemma {:induction false} DerivedWithin(suite: Suite, passphrase: string, candidates: seq<Wrap>, budget: int)
    requires budget >= 0
    ensures var all := Derived(suite, passphrase, candidates, budget);
      && |all| <= |candidates| && TotalWork(all) <= budget
      && forall i :: 0 <= i < |all| ==> Bounded(all[i])
    decreases |candidates|
  {
    if candidates == [] {
    } else if candidates[0].kdf.None? {
      DerivedWithin(suite, passphrase, candidates[1..], budget);
    } else {
      var left := Spendable(candidates[0].kdf.value, budget);
      if left.Ok? {
        WorkIsPositive(candidates[0].kdf.value.params);
        DerivedWithin(suite, passphrase, candidates[1..], left.value);
      }
    }
  }

  // Opening derives at most eight keys, each within the memory ceiling, and all of them together cost
  // no more than the budget, whatever the keyset asks for.
  lemma OpeningIsBounded(suite: Suite, wraps: seq<Wrap>, passphrase: string, slot: Option<string>)
    ensures var all := Derivations(suite, wraps, passphrase, slot);
      && |all| <= MAX_PASSPHRASE_CANDIDATES && TotalWork(all) <= MAX_UNWRAP_WORK
      && forall i :: 0 <= i < |all| ==> Bounded(all[i])
  {
    var candidates := Candidates(wraps, Passphrase, slot);
    if |candidates| <= MAX_PASSPHRASE_CANDIDATES {
      DerivedWithin(suite, passphrase, candidates, MAX_UNWRAP_WORK);
    }
  }

  // The derivations these slots ask for.
  function Asked(candidates: seq<Wrap>): seq<Kdf> {
    if candidates == [] then []
    else (if candidates[0].kdf.Some? then [candidates[0].kdf.value] else []) + Asked(candidates[1..])
  }

  function ParamsOf(all: seq<Kdf>): seq<Params> {
    if all == [] then [] else [all[0].params] + ParamsOf(all[1..])
  }

  // Each of them can be made at all, and all of them together are within the budget.
  predicate Affordable(all: seq<Kdf>, budget: int) {
    && TotalWork(ParamsOf(all)) <= budget
    && forall i :: 0 <= i < |all| ==> Spendable(all[i], Work(all[i].params)).Ok?
  }

  // The i-th slot opens to the key, no slot before it opens, and the way there is affordable.
  predicate FirstToOpen(suite: Suite, passphrase: string, candidates: seq<Wrap>, budget: int, i: nat, key: Key)
    requires i < |candidates|
  {
    && candidates[i].kdf.Some? && OpenWith(suite, passphrase, candidates[i]) == Some(key)
    && (forall j :: 0 <= j < i && candidates[j].kdf.Some? ==> OpenWith(suite, passphrase, candidates[j]).None?)
    && Affordable(Asked(candidates[..i + 1]), budget)
  }

  ghost predicate OpensTo(suite: Suite, passphrase: string, candidates: seq<Wrap>, budget: int, key: Key) {
    exists i :: 0 <= i < |candidates| && FirstToOpen(suite, passphrase, candidates, budget, i, key)
  }

  lemma SpendableAt(kdf: Kdf, budget: int)
    ensures Spendable(kdf, budget).Ok? <==> Spendable(kdf, Work(kdf.params)).Ok? && Work(kdf.params) <= budget
    ensures Spendable(kdf, Work(kdf.params)).Ok? ==> Work(kdf.params) >= 1
  {
    if Spendable(kdf, Work(kdf.params)).Ok? {
      WorkIsPositive(kdf.params);
    }
  }

  lemma {:induction false} TotalIsPositive(all: seq<Kdf>)
    requires forall i :: 0 <= i < |all| ==> Spendable(all[i], Work(all[i].params)).Ok?
    ensures TotalWork(ParamsOf(all)) >= 0
  {
    if all != [] {
      SpendableAt(all[0], 0);
      TotalIsPositive(all[1..]);
    }
  }

  lemma AffordableCons(first: Kdf, rest: seq<Kdf>, budget: int)
    ensures Affordable([first] + rest, budget) <==>
            Spendable(first, Work(first.params)).Ok? && Affordable(rest, budget - Work(first.params))
    ensures Affordable([first] + rest, budget) ==> Work(first.params) <= budget
  {
    var all := [first] + rest;
    assert all[1..] == rest;
    assert ParamsOf(all)[1..] == ParamsOf(rest);
    assert forall i :: 0 < i < |all| ==> all[i] == rest[i - 1];
    if Affordable(all, budget) {
      assert Spendable(all[0], Work(all[0].params)).Ok?;
      assert forall i :: 0 <= i < |rest| ==> rest[i] == all[i + 1];
      TotalIsPositive(rest);
    }
  }

  // Whether the open goes past the first slot, and what is then left to spend.
  predicate Passes(suite: Suite, passphrase: string, w: Wrap, budget: int) {
    w.kdf.Some? ==> OpenWith(suite, passphrase, w).None? && Spendable(w.kdf.value, budget).Ok?
  }

  function Left(w: Wrap, budget: int): int {
    if w.kdf.Some? then budget - Work(w.kdf.value.params) else budget
  }

  lemma OpensAtOnce(suite: Suite, passphrase: string, candidates: seq<Wrap>, budget: int, key: Key)
    requires candidates != []
    ensures FirstToOpen(suite, passphrase, candidates, budget, 0, key) <==>
            candidates[0].kdf.Some? && OpenWith(suite, passphrase, candidates[0]) == Some(key) &&
            Spendable(candidates[0].kdf.value, budget).Ok?
  {
    assert candidates[..1] == [candidates[0]] && [candidates[0]][1..] == [];
    if candidates[0].kdf.Some? {
      var kdf := candidates[0].kdf.value;
      assert Asked([candidates[0]]) == [kdf] + [];
      AffordableCons(kdf, [], budget);
      SpendableAt(kdf, budget);
    }
  }

  lemma OpensLater(suite: Suite, passphrase: string, candidates: seq<Wrap>, budget: int, i: nat, key: Key)
    requires 0 < i < |candidates|
    ensures FirstToOpen(suite, passphrase, candidates, budget, i, key) <==>
            Passes(suite, passphrase, candidates[0], budget) &&
            FirstToOpen(suite, passphrase, candidates[1..], Left(candidates[0], budget), i - 1, key)
  {
    var first, rest := candidates[0], candidates[1..];
    assert candidates[..i + 1] == [first] + rest[..i];
    assert ([first] + rest[..i])[1..] == rest[..i];
    assert forall j :: 0 < j < |candidates| ==> candidates[j] == rest[j - 1];
    if first.kdf.Some? {
      assert Asked(candidates[..i + 1]) == [first.kdf.value] + Asked(rest[..i]);
      AffordableCons(first.kdf.value, Asked(rest[..i]), budget);
      SpendableAt(first.kdf.value, budget);
    } else {
      assert Asked(candidates[..i + 1]) == Asked(rest[..i]);
    }
    ClosedBefore(suite, passphrase, candidates, rest, i);
  }

  lemma ClosedBefore(suite: Suite, passphrase: string, candidates: seq<Wrap>, rest: seq<Wrap>, i: nat)
    requires 0 < i < |candidates| && rest == candidates[1..]
    ensures (forall j :: 0 <= j < i && candidates[j].kdf.Some? ==> OpenWith(suite, passphrase, candidates[j]).None?)
            <==>
            (candidates[0].kdf.Some? ==> OpenWith(suite, passphrase, candidates[0]).None?) &&
            (forall j :: 0 <= j < i - 1 && rest[j].kdf.Some? ==> OpenWith(suite, passphrase, rest[j]).None?)
  {
    assert forall j :: 0 < j < |candidates| ==> candidates[j] == rest[j - 1];
    assert forall j :: 0 <= j < |rest| ==> rest[j] == candidates[j + 1];
  }

  // An open gives a key exactly when some slot is the first to open and the slots up to it are affordable.
  lemma {:induction false} OpensIff(suite: Suite, passphrase: string, candidates: seq<Wrap>, budget: int, key: Key)
    ensures Try(suite, passphrase, candidates, budget) == Ok(key) <==>
            OpensTo(suite, passphrase, candidates, budget, key)
    decreases |candidates|
  {
    if candidates != [] {
      var rest, left := candidates[1..], Left(candidates[0], budget);
      OpensIff(suite, passphrase, rest, left, key);
      OpensAtOnce(suite, passphrase, candidates, budget, key);
      if Passes(suite, passphrase, candidates[0], budget) && OpensTo(suite, passphrase, rest, left, key) {
        var i :| 0 <= i < |rest| && FirstToOpen(suite, passphrase, rest, left, i, key);
        OpensLater(suite, passphrase, candidates, budget, i + 1, key);
      }
      if OpensTo(suite, passphrase, candidates, budget, key) {
        var i :| 0 <= i < |candidates| && FirstToOpen(suite, passphrase, candidates, budget, i, key);
        if i > 0 {
          OpensLater(suite, passphrase, candidates, budget, i, key);
        }
      }
    }
  }

  // A keyset opens to a key with a passphrase exactly when it offers at most eight slots, one of them is the
  // first to open to that key, and the slots up to it are affordable.
  lemma UnwrapsIff(suite: Suite, wraps: seq<Wrap>, passphrase: string, slot: Option<string>, key: Key)
    ensures var candidates := Candidates(wraps, Passphrase, slot);
      Unwrap(suite, wraps, passphrase, slot) == Ok(key) <==>
      |candidates| <= MAX_PASSPHRASE_CANDIDATES && OpensTo(suite, passphrase, candidates, MAX_UNWRAP_WORK, key)
  {
    OpensIff(suite, passphrase, Candidates(wraps, Passphrase, slot), MAX_UNWRAP_WORK, key);
  }

  // ---------------------------------------------------------------- opening with a device

  function TryDevice(suite: Suite, key: Key, candidates: seq<Wrap>): Result<Key>
    decreases |candidates|
  {
    if candidates == [] then Err(NothingOpened)
    else
      var got := suite.unseal(key, candidates[0].nonce, candidates[0].ciphertext);
      if got.Some? then Ok(got.value) else TryDevice(suite, key, candidates[1..])
  }

  function UnwrapDevice(suite: Suite, wraps: seq<Wrap>, key: Key, slot: Option<string>): Result<Key> {
    TryDevice(suite, key, Candidates(wraps, Device, slot))
  }

  method UnwrapWithDevice(suite: Suite, wraps: seq<Wrap>, key: Key, slot: Option<string>) returns (r: Result<Key>)
    ensures r == UnwrapDevice(suite, wraps, key, slot)
  {
    var candidates := Candidates(wraps, Device, slot);
    assert candidates[0..] == candidates;
    for i := 0 to |candidates|
      invariant TryDevice(suite, key, candidates[i..]) == UnwrapDevice(suite, wraps, key, slot)
    {
      assert candidates[i..][0] == candidates[i] && candidates[i..][1..] == candidates[i + 1..];
      var got := suite.unseal(key, candidates[i].nonce, candidates[i].ciphertext);
      if got.Some? {
        return Ok(got.value);
      }
    }
    return Err(NothingOpened);
  }

  // The i-th slot opens under the device's key, and none before it does.
  predicate FirstForDevice(suite: Suite, key: Key, candidates: seq<Wrap>, i: nat, got: Key)
    requires i < |candidates|
  {
    && suite.unseal(key, candidates[i].nonce, candidates[i].ciphertext) == Some(got)
    && forall j :: 0 <= j < i ==> suite.unseal(key, candidates[j].nonce, candidates[j].ciphertext).None?
  }

  lemma {:induction false} DeviceOpensIff(suite: Suite, key: Key, candidates: seq<Wrap>, got: Key)
    ensures TryDevice(suite, key, candidates) == Ok(got) <==>
            exists i :: 0 <= i < |candidates| && FirstForDevice(suite, key, candidates, i, got)
    decreases |candidates|
  {
    if candidates != [] {
      var rest := candidates[1..];
      DeviceOpensIff(suite, key, rest, got);
      if suite.unseal(key, candidates[0].nonce, candidates[0].ciphertext).Some? {
        assert TryDevice(suite, key, candidates) == Ok(got) ==> FirstForDevice(suite, key, candidates, 0, got);
      } else {
        forall i | 0 <= i < |rest|
          ensures FirstForDevice(suite, key, rest, i, got) <==> FirstForDevice(suite, key, candidates, i + 1, got)
        {
          FirstOneOn(suite, key, candidates, i, got);
        }
        if i :| 0 <= i < |candidates| && FirstForDevice(suite, key, candidates, i, got) {
          assert FirstForDevice(suite, key, rest, i - 1, got);
        }
      }
    }
  }

  lemma FirstOneOn(suite: Suite, key: Key, candidates: seq<Wrap>, i: nat, got: Key)
    requires i + 1 < |candidates| && suite.unseal(key, candidates[0].nonce, candidates[0].ciphertext).None?
    ensures FirstForDevice(suite, key, candidates[1..], i, got) <==> FirstForDevice(suite, key, candidates, i + 1, got)
  {
    var rest := candidates[1..];
    assert forall j :: 0 <= j < |rest| ==> rest[j] == candidates[j + 1];
    assert forall j :: 0 < j < |candidates| ==> candidates[j] == rest[j - 1];
  }

  // ---------------------------------------------------------------- sealing and wrapping again

  predicate Usable(w: Wrap) {
    && w.kind == Passphrase && w.kdf.Some?
    && Positive(w.kdf.value.params.m) && Positive(w.kdf.value.params.t) && Positive(w.kdf.value.params.p)
    && |w.kdf.value.salt| >= MIN_SALT_BYTES * 2
    && w.ciphertext != ""
  }

  // M-16: some passphrase slot could be opened, so no device is the only custodian.
  predicate HasCustodian(wraps: seq<Wrap>) {
    exists i :: 0 <= i < |wraps| && Usable(wraps[i])
  }

  function Seal(wraps: seq<Wrap>): Result<seq<Wrap>> {
    if HasCustodian(wraps) then Ok(wraps) else Err(M16Violation)
  }

  datatype Draw = Draw(salt: string, nonce: string)

  predicate Drawn(d: Draw) {
    |d.salt| == 2 * MIN_SALT_BYTES && IsHex(d.salt)
  }

  // The derivation itself takes only positive parameters.
  function WrapForPassphrase(suite: Suite, key: Key, passphrase: string, slot: string, params: Params, d: Draw)
    : Result<Wrap>
  {
    if passphrase == "" then Err(EmptyPassphrase)
    else if ProfileFault(params).Some? then Err(ProfileFault(params).value)
    else if params.t < 1 || params.p < 1 then Err(NotDerivable)
    else
      var kek := suite.derive(passphrase, d.salt, params);
      Ok(Wrap(Passphrase, slot, d.nonce, suite.seal(kek, d.nonce, key), Some(Kdf(d.salt, params))))
  }

  function Rewrapped(suite: Suite, key: Key, passphrase: string, params: Params, wraps: seq<Wrap>, draws: seq<Draw>)
    : Result<seq<Wrap>>
    requires |draws| == |wraps|
    decreases |wraps|
  {
    if wraps == [] then Ok([])
    else
      var first :=
        if wraps[0].kind == Passphrase then WrapForPassphrase(suite, key, passphrase, wraps[0].slot, params, draws[0])
        else Ok(wraps[0]);
      if first.Err? then Err(first.error)
      else
        var rest := Rewrapped(suite, key, passphrase, params, wraps[1..], draws[1..]);
        if rest.Err? then Err(rest.error) else Ok([first.value] + rest.value)
  }

  function RewrapPassphrase(suite: Suite, wraps: seq<Wrap>, passphrase: string, params: Params, draws: seq<Draw>)
    : Result<seq<Wrap>>
    requires |draws| == |wraps|
  {
    var got := Unwrap(suite, wraps, passphrase, None);
    if got.Err? then Err(got.error)
    else
      var again := Rewrapped(suite, got.value, passphrase, params, wraps, draws);
      if again.Err? then Err(again.error) else Seal(again.value)
  }

  // ---------------------------------------------------------------- what wrapping again keeps

  // A slot freshly wrapped for a passphrase at an admitted cost.
  ghost predicate Fresh(suite: Suite, key: Key, passphrase: string, params: Params, w: Wrap) {
    && ProfileFault(params).None? && params.t >= 1 && params.p >= 1
    && w.kdf.Some? && w.kdf.value.params == params
    && |w.kdf.value.salt| == 2 * MIN_SALT_BYTES && IsHex(w.kdf.value.salt)
    && w.ciphertext == suite.seal(suite.derive(passphrase, w.kdf.value.salt, params), w.nonce, key)
  }

  lemma {:induction false} RewrappedSlots(suite: Suite, key: Key, passphrase: string, params: Params, wraps: seq<Wrap>,
                                          draws: seq<Draw>, slot: Option<string>, after: seq<Wrap>)
    requires |draws| == |wraps| && (forall i :: 0 <= i < |draws| ==> Drawn(draws[i]))
    requires Rewrapped(suite, key, passphrase, params, wraps, draws) == Ok(after)
    ensures Candidates(after, Device, slot) == Candidates(wraps, Device, slot)
    ensures |Candidates(after, Passphrase, slot)| == |Candidates(wraps, Passphrase, slot)|
    ensures forall i :: 0 <= i < |Candidates(after, Passphrase, slot)| ==>
              Fresh(suite, key, passphrase, params, Candidates(after, Passphrase, slot)[i])
    decreases |wraps|
  {
    if wraps != [] {
      var rest := Rewrapped(suite, key, passphrase, params, wraps[1..], draws[1..]).value;
      RewrappedSlots(suite, key, passphrase, params, wraps[1..], draws[1..], slot, rest);
      assert after[1..] == rest;
    }
  }

  lemma FreshOpens(suite: Suite, key: Key, passphrase: string, params: Params, candidates: seq<Wrap>)
    requires Sound(suite) && candidates != [] && Fresh(suite, key, passphrase, params, candidates[0])
    ensures Try(suite, passphrase, candidates, MAX_UNWRAP_WORK) == Ok(key)
  {
    var kdf := candidates[0].kdf.value;
    AdmittedOpensIff(params, kdf.salt);
    assert kdf == Kdf(kdf.salt, params);
    var kek := suite.derive(passphrase, kdf.salt, params);
    assert suite.unseal(kek, candidates[0].nonce, suite.seal(kek, candidates[0].nonce, key)) == Some(key);
  }

  lemma {:induction false} FreshStaysShut(suite: Suite, key: Key, passphrase: string, other: string, params: Params,
                                          candidates: seq<Wrap>, budget: int)
    requires Sound(suite) && other != passphrase
    requires forall i :: 0 <= i < |candidates| ==> Fresh(suite, key, passphrase, params, candidates[i])
    ensures Try(suite, other, candidates, budget).Err?
    decreases |candidates|
  {
    if candidates != [] {
      var w := candidates[0];
      var salt := w.kdf.value.salt;
      var mine, theirs := suite.derive(passphrase, salt, params), suite.derive(other, salt, params);
      assert mine != theirs;
      assert suite.unseal(theirs, w.nonce, suite.seal(mine, w.nonce, key)) == None;
      var left := Spendable(w.kdf.value, budget);
      if left.Ok? {
        FreshStaysShut(suite, key, passphrase, other, params, candidates[1..], left.value);
      }
    }
  }

  lemma SlotsWithoutPassphrase(suite: Suite, wraps: seq<Wrap>, passphrase: string)
    requires Unwrap(suite, wraps, passphrase, None).Ok?
    ensures 0 < |Candidates(wraps, Passphrase, None)| <= MAX_PASSPHRASE_CANDIDATES
  {
  }

  // After the passphrase slots are wrapped again, the passphrase opens the same content key, from any
  // slot name that had one; every device opens what it opened; some passphrase slot is usable; and
  // every other passphrase opens nothing, even one that had a slot of its own.
  lemma RewrapKeepsTheKey(suite: Suite, wraps: seq<Wrap>, passphrase: string, params: Params, draws: seq<Draw>,
                          after: seq<Wrap>)
    requires Sound(suite) && |draws| == |wraps| && (forall i :: 0 <= i < |draws| ==> Drawn(draws[i]))
    requires RewrapPassphrase(suite, wraps, passphrase, params, draws) == Ok(after)
    ensures Unwrap(suite, after, passphrase, None) == Unwrap(suite, wraps, passphrase, None)
    ensures forall slot :: 0 < |Candidates(wraps, Passphrase, slot)| <= MAX_PASSPHRASE_CANDIDATES ==>
              Unwrap(suite, after, passphrase, slot) == Unwrap(suite, wraps, passphrase, None)
    ensures forall key, slot :: UnwrapDevice(suite, after, key, slot) == UnwrapDevice(suite, wraps, key, slot)
    ensures HasCustodian(after)
    ensures forall other, slot :: other != passphrase ==> Unwrap(suite, after, other, slot).Err?
  {
    var key := Unwrap(suite, wraps, passphrase, None).value;
    SlotsWithoutPassphrase(suite, wraps, passphrase);
    forall slot
      ensures Candidates(after, Device, slot) == Candidates(wraps, Device, slot)
      ensures |Candidates(after, Passphrase, slot)| == |Candidates(wraps, Passphrase, slot)|
      ensures 0 < |Candidates(wraps, Passphrase, slot)| <= 8 ==> Unwrap(suite, after, passphrase, slot) == Ok(key)
    {
      RewrappedSlots(suite, key, passphrase, params, wraps, draws, slot, after);
      if 0 < |Candidates(wraps, Passphrase, slot)| <= 8 {
        FreshOpens(suite, key, passphrase, params, Candidates(after, Passphrase, slot));
      }
    }
    forall other, slot | other != passphrase
      ensures Unwrap(suite, after, other, slot).Err?
    {
      RewrappedSlots(suite, key, passphrase, params, wraps, draws, slot, after);
      FreshStaysShut(suite, key, passphrase, other, params, Candidates(after, Passphrase, slot), MAX_UNWRAP_WORK);
    }
  }

  // A fresh slot can be made exactly from a passphrase that is not empty, at an admitted profile the derivation
  // takes.
  predicate Makeable(passphrase: string, params: Params) {
    passphrase != "" && ProfileFault(params).None? && params.t >= 1 && params.p >= 1
  }

  lemma WrapsIff(suite: Suite, key: Key, passphrase: string, slot: string, params: Params, d: Draw)
    requires Drawn(d)
    ensures var w := WrapForPassphrase(suite, key, passphrase, slot, params, d);
      && (w.Ok? <==> Makeable(passphrase, params))
      && (w.Ok? && Sound(suite) ==> Usable(w.value) && w.value.slot == slot &&
                                    Fresh(suite, key, passphrase, params, w.value))
  {
    if Makeable(passphrase, params) {
      WorkIsPositive(params);
      var kek := suite.derive(passphrase, d.salt, params);
      assert Sound(suite) ==> suite.seal(kek, d.nonce, key) != "";
    }
  }

  // What stands where after wrapping again: a device's wrap as it was, a passphrase slot under its name.
  ghost predicate InPlace(suite: Suite, key: Key, passphrase: string, params: Params, w: Wrap, now: Wrap) {
    if w.kind == Device then now == w
    else
      now.kind == Passphrase && now.slot == w.slot && Usable(now) && Fresh(suite, key, passphrase, params, now)
  }

  lemma {:induction false} RewrappedInPlace(suite: Suite, key: Key, passphrase: string, params: Params,
                                            wraps: seq<Wrap>, draws: seq<Draw>)
    requires |draws| == |wraps| && Sound(suite) && forall i :: 0 <= i < |draws| ==> Drawn(draws[i])
    ensures var r := Rewrapped(suite, key, passphrase, params, wraps, draws);
      && (r.Ok? <==> (Makeable(passphrase, params) || forall i :: 0 <= i < |wraps| ==> wraps[i].kind == Device))
      && (r.Ok? ==> |r.value| == |wraps| &&
                    forall i :: 0 <= i < |wraps| ==> InPlace(suite, key, passphrase, params, wraps[i], r.value[i]))
    decreases |wraps|
  {
    if wraps != [] {
      RewrappedInPlace(suite, key, passphrase, params, wraps[1..], draws[1..]);
      WrapsIff(suite, key, passphrase, wraps[0].slot, params, draws[0]);
      assert wraps == [wraps[0]] + wraps[1..];
    }
  }

  lemma {:induction false} SomePassphraseSlot(wraps: seq<Wrap>, slot: Option<string>)
    requires Candidates(wraps, Passphrase, slot) != []
    ensures exists i :: 0 <= i < |wraps| && wraps[i].kind == Passphrase
  {
    if !(wraps[0].kind == Passphrase) {
      SomePassphraseSlot(wraps[1..], slot);
      var i :| 0 <= i < |wraps[1..]| && wraps[1..][i].kind == Passphrase;
      assert wraps[i + 1].kind == Passphrase;
    }
  }

  // Wrapping again succeeds exactly when the passphrase opens the keyset and a fresh slot can be made, and then
  // every wrap stands where it stood.
  lemma RewrapsIff(suite: Suite, wraps: seq<Wrap>, passphrase: string, params: Params, draws: seq<Draw>)
    requires Sound(suite) && |draws| == |wraps| && forall i :: 0 <= i < |draws| ==> Drawn(draws[i])
    ensures var got := Unwrap(suite, wraps, passphrase, None);
      var after := RewrapPassphrase(suite, wraps, passphrase, params, draws);
      && (after.Ok? <==> got.Ok? && Makeable(passphrase, params))
      && (after.Ok? ==> |after.value| == |wraps| &&
                        forall i :: 0 <= i < |wraps| ==>
                          InPlace(suite, got.value, passphrase, params, wraps[i], after.value[i]))
  {
    var got := Unwrap(suite, wraps, passphrase, None);
    if got.Ok? {
      SlotsWithoutPassphrase(suite, wraps, passphrase);
      SomePassphraseSlot(wraps, None);
      RewrappedInPlace(suite, got.value, passphrase, params, wraps, draws);
      var again := Rewrapped(suite, got.value, passphrase, params, wraps, draws);
      var i :| 0 <= i < |wraps| && wraps[i].kind == Passphrase;
      assert again.Ok? ==> InPlace(suite, got.value, passphrase, params, wraps[i], again.value[i]);
    }
  }

  // A slot that counts as a custodian can be paid for exactly when its salt is hexadecimal and its memory and
  // its work are within the ceilings: the custody check looks at none of the three.
  lemma UsableIsSpendableIff(w: Wrap)
    requires Usable(w)
    ensures Spendable(w.kdf.value, MAX_UNWRAP_WORK).Ok? <==>
            && IsHex(w.kdf.value.salt) && w.kdf.value.params.m <= MAX_UNWRAP_MEMORY_KIB
            && w.kdf.value.params.m * w.kdf.value.params.t * w.kdf.value.params.p <= MAX_UNWRAP_WORK
  {
  }

  // ---------------------------------------------------------------- keysets that show it

  // One slot that asks for a block of memory more than any open allocates.
  function Oversized(salt: string, ciphertext: string): Wrap {
    Wrap(Passphrase, "one", "", ciphertext, Some(Kdf(salt, Params(2_097_153, 1, 1))))
  }

  // Such a keyset is sealed, and no passphrase opens it.
  lemma SealedYetShut(suite: Suite, salt: string, ciphertext: string, passphrase: string)
    requires |salt| == 32 && IsHex(salt) && ciphertext != ""
    ensures Seal([Oversized(salt, ciphertext)]).Ok?
    ensures Unwrap(suite, [Oversized(salt, ciphertext)], passphrase, None) == Err(TooMuchMemory)
  {
    var w := Oversized(salt, ciphertext);
    assert Usable([w][0]);
    assert [w][1..] == [] && Candidates([w], Passphrase, None) == [w];
  }

  // The write path admits this profile: its work is positive, though neither factor is.
  const NEGATIVE: Params := Params(65_536, -1, -3)

  lemma AdmittedYetShut(salt: string)
    ensures ProfileFault(NEGATIVE).None?
    ensures Spendable(Kdf(salt, NEGATIVE), MAX_UNWRAP_WORK) == Err(NotPositive)
  {
  }

  // Two slots of one key, each for its own passphrase at the constrained profile.
  function SharedKeyset(suite: Suite, key: Key, one: string, two: string, x: Draw, y: Draw): seq<Wrap> {
    [Wrap(Passphrase, "one", x.nonce,
          suite.seal(suite.derive(one, x.salt, CONSTRAINED), x.nonce, key), Some(Kdf(x.salt, CONSTRAINED))),
     Wrap(Passphrase, "two", y.nonce,
          suite.seal(suite.derive(two, y.salt, CONSTRAINED), y.nonce, key), Some(Kdf(y.salt, CONSTRAINED)))]
  }

  lemma SlotsByName(x: Wrap, y: Wrap)
    requires x.kind == Passphrase && y.kind == Passphrase && x.slot == "one" && y.slot == "two"
    ensures Candidates([x, y], Passphrase, None) == [x, y]
    ensures Candidates([x, y], Passphrase, Some("one")) == [x]
    ensures Candidates([x, y], Passphrase, Some("two")) == [y]
  {
    assert [x, y][1..] == [y] && [y][1..] == [];
    assert Candidates([y], Passphrase, None) == [y] && Candidates([y], Passphrase, Some("one")) == [];
    assert Candidates([y], Passphrase, Some("two")) == [y];
  }

  lemma RewrapsTwo(suite: Suite, key: Key, passphrase: string, wraps: seq<Wrap>, draws: seq<Draw>)
    requires Sound(suite) && passphrase != "" && |wraps| == |draws| == 2 && Drawn(draws[0]) && Drawn(draws[1])
    requires wraps[0].kind == Passphrase && wraps[1].kind == Passphrase
    ensures var after := Rewrapped(suite, key, passphrase, CONSTRAINED, wraps, draws);
      after.Ok? && Seal(after.value).Ok?
  {
    NamedProfilesAreAdmitted();
    var x := WrapForPassphrase(suite, key, passphrase, wraps[0].slot, CONSTRAINED, draws[0]).value;
    var y := WrapForPassphrase(suite, key, passphrase, wraps[1].slot, CONSTRAINED, draws[1]).value;
    assert wraps[1..][1..] == [] && draws[1..][1..] == [];
    assert Rewrapped(suite, key, passphrase, CONSTRAINED, [], []) == Ok([]);
    var last := Rewrapped(suite, key, passphrase, CONSTRAINED, wraps[1..], draws[1..]);
    assert last == Ok([y] + []);
    assert Rewrapped(suite, key, passphrase, CONSTRAINED, wraps, draws) == Ok([x] + ([y] + []));
    assert [x] + ([y] + []) == [x, y];
    assert Usable([x, y][0]);
  }

  // Both passphrases open such a keyset; once the first has been wrapped again, the second opens nothing.
  lemma SecondPassphraseIsLost(suite: Suite, key: Key, one: string, two: string, x: Draw, y: Draw, draws: seq<Draw>)
    returns (after: seq<Wrap>)
    requires Sound(suite) && one != two && one != "" && Drawn(x) && Drawn(y)
    requires |draws| == 2 && Drawn(draws[0]) && Drawn(draws[1])
    ensures Unwrap(suite, SharedKeyset(suite, key, one, two, x, y), two, Some("two")) == Ok(key)
    ensures RewrapPassphrase(suite, SharedKeyset(suite, key, one, two, x, y), one, CONSTRAINED, draws) == Ok(after)
    ensures Unwrap(suite, after, one, Some("two")) == Ok(key)
    ensures forall slot :: Unwrap(suite, after, two, slot).Err?
  {
    var wraps := SharedKeyset(suite, key, one, two, x, y);
    SlotsByName(wraps[0], wraps[1]);
    FreshOpens(suite, key, two, CONSTRAINED, [wraps[1]]);
    FreshOpens(suite, key, one, CONSTRAINED, [wraps[0], wraps[1]]);
    RewrapsTwo(suite, key, one, wraps, draws);
    after := RewrapPassphrase(suite, wraps, one, CONSTRAINED, draws).value;
    RewrapKeepsTheKey(suite, wraps, one, CONSTRAINED, draws, after);
  }
}
