/**
 * What the git transport delivers: in every run of complete syncs by any number of clones, each
 * message sent is in its directory exactly once from its sender's next sync on, no file is ever
 * overwritten, and the files of a directory are numbered from one without a gap.
 */
module GitDelivery {
  import opened Prelude
  import opened EdgeIdentity
  import opened GitTransport
  import T = Text

  // ---------------------------------------------------------------- numbering

  lemma {:induction false} ZerosAreNothing(n: int, rest: string)
    ensures T.ReadDigits(Zeros(n) + rest, 0) == T.ReadDigits(rest, 0)
  {
    if n > 0 {
      ZerosAreNothing(n - 1, rest);
      assert (Zeros(n) + rest)[1..] == Zeros(n - 1) + rest;
    } else {
      assert Zeros(n) + rest == rest;
    }
  }

  // A file's name gives its number back.
  lemma NameTellsNumber(n: nat, kind: string)
    ensures T.ReadDigits(FileName(n, kind), 0).0 == n
  {
    var rest := "-" + kind + ".json";
    assert FileName(n, kind) == Zeros(4 - |T.Decimal(n)|) + (T.Decimal(n) + rest);
    ZerosAreNothing(4 - |T.Decimal(n)|, T.Decimal(n) + rest);
    T.ReadDecimal(n, rest);
  }

  lemma FourDigits(n: nat)
    requires n < 10_000
    ensures Padded(n) == [T.Digit(n / 1000), T.Digit(n / 100 % 10), T.Digit(n / 10 % 10), T.Digit(n % 10)]
  {
    assert n / 10 / 10 == n / 100 && n / 100 / 10 == n / 1000;
    if n < 10 {
      assert Zeros(3) == "000";
    } else if n < 100 {
      assert T.Decimal(n) == [T.Digit(n / 10), T.Digit(n % 10)];
      assert Zeros(2) == "00";
    } else if n < 1000 {
      assert T.Decimal(n / 10) == [T.Digit(n / 100), T.Digit(n / 10 % 10)];
      assert Zeros(1) == "0";
    } else {
      assert T.Decimal(n / 100) == [T.Digit(n / 1000), T.Digit(n / 100 % 10)];
      assert T.Decimal(n / 10) == T.Decimal(n / 100) + [T.Digit(n / 10 % 10)];
    }
  }

  lemma LastDigitDecides(x: nat, y: nat)
    requires x <= y
    ensures x / 10 <= y / 10
    ensures x / 10 == y / 10 && x < y ==> x % 10 < y % 10
    ensures x / 10 == y / 10 && x == y ==> x % 10 == y % 10
  {
  }

  // The place of the first digit in which two four-digit numerals differ.
  lemma DigitsDiffer(a: seq<nat>, b: seq<nat>, m: nat, n: nat) returns (k: nat)
    requires m < n < 10_000
    requires a == [m / 1000, m / 100 % 10, m / 10 % 10, m % 10] && b == [n / 1000, n / 100 % 10, n / 10 % 10, n % 10]
    ensures k < 4 && a[k] < b[k] && forall i :: 0 <= i < k ==> a[i] == b[i]
  {
    LastDigitDecides(m, n);
    LastDigitDecides(m / 10, n / 10);
    LastDigitDecides(m / 100, n / 100);
    assert m / 100 == m / 10 / 10 && m / 1000 == m / 100 / 10 && n / 100 == n / 10 / 10 && n / 1000 == n / 100 / 10;
    k := if m / 1000 < n / 1000 then 0 else if m / 100 < n / 100 then 1 else if m / 10 < n / 10 then 2 else 3;
  }

  // Two texts of four digits each and what follows, in the order of their first difference.
  ghost predicate ReadsBefore(a: string, b: string) {
    exists k :: 0 <= k < 4 && k < |a| && k < |b| && a[..k] == b[..k] && '0' <= a[k] < b[k] <= '9'
  }

  lemma SpelledInOrder(a: string, b: string, x: seq<nat>, y: seq<nat>, k: nat)
    requires |a| >= 4 && |b| >= 4 && |x| == |y| == 4 && k < 4
    requires forall i :: 0 <= i < 4 ==> x[i] < 10 && y[i] < 10 && a[i] == T.Digit(x[i]) && b[i] == T.Digit(y[i])
    requires x[k] < y[k] && forall i :: 0 <= i < k ==> x[i] == y[i]
    ensures ReadsBefore(a, b)
  {
    assert T.DigitValue(a[k]) < T.DigitValue(b[k]);
    assert a[..k] == b[..k];
  }

  // For the first ten thousand files of a directory their names, read as text, come in the order of their numbers.
  lemma NamesReadInOrder(m: nat, n: nat, kind: string, other: string)
    requires m < n < 10_000
    ensures ReadsBefore(FileName(m, kind), FileName(n, other))
    ensures |FileName(m, kind)| >= 4 && FileName(m, kind)[4..] == "-" + kind + ".json"
  {
    FourDigits(m);
    FourDigits(n);
    var x := [m / 1000, m / 100 % 10, m / 10 % 10, m % 10];
    var y := [n / 1000, n / 100 % 10, n / 10 % 10, n % 10];
    var k := DigitsDiffer(x, y, m, n);
    NameStarts(m, kind, Padded(m));
    NameStarts(n, other, Padded(n));
    SpelledInOrder(FileName(m, kind), FileName(n, other), x, y, k);
  }

  lemma NameStarts(n: nat, kind: string, digits: string)
    requires digits == Padded(n) && |digits| == 4
    ensures var name := FileName(n, kind);
      |name| >= 4 && (forall i :: 0 <= i < 4 ==> name[i] == digits[i]) && name[4..] == "-" + kind + ".json"
  {
    assert FileName(n, kind) == digits + ("-" + kind + ".json");
  }

  // The files holding these messages, numbered from one.
  function Numbered(messages: seq<Message>): Files {
    if messages == [] then map[]
    else
      var last := |messages| - 1;
      Numbered(messages[..last])[FileName(|messages|, messages[last].kind) := messages[last]]
  }

  lemma {:induction false} NumberedHolds(messages: seq<Message>, name: string)
    ensures |Numbered(messages)| == |messages|
    ensures name in Numbered(messages) <==>
            exists i :: 0 <= i < |messages| && name == FileName(i + 1, messages[i].kind)
    ensures forall i :: 0 <= i < |messages| && name == FileName(i + 1, messages[i].kind) ==>
              name in Numbered(messages) && Numbered(messages)[name] == messages[i]
  {
    if messages != [] {
      var last := |messages| - 1;
      var init, added := messages[..last], FileName(|messages|, messages[last].kind);
      NumberedHolds(init, name);
      NumberedHolds(init, added);
      forall i | 0 <= i < last
        ensures FileName(i + 1, init[i].kind) != added && init[i] == messages[i]
      {
        NameTellsNumber(i + 1, init[i].kind);
        NameTellsNumber(|messages|, messages[last].kind);
      }
      assert added !in Numbered(init);
      assert Numbered(messages).Keys == Numbered(init).Keys + {added};
    }
  }

  // ---------------------------------------------------------------- a tree in order

  // The files of every directory are exactly those of some list of messages numbered from one, and no
  // message that verifies is in the list twice.
  ghost predicate InOrder(wire: Wire, files: Files, messages: seq<Message>) {
    && files == Numbered(messages)
    && forall i, j :: 0 <= i < j < |messages| && wire.verifies(messages[i]) ==> messages[i] != messages[j]
  }

  ghost predicate Ordered(wire: Wire, tree: Tree) {
    forall dir :: dir in tree ==> exists messages :: InOrder(wire, tree[dir], messages)
  }

  ghost predicate HoldsOnce(files: Files, m: Message) {
    exists name :: name in files && files[name] == m &&
      forall other :: other in files && files[other] == m ==> other == name
  }

  ghost predicate Holds(files: Files, m: Message) {
    exists name :: name in files && files[name] == m
  }

  // Every file is where it was, with what it held.
  ghost predicate Keeps(s: Tree, t: Tree) {
    forall dir, name :: dir in s && name in s[dir] ==> (dir in t && name in t[dir] && t[dir][name] == s[dir][name])
  }

  lemma HeldOnce(wire: Wire, files: Files, messages: seq<Message>, m: Message)
    requires InOrder(wire, files, messages) && wire.verifies(m) && Holds(files, m)
    ensures HoldsOnce(files, m)
  {
    var name :| name in files && files[name] == m;
    NumberedHolds(messages, name);
    var i :| 0 <= i < |messages| && name == FileName(i + 1, messages[i].kind);
    forall other | other in files && files[other] == m
      ensures other == name
    {
      NumberedHolds(messages, other);
      var j :| 0 <= j < |messages| && other == FileName(j + 1, messages[j].kind);
      assert messages[i] == messages[j];
    }
  }

  lemma WritingKeepsOrder(wire: Wire, files: Files, messages: seq<Message>, m: Message)
    requires InOrder(wire, files, messages) && !(wire.verifies(m) && Holds(files, m))
    ensures var name := FileName(|files| + 1, m.kind);
      name !in files && InOrder(wire, files[name := m], messages + [m])
  {
    var name := FileName(|files| + 1, m.kind);
    NumberedHolds(messages, name);
    forall i | 0 <= i < |messages|
      ensures FileName(i + 1, messages[i].kind) != name
      ensures wire.verifies(messages[i]) ==> messages[i] != m
    {
      NameTellsNumber(i + 1, messages[i].kind);
      NameTellsNumber(|files| + 1, m.kind);
      NumberedHolds(messages, FileName(i + 1, messages[i].kind));
    }
    assert (messages + [m])[..|messages|] == messages;
  }

  lemma ListOf(wire: Wire, tree: Tree, dir: string) returns (messages: seq<Message>)
    requires Ordered(wire, tree)
    ensures InOrder(wire, FilesIn(tree, dir), messages)
  {
    assert InOrder(wire, map[], []);
    messages :| InOrder(wire, FilesIn(tree, dir), messages);
  }

  lemma WriteKeepsOrder(wire: Wire, tree: Tree, dir: string, m: Message)
    requires Ordered(wire, tree) && !(wire.verifies(m) && Holds(FilesIn(tree, dir), m))
    ensures Ordered(wire, Write(tree, dir, m)) && Keeps(tree, Write(tree, dir, m))
  {
    var messages := ListOf(wire, tree, dir);
    WritingKeepsOrder(wire, FilesIn(tree, dir), messages, m);
    var after := Write(tree, dir, m);
    forall d | d in after
      ensures exists list :: InOrder(wire, after[d], list)
    {
      if d == dir {
        assert InOrder(wire, after[d], messages + [m]);
      }
    }
  }

  lemma PlacingKeepsOrder(wire: Wire, tree: Tree, placed: set<string>, out: Outgoing)
    requires Ordered(wire, tree)
    ensures Ordered(wire, Placing(wire, tree, placed, out)) && Keeps(tree, Placing(wire, tree, placed, out))
  {
    if !Unplaceable(wire, tree, placed, out) {
      WriteKeepsOrder(wire, tree, DirFor(out.recipient, out.message).value, out.message);
    }
  }

  // After it is placed, the first waiting message is in its directory; it is not placed twice.
  lemma PlacingHolds(wire: Wire, tree: Tree, placed: set<string>, out: Outgoing)
    requires Faithful(wire) && wire.id(out.message) !in placed && DirFor(out.recipient, out.message).Some?
    ensures Holds(FilesIn(Placing(wire, tree, placed, out), DirFor(out.recipient, out.message).value), out.message)
  {
    var dir, m := DirFor(out.recipient, out.message).value, out.message;
    var files := FilesIn(tree, dir);
    if Unplaceable(wire, tree, placed, out) {
      var name :| name in files && wire.verifies(files[name]) && wire.id(files[name]) == wire.id(m);
      assert files[name] == m;
    } else {
      var name := FileName(|files| + 1, m.kind);
      assert files[name := m][name] == m;
    }
  }

  // ---------------------------------------------------------------- one sync

  lemma KeepsOn(s: Tree, t: Tree, u: Tree)
    requires Keeps(s, t) && Keeps(t, u)
    ensures Keeps(s, u)
  {
  }

  lemma KeptHolds(s: Tree, t: Tree, dir: string, m: Message)
    requires Keeps(s, t) && Holds(FilesIn(s, dir), m)
    ensures Holds(FilesIn(t, dir), m)
  {
    var name :| name in FilesIn(s, dir) && FilesIn(s, dir)[name] == m;
    assert FilesIn(t, dir)[name] == m;
  }

  lemma {:induction false} SyncKeepsOrder(wire: Wire, tree: Tree, placed: set<string>, pending: seq<Outgoing>)
    requires Ordered(wire, tree)
    ensures Ordered(wire, PlacingAll(wire, tree, placed, pending))
    ensures Keeps(tree, PlacingAll(wire, tree, placed, pending))
    decreases |pending|
  {
    if pending != [] {
      var next, more := Placing(wire, tree, placed, pending[0]), placed + {wire.id(pending[0].message)};
      PlacingKeepsOrder(wire, tree, placed, pending[0]);
      SyncKeepsOrder(wire, next, more, pending[1..]);
      KeepsOn(tree, next, PlacingAll(wire, next, more, pending[1..]));
    }
  }

  // The first waiting send of a message settles where it goes.
  function FirstDir(pending: seq<Outgoing>, m: Message): Option<string> {
    if pending == [] then None
    else if pending[0].message == m then DirFor(pending[0].recipient, m)
    else FirstDir(pending[1..], m)
  }

  lemma {:induction false} SyncHolds(wire: Wire, tree: Tree, placed: set<string>, pending: seq<Outgoing>, m: Message)
    requires Faithful(wire) && Ordered(wire, tree) && wire.id(m) !in placed && FirstDir(pending, m).Some?
    ensures Holds(FilesIn(PlacingAll(wire, tree, placed, pending), FirstDir(pending, m).value), m)
    decreases |pending|
  {
    var out := pending[0];
    var next, more := Placing(wire, tree, placed, out), placed + {wire.id(out.message)};
    PlacingKeepsOrder(wire, tree, placed, out);
    if out.message == m {
      PlacingHolds(wire, tree, placed, out);
      SyncKeepsOrder(wire, next, more, pending[1..]);
      KeptHolds(next, PlacingAll(wire, tree, placed, pending), FirstDir(pending, m).value, m);
    } else {
      SyncHolds(wire, next, more, pending[1..], m);
    }
  }

  // A message is written exactly when this clone has not recorded it, it can be addressed, and no file of its
  // directory both verifies and is this message; then it takes the next number.
  lemma WrittenIff(wire: Wire, tree: Tree, placed: set<string>, out: Outgoing)
    requires Faithful(wire)
    ensures var m, dir := out.message, DirFor(out.recipient, out.message);
      Placing(wire, tree, placed, out) ==
      if wire.id(m) !in placed && dir.Some? && !(wire.verifies(m) && Holds(FilesIn(tree, dir.value), m)) then
        tree[dir.value := FilesIn(tree, dir.value)[FileName(|FilesIn(tree, dir.value)| + 1, m.kind) := m]]
      else tree
  {
  }

  // ---------------------------------------------------------------- the order of sending

  function NumberOf(name: string): nat {
    T.ReadDigits(name, 0).0
  }

  // Every file here that holds y has a number above k.
  ghost predicate Later(files: Files, y: Message, k: nat) {
    k <= |files| && forall name :: name in files && files[name] == y ==> NumberOf(name) > k
  }

  lemma WriteStaysLater(files: Files, m: Message, y: Message, k: nat)
    requires Later(files, y, k)
    ensures Later(files[FileName(|files| + 1, m.kind) := m], y, k)
  {
    var added := FileName(|files| + 1, m.kind);
    NameTellsNumber(|files| + 1, m.kind);
    assert files.Keys <= files[added := m].Keys;
    SubsetIsSmaller(files.Keys, files[added := m].Keys);
  }

  lemma SubsetIsSmaller(x: set<string>, y: set<string>)
    requires x <= y
    ensures |x| <= |y|
  {
    assert y == x + (y - x);
  }

  lemma {:induction false} SyncStaysLater(wire: Wire, tree: Tree, placed: set<string>, pending: seq<Outgoing>,
                                          dir: string, y: Message, k: nat)
    requires Later(FilesIn(tree, dir), y, k)
    ensures Later(FilesIn(PlacingAll(wire, tree, placed, pending), dir), y, k)
    decreases |pending|
  {
    if pending != [] {
      var out := pending[0];
      if !Unplaceable(wire, tree, placed, out) && DirFor(out.recipient, out.message).value == dir {
        WriteStaysLater(FilesIn(tree, dir), out.message, y, k);
      }
      SyncStaysLater(wire, Placing(wire, tree, placed, out), placed + {wire.id(out.message)}, pending[1..], dir, y, k);
    }
  }

  lemma NumbersFit(wire: Wire, files: Files, messages: seq<Message>, name: string)
    requires InOrder(wire, files, messages) && name in files
    ensures 1 <= NumberOf(name) <= |files|
  {
    NumberedHolds(messages, name);
    var i :| 0 <= i < |messages| && name == FileName(i + 1, messages[i].kind);
    NameTellsNumber(i + 1, messages[i].kind);
  }

  // x is sent before y is sent for the first time.
  predicate SentBefore(pending: seq<Outgoing>, x: Message, y: Message) {
    pending != [] &&
    (pending[0].message == x || (pending[0].message != y && SentBefore(pending[1..], x, y)))
  }

  // Every number under which files holds x is below every number under which it holds y.
  ghost predicate Precedes(files: Files, x: Message, y: Message) {
    forall a, b :: a in files && b in files && files[a] == x && files[b] == y ==> NumberOf(a) < NumberOf(b)
  }

  lemma PlacedFirst(wire: Wire, tree: Tree, placed: set<string>, out: Outgoing, rest: seq<Outgoing>, y: Message,
                    dir: string)
    requires Faithful(wire) && Ordered(wire, tree) && wire.verifies(out.message) && out.message != y
    requires wire.id(out.message) !in placed && DirFor(out.recipient, out.message) == Some(dir)
    requires !Holds(FilesIn(tree, dir), y)
    ensures Precedes(FilesIn(PlacingAll(wire, tree, placed, [out] + rest), dir), out.message, y)
  {
    var x, next, more := out.message, Placing(wire, tree, placed, out), placed + {wire.id(out.message)};
    var end := PlacingAll(wire, next, more, rest);
    assert ([out] + rest)[1..] == rest;
    PlacingHolds(wire, tree, placed, out);
    PlacingKeepsOrder(wire, tree, placed, out);
    SyncKeepsOrder(wire, next, more, rest);
    var files := FilesIn(next, dir);
    SyncStaysLater(wire, next, more, rest, dir, y, |files|);
    var here := ListOf(wire, next, dir);
    var there := ListOf(wire, end, dir);
    var first :| first in files && files[first] == x;
    NumbersFit(wire, files, here, first);
    assert FilesIn(end, dir)[first] == x;
    HeldOnce(wire, FilesIn(end, dir), there, x);
  }

  // Of two messages that wait for one directory and are new there, the one sent first has the lower number.
  lemma {:induction false} SentInOrder(wire: Wire, tree: Tree, placed: set<string>, pending: seq<Outgoing>,
                                       x: Message, y: Message, dir: string)
    requires Faithful(wire) && Ordered(wire, tree) && wire.verifies(x) && x != y
    requires wire.id(x) !in placed && !Holds(FilesIn(tree, dir), y)
    requires SentBefore(pending, x, y) && FirstDir(pending, x) == Some(dir)
    ensures Precedes(FilesIn(PlacingAll(wire, tree, placed, pending), dir), x, y)
    decreases |pending|
  {
    var out := pending[0];
    if out.message == x {
      assert pending == [out] + pending[1..];
      PlacedFirst(wire, tree, placed, out, pending[1..], y, dir);
    } else {
      PlacingKeepsOrder(wire, tree, placed, out);
      SentInOrder(wire, Placing(wire, tree, placed, out), placed + {wire.id(out.message)}, pending[1..], x, y, dir);
    }
  }

  // Someone waiting to be placed in dir carries m.
  ghost predicate Waits(pending: seq<Outgoing>, dir: string, m: Message) {
    exists out :: out in pending && DirFor(out.recipient, out.message) == Some(dir) && out.message == m
  }

  // A file is there after a sync only if it was there before or holds a message that waited for that directory.
  lemma {:induction false} SyncInventsNothing(wire: Wire, tree: Tree, placed: set<string>, pending: seq<Outgoing>,
                                              dir: string, name: string)
    requires name in FilesIn(PlacingAll(wire, tree, placed, pending), dir)
    ensures var m := FilesIn(PlacingAll(wire, tree, placed, pending), dir)[name];
      (name in FilesIn(tree, dir) && FilesIn(tree, dir)[name] == m) || Waits(pending, dir, m)
    decreases |pending|
  {
    if pending != [] {
      var out := pending[0];
      SyncInventsNothing(wire, Placing(wire, tree, placed, out), placed + {wire.id(out.message)}, pending[1..], dir,
                         name);
      assert out in pending && forall other :: other in pending[1..] ==> other in pending;
    }
  }

  // ---------------------------------------------------------------- runs

  datatype Clone = Clone(pending: seq<Outgoing>, placed: set<string>)

  datatype System = System(tree: Tree, clones: map<nat, Clone>)

  datatype Event = Send(clone: nat, recipient: string, message: Message) | Sync(clone: nat)

  function CloneOf(s: System, c: nat): Clone {
    if c in s.clones then s.clones[c] else Clone([], {})
  }

  // What Send and Sync of GitTransport do to the clone they are called on and to the shared tree.
  function Step(wire: Wire, s: System, e: Event): System {
    var clone := CloneOf(s, e.clone);
    match e
    case Send(c, recipient, m) =>
      if wire.id(m) in clone.placed then s
      else s.(clones := s.clones[c := clone.(pending := clone.pending + [Outgoing(recipient, m)])])
    case Sync(c) =>
      System(PlacingAll(wire, s.tree, clone.placed, clone.pending),
             s.clones[c := Clone([], clone.placed + Ids(wire, clone.pending))])
  }

  function Run(wire: Wire, s: System, events: seq<Event>): System
    decreases |events|
  {
    if events == [] then s else Run(wire, Step(wire, s, events[0]), events[1..])
  }

  // Every sync of the run completes.
  ghost predicate Completes(wire: Wire, s: System, events: seq<Event>)
    decreases |events|
  {
    events == [] ||
    ((events[0].Sync? ==> Addressable(CloneOf(s, events[0].clone).pending)) &&
     Completes(wire, Step(wire, s, events[0]), events[1..]))
  }

  // In every run, trees stay in order and no file is overwritten.
  lemma {:induction false} RunKeepsOrder(wire: Wire, s: System, events: seq<Event>)
    requires Ordered(wire, s.tree)
    ensures Ordered(wire, Run(wire, s, events).tree) && Keeps(s.tree, Run(wire, s, events).tree)
    decreases |events|
  {
    if events != [] {
      var clone := CloneOf(s, events[0].clone);
      SyncKeepsOrder(wire, s.tree, clone.placed, clone.pending);
      var next := Step(wire, s, events[0]);
      RunKeepsOrder(wire, next, events[1..]);
      KeepsOn(s.tree, next.tree, Run(wire, next, events[1..]).tree);
    }
  }

  // ---------------------------------------------------------------- delivery

  // The message is in its directory, or waits in the clone that sent it to go there.
  ghost predicate OnItsWay(wire: Wire, s: System, c: nat, m: Message, dir: string) {
    || Holds(FilesIn(s.tree, dir), m)
    || (wire.id(m) !in CloneOf(s, c).placed && FirstDir(CloneOf(s, c).pending, m) == Some(dir))
  }

  lemma {:induction false} FirstDirOfConcat(x: seq<Outgoing>, y: seq<Outgoing>, m: Message)
    ensures FirstDir(x, m).Some? ==> FirstDir(x + y, m) == FirstDir(x, m)
    ensures (forall out :: out in x ==> out.message != m) ==> FirstDir(x + y, m) == FirstDir(y, m)
    decreases |x|
  {
    if x == [] {
      assert x + y == y;
    } else {
      assert (x + y)[1..] == x[1..] + y;
      FirstDirOfConcat(x[1..], y, m);
    }
  }

  lemma StepKeepsOnItsWay(wire: Wire, s: System, e: Event, c: nat, m: Message, dir: string)
    requires Faithful(wire) && Ordered(wire, s.tree) && OnItsWay(wire, s, c, m, dir)
    ensures OnItsWay(wire, Step(wire, s, e), c, m, dir)
    ensures e == Sync(c) ==> Holds(FilesIn(Step(wire, s, e).tree, dir), m)
  {
    var clone := CloneOf(s, e.clone);
    if Holds(FilesIn(s.tree, dir), m) {
      SyncKeepsOrder(wire, s.tree, clone.placed, clone.pending);
      KeptHolds(s.tree, Step(wire, s, e).tree, dir, m);
    } else if e.clone == c {
      match e {
        case Send(_, recipient, other) => FirstDirOfConcat(clone.pending, [Outgoing(recipient, other)], m);
        case Sync(_) => SyncHolds(wire, s.tree, clone.placed, clone.pending, m);
      }
    }
  }

  lemma {:induction false} RunKeepsOnItsWay(wire: Wire, s: System, events: seq<Event>, c: nat, m: Message, dir: string)
    requires Faithful(wire) && Ordered(wire, s.tree) && OnItsWay(wire, s, c, m, dir)
    ensures OnItsWay(wire, Run(wire, s, events), c, m, dir)
    ensures Sync(c) in events ==> Holds(FilesIn(Run(wire, s, events).tree, dir), m)
    decreases |events|
  {
    if events != [] {
      var next := Step(wire, s, events[0]);
      RunKeepsOrder(wire, s, [events[0]]);
      assert [events[0]][1..] == [] && Run(wire, s, [events[0]]) == Run(wire, next, []);
      StepKeepsOnItsWay(wire, s, events[0], c, m, dir);
      RunKeepsOnItsWay(wire, next, events[1..], c, m, dir);
      if events[0] == Sync(c) {
        RunKeepsOrder(wire, next, events[1..]);
        KeptHolds(next.tree, Run(wire, next, events[1..]).tree, dir, m);
      } else {
        assert Sync(c) in events ==> Sync(c) in events[1..];
      }
    }
  }

  // A clone's own record of what it has published is true: each id there is of a message in the
  // shared tree, in a directory it was sent to.
  ghost predicate Honest(wire: Wire, s: System) {
    forall c, m :: c in s.clones && wire.id(m) in s.clones[c].placed ==>
      exists r :: DirFor(r, m).Some? && Holds(FilesIn(s.tree, DirFor(r, m).value), m)
  }

  lemma {:induction false} FirstDirExists(pending: seq<Outgoing>, m: Message)
    requires Addressable(pending) && exists out :: out in pending && out.message == m
    ensures exists r :: DirFor(r, m).Some? && FirstDir(pending, m) == DirFor(r, m)
  {
    if pending[0].message != m {
      var out :| out in pending && out.message == m;
      assert out in pending[1..];
      FirstDirExists(pending[1..], m);
    }
  }

  lemma StepIsHonest(wire: Wire, s: System, e: Event)
    requires Faithful(wire) && Ordered(wire, s.tree) && Honest(wire, s)
    requires e.Sync? ==> Addressable(CloneOf(s, e.clone).pending)
    ensures Honest(wire, Step(wire, s, e))
  {
    var t, clone := Step(wire, s, e), CloneOf(s, e.clone);
    SyncKeepsOrder(wire, s.tree, clone.placed, clone.pending);
    forall c, m | c in t.clones && wire.id(m) in t.clones[c].placed
      ensures exists r :: DirFor(r, m).Some? && Holds(FilesIn(t.tree, DirFor(r, m).value), m)
    {
      if wire.id(m) in CloneOf(s, c).placed {
        var r :| DirFor(r, m).Some? && Holds(FilesIn(s.tree, DirFor(r, m).value), m);
        KeptHolds(s.tree, t.tree, DirFor(r, m).value, m);
      } else {
        var out :| out in clone.pending && wire.id(out.message) == wire.id(m);
        FirstDirExists(clone.pending, m);
        var r :| DirFor(r, m).Some? && FirstDir(clone.pending, m) == DirFor(r, m);
        SyncHolds(wire, s.tree, clone.placed, clone.pending, m);
      }
    }
  }

  lemma {:induction false} RunIsHonest(wire: Wire, s: System, events: seq<Event>)
    requires Faithful(wire) && Ordered(wire, s.tree) && Honest(wire, s) && Completes(wire, s, events)
    ensures Honest(wire, Run(wire, s, events)) && Ordered(wire, Run(wire, s, events).tree)
    decreases |events|
  {
    if events != [] {
      var next := Step(wire, s, events[0]);
      StepIsHonest(wire, s, events[0]);
      RunKeepsOrder(wire, s, [events[0]]);
      assert [events[0]][1..] == [] && Run(wire, s, [events[0]]) == Run(wire, next, []);
      RunIsHonest(wire, next, events[1..]);
    }
  }

  // ---------------------------------------------------------------- only where it belongs

  // Every file is in a directory its message could have been addressed to.
  ghost predicate Addressed(tree: Tree) {
    forall dir, name :: dir in tree && name in tree[dir] ==> MayBeIn(tree[dir][name], dir)
  }

  ghost predicate MayBeIn(m: Message, dir: string) {
    exists r :: DirFor(r, m) == Some(dir)
  }

  lemma {:induction false} SyncKeepsAddressed(wire: Wire, tree: Tree, placed: set<string>, pending: seq<Outgoing>)
    requires Addressed(tree)
    ensures Addressed(PlacingAll(wire, tree, placed, pending))
    decreases |pending|
  {
    if pending != [] {
      var out := pending[0];
      assert DirFor(out.recipient, out.message).Some? ==>
        MayBeIn(out.message, DirFor(out.recipient, out.message).value);
      SyncKeepsAddressed(wire, Placing(wire, tree, placed, out), placed + {wire.id(out.message)}, pending[1..]);
    }
  }

  lemma {:induction false} RunKeepsAddressed(wire: Wire, s: System, events: seq<Event>)
    requires Addressed(s.tree)
    ensures Addressed(Run(wire, s, events).tree)
    decreases |events|
  {
    if events != [] {
      var clone := CloneOf(s, events[0].clone);
      SyncKeepsAddressed(wire, s.tree, clone.placed, clone.pending);
      RunKeepsAddressed(wire, Step(wire, s, events[0]), events[1..]);
    }
  }

  // ---------------------------------------------------------------- the whole claim

  const NOTHING: System := System(map[], map[])

  predicate Knows(wire: Wire, clone: Clone, m: Message) {
    wire.id(m) in clone.placed || exists out :: out in clone.pending && out.message == m
  }

  // A message about an edge goes to that edge's directory whoever it is sent to.
  lemma {:induction false} EdgeSettlesDir(pending: seq<Outgoing>, recipient: string, m: Message)
    requires m.edgeId.Some?
    ensures FirstDir(pending + [Outgoing(recipient, m)], m) == DirFor(recipient, m)
  {
    if pending == [] {
      assert pending + [Outgoing(recipient, m)] == [Outgoing(recipient, m)];
    } else {
      assert (pending + [Outgoing(recipient, m)])[1..] == pending[1..] + [Outgoing(recipient, m)];
      EdgeSettlesDir(pending[1..], recipient, m);
    }
  }

  lemma SendingStartsIt(wire: Wire, s: System, c: nat, recipient: string, m: Message, dir: string)
    requires Faithful(wire) && Honest(wire, s) && DirFor(recipient, m) == Some(dir)
    requires m.edgeId.Some? || !Knows(wire, CloneOf(s, c), m)
    ensures OnItsWay(wire, Step(wire, s, Send(c, recipient, m)), c, m, dir)
  {
    var clone := CloneOf(s, c);
    if wire.id(m) in clone.placed {
      var r :| DirFor(r, m).Some? && Holds(FilesIn(s.tree, DirFor(r, m).value), m);
      assert DirFor(r, m) == DirFor(recipient, m);
    } else if m.edgeId.Some? {
      EdgeSettlesDir(clone.pending, recipient, m);
    } else {
      FirstDirOfConcat(clone.pending, [Outgoing(recipient, m)], m);
    }
  }

  // From an empty repository: whatever any clones sent and synced before and after, once a clone has
  // synced what it sent, the message is in its directory exactly once. A message about no edge is
  // settled by its clone's first send of it.
  lemma SentIsDelivered(wire: Wire, before: seq<Event>, c: nat, recipient: string, m: Message, dir: string,
                        after: seq<Event>)
    requires Faithful(wire) && wire.verifies(m) && DirFor(recipient, m) == Some(dir)
    requires Completes(wire, NOTHING, before)
    requires m.edgeId.Some? || !Knows(wire, CloneOf(Run(wire, NOTHING, before), c), m)
    requires Sync(c) in after
    ensures var end := Run(wire, Step(wire, Run(wire, NOTHING, before), Send(c, recipient, m)), after);
      && HoldsOnce(FilesIn(end.tree, dir), m)
      && (m.edgeId.Some? ==> forall other :: other != dir ==> !Holds(FilesIn(end.tree, other), m))
  {
    var s := Run(wire, NOTHING, before);
    var sent := Step(wire, s, Send(c, recipient, m));
    var end := Run(wire, sent, after);
    RunIsHonest(wire, NOTHING, before);
    SendingStartsIt(wire, s, c, recipient, m, dir);
    RunKeepsOnItsWay(wire, sent, after, c, m, dir);
    RunKeepsOrder(wire, sent, after);
    var messages := ListOf(wire, end.tree, dir);
    HeldOnce(wire, FilesIn(end.tree, dir), messages, m);
    RunKeepsAddressed(wire, NOTHING, before);
    RunKeepsAddressed(wire, sent, after);
    forall other | other != dir && m.edgeId.Some?
      ensures !Holds(FilesIn(end.tree, other), m)
    {
      HeldIsAddressed(end.tree, other, m);
    }
  }

  lemma HeldIsAddressed(tree: Tree, dir: string, m: Message)
    requires Addressed(tree)
    ensures Holds(FilesIn(tree, dir), m) ==> MayBeIn(m, dir)
  {
  }

  lemma DirectIsNoEdge(recipient: string)
    ensures !IsHex64("_direct/" + recipient)
  {
    var d := "_direct/" + recipient;
    assert d[0] == '_' && d[0] in d;
  }

  // The edge directories and the direct ones never meet, and each is one edge's or one recipient's.
  lemma DirTellsAddress(r1: string, m1: Message, r2: string, m2: Message)
    requires DirFor(r1, m1).Some? && DirFor(r1, m1) == DirFor(r2, m2)
    ensures m1.edgeId == m2.edgeId && (m1.edgeId.None? ==> r1 == r2)
  {
    DirectIsNoEdge(r1);
    DirectIsNoEdge(r2);
    var d := DirFor(r1, m1).value;
    if m1.edgeId.None? && m2.edgeId.None? {
      assert r1 == d[|"_direct/"|..] && r2 == d[|"_direct/"|..];
    }
  }

  // A message can be addressed exactly when the edge it is about, or else its recipient, is named by 64
  // lower-case hexadecimal digits, and then that name is its directory.
  lemma AddressedIff(recipient: string, m: Message)
    ensures var named := if m.edgeId.Some? then m.edgeId.value else recipient;
      && (DirFor(recipient, m).Some? <==> |named| == 64 && forall c :: c in named ==> c in "0123456789abcdef")
      && (DirFor(recipient, m).Some? ==>
            DirFor(recipient, m).value == if m.edgeId.Some? then named else "_direct/" + named)
  {
    forall c: char
      ensures IsHexDigit(c) <==> c in "0123456789abcdef"
    {
      HexDigits(c);
    }
  }

  lemma HexDigits(c: char)
    ensures IsHexDigit(c) <==> c in "0123456789abcdef"
  {
    var digits := "0123456789abcdef";
    assert |digits| == 16;
    assert forall i :: 0 <= i < 10 ==> digits[i] == '0' + i as char;
    assert forall i :: 10 <= i < 16 ==> digits[i] == 'a' + (i - 10) as char;
    if '0' <= c <= '9' {
      assert digits[c as int - '0' as int] == c;
    } else if 'a' <= c <= 'f' {
      assert digits[c as int - 'a' as int + 10] == c;
    }
  }
}
