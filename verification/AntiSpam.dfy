/**
 * The proposal budget: packages/federation/src/antispam.ts. A client surfaces at most `cap`
 * proposals from unverified senders in all, and at most `perSender` of one sender's in a window.
 * Old timestamps are pruned from the sender's record as it goes.
 */
module AntiSpam {
  import opened Prelude

  datatype Admission = Surface | RateLimited | CapReached

  datatype Limits = Limits(cap: nat, perSender: int, windowMs: int)

  datatype Budget = Budget(recent: map<string, seq<int>>, surfaced: nat)

  const FRESH: Budget := Budget(map[], 0)

  function Within(times: seq<int>, now: int, windowMs: int): seq<int> {
    if times == [] then []
    else (if now - times[0] < windowMs then [times[0]] else []) + Within(times[1..], now, windowMs)
  }

  function Recent(b: Budget, sender: string): seq<int> {
    if sender in b.recent then b.recent[sender] else []
  }

  function Admitted(l: Limits, b: Budget, sender: string, levelZero: bool, now: int): Admission {
    if !levelZero then Surface
    else if |Within(Recent(b, sender), now, l.windowMs)| >= l.perSender then RateLimited
    else if b.surfaced >= l.cap then CapReached
    else Surface
  }

  function After(l: Limits, b: Budget, sender: string, levelZero: bool, now: int): Budget {
    if !levelZero then b
    else
      var seen := Within(Recent(b, sender), now, l.windowMs);
      if Admitted(l, b, sender, levelZero, now).Surface? then
        Budget(b.recent[sender := seen + [now]], b.surfaced + 1)
      else b.(recent := b.recent[sender := seen])
  }

  class ProposalBudget {
    const limits: Limits
    var recent: map<string, seq<int>>
    var surfacedLevelZero: nat

    function Contents(): Budget
      reads this
    {
      Budget(recent, surfacedLevelZero)
    }

    constructor (limits: Limits)
      ensures this.limits == limits && Contents() == FRESH
    {
      this.limits := limits;
      recent := map[];
      surfacedLevelZero := 0;
    }

    method Admit(sender: string, levelZero: bool, now: int) returns (r: Admission)
      modifies this
      ensures r == Admitted(limits, old(Contents()), sender, levelZero, now)
      ensures Contents() == After(limits, old(Contents()), sender, levelZero, now)
    {
      if !levelZero {
        return Surface;
      }
      var seen := if sender in recent then Within(recent[sender], now, limits.windowMs) else [];
      if |seen| >= limits.perSender {
        recent := recent[sender := seen];
        return RateLimited;
      }
      if surfacedLevelZero >= limits.cap {
        recent := recent[sender := seen];
        return CapReached;
      }
      seen := seen + [now];
      recent := recent[sender := seen];
      surfacedLevelZero := surfacedLevelZero + 1;
      return Surface;
    }

    method Spent() returns (levelZeroSurfaced: nat, levelZeroCap: nat)
      ensures levelZeroSurfaced == Contents().surfaced && levelZeroCap == limits.cap
    {
      return surfacedLevelZero, limits.cap;
    }
  }

  // ---------------------------------------------------------------- runs

  datatype Call = Call(sender: string, levelZero: bool, now: int)

  function Run(l: Limits, b: Budget, calls: seq<Call>): Budget
    decreases |calls|
  {
    if calls == [] then b
    else Run(l, After(l, b, calls[0].sender, calls[0].levelZero, calls[0].now), calls[1..])
  }

  // The level-zero calls that were surfaced, in order.
  function Surfaced(l: Limits, b: Budget, calls: seq<Call>): seq<Call>
    decreases |calls|
  {
    if calls == [] then []
    else
      var c := calls[0];
      var rest := Surfaced(l, After(l, b, c.sender, c.levelZero, c.now), calls[1..]);
      if c.levelZero && Admitted(l, b, c.sender, true, c.now).Surface? then [c] + rest else rest
  }

  ghost predicate ClockForward(from: int, calls: seq<Call>) {
    && (forall i :: 0 <= i < |calls| ==> from <= calls[i].now)
    && (forall i, j :: 0 <= i < j < |calls| ==> calls[i].now <= calls[j].now)
  }

  // How many of one sender's calls fall in [start, start + windowMs).
  function InWindow(calls: seq<Call>, sender: string, start: int, windowMs: int): nat {
    if calls == [] then 0
    else
      (if calls[0].sender == sender && start <= calls[0].now < start + windowMs then 1 else 0) +
      InWindow(calls[1..], sender, start, windowMs)
  }

  function CountIn(times: seq<int>, start: int, end: int): nat {
    if times == [] then 0
    else (if start <= times[0] < end then 1 else 0) + CountIn(times[1..], start, end)
  }

  lemma {:induction false} PruningKeepsWindow(times: seq<int>, now: int, windowMs: int, start: int)
    requires now < start + windowMs
    ensures CountIn(Within(times, now, windowMs), start, start + windowMs) == CountIn(times, start, start + windowMs)
  {
    if times != [] {
      PruningKeepsWindow(times[1..], now, windowMs, start);
      var rest := Within(times[1..], now, windowMs);
      if now - times[0] < windowMs {
        assert ([times[0]] + rest)[1..] == rest;
      } else {
        assert [] + rest == rest;
      }
    }
  }

  lemma {:induction false} CountOfConcat(x: seq<int>, y: seq<int>, start: int, end: int)
    ensures CountIn(x + y, start, end) == CountIn(x, start, end) + CountIn(y, start, end)
    ensures CountIn(x, start, end) <= |x|
  {
    if x == [] {
      assert x + y == y;
    } else {
      assert (x + y)[1..] == x[1..] + y;
      CountOfConcat(x[1..], y, start, end);
    }
  }

  // From a budget whose records hold at most the limit in the window, a run adds up to at most the limit.
  lemma {:induction false} WindowHolds(l: Limits, b: Budget, calls: seq<Call>, from: int, sender: string, start: int)
    requires l.perSender >= 0 && ClockForward(from, calls)
    requires CountIn(Recent(b, sender), start, start + l.windowMs) <= l.perSender
    ensures CountIn(Recent(b, sender), start, start + l.windowMs) +
            InWindow(Surfaced(l, b, calls), sender, start, l.windowMs) <= l.perSender
    decreases |calls|
  {
    if calls != [] {
      var c, rest := calls[0], calls[1..];
      var b' := After(l, b, c.sender, c.levelZero, c.now);
      if c.now >= start + l.windowMs {
        NothingAfterWindow(l, b, calls, sender, start);
      } else {
        var seen := Within(Recent(b, c.sender), c.now, l.windowMs);
        PruningKeepsWindow(Recent(b, c.sender), c.now, l.windowMs, start);
        CountOfConcat(seen, [c.now], start, start + l.windowMs);
        CountOfOne(c.now, start, start + l.windowMs);
        WindowHolds(l, b', rest, from, sender, start);
        SurfacedHead(l, b, calls, sender, start);
      }
    }
  }

  lemma CountOfOne(t: int, start: int, end: int)
    ensures CountIn([t], start, end) == if start <= t < end then 1 else 0
  {
    assert [t][1..] == [];
  }

  lemma SurfacedHead(l: Limits, b: Budget, calls: seq<Call>, sender: string, start: int)
    requires calls != []
    ensures var c := calls[0];
      InWindow(Surfaced(l, b, calls), sender, start, l.windowMs) ==
      InWindow(Surfaced(l, After(l, b, c.sender, c.levelZero, c.now), calls[1..]), sender, start, l.windowMs) +
      (if c.levelZero && Admitted(l, b, c.sender, true, c.now).Surface? && c.sender == sender &&
          start <= c.now < start + l.windowMs then 1 else 0)
  {
    var c := calls[0];
    var rest := Surfaced(l, After(l, b, c.sender, c.levelZero, c.now), calls[1..]);
    assert ([c] + rest)[1..] == rest;
  }

  lemma {:induction false} NothingAfterWindow(l: Limits, b: Budget, calls: seq<Call>, sender: string, start: int)
    requires forall i :: 0 <= i < |calls| ==> calls[i].now >= start + l.windowMs
    ensures InWindow(Surfaced(l, b, calls), sender, start, l.windowMs) == 0
    decreases |calls|
  {
    if calls != [] {
      var c := calls[0];
      NothingAfterWindow(l, After(l, b, c.sender, c.levelZero, c.now), calls[1..], sender, start);
      SurfacedHead(l, b, calls, sender, start);
    }
  }

  // In a run with a clock that does not go back, no window of windowMs holds more than the limit of one sender's.
  lemma RateLimitHolds(l: Limits, calls: seq<Call>, from: int, sender: string, start: int)
    requires l.perSender >= 0 && ClockForward(from, calls)
    ensures InWindow(Surfaced(l, FRESH, calls), sender, start, l.windowMs) <= l.perSender
  {
    WindowHolds(l, FRESH, calls, from, sender, start);
  }

  // With any clock, what `spent` reports is what was surfaced, and it never passes the cap.
  lemma {:induction false} SpentIsSurfaced(l: Limits, b: Budget, calls: seq<Call>)
    requires b.surfaced <= l.cap
    ensures Run(l, b, calls).surfaced == b.surfaced + |Surfaced(l, b, calls)| <= l.cap
    decreases |calls|
  {
    if calls != [] {
      var c := calls[0];
      SpentIsSurfaced(l, After(l, b, c.sender, c.levelZero, c.now), calls[1..]);
    }
  }

  // ---------------------------------------------------------------- and no less is surfaced

  // No record is younger than the clock.
  ghost predicate RecordedBy(b: Budget, now: int) {
    forall sender: string, t: int :: t in Recent(b, sender) ==> t <= now
  }

  lemma {:induction false} WithinIsPart(times: seq<int>, now: int, windowMs: int)
    ensures forall t :: t in Within(times, now, windowMs) ==> t in times
  {
    if times != [] {
      WithinIsPart(times[1..], now, windowMs);
      forall t | t in Within(times[1..], now, windowMs) ensures t in times {
        assert t in times[1..];
      }
    }
  }

  lemma {:induction false} WithinIsCounted(times: seq<int>, now: int, windowMs: int)
    requires forall t :: t in times ==> t <= now
    ensures |Within(times, now, windowMs)| == CountIn(times, now - windowMs + 1, now + 1)
  {
    if times != [] {
      assert times[0] in times;
      forall t | t in times[1..] ensures t <= now {
        assert t in times;
      }
      WithinIsCounted(times[1..], now, windowMs);
    }
  }

  lemma StaysRecorded(l: Limits, b: Budget, c: Call, from: int)
    requires RecordedBy(b, from) && from <= c.now
    ensures RecordedBy(After(l, b, c.sender, c.levelZero, c.now), c.now)
  {
    WithinIsPart(Recent(b, c.sender), c.now, l.windowMs);
    var next := After(l, b, c.sender, c.levelZero, c.now);
    forall sender: string, t: int | t in Recent(next, sender)
      ensures t <= c.now
    {
      if t != c.now {
        assert t in Recent(b, sender);
      }
    }
  }

  // The records of a sender, counted in a window that is not over, are what was surfaced of it there.
  lemma {:induction false} RecordsAreSurfaced(l: Limits, b: Budget, calls: seq<Call>, sender: string, now: int)
    requires forall i :: 0 <= i < |calls| ==> calls[i].now <= now
    ensures var start := now - l.windowMs + 1;
      CountIn(Recent(Run(l, b, calls), sender), start, start + l.windowMs) ==
      CountIn(Recent(b, sender), start, start + l.windowMs) +
      InWindow(Surfaced(l, b, calls), sender, start, l.windowMs)
    decreases |calls|
  {
    if calls != [] {
      var c, start := calls[0], now - l.windowMs + 1;
      var seen := Within(Recent(b, c.sender), c.now, l.windowMs);
      PruningKeepsWindow(Recent(b, c.sender), c.now, l.windowMs, start);
      CountOfConcat(seen, [c.now], start, start + l.windowMs);
      CountOfOne(c.now, start, start + l.windowMs);
      RecordsAreSurfaced(l, After(l, b, c.sender, c.levelZero, c.now), calls[1..], sender, now);
      SurfacedHead(l, b, calls, sender, start);
    }
  }

  lemma {:induction false} RunIsRecorded(l: Limits, b: Budget, calls: seq<Call>, from: int, now: int)
    requires RecordedBy(b, from) && ClockForward(from, calls) && from <= now
    requires forall i :: 0 <= i < |calls| ==> calls[i].now <= now
    ensures RecordedBy(Run(l, b, calls), now)
    decreases |calls|
  {
    if calls != [] {
      StaysRecorded(l, b, calls[0], from);
      var rest := calls[1..];
      forall i | 0 <= i < |rest| ensures calls[0].now <= rest[i].now {
        assert rest[i] == calls[i + 1];
      }
      RunIsRecorded(l, After(l, b, calls[0].sender, calls[0].levelZero, calls[0].now), rest, calls[0].now, now);
    }
  }

  // After any calls with a clock that does not go back, a level-zero proposal is surfaced exactly when fewer
  // than the limit of its sender's were in the window that ends with it, and fewer than the cap in all.
  lemma SurfacedIff(l: Limits, calls: seq<Call>, from: int, sender: string, now: int)
    requires ClockForward(from, calls) && from <= now
    requires forall i :: 0 <= i < |calls| ==> calls[i].now <= now
    ensures var lately := InWindow(Surfaced(l, FRESH, calls), sender, now - l.windowMs + 1, l.windowMs);
      Admitted(l, Run(l, FRESH, calls), sender, true, now) ==
      if lately >= l.perSender then RateLimited
      else if |Surfaced(l, FRESH, calls)| >= l.cap then CapReached
      else Surface
  {
    var b := Run(l, FRESH, calls);
    RunIsRecorded(l, FRESH, calls, from, now);
    WithinIsCounted(Recent(b, sender), now, l.windowMs);
    RecordsAreSurfaced(l, FRESH, calls, sender, now);
    SpentIsSurfaced(l, FRESH, calls);
  }
}
