/**
 * The edit script of packages/executors/src/diff.ts: a longest-common-subsequence table filled
 * backwards and a greedy walk over it.
 *
 * A script is judged by what it means, not by how it is found: dropping its additions must give
 * the old lines and dropping its deletions the new ones. `Lcs` is proved to return the least
 * script, under "keep before delete before add", among those with the fewest changes.
 */
module EditScript {
  import opened Prelude

  datatype Kind = Keep | Del | Add

  datatype Op = Op(kind: Kind, text: string)

  // ---------------------------------------------------------------- what a script means

  function OldSide(ops: seq<Op>): seq<string> {
    if ops == [] then []
    else (if ops[0].kind == Add then [] else [ops[0].text]) + OldSide(ops[1..])
  }

  function NewSide(ops: seq<Op>): seq<string> {
    if ops == [] then []
    else (if ops[0].kind == Del then [] else [ops[0].text]) + NewSide(ops[1..])
  }

  function Kept(ops: seq<Op>): seq<string> {
    if ops == [] then []
    else (if ops[0].kind == Keep then [ops[0].text] else []) + Kept(ops[1..])
  }

  function CountKind(ops: seq<Op>, kind: Kind): nat {
    if ops == [] then 0
    else (if ops[0].kind == kind then 1 else 0) + CountKind(ops[1..], kind)
  }

  // Additions plus deletions.
  function Changes(ops: seq<Op>): nat {
    CountKind(ops, Add) + CountKind(ops, Del)
  }

  ghost predicate IsScript(ops: seq<Op>, a: seq<string>, b: seq<string>) {
    OldSide(ops) == a && NewSide(ops) == b
  }

  ghost predicate IsSubsequence(c: seq<string>, s: seq<string>) {
    c == [] ||
    (s != [] && ((c[0] == s[0] && IsSubsequence(c[1..], s[1..])) || IsSubsequence(c, s[1..])))
  }

  // The order that settles ties: a kept line first, then a deletion, then an addition.
  function Preference(k: Kind): nat {
    match k
    case Keep => 0
    case Del => 1
    case Add => 2
  }

  ghost predicate PreferredTo(p: seq<Op>, q: seq<Op>) {
    p == [] ||
    (q != [] &&
     (Preference(p[0].kind) < Preference(q[0].kind) || (p[0] == q[0] && PreferredTo(p[1..], q[1..]))))
  }

  // ---------------------------------------------------------------- the table and the walk

  // The value the table holds at row i, column j.
  function Lcs0(a: seq<string>, b: seq<string>, i: nat, j: nat): nat
    requires i <= |a| && j <= |b|
    decreases |a| - i + |b| - j
  {
    if i == |a| || j == |b| then 0
    else if a[i] == b[j] then Lcs0(a, b, i + 1, j + 1) + 1
    else Max(Lcs0(a, b, i + 1, j), Lcs0(a, b, i, j + 1))
  }

  // What the walk still emits from position i of the old lines and j of the new.
  function Walk(a: seq<string>, b: seq<string>, i: nat, j: nat): seq<Op>
    requires i <= |a| && j <= |b|
    decreases |a| - i + |b| - j
  {
    if i == |a| && j == |b| then []
    else if j == |b| then [Op(Del, a[i])] + Walk(a, b, i + 1, j)
    else if i == |a| then [Op(Add, b[j])] + Walk(a, b, i, j + 1)
    else if a[i] == b[j] then [Op(Keep, a[i])] + Walk(a, b, i + 1, j + 1)
    else if Lcs0(a, b, i + 1, j) >= Lcs0(a, b, i, j + 1) then [Op(Del, a[i])] + Walk(a, b, i + 1, j)
    else [Op(Add, b[j])] + Walk(a, b, i, j + 1)
  }

  lemma CellFromNext(a: seq<string>, b: seq<string>, i: nat, j: nat, diagonal: nat, below: nat, right: nat)
    requires i < |a| && j < |b| && diagonal == Lcs0(a, b, i + 1, j + 1)
    requires below == Lcs0(a, b, i + 1, j) && right == Lcs0(a, b, i, j + 1)
    ensures Lcs0(a, b, i, j) == if a[i] == b[j] then diagonal + 1 else Max(below, right)
  {
  }

  lemma StepOfWalk(a: seq<string>, b: seq<string>, i: nat, j: nat, below: nat, right: nat)
    requires i < |a| && j < |b| && below == Lcs0(a, b, i + 1, j) && right == Lcs0(a, b, i, j + 1)
    ensures Walk(a, b, i, j) ==
            if a[i] == b[j] then [Op(Keep, a[i])] + Walk(a, b, i + 1, j + 1)
            else if below >= right then [Op(Del, a[i])] + Walk(a, b, i + 1, j)
            else [Op(Add, b[j])] + Walk(a, b, i, j + 1)
  {
  }

  // Row n and column m stay zero; every other cell is filled from the row below and the cell to its right.
  method FillTable(a: seq<string>, b: seq<string>) returns (table: array2<nat>)
    ensures fresh(table) && table.Length0 == |a| + 1 && table.Length1 == |b| + 1
    ensures forall r, c :: 0 <= r <= |a| && 0 <= c <= |b| ==> table[r, c] == Lcs0(a, b, r, c)
  {
    var n, m := |a|, |b|;
    table := new nat[n + 1, m + 1]((_, _) => 0);
    var i := n;
    while i > 0
      invariant 0 <= i <= n
      invariant forall r :: 0 <= r < i ==> table[r, m] == 0
      invariant forall r, c :: i <= r <= n && 0 <= c <= m ==> table[r, c] == Lcs0(a, b, r, c)
    {
      i := i - 1;
      FillRow(a, b, table, i);
    }
  }

  method FillRow(a: seq<string>, b: seq<string>, table: array2<nat>, i: nat)
    requires i < |a| && table.Length0 == |a| + 1 && table.Length1 == |b| + 1
    requires table[i, |b|] == 0
    requires forall r, c :: i < r <= |a| && 0 <= c <= |b| ==> table[r, c] == Lcs0(a, b, r, c)
    modifies table
    ensures forall c :: 0 <= c <= |b| ==> table[i, c] == Lcs0(a, b, i, c)
    ensures forall r, c :: 0 <= r <= |a| && 0 <= c <= |b| && r != i ==> table[r, c] == old(table[r, c])
  {
    var j := |b|;
    while j > 0
      invariant 0 <= j <= |b|
      invariant forall c :: j <= c <= |b| ==> table[i, c] == Lcs0(a, b, i, c)
      invariant forall r, c :: 0 <= r <= |a| && 0 <= c <= |b| && r != i ==> table[r, c] == old(table[r, c])
    {
      j := j - 1;
      CellFromNext(a, b, i, j, table[i + 1, j + 1], table[i + 1, j], table[i, j + 1]);
      table[i, j] := if a[i] == b[j] then table[i + 1, j + 1] + 1 else Max(table[i + 1, j], table[i, j + 1]);
    }
  }

  method Lcs(a: seq<string>, b: seq<string>) returns (ops: seq<Op>)
    ensures ops == Walk(a, b, 0, 0)
    ensures IsScript(ops, a, b)
    ensures forall other :: IsScript(other, a, b) ==> Changes(ops) <= Changes(other)
    ensures forall other :: IsScript(other, a, b) && Changes(other) == Changes(ops) ==> PreferredTo(ops, other)
  {
    var table := FillTable(a, b);
    ops := FollowTable(a, b, table);
    WalkIsLeastShortestScript(a, b);
  }

  // What has been emitted and what the walk still emits from here are the whole script.
  ghost predicate Following(a: seq<string>, b: seq<string>, x: nat, y: nat, ops: seq<Op>, whole: seq<Op>) {
    x <= |a| && y <= |b| && ops + Walk(a, b, x, y) == whole
  }

  lemma FollowStep(a: seq<string>, b: seq<string>, x: nat, y: nat, ops: seq<Op>, whole: seq<Op>,
                   below: nat, right: nat)
    requires x < |a| && y < |b| && Following(a, b, x, y, ops, whole)
    requires below == Lcs0(a, b, x + 1, y) && right == Lcs0(a, b, x, y + 1)
    ensures a[x] == b[y] ==> Following(a, b, x + 1, y + 1, ops + [Op(Keep, a[x])], whole)
    ensures a[x] != b[y] && below >= right ==> Following(a, b, x + 1, y, ops + [Op(Del, a[x])], whole)
    ensures a[x] != b[y] && below < right ==> Following(a, b, x, y + 1, ops + [Op(Add, b[y])], whole)
  {
    StepOfWalk(a, b, x, y, below, right);
    if a[x] == b[y] {
      Regroup(ops, Op(Keep, a[x]), Walk(a, b, x + 1, y + 1));
    } else if below >= right {
      Regroup(ops, Op(Del, a[x]), Walk(a, b, x + 1, y));
    } else {
      Regroup(ops, Op(Add, b[y]), Walk(a, b, x, y + 1));
    }
  }

  lemma Regroup(ops: seq<Op>, op: Op, rest: seq<Op>)
    ensures ops + ([op] + rest) == (ops + [op]) + rest
  {
  }

  // Past the last column every old line left is deleted, and past the last row every new one is added.
  lemma FollowTail(a: seq<string>, b: seq<string>, x: nat, y: nat, ops: seq<Op>, whole: seq<Op>)
    requires Following(a, b, x, y, ops, whole)
    ensures x < |a| && y == |b| ==> Following(a, b, x + 1, y, ops + [Op(Del, a[x])], whole)
    ensures x == |a| && y < |b| ==> Following(a, b, x, y + 1, ops + [Op(Add, b[y])], whole)
  {
    if x < |a| && y == |b| {
      Regroup(ops, Op(Del, a[x]), Walk(a, b, x + 1, y));
    } else if x == |a| && y < |b| {
      Regroup(ops, Op(Add, b[y]), Walk(a, b, x, y + 1));
    }
  }

  method FollowTable(a: seq<string>, b: seq<string>, table: array2<nat>) returns (ops: seq<Op>)
    requires table.Length0 == |a| + 1 && table.Length1 == |b| + 1
    requires forall r, c :: 0 <= r <= |a| && 0 <= c <= |b| ==> table[r, c] == Lcs0(a, b, r, c)
    ensures ops == Walk(a, b, 0, 0)
  {
    ghost var whole := Walk(a, b, 0, 0);
    ops := [];
    var x, y := 0, 0;
    while x < |a| && y < |b|
      invariant Following(a, b, x, y, ops, whole)
      decreases |a| - x + |b| - y
    {
      FollowStep(a, b, x, y, ops, whole, table[x + 1, y], table[x, y + 1]);
      if a[x] == b[y] {
        ops, x, y := ops + [Op(Keep, a[x])], x + 1, y + 1;
      } else if table[x + 1, y] >= table[x, y + 1] {
        ops, x := ops + [Op(Del, a[x])], x + 1;
      } else {
        ops, y := ops + [Op(Add, b[y])], y + 1;
      }
    }
    while x < |a|
      invariant Following(a, b, x, y, ops, whole) && (x == |a| || y == |b|)
      decreases |a| - x
    {
      FollowTail(a, b, x, y, ops, whole);
      ops, x := ops + [Op(Del, a[x])], x + 1;
    }
    while y < |b|
      invariant Following(a, b, x, y, ops, whole) && x == |a|
      decreases |b| - y
    {
      FollowTail(a, b, x, y, ops, whole);
      ops, y := ops + [Op(Add, b[y])], y + 1;
    }
  }

  // ---------------------------------------------------------------- proofs

  // Keeping k lines of |a| + |b| costs every other line once.
  lemma {:induction false} ChangesCountUnkept(ops: seq<Op>)
    ensures Changes(ops) + 2 * |Kept(ops)| == |OldSide(ops)| + |NewSide(ops)|
  {
    if ops != [] {
      ChangesCountUnkept(ops[1..]);
    }
  }

  lemma {:induction false} KeptIsCommon(ops: seq<Op>)
    ensures IsSubsequence(Kept(ops), OldSide(ops))
    ensures IsSubsequence(Kept(ops), NewSide(ops))
  {
    if ops != [] {
      var rest := ops[1..];
      KeptIsCommon(rest);
      match ops[0].kind
      case Keep =>
        assert Kept(ops)[1..] == Kept(rest) && OldSide(ops)[1..] == OldSide(rest) && NewSide(ops)[1..] == NewSide(rest);
      case Del =>
        assert Kept(ops) == Kept(rest) && OldSide(ops)[1..] == OldSide(rest) && NewSide(ops) == NewSide(rest);
      case Add =>
        assert Kept(ops) == Kept(rest) && NewSide(ops)[1..] == NewSide(rest) && OldSide(ops) == OldSide(rest);
    }
  }

  lemma {:induction false} SubsequenceDropsHead(c: seq<string>, s: seq<string>)
    requires c != [] && IsSubsequence(c, s)
    ensures IsSubsequence(c[1..], s)
    decreases |s|
  {
    if c[0] == s[0] && IsSubsequence(c[1..], s[1..]) {
      assert c[1..] == [] || IsSubsequence(c[1..], s[1..]);
    } else {
      SubsequenceDropsHead(c, s[1..]);
    }
  }

  // No common subsequence of the remaining lines is longer than the table says.
  lemma {:induction false} TableBoundsCommon(a: seq<string>, b: seq<string>, i: nat, j: nat, c: seq<string>)
    requires i <= |a| && j <= |b|
    requires IsSubsequence(c, a[i..]) && IsSubsequence(c, b[j..])
    ensures |c| <= Lcs0(a, b, i, j)
    decreases |a| - i + |b| - j
  {
    if c == [] || i == |a| || j == |b| {
      return;
    }
    assert a[i..][1..] == a[i + 1..] && b[j..][1..] == b[j + 1..];
    if a[i] == b[j] {
      // Whatever c matches first can be matched here.
      var rest := c[1..];
      if !IsSubsequence(rest, a[i + 1..]) {
        SubsequenceDropsHead(c, a[i + 1..]);
      }
      if !IsSubsequence(rest, b[j + 1..]) {
        SubsequenceDropsHead(c, b[j + 1..]);
      }
      TableBoundsCommon(a, b, i + 1, j + 1, rest);
    } else if IsSubsequence(c, a[i + 1..]) {
      TableBoundsCommon(a, b, i + 1, j, c);
    } else {
      TableBoundsCommon(a, b, i, j + 1, c);
    }
  }

  lemma {:induction false} WalkIsScript(a: seq<string>, b: seq<string>, i: nat, j: nat)
    requires i <= |a| && j <= |b|
    ensures IsScript(Walk(a, b, i, j), a[i..], b[j..])
    ensures |Kept(Walk(a, b, i, j))| == Lcs0(a, b, i, j)
    decreases |a| - i + |b| - j
  {
    if i == |a| && j == |b| {
    } else if j == |b| {
      WalkIsScript(a, b, i + 1, j);
      assert a[i..] == [a[i]] + a[i + 1..];
    } else if i == |a| {
      WalkIsScript(a, b, i, j + 1);
      assert b[j..] == [b[j]] + b[j + 1..];
    } else {
      assert a[i..] == [a[i]] + a[i + 1..];
      assert b[j..] == [b[j]] + b[j + 1..];
      if a[i] == b[j] {
        WalkIsScript(a, b, i + 1, j + 1);
      } else if Lcs0(a, b, i + 1, j) >= Lcs0(a, b, i, j + 1) {
        WalkIsScript(a, b, i + 1, j);
      } else {
        WalkIsScript(a, b, i, j + 1);
      }
    }
  }

  // The walk keeps as many lines as any common subsequence, so no script has fewer changes.
  lemma WalkIsShortest(a: seq<string>, b: seq<string>, i: nat, j: nat, other: seq<Op>)
    requires i <= |a| && j <= |b|
    requires IsScript(other, a[i..], b[j..])
    ensures Changes(Walk(a, b, i, j)) == |a| - i + |b| - j - 2 * Lcs0(a, b, i, j)
    ensures Changes(Walk(a, b, i, j)) <= Changes(other)
  {
    WalkIsScript(a, b, i, j);
    ChangesCountUnkept(Walk(a, b, i, j));
    ChangesCountUnkept(other);
    KeptIsCommon(other);
    TableBoundsCommon(a, b, i, j, Kept(other));
  }

  // What is left of a script after its first step, in the line counts that step leaves.
  lemma RestOfScript(a: seq<string>, b: seq<string>, i: nat, j: nat, other: seq<Op>) returns (i': nat, j': nat)
    requires i <= |a| && j <= |b| && IsScript(other, a[i..], b[j..]) && other != []
    ensures i' == (if other[0].kind == Add then i else i + 1) && j' == (if other[0].kind == Del then j else j + 1)
    ensures i' <= |a| && j' <= |b| && IsScript(other[1..], a[i'..], b[j'..])
  {
    i', j' := if other[0].kind == Add then i else i + 1, if other[0].kind == Del then j else j + 1;
    assert OldSide(other) == a[i..] && NewSide(other) == b[j..];
    assert i' <= |a| && j' <= |b|;
    assert OldSide(other[1..]) == a[i'..];
    assert NewSide(other[1..]) == b[j'..];
  }

  // Every other shortest script first departs from the walk at a less preferred operation.
  lemma {:induction false} WalkIsPreferred(a: seq<string>, b: seq<string>, i: nat, j: nat, other: seq<Op>)
    requires i <= |a| && j <= |b|
    requires IsScript(other, a[i..], b[j..])
    requires Changes(other) == Changes(Walk(a, b, i, j))
    ensures PreferredTo(Walk(a, b, i, j), other)
    decreases |a| - i + |b| - j
  {
    var walk := Walk(a, b, i, j);
    if walk == [] {
      return;
    }
    assert other != [] by {
      assert OldSide([]) == [] && NewSide([]) == [];
    }
    WalkIsShortest(a, b, i, j, other);
    var i', j' := RestOfScript(a, b, i, j, other);
    WalkIsShortest(a, b, i', j', other[1..]);
    if walk[0] == other[0] {
      assert walk[1..] == Walk(a, b, i', j');
      WalkIsPreferred(a, b, i', j', other[1..]);
    }
  }

  // What `Lcs` promises, stated of the specification of its walk.
  lemma WalkIsLeastShortestScript(a: seq<string>, b: seq<string>)
    ensures IsScript(Walk(a, b, 0, 0), a, b)
    ensures forall other :: IsScript(other, a, b) ==> Changes(Walk(a, b, 0, 0)) <= Changes(other)
    ensures forall other :: IsScript(other, a, b) && Changes(other) == Changes(Walk(a, b, 0, 0)) ==>
                              PreferredTo(Walk(a, b, 0, 0), other)
  {
    assert a[0..] == a && b[0..] == b;
    WalkIsScript(a, b, 0, 0);
    forall other | IsScript(other, a, b)
      ensures Changes(Walk(a, b, 0, 0)) <= Changes(other)
      ensures Changes(other) == Changes(Walk(a, b, 0, 0)) ==> PreferredTo(Walk(a, b, 0, 0), other)
    {
      WalkIsShortest(a, b, 0, 0, other);
      if Changes(other) == Changes(Walk(a, b, 0, 0)) {
        WalkIsPreferred(a, b, 0, 0, other);
      }
    }
  }

  // Two lists of lines need no change exactly when they are the same list.
  lemma NoChangesIffSame(a: seq<string>, b: seq<string>)
    ensures Changes(Walk(a, b, 0, 0)) == 0 <==> a == b
  {
    assert a[0..] == a && b[0..] == b;
    WalkIsScript(a, b, 0, 0);
    if a == b {
      IdentityScript(a);
      WalkIsShortest(a, b, 0, 0, KeepAll(a));
    }
    if Changes(Walk(a, b, 0, 0)) == 0 {
      UnchangedSidesAgree(Walk(a, b, 0, 0));
    }
  }

  ghost function KeepAll(a: seq<string>): seq<Op> {
    if a == [] then [] else [Op(Keep, a[0])] + KeepAll(a[1..])
  }

  lemma {:induction false} IdentityScript(a: seq<string>)
    ensures IsScript(KeepAll(a), a, a) && Changes(KeepAll(a)) == 0
  {
    if a != [] {
      IdentityScript(a[1..]);
    }
  }

  lemma {:induction false} UnchangedSidesAgree(ops: seq<Op>)
    requires Changes(ops) == 0
    ensures OldSide(ops) == NewSide(ops)
  {
    if ops != [] {
      UnchangedSidesAgree(ops[1..]);
    }
  }
}
