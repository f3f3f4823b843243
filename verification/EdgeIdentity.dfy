/**
 * Edge identifiers: packages/crypto/src/identity-hash.ts. An edge id is the digest of a domain tag
 * and four members joined with nothing between them; the first three have a fixed width.
 *
 * A digest is an injective function on strings.
 */
module EdgeIdentity {
  import opened Prelude
  import opened Transitions

  type Digest = string -> string

  const EDGE_ID_TAG: string := "servanda/0.1:edge_id"

  ghost predicate Injective(digest: Digest) {
    forall x, y :: digest(x) == digest(y) ==> x == y
  }

  predicate IsHexDigit(c: char) {
    '0' <= c <= '9' || 'a' <= c <= 'f'
  }

  predicate IsHex64(s: string) {
    |s| == 64 && forall c :: c in s ==> IsHexDigit(c)
  }

  function Preimage(commitmentHash: string, owner: string, owedTo: string, proposedAt: string): string {
    EDGE_ID_TAG + "\0" + commitmentHash + owner + owedTo + proposedAt
  }

  // None where the source throws on a member of the wrong width.
  function EdgeIdOf(digest: Digest, commitmentHash: string, owner: string, owedTo: string, proposedAt: string)
    : Option<string>
  {
    if IsHex64(commitmentHash) && IsHex64(owner) && IsHex64(owedTo) then
      Some(digest(Preimage(commitmentHash, owner, owedTo, proposedAt)))
    else None
  }

  // Does an edge's id digest its own body?
  predicate BindsBody(digest: Digest, edge: Edge) {
    EdgeIdOf(digest, edge.commitmentHash, edge.owner, edge.owedTo, edge.proposedAt) == Some(edge.edgeId)
  }

  lemma SplitAtWidth(a: string, x: string, b: string, y: string)
    requires |a| == |b|
    ensures a + x == b + y <==> a == b && x == y
  {
    if a + x == b + y {
      assert a == (a + x)[..|a|] && b == (b + y)[..|b|];
      assert x == (a + x)[|a|..] && y == (b + y)[|b|..];
    }
  }

  // Fixed widths make the joined members readable back, whatever the fourth one is.
  lemma PreimageSplits(c1: string, o1: string, t1: string, p1: string, c2: string, o2: string, t2: string, p2: string)
    requires |c1| == |c2| && |o1| == |o2| && |t1| == |t2|
    ensures Preimage(c1, o1, t1, p1) == Preimage(c2, o2, t2, p2) <==> c1 == c2 && o1 == o2 && t1 == t2 && p1 == p2
  {
    var tag := EDGE_ID_TAG + "\0";
    var r1, r2 := o1 + (t1 + p1), o2 + (t2 + p2);
    assert Preimage(c1, o1, t1, p1) == tag + (c1 + r1) && Preimage(c2, o2, t2, p2) == tag + (c2 + r2);
    SplitAtWidth(tag, c1 + r1, tag, c2 + r2);
    SplitAtWidth(c1, r1, c2, r2);
    SplitAtWidth(o1, t1 + p1, o2, t2 + p2);
    SplitAtWidth(t1, p1, t2, p2);
  }

  // Where each member stands in what an id digests: the owner before the one it is owed to.
  lemma PreimageStands(commitmentHash: string, owner: string, owedTo: string, proposedAt: string)
    requires IsHex64(commitmentHash) && IsHex64(owner) && IsHex64(owedTo)
    ensures var p := Preimage(commitmentHash, owner, owedTo, proposedAt);
      && |p| == 213 + |proposedAt| && p[..20] == "servanda/0.1:edge_id" && p[20] as int == 0
      && p[21..85] == commitmentHash && p[85..149] == owner && p[149..213] == owedTo && p[213..] == proposedAt
  {
    var p, tag := Preimage(commitmentHash, owner, owedTo, proposedAt), EDGE_ID_TAG + "\0";
    assert |EDGE_ID_TAG| == 20 && |tag| == 21;
    assert p == tag + commitmentHash + owner + owedTo + proposedAt;
  }

  // Two edges whose ids digest their bodies share an id exactly when they agree on all four digested members.
  lemma BoundEdgesShareIdIff(digest: Digest, e: Edge, f: Edge)
    requires Injective(digest) && BindsBody(digest, e) && BindsBody(digest, f)
    ensures e.edgeId == f.edgeId <==>
            e.commitmentHash == f.commitmentHash && e.owner == f.owner && e.owedTo == f.owedTo &&
            e.proposedAt == f.proposedAt
  {
    PreimageSplits(e.commitmentHash, e.owner, e.owedTo, e.proposedAt,
                   f.commitmentHash, f.owner, f.owedTo, f.proposedAt);
  }

  // Without the widths two different triples join to one preimage, so the check is what makes ids names.
  lemma WidthsMatter(commitmentHash: string, first: char, owner: string, owedTo: string, proposedAt: string)
    ensures Preimage(commitmentHash, [first] + owner, owedTo, proposedAt) ==
            Preimage(commitmentHash + [first], owner, owedTo, proposedAt)
    ensures commitmentHash != commitmentHash + [first]
  {
    assert commitmentHash + ([first] + owner) == (commitmentHash + [first]) + owner;
    assert |commitmentHash| != |commitmentHash + [first]|;
  }
}
