/**
 * The git transport: packages/federation/src/git-transport.ts. Clones of one shared repository send
 * messages by writing each as a file in the directory it is addressed to; a sync adopts the shared
 * tree, writes what this side has not yet published, and pushes, as one step.
 *
 * A tree is a map from directories to the files in them, and a message's id is a function of it.
 */
module GitTransport {
  import opened Prelude
  import opened EdgeIdentity
  import T = Text

  datatype Message = Message(kind: string, edgeId: Option<string>, sender: string, body: string, sig: string)

  datatype Outgoing = Outgoing(recipient: string, message: Message)

  type Files = map<string, Message>

  type Tree = map<string, Files>

  // How messages are told apart, and which of them verify when they are read back.
  datatype Wire = Wire(id: Message -> string, verifies: Message -> bool)

  ghost predicate Faithful(wire: Wire) {
    forall x, y :: wire.id(x) == wire.id(y) ==> x == y
  }

  // ---------------------------------------------------------------- where a message goes

  // None where the source throws: neither an edge nor a recipient that can be a directory.
  function DirFor(recipient: string, m: Message): Option<string> {
    match m.edgeId
    case Some(edge) => if IsHex64(edge) then Some(edge) else None
    case None => if IsHex64(recipient) then Some("_direct/" + recipient) else None
  }

  function Zeros(n: int): string {
    if n <= 0 then "" else "0" + Zeros(n - 1)
  }

  // Padded on the left to four digits, and longer when the number is.
  function Padded(n: nat): string {
    Zeros(4 - |T.Decimal(n)|) + T.Decimal(n)
  }

  function FileName(n: nat, kind: string): string {
    Padded(n) + "-" + kind + ".json"
  }

  function FilesIn(tree: Tree, dir: string): Files {
    if dir in tree then tree[dir] else map[]
  }

  // Does a file here read back as this very message?
  predicate Present(wire: Wire, files: Files, m: Message) {
    exists name :: name in files && wire.verifies(files[name]) && wire.id(files[name]) == wire.id(m)
  }

  // ---------------------------------------------------------------- placing

  predicate Unplaceable(wire: Wire, tree: Tree, placed: set<string>, out: Outgoing) {
    || wire.id(out.message) in placed
    || DirFor(out.recipient, out.message).None?
    || Present(wire, FilesIn(tree, DirFor(out.recipient, out.message).value), out.message)
  }

  function Write(tree: Tree, dir: string, m: Message): Tree {
    var files := FilesIn(tree, dir);
    tree[dir := files[FileName(|files| + 1, m.kind) := m]]
  }

  function Placing(wire: Wire, tree: Tree, placed: set<string>, out: Outgoing): Tree {
    if Unplaceable(wire, tree, placed, out) then tree
    else Write(tree, DirFor(out.recipient, out.message).value, out.message)
  }

  function PlacingAll(wire: Wire, tree: Tree, placed: set<string>, pending: seq<Outgoing>): Tree
    decreases |pending|
  {
    if pending == [] then tree
    else
      PlacingAll(wire, Placing(wire, tree, placed, pending[0]), placed + {wire.id(pending[0].message)}, pending[1..])
  }

  function Ids(wire: Wire, pending: seq<Outgoing>): set<string> {
    set out | out in pending :: wire.id(out.message)
  }

  lemma PlacingFrom(wire: Wire, tree: Tree, placed: set<string>, pending: seq<Outgoing>, i: nat)
    requires i < |pending|
    ensures PlacingAll(wire, tree, placed, pending[i..]) ==
            PlacingAll(wire, Placing(wire, tree, placed, pending[i]), placed + {wire.id(pending[i].message)},
                       pending[i + 1..])
  {
    assert pending[i..][0] == pending[i] && pending[i..][1..] == pending[i + 1..];
  }

  lemma IdsOneMore(wire: Wire, pending: seq<Outgoing>, i: nat)
    requires i < |pending|
    ensures Ids(wire, pending[..i + 1]) == Ids(wire, pending[..i]) + {wire.id(pending[i].message)}
  {
    assert pending[..i + 1] == pending[..i] + [pending[i]];
  }

  // Every message waiting can be given a directory.
  predicate Addressable(pending: seq<Outgoing>) {
    forall out :: out in pending ==> DirFor(out.recipient, out.message).Some?
  }

  // With the first i messages dealt with, what is left to place ends in the target, and what has been
  // recorded is what was recorded before and those messages.
  ghost predicate Placed(wire: Wire, target: Tree, before: set<string>, pending: seq<Outgoing>, i: nat,
                         tree: Tree, placed: set<string>)
  {
    && i <= |pending| && PlacingAll(wire, tree, placed, pending[i..]) == target
    && placed == before + Ids(wire, pending[..i])
  }

  // One message is recorded already, or is there already, or is written.
  lemma PlaceOne(wire: Wire, target: Tree, before: set<string>, pending: seq<Outgoing>, i: nat,
                 tree: Tree, placed: set<string>, dir: string, m: Message)
    requires i < |pending| && Placed(wire, target, before, pending, i, tree, placed)
    requires m == pending[i].message && DirFor(pending[i].recipient, m) == Some(dir)
    ensures wire.id(m) in placed ==> Placed(wire, target, before, pending, i + 1, tree, placed)
    ensures wire.id(m) !in placed && Present(wire, FilesIn(tree, dir), m) ==>
              Placed(wire, target, before, pending, i + 1, tree, placed + {wire.id(m)})
    ensures wire.id(m) !in placed && !Present(wire, FilesIn(tree, dir), m) ==>
              Placed(wire, target, before, pending, i + 1, Write(tree, dir, m), placed + {wire.id(m)})
  {
    PlacingFrom(wire, tree, placed, pending, i);
    IdsOneMore(wire, pending, i);
    assert wire.id(m) in placed ==> placed + {wire.id(m)} == placed;
  }

  lemma StartsPlacing(wire: Wire, tree: Tree, placed: set<string>, pending: seq<Outgoing>)
    ensures Placed(wire, PlacingAll(wire, tree, placed, pending), placed, pending, 0, tree, placed)
  {
    assert pending[0..] == pending && Ids(wire, pending[..0]) == {};
  }

  lemma EndsPlacing(wire: Wire, target: Tree, before: set<string>, pending: seq<Outgoing>,
                    tree: Tree, placed: set<string>)
    requires Placed(wire, target, before, pending, |pending|, tree, placed)
    ensures tree == target && placed == before + Ids(wire, pending)
  {
    assert pending[..|pending|] == pending;
  }

  // ---------------------------------------------------------------- the clones and what they share

  class Shared {
    var tree: Tree

    constructor ()
      ensures tree == map[]
    {
      tree := map[];
    }
  }

  class GitTransport {
    const wire: Wire
    var pending: seq<Outgoing>
    var placed: set<string>

    constructor (wire: Wire)
      ensures this.wire == wire && pending == [] && placed == {}
    {
      this.wire, pending, placed := wire, [], {};
    }

    method Send(recipient: string, m: Message)
      modifies this`pending
      ensures pending ==
              if wire.id(m) in placed then old(pending) else old(pending) + [Outgoing(recipient, m)]
    {
      if wire.id(m) in placed {
        return;
      }
      pending := pending + [Outgoing(recipient, m)];
    }

    // The source throws part way when a message cannot be addressed; a sync modelled here completes.
    method Sync(shared: Shared)
      requires Addressable(pending)
      modifies this, shared
      ensures shared.tree == PlacingAll(wire, old(shared.tree), old(placed), old(pending))
      ensures placed == old(placed) + Ids(wire, old(pending)) && pending == []
    {
      shared.tree := PlaceAll(shared.tree);
    }

    method PlaceAll(adopted: Tree) returns (tree: Tree)
      requires Addressable(pending)
      modifies this
      ensures tree == PlacingAll(wire, adopted, old(placed), old(pending))
      ensures placed == old(placed) + Ids(wire, old(pending)) && pending == []
    {
      tree := adopted;
      ghost var target, before := PlacingAll(wire, adopted, placed, pending), placed;
      StartsPlacing(wire, adopted, placed, pending);
      for i := 0 to |pending|
        invariant pending == old(pending)
        invariant Placed(wire, target, before, pending, i, tree, placed)
      {
        var out := pending[i];
        var id := wire.id(out.message);
        ghost var to := DirFor(out.recipient, out.message).value;
        PlaceOne(wire, target, before, pending, i, tree, placed, to, out.message);
        if id in placed {
          continue;
        }
        var dir := DirFor(out.recipient, out.message).value;
        if AlreadyPresent(FilesIn(tree, dir), out.message) {
          placed := placed + {id};
          continue;
        }
        tree := Write(tree, dir, out.message);
        placed := placed + {id};
      }
      EndsPlacing(wire, target, before, pending, tree, placed);
      pending := [];
    }

    predicate AlreadyPresent(files: Files, m: Message) {
      Present(wire, files, m)
    }
  }
}
