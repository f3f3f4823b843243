# Servanda, verified

A Dafny model of the parts of Servanda where a loop, a printer or a long-lived state carries a
promise that spans functions: the line diff, canonical JSON and the bootstrap link, keyset paging,
envelope bounding, rotation lineage, the transition table of an edge, reconciliation and the inbox,
the git transport, the MIME splitter, the HTML printer, the proposal budget, the keyset work budget
and the attention order.

Code that changes things step by step is modelled by methods with loops and by classes whose fields
the methods update (`Jcs.Sink`, `Recon.Vault`, `Inbox.Inbox`, `GitTransport.GitTransport`,
`MimeWalk.Collector`, `AntiSpam.ProposalBudget`); each method is proved equal to a function of its
inputs or of the old state, and what the repository promises is proved about that function. Code made
of expressions is functions and lemmas.

`dafny verify dfyconfig.toml` verifies the whole project.

## How the parts fit

- `Prelude`, `Text`: options, lines, numerals.
- `EditScript`, `UnifiedDiff`: the table, the walk and the printed hunks, against a reader and patcher
  of the printed text.
- `Utf16`, `Utf8`, `Jcs`, `JcsReader`, `JcsSpelling`, `Bootstrap`: strings of UTF-16 code units, the UTF-8 codec with
  its replacement character and byte order mark, the canonical printer (section 3.2 of RFC 8785), a
  reader that inverts it, why it prints the spelling it does, and the base64url link (section 5 of RFC 4648).
- `Paging`, `WalkView`: the node's page and the client's walk, with any change to the register between
  two pages.
- `Bounds`, `BoundEnvelope`, `BoundSucceeds`, `BoundContent`: clipping on scalar boundaries, the staged
  reduction, when it fails, and what the result says.
- `Rotation`: statements, the graph they make, the walk along it, and lineages.
- `Replay`, `Transitions`, `TransitionSafety`, `TransitionRows`, `TwoSignatures`: replaying any transition
  table, the table the node uses, what that table guarantees about every chain, exactly what it accepts, and
  when two signatures are two parties.
- `AntiSpam`, `EdgeIdentity`, `Recon`, `ReconConvergence`, `ReconExchange`, `ReconRuns`, `ReconRivals`,
  `Inbox`, `InboxSafety`, `InboxTakes`: the untrusted inbound half of federation, up to when two nodes agree,
  reconciliation with messages in any order, invariants of every run, and exactly what is taken.
- `GitTransport`, `GitDelivery`: clones of a shared repository, up to delivery in every run.
- `Mime`, `MimeWalk`, `MimeCompose`: the multipart splitter, the walk over nested entities, and reading back
  what was put together.
- `ContentKey`, `Html`, `Ranking`: the keyset, the HTML printer, the brief.

## What is assumed

A hash is an injective function, a signature a predicate, and a sealed box opens only under the key
that sealed it; different passphrases derive different keys from one salt at one cost
(`ContentKey.Sound`). No transfer encoding decodes to more octets than it was given
(`MimeWalk.Shrinks`), which holds of those the source reads. Clocks, random salts and nonces, calendar
arithmetic, attestation levels and the order of locale comparison are parameters. Numbers are integers or
reals; a canonical number is the numeral it prints as.

## Where the code and its comments differ

Each of these names the lemma that says exactly when it happens and one at an input where it does.

- What asks for both parties counts keys, so that a party who has rotated can sign with its old key and
  with its new one and answer for both. Two signatures are always those of both parties if and only if
  neither lineage lists two keys of its own, held at some instant when the other party does not hold
  them (`TwoSignatures.TwoKeysAreBothPartiesIff`); the owner in
  `TwoSignatures.RotatedOwnerSupersedesAlone` supersedes an edge alone. The comment at
  packages/node/src/transitions.ts:441-442 says that one party signing twice is not two parties.
- Two parties who each take a different legal exit from an open edge, and then hear the other's, reach the
  same state if and only if the two acts carry the same instant
  (`TransitionSafety.RivalExitsConvergeIff`; `TransitionSafety.RivalExitsDisagree` closes at 5 and releases
  at 6). The comment at packages/node/src/transitions.ts:229-231 promises convergence for every concurrent
  pair.
- Reconciling brings such exits together if and only if they carry one instant and each chain can still reach
  the other node (`ReconRivals.RivalsMeetIff`). A node asks only about edges its own chain leaves open, and
  after two different exits one of the two at least has none left. So it takes a request sent before the exit
  and answered after it, as in `ReconRivals.OldRequestsBringThemTogether`; with nothing asked before, the
  hashes never agree, whatever the instants (`ReconRivals.RivalsNeverMeet`; `ReconRivals.RivalsAtOneInstant`
  closes and releases at 5). In general one exchange ends in agreement if and only if each node lacks nothing,
  or asks, is served and refuses nothing (`ReconExchange.ExchangeConvergesIff`). The comment at
  packages/federation/src/recon.ts:130-131 says that both sides end up seeing one chain.
- A key is held from before it comes into use: only the key in use at an instant is held then if and only if
  every replacement in the lineage has happened by then (`TransitionSafety.OnlyCurrentIsHeldIff`;
  `TransitionSafety.SuccessorBackdates`). The comments at packages/node/src/transitions.ts:501-502 and 516
  say that a key counts exactly while it is the current one.
- A hunk header with a count of zero names line 1, not line 0, of the empty side
  (`UnifiedDiff.ZeroCountMeansEmptySide` says when that happens, `UnifiedDiff.AddedFileNamesLineOne` is a
  new file of one line).
- The instants in a lineage are independent of the order of the statements if and only if no two
  verified statements disagree about the instant of a link on it (`Rotation.TimesIgnoreOrderIff`;
  `Rotation.LinkDatedTwice`); the keys are always independent of it.
- Resolving the key a resolution arrived at gives the same key if and only if it stopped at an end or
  at a fork (`Rotation.ResolvingTwice`; `Rotation.CycleGoesRound`).
- A lineage that stops at a fork is the single key it started from if and only if the fork is at that
  key (`Rotation.ForkedLineageIsSingleIff`; `Rotation.ForkAfterOneStep`). The comments at
  packages/federation/src/serve.ts:58-59 and 72-74 say so of every fork.
- A vault files rotation statements by their new key, so a later one keeps all the others if and only
  if none of them names the same new key (`InboxSafety.FilingKeepsTheRestIff`;
  `InboxSafety.SharedSuccessorCollides`).
- Nothing on the write path looks at `t` and `p` one by one: a profile it admits can be opened alone if
  and only if `t` is positive (`ContentKey.AdmittedOpensIff`; `ContentKey.AdmittedYetShut`); the
  derivation refuses the others.
- Wrapping again replaces every passphrase slot by one for the passphrase given, so afterwards no other
  passphrase opens anything (`ContentKey.RewrapKeepsTheKey`; `ContentKey.SecondPassphraseIsLost`).
- What counts as a passphrase slot that keeps a device from being sole custodian can be opened at all if and
  only if its salt is hexadecimal and its memory and work are within the ceilings of an open
  (`ContentKey.UsableIsSpendableIff`; `ContentKey.SealedYetShut`). The comment at
  packages/crypto/src/content-key.ts:386 says that it counts only if it could actually be opened.
- Clipping adds no code point if and only if the string fits, or no unpaired surrogate stands in what is
  kept of it, or it holds U+FFFD anyway (`Bounds.ClipAddsNothingIff`; `Bounds.UnpairedIsReplaced`). The
  comment at packages/envelope/src/bounds.ts:44-48 says that cutting between scalars keeps to the code points
  of the source.
- A link whose base already carries a `#` decodes to nothing (`Bootstrap.LinkRoundTrip`;
  `Bootstrap.LinkAfterFragmentIsLost`).

## Model

| member | source | states |
|---|---|---|
| EditScript.FillTable | packages/executors/src/diff.ts:29-39 | every cell of the table filled backwards holds the length of a longest common subsequence of the two tails |
| EditScript.Lcs | packages/executors/src/diff.ts:29-59 | the script turns the old lines into the new ones, no script has fewer changes, and among those with as few it prefers deleting first |
| EditScript.TableBoundsCommon | packages/executors/src/diff.ts:32-39 | no common subsequence of the two tails is longer than the table says |
| EditScript.WalkIsLeastShortestScript | packages/executors/src/diff.ts:40-58 | the greedy walk is the least of the shortest scripts |
| EditScript.NoChangesIffSame | packages/executors/src/diff.ts:75-77 | the script has no change exactly when the two files have the same lines |
| UnifiedDiff.MarkContext | packages/executors/src/diff.ts:79-86 | an operation is marked exactly when a change stands within three of it |
| UnifiedDiff.PrintChanges | packages/executors/src/diff.ts:93-124 | the printed hunks show, in order and without touching, exactly the marked operations, each header counting its own body |
| UnifiedDiff.UnifiedDiff | packages/executors/src/diff.ts:70-127 | reading the printed text back by its header counts and applying each hunk where it says turns the old lines into the new; the text is empty exactly when nothing changes; the counts are minimal |
| UnifiedDiff.ReadPrintedHunks | packages/executors/src/diff.ts:104-123 | a reader that goes by header counts recovers every printed hunk |
| UnifiedDiff.PrintedDiffPatches | packages/executors/src/diff.ts:70-127 | any hunks that show the marked operations of a script patch the old lines into the new ones |
| UnifiedDiff.ZeroCountMeansEmptySide | packages/executors/src/diff.ts:104-118 | a header counts zero lines on a side exactly when that whole side is empty, and then names its line 1 |
| UnifiedDiff.PrintedSidesAreRead | packages/executors/src/diff.ts:88-91 | the first two lines tell a new file and a deleted one from a changed one, and give the path back |
| UnifiedDiff.AddedFileNamesLineOne | packages/executors/src/diff.ts:93-124 | a new file of one line has the one hunk `@@ -1,0 +1,1 @@` |
| Text.SplitLinesInvertsUnlines | packages/executors/src/diff.ts:21-27 | splitting the text of newline-free lines gives the lines back |
| Utf8.DecodeInvertsEncodeString | packages/envelope/src/bounds.ts:33-39 | decoding an encoded string, whatever it holds, gives it back with unpaired surrogates replaced and a leading byte order mark gone, and as it was exactly when it had neither |
| Utf8.MalformedIsReplaced | packages/envelope/src/bounds.ts:33-39 | where no scalar is encoded, the replacement character stands for the longest beginning of one, or else for one octet, and decoding goes on past it |
| Utf8.ScalarIsDecoded | packages/envelope/src/bounds.ts:33-39 | and an encoded scalar is decoded |
| Jcs.Write | packages/crypto/src/jcs.ts:67-113 | the pieces pushed are the canonical text of the value, or the refusal the source throws |
| Jcs.Canonicalize | packages/crypto/src/jcs.ts:116-120 | the joined pieces are the text `Canon` gives; which text that is, is settled by the rows of JcsReader and JcsSpelling |
| JcsReader.AcceptedIff | packages/crypto/src/jcs.ts:29-113 | a value has a canonical text exactly when JSON can carry it and it nests at most 256 levels; each refusal is for its own reason |
| JcsReader.ReadInvertsCanonicalize | packages/crypto/src/jcs.ts:67-120 | reading a canonical text gives the value's meaning |
| JcsReader.CanonicalIffSameMeaning | packages/crypto/src/jcs.ts:42-120 | two values have one canonical text exactly when they are equal up to member order and undefined members |
| JcsReader.SameMeaningSameText | packages/crypto/src/jcs.ts:92-113 | equal meanings print alike at every depth |
| JcsReader.SortIsProper | packages/crypto/src/jcs.ts:42-44 | sorting members by code unit keeps the object's meaning and puts the keys in increasing order |
| JcsSpelling.StringIsTheShortest | packages/crypto/src/jcs.ts:58-65 | of all the well-formed spellings of a string the canonical one is as short as any and in lower case, and it alone is both; so a control character has its short escape and an unpaired surrogate its six units |
| JcsSpelling.EscapeIsShortest | packages/crypto/src/jcs.ts:58-65 | no text without unpaired surrogates spells a string in fewer units, whatever follows it |
| JcsSpelling.NamesAreInOrder | packages/crypto/src/jcs.ts:42-44 | the names read off the text of an object, first to last, are those of its defined members, each before the next by the first code unit in which they differ |
| JcsSpelling.LiteralTexts | packages/crypto/src/jcs.ts:67-82 | the literals are spelled as JSON has them and minus zero is 0 |
| JcsSpelling.ArrayText | packages/crypto/src/jcs.ts:89-97 | an array is its items between brackets with commas between |
| JcsSpelling.ObjectText | packages/crypto/src/jcs.ts:99-112 | an object given in the order b, a prints a before b |
| Bootstrap.ToBase64Url | packages/federation/src/bootstrap.ts:38-42 | the text the loop over bytes builds reads back as those bytes, in the url alphabet and without padding |
| Bootstrap.UrlTextIsUnpadded | packages/federation/src/bootstrap.ts:38-42 | the text has the length of the bits and only letters of the url alphabet |
| Bootstrap.UrlTextSpells | packages/federation/src/bootstrap.ts:38-42 | every three octets are spelled as four digits of base sixty-four, the highest first, in the letters of table 2 of RFC 4648 |
| Bootstrap.FromBase64UrlInverts | packages/federation/src/bootstrap.ts:38-48 | decoding gives back every byte sequence |
| Bootstrap.PayloadRoundTrip | packages/federation/src/bootstrap.ts:51-74 | a payload decodes to whatever its text reads as |
| Bootstrap.LinkRoundTrip | packages/federation/src/bootstrap.ts:51-80 | a link gives back its message's meaning exactly when its base has no fragment, and nothing otherwise |
| Bootstrap.LinkAfterFragmentIsLost | packages/federation/src/bootstrap.ts:51-80 | the link of any message on the base `#` decodes to nothing, and on the empty base to its meaning |
| Paging.RankedSorts | packages/node/src/node.ts:828-837 | the view is the register's items in rank order, each once |
| Paging.InOrderIsUnique | packages/node/src/cursor.ts:92-102 | there is one such order |
| Paging.RankedDescends | packages/node/src/node.ts:828-837 | of any two items the one with the higher score stands first, and at one score the one with the lower code unit where the identifiers first differ |
| Paging.ServedIff | packages/node/src/node.ts:785-815 | a page is refused exactly for a cursor of another view or persona, or one read more than fifteen minutes after its instant |
| Paging.PageReadsOn | packages/node/src/node.ts:782-879 | a page is the next items of the register after the cursor's key, all of them up to where its own cursor stops, and it has one exactly when something is left to read |
| Paging.PageCounts | packages/node/src/node.ts:841-876 | `above` counts what stands at or above the new key and `skipped` how far the old key's count has grown |
| WalkView.Walk | packages/client-web/src/paging.ts:48-80 | under any changes between pages nothing is delivered twice, an untruncated walk misses nothing that was there throughout, the cursors are those its pages end with, and `skipped` is exactly the growth above each of them between two reads; on an unchanged register the walk is the whole ranked view or its first 20000 items |
| WalkView.EveryPageIsIssued | packages/client-web/src/paging.ts:48-80 | each page was cut from the register it was read from, and every page but the last is full and its cursor names its last item, the first instant and the count above it |
| WalkView.SkippedIsNetGrowth | packages/node/src/node.ts:841-866 | a page's `skipped` is the net growth, floored at zero, at or above the cursor since it was issued |
| WalkView.SkippedOvertook | packages/client-web/src/paging.ts:71-72 | that sum never exceeds the items that arrived above the reader, cursor by cursor |
| WalkView.StaticPage | packages/client-web/src/paging.ts:48-80 | on an unchanged register the next page is the next 500 of the one ranked list |
| WalkView.RefusedForTime | packages/node/src/cursor.ts:89-91 | the only refusal a walk can meet is an expired cursor, read more than a quarter of an hour after the first page |
| Bounds.Clip | packages/envelope/src/bounds.ts:52-58 | stepping back over continuation octets gives the clipped string |
| Bounds.CutIsAtFirstOctet | packages/envelope/src/bounds.ts:52-58 | past the last scalar that fits, only continuation octets stand before the limit |
| Bounds.FitPrefixIsLongest | packages/envelope/src/bounds.ts:52-58 | no longer run of whole scalars fits |
| Bounds.ClippedIsBounded | packages/envelope/src/bounds.ts:52-58 | a clipped string fits, holds only scalars its source encodes to, and differs from its source exactly when the source did not fit |
| Bounds.ClipAddsNothingIff | packages/envelope/src/bounds.ts:41-58 | clipping adds no code point exactly when the string fits, or no unpaired surrogate is kept, or the string holds the replacement character anyway |
| Bounds.UnpairedIsReplaced | packages/envelope/src/bounds.ts:41-58 | an unpaired surrogate before the cut comes out as U+FFFD |
| Bounds.BoundPayload | packages/envelope/src/bounds.ts:151-188 | the recursion over a payload gives the value `BoundedValue` describes and whether anything was cut; what that value holds is settled by the rows of BoundContent and BoundEnvelope |
| BoundContent.StringIsClipped | packages/envelope/src/bounds.ts:151-155 | a string is clipped, and reported as cut exactly when it has more octets than the allowance |
| BoundContent.ObjectHolds | packages/envelope/src/bounds.ts:172-186 | under each key a bounded object holds the bounded value of the last member that writes it, or the octet count of the last string cut there, or nothing |
| BoundContent.LengthIsWritten | packages/envelope/src/bounds.ts:178-184 | beside a cut string stands, read digit by digit, the number of octets of the string as it came |
| BoundContent.ItemsHold | packages/envelope/src/bounds.ts:162-171 | a list keeps its length and its order, each item bounded one level further down |
| BoundEnvelope.ClippedIffBeyond | packages/envelope/src/bounds.ts:115-188 | a cut is reported exactly when the payload was outside its bounds |
| BoundEnvelope.BoundedIsWithin | packages/envelope/src/bounds.ts:151-188 | a bounded payload is inside the bounds the violation check applies |
| BoundEnvelope.WithinIsUnchanged | packages/envelope/src/bounds.ts:151-188 | a payload inside its bounds is left as it was |
| BoundEnvelope.ClipMembers | packages/envelope/src/bounds.ts:208-246 | the first pass bounds label, refs and payload and reports a cut exactly when one was outside its bound |
| BoundEnvelope.Bound | packages/envelope/src/bounds.ts:208-287 | the three reduction loops end in the form described below, marked when and only when something was cut |
| BoundEnvelope.HalveStops | packages/envelope/src/bounds.ts:248-255 | halving stops at the largest allowance of its series that fits, every larger one being too big, or at the smallest there is |
| BoundEnvelope.DropStops | packages/envelope/src/bounds.ts:257-270 | members go in reverse key order, and with any fewer of them gone the envelope is too big |
| BoundEnvelope.DropFitsOrEmpties | packages/envelope/src/bounds.ts:257-270 | after dropping members the envelope fits or the payload is empty |
| BoundEnvelope.DropRefsStops | packages/envelope/src/bounds.ts:272-278 | refs go from the last, and with any more of them left the envelope is too big |
| BoundEnvelope.FormIsBounded | packages/envelope/src/bounds.ts:208-287 | every member is inside its bound and the unmarked form fits, or payload and refs are both empty |
| BoundEnvelope.FormKeepsMostText | packages/envelope/src/bounds.ts:248-255 | strings are clipped to the largest allowance of the series under which the whole fits, and under every larger one it is too big |
| BoundEnvelope.FormDropsNoMore | packages/envelope/src/bounds.ts:248-278 | nothing is dropped when some allowance fits; otherwise with any fewer members or refs dropped the whole is too big, and refs go only once no member is left |
| BoundEnvelope.FormKeepsTheRest | packages/envelope/src/bounds.ts:208-287 | nothing but the actor's label, the refs and the payload is touched |
| BoundEnvelope.UncutIsUnchanged | packages/envelope/src/bounds.ts:280-286 | what is not marked has the meaning it came with |
| BoundEnvelope.ConformingIsUnchanged | packages/envelope/src/bounds.ts:66-113 | an envelope inside every bound comes back unmarked with the same meaning |
| BoundContent.BoundSaysLengths | packages/envelope/src/bounds.ts:208-287 | in what `bound` returns without dropping members, the number beside a payload string it cut is the octet count of that string as it came |
| BoundContent.DroppedOrKept | packages/envelope/src/bounds.ts:257-270 | a dropped member is gone with its length, and every other member is as it was |
| BoundContent.KeysDescend | packages/envelope/src/bounds.ts:262 | members go from the last key, in order of code units, to the first, and none is passed over |
| BoundContent.ActorHolds | packages/envelope/src/bounds.ts:212-222 | the actor keeps every member but its label, which is clipped when it is a string |
| BoundContent.FirstPassRefs | packages/envelope/src/bounds.ts:224-237 | the first pass keeps the first refs in order, each clipped |
| BoundContent.RefHolds | packages/envelope/src/bounds.ts:229-236 | a ref keeps every member but its value, which is clipped when it is a string |
| BoundContent.MarkReads | packages/envelope/src/bounds.ts:280-286 | the mark is true exactly when something was cut, and otherwise what it was before |
| BoundSucceeds.JsonIsSized | packages/envelope/src/bounds.ts:190-192 | an envelope has a size exactly when every member is JSON and no deeper than the canonical form allows |
| BoundSucceeds.BoundedIsLight | packages/envelope/src/bounds.ts:151-188 | a bounded payload nests at most eight levels, however deep it came |
| BoundSucceeds.BoundsIff | packages/envelope/src/bounds.ts:208-287 | an envelope is bounded exactly when what the first pass makes of it is JSON; no later stage throws |
| BoundSucceeds.SmallerIsFine | packages/envelope/src/bounds.ts:151-188 | a payload that is JSON under one allowance is JSON under every smaller one |
| BoundSucceeds.JsonIsBounded | packages/envelope/src/bounds.ts:208-287 | so every envelope that is JSON is bounded |
| BoundSucceeds.DeepPayloadIsBounded | packages/envelope/src/bounds.ts:208-287 | and so is one whose payload alone nests too deep for the canonical form, however deep |
| Rotation.VerifyRotation | packages/identity/src/rotation.ts:80-137 | a statement verifies exactly when it parses, names two different keys and is signed by the old one, in the encoding reported; the withdrawn encoding counts only where there is no other and it is accepted |
| Rotation.RefusedFor | packages/identity/src/rotation.ts:80-137 | which of the reasons a statement is refused for, each with its exact condition |
| Rotation.RejectedIsExact | packages/identity/src/rotation.ts:194-200 | every statement that does not verify is reported with its reason, as often as it came, and no other is |
| Rotation.FileRotations | packages/identity/src/rotation.ts:192-204 | the nested maps hold exactly the verified statements, the others being listed with their reasons |
| Rotation.Follow | packages/identity/src/rotation.ts:206-230 | the walk gives the last key of `KeysOf`, the statements that lead there and its stop; that this is the walk is the next row |
| Rotation.WalkIsTheOne | packages/identity/src/rotation.ts:206-230 | the walk is the one list of distinct keys, at most 33, in which each has the next as its only successor, and that ends with no successor, with two, with one met before, or after 32 steps, as the stop says |
| Rotation.ResolveSuccessor | packages/identity/src/rotation.ts:187-233 | resolution ends at the last key of the lineage, with the statements that lead there |
| Rotation.KeyLineage | packages/identity/src/rotation.ts:262-273 | the lineage is the keys of the walk, each stamped with the instant it was replaced, the last open |
| Rotation.LineageIsExact | packages/identity/src/rotation.ts:248-273 | that description has one answer |
| Rotation.KeysIgnoreOrder | packages/identity/src/rotation.ts:187-273 | the keys of a lineage do not depend on the order or repetition of the statements |
| Rotation.TimesIgnoreOrderIff | packages/identity/src/rotation.ts:191-273 | its instants do not either, exactly when no two statements disagree about a link on it |
| Rotation.LinkDatedTwice | packages/identity/src/rotation.ts:191-273 | two statements of one link at two instants, listed both ways, give two lineages |
| Rotation.KeysAreDistinct | packages/identity/src/rotation.ts:177-230 | the keys are pairwise distinct and at most 33 |
| Rotation.AddingOneStatement | packages/identity/src/rotation.ts:206-230 | one more verified statement leaves a lineage alone, cuts it at a fork or extends it at its end; it never redirects it |
| Rotation.RejectedChangesNothing | packages/identity/src/rotation.ts:191-204 | a statement that does not verify changes nothing |
| Rotation.ResolvingTwice | packages/identity/src/rotation.ts:187-233 | resolving again stays put exactly after an end or a fork |
| Rotation.CycleGoesRound | packages/identity/src/rotation.ts:206-230 | two keys that replace each other resolve to each other |
| Rotation.ForkedLineageIsSingleIff | packages/federation/src/serve.ts:56-78 | a lineage stopped by a fork is the single key it started from exactly when the fork is there |
| Rotation.ForkAfterOneStep | packages/federation/src/serve.ts:56-78 | a fork one step on leaves a lineage of two keys |
| Rotation.CurrentKeyOf | packages/federation/src/serve.ts:69-78 | for the lineage of any set of statements, the key to send to is the one resolution arrives at and the one entry still open |
| Rotation.CurrentIsLast | packages/federation/src/serve.ts:62-78 | the one open entry of a lineage is the key resolution arrives at |
| Replay.FinalOfConcat | packages/node/src/transitions.ts:573-600 | replaying a chain in two parts is replaying it whole, for any table |
| Replay.AcceptedReplays | packages/node/src/transitions.ts:573-600 | what is accepted of a chain is accepted whole when replayed alone and leads to the same state |
| TransitionSafety.EveryChainIsSafe | packages/node/src/transitions.ts:195-600 | in every chain an edge is open only after owner and counterparty both signed; what closed, released, expired, superseded, disputed or contested it are verified assertions of keys its parties held, with the evidence, the two different keys or the elapsed windows its rows ask for (what must be accepted is the next row) |
| TransitionRows.AcceptedIff | packages/node/src/transitions.ts:195-449 | from any state, an assertion is accepted and leads to a given state if and only if one row asks for no more than it brings: whose signature, which evidence, what elapsed, which of two signers |
| TransitionRows.AcceptedNotes | packages/node/src/transitions.ts:195-449 | and exactly what else an accepted assertion leaves behind: whose word counts towards which pair, since when each window runs, who left first |
| TransitionRows.RefusedIff | packages/node/src/transitions.ts:195-449 | an assertion is refused for a given reason if and only if that reason's own condition holds, the reasons excluding one another in the order they are asked |
| TransitionRows.TableIs | packages/node/src/transitions.ts:464-600 | the table takes what the rows take, of an edge bound to its body that has an acceptance window exactly when it closes on acceptance |
| TransitionRows.OpenCanBeLeft | packages/node/src/transitions.ts:340-440 | after any chain that leaves an edge open, every legal exit is accepted and leads where it should |
| TransitionRows.PendingCanBeClosed | packages/node/src/transitions.ts:355-370 | after any chain that leaves a closure pending, it ends on the word of the party it is owed to at once, and on its owner's exactly once the window has run |
| TransitionRows.DisputeCanBeEnded | packages/node/src/transitions.ts:371-425 | a dispute ends with the second of two closing signers or once it has stood for its window |
| TransitionRows.ClosureIsAcceptedEarly | packages/node/src/transitions.ts:358-363 | closed with evidence at 2 with a window of 7, an edge is closed by the other party at 3 |
| TransitionSafety.HeldIff | packages/node/src/transitions.ts:516-521 | the keys held at an instant are those of the lineage not yet replaced |
| TransitionSafety.OnlyCurrentIsHeldIff | packages/node/src/transitions.ts:493-521 | the one in use is the only one of them exactly when every replacement has happened by then |
| TransitionSafety.SuccessorBackdates | packages/node/src/transitions.ts:516-521 | a key that takes over at 10 is held at 2 beside the one in use |
| TwoSignatures.TwoKeysAreBothPartiesIff | packages/node/src/transitions.ts:267-449 | every chain that two signatures end carries those of both parties exactly when neither lineage lists two keys of its own |
| TwoSignatures.OneKeyEachUpholds | packages/node/src/transitions.ts:371-383 | with one key each, what counts as made by both was signed by owner and counterparty in every chain |
| TwoSignatures.UnrotatedHasOneKeyEach | packages/node/src/transitions.ts:512-521 | parties that have not rotated have one key each |
| TwoSignatures.OnePartySupersedes | packages/node/src/transitions.ts:436-449 | two keys of one party, at instants when only it held them, supersede an edge without the other |
| TwoSignatures.RotatedOwnerSupersedesAlone | packages/node/src/transitions.ts:436-449 | an owner that rotated at 10 supersedes an open edge with its old key at 2 and its new one at 11 |
| TransitionSafety.RivalExitsConvergeIff | packages/node/src/transitions.ts:224-260 | two different exits reach one state in both orders exactly when they carry one instant |
| TransitionSafety.RivalExitsDisagree | packages/node/src/transitions.ts:224-260 | closed at 5 and released at 6, both accepted from open, end in different states |
| AntiSpam.ProposalBudget.Admit | packages/federation/src/antispam.ts:64-82 | the answer and the new record are those of the sliding window and the cap |
| AntiSpam.ProposalBudget.Spent | packages/federation/src/antispam.ts:85-87 | reports what was surfaced and the cap |
| AntiSpam.PruningKeepsWindow | packages/federation/src/antispam.ts:68 | pruning old timestamps keeps every one still in any later window |
| AntiSpam.RateLimitHolds | packages/federation/src/antispam.ts:64-82 | in every run with a clock that does not go back, no window holds more than the limit of one sender's surfaced proposals |
| AntiSpam.SpentIsSurfaced | packages/federation/src/antispam.ts:64-87 | `spent` is the number surfaced and never passes the cap |
| AntiSpam.SurfacedIff | packages/federation/src/antispam.ts:64-82 | after any run with a clock that does not go back, a level-0 proposal is surfaced exactly when fewer than the limit of its sender's were surfaced in the window that ends with it and fewer than the cap in all; otherwise the reason is the first that holds |
| EdgeIdentity.PreimageSplits | packages/crypto/src/identity-hash.ts:105-125 | with the fixed widths the joined text splits back in one way |
| EdgeIdentity.PreimageStands | packages/crypto/src/identity-hash.ts:116-124 | tag, zero, commitment hash, owner, counterparty and instant stand at fixed places in what is digested |
| EdgeIdentity.BoundEdgesShareIdIff | packages/crypto/src/identity-hash.ts:105-153 | two bound edges share an id exactly when they agree on all four digested members |
| EdgeIdentity.WidthsMatter | packages/crypto/src/identity-hash.ts:90-103 | without the widths two different bodies join to one text |
| Recon.Vault.PutEdge | packages/vault/src/vault.ts:598-616 | the edge is held under its id and nothing else changes |
| Recon.Vault.AppendAssertion | packages/vault/src/vault.ts:639-657 | the chain of the edge it names gains the assertion at its end |
| Recon.Vault.PutRotation | packages/vault/src/vault.ts:725-744 | the statement takes its place in name order, instead of one with its new key |
| Recon.ApplyEntry | packages/federation/src/recon.ts:207-231 | exactly what the table accepts after the held chain is appended, in order; the rest is reported by its place |
| Recon.DiscardsAreExact | packages/federation/src/recon.ts:216-230 | exactly the assertions the table rejects are discarded, each with its place in the candidate chain |
| Recon.ApplyReconResponse | packages/federation/src/recon.ts:187-234 | entries are applied in turn to shared edges only, the others ignored; the result lists what was stored and what was discarded, in order |
| Recon.SharedOpenEdges | packages/federation/src/recon.ts:95-110 | the edges asked about are those both are party to and the own chain, judged without a clock, leaves open |
| Recon.BuildReconRequest | packages/federation/src/recon.ts:112-119 | the request names exactly those edges, each with the hash of the own chain |
| Recon.AnswerReconRequest | packages/federation/src/recon.ts:133-149 | chains that differ from the requester's hash are answered in full, equal ones not at all |
| ReconConvergence.StoredReplays | packages/federation/src/recon.ts:207-231 | for any table, replaying the old chain and what was stored accepts all of it and ends in the state of the whole candidate chain |
| ReconConvergence.ListingOrderIsIgnored | packages/federation/src/recon.ts:172-210 | assertions with distinct instants are stored alike however they are listed |
| ReconConvergence.InWireOrderSorts | packages/federation/src/recon.ts:172-174 | assertions are judged in order of their instants, none lost or repeated |
| ReconConvergence.TiesKeepTheirOrder | packages/federation/src/recon.ts:158-174 | those of one instant are judged in the order they were listed in |
| ReconConvergence.HonestChainArrives | packages/federation/src/recon.ts:203-231 | whoever holds the first part of a chain and is sent all of it, in any order that keeps the assertions of one instant in theirs, stores the rest exactly |
| ReconConvergence.RepeatingSettles | packages/federation/src/recon.ts:187-234 | a response applied as many times as it lists assertions has nothing more to store |
| ReconConvergence.SameHashIffSameSigs | packages/federation/src/recon.ts:86-92 | two nodes compute one hash exactly when they hold the same signatures |
| ReconConvergence.HashIs | packages/federation/src/recon.ts:84-92 | the all-zero hash stands for the empty chain alone; any other is the digest of the signatures in text order |
| ReconConvergence.AnswersIff | packages/federation/src/recon.ts:133-149 | asked with the hash of a chain, a node answers exactly about an edge it holds and may serve of which its own signatures are others |
| ReconExchange.AsksIsAsksAbout | packages/federation/src/recon.ts:95-119 | a node asks in an exchange exactly when its request names the edge |
| ReconExchange.ExchangeConvergesIff | packages/federation/src/recon.ts:95-234 | two nodes that exchange once end with one hash exactly when each lacks nothing, or asks, is served and refuses nothing the other held |
| ReconExchange.ExchangeKeepsDistinct | packages/federation/src/recon.ts:203-220 | a chain with no signature twice has none twice after an exchange, so what holds of one exchange holds of the next |
| ReconExchange.AnswerLosesNothing | packages/federation/src/recon.ts:125-149 | staying silent when the hashes agree leaves nothing unsaid |
| ReconExchange.TurnsDoNotMatter | packages/federation/src/recon.ts:95-234 | asking after the other side has asked changes nothing |
| ReconRuns.RunKeepsHonest | packages/federation/src/recon.ts:95-234 | with requests and answers late, repeated and in any order, and both nodes acting meanwhile, chains only grow, every answer is a chain its sender held, and every hash sent is of a chain its sender held |
| ReconRuns.RunInventsNothing | packages/federation/src/recon.ts:95-234 | in every such run nothing is held that one of the two did not hold before or do meanwhile |
| ReconRuns.AgreementIsFinal | packages/federation/src/recon.ts:95-234 | once two hashes agree only a new act changes either chain again, whatever is still on its way |
| ReconRuns.SilentNeverAgrees | packages/federation/src/recon.ts:95-119 | a node that has not asked before, has no answer coming, and neither asks nor acts in the run, never agrees with one that holds something it lacks |
| ReconRivals.PartedMeetIff | packages/federation/src/recon.ts:95-234 | for two chains that part at the last assertion, and whatever was asked and answered before, some run makes the hashes agree exactly when each end is still in reach of the other's chain and its table takes what is new in it |
| ReconRivals.AsksAfterExit | packages/federation/src/recon.ts:27-110 | after its own exit a node still asks exactly when that was a close that awaits acceptance |
| ReconRivals.FamilyIsWhatMoves | packages/federation/src/recon.ts:27 | the states a node asks about are those past the beginning that some claim can still move, a contested closure apart |
| ReconRivals.RivalsMeetIff | packages/federation/src/recon.ts:95-234 | two nodes that left one past by rival exits can come to agree exactly when the exits carry one instant and both ends are in reach, which takes a request or an answer from before the exits |
| ReconRivals.RivalsNeverMeet | packages/federation/src/recon.ts:95-234 | with nothing asked before the exits they never agree, whatever the instants, and whatever clocks and lineages the nodes come to judge by while each exit stands |
| ReconRivals.OldRequestsBringThemTogether | packages/federation/src/recon.ts:133-234 | both nodes ask while the edge is open, then close and release at 5: answered after that, the requests can still make the hashes agree |
| ReconRivals.RivalLearnedIff | packages/federation/src/recon.ts:95-234 | what one exchange begun after its own exit teaches a node of the other's: all of it when its own close awaits acceptance and the other is no later, and nothing otherwise |
| ReconRivals.RivalsAtOneInstant | packages/federation/src/recon.ts:95-234 | closed at 5 and released at 5, each acceptable after the other: neither node asks, and with nothing asked before they never agree |
| Inbox.Inbox.IngestPropose | packages/federation/src/inbox.ts:266-343 | binding, addressee, owner, table, redelivery and budget in that order, and the new store and budget |
| Inbox.Inbox.IngestAssert | packages/federation/src/inbox.ts:345-388 | the verdict and the new store are those `AssertVerdict` and `AfterAssert` give; when that is taking it, is settled by `InboxTakes.AssertIsTakenIff` |
| Inbox.Inbox.IngestRotation | packages/federation/src/inbox.ts:244-264 | a statement is filed only when it verifies, comes from one of its keys, and names a party held here |
| Inbox.Inbox.IngestOne | packages/federation/src/inbox.ts:119-210 | version, signature and addressee come before the type, and what each type does |
| Inbox.Inbox.Ingest | packages/federation/src/inbox.ts:119-210 | a batch is its messages one after another, and the result lists each under its verdict |
| Inbox.RestoreOne | packages/federation/src/inbox.ts:415-453 | one returned edge is restored exactly when it is bound, concerns this persona and shows an accepted proposal by its owner |
| Inbox.ApplyRecoverResponse | packages/federation/src/inbox.ts:402-456 | the returned edges are restored in turn and their ids listed |
| Inbox.AcceptedIsSigned | packages/node/src/transitions.ts:195-217 | the table never accepts an assertion about another edge, an unsigned one, or one about an unbound body |
| InboxTakes.AssertIsTakenIff | packages/federation/src/inbox.ts:345-388 | an assertion is taken exactly when its edge is held, both ends are party to it by lineage, its signature is not held, and the table accepts it after everything held; the chain then ends with it, and otherwise nothing changes |
| InboxTakes.ProposeIsTakenIff | packages/federation/src/inbox.ts:266-343 | a proposal is taken exactly when the body is bound, its window fits, it is addressed here and sent by its owner, the owner signed it, no other body is held under its id, and it is held already or the budget surfaces it |
| InboxTakes.ProposeIsHeld | packages/federation/src/inbox.ts:328-343 | taken for the first time, the edge is held with the proposal at the end of its chain |
| InboxTakes.RotationIsTakenIff | packages/federation/src/inbox.ts:244-264 | a statement is filed exactly when its old key signed it, one of its two keys sent it, and the old one is party to an edge held here |
| InboxTakes.ProposedThenConfirmed | packages/federation/src/inbox.ts:266-388 | proposed to an empty inbox and then confirmed by the counterparty no earlier, an edge is open |
| InboxTakes.ResponseIsTaken | packages/federation/src/inbox.ts:165-176 | a response by a party that lists an honest chain brings the rest of it, whatever else it lists |
| InboxTakes.ResponseTouchesOnly | packages/federation/src/recon.ts:187-201 | and touches only chains of edges held here that both ends are party to |
| InboxTakes.LostEdgeIsRestored | packages/federation/src/inbox.ts:402-456 | a bound edge of this persona returned with an honest chain in which its owner proposed it is held again with that chain, whatever part of it was left |
| InboxTakes.ReportIsExact | packages/federation/src/inbox.ts:119-210 | each list of the result names exactly the messages of the batch that were given its verdict |
| InboxTakes.TurnedAwayIff | packages/federation/src/inbox.ts:119-145 | version, signature and addressee, each with the exact condition it is the reason under |
| InboxTakes.ProposalRefusedFor | packages/federation/src/inbox.ts:266-294 | so for the faults of a proposal |
| InboxTakes.AssertionRefusedFor | packages/federation/src/inbox.ts:345-375 | and for those of an assertion, one already held being passed over in silence |
| InboxSafety.AloneIsProposal | packages/federation/src/inbox.ts:296-306 | judged alone, only a proposal by the owner is accepted |
| InboxSafety.EveryRunIsSound | packages/federation/src/inbox.ts:119-456 | in every run the body held under an id never changes and is digested by it, every edge has a signed proposal by its owner in its chain, every held assertion is signed and about its edge, and chains only grow |
| InboxSafety.EveryRunFromEmpty | packages/federation/src/inbox.ts:119-456 | so it is from an empty vault, rotation files staying in name order |
| InboxSafety.RedeliveryIsQuiet | packages/federation/src/inbox.ts:308-326 | a propose or assert once taken, heard again after any run at any time, changes neither vault nor budget and is not suppressed |
| InboxSafety.StrangersAddAtMostTheCap | packages/federation/src/inbox.ts:328-336 | in every run, whoever else delivers and whatever is recovered, senders of level 0 add no more edges than the budget surfaced, which never passes its cap |
| InboxSafety.FilingKeepsTheRestIff | packages/vault/src/vault.ts:725-744 | filing a statement keeps the others exactly when none of them names its new key |
| InboxSafety.SharedSuccessorCollides | packages/vault/src/vault.ts:725-744 | of two statements with one new key only the later is kept |
| GitTransport.GitTransport.Send | packages/federation/src/git-transport.ts:112-115 | the message waits at the end unless it is already published |
| GitTransport.GitTransport.PlaceAll | packages/federation/src/git-transport.ts:164-182 | the waiting messages are written in turn where they are not yet, and all are recorded as published |
| GitTransport.GitTransport.Sync | packages/federation/src/git-transport.ts:139-153 | a sync places what waits into the adopted tree and shares the result |
| GitDelivery.NumberedHolds | packages/federation/src/git-transport.ts:175-176 | the files of a directory are numbered from one without a gap, and a name tells its number |
| GitDelivery.NamesReadInOrder | packages/federation/src/git-transport.ts:175-176 | below ten thousand, file names read as text come in order of their numbers, four digits each, and end in the kind |
| GitDelivery.WrittenIff | packages/federation/src/git-transport.ts:164-182 | a message is written exactly when this clone has not recorded it, it can be addressed, and no file of its directory verifies and is this message; it takes the next number |
| GitDelivery.SentInOrder | packages/federation/src/git-transport.ts:164-182 | of two messages new to one directory the one sent first has the lower number |
| GitDelivery.SyncInventsNothing | packages/federation/src/git-transport.ts:164-182 | after a sync a file was there before or holds a message that waited for its directory |
| GitDelivery.RunKeepsOrder | packages/federation/src/git-transport.ts:139-182 | in every run directories stay so numbered, no verified message is in one twice, and no file is overwritten |
| GitDelivery.RunIsHonest | packages/federation/src/git-transport.ts:164-182 | in every run of complete syncs whatever a clone records as published is in the shared tree |
| GitDelivery.SentIsDelivered | packages/federation/src/git-transport.ts:112-182 | once a clone has synced what it sent, the message is in its directory exactly once whatever else happens, and one about an edge is nowhere else |
| GitDelivery.DirTellsAddress | packages/federation/src/git-transport.ts:198-210 | edge directories and direct ones never meet, and each belongs to one edge or one recipient |
| GitDelivery.AddressedIff | packages/federation/src/git-transport.ts:198-210 | a message can be addressed exactly when its edge, or else its recipient, is 64 lower-case hexadecimal digits, and then that names its directory |
| Mime.IndexOfBytes | packages/connectors-email/src/mime.ts:403-411 | the first match at or after the start, or -1 when there is none |
| Mime.SplitFrom | packages/connectors-email/src/mime.ts:416-433 | the slices follow one another from marker to marker, start past the line break, hold no marker, and stop only for lack of room, a closing marker or the end |
| Mime.SplitMultipart | packages/connectors-email/src/mime.ts:413-433 | the parts are the slices of that one split |
| Mime.SpansAreTheSplit | packages/connectors-email/src/mime.ts:413-433 | there is exactly one such split |
| Mime.PartsFit | packages/connectors-email/src/mime.ts:413-433 | there are at most the allowed number of parts, disjoint, each paid for by the marker before it |
| Mime.SplitInvertsCompose | packages/connectors-email/src/mime.ts:413-433 | splitting undoes composing for parts that do not hold the marker, whatever stands before and after |
| MimeWalk.HeaderEnd | packages/connectors-email/src/mime.ts:124-134 | by positions in the bytes: the headers end at the least position below the limit that holds a line feed followed by a line feed, or by a carriage return and one, and the body starts past them; -1 exactly when there is none |
| MimeWalk.ComposedEntity | packages/connectors-email/src/mime.ts:124-134 | headers, a line break of either kind, an empty line and a body are read as that, for headers with no empty line inside the limit |
| MimeWalk.EntityWithoutBody | packages/connectors-email/src/mime.ts:474-483 | with no empty line below the limit everything below it is headers and nothing is body |
| MimeCompose.ReadsContents | packages/connectors-email/src/mime.ts:413-551 | walking a message put together from headers, parts and boundaries, however nested, finds the leaves put in, in order, each with its own headers and body |
| MimeWalk.Collector.Walk | packages/connectors-email/src/mime.ts:500-551 | the walk collects the items of the tree in document order until the leaves are full, and looks at exactly the entities it comes to before that |
| MimeWalk.FindsTheFirst | packages/connectors-email/src/mime.ts:500-551 | it finds the first leaves of the whole tree and the first message embedded before they are full |
| MimeWalk.CallsAreVisits | packages/connectors-email/src/mime.ts:500-551 | those are no more than the entities of the tree |
| MimeWalk.WalkIsLinear | packages/connectors-email/src/mime.ts:500-551 | the tree has at most one entity more than the body has bytes, however deep, and holds no more bytes than the body |
| MimeWalk.CallsAreLinear | packages/connectors-email/src/mime.ts:500-551 | so a walk, whatever it has found already, looks at no more entities than one more than the body has bytes |
| MimeWalk.ParseMessageAt | packages/connectors-email/src/mime.ts:557-642 | the recursion into embedded messages gives the nested result |
| MimeCompose.ParsesMail | packages/connectors-email/src/mime.ts:557-642 | a whole message put together so comes apart into the first leaves put in and the first message embedded before they are full, which comes apart in turn |
| MimeWalk.CutIsPrefix | packages/connectors-email/src/mime.ts:557-567 | a message longer than the limit is read as its beginning and says so |
| MimeWalk.ParsedIsBounded | packages/connectors-email/src/mime.ts:557-642 | a message comes apart into at most maxDepth + 1 messages of at most maxParts leaves, no longer together than the message |
| ContentKey.AdmittedOpensIff | packages/crypto/src/content-key.ts:224-263 | an admitted profile can be opened alone exactly when its iteration count is positive |
| ContentKey.AdmittedYetShut | packages/crypto/src/content-key.ts:224-263 | a profile with t = -1 and p = -3 is admitted and can never be opened |
| ContentKey.NamedProfilesAreAdmitted | packages/crypto/src/content-key.ts:41-78 | both named profiles are admitted and two desktop slots fit one open |
| ContentKey.AdmittedIff | packages/crypto/src/content-key.ts:224-263 | a profile may be written exactly with memory between 64 MiB and 2 GiB and work between the constrained profile's and what one open may cost |
| ContentKey.SpendableIff | packages/crypto/src/content-key.ts:427-452 | a slot is paid for exactly when its parameters are positive, its salt is sixteen octets, its memory is within the ceiling and its work within what remains |
| ContentKey.CandidatesAreExact | packages/crypto/src/content-key.ts:455-457 | the slots tried are those of the kind and label asked for, each as often as it comes |
| ContentKey.CandidatesInOrder | packages/crypto/src/content-key.ts:455-457 | in the order of the keyset |
| ContentKey.UnwrapWithPassphrase | packages/crypto/src/content-key.ts:461-484 | the result and the very derivations made are those of trying the slots in turn within one budget |
| ContentKey.OpeningIsBounded | packages/crypto/src/content-key.ts:427-484 | those are at most eight, each within the memory ceiling and together within the work budget, whatever the keyset asks for |
| ContentKey.UnwrapsIff | packages/crypto/src/content-key.ts:461-484 | an open gives a key exactly when the keyset offers at most eight slots, one is the first to open to it, and the slots up to that one are together affordable |
| ContentKey.UnwrapWithDevice | packages/crypto/src/content-key.ts:486-501 | the result is that of the first device slot that opens |
| ContentKey.DeviceOpensIff | packages/crypto/src/content-key.ts:486-499 | a device opens a keyset to a key exactly when one of its slots opens to it under the device's key and none before that one opens |
| ContentKey.FreshOpens | packages/crypto/src/content-key.ts:193-213 | a slot just wrapped opens to the content key with its passphrase |
| ContentKey.FreshStaysShut | packages/crypto/src/content-key.ts:193-213 | and with no other |
| ContentKey.RewrapKeepsTheKey | packages/crypto/src/content-key.ts:277-415 | after wrapping again the passphrase opens the same content key, every device opens what it opened, a usable passphrase slot remains, and no other passphrase opens anything |
| ContentKey.RewrapsIff | packages/crypto/src/content-key.ts:277-287 | wrapping again succeeds exactly when the passphrase opens the keyset and is not empty and the profile is admitted and can be derived; then every device wrap stands as it was and every passphrase slot under its label |
| ContentKey.UsableIsSpendableIff | packages/crypto/src/content-key.ts:385-452 | a slot that counts as custodian can be opened at all exactly when its salt is hexadecimal and its memory and work are within the ceilings |
| ContentKey.SealedYetShut | packages/crypto/src/content-key.ts:376-452 | a keyset whose only slot asks for one block of memory too many is sealed, and no passphrase opens it |
| ContentKey.SecondPassphraseIsLost | packages/crypto/src/content-key.ts:277-415 | a keyset with two passphrases opens to the first alone once it has been wrapped again |
| Html.EscapeIsOnePass | packages/client-web/src/element.ts:41-48 | five replacements one after another are one pass of a map on characters |
| Html.EscapedIsInert | packages/client-web/src/element.ts:41-48 | escaped text holds no angle bracket and no quote |
| Html.EscapeIsInjective | packages/client-web/src/element.ts:41-48 | different texts are escaped differently |
| Html.ReadRendered | packages/client-web/src/element.ts:74-85 | reading printed HTML gives the tree back, false attributes gone, void tags empty and text winning over children |
| Html.PrintsAlikeIff | packages/client-web/src/element.ts:74-85 | two trees print alike exactly when they say the same |
| Ranking.ScoreIsBandThenWeight | packages/node/src/ranking.ts:51-57 | scores compare by band first and weight second, for any ages and counts |
| Ranking.BandIsByDueDate | packages/node/src/ranking.ts:34-49 | the due date alone settles the band, and without one no age moves an item out of the lowest |
| Ranking.ScoreNeverFalls | packages/node/src/ranking.ts:34-57 | an item's score never goes down as time passes |
| Ranking.ScoreIsByPressure | packages/node/src/ranking.ts:34-57 | within a band, short of the cut-off, scores compare as milliseconds overdue, into the horizon or of age, times one and the number that wait |
| Ranking.CutWeighAlike | packages/node/src/ranking.ts:51-57 | and past it all weigh the same |
| Ranking.DropSuperseded | packages/node/src/node.ts:1044-1061 | exactly the commitments an edge was built from are dropped |
| Ranking.RemainingIsExact | packages/node/src/node.ts:1044-1061 | every other key is kept as often as it came |
| Ranking.Brief | packages/node/src/node.ts:1031-1078 | the slots are the filled ones of the top of the ranking, and slots and below-the-line count add up to what is ranked |
| Ranking.FilledIsExact | packages/node/src/node.ts:1066-1071 | every chosen item that can be read has its slot with what was read, and there are no other slots |
| Ranking.TiesKeepTheirOrder | packages/node/src/node.ts:1060-1063 | items with one score stay in the order they are listed in |
| Ranking.BriefIsInOrder | packages/node/src/node.ts:1060-1078 | overdue slots precede due-soon ones and those the rest, and nothing below the line is more pressing than a slot |

## Left out

- GitTransport.GitTransport.Sync: a sync that throws part way, on a message that cannot be addressed or on a refused push, is not modelled; every claim about runs is about complete syncs.
- GitDelivery.SentIsDelivered: a message about no edge is settled by its clone's first send of it; a second send of the same message to another recipient is ignored, as in the source. Messages whose signature does not verify are not claimed to be placed once.
- Bootstrap.LinkRoundTrip: the reader accepts the printed form only; a general JSON parser, which would also take white space and other spellings, is not modelled.
- Jcs.Canonicalize: a number is the numeral the runtime prints for it (section 3.2.2.3 of RFC 8785); printing floating point is not modelled.
- BoundEnvelope.FormIsBounded: says nothing of the size once the marker is added.
- Recon.Vault.AppendAssertion: the chain is a sequence. The source numbers the files of a chain with four digits and reads them back in text order, which is the order of appending for the first ten thousand only; a chain may hold proposals the table refuses, so nothing bounds its length.
- Recon.ApplyEntry: the reasons for discarding are not carried, only which assertions are discarded.
- Inbox.Inbox.Ingest: payloads arrive parsed, a refused schema being one case; rejection reasons of the table and the merged reconciliation result are not carried.
- Inbox.ApplyRecoverResponse: the list of discarded assertions is not carried.
- ReconConvergence.ListingOrderIsIgnored: assertions with one instant keep the order they are listed in, so nothing is claimed for ties.
- ReconRivals.RivalsMeetIff: is about what the two nodes learn by reconciling; an assertion sent as a message of its own, and recovery, are other ways to learn of an exit. The tables are those the two sides have; in the other results about runs clocks and lineages may change.
- ReconRuns.RunKeepsHonest: whether the two share the edge, and would serve it, does not change in a run.
- ReconExchange.ExchangeConvergesIff: chains that list one signature twice are outside it; the source takes signatures to be unique (packages/federation/src/recon.ts:75-77).
- TransitionSafety.EveryChainIsSafe: calendar arithmetic is a parameter, so what a duration adds to an instant is not modelled; the collective decomposition check and the deadlock report are left out.
- MimeWalk.ParseMessageAt: header folding, header decoding, transfer decoding, body selection, addresses, dates and the list of anomalies are functions of the bytes or left out.
- ContentKey.UnwrapWithPassphrase: parameters that are not integers are left out.
- ContentKey.UnwrapWithDevice: the key is the one derived from the device's; refusing a device key that is too short is left out.
- Paging.PageReadsOn: ties are broken by the order of identifiers as strings of code units, not by locale.
- Ranking.Brief: the contents of a slot beyond its headline are left out.
- `openLoops` filling its list from the vault, `act` and `confirmEdge`: the register is any list of identifiers with scores.
- `mayServeEdge`: whether a node would serve an edge is a parameter.
- The receiving side of the git transport and its readers: filters over the tree.
- Hubs, recovery requests, anchors, attestations, the workspace, routing and the ladder: single-step checks or small maps.
- Cryptographic primitives, mnemonic codes and key derivation.
- Cards, themes, copy and terminal rendering.
