# BIND 9.9.3 with a netmap fast path: models of its core algorithms

Dafny models of the parts of the name server and its tools whose correctness rests on an invariant
rather than on plumbing, with proofs of what they promise.

- **Signing a zone and checking it.** A name is its labels from the root down, so that canonical order
  is lexicographic and a subdomain is an extension. `Zones` has the walk with its single remembered zone
  cut, `SignedNames` the names that get a record, `HashLists` the sorted list of NSEC3 hashes, `SignNsec`
  and `SignNsec3` the two signers, `Chains` and `VerifyZone` the verifier, which walks the zone by itself
  and merges a heap of expected with a heap of found NSEC3 records. `Agreement` proves when the verifier
  accepts what the signer wrote. Hashes and salts, octet strings of fixed length, are represented by
  their big-endian value; the hash function is any function on names.
- **Several workers signing one zone.** `ParallelSigning`: every interleaving. `SigningRuns` puts the signers
  before it and says which nodes are signed in terms of the zone as it was.
- **Keeping, dropping and making signatures.** `SignSet`.
- **Client objects.** `Clients` has the state machine of one client, `ClientManager` the lists, counters
  and lifetime of the manager, and runs of arbitrary steps. The INSISTs of the source on the modelled
  fields are assertions, and each event's contract says where the client ends up.
- **Masters lists.** `Masters`: the loop with the explicit stack against a recursive expansion.
- **The end of a zone transfer.** `Transfers`: dig's recogniser, fed by messages.
- **DNS64 reverse names.** `Dns64`.
- **The netmap fast path.** `ReplyTable`, `Checksums` and, over both, `Packets`.

`Names`, `Options`, `Bytes`, `Sorting` and `Databases` hold what these share.

What the proofs show about the code beyond its intent:

- Both signers leave alone an NSEC RRset at an out-of-zone name that sorts before the origin, and the
  verifier then gives up. The verdict theorems are therefore equivalences with this as a condition
  (`Agreement.NsecAgreement`, `Agreement.Nsec3Agreement`).
- With opt-out, the signed zone is refused exactly when a name left out of the chain happens to have the
  hash of a name in it (`Agreement.NoFalseHit`); the duplicate check looks at the names in the chain only.
- `verify_nsec3_chains` deletes from the heap of found records once more after a mismatch; when that heap
  is empty the heap library's requirement fails (`Chains.VerifyChains` says exactly when). The zone is bad in
  any case, so the condition for success is unaffected.
- The walk that hands out nodes to workers goes on through the NSEC3 tree. There it passes over a second node
  named like the origin without writing it, and hands out nodes whose records have been removed as if they
  were names of the zone (`ParallelSigning.Signer.EmptiedNodeIsHandedOut`).
- `ns_client_recursing` overwrites the target state, so that a pending shutdown is forgotten; it is the
  only step that does so (`ClientManager.Manager.Step`).
- A full answer to an incremental query is recognised only if its final SOA comes in the same message as
  its second record (`Transfers.FullAnswerNeedsOneMessage`). The comment at bin/dig/dighost.c:2898-2903
  promises the semantics of both protocols; the flag for a full transfer is a local variable.
- With `-x`, the DNSKEY RRset of the origin stays unsigned for an algorithm whose only unrevoked KSK does
  not sign (`SignSet.DnskeySignedByAlgorithm`, `SignSet.IdleKskExample`).
- A list's own port may be 65535, the one it takes from the server may not (`Masters.LastPort`).
- A reply is matched with the first slot of the reply table that holds its ID, pending or not, so that of a
  query received twice the copy in the earlier slot hides the other as long as it stays there.
  `ReplyTable.ReplyFindsExactly` says, for every run, which query a reply is matched with. In a run that starts
  with the two copies, the first one is found exactly until it has been replied to and another query has come
  in (`ReplyTable.ResentQueryIsHidden`); then the second one comes to light (`ReplyTable.ResentQueryComesBack`).
- The checksum of a reply is taken in a buffer of 512 octets that nothing protects: the copy leaves it exactly
  when the DNS message is longer than 492 octets, and so for an ordinary one of 512
  (`Packets.FastPath.BuildPktHeader`, `Packets.LongReplyOverruns`).
- A UDP checksum that comes out as zero is stored as zero, which in UDP means that there is none
  (`Checksums.ZeroChecksum`).

## Model

| member | source | states |
|---|---|---|
| `Names.OrderTotal` | lib/dns/name.c:550-649 | Of any two names exactly one of before, equal, after holds |
| `Names.LessTransitive` | lib/dns/name.c:550-649 | The canonical order is transitive |
| `Names.OrderExactly` | lib/dns/name.c:550-649 | The order is decided at the first label, from the root, in which two names differ; an ancestor comes first |
| `Names.LabelOrderExactly` | lib/dns/name.c:550-649 | And of labels at the first octet in which they differ |
| `Names.AncestorFirst` | lib/dns/name.c:550-649 | A name sorts before everything below it |
| `Names.SubtreeContiguous` | lib/dns/name.c:550-649 | The names below a name are contiguous in canonical order |
| `Names.CommonIsDeepest` | lib/dns/name.c:550-649 | The common label count finds the deepest common ancestor |
| `Zones.CutInvariant` | bin/dnssec/dnssec-signzone.c:1739-1793 | What the one remembered cut knows about every name still to come |
| `Zones.ZoneCutFilterExact` | bin/dnssec/dnssec-signzone.c:2192-2216 | Over names in order, the test against the last cut alone skips exactly the names properly below some delegation point |
| `Zones.TopmostCutDecides` | bin/dnssec/dnssectool.c:1664-1691 | The delegation that hides a name is a topmost one |
| `Zones.BeforeApexIsOutside` | bin/dnssec/dnssectool.c:1649-1663 | Names before the origin are out of zone, and nothing before it is a cut |
| `SignedNames.SignedFromMembers` | bin/dnssec/dnssec-signzone.c:2192-2216 | A name is in the list of signed names iff it is a kept node and not an insecure delegation under opt-out |
| `SignedNames.SignedExactly` | bin/dnssec/dnssec-signzone.c:2186-2214 | Which nodes those are, in terms of names and of the types NS and DS |
| `SignedNames.SignedFromSorted` | bin/dnssec/dnssec-signzone.c:2192-2216 | That list is strictly increasing and below the origin |
| `SignedNames.EmptyNonTerminalsExact` | bin/dnssec/dnssec-signzone.c:2224-2247 | The walk enters every signed name and every in-zone ancestor of one exactly once, and nothing else |
| `Databases.Tidied` | bin/dnssec/dnssec-signzone.c:1095-1202 | `active_node` keeps the data, empties a node that has none, keeps the signatures of types that are present and no others, and with NSEC3 removes the NSEC |
| `HashLists.HashList.Add` | bin/dnssec/dnssec-signzone.c:714-752 | Appends one entry, growing the buffer |
| `HashLists.HashList.Sort` | bin/dnssec/dnssec-signzone.c:754-762 | The same entries in order |
| `HashLists.HashList.HasDup` | bin/dnssec/dnssec-signzone.c:764-788 | True exactly if two non-speculative entries have the same hash |
| `HashLists.DuplicateMeansCollision` | bin/dnssec/dnssec-signzone.c:764-788 | Whatever the order of entry, a duplicate is a collision of two owners |
| `HashLists.HashList.FindNext` | bin/dnssec/dnssec-signzone.c:790-809 | For every owner the cyclic successor among the owners, never a speculative hash; both INSISTs hold |
| `HashLists.HashList.Exists` | bin/dnssec/dnssec-signzone.c:811-819 | True exactly for the hashes of owners |
| `HashLists.CyclicNextUnique` | bin/dnssec/dnssec-signzone.c:790-809 | The successor is unique |
| `HashLists.RingIsOneCycle` | bin/dnssec/dnssec-signzone.c:790-809 | Following successors from any owner visits every owner once and returns to the start |
| `SignNsec.NextNode` | bin/dnssec/dnssec-signzone.c:1759-1793 | The inner loop stops at the next signed node and leaves those it passes without NSEC |
| `SignNsec.Nsecify` | bin/dnssec/dnssec-signzone.c:1684-1808 | Every signed node is linked to the next one and the last to the origin, no other node from the apex on has an NSEC, delegations and nodes outside have no signatures, the data is unchanged, NSEC3 is gone; fatal exactly for an NSEC3PARAM that may not be replaced |
| `SignNsec3.NextNode` | bin/dnssec/dnssec-signzone.c:2180-2217 | The inner loop of the first walk, with opt-out |
| `SignNsec3.NextOwner` | bin/dnssec/dnssec-signzone.c:2312-2345 | The inner loop of the second walk stops at the same nodes |
| `SignNsec3.EmptyNodes` | bin/dnssec/dnssec-signzone.c:2235-2247 | Stripping labels yields the ancestors strictly deeper than the common one, once each |
| `SignNsec3.AddOwner` | bin/dnssec/dnssec-signzone.c:822-853 | Enters one owner, and beside it the speculative wildcard iff that name fits and does not exist |
| `SignNsec3.CollectHashes` | bin/dnssec/dnssec-signzone.c:2152-2254 | The owners entered are the signed names and their in-zone ancestors, once each; the nodes are cleaned; fatal exactly for an NSEC at the apex that may not be replaced |
| `SignNsec3.CleanChain` | bin/dnssec/dnssec-signzone.c:1936-2032 | No record is left at a hash that is not an owner's |
| `SignNsec3.AddNsec3` | bin/dnssec/dnssec-signzone.c:1870-1923 | One record at the name's hash, with the cyclic successor as its next; other hashes untouched |
| `SignNsec3.WriteChain` | bin/dnssec/dnssec-signzone.c:2297-2370 | The NSEC3 tree holds exactly the ring of the owners; every hash looked up is in the list |
| `SignNsec3.Nsec3ify` | bin/dnssec/dnssec-signzone.c:2128-2372 | Success exactly when allowed and the hash is injective on the names of the chain, and then the ring is in place |
| `Chains.AscendingUnique` | bin/dnssec/dnssectool.c:649-695 | A multiset of chain records has one ascending listing |
| `Chains.ClosedMeansRings` | bin/dnssec/dnssectool.c:1221-1240 | All checked links are right iff, for every hash, iteration count, salt, salt length and hash length, the records with these values, in order, form a ring |
| `Chains.GroupIsSlice` | bin/dnssec/dnssectool.c:649-677 | In heap order the records of one chain lie together |
| `Chains.CheckLinks` | bin/dnssec/dnssectool.c:1324-1341 | One turn's link test, at and within a chain |
| `Chains.Match` | bin/dnssec/dnssectool.c:1288-1323 | One turn's comparison of an expected with the found records |
| `Chains.VerifyChains` | bin/dnssec/dnssectool.c:1283-1365 | Success iff expected and found are the same multiset and the records of each set of chain parameters form a ring; abort iff some turn starts with a record kept back and no found record left |
| `Chains.Resync` | bin/dnssec/dnssectool.c:1305-1319 | What is kept back and what is left after the attempt to get back in step |
| `Chains.StuckAborts` | bin/dnssec/dnssectool.c:1288-1294 | Two expected records against one later found one abort |
| `Chains.AbortMeans` | bin/dnssec/dnssectool.c:1288-1294 | An abort needs a found record after an expected one that is not the last |
| `VerifyZone.MatchNsec3` | bin/dnssec/dnssectool.c:731-812 | Records the one matching NSEC3 found, or fails for none, or for several |
| `VerifyZone.VerifyNsec3` | bin/dnssec/dnssectool.c:947-1017 | The verdict on one look-up, including the opt-out exceptions, and what it records |
| `VerifyZone.PassesExactly` | bin/dnssec/dnssectool.c:947-1017 | When a look-up passes, in terms of the records at the hash |
| `VerifyZone.VisitedExactly` | bin/dnssec/dnssectool.c:1671-1691 | Which nodes the verifier visits, in terms of names and of what they hold |
| `VerifyZone.VerifyLookups` | bin/dnssec/dnssectool.c:1367-1403 | The same for a node and the empty non-terminals before it |
| `VerifyZone.NextVisited` | bin/dnssec/dnssectool.c:1671-1699 | The inner loop stops at the next visited node, fatal exactly at a stray NSEC |
| `VerifyZone.VerifyWalk` | bin/dnssec/dnssectool.c:1649-1718 | Fatal iff some NSEC is stray; the NSEC verdict iff every visited node names the next; the look-ups recorded are those of all visited nodes |
| `VerifyZone.RecordFound` | bin/dnssec/dnssectool.c:838-892 | The found heap gains the records of this chain at a node |
| `VerifyZone.RecordAllFound` | bin/dnssec/dnssectool.c:1720-1734 | The same over the whole NSEC3 tree |
| `VerifyZone.Verify` | bin/dnssec/dnssectool.c:1640-1750 | The verdict iff the zone is acceptable, stated on the zone without the walk |
| `Agreement.VisitsKept` | bin/dnssec/dnssectool.c:1671-1691 | After signing, the verifier visits exactly the kept nodes |
| `Agreement.NsecLinks` | bin/dnssec/dnssectool.c:552-614 | Every visited node's NSEC names the next visited node and the last one's the origin, so the links are one cycle through the apex |
| `Agreement.NsecAgreement` | bin/dnssec/dnssec-signzone.c:1684-1808 | The verifier accepts what `nsecify` wrote iff no NSEC precedes the apex |
| `Agreement.LookedUpOnce` | bin/dnssec/dnssectool.c:1367-1403 | The verifier looks up the kept names and their in-zone ancestors, once each |
| `Agreement.MissIsForgiven` | bin/dnssec/dnssectool.c:947-1017 | A name left out by opt-out is looked up in a way that tolerates the absence |
| `Agreement.RingCloses` | bin/dnssec/dnssectool.c:1221-1279 | The ring, listed in chain order, is one closed chain |
| `Agreement.ChainsMatch` | bin/dnssec/dnssectool.c:1283-1365 | Expected and found multisets are equal and the chain closes, if there is no false hit |
| `Agreement.FalseHitFails` | bin/dnssec/dnssectool.c:947-1017 | A false hit makes the verifier reject |
| `Agreement.Nsec3Agreement` | bin/dnssec/dnssec-signzone.c:2128-2372 | The verifier accepts what `nsec3ify` wrote iff no NSEC precedes the apex and there is no false hit |
| `Agreement.SignAndVerifyNsec` | bin/dnssec/dnssec-signzone.c:1684-1808 | The two programs in sequence, for every zone |
| `Agreement.SignAndVerifyNsec3` | bin/dnssec/dnssec-signzone.c:2128-2372 | The two programs in sequence, for every zone, hash function and opt-out setting; without opt-out only the condition on NSEC records before the apex remains |
| `ParallelSigning.Signer.Inspect` | bin/dnssec/dnssec-signzone.c:1443-1473 | In either tree, a node is handed out iff it needs signatures, stated on the two trees |
| `ParallelSigning.Signer.EmptiedNodeIsHandedOut` | bin/dnssec/dnssec-signzone.c:1457-1473 | A node of the NSEC3 tree without records is handed out iff it is below the origin and not named like the last delegation |
| `ParallelSigning.Signer.Look` | bin/dnssec/dnssec-signzone.c:1434-1473 | A node named like the origin is passed over in either tree |
| `ParallelSigning.Signer.NextWork` | bin/dnssec/dnssec-signzone.c:1432-1488 | Nodes passed over are written out, and the loop ends at work or at the end |
| `ParallelSigning.Signer.AssignWork` | bin/dnssec/dnssec-signzone.c:1400-1509 | Keeps the invariant: each node passed is written once or with one worker, each that needs it is signed once or about to be, the end is requested once iff all workers are idle |
| `ParallelSigning.Signer.StartWorker` | bin/dnssec/dnssec-signzone.c:1514-1521 | The first event of a worker keeps the invariant and makes progress |
| `ParallelSigning.Signer.Sign` | bin/dnssec/dnssec-signzone.c:1543-1563 | A worker signs the node it holds |
| `ParallelSigning.Signer.WriteNode` | bin/dnssec/dnssec-signzone.c:1526-1538 | The master writes a signed node and hands out the next |
| `ParallelSigning.Signer.Run` | bin/dnssec/dnssec-signzone.c:1400-1563 | Every interleaving ends, with every node of both trees not named like the origin written exactly once, exactly those that need it signed exactly once, and one shutdown request |
| `SigningRuns.SignWithNsec` | bin/dnssec/dnssec-signzone.c:1684-1808 | From the zone as it was: after the NSEC chain is built, in every interleaving exactly the zone's own nodes are signed, once each (and nodes before the apex that had an NSEC), and every node written once |
| `SigningRuns.SignWithNsec3` | bin/dnssec/dnssec-signzone.c:2128-2372 | The same with NSEC3: of the nodes with data exactly those of the chain, of the NSEC3 tree every owner of the ring, and emptied owners unless hidden |
| `SigningRuns.NsecNodeToSign` | bin/dnssec/dnssec-signzone.c:1451-1458 | A node of an NSEC zone is handed out iff it is the zone's own |
| `SigningRuns.OwnerToSign` | bin/dnssec/dnssec-signzone.c:1451-1473 | When an owner of the NSEC3 tree is handed out |
| `SignSet.OwnerIsFirst` | bin/dnssec/dnssec-signzone.c:348-361 | The maker found is the first key in the list that matches |
| `SignSet.KeyList.KeyThatSigned` | bin/dnssec/dnssec-signzone.c:367-420 | Looks in the list, then on disk; a key from disk is appended with its position as index |
| `SignSet.LoadedExactly` | bin/dnssec/dnssec-signzone.c:394-416 | What a key loaded from disk is like |
| `SignSet.KnownAllGrows` | bin/dnssec/dnssec-signzone.c:511-513 | No index exceeds keys plus signatures, and keys from disk never sign |
| `SignSet.MakerIsFinal` | bin/dnssec/dnssec-signzone.c:367-420 | The maker found for a signature stays the same while the list grows |
| `SignSet.Judge` | bin/dnssec/dnssec-signzone.c:536-597 | The cascade retains and replaces exactly by the stated conditions, never both |
| `SignSet.SerialOrder` | lib/isc/serial.c:26-39 | Comparison on 32 bits, over any number of turns, is that of the times themselves when they are less than half a turn apart |
| `SignSet.RetainedExactly` | bin/dnssec/dnssec-signzone.c:536-597 | When a signature is retained, in seconds and flags (iff) |
| `SignSet.ReplacedExactly` | bin/dnssec/dnssec-signzone.c:558-573 | When it is replaced, in seconds and flags (iff) |
| `SignSet.RecordTtlExactly` | bin/dnssec/dnssec-signzone.c:496-496 | The lesser of the RRset's TTL and the new signatures' period |
| `SignSet.KeyList.SignMissing` | bin/dnssec/dnssec-signzone.c:649-684 | The signing keys without a signature that must sign do so, and no others |
| `SignSet.KeyList.SignSet` | bin/dnssec/dnssec-signzone.c:474-688 | Deletions, additions and makers, exactly; array indices stay in bounds |
| `SignSet.DifferencesApply` | bin/dnssec/dnssec-signzone.c:1080-1092 | Deleting then adding never fails, leaves what stays plus what was made, all with the TTL wanted |
| `SignSet.SigningKeyIsCovered` | bin/dnssec/dnssec-signzone.c:649-684 | When a signing key ends up with a signature (iff), and that a retained one serves |
| `SignSet.EveryZskSigns` | bin/dnssec/dnssec-signzone.c:680-683 | Except for the apex DNSKEY RRset, every signing ZSK has a fresh signature or a retained, unexpired one that verifies unless future-dated |
| `SignSet.EveryZskSignsInTime` | bin/dnssec/dnssec-signzone.c:680-683 | The same with the record's fields and the times in seconds |
| `SignSet.DnskeySignedByAlgorithm` | bin/dnssec/dnssec-signzone.c:658-679 | When each signing algorithm covers the apex DNSKEY RRset (iff) |
| `SignSet.IdleKskExample` | bin/dnssec/dnssec-signzone.c:658-679 | A case where one does not |
| `SignSet.NothingStaleSurvives` | bin/dnssec/dnssec-signzone.c:545-550 | No old signature with an inverted or past period survives, and only signing keys make new ones |
| `SignSet.NothingExpiredSurvives` | bin/dnssec/dnssec-signzone.c:536-550 | In seconds: a retained signature is neither inverted nor expired, for a signing key not within the cycle |
| `SignSet.SigningIsIdempotent` | bin/dnssec/dnssec-signzone.c:474-688 | Signing the result again changes nothing, if keys do not clash and new signatures serve |
| `Clients.Client.Accept` | bin/named/client.c:2329-2355 | At most one accept, only when ready; the interface's counter goes up with it |
| `Clients.Client.UdpRecv` | bin/named/client.c:2357-2382 | At most one receive, only when ready |
| `Clients.Client.Read` | bin/named/client.c:2194-2219 | At most one read, only when reading |
| `Clients.Client.ExitCheck` | bin/named/client.c:287-587 | Leaves iff the target is lower; unchanged while an operation is outstanding; otherwise arrives: freed, parked on the inactive queue, listening again, or reading on the same connection |
| `Clients.Client.AbortRequest` | bin/named/client.c:315-374 | The part for requests: waits, keeps the connection, or goes on down |
| `Clients.Client.CloseConnection` | bin/named/client.c:376-449 | The part for connections: waits, listens again unless replaced and not wanted back, or goes on down |
| `Clients.Client.Deactivate` | bin/named/client.c:451-516 | The part for listening: waits, is parked, or goes on down |
| `Clients.Client.EndRequest` | bin/named/client.c:648-687 | The INSISTs on outstanding operations hold; the recursion quota is returned |
| `Clients.Client.Next` | bin/named/client.c:689-718 | Lowers the target to reading on a good TCP connection and to ready otherwise, and leaves for it |
| `Clients.Client.Start` | bin/named/client.c:593-613 | The client listens, with an accept or receive outstanding iff the library took it, or leaves for its target |
| `Clients.Client.Shutdown` | bin/named/client.c:618-646 | Freed at once iff nothing is outstanding |
| `Clients.Client.NewConn` | bin/named/client.c:2221-2295 | An accept completes and the interface's counter goes down with it, the INSIST on it holding; which of connected, listening again, refused or leaving follows |
| `Clients.Client.ReadFirst` | bin/named/client.c:2308-2322 | Reading begins on a new connection, or it is given up |
| `Clients.Client.Request` | bin/named/client.c:1371-1439 | A receive or read completes: the client works, gives up the connection, or leaves; its INSISTs hold |
| `Clients.Client.SendDone` | bin/named/client.c:721-753 | A send completes: the request goes on with its other operations or ends |
| `Clients.Client.Timeout` | bin/named/client.c:1946-1973 | The target is lowered to ready, and an idle client leaves for it |
| `Clients.Client.Detach` | bin/named/client.c:2396-2412 | A reference is dropped: the request goes on or, if it is to, ends |
| `Clients.Client.UpdateDone` | bin/named/update.c:3239-3284 | An update completes with a response or without |
| `Clients.Client.Recursing` | bin/named/client.c:237-246 | Enters the recursing state and overwrites the target |
| `Clients.Client.Handle` | bin/named/client.c:287-587 | Any event keeps the invariant or frees the client (a ready client listens unless refused, one with a connection reads), and changes the interface's counter as the client's own accepts; a target of freed stays; a completion strictly reduces what is outstanding |
| `Clients.Client.SomethingOutstanding` | bin/named/client.c:287-587 | A client that is to leave its state has an operation that can complete |
| `ClientManager.Manager.Deliver` | bin/named/client.c:550-584 | An event keeps lists, counters and lifetime consistent; `ntcpcurrent` is the number of clients with an outstanding accept |
| `ClientManager.Manager.Reap` | bin/named/client.c:518-584 | A freed client leaves the list; the last one of an exiting manager destroys it |
| `ClientManager.Manager.NewConn` | bin/named/client.c:2221-2327 | An accept completes and, with quota, a replacement takes over listening iff one can be had; other busy clients are untouched |
| `ClientManager.Manager.GetClient` | bin/named/client.c:2566-2627 | A client iff one can be had: the first inactive one, or a new one; none once exiting |
| `ClientManager.Manager.Replace` | bin/named/client.c:2414-2437 | The client becomes mortal iff a replacement could be had |
| `ClientManager.Manager.Recurse` | bin/named/client.c:237-246 | Joins the recursing list |
| `ClientManager.Manager.KillOldest` | bin/named/client.c:248-261 | The oldest, and only that, leaves the recursing list |
| `ClientManager.Manager.Destroy` | bin/named/client.c:2525-2564 | Exiting is set, and the manager goes at once iff it has no clients |
| `ClientManager.Manager.Step` | bin/named/client.c:287-587 | Any step keeps everything; the only way out of a target of freed is to start recursing |
| `ClientManager.Manager.Run` | bin/named/client.c:2442-2465 | Over every run no INSIST fails, the invariant holds, the manager is destroyed at most once, exactly when exiting without clients, and none joins after |
| `ClientManager.Manager.DrainClient` | bin/named/client.c:618-646 | A client told to shut down is freed once its operations complete, in whatever order |
| `ClientManager.Manager.Wind` | bin/named/client.c:618-646 | Any step of shutting down reduces the clients still to be told or, those being equal, the sum of outstanding operations |
| `ClientManager.Manager.DrainAll` | bin/named/client.c:2525-2564 | In every interleaving of clients being told and of operations completing, shutting down ends with all clients freed and the manager destroyed once |
| `Masters.GetMastersDef` | bin/named/config.c:462-488 | The first list of that name, without regard to case |
| `Masters.GetIpAndKeyList` | bin/named/config.c:490-741 | The loop returns the left-to-right recursive expansion, or its error; arrays stay equal in length; it ends on cyclic definitions |
| `Masters.ExpandsReachable` | bin/named/config.c:537-677 | The lists expanded are the least set closed under mention, and the servers are exactly theirs, with each list's own port |
| `Masters.ServersStandInLists` | bin/named/config.c:640-660 | The servers are exactly those whose address and key stand in the list or in a list met, with the element's port, else that list's, else the server's |
| `Masters.FlattensExactly` | bin/named/config.c:516-673 | There is no error iff the ports are in range and, for some set of existing lists closed under mention, all ports and keys are good |
| `Masters.SameName` | bin/named/config.c:462-488 | Names are the same iff they differ at most in the case of letters |
| `Masters.LastPort` | bin/named/config.c:516-535 | Port 65535 is accepted from the list and refused from the server |
| `Transfers.Query.CheckForMoreData` | bin/dig/dighost.c:2904-3037 | The three nested loops over a message are a scan of its records |
| `Transfers.ScanConcat` | bin/dig/dighost.c:2904-3037 | Scanning one message after another |
| `Transfers.DivisionDoesNotMatter` | bin/dig/dighost.c:2904-3037 | For full transfers, and incremental answers, messages may be divided in any way |
| `Transfers.FullTransferEnds` | bin/dig/dighost.c:2959-2997 | A full transfer ends at the second SOA, however divided |
| `Transfers.ThirdOccurrenceEnds` | bin/dig/dighost.c:3010-3025 | In the body of an incremental answer the end is taken at the second repeat of the new serial, and only there |
| `Transfers.IncrementalEndsExactly` | bin/dig/dighost.c:2904-3037 | The last record of an incremental answer is taken for the end iff the new serial occurs in exactly one SOA of the differences, whatever follows the answer |
| `Transfers.IncrementalTransferEnds` | bin/dig/dighost.c:2904-3037 | So it is for every answer whose intermediate serials differ from the new one |
| `Transfers.UpToDateEnds` | bin/dig/dighost.c:2981-2993 | An answer no newer than the client ends at its first record |
| `Transfers.EmptyZoneEnds` | bin/dig/dighost.c:2998-3003 | Two SOA records of the new serial at once end the transfer |
| `Transfers.NoSoaFails` | bin/dig/dighost.c:2953-2958 | An answer that does not begin with an SOA fails |
| `Transfers.SerialOrder` | lib/isc/serial.c:46-49 | Serial comparison is that of the numbers counted on |
| `Transfers.FullAnswerNeedsOneMessage` | bin/dig/dighost.c:2913-2997 | A full answer to an incremental query is recognised iff its end is in the message of its second record |
| `Dns64.PutOctet` | bin/named/builtin.c:102-119 | One label: the octet in decimal |
| `Dns64.Dns64Rdata` | bin/named/builtin.c:97-122 | The in-addr.arpa name of the address in `v`, within the 30 octets of the buffer |
| `Dns64.Fill` | bin/named/builtin.c:162-179 | Accepts exactly nibble names, and leaves their nibbles packed in `v` |
| `Dns64.Reserved` | bin/named/builtin.c:187-271 | For each prefix length, the test is on the octet of bits 64 to 71 |
| `Dns64.Dns64Cname` | bin/named/builtin.c:124-280 | The answer for every name and zone length, in terms of the octets spelled |
| `Dns64.RoundTrip` | bin/named/builtin.c:124-280 | The nibble name of an address embedded per section 2.2 of RFC 6052 yields that address, for every prefix length and suffix |
| `Dns64.RoundTripOfText` | bin/named/builtin.c:124-280 | The same from the text: the digits of the nibbles in reverse order, each in either case |
| `Dns64.EndsInText` | bin/named/builtin.c:120-120 | The name ends in the labels in-addr and arpa |
| `Dns64.ExistsExactly` | bin/named/builtin.c:124-280 | A name exists iff it begins some embedded address's name, and has an alias iff it is a whole one |
| `Dns64.InAddrInjective` | bin/named/builtin.c:97-122 | The alias determines the address |
| `Dns64.EmbedExtract` | bin/named/builtin.c:187-271 | Octets with a zero in the reserved place are an embedding of the address extracted |
| `ReplyTable.Table.AddMacaddr` | netmap/dns_util.c:14-52 | The first free slot, or the last, takes the query |
| `ReplyTable.Table.GetMacmap` | netmap/dns_util.c:54-82 | The first slot with the ID is returned and released |
| `ReplyTable.ReceivedKeepsClean` | netmap/dns_util.c:14-52 | The table stays clean iff the query was not pending, or pending in the slot it takes |
| `ReplyTable.ReceivedRefines` | netmap/dns_util.c:14-52 | The map of pending queries gains the query; overflow drops the one in the last slot and no other |
| `ReplyTable.RepliedRefines` | netmap/dns_util.c:54-82 | A pending query's reply gets its own record; any other disturbs nothing |
| `ReplyTable.FullMeansAllPending` | netmap/dns_util.c:31-44 | A clean table is full iff as many queries are pending as there are slots |
| `ReplyTable.OrderlyRun` | netmap/dns_util.c:14-82 | Over a run in which no pending query is received again, whatever the table holds as pending is right |
| `ReplyTable.LightRun` | netmap/dns_util.c:14-82 | With room for all, the table equals the unlimited map |
| `ReplyTable.ReplyFindsQuery` | netmap/dns_util.c:54-82 | Then every reply finds what its query left |
| `ReplyTable.ReplyFindsExactly` | netmap/dns_util.c:14-82 | After any run, a reply is matched with a query iff that query is still in its slot and every earlier slot once taken by one with the same ID has been taken over since |
| `ReplyTable.ReplyFindsRecord` | netmap/dns_util.c:54-82 | The same, iff, for the record found, when copies of a query left different ones |
| `ReplyTable.WhatReplyFinds` | netmap/dns_util.c:54-82 | Which query a reply is matched with, if any: the latest one, or an older one that hides it, or none |
| `ReplyTable.SlotHolds` | netmap/dns_util.c:14-52 | A slot holds what the last query put in it left |
| `ReplyTable.ResentQueryIsHidden` | netmap/dns_util.c:14-82 | A query received twice: for every continuation, the first copy is found iff it has not been replied to with another query after that |
| `ReplyTable.ResentQueryComesBack` | netmap/dns_util.c:14-82 | After a reply and a query with another ID, the second copy is found |
| `Checksums.TwoFolds` | netmap/dns_util.c:103-104 | Two folds reduce any 31-bit sum to its residue |
| `Checksums.OnesSumIsResidue` | netmap/dns_util.c:95-104 | Addition with end-around carry is the residue of the plain sum |
| `Checksums.InCksum` | netmap/dns_util.c:91-107 | The complement of the ones'-complement sum of section 1 of RFC 1071, odd lengths included, for every sum that fits the `int` |
| `Checksums.OddLengthIsPadded` | netmap/dns_util.c:99-102 | An odd octet counts as if a zero followed |
| `Checksums.SumFits` | netmap/dns_util.c:91-107 | Up to 65536 octets every sum fits |
| `Checksums.StoredChecksumVerifies` | netmap/dns_util.c:211-212 | Stored in its place, the checksum makes the data sum to zero |
| `Checksums.OnlyChecksumVerifies` | netmap/dns_util.c:211-212 | No other value would, except 65535 for 0 |
| `Checksums.ZeroChecksum` | netmap/dns_util.c:232-233 | When a zero is stored (iff) |
| `Checksums.ByteOrderDoesNotMatter` | netmap/dns_util.c:91-107 | Hosts of either byte order store the same octets |
| `Packets.SetIp` | netmap/dns_util.c:207-212 | The IP header's fields and a checksum that verifies |
| `Packets.SetUdp` | netmap/dns_util.c:214-234 | Overruns the checksum buffer iff the packet does not fit; otherwise the UDP header's fields and a checksum that verifies with the pseudo-header |
| `Packets.SumDatagram` | netmap/dns_util.c:187-234 | The copy leaves the buffer of 512 octets iff pseudo-header and datagram are longer; otherwise the checksum of both |
| `Packets.PseudoExactly` | netmap/dns_util.c:84-89 | The pseudo-header, octet by octet |
| `Packets.LongReplyOverruns` | netmap/dns_util.c:187-223 | A message fits iff it has at most 492 octets, so one of 512 does not |
| `Packets.FastPath.ParseAddr` | netmap/dns_util.c:174-180 | The first packet's headers are kept; the record a reply to the packet must carry goes into the table |
| `Packets.FastPath.BuildPktHeader` | netmap/dns_util.c:185-238 | Overrun iff the message has more than 492 octets; otherwise the packet carries what was found and what was given, both checksums verify, nothing else changes |
| `Packets.ReplyGoesBack` | netmap/dns_util.c:146-238 | Over a run with room for all, a reply goes back to where its query came from |

## Left out

- Type bit maps of NSEC and NSEC3 records, and the verification of signatures on zone data.
- VerifyZone.MatchNsec3: does not compare type bit maps.
- VerifyZone.VerifyNsec3: does not compare type bit maps.
- NSEC3PARAM records with flags, several of them at once, unknown algorithms, and NSEC3 owner names that do not encode 20 octets.
- Letter case: names are taken in lower case, as the hash and the canonical order see them.
- DS generation, SOA serial updates, signature jitter beyond an arbitrary expiry, and writing zone files.
- The zone database, heaps, `qsort` and `bsearch`: an ordered sequence or map, an ascending sequence, a sorting and a searching method with the usual contracts.
- SignSet.KeyList.SignSet: takes it that no other thread adds keys meanwhile; then the two arrays might be too short.
- ParallelSigning.Signer.Run: models the order of events of the master and its workers, not locking inside the library, nor signals from outside.
- The rest of `client_request` once a request is being processed; query and update code take the steps of `Clients.Client.Work` instead, only while there is a request.
- Clients.Client.Deactivate: does not model the memory check made for clients in testing mode.
- Socket, timer and task libraries: their answers are parameters.
- The `masters` syntax and key names: parsing is given, the validity of a key name is a predicate.
- dig's sockets, timeouts, printing and signature chasing; `Transfers` starts from parsed answer sections.
- The other built-in zones of the server; names of a DNS64 zone are given by their octets, the zone by its length.
- The netmap rings; packets with IP options.
- Packets.FastPath.BuildPktHeader: takes packets that reach the end of the UDP header, and says nothing of what an overrun does.
- Checksums.InCksum: takes data whose sum fits the `int`; what an overflow does is undefined.
- Dns64.Dns64Cname: takes names other than the zone's own, which its caller answers itself (bin/named/builtin.c:310-313).
- Everything else in the repository: option parsing, configuration, logging, the resolver and the libraries.
