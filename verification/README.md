# A verified model of zc

zc is a proxy runtime. This project models its stateful kernels in Dafny and proves what their
comments and tests promise, for every input, every interleaving and every crash point of the model.
`dafny verify dfyconfig.toml` checks the whole project.

| file | what it models |
|---|---|
| `AnyTlsFrames`, `AnyTlsPadding`, `AnyTlsScheme`, `AnyTlsSpec`, `AnyTlsFlow`, `AnyTlsSession` | the AnyTLS session: frames, padding schemes and their text, what a transport's coming answers are enough for, the poll methods of one stream. Every poll of the transport takes the next answer of an arbitrary script, so the invariant `Valid` covers every interleaving, short write and split of the input |
| `Groups`, `Config` | the depth-first cycle check over proxy groups, live selections, and following them to a proxy |
| `Routing`, `Matching`, `Expansion` | first-match routing with one lazy DNS lookup, what its matchers accept, and the compilation of RULE-SET references into a flat rule list |
| `Ordering`, `Catalog`, `Store`, `StoreSafety`, `StoreProgress` | the catalog store: canonical form and pure effect of each operation, then any number of processes over one directory, each of which may stop between any two steps |
| `Lifecycle`, `LiveSelection` | instance lock hand-off and stop requests as a state machine; the transaction that applies a selection to a running instance |
| `Registry` | the connection registry, the call order of its tasks, and the validator its listings must satisfy |
| `ZigMap`, `ZigHash` | the linear-probing table behind Zig map order, and the index arithmetic of its hash |
| `Chunked`, `Forwarding` | HTTP lines, exact bodies and the chunked coding; forwarding one request and its response, with the header rewriting and the keep-alive decision |
| `ContainedWalk`, `PathLaws` | the symlink walk that never leaves its root, and what a path text means to it |
| `Base`, `Pieces` | what the others share: options, arithmetic, texts cut at a separator |
| `ObfsEnvelope`, `Obfs` | the HTTP-obfuscated transport: the request around its first write, then its poll methods |

Input and output, clocks, DNS, randomness and digests are parameters: scripts of answers, tapes of
random words, functions of which nothing is assumed, or events that may happen at any time.

Where the code and its intent part, the code is modelled and the exact condition is proved:

- A heartbeat reply is lost, with the session still open, when the random source fails while its
  padding is drawn (`src/anytls.rs:359-361`). A reply is seven bytes, and packing it can fail exactly
  when the padding group in force draws a size on the way through them (`Draws`, `FailsExactly`,
  `AnswerHeart`). Under the built-in scheme that is groups 2 to 7
  (`DefaultDraws`); under a scheme that never draws for seven bytes no reply is ever lost
  (`HeartbeatsAnswered`).
- A flush or shutdown reports success after the peer's FIN although accepted bytes were discarded:
  `finish` clears the queue (`src/anytls.rs:310-313`) and both calls then return at once
  (`src/anytls.rs:562-564`, `src/anytls.rs:573-575`). What is missing from the wire is exactly what was
  unsent when FIN was acted on (`Control`, `LossExact`), so the success is true exactly when the queue
  was empty then; `FinDiscardsData` is a run in which it is not.
- A call of `stop` can revoke a stop request that is not its own, which the stop lock is there to
  prevent (`src/daemon.rs:1512-1513`): a call whose own publication fails still unlinks what it finds
  (`src/daemon.rs:1519-1538`). `OneConsumer` proves that this happens exactly to requests whose caller
  died while armed, and `ForeignRevoked` is such a run.
- The canonical form of a name drops one trailing dot (`src/config.rs:183-188`), so it is a fixed point
  exactly when the name does not end in two dots (`CanonicalTwice`); `DotDropped` is such a name.

## Model

| member | source | states |
|---|---|---|
| Frames.DecodeEncodeAll | src/anytls.rs:187-193 | decoding the encoding of any frames followed by an incomplete frame gives back exactly those frames and that remainder |
| Frames.EncodeDecode | src/anytls.rs:446-518 | every byte string is the encoding of what it decodes to, followed by the rest, so no byte is lost or read twice |
| Frames.DecodeMonotone | src/anytls.rs:446-518 | more input never changes frames already decoded |
| Frames.BigEndian | src/anytls.rs:187-193 | numbers are ordered as their encodings read from the left, so the most significant byte comes first |
| Padding.ParseValid | src/anytls.rs:82-130 | every scheme the text parser accepts has ordered sizes, at most 16 steps per group and a total padding cost within the limit |
| Padding.RandomSize | src/anytls.rs:171-186 | the sampling loop returns a size in the half-open range, or the fixed size, exactly as rejection sampling over the same words does |
| Padding.DrawUniform | src/anytls.rs:171-186 | every size in the range is hit by equally many accepted 32-bit draws, and fewer draws are rejected than there are sizes |
| Padding.PacketsJoin | src/anytls.rs:137-169 | the packets of a group concatenate to the data followed only by well-formed padding frames |
| Padding.PadsBounded | src/anytls.rs:137-169 | the padding one group adds never exceeds the cost its scheme reserved |
| Padding.Packets | src/anytls.rs:137-169 | the loop yields at most 17 packets, none empty, or fails exactly when a draw fails |
| Padding.NoDrawNoFailure | src/anytls.rs:137-186 | a group that draws nothing for data of this length never fails, whatever the random source does |
| Padding.FailsExactly | src/anytls.rs:137-186 | packing can fail for some behaviour of the random source exactly when the group draws for data of this length |
| SchemeText.RenderParses | src/anytls.rs:82-130 | every valid scheme without empty groups parses back from its text, exactly when the text is within the length limit |
| SchemeText.ParseFilled | src/anytls.rs:82-130 | no accepted text declares an empty group, so those are all the schemes there are |
| SchemeText.DefaultParses | src/anytls.rs:21-34 | the built-in text is accepted and means the built-in scheme |
| Padding.DefaultDraws | src/anytls.rs:21-34 | under the built-in scheme a seven-byte frame draws in groups 2 to 7 and in no later one |
| Session.AnyTls.Queue | src/anytls.rs:329-336 | queueing appends one frame and its padding to everything said so far, or leaves it all unchanged exactly when the packets cannot be drawn |
| Session.AnyTls.WriteFront | src/anytls.rs:337-358 | one short write keeps wire plus unsent bytes equal to the encoding of everything said |
| Session.AnyTls.AnswerHeart | src/anytls.rs:359-361 | the oldest pending heartbeat is answered in order or lost; it is answered for certain exactly when the group in force draws nothing for seven bytes |
| Session.AnyTls.Drain | src/anytls.rs:337-368 | Ok means every queued packet and pending reply is on the wire and flushed, in queue order |
| Session.AnyTls.ReadHeader | src/anytls.rs:476-498 | the header is assembled across any split of the input and judged once it is complete |
| Session.AnyTls.ReadBody | src/anytls.rs:499-510 | the body is assembled across any split, and only the assembled frame extends what was heard |
| Session.AnyTls.Control | src/anytls.rs:402-445 | each control frame has the effect its command has on the peer's protocol state, a padding update is shared with later sessions, at most 32 heartbeats wait, and FIN loses exactly what is unsent then |
| SessionSpec.LearnedLast | src/anytls.rs:413-416 | the scheme shared with later sessions is the last one the peer announced |
| Session.AnyTls.ReceiveFrame | src/anytls.rs:446-518 | the receive loop leaves every decoded frame accounted for and stops only with data, an end, a pending read or an error |
| Session.AnyTls.PollRead | src/anytls.rs:526-537 | delivered bytes continue the peer's payload; data that is ready is handed over, and so is the start of a whole legal data frame that the transport's answers reach; an empty Ok comes only after FIN or a completed close with everything delivered, and comes when a FIN is reached |
| Session.AnyTls.PollWrite | src/anytls.rs:539-559 | exactly one frame's worth of data is accepted, behind everything queued before, or nothing is; it is accepted whenever the transport takes the queue and the packets can be drawn |
| Session.AnyTls.PollFlush | src/anytls.rs:560-570 | Ok on a held transport means everything accepted is on the wire, and comes whenever the transport takes the queue and flushes; after the peer's FIN it comes at once, and wire plus what FIN discarded is everything accepted |
| Session.AnyTls.ShutdownWrite | src/anytls.rs:369-385 | FIN is queued once, after all data and replies, and the write side is shut only after it is written |
| Session.AnyTls.DiscardOnce | src/anytls.rs:594-613 | the cleanup budget never underflows over any number of polls, and passing it fails the session |
| Session.AnyTls.PollShutdown | src/anytls.rs:571-622 | Ok for a close it completed means FIN is the last frame said, every byte and FIN are on the wire, and the transport is shut; it comes whenever the answers suffice for that and the peer has ended; Ok on a session already closed says only that wire plus what FIN discarded is everything said |
| Session.AnyTls.LossExact | src/anytls.rs:310-316 | however a session ended, everything said is on the wire exactly when nothing was queued at that moment, and what is missing is what was unsent then; without an error that moment is the peer's FIN or a completed close, which loses nothing |
| Session.AnyTls.FinDiscardsData | src/anytls.rs:526-564 | a run of polls in which a write is accepted, a read reports the peer's end, the flush is Ok and the wire is short of what was accepted |
| Session.AnyTls.Open | src/anytls.rs:238-300 | an opened session has sent its authentication with padding and then exactly SETTINGS, SYN and PSH(address) with padding; it opens whenever the draws succeed and the transport takes authentication and opening |
| Session.AnyTls.SendRefines | src/anytls.rs:329-368 | while open, bytes written plus unsent decode as whole frames that, without padding, are the opening and then every accepted write, reply and FIN once and in order |
| Session.AnyTls.WirePrefix | src/anytls.rs:305-358 | however the session ends, the peer has seen a prefix of those frames |
| Session.AnyTls.ReceiveDetermined | src/anytls.rs:386-518 | also in a failed session, frames heard and bytes delivered are prefixes of what the bytes read decode to, and until a local close begins every byte read is accounted for; without a failure, frames and protocol state are exactly what they decode to, however they were split |
| Session.AnyTls.PaddingBounded | src/anytls.rs:244-248 | padding over a whole session, authentication included, stays within 65536 bytes |
| Session.AnyTls.HeartbeatsAnswered | src/anytls.rs:337-368 | at most 32 replies are pending, and requests equal replies plus pending ones exactly when no draw failed, so always under a scheme that draws nothing for seven bytes |
| Session.AnyTls.Run | src/anytls.rs:526-622 | over any sequence of polls, failing ones included, input is a prefix of the payload the bytes read decode to, output is what was accepted, nothing follows FIN, and a session that ended has everything on the wire exactly when its queue was empty then |
| Groups.OrderedAcyclic | src/config.rs:405-430 | a finishing order of the groups proves that the graph has no cycle |
| Groups.CycleFound | src/config.rs:405-430 | an edge to a group on the stack is a cycle of the graph |
| Groups.FindCycle | src/config.rs:395-430 | the iterative search decides acyclicity of the full graph, unselected edges included, with a stack no deeper than the group count |
| Groups.ResolveGroups | src/config.rs:368-437 | success exactly when every group is declared properly, every member is known and the graph is acyclic; otherwise the first failing stage names the error |
| Config.Reaches | src/config.rs:857-871 | whatever is selected, a group at position k of the finishing order reaches a proxy within k + 1 steps |
| Config.LeafIsProxy | src/config.rs:857-871 | for every selection state and every node, following selections ends at a proxy within as many steps as there are groups |
| Config.Config.ResolveProxy | src/config.rs:857-871 | the bounded loop returns that proxy; the code after it is unreachable |
| Config.Selection | src/config.rs:894-907 | a choice found by names is a member of that name in a group of that name |
| Config.Config.Selected | src/config.rs:877-893 | the snapshot maps every group name to the name of its selected member |
| Config.Config.SetSelections | src/config.rs:908-924 | accepted exactly when every entry names a direct member, then replaces all selections; otherwise changes none |
| Config.Config.Select | src/config.rs:926-932 | selecting changes exactly one entry of the snapshot, or nothing |
| Config.Validate | src/config.rs:908-924 | the result does not depend on the order in which entries are checked |
| Config.RestoreKeepsLeaves | src/config.rs:877-924 | restoring a snapshot of any state succeeds and keeps where every node leads, even with repeated members |
| Config.SnapshotDetermines | src/config.rs:877-893 | two states have the same snapshot exactly when every group selects the same node |
| Config.Config.Build | src/config.rs:746-806 | with the built-in proxies first and groups of the mixed list before the declared ones, construction succeeds exactly when there are at most 4096 further proxies and 1024 groups, names are valid and unique and groups resolve; the name table then finds every node and nothing else |
| Routing.FirstFit | src/config.rs:1068-1098 | the pinned address is an answer that satisfies the rule, and none exists exactly when no answer does |
| Routing.PinsFirst | src/config.rs:1068-1098 | it is the first such answer |
| Routing.RouteMeaning | src/config.rs:1014-1144 | the winner is the first rule that matches, a lookup happens exactly when a visited rule needs it, denial means nothing matched |
| Routing.TargetMeaning | src/config.rs:1020-1139 | a matching address rule pins an address that satisfies it; otherwise the name survives a lookup only for a TCP route to a remote proxy past purely DIRECT resolving rules |
| Routing.SuffixIrrelevant | src/config.rs:1014-1144 | rules appended after a decision never change it |
| Matching.UnderMeaning | src/config.rs:1104-1109 | a name is under a suffix exactly when the dot-separated labels of the suffix are its last labels |
| Matching.OccursMeaning | src/config.rs:1110-1112 | a keyword occurs exactly when the name is something, the keyword, and something |
| Matching.CanonicalMeaning | src/config.rs:183-188 | two names are the same to every rule exactly when they agree up to ASCII case and one trailing dot |
| Matching.CanonicalTwice | src/config.rs:183-188 | taking the canonical form again changes nothing exactly for names that do not end in two dots |
| Matching.DotDropped | src/config.rs:183-188 | a name ending in two dots loses one of them each time |
| Matching.ContainsMeaning | src/config.rs:1080-1100 | a network contains an address exactly when the family is the same and both agree on each of the first prefix bits |
| Matching.NameRules | src/config.rs:1101-1112 | what rules on names accept, in terms of labels, occurrences and canonical names |
| Matching.AddressRules | src/config.rs:1080-1100 | what an address rule accepts of a target that is an address, bit by bit |
| Routing.Route | src/config.rs:1014-1144 | the loop equals the reference evaluation and asks DNS at most once, whatever a second answer would be |
| Expansion.CheckAssets | src/config_provider.rs:317-334 | captured files pass exactly when their number, each size and the total size are within the limits |
| Expansion.Load | src/config_provider.rs:498-532 | providers load exactly when all are readable and the three aggregate limits hold |
| Expansion.Reserve | src/config_provider.rs:537-602 | all references resolve and both reservations hold, or nothing is planned |
| Expansion.FlattenSize | src/config_provider.rs:624-640 | the expanded length equals the reserved count |
| Expansion.AdaptedMeaning | src/config_provider.rs:483-488 | rewriting a provider's rules for a reference means evaluating them under its target and no-resolve option |
| Expansion.ExpansionPreserves | src/config_provider.rs:490-653 | for every destination and DNS answer the flat list gives the rule index, leaf, target, failure and lookups of the nested declaration |
| Expansion.DeclarationPreserved | src/config_provider.rs:490-653 | the same from the declarations and providers themselves: a reference means its provider's entries under its target and option, and a list without a final rule ends in MATCH,REJECT |
| Expansion.FinalDecides | src/config_provider.rs:641-651 | with one final MATCH no destination is left without a decision |
| Expansion.FailsClosed | src/config_provider.rs:603-623 | without a final rule of its own, what no rule takes goes to REJECT |
| Expansion.CheckFinal | src/config_provider.rs:641-651 | the check accepts exactly the lists with one MATCH, at the end |
| Expansion.Compile | src/config_provider.rs:498-653 | compilation succeeds exactly when sources, references, budgets and the final rule are in order, and yields the flattening, of at most 262144 rules |
| Expansion.Expand | src/config_provider.rs:490-653 | with declarations and captured files validated first, it succeeds exactly when everything is in order, and the list it yields routes every destination as the declarations mean |
| Ordering.SortedUnique | src/store.rs:633-639 | on sorted entries the check of neighbours finds every duplicate key |
| Ordering.SortElements | src/store.rs:633-639 | sorting keeps exactly the same entries |
| Ordering.DuplicatesFound | src/store.rs:633-639 | sorting and comparing neighbours finds a duplicate key exactly when there is one, wherever its entries stand |
| Catalog.CanonicalSound | src/store.rs:633-660 | a canonical catalog has strictly increasing keys, valid profiles with 16-byte hexadecimal heads, an active identity that is a head, and exactly the given profiles |
| Catalog.CanonicalExactly | src/store.rs:633-660 | a catalog is accepted exactly when no key stands twice, every profile is valid, the active one is a head, and it fits |
| Catalog.SelectionsMeaning | src/store.rs:618-632 | selections are accepted exactly when there are not too many, every name is safe and no group is named twice |
| Catalog.SoundStable | src/store.rs:829-869 | a stored catalog re-encodes to itself, so reading it back never reports corruption |
| Catalog.HeadsCovered | src/store.rs:1136-1227 | after any operation every head is an old head or is published with it under its own digest |
| Catalog.ProfileKept | src/store.rs:1136-1379 | no operation lowers the generation of a surviving profile or replaces its secret |
| Catalog.ActiveOrigin | src/store.rs:1167-1318 | a new active identity was active before, or is a head just read as ready, or is published with a ready bundle, or is the active profile renamed |
| Catalog.OthersKept | src/store.rs:1136-1379 | profiles an operation does not name are left exactly as they were |
| Catalog.EffectMeant | src/store.rs:1136-1379 | under the keys it names, each operation leaves exactly what it is for: a publication keeps the selections the new bundle still offers, in order, and raises the generation only if one was dropped; the others change the one field they name |
| Catalog.AppliedExactly | src/store.rs:1136-1379 | an operation takes effect exactly when the catalog is as it expects, its names and bundle are valid and no counter overflows |
| Store.DecodeLayout | src/store.rs:1450-1561 | a finished revision reads back as the bundle it was written from |
| StoreSafety.RevisionsImmutable | src/store.rs:1386-1445 | over every run revisions and identities are never modified or removed |
| StoreSafety.InstallReads | src/store.rs:1416-1444 | the directory the rename makes visible is complete and reads back as the published bundle |
| StoreSafety.StepKeeps | src/store.rs:1095-1445 | every step of every process keeps lock ownership, catalog soundness, completeness and the log |
| StoreSafety.CatalogSafe | src/store.rs:1100-1115 | in every run, with a stop after any step, the visible catalog is canonical, has unique keys and refers only to complete revisions |
| StoreSafety.SequenceRises | src/store.rs:1100-1115 | the sequence of committed catalogs rises by exactly one |
| StoreSafety.Linearizable | src/store.rs:666-683 | each visible catalog is the pure effect of one admitted operation on its predecessor; no token is spent twice; takeover can only come first |
| StoreSafety.ExpectationsMet | src/store.rs:1136-1379 | in every run each committed operation found its profile at the named head and generation, or a free key, in the catalog it replaced, was acceptable there, and had exactly the effect it is for |
| StoreSafety.ProfileMonotone | src/store.rs:1136-1379 | through any stretch of history in which a profile exists, from the catalog found on disk on, its generation never decreases and its secret is never replaced |
| StoreSafety.ProfileHistory | src/store.rs:1136-1379 | so it is in every run of any number of processes |
| StoreSafety.ActiveReady | src/store.rs:1167-1253 | in every run in which no reused revision differs in readiness from the bundle it stands for, the active identity's revision on disk is runtime-ready |
| StoreProgress.Completes | src/store.rs:1095-1445 | an admitted operation whose publications nothing blocks can be carried through by its process alone: its catalog is then the visible one, logged, and the lock is free |
| Lifecycle.OneOwner | src/daemon.rs:869-911 | in every run at most one instance owns the lock, hand-off and failed starts included |
| Lifecycle.StoppedReleased | src/daemon.rs:1495-1549 | an instance reported stopped does not hold the lock then or ever after |
| Lifecycle.OneConsumer | src/daemon.rs:1408-1428 | every stop request written is on disk or was removed exactly once by one party; a call removes its own request or, exactly when its publication failed, one whose caller died while armed; one swept up by a launcher was for an instance it had killed |
| Lifecycle.StopsOnlyOnRequest | src/daemon.rs:1408-1428 | in every run in which nothing else tells an instance to quit, it stops only on a request that it removed itself, so a revoked request never stops it |
| Lifecycle.StopCompletes | src/daemon.rs:1495-1549 | a call that asks a running instance to stop, undisturbed, ends with the instance gone, reported stopped, the lock free and its request removed by the instance |
| Lifecycle.ForeignRevoked | src/daemon.rs:1511-1549 | a run in which a call that could not publish removes the request of a caller that died |
| Lifecycle.StepKeeps | src/daemon.rs:918-1014 | every step of launchers, daemons and callers keeps these invariants, the cleanup of a failed start included |
| LiveSelection.BuildMap | src/daemon.rs:415-426 | the list becomes a map exactly when it is short enough and names no group twice, and the map then holds each group's choice and nothing else |
| LiveSelection.Control.SaveSnapshot | src/daemon.rs:457-483 | a content-named snapshot never overwrites different content |
| LiveSelection.Control.Switch | src/daemon.rs:1134-1152 | live selections move to the desired ones exactly when those fit the plan and publication works; otherwise every node keeps its leaf and only a failed publication stops the instance |
| LiveSelection.Control.Select | src/daemon.rs:1098-1161 | applied exactly when the request is addressed to the running instance, is what the catalog desires and fits the plan, and every file operation works: descriptor, snapshot and live selections then agree at a strictly newer generation; declined: nothing changes; failed: descriptor and leaves are as before |
| Registry.SplitInverts | src/connection.rs:189-201 | an identifier splits exactly when it is the formatted nonce and positive 64-bit number it splits into |
| Registry.CallKeeps | src/runtime.rs:917-1102 | every guard call a task may make next leaves its entry showing the next stage |
| Registry.AgreesValid | src/connection.rs:304-436 | whatever its task does and whenever it was closed, the validator accepts the entry |
| Registry.ListingValid | src/connection.rs:151-188 | every listing of the registry is a valid response for its nonce |
| Registry.LastGiven | src/connection.rs:207-262 | an entry shows a target, and a routed target with its route, exactly when they are the ones last given and not taken back; closing changes neither |
| Registry.Registry.WriteList | src/connection.rs:151-188 | a listing holds every entry and nothing else, each as its task's calls left it, and is a valid response |
| Registry.Registry.Register | src/connection.rs:99-136 | a new entry gets a never used number, refused exactly at 1024 entries or when numbers run out |
| Registry.Registry.Update | src/connection.rs:207-262 | a guard's change applies unless the entry is closing |
| Registry.Registry.CloseById | src/connection.rs:137-150 | closes exactly the entry with that identifier, and names each reason for not doing so |
| Registry.Registry.Remove | src/connection.rs:263-272 | dropping a guard removes its entry and nothing else |
| Registry.Registry.Run | src/runtime.rs:773-1102 | over any schedule of tasks and closes every listing is valid, closing absorbs and no identifier comes back |
| ZigMap.MaskIsModulo | src/override_script.rs:1845-1851 | masking with capacity minus one is the remainder by the capacity |
| ZigMap.Insert | src/override_script.rs:1844-1854 | probing in place fills the first free slot from the home slot; the code after the loop is unreachable |
| ZigMap.PlaceKeeps | src/override_script.rs:1844-1854 | placing keeps every name reachable from its home slot and adds exactly one name |
| ZigMap.CapacityOk | src/override_script.rs:1857-1859 | a new capacity is a power of two with room for one more name within 80% |
| ZigMap.CapacityLeast | src/override_script.rs:1857-1859 | it is the least power of two that is at least 8 and above 100/80 of the names with one more |
| ZigMap.TableHolds | src/override_script.rs:1855-1866 | for every list and hash the table holds exactly those names, all reachable, at no more than 80% load |
| ZigMap.OrderIsPermutation | src/override_script.rs:1843-1867 | the order is a permutation of the names |
| ZigMap.Order | src/override_script.rs:1843-1867 | the growing loop computes that order |
| ZigHash.Hash | src/override_script.rs:1870-1934 | every read stays within the input and together they touch every byte |
| Chunked.HttpLine | src/runtime.rs:543-566 | the line read is the first CRLF line of the input within the limit, however the input is buffered |
| Chunked.HexMeaning | src/runtime.rs:1224-1240 | digits stand for a number exactly when they are some zeros and its hexadecimal form, in either case |
| Chunked.ParseSound | src/runtime.rs:1213-1283 | what is parsed is a chunked body within the limits and the input starts with exactly its encoding |
| Chunked.ParseComplete | src/runtime.rs:1213-1283 | every such body followed by anything is parsed back as itself |
| Chunked.BodyUnique | src/runtime.rs:1213-1283 | an input starts with at most one body, so where it ends is not open to choice |
| Chunked.CopyExact | src/runtime.rs:1162-1180 | exactly the announced bytes pass, and on a sound stream it succeeds exactly when they are there |
| Chunked.CopyChunked | src/runtime.rs:1213-1283 | success means exactly one chunked body was read and written unchanged; on a sound stream it succeeds exactly when there is one; what is written is always a prefix of what was read |
| Forwarding.ReadHeads | src/runtime.rs:1298-1323 | the loop over the fields finds the framing of the whole list |
| Forwarding.HeadsMeaning | src/runtime.rs:1298-1323 | a header is accepted exactly when each framing field appears at most once and is well formed and no Connection token names one; the framing found is the one declared |
| Forwarding.Rewrite | src/runtime.rs:1336-1356 | the rewriting loop yields the status line, the kept fields in order and Connection: keep-alive |
| Forwarding.KeptMeaning | src/runtime.rs:1342-1353 | a field is sent on exactly when it is not a hop-by-hop field and no Connection token names it |
| Forwarding.SentHeads | src/runtime.rs:1336-1356 | the rewritten header declares the framing of the one received |
| Forwarding.BodyDelimited | src/runtime.rs:1334-1367 | the body of a framed response ends at the same place whatever follows it |
| Forwarding.CopyBody | src/runtime.rs:1359-1367 | exactly the body passes, and on sound streams it succeeds exactly when the body is there |
| Forwarding.ReplyBody | src/runtime.rs:1334-1367 | a response has no body after HEAD or with status 204 or 304; otherwise a chunked one if its header says so, or else one of the stated length |
| Forwarding.ForwardResponse | src/runtime.rs:1285-1372 | success means that at most 15 interim responses and one final response were read and sent on whole, rewritten exactly when kept; on sound streams it succeeds exactly when the upstream sends that |
| Forwarding.AnswerComplete | src/runtime.rs:1285-1372 | every such response, followed by anything if its header tells its end, is passed on |
| Forwarding.ClientDelimits | src/runtime.rs:1334-1356 | a client reading the rewritten header finds exactly the body sent, whatever follows on the kept connection |
| Forwarding.Upload | src/runtime.rs:1397-1408 | success means header and request body went up whole and the reader stands right after the body |
| Forwarding.ForwardHttp | src/runtime.rs:1374-1436 | the connection is kept only after a complete upload with the reader right after the request body and one whole response whose end its header tells; on sound streams, with the upload first, it succeeds exactly when request body and response are there, and keeps the connection exactly when both sides allow it |
| ContainedWalk.SplitJoin | src/fsutil.rs:511-517 | splitting a joined path gives back its names |
| ContainedWalk.WalkCanonical | src/fsutil.rs:519-583 | a successful walk returns real directory names down to a regular file, none of them a link |
| ContainedWalk.FixedPoint | src/fsutil.rs:486-593 | walking the returned path yields the same path and bytes |
| ContainedWalk.BelowContained | src/fsutil.rs:486-593 | a path below the root extends it by plain, slash-free names only, and everything on the way to its last name is a directory of the tree itself |
| ContainedWalk.ReadContained | src/fsutil.rs:486-593 | the loop over open directories ends, keeps both stacks in step and computes the walk; whether it succeeds or fails, every link it reads and every directory or file it opens is a plain, slash-free name in a real directory below the root |
| PathLaws.RelativeLink | src/fsutil.rs:538-560 | after real directories a relative link stands for its text in their place, at the price of one link and one step of the budgets |
| PathLaws.AbsoluteLink | src/fsutil.rs:546-560 | an absolute link below the root stands for its text from the root, at the price of one link and the steps to it |
| PathLaws.OutsideLink | src/fsutil.rs:546-549 | an absolute link or path that does not lie below the root is refused |
| PathLaws.AndBack | src/fsutil.rs:519-535 | a directory followed by .. stands for nothing, at the price of two steps |
| PathLaws.StandsForNothing | src/fsutil.rs:519-535 | an empty piece or a single dot stands for nothing, at the price of one step |
| PathLaws.NoClimbing | src/fsutil.rs:519-535 | climbing out of the root is refused, whatever follows |
| PathLaws.PathEnds | src/fsutil.rs:562-583 | a path ends at a file of at most the limit, and each other end has its error |
| PathLaws.Budgets | src/fsutil.rs:519-545 | a walk that stays within its budgets gives the same answer with larger ones |
| ObfsEnvelope.RequestRead | src/simple_obfs.rs:55-127 | for every accepted host, port and draw the request is read as exactly its seven lines with the data as body, its only blank line is its end and its Content-Length is the count |
| Obfs.UpgradeStable | src/simple_obfs.rs:199-221 | a complete header is judged alike however much of the stream has arrived |
| Obfs.HttpObfs.Drain | src/simple_obfs.rs:70-96 | Ok means the envelope and every accepted byte are on the wire, and comes whenever the transport's answers suffice for what is pending |
| Obfs.HttpObfs.New | src/simple_obfs.rs:35-62 | a transport is made exactly for a host of 1 to 255 bytes without NUL, CR or LF and a nonzero port |
| Obfs.HttpObfs.PollWrite | src/simple_obfs.rs:101-130 | the first write is wrapped in a request for exactly what it accepts, and accepted bytes follow that one envelope in order; once what is pending is taken, the first write accepts up to 65536 bytes and a later one what the transport takes |
| Obfs.HttpObfs.PollFlush | src/simple_obfs.rs:131-136 | Ok means everything accepted is on the wire, and comes whenever the transport takes it and flushes |
| Obfs.HttpObfs.WireRead | src/simple_obfs.rs:101-130 | once all is written, a server reads one request for the host whose Content-Length is the first write's and whose body is every accepted byte |
| Obfs.HttpObfs.Upgrade | src/simple_obfs.rs:168-222 | upgrading or refusing depends on the stream alone, and every read leads on to the end of the header |
| Obfs.HttpObfs.Judge | src/simple_obfs.rs:199-221 | a stream upgrades exactly when its header is complete within 8192 bytes with status 101, and is refused exactly when that is settled otherwise |
| Obfs.HeaderComes | src/simple_obfs.rs:168-222 | without a deadline the header is read whenever the transport's answers reach its end |
| Obfs.HttpObfs.PollRead | src/simple_obfs.rs:144-224 | bytes behind the header are delivered once and in order; those that wait are handed over, and so is what follows once the header is read; an empty Ok comes only with all of them delivered |
| Obfs.HttpObfs.DeliveredDetermined | src/simple_obfs.rs:144-224 | what was delivered is a prefix of what follows the header in the whole stream |

## Left out

- StoreSafety.ActiveReady: a reused revision directory is trusted by its 16-byte digest alone, so the run is assumed not to reuse one whose readiness differs from the bundle asked for.
- Lifecycle.OneConsumer: counts a request overwritten after its caller died as removed by nobody's unlink, since an atomic write replaces the file; a revocation whose unlink fails counts as its caller dying.
- Obfs.HttpObfs.Upgrade: an error is its kind; the marker `truncated_read` adds after a partial header keeps the kind and is not modelled.
- Forwarding.ForwardHttp: which of upload, download, closure and idle timer ends first is a parameter, and so is how much a cancelled upload had consumed; parsing a header block and splitting Connection tokens are library functions.
- Chunked.CopyChunked: the chunk-size grammar is that of section 7.1 of RFC 9112 with up to 16 digits, and which trailer fields are refused is a given predicate.
- ZigHash.Hash: states index bounds and coverage, not the hash value.
- Expansion.Load: starts from entries already split and parsed; YAML and entry text are not modelled.
- Config.Config.Build: the rule stage is `Expansion.Expand`, and a proxy's own fields are taken as already built.
- Store.DecodeLayout: the manifest's file sizes and digests are reduced to completeness of the file list.
- Routing.Route: parsing a rule's text is not modelled, so a payload is taken in the canonical form the parser gives it; the country table is any function, and resolving a target that is itself an address needs no lookup.
- Registry.Registry.Run: probes and the JSON spelling of a listing are not modelled, only the fields the validator constrains.
- LiveSelection.Control.Select: poisoned mutexes and the HMAC over snapshots are not modelled; a snapshot's name is any function of its content.
- Store: file ownership, permissions, inodes and directory syncs; legacy files other than the profiles a takeover imports.
- TLS, AEAD and other cryptography, and the wake-up bookkeeping of the poll methods.
- Waking, timeouts and deadlines are events that may happen at any poll; progress is stated for given answers of the transport, not for a fair one.
- Command line, HTTP API, rendering, logging, the DNS wrapper, dialing and service installation are out of scope: they hand values to the parts modelled here.
- UDP sessions and raw connection relaying are out of scope: the model covers the stream transports and HTTP forwarding.
- YAML, JSON and Lua handling belongs to libraries.
