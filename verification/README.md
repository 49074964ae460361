# Verification of the mesh tooling

A Dafny model of the parts of the repository that decide what is signed, stored, listed and replayed, with
proofs about them. `dafny verify dfyconfig.toml` checks everything.

| files | what they model |
|---|---|
| `Text`, `Json`, `JsonRoundTrip`, `JsonShortest`, `Canonical`, `CanonicalForm`, `Signing` | JavaScript string order, JSON.stringify and JSON.parse, canonical JSON in its two copies, and what signatures of records and snapshots cover |
| `Events`, `Projections`, `Contradictions`, `ContradictionRules`, `Schema`, `KeyPrefixes`, `Jsonl`, `Ledger` | the swarm ledger: a class over its file, clock and cache; projections, replay and the contradiction engine on top of it |
| `Causal`, `Walk`, `Ancestry`, `CausalRules`, `EdgeFields`, `EdgeOrder` | the causal graph of a log, the two depth-first closures, and the order of the edge list |
| `Store`, `Coordinator`, `Acceptance`, `MeshEffects`, `MeshInvariants`, `MeshInStep`, `Serving` | the worker: a store with lazy deletion, the request handlers over it, what they accept and do, what holds in every run of requests, and that the class follows the run |
| `Discovery`, `DiscoveryResults` | the discovery filter loop, deduplication, and which records are returned |
| `Topology`, `Metrics`, `Observations` | the harness's scoring of a cluster |
| `Stun`, `Tunnel`, `TunnelOutcomes` | the STUN attribute walk (RFC 5389) and the mock tunnel emitter |

Code that updates variables or fields in place is modelled by methods and classes. Each of them is proved equal
to a function of its inputs or of its old state, and the properties are lemmas about those functions and about
runs, that is, arbitrary finite sequences of commands, requests or timer firings. What each operation decides is
also stated on the fields of its inputs, without the functions that compute it: `JsonShortest`, `CanonicalForm`,
`Acceptance`, `MeshEffects`, `DiscoveryResults`, `ContradictionRules`, `KeyPrefixes`, `EdgeFields`, `TunnelOutcomes`
and `Observations`.

Inputs the source takes from outside are parameters: clock readings (one per request), random draws, new event
ids, signing and verifying (a pair of functions of which only the sign/verify law is assumed, as a hypothesis),
date parsing (`parseDate` and `dateOf`, None for an invalid date), the host-name check (`validHost`), what
Buffer.from makes of an array or an object (`bytesOf`), whether key text can be imported (`usableKey`), the answers
of DHT lookups and the peers a libp2p node reports.

## Where code and documentation disagree

The model follows the code.

- The comment on `buildCausalEdges` says the edges are sorted by the source's logical_time. They come in three
  blocks; `EdgeOrder.SortedBySourceIff` says exactly when the list is sorted, `CausalRules.EdgesNotSortedBySource`
  gives logs where it is not. The same-run edges are not among the documented rules: `CausalRules.OnlySameRunAdded`.
- `normalizeKey` documents a camel-case rule, with DHTPeerCount as an example. The text is lower-cased first, so the
  rule never applies: the example is rejected (`Schema.DocumentedExample`), and a camel-case key under a registered
  prefix is accepted under another name than documented (`Schema.CamelCaseRenamed`). `Schema.DocumentedIff` says for
  which keys the documented result is the actual one.
- `canonicalize` drops an own field named `__proto__`, because assigning it sets the prototype of the new object.
  Canonical text is therefore unambiguous only up to such fields: `Canonical.CanonicalTextIff`,
  `Signing.ProtoFieldNotSigned`.
- The node-liveness rule reads the latest event per key and so can never see two reports:
  `Contradictions.LivenessSilent`.
- `/mesh/heartbeat` with a record has no stale-heartbeat check: `MeshInvariants.HeartbeatRecordIff` and
  `MeshInvariants.HeartbeatGoesBack`. A heartbeat or deregistration naming another network can separate mesh and
  proxy entries: `MeshInStep.HeartbeatNodeIff`, `MeshInStep.DeregisterIff` and the runs of
  `MeshInStep.DeregisterSeparates` and `MeshInStep.HeartbeatSeparates`.
- `fetchRecord` passes on whatever JSON value a peer sends, so one record can make the whole of `discoverAndVerify`
  reject instead of being filtered out: `Discovery.DiscoveryIs`, `Discovery.NoLifecycleBreaks`,
  `Discovery.InheritedKeyBreaks`.
- Deduplication keeps the most recent heartbeatAt only where heartbeats are present: `Discovery.DeduplicatePartsIff`.
- `get_stun_mapping` is meant to return the mapped address. Both address branches assign
  `struct.unpack("!BBH", ...)`, which yields three values, to two names; the error is caught and the function returns
  None on every datagram: `Stun.GetStunMapping`, `Stun.AsWrittenIff`. The branches are modelled for any number of
  names, so that what they would return with three is stated as well: `Stun.MappingRecovered`. Even then neither the
  address family nor the message length nor the magic cookie of the response would count: `Stun.FamilyIgnored`,
  `Stun.HeaderIgnored`.
- `start()` looks only at its own flag, so TUNNEL_STARTING can follow TUNNEL_CLOSED: `Tunnel.StartsAfterCloseIff`.

## Model

| member | source | states |
|---|---|---|
| Text.LessIsUnitOrder | node/src/record.ts:96 | The order by which keys are sorted is that of the UTF-16 code units, one by one, as JavaScript compares strings |
| Canonical.CanonicalizeValue | node/src/record.ts:92-103 | The recursion and the loop that fills `sorted` compute `Canonicalize`, the function the laws below are about |
| CanonicalForm.CanonicalIff | node/src/record.ts:92-103 | canonicalize(v) is the one value that, at every level, has the fields of v that hold something, own `__proto__` aside, by ascending key, array elements in place and everything else unchanged |
| Canonical.CanonicalTextIff | node/src/record.ts:109-111 | Two values have the same canonical text if and only if they are the same JSON value up to object key order, undefined parts and own `__proto__` fields |
| Canonical.CanonicalIdempotent | node/src/record.ts:92-103 | Canonicalizing a canonical value changes nothing |
| Canonical.CanonicalAfterTrip | node/src/record.ts:109-111 | The canonical text is the same before and after JSON.stringify and JSON.parse |
| Canonical.CopiesAgree | worker/src/index.ts:263-278 | The worker's own copy of canonicalize gives, on every value, what the node's copy gives |
| JsonRoundTrip.RoundTrip | node/src/record.ts:110 | JSON.parse undoes JSON.stringify: every value reads back as itself without its undefined parts; the whole text is consumed |
| JsonRoundTrip.PrintInjective | node/src/record.ts:110 | Two values print alike exactly when they agree once undefined parts are gone, so printed payloads are unambiguous |
| JsonRoundTrip.PrintIsOneLine | tools/ledger/src/ledger.ts:67 | A printed value holds no control character, so one event stays one line of the file |
| JsonShortest.PrintShortest | node/src/record.ts:110 | The printed text is the shortest there is: every compact JSON text that parses to the same value is at least as long |
| JsonShortest.EscapeIs | node/src/record.ts:110 | A character is printed as itself if and only if it is at or above the space and is neither a quote nor a backslash; five controls have their letters, the others four lower-case hex digits |
| Signing.SignKeepsPayload | node/src/signing.ts:44-59 | Signing changes only the signature field: the signed record has the payload that was signed, and carries the signature of it |
| Signing.TripKeepsPayload | node/src/record.ts:118-121 | A stringify/parse trip leaves the signing payload and the signature as they were |
| Signing.SignedRecordVerifies | node/src/signing.ts:70-86 | After any sequence of JSON trips and re-signings a signed record verifies, and node and worker compute the same payload for it |
| Signing.SignatureBindsRecord | node/src/signing.ts:44-86 | With keys that accept a signature only for its own message, a record's signature is accepted on another record if and only if the two are the same value apart from the signature |
| CanonicalForm.UnsignedIs | node/src/record.ts:118-121 | The signature is the only field left out of what is signed |
| Signing.ProtoFieldNotSigned | node/src/record.ts:96-98 | Adding an own `__proto__` field (as JSON.parse can) does not change the payload: the one kind of content a signature does not cover |
| Signing.SnapshotPayload | node/src/snapshot.ts:82-114 | signSnapshot signs, with the new publicKeyId, exactly the payload that verification recomputes from its result |
| Signing.SignedSnapshotVerifies | node/src/snapshot.ts:130-163 | A signed snapshot verifies after any sequence of JSON trips and signings under any key ids, whatever signature and key id it had before |
| Signing.ResignSnapshot | node/src/snapshot.ts:87-91 | Signing again under another key id signs what signing the original once under that id would have signed |
| CanonicalForm.SnapshotKeeps | node/src/snapshot.ts:82-114 | Signing a snapshot sets its publicKeyId and its signature and leaves every other field |
| CanonicalForm.SnapshotBinds | node/src/snapshot.ts:130-163 | With exact keys, a snapshot's signature is accepted on another snapshot if and only if the two are the same value apart from the signature, the key id included |
| Causal.BuildCausalEdges | tools/ledger/src/causal.ts:23-85 | The loops over parents, node groups and run groups build `CausalEdges`, the list the rules below are about |
| Causal.GroupsAre | tools/ledger/src/causal.ts:42-46 | The Map of arrays holds, for each name that occurs and no other, the events of that name in log order |
| Causal.EdgesIff | tools/ledger/src/causal.ts:31-82 | An edge is built if and only if its rule calls for it: parent in the log, next event of the same node, next event of the same run by another tool |
| EdgeFields.EdgesAre | tools/ledger/src/causal.ts:31-82 | The same on the fields, for distinct times: an edge joins an event to one that names it as parent, or to the next one with the same non-empty node_id, or to the next one of its run if the tool differs, with none of the kind between |
| EdgeFields.EdgesOnce | tools/ledger/src/causal.ts:23-85 | With distinct ids and times no edge is listed twice |
| Walk.WalkExact | tools/ledger/src/causal.ts:105-118 | On any graph, cyclic ones included, the depth-first walk ends and finishes exactly the ids reachable from the start, each once |
| Walk.WalkTopological | tools/ledger/src/causal.ts:105-118 | When the edges descend in some rank, the walk finishes every id after all of its neighbours |
| Ancestry.Walker.Walk | tools/ledger/src/causal.ts:105-118 | The closure with its captured visited set and result list does what the walk above does, step for step |
| Ancestry.GetAncestors | tools/ledger/src/causal.ts:91-121 | Building the index and the child-to-parent lists, then walking, returns `Ancestors` |
| Ancestry.GetDescendants | tools/ledger/src/causal.ts:126-156 | The same for the parent-to-child lists and `Descendants` |
| Ancestry.AncestorsExact | tools/ledger/src/causal.ts:91-121 | For any edge list, getAncestors returns exactly the events from which the given one follows, each once (the event itself included) |
| Ancestry.DescendantsExact | tools/ledger/src/causal.ts:126-156 | For any edge list, getDescendants returns exactly the events that follow from the given one, each once |
| Ancestry.AncestorIffDescendant | tools/ledger/src/causal.ts:91-156 | a is among the ancestors of b if and only if b is among the descendants of a |
| Ancestry.EdgesGoForward | tools/ledger/src/causal.ts:23-85 | On a log with distinct times and earlier parents, every causal edge joins logged events and strictly increases logical_time |
| Ancestry.LogIsAcyclic | tools/ledger/src/causal.ts:23-85 | So no causal path of such a log returns to its start |
| Ancestry.AncestorsInCausalOrder | tools/ledger/src/causal.ts:88-121 | getAncestors lists every event after all of its direct and indirect causes |
| EdgeFields.EffectsFirst | tools/ledger/src/causal.ts:126-156 | getDescendants lists every event after all of its effects: the opposite order |
| CausalRules.EarlierOnNodeCauses | tools/ledger/src/causal.ts:6-7 | Two events of one node, one earlier: the earlier is a cause of the later along same-node edges alone, although only neighbours get an edge |
| CausalRules.EarlierIsAncestor | tools/ledger/src/causal.ts:88-121 | So of two events about one node the earlier is in getAncestors of the later, over the edges that are built |
| CausalRules.NodeEdgeCount | tools/ledger/src/causal.ts:48-60 | The same-node edges number one fewer than the events on each node |
| CausalRules.DocumentedRuleRealised | tools/ledger/src/causal.ts:4-8 | Parent edges and consecutive same-node edges give exactly the causes that the documented rules, with an edge for every earlier-later pair, would give |
| CausalRules.OnlySameRunAdded | tools/ledger/src/causal.ts:62-82 | What is built beyond the documented rules is the same-run edges and nothing else |
| EdgeOrder.SortedBySourceIff | tools/ledger/src/causal.ts:19-82 | For distinct ids and times, the list is sorted by source time if and only if parent times do not decrease along the log, the groups of nodes and of runs do not overlap in source time, and no source of a later block is earlier than one of an earlier block |
| EdgeOrder.GroupOrder | tools/ledger/src/causal.ts:42-46 | The groups stand in the order in which the log first names them |
| EdgeOrder.NodeSourceIff | tools/ledger/src/causal.ts:48-60 | An event is the source of a same-node edge if and only if a later event is about its node |
| CausalRules.EdgesNotSortedBySource | tools/ledger/src/causal.ts:19-22 | A three-event ledger log for which the list is not sorted by the source's logical_time, against the comment |
| Events.SortSorts | tools/ledger/src/projections.ts:21 | The stable sort by logical_time sorts and keeps the same events |
| Events.SortPermutes | tools/ledger/src/projections.ts:21 | ... with their multiplicities |
| Events.SortFilter | tools/ledger/src/projections.ts:21 | ... and is stable: it commutes with every filter, so ties keep their order |
| Projections.ProjectLatestByKey | tools/ledger/src/projections.ts:19-29 | The sort and the overwriting loop compute `LatestByKey` |
| Projections.LatestByKeyIs | tools/ledger/src/projections.ts:16-29 | Each key that occurs, and no other, holds an event of that key from the log at the greatest logical time of the key |
| Projections.LatestAgree | tools/ledger/src/ledger.ts:133-137 | latestByKey and the ledger's getLatestByKey return the same event for every key, ties in logical_time included |
| Projections.LatestIff | tools/ledger/src/ledger.ts:133-137 | getLatestByKey returns an event if and only if it stands at the last position, in the log, of the greatest logical time of its key |
| Projections.AppendSetsOneKey | tools/ledger/src/projections.ts:19-29 | Appending an event later than all others sets its own key and changes nothing else, whatever the order of the log |
| Projections.ReplayIsPrefix | tools/ledger/src/replay.ts:94-101 | Replaying a ledger log to logical time t gives its first t events |
| Projections.ReplayIsAppends | tools/ledger/src/replay.ts:94-101 | latestByKey of that replay is the map after t appends to an empty log, one key set per append |
| Projections.Replay | tools/ledger/src/replay.ts:33-89 | The chain of optional filters and the final sort return the events that pass all given filters, sorted |
| Projections.ReplayMeans | tools/ledger/src/replay.ts:33-101 | An event is in a replay if and only if it is in the log and its tool, node_id, run_id, logical_time, timestamp and key are each what the filter for it lets through, an absent or empty filter letting everything through; a filter with only an upper logical bound is replayAt |
| Projections.ReplayIdempotent | tools/ledger/src/replay.ts:33-89 | Replaying a replay with the same filter changes nothing more |
| Contradictions.DetectContradictions | tools/ledger/src/contradictions.ts:258-296 | The loop over the invariants, pushing findings and counting severities, returns the report `Detect` |
| ContradictionRules.ReportIs | tools/ledger/src/contradictions.ts:73-248 | A finding is reported if and only if the latest values of its keys are those its rule looks for, with the severity, keys, tools and events of the rule; the findings stand in the order of the rules, at most one for each |
| ContradictionRules.PeerCountIff | tools/ledger/src/contradictions.ts:75-120 | On every log: HARD when the bootstrap count is 0, the sim count above 0 and the two less than both limits apart; SOFT from the hard up to the soft limit; nothing beyond |
| ContradictionRules.OrphansIff | tools/ledger/src/contradictions.ts:159-186 | DRIFT if and only if the latest orphan count is above 0 and the latest clean-state value is true |
| ContradictionRules.TunnelAnnounceIff | tools/ledger/src/contradictions.ts:189-215 | HARD if and only if the latest tunnel status is failed and the latest announcement is true |
| ContradictionRules.GhostDensityIff | tools/ledger/src/contradictions.ts:218-247 | SOFT if and only if the ghost count is more than the threshold times a positive peer count |
| ContradictionRules.ExitCodeIs | tools/ledger/src/contradictions.ts:258-339 | The exit code from the latest values alone: 3 if and only if an announced node has no tunnel or the peer counts clash within the hard limit, then 2, 1 and 0 |
| Contradictions.OrderDoesNotMatter | tools/ledger/src/contradictions.ts:258-296 | Reordering events with distinct logical times leaves the whole report unchanged |
| Contradictions.SupersededDoesNotMatter | tools/ledger/src/contradictions.ts:258-296 | So does inserting, anywhere, an event that a later one of the same key supersedes |
| Contradictions.ReportFromLatest | tools/ledger/src/contradictions.ts:258-296 | The report depends only on the latest event of each key |
| Contradictions.ReportCounts | tools/ledger/src/contradictions.ts:281-339 | The three counts sum to the number of findings, consistent means no HARD finding, and the exit code is the highest severity present |
| Contradictions.LivenessNeverFires | tools/ledger/src/contradictions.ts:122-156 | The node-liveness rule finds nothing in any projection: at most one node.status event survives, so none is both offline and online |
| Contradictions.LivenessSilent | tools/ledger/src/contradictions.ts:122-156 | ... hence on no log at all |
| Contradictions.CleanIsLookup | tools/ledger/src/contradictions.ts:158-186 | The search for a clean state over all values is a lookup of one key |
| Schema.NormalizeKeyLoop | tools/ledger/src/schema.ts:87-109 | The replace chain and the search over keys and prefixes compute `NormalizeKey`; None is the thrown error |
| KeyPrefixes.RegisteredIff | tools/ledger/src/schema.ts:62-101 | A key is registered if and only if it is `correction` or starts with one of eleven prefixes: all dht and tunnel keys, but of the keyspace keys four families |
| KeyPrefixes.NormalizeIff | tools/ledger/src/schema.ts:87-109 | normalizeKey accepts a key if and only if the text that it spells, lower-cased and with each hyphen and underscore as a dot, is registered, and returns that text |
| Schema.NormalizeIdempotent | tools/ledger/src/schema.ts:87-121 | A normalized key normalizes to itself, so what the ledger writes is valid |
| Schema.CamelRuleIsDead | tools/ledger/src/schema.ts:87-93 | The text is lower-cased before the camel-case rule, which therefore never applies |
| Schema.DocumentedIff | tools/ledger/src/schema.ts:77-93 | For every key: the code makes of it what the documented rules with a working camel-case rule would make of it, if and only if the key has no lower-case letter before an upper-case one |
| Schema.CamelCaseRejected | tools/ledger/src/schema.ts:77-109 | A key written without separators is accepted if and only if it spells `correction` |
| Schema.DocumentedExample | tools/ledger/src/schema.ts:79 | The documented DHTPeerCount is rejected |
| Schema.CamelCaseRenamed | tools/ledger/src/schema.ts:87-101 | dht.peerCount is accepted, as dht.peercount and not as the documented dht.peer.count |
| Jsonl.EventRoundTrip | tools/ledger/src/ledger.ts:67 | A printed event parses back to the same event without undefined parts |
| Jsonl.FileRoundTrip | tools/ledger/src/ledger.ts:105-120 | Splitting, trimming and parsing the file gives back exactly the events appended, in order |
| Jsonl.PlainRoundTrip | tools/ledger/src/ledger.ts:105-120 | Events of plain JSON data are read back exactly as they were appended |
| Jsonl.ParseLinesIff | tools/ledger/src/ledger.ts:115-118 | A file is read if and only if each of its lines is blank or an event; one bad line and nothing is read |
| Jsonl.BlankLineIgnored | tools/ledger/src/ledger.ts:115-118 | Blank lines, wherever they stand, do not change what is read |
| Ledger.SwarmLedger.constructor | tools/ledger/src/ledger.ts:27-45 | A start on a missing file or a restart on a written one yields a valid ledger with the clock of the log |
| Ledger.SwarmLedger.ClockFromExisting | tools/ledger/src/ledger.ts:194-200 | The clock becomes the greatest logical time of the file; the bootstrap read leaves no cache, except the empty list for an empty file |
| Ledger.SwarmLedger.LoadAll | tools/ledger/src/ledger.ts:105-120 | Returns the log the file parses to, from the cache or the file alike, and keeps it as the cache |
| Ledger.SwarmLedger.Append | tools/ledger/src/ledger.ts:55-72 | A rejected key changes nothing at all; otherwise one line is added, the clock grows by one, the cache is dropped and the event carries the new clock value |
| Ledger.SwarmLedger.Correct | tools/ledger/src/ledger.ts:78-98 | A correction is never rejected and is the append of a CORRECTION naming its target |
| Ledger.SwarmLedger.GetLatest | tools/ledger/src/ledger.ts:133-137 | Reads the log and returns the latest event of the key, leaving the ledger as it was but for the cache |
| Ledger.SwarmLedger.ValidateEvents | tools/ledger/src/ledger.ts:168-177 | A log written only through the ledger has no violation |
| Ledger.ViolationsAre | tools/ledger/src/ledger.ts:168-177 | On any list of events the violations are the id and key of each event with an invalid key, in order |
| Ledger.SwarmLedger.Reset | tools/ledger/src/ledger.ts:184-188 | Empties the file and sets the clock to zero |
| Ledger.ClockIsMaximum | tools/ledger/src/ledger.ts:194-200 | The number of events written is the greatest logical time of the log, as written and as read back |
| Ledger.StepKeeps | tools/ledger/src/ledger.ts:55-98 | Each command keeps the form of the log and only appends to the file |
| Ledger.EveryRun | tools/ledger/src/ledger.ts:27-120 | Over every sequence of appends, rejections, corrections, reads and restarts: the file only gains a suffix, times run 1, 2, 3, ..., ids are distinct, parents earlier, keys valid, and the file reads back as exactly the events written |
| Ledger.RunRecords | tools/ledger/src/ledger.ts:55-98 | A run adds one event for each command with a valid key, in their order, and each event holds every argument in its field; a correction is a CORRECTION with its target as parent and in its meta |
| Ledger.Execute | tools/ledger/src/ledger.ts:27-120 | The class, restarted on its file or not, holds after any sequence of commands the log that `Run` gives |
| Ledger.LedgerLogIsCausal | tools/ledger/src/ledger.ts:55-72 | What a ledger reads back meets the conditions of the causal theorems |
| Ledger.ReplayOfRun | tools/ledger/src/replay.ts:94-101 | For every ledger run, the state replayed to time t is the state after its first t events |
| Store.KvStore.KvPut | worker/src/index.ts:38-49 | Sets the entry with its expiry |
| Store.KvStore.KvGet | worker/src/index.ts:51-63 | Returns the live value, and deletes the entry met after its expiry |
| Store.KvStore.KvDelete | worker/src/index.ts:65-71 | Removes the entry |
| Store.KvStore.KvList | worker/src/index.ts:73-90 | The loop that deletes expired entries while it iterates does what the recursive `List` does over the keys in insertion order |
| Store.ListLive | worker/src/index.ts:73-90 | A listing returns exactly the live keys under the prefix, each once, and takes no live entry away |
| Store.ListOrder | worker/src/index.ts:73-90 | The listing keeps the order in which the keys were first set |
| Store.LazyRefinesSimple | worker/src/index.ts:38-90 | Under a clock that never goes back, any sequence of put, get, delete and list is answered as by a store that never deletes an expired entry |
| Acceptance.FirstFailure | worker/src/index.ts:373-436 | A record is rejected with the error of the first of fifteen conditions on its fields that it does not meet |
| Acceptance.AcceptsIff | worker/src/index.ts:373-436 | It is accepted if and only if it meets them all; the last is that the key it names accepts its signature for the payload that the node signs |
| Acceptance.NoForgery | worker/src/index.ts:414-432 | With exact keys, a record carrying a signature made for some record is accepted only if it is that record apart from the signature |
| Acceptance.SignedIsAccepted | worker/src/index.ts:373-436 | What the node signs the worker accepts: a record whose fields meet the conditions, signed under a configured key |
| Acceptance.StoredIsSigned | worker/src/index.ts:647-723 | In every run each live mesh value reads as a record that met all conditions, its signature included, when it was written |
| Coordinator.TtlBounds | worker/src/index.ts:256-261 | The TTL is within 301 to 7200 seconds, unparsable dates included, and reaches every expiry that verification accepts |
| MeshEffects.TtlIs | worker/src/index.ts:256-261 | The whole rule: an hour and five minutes for an expiry that is past, unparsable or less than a second away; at most two hours; otherwise five minutes more than the time left, in whole seconds |
| Coordinator.Worker.PostRegister | worker/src/index.ts:647-691 | Refusals in the order of the source, the stale-heartbeat check, and both entries written with one TTL; tied to `HandleRegister` on the live entries |
| Coordinator.Worker.PostHeartbeatRecord | worker/src/index.ts:693-723 | The same without the stale check |
| Coordinator.Worker.PostHeartbeatNode | worker/src/index.ts:725-744 | Renews the mesh entry and, when there is one, the proxy entry |
| Coordinator.Worker.PostDeregister | worker/src/index.ts:746-761 | Removes both entries |
| Coordinator.Worker.ListValues | worker/src/index.ts:464-482 | listMeshRecords and listProxyConfigs return one parsed value for each live key under the prefix, in the order in which the keys were first set, and change no live entry |
| Coordinator.Worker.PostLegacyRegister | worker/src/index.ts:585 | Writes the proxy entry with the given TTL |
| Coordinator.Worker.PostLegacyHeartbeat | worker/src/index.ts:618-640 | Renews the proxy entry with the given TTL, or answers 404 |
| Coordinator.Worker.DeleteLegacy | worker/src/index.ts:908-921 | Removes the proxy entry |
| Coordinator.Worker.ServeOne | worker/src/index.ts:550-921 | Each request has the effect and the answer that `Handle` gives it on the live entries |
| MeshEffects.RegisterDoes | worker/src/index.ts:647-691 | Register: a rejected record, or one older than the live entry, changes nothing; any other, newer than a live entry or equal to it, is written under both keys with one expiry, and no other entry changes |
| MeshEffects.HeartbeatRecordDoes | worker/src/index.ts:693-723 | Heartbeat with a record: written whenever it is accepted |
| MeshEffects.HeartbeatNodeDoes | worker/src/index.ts:725-744 | Heartbeat naming a node: both entries keep their values and get the expiry from the date sent or else from the stored record; 400 and 404 change nothing |
| MeshEffects.DeregisterDoes | worker/src/index.ts:746-761 | Deregister: afterwards neither key of the node is in the store, and every other key keeps its entry |
| MeshEffects.LegacyDoes | worker/src/index.ts:554-921 | The legacy routes, with their TTL given, touch the proxy entry of the id only |
| MeshEffects.ProxyFieldsAre | worker/src/index.ts:444-462 | Which field of the record each of the thirteen fields of the proxy config comes from |
| MeshEffects.StatusAre | worker/src/index.ts:763-768 | /mesh/status lists a node if and only if the store holds a record of it, of the configured network if there is one, under the key of the two |
| MeshEffects.DeregisteredIsGone | worker/src/index.ts:746-768 | After any run of mesh requests naming the network, a node that is then deregistered is in neither listing |
| MeshEffects.RegisteredIsShown | worker/src/index.ts:647-768 | And a node whose record the last request stored is in both |
| Serving.Serve | worker/src/index.ts:550-921 | Any ordered sequence of requests, served one at a time on the store with lazy deletion, leaves for every reader the entries of `Run` and is answered as the run says: what is proved of runs holds of the class |
| Serving.StatusIds | worker/src/index.ts:763-768 | The ids of /mesh/status are the node ids of the live mesh records, of the configured network if there is one |
| Serving.ProxyIds | worker/src/index.ts:900-905 | The ids of /proxies are those of the live proxy configs |
| Serving.RunShowsSameNodes | worker/src/index.ts:647-768 | After every run from the empty store of mesh requests naming the one configured network, /mesh/status and /proxies have the same nodes at any later time |
| Serving.ServeThenList | worker/src/index.ts:647-905 | So a worker that served such requests answers both endpoints with the same ids |
| MeshInvariants.StoredVerifiesAlike | worker/src/index.ts:438-442 | A record passes verifyPublicRecord after its trip through the store if and only if it does before |
| MeshInvariants.WrittenInRun | worker/src/index.ts:655-744 | Over any run, a mesh value was there from the start or was written by a request whose record verifyPublicRecord accepted when it arrived |
| MeshInvariants.GenuineInEveryRun | worker/src/index.ts:373-436 | In every run over all endpoints from the empty store, each live mesh value is the printed record of one of the requests, accepted by verifyPublicRecord at the time of that request, and sits under the key of its own networkId and nodeId |
| MeshInvariants.HeartbeatNeverGoesBack | worker/src/index.ts:655-684 | Where /mesh/register is the only route that writes records, the stored heartbeatAt of an entry that stays live never goes back |
| MeshInvariants.HeartbeatRecordIff | worker/src/index.ts:705-722 | /mesh/heartbeat with a record keeps that order if and only if register would not have called the record stale |
| MeshInvariants.HeartbeatGoesBack | worker/src/index.ts:705-722 | It does go back: in the run that registers one accepted record and then, while it is live, sends another of the same node with an older heartbeat |
| MeshInvariants.UntouchedRun | worker/src/index.ts:38-90 | An entry no request touches is live at the end of a run if and only if no request came after its expiry |
| MeshInvariants.ListedUntilExpiry | worker/src/index.ts:671-723 | A record accepted and stored, by register or by heartbeat, stays listed at least until its own expiresAt unless its entry is written or removed again |
| MeshInvariants.BoundedInEveryRun | worker/src/index.ts:256-261 | No mesh entry is ever set to outlive two hours from the last request |
| MeshInvariants.GoneAfterTwoHours | worker/src/index.ts:736-742 | A node that no request has touched for more than 7200 seconds is not listed, after any run |
| MeshInStep.ProxyOfStored | worker/src/index.ts:444-462 | The proxy config derived from the stored record prints like the one derived from the record sent |
| MeshInStep.InStepInEveryRun | worker/src/index.ts:647-761 | In every run of mesh requests that name the configured network, a node's mesh entry is live exactly when its proxy entry is, with the same expiry, and the proxy value is the config derived from the mesh value |
| MeshInStep.SameNodesListed | worker/src/index.ts:763-768 | Over such entries /mesh/status and /proxies list the same nodes, as many times |
| MeshInStep.SameKeyIff | worker/src/index.ts:655 | Two networks build the same key if and only if one is the other, a colon and more text, and that text moves into the node id |
| MeshInStep.ForeignKey | worker/src/index.ts:731 | A key built for another network that is in use belongs to a node of this one, never the same node |
| MeshInStep.ForeignKeyHits | worker/src/index.ts:731 | After registering an accepted record of node a:b in network net, the network net:a and the node b build a key in use |
| MeshInStep.DeregisterIff | worker/src/index.ts:754-759 | Deregistering keeps the two families in step if and only if it names the configured network or finds neither key |
| MeshInStep.HeartbeatNodeIff | worker/src/index.ts:725-742 | A heartbeat naming a node keeps them in step if and only if it names the configured network, finds no entry or changes no expiry |
| MeshInStep.LegacyDeleteIff | worker/src/index.ts:908-921 | The legacy delete keeps them in step if and only if there is no such proxy entry |
| MeshInStep.DeregisterSeparates | worker/src/index.ts:754-759 | A run of one accepted registration and a deregistration naming another network, in step before the second request and out of step after it |
| MeshInStep.HeartbeatSeparates | worker/src/index.ts:725-742 | The same for a heartbeat naming a node in another network that changes the expiry |
| MeshInStep.LegacyDeleteSeparates | worker/src/index.ts:908-921 | The same for the legacy delete of the registered node |
| Discovery.DeduplicateByNodeId | node/src/discover.ts:242-256 | The loop over the Map computes `Deduplicate` |
| Discovery.DeduplicateKeeps | node/src/record.ts:185-199 | Exactly one entry per node, in order of first appearance, each the best of its node |
| Discovery.BestIs | node/src/record.ts:191-196 | The entry kept for a node is the winner: the node's first entry if that has no heartbeatAt, otherwise the earliest of those with the greatest heartbeatAt |
| Discovery.WinnerUnique | node/src/record.ts:191-196 | No other entry satisfies that description |
| Discovery.DeduplicateIdempotent | node/src/discover.ts:242-256 | Deduplicating twice changes nothing more |
| Discovery.DeduplicatePartsIff | node/src/discover.ts:242-256 | Deduplicating the parts of a list first changes nothing, if and only if for no node the second part starts with an entry without heartbeatAt and goes on with one later than the first part's best, which has one |
| Discovery.DeduplicateParts | node/src/discover.ts:242-256 | In particular it changes nothing where every entry has a heartbeatAt |
| Discovery.PartsCanDiffer | node/src/discover.ts:242-256 | Three entries for which it does change the result |
| Discovery.FilterAndVerify | node/src/discover.ts:205-231 | The filter loop and the final deduplication, on whatever JSON values the peers sent; None when examining one throws |
| Discovery.ThrowsIff | node/src/discover.ts:212-227 | The loop body throws on a record if and only if the record matches schema, network and protocol and then has no lifecycle, an unconvertible expiresAt or, unexpired, an unconvertible or inherited key id, an unusable key or a signature Buffer.from refuses |
| Discovery.DiscoveryIs | node/src/discover.ts:205-231 | Discovery fails as a whole if and only if one fetched record breaks the loop in that way; otherwise the result holds only entries that pass every check, one per node, and none that passed is later than the one returned |
| DiscoveryResults.PassesIff | node/src/discover.ts:205-227 | A record passes if and only if it is of the schema, network and protocol asked for, has a lifecycle that has not ended, and the known key it names accepts its signature |
| DiscoveryResults.KeyTextIff | node/src/discover.ts:218-222 | The property name that a key id of any JSON type is used as, arrays joined by commas included |
| DiscoveryResults.UnconvertibleIff | node/src/discover.ts:212-222 | Converting a value throws if and only if an object with an own toString is the value or stands in its nested arrays |
| DiscoveryResults.ReturnedAre | node/src/discover.ts:205-256 | What is returned is one entry for each node that has such a record, itself such a record, and none of the node is later by the UTF-16 order of heartbeatAt |
| DiscoveryResults.NoForgery | node/src/discover.ts:218-227 | With exact keys, a returned record carrying a signature made for some record is that record apart from the signature |
| DiscoveryResults.SignedIsWellSigned | node/src/signing.ts:44-59 | A record signed under a usable known key has the signature asked for, and signing leaves it current |
| Discovery.NoLifecycleBreaks | node/src/record.ts:128-130 | A record without lifecycle makes discovery fail |
| Discovery.InheritedKeyBreaks | node/src/discover.ts:218-222 | So does a record whose key id names an inherited property |
| Discovery.SignatureBreaksIff | node/src/signing.ts:78 | Under a usable known key, a record breaks discovery if and only if its signature is neither text nor an array or object that Buffer.from accepts |
| Stun.GetStunMapping | scripts/stun_punch.py:29-68 | The function as written returns None on every datagram: both address branches assign the three values of struct.unpack to two names, which raises |
| Stun.NothingReturned | scripts/stun_punch.py:45-52 | With any number of names other than three, no response gives a mapping |
| Stun.AsWrittenIff | scripts/stun_punch.py:38-66 | The code as written agrees with the decoder that binds all three values exactly on the datagrams whose walk comes to no address attribute with 8 bytes behind its header |
| Stun.ParseResponse | scripts/stun_punch.py:29-68 | Length and message-type checks, then the walk, for branches that bind a given number of names; None for every error that is caught |
| Stun.WalkAttributes | scripts/stun_punch.py:38-62 | The while loop over the buffer, offset by offset, with its early returns; the offset is a whole number of words and grows by at least one |
| Stun.ReadAddress | scripts/stun_punch.py:44-59 | The two address branches, which read at fixed offsets behind the attribute header: an error if the number of names is not that of the values, otherwise the decoded pair |
| Stun.OffsetsAligned | scripts/stun_punch.py:60-62 | The walk stands at the end of every padded attribute before the first address, at a multiple of 4 |
| Stun.NoAddressFound | scripts/stun_punch.py:38-68 | A response without an address attribute gives no mapping, whatever the number of names |
| Stun.FirstAddressFound | scripts/stun_punch.py:38-62 | After any padded attributes without an address, the first address attribute decides what is returned, whatever follows |
| Stun.XorBits | scripts/stun_punch.py:51-56 | The mask is the bitwise exclusive or: each bit of the result says whether the two bits differ |
| Stun.XorTwice | scripts/stun_punch.py:51-56 | Applying a mask twice gives the number back, for numbers of any width |
| Stun.MappingRecovered | scripts/stun_punch.py:33-62 | For every response whose first address attribute, plain or XOR-masked, encodes an IPv4 address and port, the decoder that binds all three values returns exactly that pair, and the code as written does not return it |
| Stun.HeaderIgnored | scripts/stun_punch.py:34-36 | The message length, the magic cookie and the transaction id have no influence on the result, for any number of names |
| Stun.FamilyIgnored | scripts/stun_punch.py:43-56 | Nor have the reserved byte and the family of the first address, nor what follows that address |
| Tunnel.TunnelEmitter.Start | tools/mock/tunnel-emitter.ts:190-252 | A second start does nothing; otherwise STARTING is emitted and one timer scheduled |
| Tunnel.TunnelEmitter.Fire | tools/mock/tunnel-emitter.ts:201-250 | A timer callback after close does nothing; otherwise it emits and schedules as its kind says |
| Tunnel.TunnelEmitter.Close | tools/mock/tunnel-emitter.ts:296-302 | CLOSED once; a second close does nothing |
| Tunnel.InvariantInEveryRun | tools/mock/tunnel-emitter.ts:158-303 | In every interleaving of calls and firings: STARTING and CLOSED at most once and as the flags say, only STARTING or a forced FAILED after CLOSED, and in every prefix of the log at most as many READY and simulated FAILED as STARTING and RECONNECTING |
| Tunnel.FlagsAre | tools/mock/tunnel-emitter.ts:180-302 | started and stopped say exactly whether start and close were called, and active that the first was and the second was not |
| Tunnel.PromisesAccountedFor | tools/mock/tunnel-emitter.ts:190-290 | Each STARTING and RECONNECTING is answered by one READY or simulated FAILED, or waits for a pending timer, or lost it to close: the four numbers add up exactly |
| Tunnel.ReconnectsAre | tools/mock/tunnel-emitter.ts:226-291 | Reconnects announced or pending are one per reconnectAfter call, and at most one more from the mid-life reconnect |
| Tunnel.EverythingAnswered | tools/mock/tunnel-emitter.ts:190-291 | With no close and no pending timer, READY plus simulated FAILED equals STARTING plus RECONNECTING, and every reconnectAfter was announced |
| Tunnel.TimersRunOut | tools/mock/tunnel-emitter.ts:201-290 | Left alone, the timers fire a bounded number of times, whatever the random draws, and after so many none is pending |
| Tunnel.StartsAfterCloseIff | tools/mock/tunnel-emitter.ts:190-195 | STARTING is announced after CLOSED in exactly the runs whose first start() comes after the first close() |
| Tunnel.StartsAfterClose | tools/mock/tunnel-emitter.ts:190-195 | The shortest such run |
| TunnelOutcomes.OutcomesAre | tools/mock/tunnel-emitter.ts:190-290 | Read off the actions of any run: simulated failures are one exactly when start drew a failure and its timer fired before close; READY counts that connection and the reconnects that ended; reconnects are those asked for and the one drawn with the connection; each fail() is announced |
| Topology.VerifyTopology | tools/harness/verifier.ts:7-63 | The loops over nodes, peers and edges build the snapshot `SnapshotOf` |
| Observations.IsolatedAre | tools/harness/verifier.ts:31-39 | The isolated ids are, in cluster order, those of exactly the announced nodes that report no peer and are no node's peer |
| Topology.ScoreIsFraction | tools/harness/verifier.ts:43-56 | If every reported peer is another node of the cluster, there are at most n(n-1)/2 distinct edge keys and connectivityScore is within [0,1] |
| Topology.KeyInjective | tools/harness/verifier.ts:47-53 | Two pairs of ids free of `|` share an edge key only if they are the same unordered pair |
| Topology.KeyClash | tools/harness/verifier.ts:47-53 | With `|` in an id, two disjoint pairs can share a key |
| Topology.NoClashIff | tools/harness/verifier.ts:47-53 | Keys that do not clash, counted id by id, are keys of which equal ones come from the same pair of positions, and the other way round |
| Topology.ScoreOneIff | tools/harness/verifier.ts:43-56 | For n > 1 the score is 1 if and only if every unordered pair was observed by one of its nodes and no two pairs share a key |
| Topology.ScoreOneIffFullMesh | tools/harness/verifier.ts:43-56 | With distinct ids free of `|` and n > 1, the score is 1 if and only if every unordered pair was observed by one of its nodes |
| Topology.IsolationLimitsKeys | tools/harness/verifier.ts:33-53 | k isolated nodes leave at most the pairs of the other n - k |
| Metrics.VerifyCrossDiscovery | tools/harness/verifier.ts:70-107 | The nested loops over queriers and targets fill `CrossDiscovery` |
| Observations.CrossDiscoveryIs | tools/harness/verifier.ts:70-107 | With distinct ids, the entry of each node lists, in cluster order, exactly the other nodes whose key its lookup answers, and nothing when it cannot query |
| Metrics.DiscoveryIsFraction | tools/harness/metrics.ts:23-32 | discoveryScore is within [0,1] whatever the lookups answer and even if ids repeat |
| Metrics.DiscoveryOneIff | tools/harness/metrics.ts:23-32 | With distinct ids and n > 1 it is 1 if and only if every node could query and found every other |
| Metrics.VerifyTombstone | tools/harness/verifier.ts:114-155 | Absent if and only if no surviving node finds anything; stale records counted as those that are no tombstone |
| Observations.StaleAre | tools/harness/verifier.ts:114-155 | One is counted for exactly each survivor that can query and finds a value in which neither marker occurs |
| Metrics.TombstoneScoreMeans | tools/harness/metrics.ts:34-51 | The score is 1 (indeed above one half) if and only if the record is absent everywhere, and below one half if and only if some survivor holds a stale record |
| Observations.StaleCosts | tools/harness/metrics.ts:34-51 | Once a record is found, each stale one costs a tenth of the remaining half; five leave nothing |
| Metrics.ComputeMetrics | tools/harness/metrics.ts:10-82 | The accumulator loops and the reassigned scores give the scores, the verdict and the peer counts |
| Observations.PeerCountsAre | tools/harness/metrics.ts:62-70 | The count under an id is that of the last node with the id |
| Metrics.NoneIsolated | tools/harness/metrics.ts:16-21 | In a cluster of at most 40 nodes a connectivity above 0.8 leaves no announced node isolated |
| Metrics.NoneIsolatedIff | tools/harness/metrics.ts:16-21 | This holds of all clusters of n nodes if and only if n is at most 40 |
| Metrics.HealthMeans | tools/harness/metrics.ts:53-62 | From the observations: GREEN means no survivor finds the dead node and, up to 40 nodes, none is isolated; any stale record makes the verdict RED |

## Left out

- Strings with lone surrogates; strings are sequences of Unicode scalar values, compared by UTF-16 order.
- Numbers whose JavaScript text needs an exponent, and negative zero; rounding of numbers when parsed.
- White space and exponents in JSON.parse; the values read here were printed by JSON.stringify.
- Objects with array-index-like keys, which JavaScript enumerates out of insertion order.
- Ed25519, SHA-256, base64, PEM and key parsing, and whether the runtime accepts the `raw` format asked for with
  32-byte keys. A key that cannot be imported is modelled in the discovery loop only.
- Which arrays and objects Buffer.from accepts as a signature: a parameter. Records are data as JSON.parse gives it,
  nested no deeper than the stack allows.
- A discovered nodeId that is an array or an object, which a Map tells apart by identity; a heartbeatAt that is
  neither text nor absent, among records whose signature verified; key maps with values that are not text.
- createSnapshot: its sort by localeCompare and its date arithmetic.
- Schema.NormalizeKeyLoop: lower-cases ASCII letters only.
- Ledger events with other property orders, extra properties or ill-typed fields; ledger files written by other
  programs, several writers on one file, file-system failures, and callers changing the array loadAll returns.
- Ledger.SwarmLedger.Append: the new id is a parameter required not to occur in the log, which a random UUID only
  makes overwhelmingly likely.
- Limits of the engine: the recursive walk of the causal graph overflows the stack on a very long chain, and
  Math.max over all events of a very large file throws when the clock is read from it.
- filter, getById and stats of the ledger: each is one expression over loadAll.
- Projections.Replay: without the environment-fingerprint warning; the eight optional filters are one numbered
  family. replaySummary and the node, DHT, keyspace and tunnel views of projections.ts are not modelled.
- Contradictions.DetectContradictions: findings carry severity, rule, keys, tools and events, not the message
  texts; values compared with `>` are numbers or do not count as positive.
- The remote KV branch of the store, auth, CORS, subscriptions, GET /bootstrap/peers and the n2n routes.
- The legacy /register and /heartbeat routes are steps that write or renew a `proxy:` key with some TTL; their TTL
  rules are not modelled.
- In the worker, records whose declared text fields hold values of other types, beyond the checks verifyPublicRecord
  makes; the discovery loop is modelled on arbitrary JSON values.
- Requests whose handling interleaves, and a clock that changes within one request or goes back.
- The order of the ids in /mesh/status and /proxies; listed values are proved with their order, ids as sets.
- MeshInvariants.HeartbeatNeverGoesBack: compares two valid dates, as the source does; an invalid date never
  reaches the store through verification.
- Discovery: fetching and DHT lookups, whose results are inputs. The fetch of records in parallel is one list.
- Sockets, host resolution and the request in the STUN script; a datagram longer than the receive buffer.
- Tunnel events carry no payloads (hosts, ports, urls), and listeners that call the emitter back are separate
  steps after the emission. Delays are free: any pending timer may fire next.
- Scores are computed over real numbers; the harness computes them in floating point.
- Results keyed by a peer id of `__proto__` in the harness.
- libp2p, DHT, IPFS, probing, HTTP plumbing, shell scripts, the dashboard, loggers and command lines.
