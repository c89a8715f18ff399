# Verification of MCP² (mcp-squared)

MCP² puts many upstream tool servers behind one. This project models, in Dafny, seven parts of it that hold state or arithmetic worth proving, and proves what they promise over all inputs and all runs:

- the ownership protocol of the shared daemon and its proxies (`Daemon*.dfy`), as a transition system with an event for every step that can interleave, and as the classes `DaemonServer` and `ProxyBridge`, whose methods are proved to perform those steps;
- the length-prefixed frame codec of the daemon transport (`Frames.dfy`), under every way of cutting the byte stream;
- action routing and dispatch (`Sorting`, `Grouping`, `Words`, `Tokens`, `ActionIds`, `Routing*`, `GroupNames`, `ToolNames`, `Dispatch*`): tokens, collision-free action identifiers, the router table, and the selection of a route by name;
- the response resource store (`ResourceStore.dfy`, `ResourceRuns.dfy`), an LRU and TTL cache kept as a map and an order list, and the UTF-8-safe preview (`Utf8.dfy`, section 3 of RFC 3629);
- the import merge (`ServerNames`, `ServerNameWords`, `EnvReferences`, `EnvValues`, `ServerMapping`, `ImportMerge`, `ImportDetection`, `ImportTheorems`, `ImportRenames`, `ImportRepeats`);
- one-time confirmation tokens and policy evaluation (`Ledger.dfy`, `Policy.dfy`, `AliasPolicy.dfy`), and the sliding-window rate limiter (`RateLimit.dfy`);
- CSV fields (`Whitespace.dfy`, `Csv.dfy`, section 2 of RFC 4180) and LCOV aggregation (`Lcov.dfy`, `LcovReports.dfy`, `LcovText.dfy`, `LcovCoverage.dfy`).

`dafny verify dfyconfig.toml` checks everything.

Code that changes state step by step is modelled by methods with loops and by classes; each such method is proved equal to a function of its inputs or of the old state, and the lemmas are about that function. `Common.dfy` holds the shared sequence and result types.

## Findings

Places where the code does less than its design suggests. Each is stated as a lemma with an input, beside the exact condition under which the code does what is meant.

- A `hello` that is handled after its session's disconnect has finished leaks one active connection and clears the idle timeout, so a deserted daemon no longer stops (`LateHelloLeaks`). The counter is exact if and only if no such hello happens (`CounterExact`), and a deserted daemon has its timeout if and only if every such hello was followed by a departure that left nobody behind (`DesertedDaemonWillStop`).
- With namespaces made of digits, the legacy alias of one tool can be the action identifier of another, and a request for it selects the wrong one (`DigitTokensMisdirect`). Every name selects its own route if and only if no collision group has such a clash (`DispatchExact`).
- A request by alias is judged by the policy under the alias, so without all-digit tokens every legacy alias of the table passes a block on the identifier of its route (`AliasJudgedApart`); two tools of one capability with the same base action are enough for an alias (`SharedBaseHasAlias`). `JudgedAsItsRoute` says exactly when the two judgements agree.
- Storing a resource under a URI that is still held can evict one entry more than needed (`ReusedUriEvictsEarly`). It does so if and only if there is not room for all unexpired entries and the URI is among those that are kept (`StoreKeepsNewestExactly`). A resource stays readable if and only if no store finds too many more recent unexpired ones (`StaysReadableExactly`).
- `truncateUtf8` drops a leading byte order mark (`MarkIsDropped`, `TruncationExact`).
- `retryAfterMs` is one millisecond short: at exactly that time the request is still denied (`HintIsOneShort`, `RetryExact`).
- `normalizeEnvValue` is not idempotent (`SecondPassMatters`), and a server that a merge adds is normalised twice but later compared with a server normalised once. A second pass changes a value if and only if its references nest: the name of a `process.env` reference ends in "process" and is followed by ".env." and another name, where no reference begins (`StableExactly`). Under every choice of strategies, an added server that no later one has replaced is found in sync if and only if none of its values is like that (`AddedIsInSyncExactly`).
- A value made of text and references becomes that text with each reference written `$NAME`, except that `${process}.env.NAME` becomes `$$NAME` (`CrossingMatters`): the end of a braced name can run into what follows so as to look like a reference of the other form. Without that it always does, and with it never (`ValueBecomes`).
- A renamed server can get a name that is no valid key: `LongNameOverflows` is a merge that stores one of 66 characters. With the names in use when a conflict is resolved, its new name is valid if and only if the normalised name has a free suffix from 2 to 1000 with which it fits 64 characters (`UniqueNameValid`, `RenamedNamesValid`).
- Merging the same servers again with renaming stores conflicting ones once more (`StoredTwice`), by the same number every time (`RepeatedRenamesGrow`). A second merge changes nothing if and only if no server is in conflict when it comes again (`RenameIsIdempotentExactly`); `SettledVerdict` tells which ones are, by what they were the first time.

## Model

| member | source | states |
|---|---|---|
| `DaemonTheorems.AtMostOneOwner` | src/daemon/proxy.ts:134-154 | In every run, at any point of message delivery, two live sessions whose proxies both believe they are owner are the same session, and it is the server's owner |
| `DaemonTheorems.ViewsConverge` | src/daemon/server.ts:376-481 | Handling the messages still queued for a live authenticated session leaves its proxy with its own session id and `isOwner` exactly when the server names it |
| `DaemonTheorems.OwnerIsAccountedFor` | src/daemon/server.ts:427-481 | A null owner means that no live session is authenticated; an owner is authenticated and its disconnect has not finished |
| `DaemonTheorems.OwnerKeptWhileLive` | src/daemon/server.ts:427-466 | However a run continues, the owner stays the owner while its session is live |
| `DaemonTheorems.ElectionsPickTheEarliest` | src/daemon/server.ts:455-466 | Whenever a step changes the owner, the new one is the live authenticated session that connected first, or null if there is none |
| `DaemonTheorems.ElectionIsFirstInMapOrder` | src/daemon/server.ts:455-466 | With a clock that never goes back, that is the first authenticated entry of the sessions map |
| `DaemonRecords.AuthenticatedExactly` | src/daemon/server.ts:378-411 | A session is authenticated if and only if some hello of it, handled after it had connected and before the daemon stopped, carried exactly the daemon's secret; if the daemon has none, any such hello will do |
| `DaemonRecords.WrongSecretIsRefused` | src/daemon/server.ts:378-394 | A hello with another secret, or none, is answered with an error and changes nothing else |
| `DaemonRecords.LastSeenExactly` | src/daemon/server.ts:337-417 | A session was last seen at its latest event among connecting, an admitted hello, and traffic once admitted |
| `DaemonRecords.SweptExactly` | src/daemon/server.ts:515-522 | The sweep removes a live session if and only if that is longer ago than the heartbeat timeout, and removes no other |
| `DaemonRecords.ClientNameExactly` | src/daemon/server.ts:395-397 | A session has the client id of its latest admitted hello that gave one |
| `DaemonTheorems.CounterExact` | src/server/stats.ts:298-307 | The active-connection counter is the number of authenticated sessions live or mid-disconnect, if and only if no hello authenticated a session whose disconnect had finished |
| `DaemonTheorems.DecrementedOnce` | src/daemon/server.ts:427-453 | Each session is decremented at most once, exactly when it was authenticated in time and its disconnect has finished, and the clamp at zero never acts |
| `DaemonTheorems.DesertedDaemonWillStop` | src/daemon/server.ts:483-513 | When nobody is live or disconnecting any more, the remembered idle timeout is the one that is pending, and one is pending if and only if every late hello was followed by a last departure; without late hellos there always is one |
| `DaemonTheorems.StopsExactlyWhenEmpty` | src/daemon/server.ts:492-506 | A run has stopped if and only if the remembered timeout fired while it was pending and no session was live |
| `DaemonTheorems.LateHelloLeaks` | src/daemon/server.ts:378-411 | A concrete run in which a late hello leaks a connection and disarms the idle timeout |
| `DaemonProtocol.RunKeeps` | src/daemon/server.ts:337-481 | Every event keeps the invariant that ties owner, live list, queued messages and proxy views together |
| `DaemonSpec.ElectIsEarliest` | src/daemon/server.ts:455-466 | The election yields the authenticated session with the least connection time, ties going to the earlier map entry |
| `DaemonSpec.EarliestIsUnique` | src/daemon/server.ts:455-466 | An election has one possible outcome |
| `DaemonServer.DaemonServer.HandleConnection` | src/daemon/server.ts:337-376 | A connection adds a session at the end of the map and changes nothing else |
| `DaemonServer.DaemonServer.HandleHello` | src/daemon/server.ts:378-411 | A hello performs the protocol's hello step, refused or accepted |
| `DaemonServer.DaemonServer.HandleHeartbeat` | src/daemon/server.ts:412-417 | A heartbeat renews an authenticated session and no other |
| `DaemonServer.DaemonServer.HandleDisconnect` | src/daemon/server.ts:427-434 | The part before the first await takes the session off the map |
| `DaemonServer.DaemonServer.AfterClose` | src/daemon/server.ts:435-453 | The part after the awaits decrements, passes the ownership on and arms the idle timeout when the map is empty |
| `DaemonServer.DaemonServer.EarliestAuthenticated` | src/daemon/server.ts:455-466 | The loop over the sessions finds the elected one |
| `DaemonServer.DaemonServer.AssignOwnerIfNeeded` | src/daemon/server.ts:455-466 | Elects and announces an owner only if there is none |
| `DaemonServer.DaemonServer.BroadcastOwnerChange` | src/daemon/server.ts:468-481 | The announcement reaches every live authenticated session and no other |
| `DaemonServer.DaemonServer.StartIdleTimer` | src/daemon/server.ts:483-490 | Arming replaces the timeout that was armed before |
| `DaemonServer.DaemonServer.HandleIdleTimeout` | src/daemon/server.ts:492-506 | A firing timeout stops the daemon unless a session is live |
| `DaemonServer.DaemonServer.SweepSession` | src/daemon/server.ts:515-522 | A live session silent for longer than the heartbeat timeout starts to disconnect |
| `DaemonServer.DaemonServer.DecrementActiveConnections` | src/server/stats.ts:305-307 | The clamped decrement |
| `DaemonServer.ProxyBridge.HandleControl` | src/daemon/proxy.ts:134-154 | The proxy's reaction to each control message |
| `Frames.EncodeFrame` | src/daemon/transport.ts:28-33 | The frame of a message: four header bytes, big-endian, and the payload; too long a payload is an error |
| `Frames.EncodedExactly` | src/daemon/transport.ts:28-33 | What is encoded is the payload after four bytes that are its length in base 256, the most significant first, and fails exactly from 2^32 bytes on |
| `Frames.FrameDecoder.Push` | src/daemon/transport.ts:38-63 | The loop returns the messages of all whole frames in buffer and chunk and keeps the residue |
| `Frames.HeaderRoundTrip` | src/daemon/transport.ts:28-42 | Reading the header gives the length that was written |
| `Frames.StreamConserved` | src/daemon/transport.ts:38-63 | Any buffer is the frames taken from it followed by the residue, which holds no whole frame |
| `Frames.StreamParsesBack` | src/daemon/transport.ts:28-63 | Concatenated frames are cut at their boundaries, whatever follows |
| `Frames.PushIsIncremental` | src/daemon/transport.ts:38-63 | On any bytes, pushing `a` and then `b` is pushing `a + b` |
| `Frames.FedIsChunkingFree` | src/daemon/transport.ts:38-63 | What a decoder returns and keeps depends on the concatenation of the chunks only |
| `Frames.RoundTrip` | src/daemon/transport.ts:28-64 | For every list of envelopes and every way of cutting what the encoder returned for them, the decoder returns that list, in order, with an empty residue |
| `Frames.MalformedPayloadIsSkipped` | src/daemon/transport.ts:53-58 | A payload that does not parse costs its own frame and nothing else |
| `Tokens.TokenShape` | src/capabilities/routing.ts:128-135 | For every input, a token is non-empty, has only a-z, 0-9 and single underscores, and never starts or ends with one |
| `Tokens.TokenOfWords` | src/capabilities/routing.ts:128-135 | Any lower-cased value is words of a-z and 0-9 with gaps of other characters; its token is those words with one underscore between them, or "tool" if there is none |
| `Tokens.TokenHasWords` | src/capabilities/routing.ts:128-135 | Every value is such words with gaps |
| `Tokens.TokenFixed` | src/capabilities/routing.ts:128-135 | Normalising a token again changes nothing |
| `Tokens.JoinedUnique` | src/capabilities/routing.ts:66-71 | A name base__rest with a token as base splits in one way only |
| `Tokens.SuffixOfNumbered` | src/capabilities/routing.ts:79-83 | The suffix match takes base__digits apart at the last separator |
| `ActionIds.AllocateUniqueActionId` | src/capabilities/routing.ts:73-92 | The probing loop returns a new identifier and ends within one more probe than there are identifiers already |
| `ActionIds.AllocateIsFirstFree` | src/capabilities/routing.ts:73-92 | The identifier is the first free one among the names tried in turn |
| `ActionIds.AttemptsDiffer` | src/capabilities/routing.ts:79-88 | No name is tried twice |
| `RoutingIds.ActionIdsUnique` | src/capabilities/routing.ts:229-292 | For any inventories, the action identifiers of a capability are pairwise distinct across and inside collision groups, and none is `__describe_actions` |
| `RoutingIds.BaseActionExactly` | src/capabilities/routing.ts:193-197 | The base action of a tool is the token of its name, except that describe_actions becomes __describe_actions__tool |
| `RoutingTable.RoutesAreTheTools` | src/capabilities/routing.ts:184-307 | The routes of all routers are the tools of all inventories, each as often as it occurs, with only its name resolved |
| `RoutingTable.OneRoutePerTool` | src/capabilities/routing.ts:183-215 | Qualified names are distinct, and every tool has a route with its names, title, schema, and the capability of its namespace or "general" |
| `RoutingTable.RoutesComeFromTools` | src/capabilities/routing.ts:183-215 | Every route is made in that way from a tool of an inventory |
| `RoutingTable.OrderIsIrrelevant` | src/capabilities/routing.ts:184-307 | Permuting the inventories and the tools of any of them leaves the whole table unchanged |
| `RoutingTokens.ResolveInstanceTokens` | src/capabilities/routing.ts:94-120 | Every instance key gets its token, numbered by its rank among the sorted keys with that token |
| `RoutingExact.InstanceTokenExactly` | src/capabilities/routing.ts:94-120 | The first instance with a token has the token itself, the n-th has it with "__n" |
| `RoutingExact.InstanceTokensDiffer` | src/capabilities/routing.ts:94-120 | No two instances share a token |
| `RoutingExact.AttemptsSpelled` | src/capabilities/routing.ts:73-92 | The names that are tried for an identifier, one after the other, with and without a numeric suffix in the base |
| `RoutingExact.IdentifierExactly` | src/capabilities/routing.ts:235-285 | A route without collision has its base action; in a collision group, the j-th record of the first instance with its token is base__token, from the second on base__token__j; the group size is the number of records |
| `RoutingExact.TableIsSorted` | src/capabilities/routing.ts:287-304 | Routers come in the order of their capabilities, each with its own actions in order |
| `RoutingBuilder.BuildCandidates` | src/capabilities/routing.ts:184-227 | The loops over inventories and sorted tools build the candidates |
| `RoutingBuilder.EmitCollisions` | src/capabilities/routing.ts:254-291 | The loops over one collision group emit its resolved routes |
| `RoutingBuilder.ResolveCollisions` | src/capabilities/routing.ts:229-292 | The loop over the sorted grouping keys resolves every group |
| `RoutingBuilder.BuildCapabilityRouters` | src/capabilities/routing.ts:148-308 | The whole computation yields the router table that the lemmas are about |
| `RoutingBuilder.SortRouters` | src/capabilities/routing.ts:295-307 | Sorting the routers by capability is routing the sorted capabilities |
| `GroupNames.EmitNames` | src/capabilities/routing.ts:268-291 | Each emitted identifier belongs to the token of its instance; the bare one goes to the first record of the token's first holder |
| `GroupNames.AliasOf` | src/capabilities/routing.ts:251-257 | The legacy alias of a record is its base action and its position |
| `GroupNames.AliasMeetsId` | src/capabilities/routing.ts:251-290 | An identifier equals an alias exactly when it is the bare form of a token that spells the number |
| `Dispatch.DispatchExact` | src/server/index.ts:525-561 | All listed identifiers and aliases of a capability select their own route if and only if no collision group has an instance token that spells the number of another record |
| `Dispatch.DispatchClosure` | src/server/index.ts:441-590 | Without all-digit tokens every identifier and alias selects its own route under any visibility, and the qualified name passed on resolves to the tool the route was built from |
| `Dispatch.OfferedExactly` | src/server/index.ts:531-551 | Disambiguation offers, sorted, exactly the identifiers of the visible routes with the requested base action |
| `Dispatch.TwoAreAmbiguous` | src/server/index.ts:531-551 | Two visible routes with the requested base action always lead to disambiguation |
| `Dispatch.BaseActionOutcome` | src/server/index.ts:525-585 | A base action that is no identifier or alias itself selects the one visible route that has it, is ambiguous between several, and is unknown without any |
| `Policy.UnknownListsVisible` | src/server/index.ts:555-577 | An unknown action is answered with the visible actions, in order |
| `Policy.DescribeListsVisible` | src/server/index.ts:441-524 | The describe action lists the visible actions, in order, and without a name there is no answer |
| `Dispatch.AnswersAreNoBase` | src/server/index.ts:525-561 | A name some route answers to is the base action of at most that route, so it never triggers disambiguation |
| `DispatchExample.DigitTokensMisdirect` | src/capabilities/routing.ts:251-290 | Namespaces "0", "1", "2" with one tool each make a table in which a name selects the wrong route |
| `ToolNames.QualifiedRoundTrip` | src/utils/tool-names.ts:39-75 | Parsing inverts formatting if and only if the server key has no colon |
| `ToolNames.ParsedFormatsBack` | src/utils/tool-names.ts:39-75 | Whatever is parsed as qualified formats back to itself |
| `ToolNames.QualifiedNameResolves` | src/upstream/cataloger.ts:456-489 | A qualified name finds the tool of a connected server with a colon-free key |
| `ToolNames.QualifiedExactly` | src/upstream/cataloger.ts:456-471 | A qualified name is looked up on its server alone: found there, or not found |
| `ToolNames.BareNameExactly` | src/upstream/cataloger.ts:423-491 | A bare name finds a tool if and only if exactly one connected server offers it; with several, the alternatives are exactly their qualified names |
| `Utf8.DecodeExact` | src/server/response-resource.ts:225-239 | Bytes decode if and only if they encode a text, and then to that text |
| `Utf8.EncodedBits` | src/server/response-resource.ts:225-239 | The bytes of a character carry its code point, six bits in each byte after the first |
| `Utf8.TruncateUtf8` | src/server/response-resource.ts:225-239 | The counting loop ends on the longest whole-character prefix, less a leading byte order mark, after at most three trims |
| `Utf8.TruncationKeepsTheMost` | src/server/response-resource.ts:225-239 | No longer prefix fits the byte limit, and at most three bytes are wasted |
| `Utf8.TruncationExact` | src/server/response-resource.ts:225-239 | The result is the longest prefix if and only if no byte order mark is dropped |
| `Utf8.MarkIsDropped` | src/server/response-resource.ts:225-239 | A byte order mark and one more character, cut to three bytes, come out empty |
| `Utf8.BuildPreview` | src/server/response-resource.ts:204-223 | The preview of a text, cut by lines and bytes |
| `Utf8.PreviewBounded` | src/server/response-resource.ts:204-223 | No preview exceeds 2051 bytes |
| `Utf8.PreviewExactly` | src/server/response-resource.ts:205-223 | A preview is the text, or exactly its first lines with a line break and three dots, cut to the characters that fit 2048 bytes |
| `Utf8.JoinOfSplit` | src/server/response-resource.ts:204-223 | Joining the lines of a text gives the text back |
| `Utf8.LinesArePrefix` | src/server/response-resource.ts:204-223 | The first lines joined again are the front of the text |
| `ResourceStore.ResponseResourceManager.StoreEntry` | src/server/response-resource.ts:241-257 | Storing performs the store step on the recency list: expired entries go, then the least recently used until there is room |
| `ResourceStore.ResponseResourceManager.EvictExpired` | src/server/response-resource.ts:259-270 | Both structures lose exactly the expired entries |
| `ResourceStore.ResponseResourceManager.MakeRoom` | src/server/response-resource.ts:241-257 | The eviction loop keeps the most recently used entries |
| `ResourceStore.ResponseResourceManager.ReadResource` | src/server/response-resource.ts:132-156 | Reading returns an unexpired entry and makes it the most recent, and deletes an expired one |
| `ResourceStore.ResponseResourceManager.ListResources` | src/server/response-resource.ts:159-172 | The listing is the unexpired entries |
| `ResourceStore.ResponseResourceManager.GetResourceCount` | src/server/response-resource.ts:175-178 | The count is the length of the recency list |
| `ResourceStore.ResponseResourceManager.Offload` | src/server/response-resource.ts:92-126 | Offloading stores the full text and returns its preview |
| `ResourceStore.RecencyWithout` | src/server/response-resource.ts:272-289 | Deleting a key from the map and from the order list removes the item from the recency list they stand for |
| `ResourceRuns.RunKeepsBounds` | src/server/response-resource.ts:241-257 | In every run the list is duplicate-free and never longer than `maxResources` |
| `ResourceRuns.StoreEvictsExactly` | src/server/response-resource.ts:241-270 | A store removes another entry if and only if it has expired or too many unexpired ones are more recent |
| `ResourceRuns.StaysReadableExactly` | src/server/response-resource.ts:132-156 | Until it expires or is stored again, an entry can be read if and only if no store of the run finds too many more recent unexpired ones |
| `ResourceRuns.StaysReadable` | src/server/response-resource.ts:132-156 | An unexpired entry stays readable while fewer than `maxResources` distinct other URIs were stored or read since its last use; one fewer if some store reuses a held URI |
| `ResourceRuns.ReusedUriEvictsEarly` | src/server/response-resource.ts:241-257 | With two places, storing again under a held URI evicts the other entry |
| `ResourceRuns.StoreKeepsNewestExactly` | src/server/response-resource.ts:241-257 | A store keeps the most recent unexpired entries that fit beside the new one if and only if all fit or the URI is not among the kept ones |
| `ResourceRuns.StoredIsReadable` | src/server/response-resource.ts:132-156 | What was just stored is read back if and only if it is younger than the time to live |
| `ServerNames.NormalizedIsNormal` | src/import/transform/normalizer.ts:22-70 | Every input normalises to a valid TOML key of at most 64 characters without double or trailing hyphens |
| `ServerNameWords.NameOfWords` | src/import/transform/normalizer.ts:40-70 | Any lower-cased name, without the characters that are dropped, is words with gaps of blanks, dots and hyphens; it becomes those words with hyphens between them, after "s-" if a digit begins them, or "server", cut to 64 characters |
| `ServerNameWords.NameHasWords` | src/import/transform/normalizer.ts:40-70 | Every name is such words with gaps |
| `ServerNameWords.SuffixIsSpelled` | src/import/transform/normalizer.ts:79-103 | A suffixed name is the base, a hyphen and the digits of the number |
| `ServerNames.NormalNameFixed` | src/import/transform/normalizer.ts:39-70 | Normalising a normal name changes nothing |
| `ServerNames.GenerateUniqueName` | src/import/transform/normalizer.ts:79-103 | The suffix loop returns the unique name, or none where it throws |
| `ServerNames.UniqueNameExact` | src/import/transform/normalizer.ts:79-103 | The name is free and has the smallest suffix; there is none exactly when the base and all suffixes 2 to 1000 are taken |
| `ServerNames.FewNamesSuffice` | src/import/transform/normalizer.ts:79-103 | With fewer than a thousand names in use there always is one |
| `ServerNames.SuffixedValid` | src/import/transform/normalizer.ts:79-103 | A suffixed name is a valid key if and only if base and suffix fit 64 characters |
| `ServerNames.UniqueNameValid` | src/import/transform/normalizer.ts:79-103 | The unique name is a valid key if and only if the base is free or has a free suffix from 2 to 1000 that fits 64 characters with it |
| `ServerNames.FullNameOverflows` | src/import/transform/normalizer.ts:79-103 | A taken name of 64 characters is renamed to one of 66, which is no valid key |
| `EnvReferences.UnchangedExactly` | src/import/transform/mapper.ts:189-200 | A value is left alone exactly when it has no reference of either form |
| `EnvReferences.NormalizedHasNoBraced` | src/import/transform/mapper.ts:189-200 | No normalised value has a `${NAME}` left |
| `EnvReferences.LeftExactly` | src/import/transform/mapper.ts:194-197 | One scan leaves a `process.env` reference behind if and only if its input has a nested one |
| `EnvReferences.StableExactly` | src/import/transform/mapper.ts:189-200 | Normalising twice is normalising once if and only if the references of the value do not nest |
| `EnvReferences.SecondPassMatters` | src/import/transform/mapper.ts:189-200 | `process.env.process.env.NAME` becomes `$process.env.NAME`, and that becomes `$$NAME` |
| `EnvValues.ExpandExactly` | src/import/transform/mapper.ts:189-200 | A scan writes every reference where one begins as $NAME and keeps every other character |
| `EnvValues.ItemsExist` | src/import/transform/mapper.ts:189-200 | Every value is made of references and characters where none begins |
| `EnvValues.ValueBecomes` | src/import/transform/mapper.ts:189-200 | A value of text and references becomes that text with each reference written $NAME, if and only if no end of a braced name runs into what follows as a reference of the other form |
| `EnvValues.PartsExist` | src/import/transform/mapper.ts:189-200 | Every value is made of text and references of the two forms |
| `EnvValues.CrossingMatters` | src/import/transform/mapper.ts:189-200 | The value ${process}.env.NAME becomes $$NAME |
| `ServerMapping.NormalizeEnvVars` | src/import/transform/mapper.ts:171-181 | The loop normalises every value and keeps every key |
| `ImportDetection.MappedExactly` | src/import/transform/mapper.ts:46-135 | What a server maps to, field by field, with all defaults, and when it maps to nothing |
| `ServerMapping.MapsAgain` | src/import/merge/index.ts:283-311 | Turning a mapped config back and mapping it again changes the label and normalises its values once more, nothing else |
| `ServerMapping.EqualUpToLabel` | src/import/merge/index.ts:109-194 | Configs compare equal exactly when they differ in the label at most |
| `ServerMapping.RemappedEqualExactly` | src/import/merge/index.ts:109-194 | A server mapped twice equals the server mapped once if and only if no value of its environment, and of its headers if it has a URL, has nested references |
| `ImportMerge.DetectConflicts` | src/import/merge/index.ts:203-277 | The nested loops classify every incoming server in order |
| `ImportDetection.RecordedAt` | src/import/merge/index.ts:203-277 | Every server is recorded as what it is judged to be: in sync, in conflict with an existing or an earlier new one, or new |
| `ImportDetection.HolderIsFirst` | src/import/merge/index.ts:203-277 | What a conflict between incoming servers is with is the new server that first had the name |
| `ImportDetection.NothingElseIsRecorded` | src/import/merge/index.ts:203-277 | Together the lists have one entry for each server that can be mapped |
| `ImportDetection.FlattenAppends` | src/import/merge/index.ts:203-277 | Servers are seen group by group, in order, with the source of their group |
| `ImportMerge.ResolveConflict` | src/import/merge/index.ts:321-360 | The change for one conflict and the names in use after it |
| `ImportMerge.ApplyChanges` | src/import/merge/index.ts:369-402 | The loop over the changes, and the warnings |
| `ImportMerge.MergeWithStrategy` | src/import/merge/index.ts:413-456 | Detection, additions, resolutions and application, in that order |
| `ImportMerge.MergeWithResolutions` | src/import/merge/index.ts:467-507 | The same, with a strategy per conflict and skipping by default |
| `ImportDetection.MergeRecords` | src/import/merge/index.ts:321-509 | Whatever is chosen, the changes are one for each new server and one for each conflict, of the kind chosen for its name, and no merge warns |
| `ImportDetection.UnchosenStays` | src/import/merge/index.ts:467-509 | A name for which no strategy is given keeps what it holds |
| `ImportDetection.ChosenReplaces` | src/import/merge/index.ts:467-509 | A name for which replacing is chosen holds the server of its last conflict |
| `ImportTheorems.RenameKeepsAndCounts` | src/import/merge/index.ts:413-456 | A rename merge leaves existing upstreams unchanged and adds exactly one entry per mappable server that is not in sync, without warnings |
| `ImportTheorems.RenameStoresEach` | src/import/merge/index.ts:347-402 | Each such server is stored under the name of its change: a new one under its normalised name, a conflicting one under another |
| `ImportTheorems.RenameNamesDiffer` | src/import/transform/normalizer.ts:79-103 | No two of them share a name |
| `ImportTheorems.RenameSucceeds` | src/import/merge/index.ts:347-360 | With at most a thousand existing and incoming servers a rename merge never throws |
| `ImportRenames.RenameThrowsExactly` | src/import/merge/index.ts:347-360 | A rename merge throws if and only if some conflict, once all earlier ones are resolved, finds its normalised name and all suffixes 2 to 1000 in use |
| `ImportRenames.AddedNamesValid` | src/import/merge/index.ts:413-456 | A new server is stored under a valid key |
| `ImportRenames.RenamedNamesValid` | src/import/merge/index.ts:347-360 | The name for each conflict is a valid key if and only if, with the existing names and those of all earlier changes in use, its normalised name has a free suffix that fits 64 characters |
| `ImportRenames.LongNameOverflows` | src/import/transform/normalizer.ts:79-103 | A rename merge of one server that stores it under a name of 66 characters, no valid key |
| `ImportTheorems.SkipMergeIsIdempotent` | src/import/merge/index.ts:203-277 | After a skip merge, merging the same servers again changes nothing and finds each mappable one in sync or skips it |
| `ImportRepeats.ReplaceTakesTheLast` | src/import/merge/index.ts:321-402 | After a replace merge each name has the server of its last conflict; without a conflict, existing names are unchanged and new ones have their server mapped twice |
| `ImportRepeats.MergeHolds` | src/import/merge/index.ts:467-509 | Whatever strategy is chosen for each conflict, every name that exists or is new holds the server of its last conflict if the name is to be replaced, and otherwise the existing upstream or the new server mapped twice |
| `ImportRepeats.AddedIsInSyncExactly` | src/import/merge/index.ts:203-277 | After a merge with any strategies, a server it added is found in sync by the next merge if and only if no value of its environment or headers has nested references, or, where a later server replaced it, if and only if it equals that one |
| `ImportRepeats.SettledVerdict` | src/import/merge/index.ts:203-277 | What each server is judged when it comes again after rename merges, by what it was the first time: conflicts with existing upstreams remain; one that was new is in sync exactly without nested references; one that met a new server is in sync exactly if it equals that server mapped twice |
| `ImportRepeats.RepeatedRenamesGrow` | src/import/merge/index.ts:413-456 | In any run of rename merges of the same servers, each one after the first keeps all entries and adds exactly one for each server that is in conflict when it comes again |
| `ImportRepeats.RenameIsIdempotentExactly` | src/import/merge/index.ts:413-456 | A second rename merge leaves the config unchanged if and only if no server is in conflict when it comes again |
| `ImportRepeats.StoredTwice` | src/import/merge/index.ts:347-360 | One server with the name of an upstream and another command is stored by each of two rename merges |
| `Ledger.AcceptedExactly` | src/security/policy.ts:117-140 | A check accepts a token if and only if it was issued for that capability and action at most five minutes ago and was not accepted since |
| `Ledger.AcceptedAtMostOnce` | src/security/policy.ts:117-140 | In every run with fresh tokens and a clock that never goes back, no token is accepted twice |
| `Ledger.PendingIsLive` | src/security/policy.ts:105-159 | The pending map holds exactly the tokens issued, not accepted and not expired |
| `Ledger.NothingIsLost` | src/security/policy.ts:105-159 | For every pair, issued tokens are the pending, the accepted and the expired ones together |
| `Policy.ConfirmationStore.CleanupExpiredTokens` | src/security/policy.ts:105-112 | The loop removes exactly the tokens older than five minutes |
| `Policy.ConfirmationStore.ValidateConfirmationToken` | src/security/policy.ts:117-140 | Validation is a check step of the ledger |
| `Policy.ConfirmationStore.CreateConfirmationToken` | src/security/policy.ts:145-159 | Creation is an issue step of the ledger |
| `Policy.ConfirmationStore.GetPendingConfirmationCount` | src/security/policy.ts:234-237 | The count is the number of tokens pending after a cleanup |
| `Policy.ConfirmationStore.EvaluatePolicy` | src/security/policy.ts:170-229 | Block before allow before confirm before deny, and the ledger steps that a confirmation takes |
| `Policy.ConfirmedOnce` | src/security/policy.ts:202-222 | An evaluation allowed by a token follows one that issued it for the same pair within five minutes, and no later one can spend it again |
| `Policy.PatternMeaning` | src/security/policy.ts:58-76 | A pattern matches exactly the scopes and actions its two parts name, one-way alias and wildcards included, and ignores further parts |
| `Policy.BarePatternMatchesNothing` | src/security/policy.ts:58-76 | A pattern without a colon matches nothing |
| `Policy.GateExactly` | src/security/policy.ts:180-229 | Blocking comes before allowing and allowing before confirming, each by some pattern of its list; what no list has is refused |
| `Policy.DescribedAreNotRefused` | src/security/policy.ts:335-359 | The describe action lists exactly the routed actions that the policy would not block |
| `Policy.VisibilityExactly` | src/security/policy.ts:335-361 | An action is visible if and only if it is allowed or needs confirmation, and is marked if and only if it needs confirmation |
| `Policy.JudgedAsItsRoute` | src/server/index.ts:578-588 | A selected request is judged as the action of its route if and only if the two names are first named in the same list, or neither before the first list that covers all actions |
| `AliasPolicy.ActionChars` | src/capabilities/routing.ts:73-92 | Every identifier of a table is non-empty and has only a-z, 0-9 and underscores |
| `AliasPolicy.AliasJudgedApart` | src/server/index.ts:578-588 | Without all-digit tokens, for every routed alias: identifier and alias select the same route, and with all actions of its capability allowed but the identifier blocked, the request by the identifier is blocked and the one by the alias allowed |
| `AliasPolicy.SharedBaseHasAlias` | src/capabilities/routing.ts:251-257 | If two tools of one capability have the same base action, the table has a route with an alias |
| `RateLimit.SlidingWindowRateLimiter.Check` | agent_safety_kit/guard/ratelimit.ts:13-41 | The verdict and the new history of the key |
| `RateLimit.SlidingWindowRateLimiter.Reset` | agent_safety_kit/guard/ratelimit.ts:43-45 | A reset forgets every history |
| `RateLimit.QueueIsTheWindow` | agent_safety_kit/guard/ratelimit.ts:18-23 | The pruned queue is the full admission log filtered to the window |
| `RateLimit.DeniedExactlyWhenFull` | agent_safety_kit/guard/ratelimit.ts:25-40 | A request is denied if and only if the limit was already admitted in its window; `remaining` is what the window still has room for |
| `RateLimit.NeverMoreThanTheLimit` | agent_safety_kit/guard/ratelimit.ts:10-41 | Every closed interval of 60,000 ms holds at most the limit of admissions, per key |
| `RateLimit.RetryHint` | agent_safety_kit/guard/ratelimit.ts:25-34 | After a denial the window is exactly full, and the hint points at the moment its oldest entry reaches the edge |
| `RateLimit.RetryExact` | agent_safety_kit/guard/ratelimit.ts:25-34 | Without admissions in between, a later request is admitted if and only if it comes more than `retryAfterMs` after the denial |
| `RateLimit.HintIsOneShort` | agent_safety_kit/guard/ratelimit.ts:25-34 | With a limit of one, a request denied at time 0 is denied again at exactly the hinted time |
| `Csv.ParseCsvLine` | agent_safety_kit/cost_model/simulate.ts:87-117 | The character loop reads the fields of a line |
| `Csv.QuotedExactly` | agent_safety_kit/cost_model/simulate.ts:296-301 | A field is quoted if and only if it has a quote, a comma or a line break, and stands as it is otherwise |
| `Csv.FieldsOfPrinted` | agent_safety_kit/cost_model/simulate.ts:296-301 | Before trimming, parsing gives back exactly the fields that were escaped and joined |
| `Csv.FieldsExactly` | agent_safety_kit/cost_model/simulate.ts:87-117 | The fields of any line are what its bare characters and quoted texts mean, an unclosed quote included |
| `Csv.LineHasSegments` | agent_safety_kit/cost_model/simulate.ts:87-117 | Every line is made of bare characters and quoted texts |
| `Whitespace.TrimExactly` | agent_safety_kit/cost_model/simulate.ts:116 | Trimming takes the white space at both ends off, and nothing else |
| `Whitespace.TrimParts` | agent_safety_kit/cost_model/simulate.ts:116 | Every string is its trimmed body with white space around it |
| `Csv.PrintParse` | agent_safety_kit/cost_model/simulate.ts:490-491 | Parsing a printed line gives the trimmed fields, and the fields themselves if and only if none has space at an end |
| `Csv.ReprintIsStable` | agent_safety_kit/cost_model/simulate.ts:87-117 | For any line, printing its fields and parsing again gives the same fields |
| `Csv.NoFieldsBecomeOne` | agent_safety_kit/cost_model/simulate.ts:87-117 | No fields at all come back as one empty field |
| `Lcov.ScanLine` | src/utils/coverage.ts:88-189 | The body of the scanning loop: what each line does, and which values are refused where |
| `Lcov.NameFile` | src/utils/coverage.ts:36-53 | A file state is created when the file is first named |
| `Lcov.AddUp` | src/utils/coverage.ts:192-213 | The loop over the files adds up measured lines and branches, or the declared totals where there are none |
| `Lcov.ParseLcovCoverage` | src/utils/coverage.ts:83-229 | The whole parse, its errors included |
| `Lcov.TotalWithout` | src/utils/coverage.ts:192-213 | The totals do not depend on the order of the files |
| `LcovText.LineByText` | src/utils/coverage.ts:93-111 | A line marks a line of the file if and only if its text is DA:line,hits with valid numbers, as hit if and only if hits are above 0 |
| `LcovText.BranchByText` | src/utils/coverage.ts:112-142 | A line names a branch if and only if its text is BRDA:line,block,branch,count, as taken if and only if the count has a digit other than 0 |
| `LcovText.AmountByText` | src/utils/coverage.ts:143-188 | A line declares an amount if and only if its text is LF:, LH:, BRF: or BRH: and that amount |
| `LcovText.MarkersByText` | src/utils/coverage.ts:88-92 | A block begins at SF: and a path, and ends at end_of_record |
| `LcovText.BlocksExactly` | src/utils/coverage.ts:88-92 | The blocks of any lines are exactly those from an SF line to the next marker, the last one perhaps to the end |
| `LcovText.StrayExactly` | src/utils/coverage.ts:143-188 | Branch data counts outside of blocks if and only if some line there declares branches |
| `LcovText.ShownByText` | src/utils/coverage.ts:112-188 | A line shows branch data if and only if it declares branches, or names one inside a block |
| `LcovText.InvalidByText` | src/utils/coverage.ts:93-188 | A line is invalid if and only if it declares no amount after such a prefix, or marks nothing after DA: or BRDA: inside a block |
| `LcovCoverage.CoverageExactly` | src/utils/coverage.ts:83-229 | The summary of any lines: totals over the files of their blocks of lines and branches counted by the text, or declared by it, with the percentages; and when there is none |
| `LcovReports.RunReport` | src/utils/coverage.ts:83-189 | Scanning any lines at all: if none is invalid where it stands, the contributions of the blocks are joined, with the branch data shown outside of them; otherwise the first invalid line is refused |
| `LcovReports.OnlyTheBlocksMatter` | src/utils/coverage.ts:83-229 | Any two accepted reports with the same set of blocks that agree on having branch data have the same outcome, whatever else they contain |
| `LcovReports.SplitOfPieces` | src/utils/coverage.ts:88-96 | A report put together from complete blocks and lines between them is accepted and splits into exactly those blocks |
| `LcovReports.RearrangingIsHarmless` | src/utils/coverage.ts:83-229 | Repeating, reordering and mixing complete blocks and lines between them does not change the outcome |
| `LcovReports.LineMeaning` | src/utils/coverage.ts:93-111 | A line counts for a file exactly when some block of the file has it, and as hit exactly when one of them hit it |
| `LcovReports.BranchMeaning` | src/utils/coverage.ts:112-142 | A file's branches are those that BRDA lines of its blocks name, taken exactly if one of them took it |
| `LcovReports.FallbackMeaning` | src/utils/coverage.ts:143-188 | A file's declared amounts are the greatest of the LF, LH, BRF and BRH lines of its blocks |
| `LcovReports.HitsWithinTotals` | src/utils/coverage.ts:192-229 | For any lines, if LH is at most LF and BRH at most BRF in each block, hits never exceed totals and percentages lie between 0 and 100; without a summary the lines are accepted exactly if the error is that none is instrumented |

## Left out

- Sockets, files, process spawning, the daemon registry, `start` and `stop` of the daemon, TCP host parsing: start-up and shutdown I/O the protocol does not depend on. Timers are explicit events, clocks are parameters, and a timer may fire at any moment after it was armed.
- The daemon's MCP message path (`connectSessionServer`, the proxied JSON-RPC traffic): only its effect on `lastSeen` is modelled. Runs are considered up to `stop()`.
- JSON: the frame codec is generic over an encoder and a partial decoder that inverts it. Random identifiers are numbers or fresh strings, and SHA-256 is not modelled.
- `toLowerCase` and `localeCompare` are parameters: any string function, and any strict total order. Strings that are different but compare equal under a locale (canonically equivalent Unicode) are outside the model.
- Number.parseInt is exact on all digit strings; the loss of precision above 2^53 in a numeric suffix is not modelled. `Number()` in LCOV lines is a parameter whose finite results are reals, so rounding of sums and percentages is not modelled.
- The input schema, summary and title of a tool travel through routing as opaque text; the default summary, description sanitising and the capability inference that yields the grouping are not modelled, the grouping is an input.
- Names and properties of JavaScript prototypes (`constructor`, `__proto__`) as server names: records are modelled as maps.
- Insertion order of maps, except where it matters: the live sessions, the recency list, the LCOV files and the grouping of routes are kept in order, other maps are not.
- Joining several content blocks of a response and the size threshold that triggers offloading; the order of the resource listing; strings with lone surrogates (texts are sequences of Unicode scalar values).
- Splitting an LCOV report into lines, and splitting a CSV file into rows: both models start from lines.
- The error texts of the policy and of the merge warnings; the interactive import UI; install writers, parsers for the configuration formats of each tool, the TUI, the SQLite index, retrieval scoring, embeddings and the semantic classifier.
- Upstream.labelText: the label is kept, but equality of configs ignores it.
- `CanonicalRouteId` of a route and the routed call itself: dispatch is modelled up to the qualified name it passes on, and `callTool` up to the tool that name resolves to.
- AreConfigsEqual: compares keys as sets; comparing sorted key arrays, as `areConfigsEqual` does, gives the same.
- DaemonServer.DaemonServer.HandleHello: a refused hello only sends the error; the disconnect that follows once the error is sent is an event of its own, and a run may end before it.
- RoutingBuilder.BuildCandidates: a candidate carries no `canonicalRouteId` and no computed summary.
- RoutingBuilder.BuildCapabilityRouters: likewise, the routes carry no `canonicalRouteId` and no computed summary.
- ResourceStore.ResponseResourceManager.ListResources: gives the listed entries by URI; their order and their metadata are left out.
- ResourceStore.ResponseResourceManager.Offload: takes the URI as a parameter and gives the preview; the pointer object with its byte count is left out.
