# roamd, verified

A Dafny model of the algorithms at the heart of roamd, the OpenWrt roaming and mesh daemon, with
proofs of what they promise. Each module follows one source file: an object that the C code
updates in place is a class with the same fields, a loop is a loop, and every such method is
proved against a specification function about which the promises are then proved as lemmas.

`dafny verify dfyconfig.toml` checks the whole project.

## The parts

**Unpacking package indexes** (`Bits`, `Canonical`, `Rfc1951`, `Alphabets`, `Parse`, `Huffman`, `Apk`,
`Inflate`, `Cut`). `Rfc1951` is an encoder for the compressed format of RFC 1951 (sections 3.2.2
to 3.2.7), block by block and bit by bit; `Parse` is its inverse, and the two are proved to be
inverses of each other. `Apk.Deflate` is the hand-written decoder, with its bit buffer, its
growing output and its copies that overlap their own output; `Huffman.Table` is its table
builder. The decoder is proved equal to the inverse of the encoder on every input, so that every
stream an encoder can write is unpacked to the bytes it stands for, and everything that is
accepted is such a stream, with two exceptions that are characterized exactly: a symbol 18 of a
list of code lengths whose extra bits are cut off by the end of the input counts as ten zeros, and a
stream of no bytes at all comes out as a failure. `Alphabets` says what the tables of the format
hold, without naming an entry.

**Digests** (`Fips180`, `FipsConstants`, `Sha256`). FIPS 180-4 on one whole message, and the streaming
implementation with a 64-byte buffer, which reaches the same hash however the message is cut.

**Version order** (`StringOrder`, `MeshPkg`). The two-pointer comparison of versions equals the
lexicographic order of the numbers and separators read by `strtoul`.

**Polling** (`MeshPoll`, `PollMarks`). A round of polling as a state machine whose environment decides
when calls are answered, which sends fail and when the watchdog fires; and what it leaves behind for
each node.

**Requests** (`MeshRpc`, `RpcReplies`, `RpcSessions`). The table of sessions and the request with its
login, retry and new login, as a state machine over network events; what becomes of every reply; and
both together, among other requests that store and forget sessions.

**Events** (`MeshLog`, `Replication`, `Interleaving`). The two rings of the event log, and what a controller
holds after any sequence of overlapping reports of a node, and of several nodes in turns.

**Moving clients between devices** (`MeshSteer`). Sorting all observations and working group by
group does what the plain scan would do, whatever algorithm `qsort` uses.

**Key holders** (`KeyHolders`, `KeyHolderText`, `CrowdedOut`). The list of 802.11r key holders, any change of which restarts radios.

**The backhaul tree** (`Uplinks`, `MeshChain`, `MeshProfile`, `MeshNode`, `ChainSafety`, `ParentChoice`).
`Uplinks` is the theory of graphs in which each node has at most one uplink; the other modules are
the controller's depths and chains, the search in a chain, the records a node keeps as possible
parents, and its choice among them.

**The roaming policy** (`RoamConfig`, `Station`, `Policy`, `PolicyRuns`, `Refusals`, `Spacing`,
`Flaps`, `PingPong`). The record of a client, refusals and requests to move, and whole runs of all events that
touch a record.

Time is a number of milliseconds above zero that never goes back. Memory is always available.

## What the proofs brought to light

- A compressed stream that ends inside the extra bits of symbol 18 is accepted
  (`Cut.CutInputAccepted` gives one of 16 bytes). It takes fewer than seven bits left in the input.
- A well-formed stream that expands to nothing comes out as null, which every caller takes for a
  failure (`Inflate.EmptyStreamFails`).
- `config_sanitize` triples the hold time in 32 bits. From 1431655766 to 2147483647 ms, and above
  2863311530 ms, the tripled age time is shorter than the hold time (`RoamConfig.AgeCoversHoldIff`).
- Where `kick_rssi` is above `rssi_good` and `rssi_diff` is more than one, a client that obeys every
  request can be sent back and forth without end (`PingPong.NoPingPongIff`, `PingPong.NeverSettles`).
- The pause of five seconds between two requests to a client does not outlive its record
  (`Spacing.SpacingIff`, `Spacing.ForgottenPause`).
- `docs/HOW_IT_WORKS.md:217-218` says that a client that twice returns to the band it was asked to
  leave is left alone for fifteen minutes. In the code, going where it was asked to go resets the
  count of its returns, unless the client was disconnected on the way: one that roams without a break
  is never left alone (`Flaps.NoPauseWithoutBreak`, `Flaps.ReturnsForEver`). The pause does not bind
  the controller either (`Flaps.ControllerIgnoresPause`). The model follows the code.
- An empty version is equal to every version, so the order of versions is transitive only where the
  middle one is not empty (`MeshPkg.EmptyIsNoMiddle`).
- A device that answers logins with an empty session is asked to log in without bound
  (`RpcSessions.BlankSessions`); with sessions that last until they are used there are at most four
  requests (`RpcSessions.AtMostFourRequests`).
- The controller writes at most half of a parent's chain into a chain. With ids of six characters the
  record of a thirteenth member in a line no longer names the twelfth, which can follow it into a circle
  (`ChainSafety.ThirteenthLoops`, `ChainSafety.RecordSafeIff`).
- Two nodes that move at the same time, each on a list of parents from before the other's move,
  can end up under each other (`MeshNode.StaleListsLoop`).
- `docs/MESH.md:437-438` says that an entry of the key holder list leaves only with its owner or for
  a fresh one of the same address. In the code it also leaves when sixteen others fill the list
  (`CrowdedOut.EntryLeaves`, `KeyHolders.AddressLeavesIff`); the model follows the code.

## Model

| member | source | states |
|---|---|---|
| Canonical.LeftKraft | package/roamd/src/apk.c:150-154 | counting down the free codes of each length computes 2^15 minus the Kraft sum |
| Canonical.NotPrefix | package/roamd/src/apk.c:169-188 | no codeword of section 3.2.2 of RFC 1951 is a prefix of a longer one, when the Kraft sum is at most one |
| Canonical.Unique | package/roamd/src/apk.c:169-188 | at most one symbol's codeword can stand at a place of a bit string |
| Canonical.RangeRead | package/roamd/src/apk.c:180-181 | bits whose number lies in the range of a length are the codeword of a symbol of that length |
| Canonical.SlotInjective | package/roamd/src/apk.c:158-164 | the table sorted by length and symbol gives every symbol its own place |
| Alphabets.LengthTable | package/roamd/src/apk.c:61-69 | each length symbol takes up where the one before it ends, from 3 on; the last stands for 258 alone; the number of extra bits by the symbol |
| Alphabets.DistTable | package/roamd/src/apk.c:71-79 | the same for the distances, from 1 to 32768 |
| Alphabets.InOrder | package/roamd/src/apk.c:232-245 | a greater symbol stands for a greater length, or a greater distance |
| Alphabets.CopiesOnce | package/roamd/src/apk.c:232-245 | every length from 3 to 258 with every distance from 1 to 32768, and no other, is that of a copy, and of only one without symbol 28 |
| Alphabets.RunsOnce | package/roamd/src/apk.c:316-342 | a run of 3 to 138 zeros or of 3 to 6 repetitions is written in one way, and no other run is |
| Alphabets.OrderOutward | package/roamd/src/apk.c:282-284 | the order in which a dynamic block sends its code length code: runs, no code, then from the middle outward |
| Alphabets.FixedLitCodes | package/roamd/src/apk.c:257-278 | the codewords of the fixed code are those that section 3.2.6 of RFC 1951 lists |
| Alphabets.FixedDistCodes | package/roamd/src/apk.c:257-278 | fixed distance codes are five bits, in order |
| Huffman.Table.CountLengths | package/roamd/src/apk.c:143-146 | the counts are those of the code lengths |
| Huffman.Table.Build | package/roamd/src/apk.c:138-167 | negative exactly when the Kraft sum exceeds one, zero exactly when it is one or there are no codes, otherwise the free room; and unless negative the table decodes the canonical code |
| Huffman.Table.FillSlots | package/roamd/src/apk.c:162-164 | every used symbol lands in the place its code counts to |
| Apk.Deflate.ReadBits | package/roamd/src/apk.c:97-112 | the next bits, least significant first, exactly as many as asked for, or -1 exactly when the input ends before; less than a byte stays buffered |
| Apk.Deflate.Reserve | package/roamd/src/apk.c:114-136 | room is made exactly when the output stays within 64 MiB, and the output so far is kept |
| Apk.Deflate.Decode | package/roamd/src/apk.c:169-188 | the symbol whose codeword comes next, taking its length in bits, and negative exactly when no codeword does |
| Apk.StoredHeader | package/roamd/src/apk.c:199-205 | the complement test passes exactly when the four bytes are a length and its complement |
| Apk.StoredIs | package/roamd/src/apk.c:190-214 | the block from the next byte boundary on, byte by byte |
| Apk.Deflate.Stored | package/roamd/src/apk.c:190-214 | a stored block resumes at the next byte, adds exactly its bytes, and fails exactly when it is malformed, cut or too large |
| Apk.TileBack | package/roamd/src/apk.c:249-250 | each byte of a match is the one a distance before it, even where the match itself wrote it |
| Apk.Deflate.CopyBack | package/roamd/src/apk.c:249-250 | the copy loop appends the tiling of the last distance bytes, never reading outside the output |
| Apk.Deflate.ReadMatch | package/roamd/src/apk.c:232-240 | the length and distance of a match from its symbols and extra bits |
| Apk.CodesStep | package/roamd/src/apk.c:216-255 | what a compressed block adds can be worked out one token at a time |
| Apk.Deflate.Codes | package/roamd/src/apk.c:216-255 | the tokens up to the end of the block are expanded exactly as RFC 1951 does, or the block is rejected; unread bits decrease with every token |
| Apk.Deflate.FixedCodes | package/roamd/src/apk.c:257-278 | the tables of section 3.2.6 of RFC 1951 |
| Apk.LensStep | package/roamd/src/apk.c:316-342 | the list of code lengths can be worked out one element at a time |
| Apk.Deflate.ReadLens | package/roamd/src/apk.c:316-342 | the run-length coded list of code lengths, with the reading of a symbol 18 that is cut off |
| Apk.Deflate.ReadRaw | package/roamd/src/apk.c:302-307 | the lengths of the code length code go to the places section 3.2.7 of RFC 1951 orders them in |
| Apk.Deflate.BuildAcceptable | package/roamd/src/apk.c:344-350 | accepted exactly when the code is complete, empty or has one used symbol |
| Apk.Deflate.Dynamic | package/roamd/src/apk.c:280-353 | a block with its own codes is expanded or rejected as its parser does |
| Apk.BlockKinds | package/roamd/src/apk.c:378-388 | one decoder for each block type, none for the reserved one |
| Apk.Deflate.Block | package/roamd/src/apk.c:376-390 | one block, with whether it is the last one |
| Apk.AdbInflate | package/roamd/src/apk.c:355-399 | on every input, the bytes the inverse of the encoder gives, and null exactly when that rejects the input or gives no bytes; the block loop ends |
| Parse.TokensSound | package/roamd/src/apk.c:216-255 | tokens that are read are well formed and stand where they were read |
| Parse.TokensComplete | package/roamd/src/apk.c:216-255 | tokens that the encoder wrote are read back |
| Parse.LensSound | package/roamd/src/apk.c:316-342 | elements of the code length list that are read stand where they were read |
| Parse.LensComplete | package/roamd/src/apk.c:316-342 | elements the encoder wrote are read back |
| Parse.BlocksSound | package/roamd/src/apk.c:376-390 | blocks that are read are well formed and stand where they were read |
| Parse.BlocksComplete | package/roamd/src/apk.c:376-390 | blocks the encoder wrote are read back, and the expansion is the same |
| Parse.TablesFit | package/roamd/src/apk.c:344-350 | the codes of every accepted block are prefix-free |
| Parse.InflateIff | package/roamd/src/apk.c:376-390 | exactly the encodings are accepted, each with the expansion of its blocks |
| Parse.EncodingUnique | package/roamd/src/apk.c:376-390 | no bit string encodes two lists of blocks |
| Inflate.RoundTrip | package/roamd/src/apk.c:355-399 | what an RFC 1951 encoder writes within the decoder's limits is unpacked to the bytes its blocks stand for, with any bits after it, exactly when these are any bytes at all |
| Inflate.EmptyStreamFails | package/roamd/src/apk.c:114-120 | a container of an empty stored block, which RFC 1951 allows and whose unpacking is null |
| Inflate.OutputBound | package/roamd/src/apk.c:114-136 | the output is at most 1032 times as long as the input, whatever the input |
| Inflate.TokensBound | package/roamd/src/apk.c:216-255 | at most 129 bytes of output for a bit of input, token by token |
| Inflate.AcceptedIff | package/roamd/src/apk.c:331-334 | blocks that are accepted are ones RFC 1951 describes exactly when no symbol 18 was cut off, and always with seven bits left over |
| Cut.CutInputAccepted | package/roamd/src/apk.c:331-334 | an input that is unpacked to a byte although no RFC 1951 encoder writes it |
| Fips180.ZeroCountIsLeast | package/roamd/src/sha256.c:107-111 | the padding has the least number of zero bits section 5.1.1 of FIPS 180-4 asks for |
| Fips180.PaddedLength | package/roamd/src/sha256.c:103-118 | under 2^61 bytes the last eight bytes are the length in bits |
| Fips180.PaddedInjective | package/roamd/src/sha256.c:101-118 | two messages with the same padding are the same |
| Fips180.PaddedBits | package/roamd/src/sha256.c:101-118 | bit by bit the padding is the message, a one, the least number of zeros that fills a block, and the length |
| FipsConstants.CubeRoots | package/roamd/src/sha256.c:13-25 | the constants of the rounds are the first 32 bits of the fractional parts of the cube roots of the first sixty-four primes |
| FipsConstants.SquareRoots | package/roamd/src/sha256.c:69-72 | the initial value, likewise, from the square roots of the first eight primes |
| Sha256.PackedIsBigEndian | package/roamd/src/sha256.c:37-39 | the shifted and or-ed bytes are the big-endian word |
| Sha256.ScheduleNext | package/roamd/src/sha256.c:41-46 | the terms in the order of the code give the schedule of section 6.2.2 |
| Sha256.State.Block | package/roamd/src/sha256.c:32-65 | one block of section 6.2.2 of FIPS 180-4 on the chaining value |
| Sha256.WholeGrows | package/roamd/src/sha256.c:94-97 | a full buffer adds exactly one block to the chaining value |
| Sha256.State.Update | package/roamd/src/sha256.c:79-99 | the bytes follow those already seen; the buffer holds the rest of the message and is never full |
| Sha256.OctetAt | package/roamd/src/sha256.c:113-114 | octet i of the length is the number shifted right and cut to a byte |
| Sha256.State.Pad | package/roamd/src/sha256.c:104-111 | the byte-at-a-time loop ends, with the padding of section 5.1.1 |
| Sha256.State.Final | package/roamd/src/sha256.c:101-122 | the hexadecimal text of the hash of everything seen |
| Sha256.TextReads | package/roamd/src/sha256.c:120-121 | the text holds eight hexadecimal digits for each word of the hash, in order, and reads back as it |
| Sha256.HashFile | package/roamd/src/sha256.c:124-147 | the text of the hash of the file, however it is cut into reads |
| Sha256.HashData | package/roamd/src/sha256.c:149-161 | the text of the hash of the data |
| StringOrder.SortedUnique | package/roamd/src/mesh_poll.c:354-357 | strings can be sorted by strcmp in one way only, whatever qsort does |
| MeshPkg.StrtoulReads | package/roamd/src/mesh_pkg.c:660-667 | what strtoul reads, over the places of white space, sign and digits |
| MeshPkg.KeyStep | package/roamd/src/mesh_pkg.c:660-677 | one round decides, or leaves the rest of both versions to decide |
| MeshPkg.MeshPkgNewer | package/roamd/src/mesh_pkg.c:652-680 | the loop ends inside both strings with the lexicographic order of numbers and separators |
| MeshPkg.Antisymmetric | package/roamd/src/mesh_pkg.c:652-680 | swapping the versions flips the result |
| MeshPkg.Transitive | package/roamd/src/mesh_pkg.c:652-680 | the order is transitive, also strictly, around a middle version that is not empty |
| MeshPkg.EqualIff | package/roamd/src/mesh_pkg.c:652-680 | two versions are equal exactly when they read as the same numbers and separators |
| MeshPkg.EmptyIsNoMiddle | package/roamd/src/mesh_pkg.c:657-658 | three strings on which the order is not transitive, whatever the width of an unsigned long |
| MeshPkg.DottedOrder | package/roamd/src/mesh_pkg.c:652-680 | dotted numbers are ordered as the lists of their numbers |
| MeshPoll.StepInv | package/roamd/src/mesh_poll.c:460-569 | every event keeps the invariant of the round, its calls in flight and its outcomes |
| MeshPoll.EveryRun | package/roamd/src/mesh_poll.c:460-705 | in every run: a round under way waits for exactly its own calls in flight, no current call outlives its round, and every finished round gave each member one outcome and steered once |
| MeshPoll.LateReplyIsIgnored | package/roamd/src/mesh_poll.c:541-569 | in every run, what arrives for an older round changes nothing |
| MeshPoll.OneOutcomeEach | package/roamd/src/mesh_poll.c:472-476 | a finished round has one outcome for each polled member and no more |
| PollMarks.WhatARoundLeaves | package/roamd/src/mesh_poll.c:472-539 | in every run, when a round is over: polled were the configured members up to the limit, in order; each is online exactly when its outcome was a report, and then has no misses, otherwise one more than its id had when the round before ended, none if it was not there |
| PollMarks.ReportsAreReplies | package/roamd/src/mesh_poll.c:541-569 | in every run the outcome is a report exactly for the nodes that answered a call of that round |
| PollMarks.MissedInARow | package/roamd/src/mesh_poll.c:472-476 | in every run, an id missed in n rounds in a row after a report, or after not being polled, has n misses and is offline |
| PollMarks.LateThenInTime | package/roamd/src/mesh_poll.c:478-555 | a run in which a late answer changes nothing and an answer in time brings the node back |
| MeshPoll.RunInv | package/roamd/src/mesh_poll.c:625-705 | starting a round, with any sends failing at once, establishes the invariant or finishes the round |
| MeshPoll.FinishOpen | package/roamd/src/mesh_poll.c:460-470 | counting down leaves the round open, or, at the last outstanding node, complete with the steering pass run once |
| MeshPoll.ReportOne | package/roamd/src/mesh_poll.c:495-539 | an outcome of a node that had none keeps the round open with that outcome added, or completes it |
| MeshPoll.Poll.ReportCb | package/roamd/src/mesh_poll.c:546-555 | the step of the machine for a reply |
| MeshPoll.Poll.ApplyCb | package/roamd/src/mesh_poll.c:557-569 | the step of the machine for the answer to a profile, which is followed by a second call or a miss |
| MeshPoll.Poll.WatchdogCb | package/roamd/src/mesh_poll.c:478-493 | the step of the machine: every node without an answer is missed, and the round ends |
| MeshPoll.Poll.MeshPollRun | package/roamd/src/mesh_poll.c:625-705 | the step of the machine: members are added up to the limit, misses carried over by id |
| MeshRpc.GetAfterSet | package/roamd/src/mesh_rpc.c:50-97 | a stored session is found again until it expires, unless it is empty |
| MeshRpc.GetOther | package/roamd/src/mesh_rpc.c:50-97 | storing a session costs another id its own only when the table is full and its own is the oldest |
| MeshRpc.GetAfterForget | package/roamd/src/mesh_rpc.c:99-105 | a forgotten session is not found |
| MeshRpc.SessionTable.Search | package/roamd/src/mesh_rpc.c:50-76 | the slot of an id, or the free or oldest slot a new session takes |
| MeshRpc.SessionTable.SessionSet | package/roamd/src/mesh_rpc.c:88-97 | the session is stored and found again until it expires, and no id gets a second slot |
| MeshRpc.StepInv | package/roamd/src/mesh_rpc.c:126-277 | every network event and timer keeps the invariant of the request |
| MeshRpc.EveryRun | package/roamd/src/mesh_rpc.c:126-429 | in every run, whatever each start finds in the table: an unfinished request is owed an event, the callback has fired exactly once when it is done and never before, and at most four HTTP requests are made, plus one for each session that was unusable when needed |
| RpcReplies.ReplyIs | package/roamd/src/mesh_rpc.c:174-247 | on the elements of a reply: a call succeeds, with its first table, exactly when every number before the first table is zero, or every number without one; what is refused is tried once more after a new login; a login takes the first session |
| RpcReplies.SuccessIff | package/roamd/src/mesh_rpc.c:126-158 | the callback then reports success with that result, or failure, exactly as the reply to the call was |
| RpcReplies.SuccessIsTold | package/roamd/src/mesh_rpc.c:126-247 | in every run a caller told of success read such a reply while not logging in, gets its result, and no error came after it |
| RpcSessions.AtMostFourRequests | package/roamd/src/mesh_rpc.c:50-158 | in every run together with the shared table, where a login's session is neither emptied, evicted, forgotten nor expired before its use, no session is unusable and at most four HTTP requests are made |
| RpcSessions.SetHolds | package/roamd/src/mesh_rpc.c:50-97 | a held session outlives every store but an empty one of its own and one that evicts it |
| RpcSessions.KeptGood | package/roamd/src/mesh_rpc.c:126-158 | every act of the request and of others keeps the session of a login held until the call proper uses it |
| RpcSessions.BlankSessions | package/roamd/src/mesh_rpc.c:126-158 | for every n, a run with n sessions found blank in the table and four and n HTTP requests, so that the bound is reached |
| MeshRpc.Request.FinishCb | package/roamd/src/mesh_rpc.c:126-158 | the step of the machine when the timer fires |
| MeshRpc.Request.RespParse | package/roamd/src/mesh_rpc.c:174-247 | the step of the machine for a reply, and the session it stores |
| MeshLog.Source.Has | package/roamd/src/mesh_log.c:100-109 | whether the pair is among the remembered ones |
| MeshLog.Source.Add | package/roamd/src/mesh_log.c:111-122 | the ring remembers the newest hundred pairs in order |
| MeshLog.Log.Push | package/roamd/src/mesh_log.c:135-204 | the ring holds the newest two hundred events; the event gets the next number, and a time if it has none |
| MeshLog.Log.Dump | package/roamd/src/mesh_log.c:319-334 | the newest events of the ring, newest first |
| MeshLog.Log.Ingest | package/roamd/src/mesh_log.c:355-412 | exactly the events of the report that are not remembered are pushed, oldest first |
| Replication.ShownIs | package/roamd/src/mesh_log.c:378-412 | the sequence of shown events lists the events of all reports, each once, in the node's order |
| Replication.ExactlyOnce | package/roamd/src/mesh_log.c:378-412 | after any run of reports of a growing log, exactly the shown events were pushed, each once and in the node's order, although only a hundred keys are remembered |
| Replication.NodeReports | package/roamd/src/mesh_log.c:190-204 | the log a node keeps has distinct keys, and what it dumps is the report assumed |
| Interleaving.ExactlyOnceEach | package/roamd/src/mesh_log.c:355-412 | after any run of reports of several nodes and of the controller's own events, its history holds of each node exactly the shown events, each once and in that node's order |
| MeshSteer.SortedSame | package/roamd/src/mesh_poll.c:745-757 | observations can be sorted in one way only |
| MeshSteer.GroupIs | package/roamd/src/mesh_poll.c:759-781 | a group holds exactly the observations of its address, node by node |
| MeshSteer.ScannedBest | package/roamd/src/mesh_poll.c:879-918 | the scan finds the first of the strongest eligible observations, or that there is none |
| MeshSteer.YoungestStays | package/roamd/src/mesh_poll.c:783-806 | every address that is associated keeps an association, the youngest one |
| MeshSteer.Pass.GhostsDrop | package/roamd/src/mesh_poll.c:783-806 | exactly the associations that are not their address's youngest are dropped and cleared |
| MeshSteer.Pass.SteerClient | package/roamd/src/mesh_poll.c:879-933 | the move the rule gives for this client, or none |
| MeshSteer.NaiveIs | package/roamd/src/mesh_poll.c:879-933 | a group decides as the scan of all observations of all nodes would |
| MeshSteer.EligibleIff | package/roamd/src/mesh_poll.c:893-901 | which observations count as a place to go |
| MeshSteer.NaiveIff | package/roamd/src/mesh_poll.c:879-932 | a client is asked to move exactly when it is one of a network for roaming, its first strongest place is on another node, and its own node is not admitted or the gain over the last signal at home is enough; the request goes to its own node, with its address and the id of that place, which is up, has the network and admits it |
| MeshSteer.MovesMade | package/roamd/src/mesh_poll.c:935-951 | the pass makes one such request for each observation that calls for it, in order, and no other |
| MeshSteer.GhostIff | package/roamd/src/mesh_poll.c:783-806 | an association is left behind exactly when its client has a younger one |
| MeshSteer.Pass.SteerRound | package/roamd/src/mesh_poll.c:935-954 | exactly the moves of the plain rule, one request for each observation it moves, and exactly the associations left behind are dropped |
| KeyHolders.KeepableEntry | package/roamd/src/mesh_poll.c:359-373 | an entry may stay exactly when its name is that of the controller or a member and its address is not the empty one |
| KeyHolders.KeptShape | package/roamd/src/mesh_poll.c:421-430 | what is kept of the old list are tokens that may stay, of addresses not listed before, each address once |
| KeyHolders.IdempotentIff | package/roamd/src/mesh_poll.c:388-458 | rebuilding the rebuilt list from the same reports changes nothing exactly when no kept entry lost its right to stay by being cut to the room for one |
| KeyHolders.Idempotent | package/roamd/src/mesh_poll.c:388-458 | so it is for every list whose entries fit that room |
| KeyHolderText.RefreshAgainIff | package/roamd/src/mesh_poll.c:446-457 | a second refresh from the same reports finds the text it would write, under the same condition |
| KeyHolders.StaysIff | package/roamd/src/mesh_poll.c:388-458 | a list with one place for each address stays as it is exactly when it is sorted, names every reported access point, and holds nothing else but what may stay |
| KeyHolders.OfflineNodesStay | package/roamd/src/mesh_poll.c:397-401 | a list that names all access points stays whichever nodes are offline |
| KeyHolderText.TextStays | package/roamd/src/mesh_poll.c:446-457 | the same for its text, so that no radio is restarted |
| KeyHolders.AddressStays | package/roamd/src/mesh_poll.c:421-430 | the address of an entry that may stay is in the new list unless sixteen entries fill it |
| KeyHolders.AddressLeavesIff | package/roamd/src/mesh_poll.c:421-430 | the address of an entry that may stay leaves exactly when the fresh entries and the old ones before it fill the list without it |
| CrowdedOut.EntryLeaves | package/roamd/src/mesh_poll.c:403-430 | two nodes of eight access points, and an entry that leaves although its owner is a member and nobody reports its address |
| KeyHolders.ReportsIff | package/roamd/src/mesh_poll.c:397-417 | the fresh entries are exactly those of the access points for clients of nodes that are online, each with its address and the name of its node and band |
| KeyHolders.ReportedIsIn | package/roamd/src/mesh_poll.c:397-417 | every reported access point among the first sixteen is in the new list |
| KeyHolderText.WordsOfJoined | package/roamd/src/mesh_poll.c:421-444 | reading the text back gives the entries |
| KeyHolderText.TextFits | package/roamd/src/mesh_poll.c:436-444 | sixteen entries always fit the text, so that its loop never stops early |
| KeyHolderText.KeyList.Refresh | package/roamd/src/mesh_poll.c:388-458 | the text becomes that of the rebuilt list, and radios are told exactly when it differs |
| Uplinks.ReachesOnce | package/roamd/src/mesh_profile.c:157-197 | the way of a member to the root is unique |
| Uplinks.ClosedNever | package/roamd/src/mesh_profile.c:181-194 | from members that only link to each other no root is reached |
| Uplinks.MoveAcyclic | package/roamd/src/mesh_node.c:403-440 | moving a node to a place that is attached without it makes no circle |
| MeshChain.ChainHasIff | package/roamd/src/mesh.c:296-309 | an id, not empty and without dashes, is found exactly when it is one of the pieces between dashes: stepping over an occurrence loses none |
| MeshChain.MeshChainHas | package/roamd/src/mesh.c:296-309 | the answer of the search for every id, and membership among the pieces for one without dashes |
| MeshChain.DashedIdMissed | package/roamd/src/mesh.c:301-306 | an id with dashes that a chain ends in and the search does not find |
| MeshChain.TokensOfJoin | package/roamd/src/mesh_profile.c:186-189 | ids without dashes are found again in the joined chain |
| MeshProfile.UplinkIff | package/roamd/src/mesh_profile.c:157-181 | where each member is attached: wired, under the controller, under the first member with the access point it names, or nowhere |
| MeshProfile.SameMacIff | package/roamd/src/mesh_profile.c:119-149 | addresses are equal exactly when they are but for the case of letters |
| MeshProfile.ChainIsPath | package/roamd/src/mesh_profile.c:186-189 | a chain lists the ids of the way from the root exactly when its parent's chain fits the half that is left for it |
| MeshProfile.Profile.MemberByBssid | package/roamd/src/mesh_profile.c:135-155 | the first member with this access point, or -1 exactly when there is none |
| MeshProfile.Profile.MemberDepth | package/roamd/src/mesh_profile.c:157-197 | ends on any graph; what it remembers is right, and marks in progress keep it out of circles |
| MeshProfile.Profile.Depths | package/roamd/src/mesh_profile.c:157-197 | every depth is the one by definition, none exactly for members with no way to a root, in whatever order members are asked for |
| MeshNode.OwnerOfJoin | package/roamd/src/mesh_node.c:391-399 | the owner of a record is the last id of its chain |
| MeshNode.ChainNames | package/roamd/src/mesh_node.c:391-440 | a chain names exactly the nodes on its owner's way |
| MeshNode.MoveIff | package/roamd/src/mesh_node.c:403-440 | a node has a way to the root under an owner exactly when it is not on the owner's own way |
| MeshNode.MoveIsSafe | package/roamd/src/mesh_node.c:403-440 | following a record whose chain does not name the node makes no circle and costs nobody the way to the root, and no other record would do |
| MeshNode.MoveToControllerIsSafe | package/roamd/src/mesh_node.c:391-399 | a node may always move under the controller |
| MeshNode.StaleListsLoop | package/roamd/src/mesh_node.c:403-440 | two moves on lists that are not current can make a circle |
| ChainSafety.CutForgetsParent | package/roamd/src/mesh_profile.c:183-191 | the record of a member whose parent's chain was cut does not name that parent |
| ChainSafety.RecordSafeIff | package/roamd/src/mesh_profile.c:183-191 | the record the controller writes for a member is safe for all who keep it exactly when the chain of the member's parent fits half the room |
| ChainSafety.KeptRecordIsSafe | package/roamd/src/mesh_node.c:403-440 | a node that keeps such a record of the controller's graph moves without a circle, and nobody loses the way to the root |
| ChainSafety.ThirteenthLoops | package/roamd/src/mesh_profile.c:183-191 | a line of thirteen members whose twelfth keeps the thirteenth's record and closes a circle |
| MeshNode.KeptAre | package/roamd/src/mesh_node.c:375-440 | which records are usable: a radio for the band, a chain without the node, an owner the node is limited to; exactly these, in order |
| MeshNode.ParentsFill | package/roamd/src/mesh_node.c:403-440 | exactly the usable records are kept, in order, up to the limit |
| ParentChoice.Group | package/roamd/src/mesh_node.c:778-792 | the first of the strongest records of one owner on each band, every record of the owner done |
| ParentChoice.BestStep | package/roamd/src/mesh_node.c:794-796 | a new owner's pick replaces the best one exactly when it is better |
| ParentChoice.PickIff | package/roamd/src/mesh_node.c:732-742 | an owner is represented by the first of the strongest records of one band: 5 GHz where the strongest there is neither too weak nor too much weaker than any of 2.4 GHz |
| ParentChoice.BestIsChosen | package/roamd/src/mesh_node.c:719-763 | no owner that may be considered has a pick of a higher class, or of that class with fewer hops, or with as many hops and a stronger signal |
| ParentChoice.Choose | package/roamd/src/mesh_node.c:765-800 | -1 exactly when no eligible owner was heard, otherwise the pick of one owner, with no other owner's pick ahead of it in class, hops and signal |
| ParentChoice.Select | package/roamd/src/mesh_node.c:802-807 | a penalised owner is chosen only when every owner heard is penalised |
| RoamConfig.SanitizedIsSane | package/roamd/src/config.c:367-381 | the configuration is made sane, a sane one whose age covers its hold time is left alone, and doing it once is enough where the age covers the hold time |
| RoamConfig.LeastRepair | package/roamd/src/config.c:367-381 | a value is raised no further than it must be, and nothing else is changed but the age time and a good signal below the bad one |
| RoamConfig.AgeCoversHoldIff | package/roamd/src/config.c:377-378 | the age covers the hold time exactly when it did before, or tripling does not wrap around, or wraps around once to something as long |
| RoamConfig.AdmitSomeBand | package/roamd/src/config.c:222-237 | a rule never keeps a client off every band of a device it may use |
| RoamConfig.LockedTo | package/roamd/src/config.c:222-237 | a client locked to a band gets that band alone, unless nothing serves it |
| Policy.PolicyAllow | package/roamd/src/policy.c:49-105 | a refusal of a client without a rule is no association, outside the time of grace, and one of a series shorter than the deny time whose start is remembered; the attempt is refused exactly when a rule or `Withheld` says so; nothing but the two times of refusals is written |
| Policy.AllowIff | package/roamd/src/policy.c:49-104 | exactly which attempts are refused |
| Policy.AllowLeaves | package/roamd/src/policy.c:70-104 | what an attempt leaves behind: the start of the series, its end, and the time of grace after one as long as the deny time |
| PolicyRuns.SteerStep | package/roamd/src/policy.c:161-163 | an event is a request to move only within the limits, and then counts against them; a new connection starts the count anew |
| PolicyRuns.WhoIsAsked | package/roamd/src/policy.c:219-313 | exactly who is asked to move in a pass, who is disconnected, and who is sent a beacon request: by the two signals, the connection, the rules and the limits |
| PolicyRuns.AskedAfterHold | package/roamd/src/policy.c:280-288 | in every run a pass only asks a client that has been connected, without a break, for the hold time |
| PolicyRuns.BandAskedToLeave | package/roamd/src/policy.c:137-163 | the band a client is asked to leave is the one it was on; the controller's plain request names none |
| Policy.PolicyTurn | package/roamd/src/policy.c:280-313 | a request was within the limits and is counted, at most up to steer_retries; a disconnection only where it is allowed and the client knows no 802.11v; what was heard is kept, and a beacon request is taken off the budget |
| Policy.PolicyRun | package/roamd/src/policy.c:253-314 | what a pass does to the whole table, the budget handed from client to client |
| Policy.AtMostFourBeacons | package/roamd/src/policy.c:253-314 | one pass sends at most four beacon requests |
| Policy.MeshNodeSteer | package/roamd/src/mesh_node.c:2065-2124 | the same limits bind the controller's request, and it is answered with whether it was carried out |
| PolicyRuns.NoLockout | package/roamd/src/policy.c:70-104 | in every run, while the record lives, two refusals on a band with no acceptance between them are less than the deny time apart |
| PolicyRuns.AcceptedAfterGivingUp | package/roamd/src/policy.c:73-100 | in every run, while the record lives, after giving up every attempt on the band is accepted for the age time |
| PolicyRuns.WhoIsRefused | package/roamd/src/policy.c:49-104 | a client without a rule is refused exactly when it tries anything but an association, at a managed and paired access point of the band not preferred, with steering on, outside its time of grace, lately heard well on the other band and not rssi_diff better here, in a series shorter than the deny time |
| Refusals.RefusedUntilDenyTime | package/roamd/src/policy.c:70-104 | in every run a client that keeps trying so is refused at each attempt until the deny time after the first one, and then let in with a time of grace |
| Refusals.RefusedWasHeard | package/roamd/src/policy.c:70-86 | in every run whoever is refused was heard on the other band within the check time, last with a signal of rssi_good or better |
| PolicyRuns.Handle | package/roamd/src/bss.c:413-544 | the handlers of the code together make the steps of the machine whose runs follow |
| PolicyRuns.RequestsAreSpaced | package/roamd/src/policy.c:211-217 | in every run, while the record lives, any two requests to a client, local or of the controller, are five seconds apart, also across connections |
| Spacing.SpacedAcrossRecords | package/roamd/src/sta.c:70-89 | in every run, across records, requests to clients just heard are apart by the shorter of five seconds and one millisecond more than the age time |
| Spacing.SpacingIff | package/roamd/src/sta.c:70-89 | such requests are five seconds apart in every run exactly when the age time is at least 4999 ms |
| PolicyRuns.RequestsAreBounded | package/roamd/src/policy.c:211-217 | in every run, requests and disconnections within one connection are at most steer_retries, local and of the controller together |
| Spacing.ForgottenPause | package/roamd/src/sta.c:70-89 | whatever the age time, a run with two requests in one millisecond, the first to a client long unheard that then leaves and is forgotten |
| PolicyRuns.PauseIsKept | package/roamd/src/policy.c:290-295 | in every run, while the record lives, no pass of the device asks a client that is left alone to move for fifteen minutes, unless it crosses bands and that is no return |
| Flaps.ControllerIgnoresPause | package/roamd/src/mesh_node.c:2074-2088 | the controller's request is carried out exactly when the client is connected and within the limits of its connection, pause or no pause |
| Flaps.AskedDuringPause | package/roamd/src/mesh_node.c:2074-2116 | a run in which the controller asks five seconds into the pause |
| Flaps.PausedIff | package/roamd/src/sta.c:130-143 | in every run the pause is set exactly at a return that follows another one with no other crossing in between, such as going where it was asked to go |
| Flaps.NoPauseWithoutBreak | package/roamd/src/sta.c:130-143 | in every run in which the client is never disconnected it is never left alone |
| Flaps.ReturnsForEver | package/roamd/src/sta.c:130-143 | runs in which passes ask a client away and it returns, any number of times, with no pause |
| PolicyRuns.BeaconsAreSpaced | package/roamd/src/policy.c:113-125 | in every run, while the record lives, two beacon requests to a client are beacon_req_interval apart |
| PolicyRuns.PassIsStep | package/roamd/src/policy.c:280-313 | a pass over the table is one event in the run of each client |
| PingPong.LeavesBothIff | package/roamd/src/policy.c:219-251 | with constant signals a client is asked to leave both bands exactly when its preferred one is good enough to be sent to and below the threshold for leaving |
| PingPong.NeverAskedOnBoth | package/roamd/src/policy.c:280-313 | in a calm configuration no two passes, whatever the state of the limits, ask a client with the same signals to leave one band and the other |
| PingPong.KnowsAlways | package/roamd/src/policy.c:219-251 | in every run of constant signals a record never knows other ones, and knows that of the band where the client is |
| PingPong.SettlesAfterOne | package/roamd/src/policy.c:253-314 | in every run of the policy on an obedient client with constant signals, in a calm configuration, it changes bands at most once and is then not asked to leave |
| PingPong.NeverSettles | package/roamd/src/policy.c:253-314 | where both bands are left, runs of the policy with any number of changes, every limit kept and no pause ever set |
| PingPong.NoPingPongIff | package/roamd/src/policy.c:253-314 | at most one change in every run of the policy, whatever the signals, exactly when no pass reaches the client, or kick_rssi is at most rssi_good, or rssi_diff is one, or kick_rssi is above every signal |

## Left out

- Apk.AdbInflate: failing allocations; the fields and the printing of the unpacked index.
- Sha256.HashFile: opening and reading the file; the model is given what successive reads return.
- MeshPkg.MeshPkgNewer: null pointers, which the code treats as it treats empty strings.
- MeshPoll.EveryRun: the generation counter is unbounded, so a reply that is 2^32 rounds late is not covered; whether a profile is sent first is the environment's choice; writing reports to files, bands and update checks.
- MeshRpc.EveryRun: building the body of a request and the token file, and a request freed by its owner before it ends. A start that fails after the connection was made leaves that connection until the request is freed; events it might still raise before that are not covered.
- MeshLog.Log.Ingest: finding the source of a member by id, text forms of bands and types, saving the log and loading it again after a restart.
- Replication.ExactlyOnce: one run of the controller, and a node that has logged fewer than 2^32 events.
- MeshSteer.Pass.SteerRound: what `refs_build` and `qsort` leave is taken as any sorted arrangement of all observations; the list of neighbours sent along with a move, and the neighbour map pushed before it.
- KeyHolderText.RefreshAgainIff: ids and addresses hold no space, as strtok_r would split them; the ids the source gives are six characters (mesh_acquire.c:157).
- MeshProfile.ChainIsPath: ids are no longer than the 32 characters of their arrays.
- ChainSafety.RecordSafeIff: ids of one length, as the source gives them (mesh_acquire.c:157); with others a cut piece could happen to be the parent's id.
- MeshNode.MoveIsSafe: needs chains of the present graph; reading records from their text is not modelled.
- Flaps.PausedIff: the counter of returns is unbounded.
- PolicyRuns.Handle: one configuration for the run; finding the record of an address in the tree.
- PingPong.NoPingPongIff: signals are negative, as received powers are; the controller sends the client to no other device.
- Event logging, LEDs, ubus, UCI and network calls, and everything in the repository that only passes data between them.
- The client registry, VLAN and lease allocation, task progress files, the web interface and the build scripts: they would only add easy members.
