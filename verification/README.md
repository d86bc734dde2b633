# Model of the GHOST NAS daemon

GHOST NAS cuts files into blocks, seals each block, Reed-Solomon encodes it, keeps the shards in
a vault, records where they belong in a routing table and indexes the files in a directory tree.
Peers talk over sessions with a replay window, and short messages travel as three datagrams. This
project models those parts in Dafny 4.11 and proves what they keep over every run, and where the
daemon keeps less than its documentation says, exactly when.

`dafny verify dfyconfig.toml` checks everything.

## How the model is built

Code that changes state step by step is a class or a method with loops, proved equal to a
function of the old state; what the daemon promises is proved about that function, over whole
runs. Every class method and method below therefore has its full effect in its contract, and the
lemmas beside it say what that effect is good for.

| file | what it holds |
|---|---|
| `ReplayWindow`, `Session`, `LegacySession`, `SessionList` | the replay window, the session guard, its legacy twin and the session list of `src/session.rs` |
| `Merkle`, `Erasure`, `XorCodec`, `SecretSharing` | Merkle trees, the erasure coding wrappers and the key sharing of `src/crypto.rs` |
| `Vault`, `VaultRuns`, `WindowsCompared` | `src/vault.rs` as an object, over runs, and beside the session window |
| `Router`, `Placement` | `src/router.rs`: placement, health, plans, loads and fault tolerance |
| `Paths`, `Directory`, `DirectoryMap`, `DirectoryFlush` | `src/directory.rs`: the tree, the map it stands for, the lock protocol |
| `DavFs`, `StoredFiles`, `StoredContent`, `StoredPaths` | `store_file` and `reconstruct_file` of `src/davfs.rs` and what holds between them |
| `Network`, `Receiver` | datagrams of `src/network.rs` and their reassembly in `src/main.rs` |
| `Numerics`, `Bytes`, `Decimals`, `Wrappers` | machine integers, bytes, decimal text, `Option` and `Result` |

Conventions:

- Integers are unbounded with explicit widths. The daemon is built with `cargo build --release`,
  so `u64` additions wrap and a `u128` shift amount is taken modulo 128; `Numerics` writes both
  out. A `usize` is a `nat`.
- The clock, random bytes, jitters and the network are parameters. A call that reads the clock
  twice gets two readings.
- The hash is a parameter. No function into 32 bytes is free of collisions, so lemmas that need
  collision freedom ask for it on the finite set of strings that are hashed.
- The Reed-Solomon crate is a contract (`Erasure.IsCodec`): any `k` shards of a codeword give back
  all of it, it fails on fewer or on unequal lengths, and it never changes a present shard.
  `XorCodec.XorIsCodec` shows a code that meets it.
- Sealing with ChaCha20-Poly1305 is a parameter that adds 16 bytes (section 2.8 of RFC 8439).
- Metadata and the directory database are read back as they were written.

## Where the daemon and its description differ

The model follows the code. Each point is a lemma in the table below.

- The mask of the replay window has 128 bits; `with_timeouts` takes any window size, and the
  guard answers by its history exactly up to 128 (`WindowRefinesHistory`, `OversizedWindowFails`).
- An `upsert` puts the incoming guard's window in place of the existing one. It keeps replay
  protection iff that window covers what was accepted so far (`UpsertIsSafe`); a fresh guard
  covers nothing (`FreshUpsertForgets`).
- `verify_merkle_proof` always puts the running hash on the left, so the honest proof of a right
  child is refused unless its left sibling has the same hash (`VerifierAccepts`,
  `HonestProofRefused`). The root does not bind the number of shards (`RootForgetsLength`).
- The vault's window test wraps for marks from 2^64 - 128 on (`RefusalIsExact`), and collection
  multiplies a time to live to nanoseconds without a check (`ExpiryIsExact`).
- Shard names of four digits or more are listed under another index (`NameRoundTrip`).
- The default of two data shards and one parity shard never survives the loss of the first online
  peer, since that peer holds two of the three places (`DefaultNeverSurvives`). The comment on
  `compute_route` sends one shard to a near and one to a far peer; the code sends both to the
  first one online (`NearIsFar`).
- A file stored under a nested path is taken but cannot be resolved (`AddedIsFound`,
  `StoredIsFound`), and removing a path of more than two parts removes another file (`LongPathRemovesAnother`).
- After a failed write the database file lacks changes until the next flush completes, whoever
  makes it (`FailedWriteLags`, `LagsIffLeftBehind`, `CompletedFlushRepairs`).
- `reconstruct_file` returns all shards, parity included, neither cut nor opened, so what comes
  back is the stored file only if that is empty (`ReadBackIsFile`), though whoever has the block
  keys can get the file out of it (`ReadBackOpensToFile`); and routes live in memory only, so
  nothing can be read back after a restart (`NoRoutesNoFile`).
- The key sharing is described as two of three, but the first and the third share are the same
  bytes (`PairsRecover`).
- A message of odd sealed length arrives with a zero byte appended (`InOrderRecovers`), and the
  receiver joins the first two shards in order of arrival (`PairsRecoverExactly`).
- The sender always sends three packets, and the third stays behind (`ThirdPacketWaits`). A sealed
  message comes out iff an even number of datagrams of its id came before, or its three shards are
  equal, or what waits happens to stand in for the lost packet (`SealedComesOutIff`); so every
  second message of an id gets lost as a rule (`SecondMessageIsLost`).

## Model

| member | source | states |
|---|---|---|
| ReplayWindow.StepTracks | src/session.rs:153-186 | one call accepts exactly the counters that are above the window's edge and not accepted before, and mark and mask go on standing for the set of accepted counters |
| ReplayWindow.RunTracks | src/session.rs:160-185 | after every run, bit i of the mask is set iff mark - i was accepted, for all i inside the window |
| ReplayWindow.WindowRefinesHistory | src/session.rs:153-186 | the guard answers as the whole history demands on all runs iff the window size is at most 128 |
| ReplayWindow.OversizedWindowFails | src/session.rs:114-134 | with any wider window, counter 2 after counter 130 is refused although it is new |
| ReplayWindow.MarkIsMaximum | src/session.rs:160-168 | the mark is the largest accepted counter, zero if there is none |
| ReplayWindow.NeverTwice | src/session.rs:153-186 | no two calls of a run are accepted with one counter, and zero never is |
| Numerics.BitIsPlaceValue | src/session.rs:174-179 | reading and setting a bit of the mask are the usual place-value operations |
| ReplayWindow.RunIsSound | src/session.rs:153-186 | for every window size, no bit ever stands for a counter below 1, and the bit of the mark is set |
| ReplayWindow.RememberedTracks | src/session.rs:160-185 | any such window stands for exactly the counters it remembers |
| ReplayWindow.RememberedIsHistory | src/session.rs:160-185 | for a window that has kept to a history those are the counters of the history above the edge |
| Session.SessionGuard.constructor | src/session.rs:97-112 | a new guard has an empty window, no key, no counts, the default limits, and two clock readings for its start and its last activity |
| Session.SessionGuard.WithTimeouts | src/session.rs:114-134 | the same with given limits |
| Session.SessionGuard.SetMasterKey | src/session.rs:136-141 | replaces the key and nothing else |
| Session.SessionGuard.IsValid | src/session.rs:143-147 | valid iff both the hard and the idle time are not up |
| Session.SessionGuard.CheckAndUpdate | src/session.rs:153-186 | new state and answer are those of the specification step that the lemmas on runs are about |
| Session.SessionGuard.Heartbeat | src/session.rs:188-191 | moves the last activity and forgets missed heartbeats |
| Session.SessionGuard.MissHeartbeat | src/session.rs:193-205 | counts a miss and wipes the key from the third on |
| Session.SessionGuard.TriggerWipe | src/session.rs:207-216 | the key is gone, all else stays |
| Session.CheckTracks | src/session.rs:153-186 | a live guard answers by the history rule, a dead one refuses and changes nothing |
| Session.GuardsAreSound | src/session.rs:153-263 | every guard that comes of calls has a sound window, whatever its window size and that of its upserts |
| Session.RunTracks | src/session.rs:153-263 | over every run of guard calls, upserts included, the window stands for the history: accepted counters are added, an upsert puts the incoming memory in its place |
| Session.CountsFollow | src/session.rs:158-182 | received minus replayed packets is the number of accepted checks modulo 2^64, on every run |
| Session.DistinctCounts | src/session.rs:158-182 | without an upsert it is exactly the number of distinct accepted counters |
| Session.EachCountFollows | src/session.rs:153-186 | on every run the received count grows by the checks of a live session and the replayed count by those of them that were refused, modulo 2^64 |
| Session.MissesFollow | src/session.rs:160-205 | after every run the missed heartbeats are those since the last accepted packet or heartbeat |
| Session.KeyFollows | src/session.rs:136-260 | after every run the key is the one last set, or brought by an upsert, and not wiped since, where three misses wipe |
| Session.ThirdMissSinceWipes | src/session.rs:193-205 | a missed heartbeat wipes the key and answers true iff it is at least the third since the last accepted packet or heartbeat |
| Session.RunKeepsLimits | src/session.rs:143-260 | no run moves peer, start, limits or window size, and the last activity is the last sign of life: a heartbeat, an accepted packet or what an upsert brings |
| Session.RunIsAlive | src/session.rs:143-147 | after every run a session is valid iff its start is less than the hard limit ago and the last sign of life less than the idle limit |
| Session.DefaultsSpelledOut | src/session.rs:97-112 | a new session lives a day from its start and half an hour from its last activity, with a window of 128 counters |
| Session.AnswersRefineHistory | src/session.rs:153-263 | from a new guard on and with any calls before, upserts included, a check is accepted iff the session is alive and the counter is new with respect to the history |
| Session.HardExpiryAbsorbs | src/session.rs:143-205 | after the hard timeout no run of calls, upserts included, makes the session valid, accepts a counter or counts a packet |
| Session.IdleExpiryAbsorbs | src/session.rs:143-205 | after the idle timeout no run of checks and missed heartbeats revives the session or moves its window |
| Session.HeartbeatRevives | src/session.rs:188-191 | a heartbeat revives an idle session iff the hard timeout is not up and the idle timeout is positive |
| Session.ThirdMissWipes | src/session.rs:193-205 | n misses in a row wipe the key iff n is at least three |
| Session.UpsertTakesHistory | src/session.rs:251-260 | an updated entry stands for, and answers by, what the incoming window remembers, whatever that window is |
| Session.UpsertIsSafe | src/session.rs:251-260 | an upsert lets no counter accepted so far in again iff each lies below the incoming edge or is remembered by the incoming window |
| Session.UpsertIsSafeByHistory | src/session.rs:251-260 | the same in terms of the two histories, if the incoming window is at least as wide: all accepted counters were accepted by the incoming guard too, or lie below its edge |
| Session.NeverTwice | src/session.rs:153-263 | in a run whose upserts all meet that condition no counter is accepted twice |
| Session.FreshUpsertForgets | src/session.rs:251-260 | a fresh guard meets the condition for no positive counter: each is accepted after the upsert |
| LegacySession.TwinsStaySame | src/session.rs:341-384 | legacy and default guard hold the same window and times after every run of checks |
| LegacySession.LegacyAgrees | src/session.rs:341-384 | they give the same answer to every call of every run |
| LegacySession.LegacyRefinesHistory | src/session.rs:341-384 | so the legacy guard too answers by the history |
| LegacySession.LegacySessionGuard.constructor | src/session.rs:342-349 | starts with an empty window |
| LegacySession.LegacySessionGuard.CheckAndUpdate | src/session.rs:357-383 | state and answer are those of the legacy step |
| SessionList.UpsertKeepsUnique | src/session.rs:251-263 | fingerprints stay unique iff the entry existed or the pushed guard's own fingerprint is new |
| SessionList.UpsertThenFind | src/session.rs:251-268 | a look-up after an upsert sees the updated or pushed entry under its fingerprint, and every other entry as before |
| SessionList.KeepUnique | src/session.rs:270-293 | dropping guards keeps fingerprints unique |
| SessionList.KeepAppends | src/session.rs:270-293 | retaining works element by element and keeps order and number |
| SessionList.UpsertKeepsPlaces | src/session.rs:251-263 | an upsert changes the first entry of that fingerprint or adds one at the end, and moves and changes no other |
| SessionList.SessionManager.Upsert | src/session.rs:251-263 | updates the first entry of that fingerprint in place or appends |
| SessionList.SessionManager.Find | src/session.rs:265-268 | the first entry of that fingerprint, if there is one |
| SessionList.SessionManager.Remove | src/session.rs:270-280 | drops all entries of that fingerprint, keeps the others in order |
| SessionList.SessionManager.ExpireStale | src/session.rs:282-293 | keeps exactly the valid guards in order and returns the number of the others |
| Merkle.NextLevel | src/crypto.rs:99-113 | pairs are hashed left to right, an unpaired last node moves up unchanged |
| Merkle.MerkleRoot | src/crypto.rs:91-115 | computes the root of the level-by-level tree; ends for every list |
| Merkle.Pair | src/crypto.rs:99-113 | an inner node hashes the left digest followed by the right one |
| Merkle.SmallRoots | src/crypto.rs:91-115 | the roots of no, one, two and three shards written out |
| Merkle.MerkleProof | src/crypto.rs:127-174 | emits the sibling of the path node on every level that has one, and no proof out of range |
| Merkle.VerifyMerkleProof | src/crypto.rs:177-186 | accepts iff the fold with the running hash on the left meets the root |
| Merkle.ClimbReachesRoot | src/crypto.rs:127-174 | folding the siblings on their own sides, skipping levels without one, reaches the root |
| Merkle.ProofsLeadToRoot | src/crypto.rs:91-174 | every generated proof, read with its own index and total, leads from its shard to the Merkle root of the list |
| Merkle.ProofsAreShort | src/crypto.rs:140-167 | a proof has at most ceil(log2 n) siblings |
| Merkle.CeilLog2IsLog | src/crypto.rs:140-167 | the bound is the binary logarithm, rounded up |
| Merkle.FoldMeetsRoot | src/crypto.rs:177-186 | a fold with the running hash on the left meets the root iff it starts on the path and all right children equal their left siblings; once off the path it never returns |
| Merkle.VerifierAccepts | src/crypto.rs:127-186 | the proof of shard i accepts a shard iff it is that shard and the path is aligned |
| Merkle.LeftPathsVerify | src/crypto.rs:127-186 | paths without a right child, index 0 among them, verify for every list and every hash |
| Merkle.SecondOfTwoRefused | src/crypto.rs:177-186 | the honest proof for the second of two shards is accepted iff the two are equal |
| Merkle.HonestProofRefused | src/crypto.rs:177-186 | a concrete hash and list for which an honest proof is refused |
| Merkle.ProofAcceptsOne | src/crypto.rs:177-186 | any one proof, honest or not, accepts at most one shard |
| Merkle.RootBinds | src/crypto.rs:91-115 | equally long lists with one root are equal shard by shard |
| Merkle.RootForgetsLength | src/crypto.rs:91-115 | two shards have the root of the one shard that is the pair of their leaf hashes, for every hash: the root does not bind the number |
| Erasure.LossBound | src/crypto.rs:280-288 | a codeword is rebuilt iff at most m shards are lost |
| Erasure.AgreementDetermines | src/crypto.rs:251-288 | codewords that agree in k places are equal |
| Erasure.EncodeRoundTrip | src/crypto.rs:251-288 | encode, lose up to m shards, rebuild, join the first k and cut: the data is back, with fewer than k bytes of padding |
| Erasure.JoinPieces | src/crypto.rs:258-272 | the k pieces joined give back the padded bytes |
| Erasure.DataComeFirst | src/crypto.rs:258-277 | the first k shards are the data and zero bytes, piece by piece, whatever the code |
| Erasure.ZeroCountsDoNotSplit | src/crypto.rs:251-257 | without data or without parity shards the data stay in one piece |
| Erasure.RsEncodeN | src/crypto.rs:251-277 | the loop over the shards makes the codeword of the padded pieces; zero counts give the data unsplit |
| Erasure.RsEncode | src/crypto.rs:224-239 | pads its argument to even length in place and makes the codeword of the two halves |
| Erasure.TwoShardEncoder | src/crypto.rs:224-239 | the fixed encoder is the general one at two data shards and one parity shard |
| XorCodec.XorIsCodec | src/crypto.rs:274-288 | the contract asked of the crate can be met for every number of data shards |
| SecretSharing.Generate | src/crypto.rs:21-46 | fills the three shares byte by byte: index, then mask, masked secret, and masked secret masked again |
| SecretSharing.FillMasked | src/crypto.rs:37-43 | one of the two masking loops: 32 bytes of one share from another and the secret |
| SecretSharing.Reconstruct | src/crypto.rs:48-63 | combines the first two shares if their indices differ, else zeros |
| Bytes.XorIsBitwise | src/crypto.rs:37-43 | the exclusive or of the model is the one bit by bit |
| SecretSharing.PairsRecover | src/crypto.rs:21-63 | two shares give the secret back iff exactly one of them is the second; every other pair gives zeros |
| SecretSharing.ThirdIsFirst | src/crypto.rs:37-43 | the third share carries the bytes of the first |
| SecretSharing.OneShareTellsNothing | src/crypto.rs:21-46 | a single share fits every secret under some mask |
| Decimals.PrintParse | src/vault.rs:138-142 | a counter written to its file is read back |
| Decimals.ParseSpelledOut | src/vault.rs:138-142 | digits are read most significant first, with or without a plus sign, and the empty string is no number |
| Decimals.NamesSpelledOut | src/vault.rs:115-117 | a shard file is named by its index, filled up with zeros to three digits |
| Decimals.ShardNamesDiffer | src/vault.rs:115-117 | different shards have different files |
| Decimals.NameRoundTrip | src/vault.rs:258-275 | a shard file is listed under its own index iff that is below 1000 |
| Decimals.LongNameIsCut | src/vault.rs:258-275 | a longer index is listed as its first three digits |
| Decimals.NameIsReadAs | src/vault.rs:265-268 | of any name with that prefix and suffix only the three characters after the prefix count |
| Vault.Vault.Open | src/vault.rs:76-107 | the cache is rebuilt from exactly the metadata files that parse |
| Vault.Vault.StoreShard | src/vault.rs:131-230 | directory, counter, root, shard, metadata and cache after an accepted store, and the refusal |
| Vault.Vault.ReadShard | src/vault.rs:233-255 | the shard with the counter of its group, or not found |
| Vault.Vault.ListShards | src/vault.rs:258-275 | a sorted list holding every index as often as there are files read as it |
| Vault.Vault.DeleteGroup | src/vault.rs:278-290 | the group is gone from disk and cache, all others stay |
| Vault.Vault.OverwriteShard | src/vault.rs:301-305 | one pass puts zeros in place of the bytes of a shard file |
| Vault.Vault.RemoveShardFile | src/vault.rs:306 | one shard file is removed, and what it held at that moment is noted |
| Vault.Vault.OverwriteRoot | src/vault.rs:301-305 | one pass over the root file |
| Vault.Vault.RemoveRootFile | src/vault.rs:306 | the same for the root file |
| Vault.Vault.WipeShard | src/vault.rs:301-306 | three passes and a removal: the file is gone and held nothing but zeros of its length |
| Vault.Vault.WipeRoot | src/vault.rs:301-306 | the same for the root file |
| Vault.Vault.SecureWipeGroup | src/vault.rs:293-313 | the group is gone, and each of its shard files and its root file held nothing but zeros when it was removed; nothing happens without a directory |
| Vault.Vault.GarbageCollect | src/vault.rs:316-344 | drops exactly the groups whose test says expired and returns their number; `CollectionIsExact` says which these are, in seconds |
| VaultRuns.ReopenRecovers | src/vault.rs:76-107 | opening the vault on its own files gives back the cache |
| VaultRuns.RunsAgree | src/vault.rs:76-344 | in every reachable state the cache equals a history told from the calls alone (largest accepted counter, first accepted root since creation or removal, count, time and lifetime of the last accepted store), and metadata, counter and root files agree with it |
| VaultRuns.ReadsAreLastStored | src/vault.rs:131-344 | after every run a shard reads as the data of its last accepted store since its group was created or last removed, with the largest accepted counter, and every other as not found |
| VaultRuns.RestartIsHarmless | src/vault.rs:76-107 | so a restart after any run loses nothing |
| VaultRuns.WipeIsDelete | src/vault.rs:278-313 | wiping and deleting end in the same state |
| VaultRuns.WipeIsDeleteIff | src/vault.rs:293-313 | in any state they do iff the group has a directory, or neither metadata file nor cache entry: a wipe without a directory leaves these |
| VaultRuns.OpenedSpelledOut | src/vault.rs:76-107 | opening caches a group iff its metadata file parses, as that file says |
| VaultRuns.MarkSpelledOut | src/vault.rs:138-142 | the mark is the number in the counter file, zero without one or if it does not parse |
| VaultRuns.WindowFileAppears | src/vault.rs:147-149 | the window file is there iff it was, or the counter lies more than 128 above the mark |
| VaultRuns.RefusalSpelledOut | src/vault.rs:131-152 | a refused store answers with its counter and changes nothing but for an empty directory where there was none |
| VaultRuns.RefusalIsExact | src/vault.rs:144-181 | the test refuses exactly the counters below the window, for all counters, iff the mark is below 2^64 - 128 |
| VaultRuns.WrappedRefusal | src/vault.rs:144-152 | from that mark on it refuses exactly the counters up to mark + 128 - 2^64 |
| VaultRuns.ExpiryIsExact | src/vault.rs:332-337 | the age test, in seconds of 1,000,000,000 nanoseconds, is right at all times iff the time to live comes to fewer than 2^64 of them |
| VaultRuns.CollectionIsExact | src/vault.rs:316-344 | collection removes exactly the groups older than their time to live in seconds, everywhere, counts them, and leaves every other group untouched |
| WindowsCompared.SameMark | src/vault.rs:144-181 | on one stream of counters a vault group and a session window keep the same mark, for all counters and whatever goes on in other groups |
| WindowsCompared.GuardImpliesVault | src/vault.rs:144-181 | the vault takes whatever the guard takes; while the mark is below 2^64 - 128 it takes a counter iff it is above mark - 128, and at equal window sizes besides only repeats |
| Router.WanRouter.constructor | src/router.rs:79-99 | at first only we count as online |
| Router.WanRouter.MarkOnline | src/router.rs:102-105 | changes the health of that peer alone |
| Router.WanRouter.MarkOffline | src/router.rs:108-111 | changes the health of that peer alone |
| Router.WanRouter.ComputeRoute | src/router.rs:137-225 | the two round-robin loops over the online peers make the placement of the specification, and the entry replaces the group's route |
| Router.WanRouter.TakeTurn | src/router.rs:163-207 | one turn of a loop takes the next online peer, or ourselves if nobody is online |
| Router.WanRouter.RemoveRoute | src/router.rs:283-285 | removes that route alone |
| Router.WanRouter.ReconstructionPlan | src/router.rs:235-275 | the shards not held, stably ranked as `PlanSpelledOut` says; or no route |
| Router.InsertByPriority | src/router.rs:252-272 | one step of the stable sort: descending, and within each priority in order of arrival |
| Router.WanRouter.SortByPriority | src/router.rs:252-272 | the sorted plan is the stable ranking |
| Router.DescendingIsRanked | src/router.rs:252-272 | a descending list is its own stable ranking |
| Router.WanRouter.CanReconstructGroup | src/router.rs:298-312 | true iff at least as many places are reachable as there are data shards |
| Placement.HealthIsLastWord | src/router.rs:102-111 | a peer is online iff the last word on it says so, and offline without any |
| Placement.OnlineInOrder | src/router.rs:148-150 | every online peer stands among the online ones at the place given by the number of online peers configured before it |
| Placement.OnlineCount | src/router.rs:148-150 | and there are no others |
| Placement.OnlineAsOften | src/router.rs:148-150 | a peer is among the online ones as often as it is configured if it is online, and else not at all |
| Placement.PlacesCarryPeers | src/router.rs:152-207 | each place carries name, address and tag of the peer whose turn it is, of us for shard 0 or with nobody online |
| Placement.NoDataShards | src/router.rs:152-207 | without data shards our own place comes before all parity places |
| Placement.TurnsClosedForm | src/router.rs:163-207 | slot q of p gets ceil((n - q) / p) of n turns |
| Placement.ExactLoad | src/router.rs:163-207 | peer q gets exactly its data turns and parity turns, at most ceil((k-1)/p) + ceil(m/p), which peer 0 attains |
| Placement.SurvivesLosses | src/router.rs:298-312 | after any set of online peers goes offline a group can be reconstructed iff their loads sum to at most m |
| Placement.SurvivesPeerLoss | src/router.rs:298-312 | after peer q alone goes offline a group can be reconstructed iff its load is at most m |
| Placement.ConfiguredLoad | src/router.rs:148-207 | the exact load of any configured online peer, from the number of online peers before it and in all |
| Placement.SurvivesConfiguredLoss | src/router.rs:148-312 | after any configured online peer alone goes offline a group can be reconstructed iff that load is at most m |
| Placement.RouteIsNeeded | src/router.rs:298-302 | a group without a route cannot be reconstructed |
| Placement.SurvivesAnyPeerLoss | src/router.rs:298-312 | a group can be reconstructed after the loss of any one peer iff ceil((k-1)/p) + ceil(m/p) <= m |
| Placement.DefaultNeverSurvives | src/router.rs:163-207 | with two data shards and one parity shard the loss of the first online peer is always fatal |
| Placement.NearIsFar | src/router.rs:130-207 | the second data shard and the first parity shard go to the same host, the first online peer |
| Placement.RanksPartition | src/router.rs:252-272 | ranking is a permutation |
| Placement.PlanCovers | src/router.rs:152-275 | places are numbered in order with data before parity; the plan is sorted, names exactly the shards not held, each once, and with the held ones covers all |
| Placement.PlanOrder | src/router.rs:254-272 | in a plan no place of another's stands before one of ours, and none at an offline peer before one at an online one |
| Placement.PlanSpelledOut | src/router.rs:246-272 | the whole plan of any route: the places not held, ours, then at online peers, then at offline ones, each kind in the order of the route |
| Placement.WantedAscends | src/router.rs:246-272 | so in the plan of a computed route each kind is in the order of its shard numbers |
| Directory.EncryptedDirectory.Open | src/directory.rs:99-139 | the tree of the database, or an empty one |
| Directory.EncryptedDirectory.Flush | src/directory.rs:141-148 | the file holds the tree |
| Directory.EncryptedDirectory.ResolvePath | src/directory.rs:201-260 | the walk with a current directory and the search of all directories for a bare name give what `ResolveFollowsChain` spells out |
| Directory.EncryptedDirectory.AddFile | src/directory.rs:263-308 | the tree after an addition and its flush, or the duplicate error and no change |
| Directory.EncryptedDirectory.RemoveFile | src/directory.rs:311-333 | the tree after a removal and its flush, or the error and no change |
| Directory.EncryptedDirectory.CountFiles | src/directory.rs:370-373 | the sum over all directories |
| Paths.TrimsSlashes | src/directory.rs:203 | trimming takes away all slashes at both ends, however many, and nothing else |
| DirectoryMap.SlashesDoNotMatter | src/directory.rs:199-333 | slashes at the ends of a path make no difference to resolving, removing and adding, where only "" and "/" are the root |
| DirectoryMap.ResolveFollowsChain | src/directory.rs:201-260 | in any tree a path resolves along a chain of directories, each listed in the one before, to the first file of that name in the last; a bare name to the first directory that has it |
| DirectoryMap.AnywhereIsFirst | src/directory.rs:241-257 | a bare name is found in the first directory that has a file of that name, and nowhere if none has |
| DirectoryMap.ErrorsSpelledOut | src/directory.rs:263-333 | an addition is refused iff its parent is not the root and has a file of that name, a removal succeeds iff the first part, or the root's directory for a bare name, has the file; and what the errors carry |
| DirectoryMap.AddedSpelledOut | src/directory.rs:263-308 | an addition puts the entry last in its directory, or in a new last directory stamped with the time, and changes nothing else |
| DirectoryMap.RemovedSpelledOut | src/directory.rs:311-333 | a removal takes the first file of that name out of that directory and moves nothing else |
| DirectoryMap.AddRefines | src/directory.rs:263-308 | on whatever parent, an addition is insert-if-absent on the map and succeeds iff the map says so |
| DirectoryMap.RemoveRefines | src/directory.rs:311-333 | on whatever path, a removal is remove-if-present on the map and succeeds iff the map says so |
| DirectoryMap.RunsRefine | src/directory.rs:263-333 | after every run the tree shows the map, directory names are unique and so are file names in each directory but the root |
| DirectoryMap.AnswersRefine | src/directory.rs:263-333 | every next call answers as the map does |
| DirectoryMap.ResolveRefines | src/directory.rs:201-260 | after every run a two-part path resolves to its map entry, and a longer one to nothing |
| DirectoryMap.AddedIsFound | src/directory.rs:201-308 | a file added to a named directory resolves under directory/name iff the directory is a single name and the file name is not empty and holds no slash |
| DirectoryMap.RootAddedIsFound | src/directory.rs:201-308 | a file added to the root resolves under its bare name, unless a directory up to there has one of that name: then to that one |
| DirectoryMap.ResolvedIsPlain | src/directory.rs:201-260 | no path resolves to an entry with an empty name or one that holds a slash |
| DirectoryMap.ResolvesIffNamed | src/directory.rs:201-260 | a path resolves iff it names at least one file: in all directories, in one, or none |
| DirectoryMap.RemovedIsGone | src/directory.rs:201-333 | after a removal, of whatever path, it resolves to nothing iff it named just the removed file; always so for a two-part path outside the root |
| DirectoryMap.LongPathRemovesAnother | src/directory.rs:201-333 | a path of more than two parts never resolves, and removing it removes the file of its first and last part iff that exists; that one then resolves iff it named one more file, which only the root allows |
| DirectoryMap.CountFollows | src/directory.rs:370-373 | a successful call changes the count by one |
| DirectoryMap.CountsAddUp | src/directory.rs:370-373 | the empty tree counts no file, and the counts of directories add up |
| DirectoryMap.CountOfOne | src/directory.rs:370-373 | one directory counts its files |
| DirectoryFlush.RunsKeep | src/directory.rs:141-148 | in every interleaving each flush under way holds the current tree, the file is the tree of the changes before the last completed flush, and some unfinished or failed caller is to blame if these are not all |
| DirectoryFlush.SnapshotsAreCurrent | src/directory.rs:141-148 | a serialised snapshot equals the tree until it is written |
| DirectoryFlush.AcknowledgedIsDurable | src/directory.rs:304-333 | those changes include every one that was answered with success, failing writes or not |
| DirectoryFlush.LagsIffLeftBehind | src/directory.rs:141-148 | the file lacks a change iff some change has had no completed flush after it |
| DirectoryFlush.FileIsCurrent | src/directory.rs:141-148 | with nothing left behind the file holds the tree; with an odd number of changes left behind it does not |
| DirectoryFlush.LatestIsWritten | src/directory.rs:304-333 | the file holds the tree if only whoever made the latest change is neither under way nor failed |
| DirectoryFlush.LatestAcknowledged | src/directory.rs:304-333 | it does once the latest change is acknowledged, with earlier failures and unfinished tasks allowed |
| DirectoryFlush.CompletedFlushRepairs | src/directory.rs:141-148 | any completed flush brings the file up to date |
| DirectoryFlush.QuietDiskIsTree | src/directory.rs:141-148 | with nobody under way and no failed write the file holds the tree |
| DirectoryFlush.FailedWriteLags | src/directory.rs:304-308 | after one failed write file and tree differ with nobody under way |
| DavFs.BlocksPartition | src/davfs.rs:397-404 | the blocks joined are the data; there are ceil(len / size), none empty, all but the last full |
| DavFs.MakeItem | src/davfs.rs:402-424 | a block is sealed, encoded and named as `ItemSpelledOut` says |
| DavFs.StoreShards | src/davfs.rs:440-453 | the inner loop makes one vault store per shard |
| DavFs.StoreOneBlock | src/davfs.rs:402-464 | one round of the loop on vault and routing table |
| DavFs.StoreBlocks | src/davfs.rs:402-464 | all rounds: vault, routes and list of groups |
| DavFs.StoreFile | src/davfs.rs:378-489 | vault, routing table and directory after storing a file, or the directory's error; what is sealed and filed is spelled out by `ItemSpelledOut` and `EntrySpelledOut` |
| DavFs.ReadSlots | src/davfs.rs:507-526 | one slot per shard, filled iff the vault has it |
| DavFs.ReconstructFile | src/davfs.rs:491-539 | the rebuilt blocks in order, or the first error |
| StoredFiles.BlockIsComplete | src/davfs.rs:440-464 | after a block is stored into a fresh group, each shard reads back with its counter, the root is the Merkle root and no other group is touched |
| StoredFiles.EveryShardAccepted | src/davfs.rs:440-453 | none of these stores is refused |
| StoredFiles.ListingIsComplete | src/vault.rs:258-275 | the listing of a full group of up to a thousand shards is 0, 1, ..., n-1 |
| StoredFiles.FileIsComplete | src/davfs.rs:397-464 | for a whole file: no store is refused, and at the end every block is in place with all its shards read back and listed, its number plus one and its Merkle root |
| StoredFiles.ErasureIndependence | src/davfs.rs:491-539 | reading a stored file gives the same bytes after any loss of up to m shards of each group as after none, and otherwise the error of the first group that lost more |
| StoredFiles.OtherFilesReadSame | src/davfs.rs:378-539 | storing a file leaves the reading of every file of other groups as it was, after whatever loss |
| StoredFiles.EarlierFileReadsSame | src/davfs.rs:378-539 | a file reads the same, after whatever loss, once another has been stored into fresh groups |
| StoredFiles.SealedIsPrefix | src/davfs.rs:529-536 | what a block reads back as starts with the sealed block and is longer than the block |
| StoredFiles.AllShardsAreNotTheFile | src/davfs.rs:491-539 | the shards of all blocks joined are the file iff it is empty |
| StoredFiles.ReadBackIsFile | src/davfs.rs:378-539 | storing and reading back gives the file iff it is empty, after whatever loss |
| StoredFiles.NoRoutesNoFile | src/davfs.rs:497-499 | without routes, as after a restart, reading fails iff the file has a block, and on the first |
| StoredContent.ItemSpelledOut | src/davfs.rs:402-424 | block i is the slice of the file at i * size, up to its end, sealed with the block's own key under i + 1, encoded, and named by i and the sealed bytes |
| StoredContent.CountSpelledOut | src/davfs.rs:397-403 | the blocks are numbered without a gap up to the end of the file and no further |
| StoredContent.OpensToFile | src/davfs.rs:402-411 | whatever begins with the sealed blocks: cut to 16 bytes more than each block, opened under its key and number, and joined, it is the file |
| StoredContent.ShardsOpenToFile | src/davfs.rs:402-421 | so are the data shards of every block |
| StoredContent.EntrySpelledOut | src/davfs.rs:466-483 | every field of the entry: name, size, hash, number and groups of the blocks in order, times, permissions, version |
| StoredContent.VaultOpensToFile | src/davfs.rs:378-489 | after any loss the parity covers, the groups of the directory entry, rebuilt from the vault, cut, opened and joined, are the file |
| StoredContent.LookedUpOpensToFile | src/davfs.rs:378-489 | whoever looks up a path of two parts after a file was stored there, and after any covered loss, gets an entry whose groups give the file |
| StoredContent.ReadBackOpensToFile | src/davfs.rs:491-539 | the bytes that reading back returns after any covered loss, cut into chunks by the lengths alone, each cut to its sealed length, opened and joined, are the file |
| StoredContent.MetaSpelledOut | src/davfs.rs:440-453 | after a file is stored the metadata of block i: its number, root and number of shards, and time and lifetime of its last store |
| StoredContent.RoutesSpelledOut | src/davfs.rs:429-435 | the route of every block, over all its shards |
| StoredContent.StoredSurvivesLosses | src/davfs.rs:429-435 | a stored block can be reconstructed after peers have gone iff their loads at the time of storing come to at most the parity |
| StoredPaths.ParentAndName | src/davfs.rs:385-395 | parent and name that a path is taken apart into put it together again |
| StoredPaths.StoredIsFound | src/davfs.rs:385-489 | a file stored at a path with a slash in it and none at its ends resolves there iff the path has just two parts |
| StoredPaths.BareIsFound | src/davfs.rs:385-489 | a file stored at a bare name resolves there, unless one of that name comes first in the directories up to the root |
| Network.BuildPacket | src/network.rs:148-155 | filling a zeroed buffer field by field makes the packet |
| Network.SendDataPackets | src/network.rs:137-157 | the three datagrams handed to the socket |
| Network.TailIgnored | src/network.rs:197-217 | bytes left over in the receive buffer never show |
| Network.LayoutSpelledOut | src/network.rs:137-157 | the layout byte by byte: id, length modulo 256, share, counter with its most significant byte first, shard, zeros to the end |
| Network.RefusedIffShort | src/network.rs:177-217 | a datagram is refused iff it is shorter than its header or than the shard its first two bytes announce: 480 bytes for a handshake, half the sealed length, rounded up, for a message |
| Network.HandshakeParses | src/network.rs:120-217 | a handshake packet with 480 bytes of shard parses back whole, its length field modulo 256 |
| Bytes.BigEndianOrder | src/network.rs:148-175 | byte i of a counter is its digit of weight 256^(n-1-i) |
| Network.ParseInvertsBuild | src/network.rs:137-217 | parsing a built packet gives the packet with its length cut to a byte, for every counter, jitter and tail; the packet itself iff its length is below 256 |
| Network.ShardLengthsAgree | src/network.rs:177-184 | the receiver's shard length is the encoder's for every sealed message |
| Receiver.Complete | src/main.rs:339-413 | two shares and two shards make a key and the joined shards, or nothing if the shards differ in length |
| Receiver.Accept | src/main.rs:313-417 | the body of the loop on a buffer with left-over bytes is the step on the datagram alone |
| Receiver.Receive | src/main.rs:308-422 | the loop ends in the pool and with the messages of the run |
| Receiver.CutSpelledOut | src/main.rs:308-314 | a datagram is cut to the 2048 bytes of the buffer |
| Receiver.Run | src/main.rs:328-417 | between two datagrams every pool entry holds one share and one shard, and never id 0 |
| Receiver.SilenceKeeps | src/main.rs:328-417 | datagrams of other ids leave an entry and its messages alone |
| Receiver.TwoPacketsDeliver | src/main.rs:328-417 | any two packets of a message among any other traffic put together exactly one message and leave nothing waiting |
| Receiver.WaitingIsOdd | src/main.rs:328-417 | on every run an id is waiting iff an odd number of well-formed datagrams of it has arrived |
| Receiver.WaitingCompletes | src/main.rs:328-417 | whatever waits is completed by the next packet of its id, of whichever message, with the counter of what waited |
| Receiver.ThirdPacketWaits | src/main.rs:328-417 | of all three packets the first two make the message and the third stays waiting |
| Receiver.NextMessageIsTakenApart | src/main.rs:328-417 | after one message with all its packets the first packet of the next of that id is spent on the left-over one, and its second and third are joined |
| Receiver.WhatIsNew | src/main.rs:328-417 | what comes out under an id while three packets of it arrive, after any traffic: the first two joined, or with something waiting the first spent on that and the other two joined |
| Receiver.InOrderRecovers | src/main.rs:339-357 | packets 0 and 1 bring key and padded ciphertext, the ciphertext itself iff its length is even |
| Receiver.SealedMessageArrives | src/main.rs:328-417 | from sharing and encoding through packets and pool, the third packet lost: key and padded ciphertext come out once and nothing waits |
| Receiver.AllPacketsArrive | src/main.rs:328-417 | the same with the third packet arriving: the same message comes out and the third packet waits |
| Receiver.SealedComesOutIff | src/main.rs:328-417 | a sealed message sent with all its packets after any traffic comes out with its key and padded ciphertext iff an even number of datagrams of its id came before, or its three shards are equal, or what waits has its counter, completes its key and carries its first shard, which is also its second |
| Receiver.SecondMessageIsLost | src/main.rs:328-417 | a concrete run of two messages of one id in which the second never comes out |
| Receiver.PairsRecoverExactly | src/main.rs:339-357 | which two of the three packets, in which order, bring back both |

## Left out

- `src/api.rs`, `src/truenas.rs`, `src/config.rs`, and the WebDAV handlers and XML of `src/davfs.rs`: HTTP, external commands and formatting.
- BLAKE3, Ed25519, X25519, Kyber, the AEAD itself and zeroing of memory: cryptography is a parameter.
- The inside of the Reed-Solomon crate: a contract, met by `XorCodec` for one parity shard.
- Serialisation and encryption of metadata and directory: taken to be read back as written; a metadata file that does not parse is `Garbled`.
- White space around the number in a counter file: the daemon never writes any.
- Failing file operations in the vault, and interleavings inside one `store_shard` or `garbage_collect`: each is one step.
- Group identifiers with path separators, and the identifiers "", "." and "..", which are no directory of their own; the metadata file of "" is `.json`, which has no extension and is skipped by `open`. Also file names that are not ASCII in `list_shards`.
- The `bitmask` file of a vault group: only that it exists; the daemon never reads it.
- Creation times in routes and public keys in shard locations; `update_wan_peers` and `import_route`.
- `fetch_shard_from_peer` and `push_shard_to_peer`: the first always fails and the second only logs.
- `list_directory`, `list_subdirs`, `find_files`, `to_meta`, `all_meta` and other read-only listings: they would add only easy members.
- The map of `DirectoryMap` leaves out the pseudo directory of the root: it takes duplicates, and a path without a slash is looked up everywhere.
- The order in which a hash map or a directory is read: loops over them take any order.
- Reading back with a shard count of zero, which makes the crate panic; storing with one is modelled.
- StoredFiles.FileIsComplete: asks for fresh and different groups; group names are hashes, and their collisions are not modelled.
- What the receiver does with a completed message: opening it, or the handshake that creates a session; also the peer address it notes for handshakes.
- The handshake sender, keepalive, sockets, interface discovery, bulk transfer over TCP, and logging.
- The size of a `usize`: lengths and indices are unbounded, except for the block counter, which is a `u64`.
