# Verification model of ragnordb's metadata and catalog core

ragnordb keeps the cluster's topology in one replicated state machine: a metadata Raft group whose
log of commands registers nodes, creates tables and tablets, places replicas, reserves timestamps,
guards garbage collection and opens client sessions. This project models that state machine with its
validation, snapshots and retry cache, together with the smaller protocols around it: the canonical
row encoding, the crash-safe local catalog, paged tablet scans, the transaction status authority and
the row slices of the benchmark workers. Every theorem is about all inputs, all runs or all reachable
states.

## How it is organized

- *Specification.* `MetadataTypes`, `Schema`, `Validation`, `InitialPlacement` and `MetadataSpec`
  give the commands and the step function on values: `Apply` for a bare command, `ApplyLogged` for
  one with a logical identity, `Run` for a log. `At(log, i)` is the state before entry `i` of a run
  from the empty state.
- *Invariant and progress.* `MetadataInvariant` defines the invariant, `MetadataEffects` gives each
  topology command as a guarded update and shows that the handlers perform exactly those,
  `MetadataPreservation`, `MetadataSteps` and `MetadataRuns` carry the invariant and a progress
  relation over every step and run.
- *Run theorems.* `ExactlyOnce`, `GcSafety`, `ClientSessions`, `MetadataHistory`, `MetadataHonesty`,
  `PartitionOwnership`, `IdentityAllocation`, `PlacementSafety` and `TimestampTiling`;
  `PlacementTightness` shows that the bound on the greedy placement cannot be improved.
- *Laws of single commands.* `TopologyLaws` says of each topology command exactly when it is accepted and
  what it leaves behind, over descriptor fields; `AnswerLaws` says what commands answer and that the
  reported cause of a rejection holds; `Locality` and `PlacementSelection` state policies and the voter
  selection without the algorithm; `RowLayout` gives the bytes of values and rows.
- *Snapshots.* `Snapshot` lists a state in canonical order and restores it by replaying commands;
  `SnapshotValidity`, `SnapshotRestore` and `SnapshotTransparency` prove the round trip with its
  exact condition; `SnapshotGaps` gives the states that fail it, and `SnapshotRuns` the exact guard
  on log entries under which a run never meets one.
- *In-place code.* `MetadataChecks`, `MetadataMachine`, `SnapshotChecks` and `MetadataRestore` are the
  handlers, the validator and the restore procedure as loops and as methods on an object with
  fields, each proved equal to the specification; `CatalogMachine`, `RowCodec.Decoder` and
  `LeaseFencing.StatusAuthority` do the same for the other components.
- *Other components.* `RowCodec` over `Bytes`, `Utf8` and `Parsing`; `CatalogDurability` and
  `CatalogRounds`; `ScanPaging`; `LeaseFencing`; `RowPartition`.
- *Helpers.* `Base`, `ByteOrder`, `Division`, `SortedKeys`, `Chains`.

## Modelling decisions

- Integers carry the source's widths as subset types; `checked_add` is `Next`, which is `None` at
  the top of the range.
- An endpoint is its text together with the verdict of the socket-address parser.
- The table definition of the log and the table schema of the catalog have the same fields and are
  one datatype.
- A rejection keeps its kind but not the identities and texts that only feed messages; a cached
  rejection keeps the kind as its text, which is never blank.
- Ordered maps are maps listed by an injective integer rank proved lexicographic.
- The clock samples of commands, the timestamp allocator and the outcome of an append to the log are
  parameters.

## Where the code differs from what it promises

Restoring a snapshot is meant to reproduce the state. It does so exactly for the states called
`Restorable`, and four families of states are not, three of them reachable from a decoded log and
one only by a direct call:

- a command logged before the cluster is initialized stays in the retry cache, and a snapshot of an
  uninitialized state may not hold one (`SnapshotGaps.EarlyCacheIsLost`);
- a logical identity with a zero client or a zero sequence is cached but refused in a snapshot
  (`SnapshotGaps.UnusableIdIsLost`). Only a direct call of `apply_with_logical_command_id` can bring
  one in: the replicated log is decoded first, the decoder refuses such identities
  (`crates/ragnordb-multiraft/src/meta.rs:235-243`, `crates/ragnordb-common/src/ids.rs:378-392`),
  and for decoded logs this family is empty (`SnapshotRuns.DecodedCacheIsUsable`);
- CREATE TABLE assigns the replica mark from its own placement instead of raising it, and a
  retirement above the mark does not raise it, so the mark can fall below a visible replica
  (`SnapshotGaps.LoweredMarkIsLost`, `SnapshotGaps.HighRetirementIsLost`,
  `SnapshotGaps.CreateKeepsMarkIff`, `SnapshotGaps.RetirementKeepsMarkIff`);
- the tablet count check of a Hash tablet also counts Range tablets, so a table that mixes both can
  be built in one order and not in the order of tablet identities (`SnapshotGaps.MixedTableIsLost`,
  with `SnapshotGaps.UnmixedTabletsFit` for every other table).

`SnapshotRuns.AlwaysRestorableIff` turns this into a guard on each log entry: a run can be
snapshotted at every point exactly when every entry passes it.

Two promises turn out stronger than the code states them: the greedy placement is within 3/4
of any rival, and that is tight; the occupied-identity rejection of CREATE TABLE is unreachable.

## Model

| member | source | states |
|---|---|---|
| `SnapshotTransparency.SnapshotIsTransparent` | crates/ragnordb-catalog/src/metadata.rs:809-1059 | For every state satisfying the invariant, restoring its snapshot gives exactly that state, indexes included, if the state is `Restorable`, and fails otherwise: an exact condition, checkable before the cut. |
| `SnapshotTransparency.CutAndRestore` | crates/ragnordb-catalog/src/metadata.rs:809-1059 | Any run cut at a restorable point and continued from the restored snapshot ends in the same state and gives the same answer to every later entry as the uncut run. |
| `SnapshotTransparency.SameIndexes` | crates/ragnordb-catalog/src/metadata.rs:856-1059 | The name, group and bucket indexes are determined by the primary maps, so a rebuilt catalog cannot differ in them. |
| `SnapshotValidity.ValidIff` | crates/ragnordb-common/src/metadata_codec.rs:1800-1981 | The snapshot of an invariant state passes snapshot validation exactly when the retry cache is usable, the replica mark dominates, and nothing was cached before initialization. |
| `SnapshotValidity.OrderListed` | crates/ragnordb-common/src/metadata_codec.rs:1800-1981 | Every list of a snapshot comes out strictly ascending in its key order. |
| `SnapshotValidity.EntriesListed` | crates/ragnordb-common/src/metadata_codec.rs:2295-2387 | All entries of the snapshot validate exactly when every cached logical identity is usable. |
| `SnapshotValidity.ReplicaMarkListed` | crates/ragnordb-common/src/metadata_codec.rs:1907-1930 | The snapshot's replica mark check passes exactly when the mark dominates every placed and every retired replica. |
| `SnapshotValidity.BlankListed` | crates/ragnordb-common/src/metadata_codec.rs:1800-1981 | An uninitialized state validates as an uninitialized snapshot exactly when nothing is cached. |
| `Snapshot.CommandRankIsLexicographic` | crates/ragnordb-common/src/ids.rs:354-370 | The integer rank used to list the retry cache is the lexicographic order of logical command identities, by client, epoch, sequence, ordinal and kind. |
| `Snapshot.RanksAreLexicographic` | crates/ragnordb-common/src/metadata_codec.rs:2610-2616 | The integer ranks of identity pairs agree with their lexicographic order. |
| `Snapshot.KindsAscend` | crates/ragnordb-common/src/ids.rs:311-322 | The ranks of the command kinds ascend in the order of their declaration. |
| `SnapshotRestore.NodesRestored` | crates/ragnordb-catalog/src/metadata.rs:2524-2545 | Replaying the listed nodes, each registered Active and walked one lifecycle step at a time, rebuilds exactly the node directory. |
| `SnapshotRestore.TablesRestored` | crates/ragnordb-catalog/src/metadata.rs:2547-2560 | Replaying the listed tables rebuilds exactly the table map. |
| `SnapshotRestore.TabletsRestored` | crates/ragnordb-catalog/src/metadata.rs:2547-2560 | Replaying the listed tablets rebuilds exactly the tablet map when each Hash tablet finds room at its turn. |
| `SnapshotRestore.TabletsRefused` | crates/ragnordb-catalog/src/metadata.rs:2547-2560 | If some Hash tablet finds no room at its turn the whole restore fails. |
| `SnapshotGaps.UnmixedTabletsFit` | crates/ragnordb-catalog/src/metadata.rs:1726-1836 | In any invariant state where no table mixes Hash and Range tablets every Hash tablet finds room, so its tablets never stop a restore. |
| `SnapshotGaps.MixedTableIsLost` | crates/ragnordb-catalog/src/metadata.rs:1726-1836 | A concrete accepted log mixes a Hash and a Range tablet in a one-tablet table; its snapshot cannot be restored. |
| `SnapshotGaps.LoweredMarkIsLost` | crates/ragnordb-catalog/src/metadata.rs:1666-1676 | A concrete accepted log in which a later CREATE TABLE lowers the replica mark below a live replica; its snapshot cannot be restored. |
| `SnapshotGaps.CreateKeepsMarkIff` | crates/ragnordb-catalog/src/metadata.rs:1666-1676 | A successful CREATE TABLE leaves a dominating replica mark exactly when every placed and retired replica identity is at most the number of voters it selects. |
| `SnapshotGaps.RetirementKeepsMarkIff` | crates/ragnordb-catalog/src/metadata.rs:1845-1904 | An accepted retirement leaves a dominating mark exactly when the mark dominated before and the retired identity is not above it. |
| `SnapshotGaps.PlacementKeepsMark` | crates/ragnordb-catalog/src/metadata.rs:1906-2118 | A desired placement never breaks the dominance of the replica mark. |
| `SnapshotGaps.EarlyCacheIsLost` | crates/ragnordb-catalog/src/metadata.rs:679-694 | Any logged command other than a valid initialization, applied to the empty state, leaves a state whose snapshot cannot be restored. |
| `SnapshotGaps.UnusableIdIsLost` | crates/ragnordb-catalog/src/metadata.rs:679-694 | A direct call under a zero client or a zero sequence, which the log decoder would have refused, leaves a state whose snapshot cannot be restored. |
| `SnapshotGaps.HighRetirementIsLost` | crates/ragnordb-catalog/src/metadata.rs:1845-1904 | A concrete accepted log in which a retirement names a replica above the mark; its snapshot cannot be restored. |
| `SnapshotRuns.AlwaysRestorableIff` | crates/ragnordb-catalog/src/metadata.rs:679-1059 | A run can be cut and restored at every one of its points exactly when every entry passes a guard that can be checked before it: usable identity, not logged ahead of initialization, no tablet below a full Hash tablet, no CREATE TABLE under higher replica identities, no retirement above the mark. |
| `SnapshotRuns.EntryRestorableIff` | crates/ragnordb-catalog/src/metadata.rs:679-806 | From any restorable state one entry leads to a restorable state exactly when it passes that guard. |
| `SnapshotRuns.DisciplinedRunsRestore` | crates/ragnordb-catalog/src/metadata.rs:679-1059 | Every state of a run is restorable if its log is decoded, nothing but the initialization is logged before the cluster is initialized, no table ends up with both Hash and Range tablets, no CREATE TABLE meets a replica identity above its number of voters, and no retirement is above the mark. |
| `SnapshotRuns.TabletFitsIff` | crates/ragnordb-catalog/src/metadata.rs:1726-1836 | A new tablet leaves all Hash tablets restorable in identity order exactly when they were and none of its table above it is full. |
| `SnapshotRuns.DecodedCacheIsUsable` | crates/ragnordb-common/src/metadata_codec.rs:619-666 | If every identity of a log has passed the decoder, the retry cache is usable at every point of the run. |
| `SnapshotRuns.DecodedRestorableIff` | crates/ragnordb-common/src/metadata_codec.rs:619-666 | For decoded logs restorability reduces to the other three conditions: no entry cached before initialization, a dominating replica mark, and room for every Hash tablet. |
| `InitialPlacement.InitialVotersAreDistinctActive` | crates/ragnordb-catalog/src/metadata.rs:2258-2305 | The selection is min(3, active) distinct Active nodes. |
| `PlacementSelection.InitialVotersAreWellSpread` | crates/ragnordb-catalog/src/metadata.rs:2258-2340 | Each voter is, at its turn, ahead of every other Active node not yet chosen: with the nodes chosen so far it reaches more distinct regions, zones and racks, or as many with a smaller identity. |
| `PlacementSelection.WellSpreadIsUnique` | crates/ragnordb-catalog/src/metadata.rs:2258-2305 | That description has only one solution, so it determines the selection. |
| `InitialPlacement.GreedyCoversThreeQuarters` | crates/ragnordb-catalog/src/metadata.rs:2258-2340 | For every rival set of at most as many Active nodes, 4 × coverage of the choice ≥ 3 × coverage of the rival (hence also 27 × ≥ 19 ×), where coverage counts the distinct region, zone and rack fields of the nodes. |
| `PlacementTightness.ThreeQuartersIsTight` | crates/ragnordb-catalog/src/metadata.rs:2258-2340 | For any three labels, a five-node directory built from them where the choice covers 6 labels and a rival set covers 8. |
| `PlacementTightness.NoBetterFactor` | crates/ragnordb-catalog/src/metadata.rs:2258-2340 | Every factor above 3/4 is refuted by some directory and some rival set of admissible size. |
| `InitialPlacement.GainIsMarginal` | crates/ragnordb-catalog/src/metadata.rs:2307-2340 | The locality gain of a node is exactly the coverage it adds. |
| `InitialPlacement.GainDiminishes` | crates/ragnordb-catalog/src/metadata.rs:2307-2340 | The locality gain never grows as more nodes are selected. |
| `InitialPlacement.UnionBound` | crates/ragnordb-catalog/src/metadata.rs:2307-2340 | If no node of a set gains more than g, adding the whole set covers at most the size of the set × g more. |
| `InitialPlacement.StepClosesGap` | crates/ragnordb-catalog/src/metadata.rs:2270-2280 | One greedy pick closes at least its share (one over the size of the rival) of the gap to any rival. |
| `InitialPlacement.BestIndex` | crates/ragnordb-catalog/src/metadata.rs:2270-2280 | The scan finds a candidate of greatest gain and, among those, of least identity. |
| `InitialPlacement.TakeBest` | crates/ragnordb-catalog/src/metadata.rs:2270-2280 | Removing the best candidate by swapping in the last one leaves exactly the other candidates. |
| `InitialPlacement.SelectFrom` | crates/ragnordb-catalog/src/metadata.rs:2270-2280 | The loop computes the greedy selection of the candidate set, so the order of the candidate list and the order in which removal leaves it do not matter. |
| `InitialPlacement.SelectInitialPlacement` | crates/ragnordb-catalog/src/metadata.rs:2258-2305 | No selection exactly when no node is Active; otherwise the greedy voters with the policy whose minimums are what they cover. |
| `MetadataPreservation.FirstPlacementValid` | crates/ragnordb-common/src/metadata_codec.rs:1467-1524 | The first placement of a new table always passes placement validation. |
| `MetadataPreservation.FirstPlacementSatisfied` | crates/ragnordb-catalog/src/metadata.rs:1618-1637 | The first placement meets its own policy on the current directory. |
| `ExactlyOnce.RepeatsAreInvisible` | crates/ragnordb-catalog/src/metadata.rs:679-694 | From any state, a log and the same log with every repeated logical command deleted end in the same full state, and the surviving entries get the same answers. |
| `ExactlyOnce.RetryRepeatsFirstAnswer` | crates/ragnordb-catalog/src/metadata.rs:679-694 | A retry anywhere later in a run changes nothing and answers as the first occurrence did, except that a rejection other than a timestamp regression comes back as an invalid-command rejection carrying the original text. |
| `ExactlyOnce.ReplayedIsCached` | crates/ragnordb-catalog/src/metadata.rs:2393-2468 | Caching an outcome and reading it back yields exactly that replayed form, for every outcome. |
| `MetadataRuns.CacheRoundTrip` | crates/ragnordb-catalog/src/metadata.rs:2393-2468 | Reading back a cached outcome and caching it again gives the cached outcome. |
| `ExactlyOnce.RunSeen` | crates/ragnordb-catalog/src/metadata.rs:679-694 | After any log the cached identities are those cached before plus those logged. |
| `MetadataPreservation.InitInv` | crates/ragnordb-catalog/src/metadata.rs:451-524 | The empty state satisfies the invariant. |
| `MetadataRuns.EntryKeepsInv` | crates/ragnordb-catalog/src/metadata.rs:656-806 | Every log entry, whatever its command, keeps the invariant and moves every component only forward. |
| `MetadataRuns.RunKeepsInv` | crates/ragnordb-catalog/src/metadata.rs:656-806 | Every run keeps the invariant. |
| `MetadataRuns.ReachableInv` | crates/ragnordb-catalog/src/metadata.rs:656-806 | Every state of every run from the empty state satisfies the invariant: unique and disjoint endpoints, valid schemas, exact indexes, disjoint tablets, dominated marks, satisfied placements, undesired retirements, live protections above the safe point, consistent sessions and cache. |
| `MetadataRuns.AtProgress` | crates/ragnordb-catalog/src/metadata.rs:656-806 | Between consecutive states of a run frontier, safe point, epochs, versions, lifecycles, retirements, sessions and cache only advance. |
| `MetadataRuns.RunAppend` | crates/ragnordb-catalog/src/metadata.rs:656-658 | Running a concatenated log is running its parts in turn. |
| `MetadataHonesty.ApplyIsHonest` | crates/ragnordb-catalog/src/metadata.rs:75-84 | For every state and command, the state changes if and only if the outcome says so. |
| `MetadataEffects.TopologyEffect` | crates/ragnordb-catalog/src/metadata.rs:1422-2243 | A topology command that reports a change performed its guarded update; any other leaves the topology as it was. |
| `MetadataEffects.EffectIsPerformed` | crates/ragnordb-catalog/src/metadata.rs:1422-2243 | Conversely, a topology command whose guarded update is enabled is accepted and performs exactly that update. |
| `MetadataSteps.TopologySafe` | crates/ragnordb-catalog/src/metadata.rs:1422-2243 | Every valid topology command keeps the topology invariant and only advances the topology. |
| `MetadataSteps.PlacementAcceptedIff` | crates/ragnordb-catalog/src/metadata.rs:1906-2118 | A desired placement is accepted exactly when its epoch follows, its hosts are eligible and of the right class, no replica is retired, its leaders are Active, kept replicas stay put, no voter is demoted, and the locality minimums hold. |
| `MetadataSteps.EpochAcceptedIff` | crates/ragnordb-catalog/src/metadata.rs:1906-2118 | The epoch and member checks pass exactly when the placement is the first at epoch 1, or the next epoch with every kept replica on its node and no voter demoted. |
| `MetadataSteps.ReplicasAcceptedIff` | crates/ragnordb-catalog/src/metadata.rs:1906-2118 | The replica loop finds nothing to reject exactly when each replica is individually acceptable. |
| `MetadataSteps.LeadersAcceptedIff` | crates/ragnordb-catalog/src/metadata.rs:1906-2118 | The preferred-leader loop finds nothing to reject exactly when all leaders are registered and Active. |
| `MetadataSteps.DomainsAcceptedIff` | crates/ragnordb-catalog/src/metadata.rs:1906-2118 | The locality checks pass exactly when the region, zone and rack fields of the hosts take at least minRegions, minZones and minRacks values. |
| `MetadataSteps.EvolutionAcceptedIff` | crates/ragnordb-catalog/src/metadata.rs:2120-2243 | A schema update passes the checks exactly when it expects the stored version and extends the stored schema by one version with appended nullable columns of higher identity. |
| `MetadataSpec.MaxReplica` | crates/ragnordb-catalog/src/metadata.rs:1666-1676 | The greatest replica identity of a list, attained when the list is not empty. |
| `MetadataSpec.ClampToProtections` | crates/ragnordb-catalog/src/metadata.rs:1301-1306 | The candidate lowered to the least protected timestamp, and never lower than needed. |
| `GcSafety.SafePointIsMonotone` | crates/ragnordb-catalog/src/metadata.rs:1279-1313 | Along any run the safe point never decreases. |
| `GcSafety.SafePointRespectsProtections` | crates/ragnordb-catalog/src/metadata.rs:1100-1313 | In every reachable state the safe point is at or below every registered protection. |
| `GcSafety.ProtectionsEndProperly` | crates/ragnordb-catalog/src/metadata.rs:1260-1313 | A protection that disappears during a run was removed by a definite entry: a release of its identity, or a sweep whose clock reached the deadline it had. |
| `GcSafety.LeaseLaw` | crates/ragnordb-catalog/src/metadata.rs:1100-1313 | What any garbage-collection command does to any one lease: exactly when it starts, is altered (only while its own clock finds it live, never to an earlier deadline, never below the safe point), ends, or stays as it was. |
| `GcSafety.ExpiredLeasesAreFrozen` | crates/ragnordb-catalog/src/metadata.rs:1150-1258 | A lease that the clocks of later entries find expired is never revived: until it is removed it stays exactly as it was. |
| `GcSafety.AdvanceLands` | crates/ragnordb-catalog/src/metadata.rs:1279-1313 | An advance is refused exactly when it would move back; otherwise it lands on the lower of the candidate and the least live protection and sweeps exactly the expired leases. |
| `GcSafety.LandsOnIsUnique` | crates/ragnordb-catalog/src/metadata.rs:1279-1313 | That landing point is unique. |
| `GcSafety.AdvanceInRun` | crates/ragnordb-catalog/src/metadata.rs:1279-1313 | The same for an executed entry of a run. |
| `ClientSessions.RegistersExactly` | crates/ragnordb-catalog/src/metadata.rs:1315-1376 | A registration opens a session exactly when there is an epoch it may open (the requested one or 1 at first, then the successor), and only then changes anything. |
| `ClientSessions.RenewsExactly` | crates/ragnordb-catalog/src/metadata.rs:1378-1420 | A renewal takes effect exactly when it names the current epoch and moves the acknowledgement strictly forward below the end of the number range. |
| `ClientSessions.SessionChain` | crates/ragnordb-catalog/src/metadata.rs:1315-1420 | Over any run a client's sessions form one chain: each change opens the next epoch with nothing acknowledged or moves the acknowledgement of the same epoch forward. |
| `ClientSessions.EpochsAreNeverShared` | crates/ragnordb-catalog/src/metadata.rs:1315-1376 | No two executed registrations of a client hand out the same epoch; later ones are larger. |
| `ClientSessions.StaleSessionIsFenced` | crates/ragnordb-catalog/src/metadata.rs:1378-1420 | Once a later epoch is open, a renewal under an earlier epoch changes nothing at any later point of the run. |
| `MetadataHistory.PlacementEpochs` | crates/ragnordb-catalog/src/metadata.rs:1906-2118 | Over any run a tablet's placements carry epochs 1, 2, 3, …; a replica kept from one to the next stays on its node and only moves from Learner to Voter. |
| `MetadataHistory.RetiredForever` | crates/ragnordb-catalog/src/metadata.rs:1845-2118 | Once retired, a replica stays retired with the same proof and appears in no later desired placement of its group. |
| `MetadataHistory.RetiredStays` | crates/ragnordb-catalog/src/metadata.rs:1845-1904 | Retirement records are permanent and immutable along a run. |
| `MetadataHistory.SchemaChain` | crates/ragnordb-catalog/src/metadata.rs:2120-2243 | The schemas of a table over a run form a chain of valid evolutions ending in the current one. |
| `MetadataHistory.SchemaIsAppendOnly` | crates/ragnordb-catalog/src/metadata.rs:2120-2243 | Between any two schemas in a table's history the older column list is a prefix of the newer, name, key and tablet count are equal, versions differ by the number of steps, and a column identity always means the same column. |
| `MetadataHistory.LifecyclesAreOrdered` | crates/ragnordb-catalog/src/metadata.rs:1472-1531 | Over any run a node starts Active and walks the lifecycle one step at a time; nothing else about it ever changes. |
| `PlacementSafety.PoliciesPersist` | crates/ragnordb-catalog/src/metadata.rs:1472-2118 | In every reachable state each desired placement still meets its policy: live hosts of the right class, enough distinct region, zone and rack fields, one voter per demanded copy; and no two nodes share one of their four addresses. |
| `PlacementSafety.SatisfiedMeansPolicy` | crates/ragnordb-catalog/src/metadata.rs:1906-2118 | The stored form of a satisfied placement implies the policy stated over the fields of the hosts. |
| `Locality.MinimumsByDomain` | crates/ragnordb-catalog/src/metadata.rs:1998-2037 | The minimums by domain are the region minimum over region fields, the zone minimum over zone fields and the rack minimum over rack fields. |
| `PartitionOwnership.OverlapIffSharedKey` | crates/ragnordb-catalog/src/metadata.rs:2344-2355 | Two valid half-open ranges overlap by the code's test exactly when some key lies in both. |
| `ByteOrder.LessIsLexicographic` | crates/ragnordb-catalog/src/metadata.rs:2344-2355 | The recursive key comparison is the lexicographic order: at the first difference the smaller byte, or the end of the key, decides. |
| `PartitionOwnership.AtMostOneRangeOwner` | crates/ragnordb-catalog/src/metadata.rs:1726-1836 | In every reachable state a key lies in at most one Range tablet of a table. |
| `PartitionOwnership.HashBucketsAreDistinct` | crates/ragnordb-catalog/src/metadata.rs:1726-1836 | In every reachable state the Hash tablets of a table own distinct buckets below its tablet count. |
| `PartitionOwnership.HashTableHasRoom` | crates/ragnordb-catalog/src/metadata.rs:1726-1836 | A tablet of a table with only Hash tablets is never refused for exceeding the tablet count. |
| `PartitionOwnership.Pigeonhole` | crates/ragnordb-catalog/src/metadata.rs:1726-1836 | Distinct buckets below n with one still free number fewer than n. |
| `PartitionOwnership.TabletAcceptedIff` | crates/ragnordb-catalog/src/metadata.rs:1726-1836 | A tablet is accepted exactly when its identities are new, its table exists, no key or bucket would have two owners, and a Hash tablet agrees with the tablet count and finds room. |
| `IdentityAllocation.IndexesAgree` | crates/ragnordb-catalog/src/metadata.rs:2377-2391 | Looking up a name, a group or a bucket in its index gives what a search of the primary map gives. |
| `IdentityAllocation.ReachableIdentities` | crates/ragnordb-catalog/src/metadata.rs:1533-1836 | In every reachable state the marks dominate all visible identities, no tablet owns the metadata group, and the indexes are searches. |
| `IdentityAllocation.CreateSucceedsIff` | crates/ragnordb-catalog/src/metadata.rs:1533-1683 | A valid CREATE TABLE succeeds, with the identities just above the marks, exactly when the name is free, a node is Active and no mark is exhausted; the occupied-identity and re-validation rejections never happen. |
| `IdentityAllocation.MarksAreMonotone` | crates/ragnordb-catalog/src/metadata.rs:1533-1836 | The table, tablet and group marks never decrease along a run. |
| `IdentityAllocation.CreatedIdentitiesIncrease` | crates/ragnordb-catalog/src/metadata.rs:1533-1683 | All three identities grow strictly from one executed CREATE TABLE to any later one. |
| `MetadataRuns.TopologyOutcome` | crates/ragnordb-catalog/src/metadata.rs:1422-2243 | Only CREATE TABLE can answer with created identities. |
| `TimestampTiling.ReservationsTileFrontier` | crates/ragnordb-catalog/src/metadata.rs:1078-1098 | The ranges of all executed reservations of any run are adjacent and cover each timestamp from 1 to the frontier exactly once. |
| `TimestampTiling.RunTiles` | crates/ragnordb-catalog/src/metadata.rs:1078-1098 | The same from any starting state; retried entries do not move the frontier. |
| `TopologyLaws.LifecycleLaw` | crates/ragnordb-catalog/src/metadata.rs:1472-1531 | A registered node moves exactly one of the four steps on, out of service only once no desired replica is on it, and nothing but its lifecycle changes; its own lifecycle again changes nothing. |
| `TopologyLaws.RegistrationLaw` | crates/ragnordb-catalog/src/metadata.rs:1422-1470 | A node joins exactly when its identity is new, it is Active and none of its four addresses is in use; the same descriptor again is already applied, one differing in lifecycle only asks for that lifecycle, any other conflicts. |
| `TopologyLaws.TableLaw` | crates/ragnordb-catalog/src/metadata.rs:1685-1724 | A table joins exactly when it is valid and neither identity nor name is in use, and raises only the table mark. |
| `TopologyLaws.TabletLaw` | crates/ragnordb-catalog/src/metadata.rs:1726-1836 | What an accepted tablet writes: itself, the group index, for Hash the bucket index, and the two marks, upwards. |
| `TopologyLaws.CreationLaw` | crates/ragnordb-catalog/src/metadata.rs:1533-1683 | A successful CREATE TABLE publishes the requested schema at version 1 with one tablet, a tablet at epoch 1 that every key falls into, the first placement and the marks, and changes nothing else; an unsuccessful one changes nothing. |
| `TopologyLaws.FirstPlacementLaw` | crates/ragnordb-catalog/src/metadata.rs:2258-2305 | The first placement has epoch 1 and voters 1, 2, … on the selected nodes; its policy demands as many copies and exactly the regions, zones and racks these nodes are in, no storage class and no leaders. |
| `TopologyLaws.PlacementLaw` | crates/ragnordb-catalog/src/metadata.rs:1906-2118 | A placement is stored exactly when its tablet is known and it is acceptable and not the one stored; besides it only the replica mark changes, to the larger of itself and the largest replica. |
| `TopologyLaws.RetirementLaw` | crates/ragnordb-catalog/src/metadata.rs:1845-1904 | A removal proof is stored exactly when it is the first for its replica and the tablet of the group is placed at that epoch without the replica; the same proof again changes nothing. |
| `TopologyLaws.EvolutionLaw` | crates/ragnordb-catalog/src/metadata.rs:2120-2243 | A schema is replaced exactly by its next version, expected at the stored one, and nothing else changes. |
| `AnswerLaws.InitializationLaw` | crates/ragnordb-catalog/src/metadata.rs:1061-1076 | The first identity is kept; the same one again is already applied; any other conflicts. |
| `AnswerLaws.ClusterIsPermanent` | crates/ragnordb-catalog/src/metadata.rs:1061-1076 | Over any run a cluster identity, once set, never changes. |
| `AnswerLaws.ReservationLaw` | crates/ragnordb-catalog/src/metadata.rs:1078-1098 | A reservation above the frontier hands out everything between; any other answers with the frontier and the number asked for, in that order. |
| `AnswerLaws.CompatibilityIdLaw` | crates/ragnordb-catalog/src/metadata.rs:2357-2367 | Two requests share a compatibility identity exactly when client and sequence agree; it lies in the first session, with ordinal 1 and kind Catalog. |
| `AnswerLaws.GcRejectionsAreTrue` | crates/ragnordb-catalog/src/metadata.rs:1100-1313 | The cause with which a lease command is refused is a fact about the leases and the command. |
| `AnswerLaws.SessionRejectionsAreTrue` | crates/ragnordb-catalog/src/metadata.rs:1315-1420 | The cause with which a session command is refused is a fact about the session and the command. |
| `AnswerLaws.LifecycleRejectionsAreTrue` | crates/ragnordb-catalog/src/metadata.rs:1472-1531 | A refused lifecycle change names an unknown node, a step that is not the next one, or a node that hosts a desired replica. |
| `AnswerLaws.TableRejectionsAreTrue` | crates/ragnordb-catalog/src/metadata.rs:1685-1724 | A refused table is invalid, or its identity or its name is in use, as reported. |
| `AnswerLaws.TabletRejectionsAreTrue` | crates/ragnordb-catalog/src/metadata.rs:1726-1836 | The cause with which a tablet is refused is a fact about the catalog and the tablet. |
| `AnswerLaws.CreateRejectionsAreTrue` | crates/ragnordb-catalog/src/metadata.rs:1533-1683 | A refused CREATE TABLE names a taken name, an empty set of Active nodes or an exhausted mark only where that is so. |
| `AnswerLaws.RetirementRejectionsAreTrue` | crates/ragnordb-catalog/src/metadata.rs:1845-1904 | The cause with which a removal proof is refused is a fact about the group, its placement and the stored proofs. |
| `AnswerLaws.UpdateRejectionsAreTrue` | crates/ragnordb-catalog/src/metadata.rs:2120-2243 | The cause with which a schema update is refused is a difference between the stored and the proposed schema. |
| `AnswerLaws.PlacementRejectionsAreTrue` | crates/ragnordb-catalog/src/metadata.rs:1906-2118 | The cause with which a placement is refused is a fact about one of its replicas or leaders, its hosts' localities, or its predecessor. |
| `MetadataMachine.MetadataState.constructor` | crates/ragnordb-catalog/src/metadata.rs:451-524 | A new object holds the empty state. |
| `MetadataMachine.MetadataState.ApplyClusterInitialized` | crates/ragnordb-catalog/src/metadata.rs:1061-1076 | In place, the step of cluster initialization; writes only the cluster identity. |
| `MetadataMachine.MetadataState.ApplyReserveTimestamps` | crates/ragnordb-catalog/src/metadata.rs:1078-1098 | In place, the reservation step that the tiling theorem is about; writes only the frontier. |
| `MetadataMachine.MetadataState.ApplyRegisterGcProtection` | crates/ragnordb-catalog/src/metadata.rs:1100-1148 | In place, the registration step of the lease law; writes only the protections. |
| `MetadataMachine.MetadataState.ApplyUpdateGcProtection` | crates/ragnordb-catalog/src/metadata.rs:1150-1212 | In place, the update step of the lease law; writes only the protections. |
| `MetadataMachine.MetadataState.ApplyRenewGcProtection` | crates/ragnordb-catalog/src/metadata.rs:1214-1258 | In place, the renewal step of the lease law; writes only the protections. |
| `MetadataMachine.MetadataState.ApplyReleaseGcProtection` | crates/ragnordb-catalog/src/metadata.rs:1260-1277 | In place, the release step of the lease law; writes only the protections. |
| `MetadataMachine.MetadataState.ApplyAdvanceGcSafePoint` | crates/ragnordb-catalog/src/metadata.rs:1279-1313 | In place, the advance whose landing point is characterized; writes only safe point and protections. |
| `MetadataMachine.MetadataState.ApplyRegisterClient` | crates/ragnordb-catalog/src/metadata.rs:1315-1376 | In place, the registration step of the session chain; writes only the sessions. |
| `MetadataMachine.MetadataState.ApplyRenewClient` | crates/ragnordb-catalog/src/metadata.rs:1378-1420 | In place, the renewal step of the session chain; writes only the sessions. |
| `MetadataMachine.MetadataState.ApplyRegisterNode` | crates/ragnordb-catalog/src/metadata.rs:1422-1470 | In place, the node registration of the effect theorems; writes only the nodes. |
| `MetadataMachine.MetadataState.ApplySetNodeLifecycle` | crates/ragnordb-catalog/src/metadata.rs:1472-1531 | In place, the lifecycle step of the effect theorems; writes only the nodes. |
| `MetadataMachine.MetadataState.ApplyCreateTableTopology` | crates/ragnordb-catalog/src/metadata.rs:1533-1683 | In place, the atomic creation: either every map and mark is written as specified or nothing is. |
| `MetadataMachine.MetadataState.CheckPublication` | crates/ragnordb-catalog/src/metadata.rs:1592-1650 | The last checks decide exactly whether publication proceeds, and change nothing. |
| `MetadataMachine.MetadataState.Publish` | crates/ragnordb-catalog/src/metadata.rs:1592-1682 | Checks, then writes everything or nothing. |
| `MetadataMachine.MetadataState.WriteTopology` | crates/ragnordb-catalog/src/metadata.rs:1652-1676 | The writes of publication, including the replica mark, give exactly the published topology. |
| `MetadataMachine.MetadataState.ApplyCreateTable` | crates/ragnordb-catalog/src/metadata.rs:1685-1724 | In place, the table step of the effect theorems; writes only tables, name index and marks. |
| `MetadataMachine.MetadataState.ApplyCreateTablet` | crates/ragnordb-catalog/src/metadata.rs:1726-1836 | In place, the tablet step of the effect theorems; writes only tablets, their indexes and marks. |
| `MetadataMachine.MetadataState.ApplyReplicaRetirement` | crates/ragnordb-catalog/src/metadata.rs:1845-1904 | In place, the retirement step of the effect theorems; writes only the retirements. |
| `MetadataMachine.MetadataState.ApplyDesiredPlacement` | crates/ragnordb-catalog/src/metadata.rs:1906-2118 | In place, the placement step of the effect theorems; writes only placements and marks. |
| `MetadataMachine.MetadataState.ApplySchemaUpdate` | crates/ragnordb-catalog/src/metadata.rs:2120-2243 | In place, the schema step of the effect theorems; writes only tables and name index. |
| `MetadataMachine.MetadataState.ApplyCommand` | crates/ragnordb-catalog/src/metadata.rs:696-806 | Validation first, then dispatch: the object moves exactly as the step function, on which all run theorems rest. |
| `MetadataMachine.MetadataState.Apply` | crates/ragnordb-catalog/src/metadata.rs:656-658 | The same, and the invariant of the object is kept. |
| `MetadataMachine.MetadataState.ApplyWithLogicalCommandId` | crates/ragnordb-catalog/src/metadata.rs:679-694 | The object moves exactly as the logged step: cached answer, or apply and cache; the invariant is kept. |
| `MetadataMachine.MetadataState.ApplyWithRequestId` | crates/ragnordb-catalog/src/metadata.rs:666-673 | The same under the compatibility identity of a request. |
| `MetadataChecks.CompareEndpoints` | crates/ragnordb-catalog/src/metadata.rs:2470-2477 | Finds a shared endpoint exactly when there is one. |
| `MetadataChecks.EndpointConflict` | crates/ragnordb-catalog/src/metadata.rs:1443-1455 | The directory walk reports a conflict exactly when some node shares an endpoint. |
| `MetadataChecks.CheckReplicas` | crates/ragnordb-catalog/src/metadata.rs:1906-2118 | The replica loop stops at the first rejection of the specification. |
| `MetadataChecks.CheckLeaders` | crates/ragnordb-catalog/src/metadata.rs:1906-2118 | The leader loop stops at the first rejection of the specification. |
| `MetadataChecks.CheckDomains` | crates/ragnordb-catalog/src/metadata.rs:1906-2118 | The domain checks return the first rejection of the specification. |
| `MetadataChecks.MemberLookup` | crates/ragnordb-catalog/src/metadata.rs:1906-2118 | Looking a replica up in a map keyed by identity decides the same as searching the canonical list. |
| `MetadataChecks.CheckMembers` | crates/ragnordb-catalog/src/metadata.rs:1906-2118 | The member loop over the map of prior replicas returns the first rejection of the list-based specification. |
| `MetadataChecks.SameColumns` | crates/ragnordb-catalog/src/metadata.rs:2120-2243 | The prefix loop accepts exactly when no prior column changed. |
| `MetadataChecks.CheckAddedColumns` | crates/ragnordb-catalog/src/metadata.rs:2120-2243 | The loop over added columns returns the first rejection of the specification. |
| `MetadataChecks.CheckEvolution` | crates/ragnordb-catalog/src/metadata.rs:2120-2243 | The schema checks return the specified rejection, if any. |
| `MetadataChecks.CheckPlacement` | crates/ragnordb-catalog/src/metadata.rs:1906-2118 | The placement checks return the specified rejection, if any. |
| `MetadataRestore.FromSnapshot` | crates/ragnordb-catalog/src/metadata.rs:856-1059 | Building an object from a snapshot succeeds exactly when the specified restore does, and holds exactly its state. |
| `SnapshotChecks.ValidateSnapshot` | crates/ragnordb-common/src/metadata_codec.rs:1800-1981 | The validator, built from the loops below, accepts exactly the valid snapshots. |
| `SnapshotChecks.CheckCluster` | crates/ragnordb-common/src/metadata_codec.rs:1800-1821 | An identified cluster needs a proper identity, an unidentified one an empty snapshot. |
| `SnapshotChecks.CheckEntries` | crates/ragnordb-common/src/metadata_codec.rs:1823-1853 | The eight entry loops accept exactly when every entry passes its own validator. |
| `SnapshotChecks.CheckCatalogMarks` | crates/ragnordb-common/src/metadata_codec.rs:1855-1905 | Floors first, then running maxima: accepts exactly when the table, tablet and group marks dominate the floor and every visible identity. |
| `SnapshotChecks.CheckReplicaMark` | crates/ragnordb-common/src/metadata_codec.rs:1907-1930 | The running maximum over placed and retired replicas accepts exactly when the replica mark dominates them all. |
| `SnapshotChecks.Largest` | crates/ragnordb-common/src/metadata_codec.rs:1857-1862 | Continuing a running maximum over a list: the result is below a bound exactly when what was seen and every key of the list are. |
| `SnapshotChecks.LargestReplica` | crates/ragnordb-common/src/metadata_codec.rs:1907-1922 | The running maximum over the replicas of all placements is below a bound exactly when every placement is. |
| `SnapshotChecks.StrictlyAscending` | crates/ragnordb-common/src/metadata_codec.rs:2610-2616 | The loop over adjacent pairs accepts exactly when each pair is in order. |
| `SnapshotChecks.CheckOrder` | crates/ragnordb-common/src/metadata_codec.rs:1932-1978 | The eight order loops, comparing keys field by field, accept exactly the lists that ascend in their ranks. |
| `MetadataRestore.RestoreNodesOn` | crates/ragnordb-catalog/src/metadata.rs:2524-2545 | The node loop performs the specified replay in place, keeping the invariant. |
| `MetadataRestore.WalkNodeOn` | crates/ragnordb-catalog/src/metadata.rs:2524-2545 | The lifecycle loop performs the specified walk in place. |
| `MetadataRestore.RestoreTablesOn` | crates/ragnordb-catalog/src/metadata.rs:2547-2560 | The table loop performs the specified replay in place. |
| `MetadataRestore.RestoreTabletsOn` | crates/ragnordb-catalog/src/metadata.rs:2547-2560 | The tablet loop performs the specified replay in place. |
| `MetadataRestore.RestorePlacementsOn` | crates/ragnordb-catalog/src/metadata.rs:856-1059 | The placement loop rebuilds the specified placements or fails as specified. |
| `MetadataRestore.RestoreRetiredOn` | crates/ragnordb-catalog/src/metadata.rs:856-1059 | The retirement loop rebuilds the specified retirements or fails as specified. |
| `MetadataRestore.RestoreCacheOn` | crates/ragnordb-catalog/src/metadata.rs:856-1059 | The cache loop rebuilds the specified retry cache or fails as specified. |
| `MetadataRestore.RestoreSessionsOn` | crates/ragnordb-catalog/src/metadata.rs:856-1059 | The session loop rebuilds the specified sessions or fails as specified. |
| `MetadataRestore.RestoreRestOn` | crates/ragnordb-catalog/src/metadata.rs:856-1059 | Everything after the catalog is restored as specified or the restore fails. |
| `Schema.FindColumn` | crates/ragnordb-catalog/src/lib.rs:448-532 | A found column is in the list with the identity asked for; none is found only when there is none. |
| `Schema.ValidateColumns` | crates/ragnordb-catalog/src/lib.rs:448-532 | The loop with growing sets accepts exactly lists of named columns with distinct names and distinct non-zero identities. |
| `Schema.ValidatePrimaryKey` | crates/ragnordb-catalog/src/lib.rs:448-532 | The loop accepts exactly the duplicate-free keys over declared non-nullable columns. |
| `Schema.ValidateDefinition` | crates/ragnordb-catalog/src/lib.rs:448-532 | Accepts exactly the valid table definitions. |
| `Schema.ValidateSchema` | crates/ragnordb-catalog/src/lib.rs:419-445 | Accepts exactly the valid table schemas. |
| `Validation.ValidateNode` | crates/ragnordb-common/src/metadata_codec.rs:1228-1257 | Accepts exactly the valid node descriptors. |
| `Validation.ValidatePolicy` | crates/ragnordb-common/src/metadata_codec.rs:485-522 | Accepts exactly the valid placement policies. |
| `Validation.ValidateReplicas` | crates/ragnordb-common/src/metadata_codec.rs:1467-1524 | The loop accepts exactly the canonical replica lists and counts their voters. |
| `Validation.ValidatePlacement` | crates/ragnordb-common/src/metadata_codec.rs:1467-1524 | Accepts exactly the valid placements. |
| `Validation.ValidateRequest` | crates/ragnordb-common/src/metadata_codec.rs:1110-1185 | Accepts exactly the valid CREATE TABLE requests. |
| `Validation.ValidateCommand` | crates/ragnordb-common/src/metadata_codec.rs:668-798 | Accepts exactly the valid commands. |
| `Validation.ValidateTableShape` | crates/ragnordb-common/src/metadata_codec.rs:2720-2738 | Accepts exactly the tables with an identity, a name, a version and a tablet count. |
| `Validation.ValidateTablet` | crates/ragnordb-common/src/metadata_codec.rs:1393-1421 | Accepts exactly the valid tablet descriptors, outside the metadata group and with a valid partition. |
| `Validation.ValidateRetirement` | crates/ragnordb-common/src/metadata_codec.rs:1696-1737 | Accepts exactly the retirements without a zero field. |
| `Validation.RequestMakesValidSchema` | crates/ragnordb-common/src/metadata_codec.rs:1110-1185 | A request that validates makes a valid schema under any non-zero identity. |
| `RowCodec.RowReadsBack` | crates/ragnordb-common/src/encoding.rs:62-112 | Decoding the encoding of any encodable row gives the row. |
| `RowCodec.RowWritesBack` | crates/ragnordb-common/src/encoding.rs:62-112 | Bytes that decode to a row are the encoding of that row: the format is canonical. |
| `RowCodec.AcceptedExactly` | crates/ragnordb-common/src/encoding.rs:77-112 | The decoder accepts exactly the encodings of rows. |
| `RowCodec.CountCheckIsRedundant` | crates/ragnordb-common/src/encoding.rs:77-112 | Dropping the early value-count check changes no result. |
| `RowCodec.ValueReadsBack` | crates/ragnordb-common/src/encoding.rs:115-188 | A value reads back from the front of any bytes that start with its encoding. |
| `RowCodec.ValueWritesBack` | crates/ragnordb-common/src/encoding.rs:115-188 | The bytes consumed for a value are its encoding. |
| `RowCodec.ValuesArePrefixFree` | crates/ragnordb-common/src/encoding.rs:115-188 | No value's encoding is a prefix of another's. |
| `RowCodec.EncodeValueInto` | crates/ragnordb-common/src/encoding.rs:115-140 | Appends exactly the encoding of the value, or fails when there is none. |
| `RowCodec.EncodeRow` | crates/ragnordb-common/src/encoding.rs:62-74 | The loop that appends values computes the row encoding. |
| `RowCodec.DecodeRow` | crates/ragnordb-common/src/encoding.rs:77-112 | The cursor-driven decoder computes the parsing function. |
| `RowCodec.DecodeValues` | crates/ragnordb-common/src/encoding.rs:77-112 | The value loop reads exactly the counted values and accepts only at the end of the input. |
| `RowCodec.ReadHeader` | crates/ragnordb-common/src/encoding.rs:77-112 | Reads version and count, and leaves the cursor behind them. |
| `RowCodec.Decoder.constructor` | crates/ragnordb-common/src/encoding.rs:191-205 | A new decoder has read nothing. |
| `RowCodec.Decoder.ReadExact` | crates/ragnordb-common/src/encoding.rs:224-245 | Succeeds exactly when enough bytes are left, splits them off, and otherwise does not move. |
| `RowCodec.Decoder.ReadU8` | crates/ragnordb-common/src/encoding.rs:211-213 | Reads one byte exactly when one is left. |
| `RowCodec.Decoder.ReadU32` | crates/ragnordb-common/src/encoding.rs:215-222 | Reads four bytes, big-endian, exactly when four are left. |
| `RowCodec.Decoder.DecodeValue` | crates/ragnordb-common/src/encoding.rs:143-188 | Reads one value exactly when the unread bytes start with one. |
| `RowLayout.SmallValues` | crates/ragnordb-common/src/encoding.rs:34-37 | NULL is the byte 0; TRUE is 3, 1 and FALSE is 3, 0. |
| `RowLayout.IntLayout` | crates/ragnordb-common/src/encoding.rs:115-140 | A number is the byte 1 and the eight base-256 digits of its two's complement pattern, from the top. |
| `RowLayout.TextLayout` | crates/ragnordb-common/src/encoding.rs:115-140 | Text is the byte 2, four length bytes from the top and its UTF-8 bytes; it has no encoding exactly when it is longer than 2^32 - 1 bytes. |
| `RowLayout.RowLayout` | crates/ragnordb-common/src/encoding.rs:62-74 | A row is the byte 1, four count bytes from the top and its values; it has no encoding exactly when there are too many values or one has none. |
| `RowLayout.BodyJoins` | crates/ragnordb-common/src/encoding.rs:62-74 | The values of a row are encoded in order with nothing between them. |
| `RowLayout.DecoderByTag` | crates/ragnordb-common/src/encoding.rs:143-188 | What the decoder answers on each first byte: 0 is NULL, 1 a number of nine bytes, 2 text of the stated length, 3 followed by 0 or 1 a Boolean, and nothing else. |
| `RowLayout.LengthBytes` | crates/ragnordb-common/src/encoding.rs:215-222 | Four length bytes say the number with these digits. |
| `RowLayout.DigitFromTop` | crates/ragnordb-common/src/encoding.rs:115-140 | Byte i of a big-endian number is its base-256 digit i, counted from the top. |
| `Utf8.CharLayout` | crates/ragnordb-common/src/encoding.rs:115-140 | The length, marker bits and payload bits of each encoded character (section 3 of RFC 3629). |
| `Utf8.EncodeJoins` | crates/ragnordb-common/src/encoding.rs:115-140 | Text is encoded character by character, in order. |
| `Utf8.TextReadsBack` | crates/ragnordb-common/src/encoding.rs:115-188 | Text survives UTF-8 encoding and decoding (section 4 of RFC 3629). |
| `Utf8.TextWritesBack` | crates/ragnordb-common/src/encoding.rs:115-188 | Bytes that decode as UTF-8 are the encoding of the text: overlong and surrogate forms are refused. |
| `Bytes.ReadsBack` | crates/ragnordb-common/src/encoding.rs:115-140 | A number that fits reads back from its big-endian bytes. |
| `Bytes.WritesBack` | crates/ragnordb-common/src/encoding.rs:143-188 | Bytes are the big-endian form of the number they read as. |
| `Bytes.PatternRoundTrips` | crates/ragnordb-common/src/encoding.rs:115-188 | Two's complement is a bijection between 64-bit integers and patterns. |
| `Parsing.AllReadBack` | crates/ragnordb-common/src/encoding.rs:62-112 | Concatenated prints of a list read back as the list, for any printer and parser that undo each other. |
| `Parsing.AllWriteBack` | crates/ragnordb-common/src/encoding.rs:62-112 | What is consumed for a list is the concatenation of its prints. |
| `CatalogDurability.CrashConsistency` | crates/ragnordb-catalog/src/durable.rs:133-231 | After any run with arbitrary log outcomes the visible catalog is the replay of the durable records onto the starting catalog, except for at most one trailing record of unknown outcome after which nothing was written. |
| `CatalogDurability.RunsAreConsistent` | crates/ragnordb-catalog/src/durable.rs:133-231 | The same kept by every run from any consistent writer. |
| `CatalogDurability.StoppedForGood` | crates/ragnordb-catalog/src/durable.rs:209-231 | A stopped writer never changes again. |
| `CatalogDurability.StopsOnlyOnUnknown` | crates/ragnordb-catalog/src/durable.rs:133-220 | A running writer stops exactly when an append has an unknown outcome; publication after a durable append never fails. |
| `CatalogDurability.CreatesExactly` | crates/ragnordb-catalog/src/durable.rs:133-205 | A table is created exactly when the writer runs, the name is free, the definition is valid, an identity is left, a non-zero timestamp is granted and the record becomes durable; then exactly one record and one visible table are added, and in every other case the visible catalog stays as it was. |
| `CatalogDurability.TableIdsAreNeverReused` | crates/ragnordb-catalog/src/lib.rs:282-312 | The identities of the logged tables strictly increase and avoid those of the starting catalog. |
| `CatalogRounds.RoundsAreSound` | crates/ragnordb-catalog/src/durable.rs:100-231 | Over any number of rounds of recovering, running and crashing, also on appends of unknown outcome, the whole log recovers, its identities ascend across rounds and none belongs to a starting table. |
| `CatalogRounds.AcknowledgedTablesSurvive` | crates/ragnordb-catalog/src/durable.rs:100-205 | A table reported as created in any round is visible unchanged after every later attempt, crash and recovery. |
| `CatalogRounds.RecoverComposes` | crates/ragnordb-catalog/src/lib.rs:360-395 | Recovering a log in two parts is recovering it at once. |
| `CatalogRounds.RecoveredIsVisible` | crates/ragnordb-catalog/src/lib.rs:360-395 | Recovery yields a consistent catalog with every starting table and every record exactly as written. |
| `CatalogDurability.PreparedIsPublishable` | crates/ragnordb-catalog/src/lib.rs:319-395 | A prepared table can always be published, under an unused identity, with the effect of an install. |
| `CatalogDurability.InstallLaw` | crates/ragnordb-catalog/src/lib.rs:360-395 | A schema is installed exactly when it is valid and either there unchanged or new in identity and name; a new one moves the next identity past it or uses the last one up. |
| `CatalogDurability.InstallKeepsInv` | crates/ragnordb-catalog/src/lib.rs:360-395 | Installing keeps the catalog invariant. |
| `CatalogMachine.MemoryCatalog.constructor` | crates/ragnordb-catalog/src/lib.rs:199-223 | A new catalog is empty. |
| `CatalogMachine.MemoryCatalog.RestoreTableIdFloor` | crates/ragnordb-catalog/src/lib.rs:231-245 | Raises the next identity to a non-zero floor, never lowers it, and fails once identities are exhausted. |
| `CatalogMachine.MemoryCatalog.TableIdHighWaterMark` | crates/ragnordb-catalog/src/lib.rs:251-256 | One below the next identity, and at or above every visible one. |
| `CatalogMachine.MemoryCatalog.PrepareTable` | crates/ragnordb-catalog/src/lib.rs:282-312 | Computes the schema to publish, or none, and changes nothing. |
| `CatalogMachine.MemoryCatalog.PublishPreparedTable` | crates/ragnordb-catalog/src/lib.rs:319-349 | Publishes as specified or leaves the catalog as it was. |
| `CatalogMachine.MemoryCatalog.InstallTable` | crates/ragnordb-catalog/src/lib.rs:360-395 | Installs as specified or leaves the catalog as it was. |
| `CatalogMachine.MemoryCatalog.AddTable` | crates/ragnordb-catalog/src/lib.rs:263-275 | Adds the table under the next identity exactly when the name is free, the definition is valid and an identity is left; otherwise changes nothing. |
| `CatalogMachine.CatalogLog.AppendUpdate` | crates/ragnordb-catalog/src/durable.rs:36-38 | Appends the record exactly for a durable outcome, and for an unknown outcome that did reach the log. |
| `CatalogMachine.DurableCatalog.FromRecovered` | crates/ragnordb-catalog/src/durable.rs:100-106 | Starts unstopped over the recovered catalog and log. |
| `CatalogMachine.DurableCatalog.CreateTable` | crates/ragnordb-catalog/src/durable.rs:133-205 | Prepare, append, publish in place: exactly the step that the crash theorem is about. |
| `CatalogMachine.DurableCatalog.StopForRecovery` | crates/ragnordb-catalog/src/durable.rs:209-220 | Sets the sticky stop and answers that recovery is required. |
| `ScanPaging.ChainDeliversInOrder` | crates/ragnordb-common/src/rpc_codec.rs:757-889 | Over any chain of accepted pages that continues past an exhausted page only from a cursor it published, the delivered keys strictly increase across page boundaries and lie inside the first request's bounds. |
| `ScanPaging.FollowUpValidates` | crates/ragnordb-common/src/rpc_codec.rs:553-605 | The follow-up request of any accepted page is valid. |
| `ScanPaging.PagesMakeProgress` | crates/ragnordb-common/src/rpc_codec.rs:757-889 | A page that is not the last reports intents or publishes a cursor strictly after the request's. |
| `ScanPaging.CursorIsInside` | crates/ragnordb-common/src/rpc_codec.rs:805-889 | A published cursor lies inside the request. |
| `ScanPaging.RowPageAcceptedIff` | crates/ragnordb-common/src/rpc_codec.rs:757-889 | A page of rows that publishes its last key is accepted exactly when the rows ascend inside the request and number and bytes are at most the limits, the limits included. |
| `ScanPaging.IntentPageAcceptedIff` | crates/ragnordb-common/src/rpc_codec.rs:757-889 | The same for a page of well-formed locks in an enumeration of intents. |
| `ScanPaging.EmptyPageAcceptedIff` | crates/ragnordb-common/src/rpc_codec.rs:757-889 | An empty page is accepted exactly when it ends the scan without a cursor. |
| `ScanPaging.InsideIff` | crates/ragnordb-common/src/rpc_codec.rs:834-877 | Inside means at or after the start, before the end and after the cursor. |
| `ScanPaging.LimitsAreExact` | crates/ragnordb-common/src/rpc_codec.rs:553-575 | A request may ask for 1 to 65536 rows and 1 to 8388608 bytes, and no others. |
| `LeaseFencing.RenewalExcludesExpiry` | crates/ragnordb-common/src/command_codec.rs:1437-1532 | At one clock sample a record can be renewed or expired, never both. |
| `LeaseFencing.RunMovesForward` | crates/ragnordb-tablet/src/command.rs:815-1019 | Along any run a record keeps its identity, its heartbeat strictly grows with each renewal, its deadline never regresses, and a decision ends it. |
| `LeaseFencing.RecordsNeverReturn` | crates/ragnordb-tablet/src/command.rs:815-1019 | Once replaced, a record never comes back. |
| `LeaseFencing.DecisionsAreFinal` | crates/ragnordb-tablet/src/command.rs:931-1019 | A committed or aborted record never changes. |
| `LeaseFencing.DecisionHasCause` | crates/ragnordb-tablet/src/command.rs:842-1019 | Every decided transaction was decided at one definite command from the pending record it then had: a published decision, or an expiry of exactly that record after its deadline. |
| `LeaseFencing.CommandLaw` | crates/ragnordb-tablet/src/command.rs:815-1019 | What one command does to a well-formed table, in all cases: it stores exactly its record and is accepted, or repeats what is stored and is accepted, or is refused; only the first changes anything. |
| `LeaseFencing.LiveLeaseRenews` | crates/ragnordb-tablet/src/command.rs:815-840 | Before its deadline a pending lease is renewed by any later heartbeat to the same or a later deadline, and the renewal is stored. |
| `LeaseFencing.DeadLeaseExpires` | crates/ragnordb-tablet/src/command.rs:842-874 | At or past its deadline a pending lease can be expired, which stores its aborted form, and no heartbeat is accepted. |
| `LeaseFencing.PendingIsDecidable` | crates/ragnordb-tablet/src/command.rs:931-1019 | A pending transaction can be committed at any later timestamp and can be aborted, and the decision is stored. |
| `LeaseFencing.OnlyCurrentExpires` | crates/ragnordb-tablet/src/command.rs:842-874 | An expiry that changes anything names the current record. |
| `LeaseFencing.StaleExpiryHasNoEffect` | crates/ragnordb-tablet/src/command.rs:842-874 | An expiry built from a record that has since been renewed or decided has no effect at any later time, whatever its clock. |
| `LeaseFencing.StaleHeartbeatHasNoEffect` | crates/ragnordb-tablet/src/command.rs:815-840 | A heartbeat built from a replaced record is refused at any later time. |
| `LeaseFencing.LaterIsTransitive` | crates/ragnordb-common/src/command_codec.rs:1437-1479 | Being a later form of a record is transitive. |
| `LeaseFencing.LaterIsAntisymmetric` | crates/ragnordb-common/src/command_codec.rs:1437-1479 | Two records that are each later than the other are equal. |
| `LeaseFencing.StatusAuthority.constructor` | crates/ragnordb-tablet/src/command.rs:815-840 | A new status table is empty. |
| `LeaseFencing.StatusAuthority.HeartbeatStatus` | crates/ragnordb-tablet/src/command.rs:815-840 | In place, the heartbeat step of the run theorems. |
| `LeaseFencing.StatusAuthority.ExpireStatus` | crates/ragnordb-tablet/src/command.rs:842-874 | In place, the expiry step of the run theorems; repeats are idempotent. |
| `LeaseFencing.StatusAuthority.Decide` | crates/ragnordb-tablet/src/command.rs:931-1019 | In place, the commit or abort step of the run theorems. |
| `RowPartition.SliceExistsIff` | crates/ragnordb-bench/src/main.rs:480-510 | A slice is returned exactly when there is at least one row per client and the worker exists; the empty-slice and conversion failures never happen. |
| `RowPartition.SlicesTile` | crates/ragnordb-bench/src/main.rs:480-498 | The slices start at row 1, end at the last row, follow one another without a gap, and differ in size by at most one. |
| `RowPartition.SlicesAreDisjoint` | crates/ragnordb-bench/src/main.rs:480-498 | No row belongs to two workers. |
| `RowPartition.EveryRowIsOwned` | crates/ragnordb-bench/src/main.rs:480-498 | Every row belongs to some worker. |
| `RowPartition.RandomRow` | crates/ragnordb-bench/src/main.rs:512-515 | The drawn row lies inside the bounds and is the draw reduced modulo their size. |
| `RowPartition.DrawOwnRow` | crates/ragnordb-bench/src/main.rs:480-515 | A row drawn by a worker is owned by that worker and by no other. |

## Left out

- Protobuf encoding and decoding of commands, snapshots, scans and status records: field copies around a library.
- Socket-address parsing: its verdict travels with the endpoint text.
- Error texts, the identities inside rejections, and which of several validation errors is reported first.
- Reconstruction of the allocator from snapshots written before it existed.
- `TabletRouteCache` and the rest of the RPC codec beyond scan requests and batches.
- `encode_value` and `decode_value`, the single-value wrappers around the row codec; overflow of the decoder's position, which a byte length never reaches.
- `replace_durable_log` and `install_replicated_definition`, which bypass the relation between log and catalog.
- Log extents, record framing and the timestamps inside catalog log records.
- MVCC storage and the tablet state machine beyond its status table: key ownership, key lists, the primary tablet check and the storage batch enter as one verdict, `admitted`.
- Validation of the lock inside a scan intent: its verdict and encoded length travel with the intent.
- Prewrites and commits that carry no status record, and rollback and intent resolution, which do not touch the status table.
- Read-only accessors of the metadata state, such as the next replica identity.
- Request identities derived by hashing.
- Raft, the write-ahead log, the SQL layer, the network protocol, the command line and the benches other than their row slices.
- AnswerLaws.PlacementRejectionsAreTrue: like the other cause lemmas, states that the reported cause holds, not which of several causes that hold is reported; the handlers and their specification fix that order.
- RowPartition.SplitMix64.Next: does not state the period or the distribution of the generator, because the row theorems hold for any output.
- ScanPaging.ChainDeliversInOrder: says nothing about continuing past an exhausted page that published no cursor, because such a page ends the scan.
