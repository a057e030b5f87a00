# Verified model of smoldb

smoldb stores points in collections. A collection is split into shards by a consistent-hash ring over shard
ids; a shard has a replica on this node and a list of remote replicas on other nodes. A client's upsert is
grouped by shard, written to the local replica and sent to each remote, and succeeds when enough replicas took
it. Reads by id are local; a listing without ids asks every replica and merges the answers. Nodes join through
a node they are given: that node adds the joiner to its peers and to every shard, and answers with all peers it
knows. This project models that code, the timeout accounting of the consensus receiver loop, and two pieces of
the benchmark tool (its number parser and its upload loop), and proves what they guarantee.

## How it is built

| files | what they hold |
|---|---|
| `Types`, `IdText`, `IdOrder`, `Ring` | identifiers and results, ids as text, the order of ids, the hash ring |
| `Segment`, `Replicas`, `Collections`, `Reads` | the node code: segments updated in place, shards, remotes, and the methods that call each other across nodes |
| `Batches`, `Views`, `Listings` | what those methods do, as functions and relations on values |
| `Failures` | what can go wrong during an operation, and exactly when it succeeds all the same |
| `Effects`, `Calls`, `Aftermath` | what an upsert does on every node for the faults it meets, shard by shard and call by call, and what it has left there when it ends, also by failing |
| `IdMaps`, `Guarantees`, `ListingLaws`, `Runs` | what follows: one map from id to point, quorum, retry, agreement, listings, whole runs |
| `Join`, `JoinRuns`, `Live` | the join protocol as interleaved steps, its runs, and joins running between operations on points |
| `Overlap`, `OverlapLaws`, `OverlapAgreement`, `OverlapAlone` | upserts that overlap, one insertion at a time, and what still holds |
| `RunBuilding`, `OrderMatters`, `TwoNodes`, `LateJoiner`, `Crossing` | concrete runs that show where a promise ends |
| `Membership`, `Loading`, `Rewiring` | the same protocol as each end executes it, collections found again on disk, and why the operations on points can run on what either leaves |
| `Ticks`, `NumberParser`, `Requests`, `Upload` | receiver-loop timing, the number parser, the batches of an upload and their requests, the upload end to end |

The state that the program updates in place is the tree of a segment, the peer map and the replica holder of a
collection; these are class fields, and the methods that write them have `modifies` clauses. What the read lock
on a collection shows during one operation does not change, and is a value.

How the outside world appears:

- The hash ring is any function of the shard ids and the id that picks one of the shard ids, the same on all nodes.
- A tree is a map from text to point.
- Faults are inputs, chosen before the operation: after how many points each local write fails, which local reads
  fail, which calls are lost before they are served or on the way back, and which addresses do not parse. So every
  method says exactly when it succeeds.
- Every iteration over a hash map is in an arbitrary order.
- A payload is its JSON text; its round trip through JSON is taken for granted.
- The clock's readings are inputs of the receiver loop.

## What the code does not promise

Some expected properties hold only under a condition; each is proved with the condition and a counterexample, and
where it says "if and only if" the condition is exact.

- A number and the text of that number are different ids with one segment key (`IdText.NumberAndItsTextCollide`).
  Text and id correspond exactly for ids whose text is not a number (`IdText.TextRoundTrip`).
- A successful upsert is one update of a map from id to point if and only if no id of the batch belongs in the cell of
  another id that is stored or in the batch (`IdMaps.UpsertRefinesIdMap`). Otherwise an id is lost:
  `IdMaps.CollisionLosesAnId` when the two go to one shard, as they must when there is only one
  (`IdMaps.OneShardLosesAnId`).
- A failed upsert is not undone. The node that ran it keeps what it gave to each shard it took, also when it failed for
  want of acknowledgements (`Aftermath.MissedQuorumIsStoredHere`), and so does a node whose reply was lost
  (`Aftermath.CalledNodeKeeps`); what was not reached is as before (`Aftermath.UnreachedIsAsBefore`,
  `Aftermath.UncalledNodeKeeps`).
- A point acknowledged at the writing node can be gone if a later point of the same batch has another id with the
  same key; `Guarantees.ShadowedIsLostHere` says exactly when.
- A text in a batch is acknowledged by remotes that never receive it. An id of a successful batch, of canonical form and
  not shadowed, is at the quorum that was reported if and only if it is a number, or its shard has no remotes, or some
  other node had that very point before (`Guarantees.QuorumExactly`). `TwoNodes.TextIsNotReplicated` is a run in which
  it is not. A text is stored only on nodes that ran an upsert with it or had it when they started
  (`Runs.TextIdsStayHome`).
- An acknowledged version need not be the one a later listing shows, even if no batch has had the id since. With the
  same shards on all nodes it is shown if and only if no replica asked before an acknowledging one has another version
  (`Runs.AcknowledgedVersionIsListed`); `TwoNodes.OlderVersionIsListed` is a run in which an older copy hides it.
- A listing can depend on the order in which shards are visited. It does not if and only if no id has two versions to
  offer (`ListingLaws.ListingIsUniqueIff`). Routing every point rightly is not enough when nodes have different
  shard ids (`OrderMatters.UnequalShardsTwoListings`, a run and two orders with two listings), and is enough when they
  have the same ones, as every created collection has (`ListingLaws.RoutedMeansOneVersion`, `Loading.Init`).
- A node is not told of peers that join after it got its reply. One that joined through a node which itself joined
  nobody knows another if and only if that one asked the same node before the reply, or asked it directly
  (`JoinRuns.OfTwoJoinedExactly`, and `JoinRuns.KnownOfJoined` for any node); `LateJoiner.EarlierJoinerIsNotTold` is a
  run in which two nodes join through a third to the end and the earlier does not know the later.
- Upserts that all nodes acknowledge keep the nodes in agreement, however they overlap, as long as no two of them under
  way at once have different versions of a number (`OverlapAgreement.CompatibleUpsertsKeepAgreement`). For any two
  different versions there is a run in which both are acknowledged everywhere and the nodes differ for good
  (`Crossing.CrossingUpsertsDisagree`).

Two comments in the source say something else than the code, and the code is what is modelled: the reply to a join
is not empty (src/api/grpc/raft_service.rs:68-69) but all peers known at that point, and "local shard takes
precedence" (src/storage/collection.rs:235) holds within one shard only, as `OrderMatters.UnequalShardsTwoListings`
shows.

## Model

| member | source | states |
|---|---|---|
| IdText.DecimalRoundTrip | src/storage/segment.rs:15 | a number's key is a non-empty digit string without a leading zero that reads back as that number |
| IdText.DecimalReading | src/storage/segment.rs:15 | a digit string's value, read digit by digit: ten times what is before the last digit, plus that digit |
| IdText.TextRoundTrip | src/api/points.rs:64-67 | parsing the text of an id gives the id back exactly for canonical ids |
| IdText.DigitsNameANumber | src/api/points.rs:64-67 | a path of digits, perhaps after a plus sign, names the number they denote if that is below 2^64, and else itself |
| IdText.OthersNameThemselves | src/api/points.rs:64-67 | any other path names the text id of itself |
| IdText.KeysAreInjective | src/storage/segment.rs:13-18 | different canonical ids have different segment keys |
| IdText.NumberAndItsTextCollide | src/storage/segment.rs:13-18 | a number and its own text are different ids under one key |
| IdOrder.LessTotal | src/storage/segment.rs:6-10 | the order of ids is total: of two different ids exactly one comes first |
| IdOrder.SortedExactly | src/storage/segment.rs:6-10 | in a sequence sorted by id no text comes before a number, numbers ascend by value, and of two texts the earlier is a proper prefix of the later or has the smaller character at the first difference |
| IdOrder.SortedDetermined | src/storage/collection.rs:241 | a sequence sorted strictly by id is determined by its elements |
| IdOrder.IntoValues | src/storage/collection.rs:241 | the values of the ordered map come out strictly sorted by id, all of them and nothing else |
| Segments.Segment.InsertPoints | src/storage/segment.rs:61-75 | a write succeeds exactly if nothing fails; one that fails after n of its points has written those n, in order, and any other all of them |
| Segments.Segment.GetPoints | src/storage/segment.rs:77-113 | by ids one hit per occurrence in list order; without ids every stored point once, by ascending key |
| Segments.HitsInOrder | src/storage/segment.rs:98-112 | a list of ids is looked up one by one in its order, each under its own key |
| Segments.ListsAscending | src/storage/segment.rs:80-96 | the keys of a segment's listing ascend character by character, a prefix before what continues it |
| Segments.WrittenWellKeyed | src/storage/segment.rs:63-70 | writing keeps every point under the key of its own id |
| Batches.WrittenInOrder | src/storage/segment.rs:61-75 | points are inserted one after another, each under the key of its id |
| Replicas.LocalShard.UpsertPoints | src/storage/replicas/local_shard.rs:37-48 | the points go to segment 0; a write succeeds exactly if that segment is there and nothing fails, even for no points |
| Replicas.LocalShard.GetPoints | src/storage/replicas/local_shard.rs:23-35 | reads are those of segment 0, and succeed exactly if it is there and can be read |
| Replicas.LocalShard.CountPoints | src/storage/replicas/local_shard.rs:102-108 | the count is the number of stored points |
| Replicas.ReplicaHolder.WriteLocal | src/storage/replicas/mod.rs:64 | writing one shard's local replica leaves all its points there, or those inserted before the fault, or nothing if the shard has no segment; no other shard changes; when it succeeds |
| Replicas.ReplicaHolder.SelectShards | src/storage/replicas/mod.rs:144-161 | each shard gets exactly the ids the ring sends there, order and duplicates kept; fails exactly when there are ids and no shards |
| Batches.RoutedInOrder | src/storage/replicas/mod.rs:144-161 | ids are sent to their shards one by one, in the order of the batch |
| Replicas.NewReplicaHolder | src/storage/replicas/mod.rs:96-103 | the ring's nodes are the shard ids, in whatever order they are added |
| Batches.LastVersionWins | src/storage/collection.rs:148-151 | the map a batch is collected into keeps the last occurrence of each id |
| Batches.GroupExactly | src/storage/collection.rs:154-163 | a shard's group is the last version of every batch id routed there, and nothing else |
| Batches.GroupWritesLikeOneByOne | src/storage/collection.rs:146-163 | writing the groups, which hold only last versions, leaves each shard as writing the points one by one, even when ids share a key |
| Batches.UpsertEachByShard | src/storage/collection.rs:146-163 | the one-by-one form, split by shard: each shard is written with its own points in batch order |
| Batches.CellAfter | src/storage/collection.rs:146-163 | which point a full pass leaves in a cell: a last version that belongs there, if the batch has one |
| Batches.RetryAbsorbs | src/storage/collection.rs:148-199 | a full pass ends the same whatever part of the batch an earlier attempt had written |
| Batches.VersionSurvives | src/storage/collection.rs:146-163 | an id's last version is in its cell after a full pass exactly if no other id of the batch shadows it |
| Batches.WireInOrder | src/storage/replicas/remote_shard.rs:155-168 | the points of a message are those with numeric ids, in their order |
| Failures.UpsertSucceedsIff | src/storage/collection.rs:146-202 | a client's upsert succeeds if and only if the batch is empty or the node has shards, no shard of the batch fails its local write, and each with remotes is acknowledged by at least one |
| Failures.CallSucceedsExactly | src/storage/replicas/remote_shard.rs:144-177 | a call succeeds exactly if it is served and answered, the node is there, and each number sent leads to a shard of the node that has its segment and does not fail |
| Failures.FaultFreeUpsertSucceeds | src/storage/collection.rs:139-202 | if every node can use its shards, an upsert without faults succeeds |
| Failures.FaultFreeReadSucceeds | src/storage/collection.rs:204-259 | and so does a read, unless it is by ids in a shard the node does not have |
| Failures.ListSucceedsExactly | src/storage/collection.rs:212-230 | a listing succeeds exactly if each shard visited can be read here and, unless local only, each of its remotes is served, can read that shard if it has it, and answers |
| Failures.OneRemoteIsEnough | src/storage/collection.rs:179-198 | min(replicas, 2) successes with the local one among them means one remote, or no remotes at all |
| Failures.TextsAreAcknowledgedUnread | src/storage/replicas/remote_shard.rs:144-177 | a call for texts only succeeds whenever it gets through, whatever the called node can store |
| Collections.WireRoundTrip | src/storage/replicas/remote_shard.rs:155-168 | what arrives is what was sent, less the points whose ids are texts |
| Collections.WriteLocal | src/storage/replicas/mod.rs:64 | a local write leaves in one shard of one node exactly what its fault lets through, changes nothing else, and succeeds exactly if the shard is usable and nothing fails |
| Collections.ServeUpsert | src/api/grpc/points_service.rs:73-106 | the server upserts locally only, routes by its own ring and calls nobody; the shards it reaches, up to the first that fails, have what their faults let through; it succeeds exactly if every shard its own ring sends points to takes them |
| Collections.RemoteUpsert | src/storage/replicas/remote_shard.rs:144-177 | one call; it succeeds exactly if it is served, every write there succeeds and the reply arrives, and then every numeric id sent is held there in its last version; a call lost on the way has changed nothing, one whose reply is lost all that serving it does |
| Collections.UpsertRemotes | src/storage/replicas/mod.rs:71-84 | every remote is called once, with the effect its fault gives; result i is that of remote i; failures do not stop the rest; the acknowledging nodes are exactly those whose call succeeds, all distinct |
| Collections.ExecuteUpsert | src/storage/replicas/mod.rs:56-87 | local first, then the remotes unless local only; one result per replica; the local result, the acknowledgements and what is left on every node are what the faults allow |
| Collections.UpsertGroup | src/storage/collection.rs:165-198 | a shard's write succeeds exactly if its local write does and, unless local only, min(replicas, 2) replicas do; however it ends, the local write and every call have had the effect their faults give |
| Collections.UpsertGroups | src/storage/collection.rs:154-199 | shards in any order, each once; succeeds exactly if every group does, and has then written each with enough acknowledgements; a failure stops at the first shard that falls short, whose write has been made |
| Collections.UpsertPoints | src/storage/collection.rs:139-202 | a success is the one-by-one form here plus a quorum for every shard; success or not, the shards taken, in order, and the states between them, each following from the one before by that shard's writes and calls; it succeeds exactly if there are shards for the points and every group succeeds; one call per remote of each shard taken, none if local only |
| Aftermath.WrittenHere | src/storage/collection.rs:154-199 | after an upsert, however it ended, each shard taken has, at the writing node, its whole group or the part its fault lets through, and every other shard is as before |
| Aftermath.LocalUpsertExactly | src/api/grpc/points_service.rs:89-102 | so has a local upsert, which stops at the first shard whose write fails |
| Aftermath.ReachedIsFoundHere | src/storage/replicas/mod.rs:64 | and a read by id there finds the last version of each unshadowed id whose shard was taken and written |
| Aftermath.MissedQuorumIsStoredHere | src/storage/collection.rs:194-198 | an upsert that failed with its last local write done had too few acknowledgements for that shard, and every unshadowed id of the shards taken is found here all the same |
| Aftermath.UnreachedIsAsBefore | src/storage/collection.rs:177-198 | an id whose shard was not taken is found as before |
| Aftermath.CalledNodeKeeps | src/storage/replicas/remote_shard.rs:144-177 | a node called for a number's shard has its last version if the call was served and its writes succeeded, even if the reply was lost, and what it had if the call was lost |
| Aftermath.UncalledNodeKeeps | src/storage/replicas/mod.rs:67-84 | what a node has for a number stays if the upsert does not call it for the shard of that number |
| Views.ServedStep | src/api/grpc/points_service.rs:89-102 | a call served by the other node's own routing holds what its caller counts on |
| Views.AllGroupsWritten | src/storage/collection.rs:154-201 | when every group is written and acknowledged enough, the node is as after the one-by-one form |
| Listings.MergePoints | src/storage/collection.rs:234-239 | the points are merged one after another into the map (see the next row) |
| Listings.MergedExactly | src/storage/collection.rs:234-239 | a point already in the map is kept; for a new id the first of its points is added |
| Listings.MergeAnswers | src/storage/collection.rs:222-239 | the replicas' answers merge to the first source's version of each id; it succeeds exactly if no answer is a failure |
| Listings.FoundInMore | src/storage/collection.rs:250-255 | adding a shard's hits adds exactly its part of the lookups, as a multiset |
| Listings.FoundInOrder | src/storage/collection.rs:247-258 | the lookups of a list of ids are made one by one in its order, each in the shard the ring gives and under the id's key |
| Reads.ServeGet | src/api/grpc/points_service.rs:26-71 | the server answers from its local shards only, with the numeric-id points of what such a read returns there, and calls nobody; when it succeeds |
| Reads.RemoteList | src/storage/replicas/remote_shard.rs:94-142 | a remote's answer is exactly its numeric-id points of the same shard, and arrives exactly if the call is served, the shard can be read there and the reply is not lost |
| Reads.ExecuteList | src/storage/replicas/mod.rs:56-87 | one answer per replica, local first, then the remotes in their order; none is a failure exactly if every replica answers |
| Reads.ListPoints | src/storage/collection.rs:212-242 | a listing shows, sorted, what some order of the visited shards shows: for each id the first shard's version; it succeeds exactly if every replica of every visited shard answers |
| Listings.ListingOrder | src/storage/collection.rs:241 | in every listing all numbers come before all texts, numbers ascend by value, and of two texts the earlier is a proper prefix of the later or has the smaller character at the first difference |
| Reads.FindPoints | src/storage/collection.rs:247-258 | a read by ids returns the local lookups that hit, one per requested occurrence, in any order of the shards; it succeeds exactly if there are shards and those the ids lead to can be read |
| Reads.GetPoints | src/storage/collection.rs:204-259 | the three forms of a read, what each returns and exactly when it succeeds; reads by id and served reads make no calls; an unknown shard is refused |
| IdMaps.TouchedStaysRouted | src/api/grpc/points_service.rs:89-97 | whatever part of a batch reaches a node, its points stay in the shard and under the key its ring and ids give |
| IdMaps.UpsertRefinesIdMap | src/storage/collection.rs:146-163 | a successful upsert updates one map from id to point, last versions winning, if and only if no id of the batch belongs in the cell of another id that is stored or in the batch |
| IdMaps.CanonicalUpsertRefinesIdMap | src/storage/collection.rs:146-163 | so it always does for canonical ids, and leaves the node routed and canonical |
| IdMaps.CollisionLosesAnId | src/storage/segment.rs:61-75 | when a number and its text go to one shard, upserting both loses the number |
| IdMaps.OneShardLosesAnId | src/storage/segment.rs:61-75 | with a single shard they do, whatever the ring |
| IdMaps.ReadYourWrites | src/storage/collection.rs:247-258 | a read by any list of canonical ids after an upsert returns the hits of the updated map, occurrence by occurrence |
| IdMaps.ByNameReadsTheWrite | src/api/points.rs:64-72 | reading an id by its text finds the point written under it |
| IdMaps.CountsAddUp | src/storage/replicas/local_shard.rs:102-108 | the shards' counts add up to the number of ids stored |
| IdMaps.CountConservation | src/storage/collection.rs:146-163 | without collisions an upsert raises the summed counts by the number of distinct ids not stored before |
| Guarantees.QuorumOnDistinctNodes | src/storage/collection.rs:153-199 | after a successful upsert every numeric id that is unshadowed, or acknowledged by two remotes, is held, in its last version, by at least min(replicas, 2) different nodes, the writing one among them if it is unshadowed |
| Guarantees.CanonicalQuorum | src/storage/collection.rs:153-199 | for batches of canonical ids that holds for every numeric id |
| Guarantees.TextsAreNotSent | src/storage/replicas/remote_shard.rs:155-168 | another node has a text's last version after an upsert only if it had it before, and exactly then if the text is no number |
| Guarantees.QuorumExactly | src/storage/collection.rs:153-199 | for any unshadowed canonical id of a successful batch: the reported quorum is there if and only if the id is a number, its shard has no remotes, or another node had the point before |
| Guarantees.ShadowedIsLostHere | src/storage/collection.rs:146-163 | the writing node holds an id's last version exactly if the batch does not shadow it |
| Guarantees.FailureLeavesNothingSuperseded | src/storage/collection.rs:148-202 | a cell changed by an upsert, failed or not, on any node, holds the last occurrence of a batch id, never a superseded one |
| Guarantees.FullAckIsAFullPass | src/storage/replicas/mod.rs:71-84 | a remote that acknowledged every shard is as after writing the batch's numeric points one by one |
| Guarantees.RetryEndsLikeOneCleanRun | src/storage/collection.rs:148-202 | repeating a batch to success ends as one clean run would have, here and at remotes that acknowledge it all |
| Guarantees.AgreementIsKept | src/storage/replicas/mod.rs:56-87 | an upsert every other node acknowledges keeps all nodes agreeing on numeric ids in each shard |
| Guarantees.CallsAreBounded | src/storage/toc.rs:155-156 | an upsert makes at most shards times remotes calls, a served one none |
| Guarantees.ListCallsAreBounded | src/api/grpc/points_service.rs:50 | so does a listing |
| ListingLaws.ListingExactly | src/storage/collection.rs:212-242 | with the same shards on all nodes and points routed rightly, a listing has for each id the local version, else that of the first remote in order that has one, and nothing else |
| ListingLaws.RoutedMeansOneVersion | src/storage/collection.rs:212-242 | in that case no id has two versions to offer |
| ListingLaws.OwnVersionIsListed | src/storage/collection.rs:234-239 | a node with a version of its own lists that one and no other |
| ListingLaws.ListingIsUniqueIff | src/storage/collection.rs:215-241 | every two visiting orders give the same listing if and only if no id has two versions to offer |
| OrderMatters.UnequalShardsTwoListings | src/storage/collection.rs:215-241 | a run with every point routed rightly, after which two visiting orders give a node two different listings |
| Runs.RoutingAlways | src/storage/collection.rs:106-133 | in every state of every run, on every node, each point is where that node's ring and the point's key put it |
| Runs.QuorumAlways | src/storage/collection.rs:153-199 | the quorum holds at every successful upsert of every run, for every numeric id unshadowed or acknowledged by two remotes |
| Runs.QuorumExactlyAlways | src/storage/collection.rs:153-199 | and at every successful upsert of every run it is known which ids have it |
| TwoNodes.TextIsNotReplicated | src/storage/replicas/remote_shard.rs:155-168 | a run with a successful upsert of one text, acknowledged by the only remote, which only the writing node holds |
| Runs.KnownAlways | src/storage/segment.rs:61-75 | a canonical id, once stored in a shard, stays there through every later step |
| Runs.AcknowledgedIsKnown | src/storage/collection.rs:153-199 | every node of the quorum has an acknowledged numeric id in the shard its own ring gives it, from then on |
| Runs.AcknowledgedIsListed | src/storage/collection.rs:222-240 | an acknowledged numeric id is in every later successful listing at any node that is of the quorum, or has a node of the quorum among its remotes for the shard that one keeps the id in |
| Runs.AcknowledgedVersionLasts | src/storage/segment.rs:61-75 | a node of the quorum keeps the version it acknowledged until a batch has the id again |
| Runs.AcknowledgedVersionIsListed | src/storage/collection.rs:222-240 | with the same shards on all nodes and no batch with the id since, a listing shows the acknowledged version exactly if no replica asked before the acknowledging node has another; that node itself always shows it |
| TwoNodes.OlderVersionIsListed | src/storage/collection.rs:234-239 | a run after which a listing that asks the acknowledging node shows an older version |
| Runs.TextIdsStayHome | src/storage/replicas/remote_shard.rs:155-168 | in every state of every run a point with a text id is stored only on nodes that ran an upsert with it or had it when they started |
| Runs.CanonicalAlways | src/storage/collection.rs:139-202 | if only canonical ids come in, only canonical ids are ever stored, whatever fails |
| Runs.ReadYourWritesAlways | src/storage/collection.rs:247-258 | then at every successful upsert of a run reads by ids afterwards see the node's map updated by the batch |
| Runs.CountsAlways | src/storage/replicas/local_shard.rs:102-108 | and its counts rise by the number of distinct ids it did not have |
| Runs.ReplicasAgree | src/storage/replicas/mod.rs:56-87 | from empty stores, upserts acknowledged by all leave all nodes with the same numeric-id contents of each shard |
| Runs.RetryRestoresAgreement | src/storage/collection.rs:148-202 | nodes that agreed before any number of attempts at a batch, through any nodes and ending in any way, agree again after one that all acknowledge |
| Overlap.RoutingAlways | src/storage/collection.rs:144-163 | however upserts overlap, at one node or several, each point is where its node's ring and its key put it |
| Overlap.LastInsertionCounts | src/storage/segment.rs:61-75 | between any two states a cell holds what the last insertion into it put there, a last version in the batch of an upsert under way, or what it held if there was none |
| OverlapLaws.KnownAlways | src/storage/segment.rs:61-75 | a canonical id, once stored, stays through any overlapping upserts |
| OverlapLaws.TextIdsStayHome | src/storage/replicas/remote_shard.rs:155-168 | texts stay on the nodes that run an upsert with them, also when upserts overlap |
| OverlapLaws.AcknowledgedOrLater | src/storage/collection.rs:165-198 | a node that acknowledged an id holds this upsert's version of it, or one that was inserted after it |
| OverlapLaws.QuorumAlways | src/storage/collection.rs:175-198 | a successful upsert has min(replicas, 2) different nodes that acknowledged each of its numeric ids, whatever else was under way |
| OverlapLaws.AcknowledgedIsListed | src/storage/collection.rs:222-240 | each numeric id of a successful upsert is in every later successful listing that asks a node which acknowledged it, whatever overlapped then and since |
| OverlapAgreement.SettlingLasts | src/storage/replicas/mod.rs:56-87 | while compatible upserts overlap the nodes differ on an id only as far as its upserts under way have got |
| OverlapAgreement.CompatibleUpsertsKeepAgreement | src/storage/replicas/mod.rs:56-87 | upserts that all nodes acknowledge, no two overlapping ones with different versions of a number, leave agreeing nodes in agreement |
| Crossing.CrossingUpsertsDisagree | src/storage/replicas/mod.rs:64-84 | for any two different versions of an id, a run in which two overlapping upserts are acknowledged everywhere and the nodes differ for good |
| OverlapAlone.AloneIsOneStep | src/storage/collection.rs:139-202 | an upsert of canonical ids that nothing overlaps is one step of `Runs`, with its outcome and acknowledgements, whatever order it inserts in |
| Join.StepKeepsSound | src/api/grpc/raft_service.rs:80-112 | every step of every interleaving keeps membership sound: distinct known remotes, never the node itself, right shard and collection, alike in all shards |
| Join.LinkedTwice | src/storage/replicas/mod.rs:127-136 | adding a peer twice is adding it once |
| Join.LinkedSound | src/storage/replicas/mod.rs:122-142 | adding a known other peer to every shard keeps a node sound |
| JoinRuns.SoundAlways | src/consensus.rs:123-140 | membership is sound in every state of every run |
| JoinRuns.OfTwoJoinersOneIsTold | src/api/grpc/raft_service.rs:80-112 | each reply names requester and responder, replies of a node form a chain, and of two requesters one is told of the other |
| JoinRuns.KnownExactly | src/consensus.rs:71-76 | a node knows itself, those that asked it and those it was told of and inserted, and nobody else |
| JoinRuns.ReplyNamesExactly | src/api/grpc/raft_service.rs:98-111 | a reply names exactly the responder and whoever became known to it before the reply |
| JoinRuns.KnownAfterJoining | src/consensus.rs:123-140 | after joining a node knows exactly itself, the peers in its one reply and those that asked it |
| JoinRuns.KnownOfJoined | src/consensus.rs:123-140 | a node that finished joining through n knows exactly itself, n, those n had heard of before the reply, and those that asked it |
| JoinRuns.OfTwoJoinedExactly | src/api/grpc/raft_service.rs:80-112 | a node that finished joining through n, which itself joined nobody, knows s if and only if s asked n before the reply or asked the node itself |
| LateJoiner.EarlierJoinerIsNotTold | src/api/grpc/raft_service.rs:98-111 | a run in which two nodes join through a third to the end, and the earlier does not know the later |
| JoinRuns.RequesterIsLinked | src/api/grpc/raft_service.rs:85-96 | when a request is answered every shard of every collection there lists the requester |
| JoinRuns.AbsorbedPeerIsLinked | src/consensus.rs:133-139 | when a joiner is done with a peer every shard of every collection it has lists that peer |
| JoinRuns.LinksLast | src/storage/replicas/mod.rs:122-142 | a link, once made, stays through every later step |
| JoinRuns.JoinLinksBothWays | src/consensus.rs:112-140 | a completed join leaves a collection both had linked in both directions, for good |
| JoinRuns.AddressesAreThoseStartedWith | src/consensus.rs:105-131 | in every state of every run whoever knows a node, however it came to, knows the address that node was started with |
| JoinRuns.JoinStepIsRunStep | src/storage/collection.rs:51-61 | to one collection each join step only changes remotes or adds a node with what it has stored |
| Live.LiveIsRun | src/storage/collection.rs:144 | however joins and upserts interleave, a collection goes through a run as above |
| Live.LiveQuorum | src/storage/collection.rs:153-199 | so the quorum holds at every acknowledged upsert while joins are under way, for numeric ids unshadowed or acknowledged by two remotes |
| Live.LinkedNodeListsAcknowledged | src/storage/collection.rs:222-240 | once a node lists another for the collection, its later listings have every numeric id that one acknowledges, as the writing node or as a remote, earlier or later |
| Live.JoinedNodeListsAcknowledged | src/consensus.rs:133-139 | so it is for whoever it found in the reply when it joined, in a collection it had then |
| Membership.Collection.AddRemoteShards | src/storage/replicas/mod.rs:122-142 | every shard lists the peer at its end, unless it did already; nothing else changes |
| Membership.ConsensusState.AddPeer | src/consensus.rs:71-76 | the peer's address is inserted or replaced |
| Membership.TableOfContent.AddRemoteShards | src/api/grpc/raft_service.rs:85-96 | the same in every collection, in any order of them |
| Membership.PeerList | src/api/grpc/raft_service.rs:100-104 | the peer map as a list: each peer once, by ascending id |
| Membership.MeetPeer | src/consensus.rs:128-139 | the peer's address is inserted or replaced and every shard of every collection lists it; nothing else changes |
| Membership.AddPeerToKnown | src/api/grpc/raft_service.rs:62-114 | the requester's address is stored, every shard of every collection lists it, and the reply is the peers known then; without consensus state it refuses and changes nothing |
| Membership.AbsorbReply | src/consensus.rs:123-140 | the joiner meets the peers of the reply in order, save itself, up to the first whose address does not parse; it succeeds exactly if all parse (what that stores and links: the next three rows) |
| Membership.AbsorbedAddress | src/consensus.rs:123-131 | each id of a reply, save the node's own, has the address of its last occurrence there |
| Membership.AbsorbedKeeps | src/consensus.rs:123-131 | every other entry stays, the node's own included |
| Membership.AbsorbedLinks | src/consensus.rs:133-139 | and exactly the peers of the reply, save the node itself, are linked in every shard, behind those linked before |
| Membership.Bootstrap | src/consensus.rs:91-146 | a whole join: what each side has done by then, whatever is lost or does not parse, and that it succeeds exactly if nothing is lost and everything parses |
| Membership.MetInAnyOrder | src/api/grpc/raft_service.rs:80-96 | the interleaved protocol's edits, uninterrupted and in any order of the collections, are one meeting |
| Membership.MetTwice | src/storage/replicas/mod.rs:127-136 | meeting a peer twice is meeting it once |
| Membership.AbsorbedSound | src/consensus.rs:123-140 | absorbing a reply keeps the node sound; everyone in it is then known and listed everywhere |
| Membership.JoinKeepsSound | src/consensus.rs:91-146 | both nodes stay sound however far a join gets |
| Membership.JoinListsBoth | src/consensus.rs:91-146 | after a successful join each lists the other in every shard; the node asked has the joiner's own address and no other change; the joiner has the other's peers with their addresses, and kept its own |
| Loading.Init | src/storage/collection.rs:46-59 | a new collection has two empty shards, 0 and 1, without remotes |
| Loading.Load | src/storage/collection.rs:86-134 | the shards are those of the directories, files skipped, later ones winning, without remotes; it succeeds exactly if the configuration was read, every directory is a shard's and its segments open |
| Loading.ShardNamesExactly | src/storage/replicas/local_shard.rs:80-90 | a directory is a shard's if its name is digits, perhaps after a plus sign, that denote a number below 2^32 |
| Loading.LoadedUnless | src/storage/collection.rs:112-124 | a single directory that is no shard's fails the load, and nothing else in the listing does |
| Loading.LoadedAt | src/storage/collection.rs:112-126 | each shard is what the last directory with its number held, without remotes |
| Loading.LoadedOnly | src/storage/collection.rs:112-126 | and there are no other shards |
| Loading.LoadedExactly | src/storage/collection.rs:106-126 | loading what a stopped node left, in any directory order, gives its shards back without remotes |
| Loading.ReloadReadsTheSame | src/storage/replicas/mod.rs:96-103 | after a reload every id is routed as before and found as before |
| Rewiring.LinkedNet | src/storage/replicas/mod.rs:122-142 | after a peer is added to every shard of a node the nodes are again such as the operations run on, with the same points; it is a step of a run |
| Rewiring.ReloadedNet | src/storage/collection.rs:106-133 | so it is with what loading returns in place of the node that stopped |
| Rewiring.StartedNet | src/storage/collection.rs:33-69 | and with one more node, whatever rightly routed points it has stored |
| Ticks.RunReceiverLoop | src/consensus.rs:273-326 | time left, ticks and callbacks after any waits up to a disconnection are those of a clock fed with the times measured for each wait (what such a clock shows: the next rows) |
| Ticks.TotalIsMeasured | src/consensus.rs:316-321 | the clock's total is the sum of the waits |
| Ticks.SinceTickIsMeasured | src/consensus.rs:316-321 | the time it counts since its last tick is the sum of the waits since that tick |
| Ticks.TimeLeftIsExact | src/consensus.rs:313-322 | the time left is positive and exactly 100 milliseconds less the sum of the waits since the last tick |
| Ticks.TicksAreNotEarly | src/consensus.rs:313-322 | 100 milliseconds times the number of ticks are within the sum of the waits |
| Ticks.TicksAreNotStarved | src/consensus.rs:313-322 | if waits overrun by at most a bound, the sum of the waits is below one more than the number of ticks times 100 milliseconds plus that bound, whatever messages arrive |
| Ticks.TickAfterTheInterval | src/consensus.rs:316-322 | a wait brings a tick, and never two, exactly when the waits since the last one sum to 100 milliseconds, at most the bound later |
| Ticks.CallbacksExactly | src/consensus.rs:285-293 | a callback is kept for exactly the ids proposed, that of the last proposal |
| NumberParser.ParseNumberImpl | tools/smolbench/src/args.rs:4-23 | the checked parser gives what the text denotes (see the next row) if that fits in 64 bits, and refuses nothing that fits |
| NumberParser.DenotesExactly | tools/smolbench/src/args.rs:8-20 | digits and underscores, the first a digit, denote their value; followed by k, M, B or T that value times 1000, 1000000, 1000000000 or 1000000000000; with an i after it, and anything then, times 1024, 1048576, 1073741824 or 1099511627776; nothing else denotes anything |
| NumberParser.ValueOfMore | tools/smolbench/src/args.rs:8-10 | one more digit makes a value ten times as large plus the digit; one more underscore changes nothing |
| NumberParser.ReadExactly | tools/smolbench/src/args.rs:4-23 | reading left to right agrees with the grammar: digits and underscores, then an optional k, M, B or T, alone or followed by `i` |
| NumberParser.UnderscoresAreIgnored | tools/smolbench/src/args.rs:8-11 | an underscore after the first digit changes nothing |
| NumberParser.ParseNumber | tools/smolbench/src/args.rs:25-29 | an argument is accepted exactly if it denotes a number that fits the word, and gives that number |
| Requests.BatchesExactly | tools/smolbench/src/apis.rs:77-92 | exactly ceil(n / size) batches, none empty or too long, all full but the last, are all points in order |
| Requests.CutsDoNotMatter | tools/smolbench/src/apis.rs:88-130 | storing batch after batch is storing the points one by one, however they are cut |
| Upload.UploadPoints | tools/smolbench/src/apis.rs:69-130 | the loop sends the batches in order until one fails and nothing after it: each request made, the failed one included, has done on every node what its upsert does and nothing else was done; it succeeds exactly if all batches are sent with success |
| Requests.UploadKeepsWhatItSent | tools/smolbench/src/apis.rs:88-130 | after the requests that succeeded the node has stored the points of their batches, one by one in order, and nothing else |
| Requests.FirstPointsExactly | tools/smolbench/src/apis.rs:88-92 | those are the first k times the batch size, or all if there are fewer |
| Upload.ListingAfterUpload | tools/smolbench/src/tests/mod.rs:24-32 | uploading to an empty collection without remotes makes the listing the points 0 to n - 1 in order |
| Upload.RetrievePoints | src/api/points.rs:94-118 | the listing request gives what the collection lists, and is refused if that fails or is empty |
| Upload.ConsecutiveWrites | tools/smolbench/src/tests/mod.rs:8-35 | the whole exchange, upload then listing request, succeeds exactly if there are points to upload and every request and the listing succeed, and gives exactly those points and that many responses |

## Left out

- Transport: channels, addresses, timeouts and the generated call code; a call works or fails.
- The raft library, `on_ready`, the handlers of committed entries, `run_loop` and proposal results: only the timing of the receiver loop is modelled, and a proposal dropped by the library, which panics, is not.
- sled, hashring, serde_json and the file system beyond what is said above; a value that does not parse as JSON, which panics at the receiver, does not occur.
- HTTP handlers but for the refusal of an empty listing, the table of contents' creation and deletion of collections, its lookup of a collection by name, response timing and measurements.
- The text of error messages, and the mapping of errors between layers: there are two kinds, bad input and service error.
- Overlapping upserts: outside the `Overlap` modules operations on points run one at a time, between the steps of joins. In those modules a step is one insertion, a listing sees one state, and the node code is not run in interleaved form; they are tied to it by `OverlapAlone.AloneIsOneStep`, which needs canonical ids because the order of insertions into one cell is left open there.
- A node that stops in the middle of a join and starts again: nodes start once in the join protocol; a reload of a collection is a step of `Runs`.
- Two nodes with the same peer id, a node asked to join itself, and addresses that do not parse at the receiving end, which panic.
- `execute_cluster_operation` takes an operation as a parameter; here it appears twice, as the upsert form and the listing form.
- Reading by ids over a call: the remote side of a read is modelled for listings, the only form a collection sends to its remotes; `ServeGet` answers the other as well.
- Reads and uploads take it that stored points are under their own keys, as `Runs.RoutingAlways` proves of every state of every run.
- Peer ids and segment ids are unbounded naturals; shard ids are bounded where their text is read.
- Collections.RemoteUpsert: says nothing of a node that is reachable but lacks the collection beyond that the call fails and changes nothing.
- Runs.AcknowledgedIsListed: needs the listing node to be of the quorum, or to have one of the quorum as a remote for the shard that one keeps the id in, since nobody else is asked.
- Runs.ReplicasAgree: needs the same shard ids on all nodes, as created collections have, because each node routes by its own ring.
