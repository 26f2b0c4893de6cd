# Verification of the sample applications and the OKE scripts

A Dafny model of the parts of the repository whose correctness is hardest to see, with proofs:

* the vnodes-to-tablets migration controller (`Cluster`, `Rest`, `Convert`, `UpgradeOrder`,
  `Phases`, `Finalization`, `Migration`, `Rollback`, `NodeOrder`, `RollbackOrder`, `Operations`,
  `Alternation`, `Restoration`);
* the Alternator value codec (`Text`, `Base64`, `JsonString`, `AttributeJson`,
  `AttributeReader`, `AttributeRepair`, `AttributeWriter`, `Decimal`, `PlainNumber`, `Serializer`)
  and the older numeric blobs (`UserIdBlob`);
* the life of an OKE deployment (`OkeState`, `OkeCloud`, `OkeTeardown`, `OkeLifecycle`,
  `OkeCreate`, `OkeRuns`);
* the loaders, the cleanup and the DER writer (`Split`, `Loader`, `Executor`, `Cleanup`, `Der`);
* the two last-write-wins writers (`Writers`);
* what they share (`Options`, `Sequences`, `Arithmetic`).

`dafny verify dfyconfig.toml` checks everything.

## Method

Code that changes things step by step is modelled by methods and classes, proved against
functions and predicates on values; the promises over whole runs are lemmas about these.

**The migration.** The server is not in this repository. It gets the specification that the
controller's comments give it: a restart applies the intended mode to every migrating keyspace; a
migration starts only while no node is marked (`convert_to_tablets.py:954-962`); a finalization
takes effect only on uniform storage; a node's report is exact. Before every answer the
environment takes any number of steps, restarts of any node among them. Every call may fail with
or without having taken effect, and may be the last thing the process does, so that the contracts
hold at every crash point. A ghost trace holds every state of the cluster and what led to the next.
Two promises need an environment in which addresses are unique and only the node being restarted
changes its own; the finalization and restoration promises do not. Between two runs a pod that was
being replaced has come back, whereas within a run the controller has to see it back before it turns
to the next node.

The promise over many runs needs them to visit the nodes in the same order
(`NodeOrder.OrdersMustAgree`: exactly then), and the sort key holds the pod name, which a run may be
unable to read (`NodeOrder.SameOrderForgettingIff`: when that matters). With `--restart k8s` such a
run refuses to begin; with `--restart manual` it does not, so that `Operations.Operate` asks of every
run that it visits the nodes in one order or refuses (`Operations.WhichRunsAreAdmissible`).

Between runs in different directions one conversion at a time is not kept by itself. A migrate run
and a rollback both begin with the first node that is not where they want it, and whatever an
interrupted run left pending behind that node stays so. The exact conditions are on the state at the
start of a run, and can be read from the status (`RollbackOrder.StatusTells`):

* a rollback keeps one conversion at a time exactly if before every node that is "migrating to"
  anything all nodes use vnodes (`RollbackOrder.RollbackKeepsOneIff`); after migrate runs alone that
  means that no node but the first was left marked;
* migrate runs keep it exactly if before every such node all nodes use tablets, and there is no such
  node while another keyspace's migration can be started, that is, while some keyspace is on vnodes
  and no node is marked (`RollbackOrder.MigrateKeepsOneIff`).

`RollbackOrder` has a family of interrupted runs for each way in which they fail, and
`Alternation.Alternate` is the promise over any number of runs in both directions that respect them.

The manual restart of the `--restart manual` option is a request like the deletion of a pod.

**The codec.** A Java string is a sequence of 16-bit units. The readers are written for this model.
Three things are not what the documentation suggests: numbers are appended to the JSON without
escaping, so that the round trip holds exactly if they can stand between quotes; unpaired
surrogates become question marks, so that the round trip holds exactly up to that; and a decimal
whose trailing zeros do not leave the scale above the lowest int is written but not read.
A BigDecimal is its unscaled value and its scale, and `new BigDecimal(String)` is a parameter. Its
plain text may be of any length: a memory that is too small for the zeros is not modelled.

**The OKE scripts.** Resources refer to each other as the create commands set them up. They may
finish, fail or disappear at any time; calls may fail with or without effect. A deletion may only be
asked for under the precondition that nothing live refers to the resource, so that every caller
proves it. Deleting a cluster takes its node pools along. Nobody else attaches resources to the
tagged network. The preflight's own promises hold for arbitrary answers of the lists; those of the
teardown and the creation need lists that show every live resource, and may also show terminal ones.
A completed `-d` removes the context exactly if one of its two lists shows a tagged record, terminal
or not. So the context outlives a deployment if a `-d` is cut off after the last deletion and OCI
has forgotten the records when the next one asks (`OkeRuns.DeleteAgain`).

**The rest.** `ceil(row_count / procs)` in `loader.py` is a division of floats, so the split is
proved for any span: it is exact if and only if the spans reach the row count. The 64-bit sums of
the Java loader are written out. For which options they give every id once is settled
(`Loader.LoadIsExactIff`): for a row count that is not negative, the sum in the span, the end of the
last worker with an id and the start of the last worker have to fit a long; or, by accident, the
span overflows and lies so far below a negative offset that the first worker is given everything.
A batch with a concurrency below one blocks for ever, and nothing validates that option;
`Executor.ExecuteConcurrent` says so. A map column is modelled cell by cell with
timestamps, so that "last write wins" is proved of the inserts rather than assumed.

The attribute of an item is taken to have at most one field set, as the SDK's builder methods leave it.

## Model

| member | source | states |
|---|---|---|
| Cluster.StepKeepsCoherent | sample_app/convert_to_tablets.py:945-994 | outside a migration a keyspace is stored the same way on every node, whatever step the cluster takes |
| Cluster.CalmRunDrifts | sample_app/convert_to_tablets.py:971-994 | a stretch of reads, drains, pod deletions and restarts marks no node and moves no keyspace; a node can only have taken on the mode it intended |
| UpgradeOrder.RunKeepsOrder | sample_app/convert_to_tablets.py:971-994 | over every run whose marks are made in turn, with processes stopping and starting anywhere in between: at every state there is a k such that nodes before k are on tablets, nodes after k are unmarked on vnodes, and only node k may be marked |
| UpgradeOrder.TurnIsFrontier | sample_app/convert_to_tablets.py:972-994 | from the moment its turn comes until something other than its own mark is asked for, a node that is not upgraded is the one at the frontier |
| UpgradeOrder.OnlyFrontierRestarts | sample_app/convert_to_tablets.py:972-994 | over every such run, whoever is drained or restarted is the node at the frontier: only node k is marked or mid-restart |
| Phases.NextIsSequential | sample_app/convert_to_tablets.py:972-994 | turn after turn, a second node is drained or restarted only after the first was found to be back |
| UpgradeOrder.OneConvertsAtATime | sample_app/convert_to_tablets.py:986-989 | in such a state an unexpected restart converts at most one node |
| UpgradeOrder.FrontierAt | sample_app/convert_to_tablets.py:971-989 | the node whose turn it is, given that all before it are upgraded, is the one at the frontier |
| Rest.World.PutStorageMode | sample_app/convert_to_tablets.py:365-367 | sets the mode of whichever node listens on the address; may fail with or without effect |
| Rest.World.Status | sample_app/convert_to_tablets.py:333-354 | the state of one keyspace and of each node, the per-node list empty outside a migration |
| Convert.PhraseIsTrue | sample_app/convert_to_tablets.py:343-362 | the phrase "uses m" is shown exactly if the node stores and intends m, "migrating to vnodes" exactly if it stores tablets and intends vnodes |
| Convert.ResolveApiHost | sample_app/convert_to_tablets.py:256-270 | an address it returns is that of the node with this host ID |
| Convert.PickControl | sample_app/convert_to_tablets.py:317-328 | a node of the list at whose address a live node answers, never the excluded one |
| Convert.AllUse | sample_app/convert_to_tablets.py:370-379 | true only if the node is at the wanted mode for every keyspace at once |
| Convert.WaitNodeMode | sample_app/convert_to_tablets.py:370-387 | ends; true only if the node is at the wanted mode for every keyspace, false only once the whole timeout is over |
| Convert.RefreshApiHost | sample_app/convert_to_tablets.py:407-433 | afterwards the address is verified, or it is the old one and somebody answers there; no address of another node is taken up |
| Convert.NodeBackUp | sample_app/convert_to_tablets.py:436-448 | if only the restarted node may change its address, true means that the address is that node's own, although the early exit never asked for the host ID |
| Convert.TwoOnTheirWay | sample_app/convert_to_tablets.py:407-433 | with two pods on their way one may come back on the address that the other had, and a node that is down is taken to be back |
| Convert.RestartNode | sample_app/convert_to_tablets.py:478-505 | drain and restart reach the intended node and nobody else; a node that is back is located at its own address again, and only then does the work go on |
| Phases.MarkInTurn | sample_app/convert_to_tablets.py:971-989 | a mark that goes through is made while every earlier node is done, and leaves them done |
| Phases.UpgradeNode | sample_app/convert_to_tablets.py:972-994 | one turn: marks, drains and restarts of this node only and in its turn, the restart only after a look that found it short of tablets; in the end this node is done as well and back |
| Finalization.FinalizationMeets | sample_app/convert_to_tablets.py:1003-1010 | at the moment the finalization takes effect every listed node still stores every requested keyspace in the wanted mode |
| Finalization.FinalizeOne | sample_app/convert_to_tablets.py:1003-1010 | one finalization request, made only when every node is in the wanted mode, and the state it leads to |
| Finalization.FinalizeAll | sample_app/convert_to_tablets.py:1002-1010 | each requested keyspace ends in the wanted state and no other keyspace's status changes |
| Migration.CheckRestartCapability | sample_app/convert_to_tablets.py:451-475 | passes only if every node has a pod and pods may be deleted, or restarts are manual |
| Migration.Classify | sample_app/convert_to_tablets.py:912-931 | afterwards every keyspace is either to be prepared or already migrating |
| Migration.PrepareAll | sample_app/convert_to_tablets.py:945-968 | every keyspace to be prepared is migrating, and nothing was asked for but these starts |
| Migration.Migrate | sample_app/convert_to_tablets.py:901-1010 | forced or not and cut off anywhere: marks, drains and restarts only in turn and one node after the other, finalizations only on uniform tablets, starts only of requested keyspaces; nothing at all if pods are to be deleted and one is not known; on success every requested keyspace is on tablets everywhere |
| Rollback.NeedsRestart | sample_app/convert_to_tablets.py:876-882 | true exactly if the node stored some requested keyspace as tablets when it was looked at |
| Rollback.RollbackNode | sample_app/convert_to_tablets.py:869-887 | the node ends on vnodes for every keyspace, restarted exactly if it was seen on tablets |
| Rollback.Rollback | sample_app/convert_to_tablets.py:860-897 | cut off anywhere: marks for vnodes only, one node after the other, finalizations only on uniform vnodes; on success every node is unmarked on vnodes, and exactly the nodes seen on tablets were restarted |
| Restoration.RunKeepsSince | sample_app/convert_to_tablets.py:860-897 | what any run without a finalization to tablets can have changed: keyspaces under way and their storage, nothing else |
| Restoration.QuietEndRestores | sample_app/convert_to_tablets.py:860-897 | such a run that ends without a migration or mark has restored status, marks and storage |
| Restoration.Restore | sample_app/convert_to_tablets.py:860-897 | from any crash point before the first finalization to tablets a completed rollback restores the cluster, and an interrupted one leaves a state from which the next one does |
| NodeOrder.SortNodes | sample_app/convert_to_tablets.py:313-314 | the nodes found, in the order of data centre, rack, pod and host ID |
| NodeOrder.OrderIsUnique | sample_app/convert_to_tablets.py:313-314 | that order does not depend on the order in which the nodes were found |
| NodeOrder.SameOrderForgettingIff | sample_app/convert_to_tablets.py:307-314 | a run that cannot read the pod names of some nodes, whichever they are, visits all nodes in the same order exactly if in their racks these stand only behind nodes without a name and with lower host IDs |
| NodeOrder.MissingPodNamesReorder | sample_app/convert_to_tablets.py:307-314 | two nodes that change places when one of their pods is not known |
| NodeOrder.ReorderedRunMarksTwo | sample_app/convert_to_tablets.py:971-989 | for any two orders of the same nodes, at the first position where they differ: a run in the second one would mark a node while the one an interrupted run marked is still pending |
| NodeOrder.OrdersMustAgree | sample_app/convert_to_tablets.py:971-989 | every cluster in order for one run keeps at most one pending node under whatever the next run asks, if and only if both visit the nodes in the same order |
| Operations.WhichRunsAreAdmissible | sample_app/convert_to_tablets.py:451-475 | a later run is safe if it sees the same pods as the one before; a run that has pods deleted always is, since without a pod's name it refuses to begin |
| NodeOrder.StartOverMarks | sample_app/convert_to_tablets.py:954-962 | a migration started over an existing mark would leave that node pending at once: the server's refusal is what keeps a resumed run with one more keyspace safe |
| Operations.Discover | sample_app/convert_to_tablets.py:273-314 | the nodes in the stable order, each at its own verified address |
| Operations.MoveIsInTurn | sample_app/convert_to_tablets.py:971-1010 | the marks, drains and restarts of a run whose calls reach their nodes are moves that keep the upgrade in order |
| Operations.RunMigrate | sample_app/convert_to_tablets.py:1018-1057 | one run from discovery to wherever it ends: every storage-mode, drain and restart call reaches the node it is meant for, in turn and one node after the other, finalizations are on uniform storage; a run that must delete pods and misses a pod only looks |
| Operations.MoveIsBackInTurn | sample_app/convert_to_tablets.py:860-897 | the marks, drains and restarts of a rollback whose calls reach their nodes take the nodes back in turn |
| Operations.RunRollback | sample_app/convert_to_tablets.py:1018-1057 | one rollback from discovery to wherever it ends: its calls reach the nodes they are meant for, in turn and one after the other, and its finalizations are on uniform storage; if it must delete pods and misses a pod it only looks |
| Operations.Operate | sample_app/convert_to_tablets.py:901-1057 | over any number of runs with any keyspaces and flags, each ending anywhere: at every state at most one node would convert, the one whose turn it is; every node drained or restarted is the one at the frontier; a second node follows only after the first answered a discovery or was found to be back, in the same run only after it was found to be back |
| RollbackOrder.StatusTells | sample_app/convert_to_tablets.py:333-362 | between runs the status of a keyspace under way tells a pending node ("migrating to") from an upgraded ("uses tablets") and an untouched one ("uses vnodes") |
| RollbackOrder.DowngradeKeeps | sample_app/convert_to_tablets.py:869-887 | every step of a rollback, and of the environment, keeps it so that a pending node has only nodes before it that are back on vnodes |
| RollbackOrder.UpgradeKeeps | sample_app/convert_to_tablets.py:945-994 | every step of a migrate run, and of the environment, keeps it so that a pending node has only upgraded nodes before it, and that nothing is pending where another migration can be started |
| RollbackOrder.RollbackKeepsOneIff | sample_app/convert_to_tablets.py:860-897 | any run of rollback moves, and of the environment, keeps at most one pending node in every state exactly if at its start every pending node has only nodes before it that are back on vnodes |
| RollbackOrder.MigrateKeepsOneIff | sample_app/convert_to_tablets.py:971-989 | any number of migrate runs with any keyspaces keep at most one pending node in every state exactly if there is one node only, or at their start every pending node has only upgraded nodes before it and nothing is pending where another migration can be started |
| RollbackOrder.RollbackAfterMigrationIff | sample_app/convert_to_tablets.py:860-897 | a rollback after migrate runs, wherever these were cut off, keeps it exactly if they left no node but the first marked |
| RollbackOrder.MigrateAfterRollbackIff | sample_app/convert_to_tablets.py:971-989 | migrate runs after migrate runs and a rollback, wherever each was cut off, keep it exactly under the condition of MigrateKeepsOneIff on the state that was left |
| RollbackOrder.InterruptedRollback | sample_app/convert_to_tablets.py:860-897 | a rollback cut off after the second node's mark: the next migrate run may not begin |
| RollbackOrder.LeftoverMark | sample_app/convert_to_tablets.py:860-897 | a migration cut off at a marked node and a rollback cut off after the first node: no node is to go back, only the marked one is pending, and the next migrate run may not begin |
| RollbackOrder.StartBesidePending | sample_app/convert_to_tablets.py:945-962 | a rollback cut off after the first node's mark, where another keyspace's migration can be started: the next migrate run may not begin |
| Alternation.Alternate | sample_app/convert_to_tablets.py:1018-1057 | over any number of migrate and rollback runs, each begun only where the condition of its kind holds and ending anywhere: at every state at most one node would convert, every call reaches its node, and a second node is drained or restarted only after the first has returned |
| Text.Utf8Decodes | sample_app/alternator-to-cql/src/main/java/com/scylladb/alternator/AlternatorSerializer.java:121-123 | decoding getBytes(UTF_8) gives the text back with each unpaired surrogate replaced by a question mark |
| Text.Utf8Faithful | sample_app/alternator-to-cql/src/main/java/com/scylladb/alternator/AlternatorSerializer.java:121-123 | the encoding is invertible exactly on well-formed texts, and merges two texts exactly if they differ in unpaired surrogates only |
| Text.LoneSurrogateMerges | sample_app/alternator-to-cql/src/main/java/com/scylladb/alternator/AlternatorSerializer.java:77-79 | an unpaired surrogate and a question mark are the same name |
| Base64.Decodes | sample_app/alternator-to-cql/src/main/java/com/scylladb/alternator/AlternatorSerializer.java:179-181 | Base64 (section 4 of RFC 4648) is inverted on every byte array |
| JsonString.EscapedReads | sample_app/alternator-to-cql/src/main/java/com/scylladb/alternator/AlternatorSerializer.java:236-274 | a reader for JSON strings (section 7 of RFC 8259) inverts the escaping of every UTF-16 sequence, whatever follows |
| JsonString.EscapedIsSealed | sample_app/alternator-to-cql/src/main/java/com/scylladb/alternator/AlternatorSerializer.java:236-274 | an escaped string has no raw quote and no control character |
| JsonString.RawReadsIffPlain | sample_app/alternator-to-cql/src/main/java/com/scylladb/alternator/AlternatorSerializer.java:174-178 | a string appended without escaping, as numbers are, is read back exactly if it has no quote, backslash or control character |
| AttributeWriter.Builder.AppendJsonEscaped | sample_app/alternator-to-cql/src/main/java/com/scylladb/alternator/AlternatorSerializer.java:236-274 | appends the escaped text and nothing else |
| AttributeWriter.Builder.AppendJsonAttributeValue | sample_app/alternator-to-cql/src/main/java/com/scylladb/alternator/AlternatorSerializer.java:167-233 | appends the JSON of the value; fails exactly if some value in it has no field set |
| AttributeReader.JsonReads | sample_app/alternator-to-cql/src/main/java/com/scylladb/alternator/AlternatorSerializer.java:167-233 | at any nesting, a recursive-descent reader run on the JSON and any suffix returns the value and that suffix |
| AttributeReader.JsonReadsIffPlain | sample_app/alternator-to-cql/src/main/java/com/scylladb/alternator/AlternatorSerializer.java:167-233 | the value is read back exactly if all its numbers can stand between quotes |
| AttributeReader.PrefixFree | sample_app/alternator-to-cql/src/main/java/com/scylladb/alternator/AlternatorSerializer.java:167-233 | no value's JSON is a beginning of another's, and no two values have the same |
| AttributeReader.NumbersCanMerge | sample_app/alternator-to-cql/src/main/java/com/scylladb/alternator/AlternatorSerializer.java:174-201 | a number that holds quotes is written like two numbers |
| AttributeRepair.JsonMend | sample_app/alternator-to-cql/src/main/java/com/scylladb/alternator/AlternatorSerializer.java:167-233 | replacing unpaired surrogates in the JSON is replacing them inside the value |
| AttributeRepair.MendKeeps | sample_app/alternator-to-cql/src/main/java/com/scylladb/alternator/AlternatorSerializer.java:167-233 | a value is its own repair exactly if all its texts are well-formed |
| AttributeRepair.JsonBytesRead | sample_app/alternator-to-cql/src/main/java/com/scylladb/alternator/AlternatorSerializer.java:162-164 | the bytes of the fallback are read as the repaired value, and two values share them exactly if they share the repair |
| Decimal.BytesRoundTrip | sample_app/alternator-to-cql/src/main/java/com/scylladb/alternator/AlternatorSerializer.java:147-160 | BigInteger(toByteArray()) is the identity on all integers |
| Decimal.BytesMinimal | sample_app/alternator-to-cql/src/main/java/com/scylladb/alternator/AlternatorSerializer.java:147-160 | no other byte array for the number is shorter |
| Decimal.ScaleRoundTrip | sample_app/alternator-to-cql/src/main/java/com/scylladb/alternator/AlternatorSerializer.java:284-290 | the four scale bytes give back every 32-bit scale |
| Decimal.StripDecides | sample_app/alternator-to-cql/src/main/java/com/scylladb/alternator/AlternatorSerializer.java:294-295 | two numbers strip to the same canonical form exactly if they are numerically equal |
| Decimal.NumberRoundTrip | sample_app/alternator-to-cql/src/main/java/com/scylladb/alternator/AlternatorSerializer.java:147-160 | the stripped number that deserializeNumber arrives at has the value that was written; it gets there exactly if the trailing zeros leave the scale in the int range, and fails with an overflow otherwise |
| Decimal.SameReadIffSame | sample_app/alternator-to-cql/src/main/java/com/scylladb/alternator/AlternatorSerializer.java:284-295 | two payloads are stripped to the same number exactly if their numbers are equal |
| Decimal.LowestScaleOverflows | sample_app/alternator-to-cql/src/main/java/com/scylladb/alternator/AlternatorSerializer.java:284-295 | 10 at the lowest scale is written but cannot be read |
| PlainNumber.PlainReads | sample_app/alternator-to-cql/src/main/java/com/scylladb/alternator/AlternatorSerializer.java:284-295 | an independent reader of decimal texts gets from toPlainString the number itself: its unscaled value and scale, or the whole number |
| PlainNumber.NumberTextRoundTrip | sample_app/alternator-to-cql/src/main/java/com/scylladb/alternator/AlternatorSerializer.java:147-160 | the text that deserializeNumber returns stands for the number that was written, and there is one exactly if the trailing zeros leave the scale above the lowest one |
| PlainNumber.SameTextIffSame | sample_app/alternator-to-cql/src/main/java/com/scylladb/alternator/AlternatorSerializer.java:284-295 | two payloads are read as the same text exactly if their numbers are equal |
| Serializer.TaggedBytes | sample_app/alternator-to-cql/src/main/java/com/scylladb/alternator/AlternatorSerializer.java:121-126 | the tag and then the payload, in one array |
| Serializer.SerializeNumber | sample_app/alternator-to-cql/src/main/java/com/scylladb/alternator/AlternatorSerializer.java:147-160 | tag, scale and unscaled value in one array |
| Serializer.SerializeValue | sample_app/alternator-to-cql/src/main/java/com/scylladb/alternator/AlternatorSerializer.java:91-118 | the bytes of each type in the source's order of tests; fails on a malformed number or a value without a field |
| Serializer.SerializedReads | sample_app/alternator-to-cql/src/main/java/com/scylladb/alternator/AlternatorSerializer.java:91-118 | an independent reader gets from the bytes what the value means: itself, but for a number's spelling and unpaired surrogates |
| Serializer.SameBytesIffSameMeaning | sample_app/alternator-to-cql/src/main/java/com/scylladb/alternator/AlternatorSerializer.java:91-118 | across all types two values have equal bytes exactly if they mean the same |
| Serializer.Injective | sample_app/alternator-to-cql/src/main/java/com/scylladb/alternator/AlternatorSerializer.java:91-118 | without unpaired surrogates equal bytes mean equal values, or equal unscaled value and scale |
| Serializer.SerializeAttrsMap | sample_app/alternator-to-cql/src/main/java/com/scylladb/alternator/AlternatorSerializer.java:57-69 | fails exactly on a repeated excluded key or a value without bytes; otherwise an entry for every attribute not excluded and no other, in any order of iteration |
| Serializer.OneEntryEach | sample_app/alternator-to-cql/src/main/java/com/scylladb/alternator/AlternatorSerializer.java:57-69 | as many entries as attributes exactly if no two names differ in unpaired surrogates only |
| Serializer.EntryRecoverable | sample_app/alternator-to-cql/src/main/java/com/scylladb/alternator/AlternatorSerializer.java:42-47 | every entry gives back the name and the meaning of one attribute |
| Serializer.AttrsRecoverable | sample_app/alternator-to-cql/src/main/java/com/scylladb/alternator/AlternatorSerializer.java:57-69 | the item without the excluded keys can be read off the map, name by name |
| Serializer.WellFormedDistinct | sample_app/alternator-to-cql/src/main/java/com/scylladb/alternator/AlternatorSerializer.java:57-69 | well-formed names never merge |
| UserIdBlob.EncodeInt | sample_app/alternator-java-ingest/src/main/java/AlternatorUserIdLoader.java:192-202 | the seven low bytes of the unsigned 32-bit number behind the header |
| UserIdBlob.EncodeLong | sample_app/alternator-java-ingest/src/main/java/AlternatorUserIdLoader.java:204-212 | the seven low bytes of the number, highest first, behind the header |
| UserIdBlob.BlobIsDecimal | sample_app/alternator-java-ingest/src/main/java/AlternatorUserIdLoader.java:204-212 | the decimal decoder takes bits 48 to 55 for the scale and the low 48 for a signed number |
| UserIdBlob.LongReadsIff | sample_app/alternator-java-ingest/src/main/java/AlternatorUserIdLoader.java:204-212 | for every 64-bit v the blob is read as v, and like the decimal format of v, exactly if 0 <= v < 2^47 |
| UserIdBlob.SignFlips | sample_app/alternator-java-ingest/src/main/java/AlternatorUserIdLoader.java:204-212 | from 2^47 to 2^48 it is read as v - 2^48 |
| UserIdBlob.IntReadsIff | sample_app/alternator-java-ingest/src/main/java/AlternatorUserIdLoader.java:192-202 | the int overload is read back exactly for numbers that are not negative |
| UserIdBlob.PythonRoundTrip | sample_app/alternator-client/encode_alternator.py:12-32 | the Python pair is inverse on exactly 0 <= v < 2^56, and reads a Java blob modulo 2^56 |
| UserIdBlob.PythonReadsDecimalIff | sample_app/alternator-client/encode_alternator.py:24-32 | the Python decoder reads the decimal format of a whole number as that number exactly if 0 <= v < 2^47 |
| OkeState.ClearedIsUnreferenced | makeK8s_OKE/makeBasicCluster.bash:570-590 | once everything earlier in the order of -d is gone, nothing live refers to the next resource |
| OkeState.DriftKeepsIntact | makeK8s_OKE/makeBasicCluster.bash:441-474 | resources that finish, fail or disappear by themselves keep the invariant: no live resource refers to one that is gone or going |
| OkeState.DeleteKeepsIntact | makeK8s_OKE/makeBasicCluster.bash:476-512 | deleting an unreferenced resource, or failing to, keeps the invariant |
| OkeState.CreateKeepsIntact | makeK8s_OKE/makeBasicCluster.bash:669-812 | so does creating one that refers to standing resources only |
| OkeState.ParentsGone | makeK8s_OKE/oke-lifecycle.bash:426-457 | without a live tagged cluster and VCN nothing of the deployment is live |
| OkeTeardown.WaitForTerminalGet | makeK8s_OKE/makeBasicCluster.bash:441-474 | true only if the resource is gone; waits no longer than the configured maximum |
| OkeTeardown.DeleteRecord | makeK8s_OKE/makeBasicCluster.bash:476-512 | waits for a resource that is going, asks for the deletion of any other; only of an unreferenced one |
| OkeTeardown.LookupNetwork | makeK8s_OKE/makeBasicCluster.bash:346-439 | for each of the nine kinds the one live resource, or that there is none |
| OkeTeardown.DeleteChildren | makeK8s_OKE/makeBasicCluster.bash:570-590 | in its order every deletion is safe; afterwards only the VCN can be live |
| OkeLifecycle.CheckCreateCollisions | makeK8s_OKE/oke-lifecycle.bash:280-333 | whatever the lists answer: at most the configured attempts, success only on a last discovery without a live record, waiting only while every live one is going; from a clean state it fails only on a stranger's record or a failing call |
| OkeLifecycle.VerifyNoLiveOwnedParents | makeK8s_OKE/oke-lifecycle.bash:426-457 | success only if nothing of the deployment is live; bounded waits |
| OkeLifecycle.DeleteOke | makeK8s_OKE/makeBasicCluster.bash:514-602 | a completed -d leaves nothing live, clears the context exactly if one of its two lists showed a tagged record, terminal or not, and ends early only if a call fails or a wait is given up |
| OkeCreate.EnsurePool | makeK8s_OKE/makeBasicCluster.bash:851-895 | a ready pool is reused and brought to its size, one that is not ready is never touched and its size stays, a missing one is created; if it was ready or missing only a failing call keeps it from being there once |
| OkeCreate.EnsurePools | makeK8s_OKE/makeBasicCluster.bash:851-971 | every configured pool exists exactly once; the ScyllaDB pool is never resized |
| OkeRuns.NeedsAreDone | makeK8s_OKE/makeBasicCluster.bash:669-812 | what a create command names has been created before it |
| OkeRuns.CreateOke | makeK8s_OKE/makeBasicCluster.bash:604-1010 | a fresh create begins only where nothing is live, keeps the invariant wherever it stops, and ends well only with a complete deployment; from a clean state only a failing call or a stranger's record stops it |
| OkeRuns.ResumeOke | makeK8s_OKE/makeBasicCluster.bash:604-645 | a resume goes on only from one tagged ready cluster and VCN with the whole network ready and of the configured version, if any, and touches nothing but node pools; from such a deployment, with its pools ready or missing, it fails only if a call fails or a stranger's resource of the same name is listed |
| OkeRuns.CreateThenDelete | makeK8s_OKE/makeBasicCluster.bash:514-602 | from any point at which a create stopped, a completed -d leaves nothing live and no context, and the create preflight passes again |
| OkeRuns.DeleteAgain | makeK8s_OKE/makeBasicCluster.bash:592-595 | with nothing live and the context still there, a -d completes unless a call fails, and keeps the context exactly if neither of its two lists shows a tagged record |
| Executor.NeverTooMany | sample_app/cql-java-ingest/src/main/java/com/scylladb/loader/ScyllaLoader.java:277-311 | in every interleaving permits and requests in flight add up to the concurrency, and a run has at most two steps for each row |
| Executor.ProgressIff | sample_app/cql-java-ingest/src/main/java/com/scylladb/loader/ScyllaLoader.java:277-311 | some task can go on without an interruption until all are done, in every run, exactly if the concurrency is at least one |
| Executor.UninterruptedEndsIff | sample_app/cql-java-ingest/src/main/java/com/scylladb/loader/ScyllaLoader.java:277-311 | a batch that nobody interrupts and that goes on as long as it can ends with all tasks done exactly if it has no rows or a concurrency of at least one; otherwise it blocks at once |
| Executor.CanBeFinished | sample_app/cql-java-ingest/src/main/java/com/scylladb/loader/ScyllaLoader.java:277-311 | with a concurrency of at least one every such run can be carried on to the end |
| Executor.InterruptsReleaseNothing | sample_app/cql-java-ingest/src/main/java/com/scylladb/loader/ScyllaLoader.java:286-306 | over every run, whatever is interrupted: the permits that are missing are those acquired by tasks that have not finished |
| Executor.Batch.Join | sample_app/cql-java-ingest/src/main/java/com/scylladb/loader/ScyllaLoader.java:307-310 | the number of rows that did not succeed |
| Executor.ExecuteConcurrent | sample_app/cql-java-ingest/src/main/java/com/scylladb/loader/ScyllaLoader.java:277-311 | for every concurrency, however it is scheduled and interrupted: it returns the number of rows that did not succeed, or blocks for ever, which only a concurrency below one makes possible |
| Split.SplitIsExactIff | sample_app/loader.py:190-206 | the workers visit every id once and in order exactly if their spans reach the row count |
| Split.WorkersTile | sample_app/loader.py:190-206 | what any number of workers visits for any span, positive or not |
| Loader.Worker | sample_app/cql-java-ingest/src/main/java/com/scylladb/loader/ScyllaLoader.java:236-266 | what a worker comes to and its totals in 64-bit arithmetic: its range, each id once, with the failed rows counted, or the batches before the first that meets an exception, and then its whole range as failed |
| Loader.LoopEndsIff | sample_app/cql-java-ingest/src/main/java/com/scylladb/loader/ScyllaLoader.java:249-250 | the loop over the batches leaves the range after its last batch exactly if that batch's first id plus the batch size fits a long |
| Loader.Load | sample_app/cql-java-ingest/src/main/java/com/scylladb/loader/ScyllaLoader.java:101-142 | whatever fails: the ids all workers come to, as many as the total, and the failures as the workers count them; without an exception, and if the sums fit, every id from offset + 1 to offset + rowCount once |
| Loader.LoadIsExactIff | sample_app/cql-java-ingest/src/main/java/com/scylladb/loader/ScyllaLoader.java:101-127 | for every row count, offset and number of workers, the 64-bit ranges are every id from offset + 1 to offset + rowCount once exactly under the stated condition |
| Loader.SpanExactIff | sample_app/cql-java-ingest/src/main/java/com/scylladb/loader/ScyllaLoader.java:102-102 | the span is the exact quotient exactly if rowCount + workers - 1 fits a long |
| Loader.OverflowLoadsNothing | sample_app/cql-java-ingest/src/main/java/com/scylladb/loader/ScyllaLoader.java:101-124 | if it does not, with an offset that is not negative, no worker has an id |
| Loader.NoFailureIsHidden | sample_app/cql-java-ingest/src/main/java/com/scylladb/loader/ScyllaLoader.java:236-266 | every row that was not written counts as failed, and nothing else does exactly if no worker had written a row before its exception |
| Split.InsertParallel | sample_app/loader.py:190-206 | the chunks of all workers, one after the other, are what the split gives them, for any batch size of at least one |
| Split.ChunkedIds | sample_app/loader.py:92-97 | the chunks, one after the other, are the range; none is larger than the batch size |
| Split.ChunksAdvanceIff | sample_app/loader.py:92-97 | the generator gets past a chunk exactly if the batch size is at least one |
| Split.QueriedWasInsertedIff | sample_app/query.py:86-87 | a key that may be drawn was inserted exactly if the split reached its id and its bucket is not negative |
| Split.EveryQueryFinds | sample_app/loader.py:66-69 | with a positive number of buckets every key that may be drawn was inserted |
| Cleanup.TokenRanges | sample_app/alternator-client/cleanup_userid_mt.py:38-43 | terminates for every width that is not negative, with the ranges of that width |
| Cleanup.RangesTile | sample_app/alternator-client/cleanup_userid_mt.py:38-56 | the closed ranges hold every token exactly once; the queries miss exactly the tokens at which a range starts |
| Cleanup.StartAdvancesIff | sample_app/alternator-client/cleanup_userid_mt.py:38-43 | the generator advances exactly if the width is not negative |
| Cleanup.NewestSurvives | sample_app/alternator-client/cleanup_userid_mt.py:45-71 | in every interleaving of workers, repeated rows and inserts every user keeps a row at least as new as any it had |
| Cleanup.NewestIsNotDeleted | sample_app/alternator-client/cleanup_userid_mt.py:61-65 | the newest row itself stays until a newer one is inserted |
| Cleanup.Confluent | sample_app/alternator-client/cleanup_userid_mt.py:45-83 | without inserts the outcome does not depend on the interleaving: each visited user keeps exactly its newest row, and no other row is deleted |
| Cleanup.CleanupRange | sample_app/alternator-client/cleanup_userid_mt.py:45-71 | one worker beside the others, repeated rows included: no user loses its newest row, and without inserts every user of its rows whose maximum is not zero has exactly that one left, unless its statements failed |
| Der.DerTlv | sample_app/cql-java-ingest/src/main/java/com/scylladb/loader/ScyllaLoader.java:545-558 | writes the tag, the length octets and the value |
| Der.TlvReads | sample_app/cql-java-ingest/src/main/java/com/scylladb/loader/ScyllaLoader.java:545-558 | tag, value and any suffix are read back |
| Der.LengthIsMinimal | sample_app/cql-java-ingest/src/main/java/com/scylladb/loader/ScyllaLoader.java:549-555 | of all octets that are read as the length (section 8.1.3 of X.690) those written are the fewest and the only ones as few (section 10.1), for every int length |
| Der.WrapPkcs1InPkcs8 | sample_app/cql-java-ingest/src/main/java/com/scylladb/loader/ScyllaLoader.java:533-543 | the version, the algorithm and the key in their sequence |
| Der.WrappedHoldsKey | sample_app/cql-java-ingest/src/main/java/com/scylladb/loader/ScyllaLoader.java:533-543 | parses as a PrivateKeyInfo for rsaEncryption (section 5 of RFC 5208) with exactly the original key inside |
| Writers.MicrosExactIff | sample_app/alternator-to-cql/src/main/java/com/scylladb/alternator/CqlWriter.java:141-141 | the microseconds are exact exactly for milliseconds of at most 9223372036854775 in absolute value |
| Writers.MicrosMonotone | sample_app/alternator-to-cql/src/main/java/com/scylladb/alternator/CqlWriter.java:141-141 | there newer items have timestamps newer by at least a thousand |
| Writers.MicrosWrapAround | sample_app/alternator-to-cql/src/main/java/com/scylladb/alternator/CqlWriter.java:141-141 | below it an ancient timestamp becomes the newest of all |
| Writers.CqlTable.Write | sample_app/alternator-to-cql/src/main/java/com/scylladb/alternator/CqlWriter.java:110-151 | accepts exactly items whose key can be bound, whose attributes serialize and whose whole timestamp is not in the future, and inserts them with that timestamp; otherwise the table stays as it was |
| Writers.DynamoTable.Write | sample_app/alternator-to-cql/src/main/java/com/scylladb/alternator/DynamoDbWriter.java:45-72 | puts the item exactly if the table has no item of the key or an older one; fails only without a numeric timestamp |
| Writers.WriteAll | sample_app/alternator-to-cql/src/main/java/com/scylladb/alternator/DynamoDbWriter.java:45-72 | every item through both writers: the two tables that the order of arrival defines |
| Writers.LastWriteWins | sample_app/alternator-to-cql/src/main/java/com/scylladb/alternator/CqlWriter.java:124-150 | whatever the order of arrival both tables hold, for each key, the item of the greatest timestamp |
| Writers.OrderDoesNotMatter | sample_app/alternator-to-cql/src/main/java/com/scylladb/alternator/DynamoDbWriter.java:20-71 | any two orders of the same items give the same tables, and the two tables agree |
| Writers.TiesDiffer | sample_app/alternator-to-cql/src/main/java/com/scylladb/alternator/DynamoDbWriter.java:20-22 | with equal timestamps DynamoDB keeps the first item and CQL mixes the two |

## Left out

- The schema checks of the migration's preflight, prompts, progress output and the status command: each check is an arbitrary answer.
- The wall clock is a counter that every wait advances; timeouts are measured on it.
- convert_to_tablets_kubectl.bash, a twin of the Python controller.
- Resharding, the power-of-two layout and counters: decided by the server alone.
- Operations.Operate: a pod that an earlier run left mid-replacement is taken to be back when the next run begins (also in Alternation.Alternate and Restoration.Restore); Convert.TwoOnTheirWay shows what two pods on their way would break.
- Alternation.Alternate: the operator reads the status right before a run; nobody else starts one meanwhile.
- Serializer.SerializeValue: the parser of BigDecimal is a parameter, so which texts are numbers is not modelled.
- The strings of encode_alternator.py: the same bytes as the Java string overload, whose UTF-8 is proved in `Text`.
- Compartment creation, image selection, limits, choice of the Kubernetes version and availability domain in the OKE scripts; sizes and readiness of nodes inside the cluster.
- Work requests are part of the call that waits for them; the reports about failed ones are output only.
- Loader.Load: the 30-minute timeout of the main thread, which may collect partial results, is not modelled.
- Loader.Worker: a loop that runs past the last long (Loader.LoopEndsIff says when it does), and a batch size below one, are not modelled.
- Split.SplitIsExactIff: whether a float quotient rounds down to a span that is too short is left to its condition.
- Cleanup.NewestSurvives: deletions take effect at once; that a tombstone may hide an insert with an older write timestamp is not modelled.
- Cleanup.Confluent: which users a worker comes across is left to the query; `total_deleted` counts statements, not rows.
- Writers.LastWriteWins: attributes are taken in their serialized form; the table of one key type, without TTLs or deletes.
- HTTP, CQL, Kubernetes and OCI transport, TLS, sessions, arguments and logging; deployment scripts, templates and Terraform; faker data and rate reports.
