# Distributed systems, verified

A Dafny model, with proofs, of three components of this repository.

**The heartbeat membership protocol over the emulated network** (`membership-protocol/`). The emulated network is a
class over a fixed array (`EmulNet.dfy`); a node is a class whose methods update its list and counters and hand
messages to the network (`MP1Node.dfy`), each proved against a function of `Membership.dfy`; the driver is a class
whose every tick is proved to be a round of the group (`Application.dfy`, `Rounds.dfy`). About all runs of rounds, under
loss, repetition, reordering and crashes, it is proved that lists and messages are truthful (`Rounds.dfy`), that
flooding dies out (`Flooding.dfy`), that crashed nodes are dropped for good (`Completeness.dfy`), and that live nodes
are not (`Accuracy.dfy`); and without loss and crashes, that the group forms and stays together (`Joining.dfy`).

**The replicated key-value store** (`key-value-store/`). Its text formats (`Decimal.dfy`, `Delimited.dfy`,
`Message.dfy`, `Entries.dfy`), the hash table (`HashTable.dfy`), the ring (`Ring.dfy`), re-replication
(`Stabilization.dfy`), the server and the verdicts (`Server.dfy`), the node as a class over all of these
(`MP2Node.dfy`), and the repair of a key from end to end (`Repair.dfy`). Read-after-write is proved twice: for one
update and one read that travel as text, for exactly the values that survive it (`Quorum.dfy`), and over runs of ticks
(`Consistency.dfy`), on top of the life of a transaction (`Transactions.dfy`).

**The SDN routing policies on the fat tree** (`emulated-sdn-application/minidc`). The load balancer and its bounds
(`Balancing.dfy`, `Adaptive.dfy`), how the emulator builds the network and numbers ports (`FatTree.dfy`), the
controller's guess of these numbers (`Natural.dfy`, `PortMap.dfy`), the VLANs of the cores and the reading of the edge
lines (`Datacenter.dfy`), the tables of the three policies and the broadcast rules (`Network.dfy`, `Policies.dfy`),
where packets go under them (`Delivery.dfy`), and what the balancer does for them (`AdaptiveRouting.dfy`). Tables are
looked up as the OpenFlow Switch Specification 1.3 says: the matching rule of highest priority (section 5.3), FLOOD to
all ports but the one the packet came in by (section 4.5).

`dafny verify dfyconfig.toml` checks the whole project.

## What turned out otherwise than documented

- `strcmp` stops at the first zero byte of an address, so delivery is exact if and only if there are fewer than 512
  nodes (`Addresses.AddressingExact`), although the network allows 1000.
- `ring_changed` is documented by its name only; it answers yes whenever the rings share a hash code, and takes rings
  of one size without any for the same (`Rings.RingChanged`, `Rings.NewRingUnnoticed`), so stabilization runs at every tick with a non-empty table. That this is harmless is
  `KeyValueNode.HarmlessWhenUnchanged`. With an empty table the ring is not updated at all
  (`KeyValueNode.MP2Node.UpdateRing`).
- Read-after-write fails for some values: an empty value that two holders have stored loses against an old one at the
  third; and a value with a colon is cut off there, unless one of the two parsers looks for a number behind its colons
  and finds none, so that nobody can read it. So "a::1" is confirmed by every holder and read back as "a"
  (`QuorumReads.LostAfterColons`). `QuorumReads.ReadAfterWriteExactly` says exactly for which values it holds.
- If no holder is live to answer, a transaction gets no verdict at all, rather than a failure
  (`Transactions.VerdictTwoTicksLater`).
- The second of the new holders of a key sends the third copy to itself (`key-value-store/MP2Node.cpp:672-677`). Joins
  alone and failures alone are repaired all the same (`Repair.JoinCompletes`, `Repair.RepairCompletes`). But when nodes
  join and fail together, and of the old holders only the one now in second place is left, a third holder that is new
  gets no copy (`Repair.ThirdIsMissed`, and `Stabilization.ThirdIsNotServed` for an example). In every other case that
  leaves a holder, all three have it (`Repair.ChangeCompletes`).
- The role in a client's CREATE or UPDATE message is printed before it is set, so it is arbitrary, and an entry is
  stored with the role of the CREATE handled before it. No read, quorum or routing decision depends on either.

## Model

| member | source | states |
|---|---|---|
| `Addresses.MatchIsEquality` | membership-protocol/EmulNet.cpp:154 | comparing addresses with strcmp confuses two different nodes exactly when both ids are multiples of 256 |
| `Addresses.AddressingExact` | membership-protocol/EmulNet.cpp:154 | so delivery is exact in a group of n nodes if and only if n < 512 |
| `EmulatedNetwork.EmulNet.ENsend` | membership-protocol/EmulNet.cpp:87-118 | a message enters the buffer, and the ledger, exactly when there is room, it is short enough and it is not dropped; otherwise nothing changes; sent = received + buffered is kept |
| `EmulatedNetwork.EmulNet.ENrecv` | membership-protocol/EmulNet.cpp:144-177 | the descending swap-with-last scan hands over exactly the messages for the caller, last sent first, and leaves exactly the rest; the ledger of received messages grows by their number, and sent = received + buffered is kept |
| `EmulatedNetwork.EmulNet.SwapOutAt` | membership-protocol/EmulNet.cpp:159-171 | one removal: the last message moves into the gap, and the ledger of received messages grows by one |
| `EmulatedNetwork.RaisedCell` | membership-protocol/EmulNet.cpp:111-171 | of a ledger only the cell of that node and that time changes |
| `EmulatedNetwork.TakenAndLeft` | membership-protocol/EmulNet.cpp:147-173 | what is taken and what is left are the messages for the address and the others, and together as many as there were |
| `HeartbeatNode.MP1Node.SendHeartbeat` | membership-protocol/MP1Node.cpp:412-435 | one attempt to send the heartbeat to each member of the list, in order, and nothing else |
| `HeartbeatNode.MP1Node.UpdateMembership` | membership-protocol/MP1Node.cpp:379-405 | the list afterwards and all that is sent: an unknown source is appended, a higher heartbeat is recorded and passed on, anything else ignored |
| `HeartbeatNode.MP1Node.RecvCallBack` | membership-protocol/MP1Node.cpp:234-282 | the state afterwards and all that is sent, for a join request, a join reply and a heartbeat |
| `HeartbeatNode.MP1Node.CheckMessages` | membership-protocol/MP1Node.cpp:215-227 | the queue is emptied in order, with the effect of handling one message after the other |
| `HeartbeatNode.MP1Node.RemoveStale` | membership-protocol/MP1Node.cpp:307-319 | erasing in place leaves the first entry and, in order, exactly the entries not older than TREMOVE |
| `HeartbeatNode.MP1Node.NodeLoopOps` | membership-protocol/MP1Node.cpp:292-323 | the ping of every TFAIL + 1 rounds, and the removal of stale members |
| `Membership.KeptIfYoung` | membership-protocol/MP1Node.cpp:307-319 | of the other entries exactly those at most 20 ticks old are kept |
| `Membership.PingEverySixth` | membership-protocol/MP1Node.cpp:298-305 | a member counts one heartbeat and sends it to each member of its list, in order, in exactly every sixth round, counted from when its counter is down |
| `HeartbeatNode.MP1Node.NodeLoop` | membership-protocol/MP1Node.cpp:191-208 | a failed node does nothing, a node outside the group only handles messages, a member also pings and removes |
| `HeartbeatNode.MP1Node.NodeStart` | membership-protocol/MP1Node.cpp:67-89 | a started node lists only itself, with heartbeat 0; all but the introducer ask it to join |
| `HeartbeatNode.MP1Node.InitThisNode` | membership-protocol/MP1Node.cpp:95-113 | every field of a node that starts, whatever it was before |
| `HeartbeatNode.MP1Node.IntroduceSelfToGroup` | membership-protocol/MP1Node.cpp:120-160 | the introducer is in the group at once; any other node sends it one join request |
| `HeartbeatNode.MP1Node.RecvLoop` | membership-protocol/MP1Node.cpp:41-48 | a live node appends exactly the messages pending for it to its queue; a failed one nothing |
| `MembershipApplication.Application.ReceiveAll` | membership-protocol/Application.cpp:125-135 | after the first loop every live node has exactly what was pending for it, and nothing else was taken |
| `MembershipApplication.Application.ActAll` | membership-protocol/Application.cpp:138-164 | after the second loop every node has done its part once, and the buffer holds nothing but what was left and what they sent |
| `MembershipApplication.Application.Mp1Run` | membership-protocol/Application.cpp:121-165 | one tick: each node does its part in a round, given exactly what was pending for it |
| `MembershipApplication.Application.Fail` | membership-protocol/Application.cpp:174-203 | which nodes fail at time 100, how many, and when messages are dropped |
| `MembershipApplication.Application.Tick` | membership-protocol/Application.cpp:99-104 | one turn of the main loop is one round of the group, and a lossless one if the network accepted every message |
| `MembershipApplication.Application.Run` | membership-protocol/Application.cpp:90-104 | the whole simulation is a run of rounds, so that all that is proved of runs holds of it |
| `Rounds.FourAtATime` | membership-protocol/Application.cpp:143 | four nodes start at each tick |
| `Membership.LoopOk` | membership-protocol/MP1Node.cpp:191-208 | what one node does in its part of a round keeps its list in order and truthful, and sends only truthful messages |
| `Rounds.RoundKeepsInv` | membership-protocol/Application.cpp:121-165 | the invariant of the group is kept by every round, whatever is lost, repeated or reordered, whoever crashes |
| `Rounds.RunInv` | membership-protocol/Application.cpp:90-165 | every state of every run satisfies the invariant |
| `Rounds.Truthful` | membership-protocol/MP1Node.cpp:298-405 | in every reachable state a started node lists itself first and nobody twice, and no entry and no message under way credits a node with more heartbeats than it has counted |
| `Flooding.DeliverGap` | membership-protocol/MP1Node.cpp:234-282 | a delivery either teaches the node something, or makes it send nothing but the answer to a join request |
| `Flooding.StepDecreases` | membership-protocol/MP1Node.cpp:379-435 | every delivery and every loss makes the measure smaller: what is still to be learned, times the group size plus one, plus the pending messages, join requests counted twice |
| `Flooding.FloodingTerminates` | membership-protocol/MP1Node.cpp:234-435 | without pings, starts and removals every sequence of deliveries is finite, and no longer than that measure |
| `Flooding.ReachableFloodOk` | membership-protocol/MP1Node.cpp:234-435 | and that applies to every state that the group can reach |
| `Completeness.DroppedForGood` | membership-protocol/MP1Node.cpp:308-319 | once a node is down and no message about it is pending for a node that may receive it, every live member has dropped it after TREMOVE + 1 rounds and never lists it again |
| `Completeness.LowestDies` | membership-protocol/MP1Node.cpp:384-397 | a heartbeat value of a crashed node is passed on for at most as many rounds as there are nodes that may still learn it |
| `Completeness.CrashDetected` | membership-protocol/MP1Node.cpp:191-405 | with no hypothesis about messages: once all nodes have been started, a crashed node is dropped for good after (heartbeat + 1) * (group size + 1) + TREMOVE + 1 rounds, under any loss and any further crashes |
| `Accuracy.NotRemoved` | membership-protocol/MP1Node.cpp:298-319 | after one heartbeat has directly reached j, and while no three heartbeats in a row fail to arrive, a live i stays in the list of j, its entry as young as the heartbeats missed allow |
| `Accuracy.TimelyAge` | membership-protocol/MP1Node.cpp:308-319 | that is at most TFAIL + 6 ticks for each heartbeat missed, 17 in all, when TREMOVE is 20 |
| `Accuracy.MembersStay` | membership-protocol/MP1Node.cpp:298-319 | without loss two live members up to date about each other stay so, and neither ever removes the other |
| `Accuracy.ListedIsUpToDate` | membership-protocol/MP1Node.cpp:298-405 | without loss, while i keeps listing j, one heartbeat that directly reached j is enough for j to be up to date about i |
| `Accuracy.UpToDateAge` | membership-protocol/MP1Node.cpp:308-319 | up to date means an entry at most TFAIL ticks old at the removal check |
| `Joining.EverybodyJoins` | membership-protocol/Application.cpp:99-165 | without loss and crashes, from eleven rounds after the last start on, every node is in the group and listed by every node |
| `Joining.GroupForms` | membership-protocol/MP1Node.cpp:120-405 | so each list then holds each node of the group exactly once |
| `Joining.EverybodyUpToDate` | membership-protocol/MP1Node.cpp:298-405 | and seven rounds later every two nodes are up to date about each other, as the theorems on accuracy need it |
| `Delimited.Tokenize` | key-value-store/Message.cpp:17-28 | the scan loop yields the fields of the text between occurrences of the delimiter, found from the left without overlap |
| `Delimited.SplitJoin` | key-value-store/Message.cpp:17-28 | joining fields and scanning them apart are inverse exactly for the fields in which no delimiter begins before their end |
| `Delimited.EndsColons` | key-value-store/Message.cpp:20-27 | for "::" these are the fields without two colons in a row that do not end in a colon |
| `Messages.FromText` | key-value-store/Message.cpp:17-56 | the parsing constructor, with its error when a field is missing or is no number |
| `Messages.ParsedExactly` | key-value-store/Message.cpp:30-56 | a text can be parsed exactly if the first three fields are there and numbers, and those its kind needs; the role may be missing, and if not is a number |
| `Messages.ShortIsCast` | key-value-store/Member.h:38-51 | the cast of the port to 16 bits |
| `Messages.AddressRoundTrip` | key-value-store/Member.h:38-51 | printing and parsing an address id:port gives the address back, for every int and every short |
| `Messages.RoundTrip` | key-value-store/Message.cpp:17-56 | parsing a printed message gives the same message, on the fields its kind carries, if and only if those fields are safe: no "::" inside, and no ":" at the end of one that another follows |
| `Messages.Formats` | key-value-store/Message.cpp:139-161 | the fields of a printed message, their order, and the numbers of the kinds, one example for each shape |
| `Decimal.StoiOfToString` | key-value-store/Message.cpp:30-33 | stoi undoes to_string for every int, and ignores what follows the digits |
| `Entries.EntryFromText` | key-value-store/Entry.cpp:23-39 | the parsing constructor of entries, with its errors |
| `Entries.WrapIsRead` | key-value-store/Entry.cpp:23-48 | a stored value is read back as it is if and only if it holds no ":", and then time and role are too |
| `Entries.EntryFormat` | key-value-store/Entry.cpp:46-48 | the value comes first, then the time, then the role |
| `Entries.RewrapInvisible` | key-value-store/MP2Node.cpp:243-296 | wrapping a stored text once more leaves what is parsed from it unchanged, whatever time and role are put on |
| `Entries.RewrappedIsRead` | key-value-store/MP2Node.cpp:622-694 | so after any number of rewrites a reader still finds the value, and the text is not empty |
| `Entries.WrapSafe` | key-value-store/Entry.cpp:46-48 | a wrapped text stays fit to be the field of a message |
| `HashTables.HashTable.Create` | key-value-store/HashTable.cpp:22-25 | creating never overwrites and always reports success |
| `HashTables.HashTable.Read` | key-value-store/HashTable.cpp:36-48 | the text of the key, or the empty text |
| `HashTables.HashTable.Update` | key-value-store/HashTable.cpp:60-72 | only a key with a non-empty text is updated, and that is what is reported |
| `HashTables.HashTable.DeleteKey` | key-value-store/HashTable.cpp:83-97 | only a key with a non-empty text is erased, and that is what is reported |
| `HashTables.FoundIfPresent` | key-value-store/HashTable.cpp:36-97 | while no text is empty, keys are found exactly when they are present |
| `Servers.NeverEmpty` | key-value-store/MP2Node.cpp:341-483 | no sequence of messages puts an empty text into the table, so a read finds nothing exactly for absent keys |
| `Servers.OwnKey` | key-value-store/MP2Node.cpp:237-335 | what is found under the key after each kind of write: a create keeps what is there, an update changes only what is there, a delete leaves nothing |
| `Servers.OthersUntouched` | key-value-store/MP2Node.cpp:385-440 | under all other keys, and after reads and replies under all keys, readers find what they found before |
| `Servers.AnswerTells` | key-value-store/MP2Node.cpp:385-440 | a create is always confirmed, an update or delete exactly if the key was there, and a read is answered with what is there |
| `Servers.DeleteErases` | key-value-store/MP2Node.cpp:318-335 | a delete erases the key, whatever the table held |
| `Servers.GoneStays` | key-value-store/MP2Node.cpp:385-440 | and it stays erased through every sequence of messages without a create of it |
| `Servers.StoredAsAsked` | key-value-store/MP2Node.cpp:237-305 | a value without colon that is created or updated is parsed back with the time and the role it was wrapped with |
| `Servers.RoleLags` | key-value-store/MP2Node.cpp:394-405 | the role that a new entry is wrapped with is that of the last create before it |
| `KeyValueNode.StabilizeNeverEmpty` | key-value-store/MP2Node.cpp:588-718 | nor does stabilization |
| `Rings.FindNodes` | key-value-store/MP2Node.cpp:523-547 | the two ends and the search yield the first three nodes clockwise from the hash code of the key |
| `Rings.HoldersAreNearest` | key-value-store/MP2Node.cpp:523-547 | they are in the ring, in clockwise order, and every other node comes after the third |
| `Rings.FindPosition` | key-value-store/MP2Node.cpp:744-751 | the place of an address in the ring, or -1 |
| `Rings.PredecessorIsReplica` | key-value-store/MP2Node.cpp:657-663 | going back by places, modulo the ring, from a holder of a key leads to the holders before it |
| `Rings.SurvivorsClockwise` | key-value-store/MP2Node.cpp:523-547 | removing nodes and going clockwise commute: the order of the survivors does not change |
| `Rings.SurvivingReplicas` | key-value-store/MP2Node.cpp:491-547 | the surviving holders of a key come first among the new holders, in their old order |
| `Rings.ReplicasChange` | key-value-store/MP2Node.cpp:491-547 | after removals that leave three nodes, the holders of a key change if and only if one of them was removed |
| `Rings.RingChanged` | key-value-store/MP2Node.cpp:754-768 | the answer is yes exactly for rings of different size or with a hash code in common |
| `Rings.AlwaysChanged` | key-value-store/MP2Node.cpp:754-768 | which over-approximates: with one node in common the answer is yes, changed or not |
| `Rings.NewRingUnnoticed` | key-value-store/MP2Node.cpp:754-768 | but rings of one size without a common hash code are taken for the same |
| `Rings.SortIsRing` | key-value-store/MP2Node.cpp:52 | sorting members with different hash codes makes a ring |
| `Stabilization.SendsToHolders` | key-value-store/MP2Node.cpp:595-714 | whatever the change, copies go only to the holders in the new ring, in all four branches |
| `Stabilization.QuietWhenUnchanged` | key-value-store/MP2Node.cpp:621-714 | with an unchanged ring a holder sends nothing |
| `Stabilization.HoldersMoveUp` | key-value-store/MP2Node.cpp:595-653 | after removals the surviving holders move up and newcomers follow |
| `Stabilization.SurvivorsKeep` | key-value-store/MP2Node.cpp:605-619 | a surviving holder never takes the branch that deletes the key |
| `Stabilization.RemovalIsRepaired` | key-value-store/MP2Node.cpp:621-653 | after removals that leave a holder, the first one left is the new primary, and sends CREATE to exactly the holders that are new |
| `Stabilization.ChangeSends` | key-value-store/MP2Node.cpp:605-714 | whatever nodes join and fail, an old holder sends CREATE to every new holder that is new, with one exception: the second of the new holders sends its third copy to itself, not to a third that is new |
| `Stabilization.ServedExactly` | key-value-store/MP2Node.cpp:605-714 | so while an old holder is left, every new holder that is new is sent the entry by one that is left, if and only if it is not the case that the third is new and only the now second is left |
| `Stabilization.OneKindServes` | key-value-store/MP2Node.cpp:605-714 | which joins alone never cause, and neither do failures alone |
| `Stabilization.ThirdIsNotServed` | key-value-store/MP2Node.cpp:672-677 | but two failures and a join together do: an example |
| `Stabilization.GivenUp` | key-value-store/MP2Node.cpp:605-619 | a node drops the key exactly if it is no holder in the new ring, and then sends CREATE to the three that are, each with its role |
| `Stabilization.PrimaryTells` | key-value-store/MP2Node.cpp:621-653 | the primary sends UPDATE to an old second or third holder whose role has changed, CREATE to one that had neither role, and nothing to others |
| `Stabilization.LaterTell` | key-value-store/MP2Node.cpp:657-712 | the second and third holders send CREATE to one before them exactly if it was not as many places before them in the old ring |
| `Stabilization.CopiesNameRoles` | key-value-store/MP2Node.cpp:605-712 | the roles sent and kept are those in the new ring, but for the copy that the second holder, when new in this place, sends to itself |
| `Messages.ArrivesSafe` | key-value-store/Message.cpp:17-56 | whatever text a client gives for key and value, what arrives of both is fit to be sent on |
| `Repair.AlwaysSafe` | key-value-store/MP2Node.cpp:243-296 | so tables hold only what travels whole, whatever mail and stabilization they see |
| `Repair.ChangeCompletes` | key-value-store/Readme.md:28-30 | whatever nodes join and fail, unless only the now second holder is left before a new third: once the letters that stabilization sends have arrived as text, in any order and among any harmless mail and further runs of stabilization, all three new holders have the entry, read as before |
| `Repair.ThirdIsMissed` | key-value-store/MP2Node.cpp:672-677 | and in that case the third holder does not get it, whatever the order, unless a client creates it |
| `Repair.RepairCompletes` | key-value-store/Readme.md:28-30 | in particular all three have it after any failures that leave a holder and three nodes |
| `Repair.JoinCompletes` | key-value-store/MP2Node.cpp:605-714 | and after any joins |
| `KeyValueNode.MP2Node.StabilizeOne` | key-value-store/MP2Node.cpp:592-715 | the branches for one key: its own copy, the counter and the messages come to the plan for that key |
| `KeyValueNode.GivingUp` | key-value-store/MP2Node.cpp:605-619 | a node that is no holder any more sends the stored text, as CREATE under the next three numbers, to the three that are, and then has the key no more |
| `KeyValueNode.Keeping` | key-value-store/MP2Node.cpp:621-694 | a node that is one keeps the text, wrapped with its new role |
| `KeyValueNode.MP2Node.StabilizationProtocol` | key-value-store/MP2Node.cpp:588-718 | every key that the table held is treated once |
| `KeyValueNode.LettersToHolders` | key-value-store/MP2Node.cpp:588-718 | every message of a whole run of stabilization goes to a holder of one of the keys |
| `KeyValueNode.HarmlessWhenUnchanged` | key-value-store/MP2Node.cpp:588-718 | with an unchanged ring, a holder of all its keys sends nothing and readers see no difference in any entry |
| `KeyValueNode.MP2Node.UpdateRing` | key-value-store/MP2Node.cpp:37-75 | the ring is taken over at first, and later only together with stabilization, which needs a non-empty table: with an empty one the ring stays what it was |
| `KeyValueNode.MP2Node.GetMembershipList` | key-value-store/MP2Node.cpp:87-99 | each member with its hash code |
| `KeyValueNode.RingOfMembers` | key-value-store/MP2Node.cpp:37-99 | the ring made of a member list holds each member, with its own hash code, and nobody else |
| `KeyValueNode.MP2Node.SendMessage` | key-value-store/MP2Node.cpp:722-733 | the text sent for a CREATE, UPDATE or DELETE |
| `KeyValueNode.MP2Node.SendToReplicas` | key-value-store/MP2Node.cpp:137-142 | one copy of the text to each of the three holders, primary first |
| `KeyValueNode.MP2Node.ClientCreate` | key-value-store/MP2Node.cpp:125-144 | a new number, a note of the operation and its text to each holder; the role printed is arbitrary, since it is set only afterwards |
| `KeyValueNode.MP2Node.ClientRead` | key-value-store/MP2Node.cpp:155-171 | a new number, a note of the operation and its text to each holder |
| `KeyValueNode.MP2Node.ClientUpdate` | key-value-store/MP2Node.cpp:182-198 | as for CREATE |
| `KeyValueNode.MP2Node.ClientDelete` | key-value-store/MP2Node.cpp:209-227 | as for READ |
| `KeyValueNode.MP2Node.CreateKeyValue` | key-value-store/MP2Node.cpp:237-253 | the value is stored wrapped, unless the key is there already |
| `KeyValueNode.MP2Node.UpdateKeyValue` | key-value-store/MP2Node.cpp:288-305 | the value is stored wrapped, if the key is there already, which is also reported |
| `KeyValueNode.MP2Node.HandleMessage` | key-value-store/MP2Node.cpp:385-469 | what each kind of message does to the table and to the gathered replies, and what is answered |
| `KeyValueNode.MP2Node.CheckMessages` | key-value-store/MP2Node.cpp:341-483 | the queue is emptied in order, with the effect of handling one message after the other; then each transaction with replies is looked at once, and the replies are dropped |
| `KeyValueNode.MP2Node.CheckUpdateOperations` | key-value-store/MP2Node.cpp:828-882 | the log grows by the verdicts of one pass over the replies, which are then dropped |
| `KeyValueNode.OneVerdictEach` | key-value-store/MP2Node.cpp:836-881 | in one pass each write with replies gets one verdict, and no other transaction gets any |
| `KeyValueNode.VerdictIsQuorum` | key-value-store/MP2Node.cpp:845-876 | it is success exactly when more than one reply says so, and names coordinator, kind, key and value of the operation noted under that number |
| `KeyValueNode.LoggedAsAsked` | key-value-store/MP2Node.cpp:845-876 | which, when the operation is noted as a client asks for it, are those the client gave: for a delete no value |
| `KeyValueNode.OneOutcomeEach` | key-value-store/MP2Node.cpp:770-826 | likewise each read with answers gets one outcome in a pass, and no other transaction gets any |
| `KeyValueNode.OutcomeIsVerdict` | key-value-store/MP2Node.cpp:813-819 | it is the verdict on just these answers, and names coordinator and key of the read noted under that number |
| `KeyValueNode.ReadLoggedAsAsked` | key-value-store/MP2Node.cpp:813-819 | which are those that the client gave |
| `KeyValueNode.WritesEndWell` | key-value-store/MP2Node.cpp:836-881 | a pass comes to its end exactly if every operation with replies can be read |
| `KeyValueNode.ReadsEndWell` | key-value-store/MP2Node.cpp:770-826 | and for reads if moreover every entry that came back can |
| `KeyValueNode.MP2Node.CheckReadOperations` | key-value-store/MP2Node.cpp:770-826 | the log grows by the outcomes of one pass over the values read, which are then dropped |
| `KeyValueNode.MP2Node.TallyValues` | key-value-store/MP2Node.cpp:790-806 | the loop over the values counts the entries and notes whether they differ |
| `Servers.SuccessMeans` | key-value-store/MP2Node.cpp:788-819 | a successful read saw two entries, and every entry it saw holds its value or nothing |
| `Servers.ReadVerdictExactly` | key-value-store/MP2Node.cpp:788-819 | a read is logged as a success with this value if and only if all entries that came back can be parsed, there are two or more, the value is not empty, and they hold it from the first one that is not empty on |
| `Servers.AgreeingRead` | key-value-store/MP2Node.cpp:788-819 | in particular when two or more entries came back and all hold it |
| `Decimal.StoiReads` | key-value-store/Message.cpp:30-33 | stoi succeeds exactly on the texts that begin with spaces, a sign or none, and the digits of an int |
| `Messages.ParsedUpdate` | key-value-store/Message.cpp:17-39 | a client may give any text for a value: the message can be parsed exactly if a number follows the first two colons in a row, or there are none and the text does not end in a colon; what arrives ends before them |
| `Entries.WrapReads` | key-value-store/Entry.cpp:23-48 | the first wrap of any text can be parsed exactly if numbers follow its first two colons, and what is found of it ends before the first |
| `QuorumReads.WrappedReads` | key-value-store/MP2Node.cpp:237-305 | and that does not change however often it is wrapped, at whichever holders |
| `QuorumReads.AllKeep` | key-value-store/MP2Node.cpp:237-305 | a holder keeps such a text through every history without a delete or another update of the key |
| `QuorumReads.ReadAfterWrite` | key-value-store/MP2Node.cpp:788-870 | if an update, sent as text, was confirmed by two of the three holders, every later successful read, answered as text, finds its value, whichever holders answer |
| `QuorumReads.ValueIsLost` | key-value-store/MP2Node.cpp:788-819 | for an empty value, and for one that is cut short, a schedule in which that fails |
| `QuorumReads.LostAfterColons` | key-value-store/MP2Node.cpp:788-819 | for example, two holders confirm "a::1" and a successful read finds "a" |
| `QuorumReads.ReadAfterWriteExactly` | key-value-store/MP2Node.cpp:788-870 | so it holds exactly for the values that are not empty and have no colon, or have colons where one of the two parsers looks for a number and there is none, so that nobody can read them |
| `Transactions.RequestIsAsked` | key-value-store/MP2Node.cpp:131-142 | a new request is pending once at each holder, and nothing else under its number |
| `Transactions.AskedTick` | key-value-store/MP2Node.cpp:385-440 | in the tick after the request each live holder answers it once, and nobody else does |
| `Transactions.AnsweredTick` | key-value-store/MP2Node.cpp:442-455 | in the tick after that all answers arrive, and nothing more is said under the number |
| `Transactions.NoOtherVerdict` | key-value-store/Application.cpp:192-226 | nothing is logged on the transaction, write or read, in any other tick or at any other node |
| `Transactions.VerdictTwoTicksLater` | key-value-store/MP2Node.cpp:828-882 | two ticks after the request a live coordinator logs one verdict if any holder was live to answer, and success if and only if two or more answered with success |
| `Transactions.OutcomeTwoTicksLater` | key-value-store/MP2Node.cpp:788-819 | and a live coordinator of a read logs one outcome two ticks after the request, from exactly the answers of the live holders, unless one cannot be parsed |
| `Consistency.ReadsFindUpdate` | key-value-store/MP2Node.cpp:788-870 | over a run of ticks with a stable ring: once an update of a value without colon is logged as a success, every later read logged as a success finds that value, if nobody else writes or deletes the key |
| `Consistency.ReadSucceeds` | key-value-store/MP2Node.cpp:788-819 | and such a read is logged as a success, with that value, if two holders that confirmed the update are live to answer and no live holder has another value |
| `Consistency.DeletedIsNotRead` | key-value-store/MP2Node.cpp:788-870 | once a delete has been confirmed by two holders, no later read of the key is logged as a success, until somebody creates it |
| `Consistency.WriteSucceeds` | key-value-store/MP2Node.cpp:845-876 | a write is logged as a success if and only if two or more live holders confirm it: a create is confirmed by all of them, an update or delete by those that have the key |
| `Transactions.CopiesGetNoVerdict` | key-value-store/MP2Node.cpp:607-712 | the replies to what stabilization sends never lead to a verdict |
| `Balancing.LoadConserved` | emulated-sdn-application/minidc/controller/policy.py:103-109 | the loads of all cores together are the jobs placed on them |
| `Balancing.GreedyBound` | emulated-sdn-application/minidc/controller/policy.py:103-109 | for jobs in any order, placing each on a least loaded of m cores stays within (2m - 1) / m of any other assignment |
| `Balancing.LargestFirstBound` | emulated-sdn-application/minidc/controller/policy.py:96-109 | for jobs in descending order, within (4m - 1) / 3m |
| `Balancing.LargestFirstIsTight` | emulated-sdn-application/minidc/controller/policy.py:96-109 | and no better factor holds, for any m: two jobs of each size from 2m - 1 down to m + 1 and three of size m load one of the m cores with 4m - 1 where 3m suffice |
| `Adaptive.AdaptivePolicy.MinUtilization` | emulated-sdn-application/minidc/controller/policy.py:70-88 | a core of least utilization |
| `Adaptive.AdaptivePolicy.Redistribute` | emulated-sdn-application/minidc/controller/policy.py:90-112 | every host is put on a core, greedily in descending order, and the utilizations are the traffic so assigned |
| `Adaptive.TrafficConserved` | emulated-sdn-application/minidc/controller/policy.py:99-109 | the cores together carry what the hosts received |
| `Adaptive.NearOptimal` | emulated-sdn-application/minidc/controller/policy.py:90-112 | the result against any other assignment of the hosts to the cores: both bounds |
| `AdaptiveRouting.RoutingTable` | emulated-sdn-application/minidc/controller/policy.py:64-68 | the policy redistributes and builds again: balanced assignments, and tables that deliver |
| `AdaptiveRouting.ThroughItsCore` | emulated-sdn-application/minidc/controller/policy.py:114-147 | packets for a host from another edge go through exactly the core that the host is assigned to |
| `AdaptiveRouting.TablesNearOptimal` | emulated-sdn-application/minidc/controller/policy.py:64-147 | so among all tables that deliver, whatever policy made them, these are near-optimal: if others put at most a limit on every core, these put at most (4m - 1)/3m of it |
| `Natural.NaturalSort` | emulated-sdn-application/minidc/controller/topo.py:103-119 | sorting by natural key gives the same names in natural order |
| `Natural.SortIsAscending` | emulated-sdn-application/minidc/controller/topo.py:103-119 | names that have one ascending order come out in it, whatever order they went in |
| `Natural.NumberedOrder` | emulated-sdn-application/minidc/controller/topo.py:7-11 | numbered names are in the order of their numbers |
| `FatTree.FattreeTopology.AddPort` | emulated-sdn-application/ext/mininet/mininet/topo.py:219-236 | the next free number at each end, counting from 1 at switches and from 0 at hosts |
| `FatTree.FattreeTopology.AddLink` | emulated-sdn-application/minidc/topo.py:38-40 | a link takes a port at each end and enters both lists |
| `FatTree.FattreeTopology.constructor` | emulated-sdn-application/minidc/topo.py:11-49 | the switches, hosts and links of the network, in the order in which they are made |
| `FatTree.PortsFollowLinks` | emulated-sdn-application/ext/mininet/mininet/topo.py:219-236 | real ports are numbered in the order of the links of a node |
| `FatTree.CablesHaveTwoEnds` | emulated-sdn-application/ext/mininet/mininet/topo.py:219-236 | and each end of a link names the node and the port at the other end |
| `FatTree.Layout` | emulated-sdn-application/minidc/topo.py:36-49 | what each node is linked to, in order: host g to the edge switch whose place is the remainder of g, and to no other |
| `FatTree.HostsByRemainder` | emulated-sdn-application/minidc/topo.py:45 | the hosts of edge switch j are exactly those whose number leaves remainder j |
| `FatTree.EvenShares` | emulated-sdn-application/minidc/topo.py:15-49 | and there are hostsPerEdge of them at every edge switch |
| `FatTree.NumberedAfterHosts` | emulated-sdn-application/minidc/topo.py:18-22 | switches are numbered from 101, or else from just after the last host, so that no number is used twice |
| `PortMap.HostLinkedTo` | emulated-sdn-application/minidc/topo.py:45-49 | in the finished network host g is linked to the switch with number firstSwitch + g % numEdgeSwitches, and to nothing else |
| `PortMap.HostRow` | emulated-sdn-application/ext/mininet/mininet/topo.py:219-236 | by its only port, number 0 |
| `PortMap.EdgeLinkedTo` | emulated-sdn-application/minidc/topo.py:36-49 | and edge switch j to all cores and the hostsPerEdge hosts of its remainder |
| `PortMap.SetPorts` | emulated-sdn-application/minidc/controller/topo.py:98-124 | the map of each switch numbers its neighbours from 1 in natural order, both ways |
| `PortMap.CorePortsAgree` | emulated-sdn-application/minidc/controller/topo.py:100-107 | at core switches the guessed map equals the real ports and is a bijection, for every size of network |
| `PortMap.EdgePortsAgree` | emulated-sdn-application/minidc/controller/topo.py:109-122 | and at edge switches |
| `Datacenter.WriteVlans` | emulated-sdn-application/minidc/dc.py:90-99 | the VLANs of core number i are those with residue i |
| `Datacenter.OneCorePerVlan` | emulated-sdn-application/minidc/dc.py:90-99 | so each VLAN belongs to exactly one core |
| `Datacenter.StaticServed` | emulated-sdn-application/minidc/controller/topo.py:69-73 | and the static policy finds a core for every host with a VLAN |
| `Datacenter.StaticThroughVlanCore` | emulated-sdn-application/minidc/controller/policy.py:153-199 | under the static policy, packets for a host from another edge go through exactly the core whose number is the remainder of its first VLAN |
| `Datacenter.ParseEdges` | emulated-sdn-application/minidc/controller/topo.py:126-133 | an edge switch with its neighbours for each line of the configuration |
| `Datacenter.ParseHosts` | emulated-sdn-application/minidc/controller/topo.py:145-155 | each host of those lines, with the switch that lists it |
| `Datacenter.LineIsRead` | emulated-sdn-application/minidc/controller/topo.py:126-133 | so of each line the controller knows the name and number of the switch and, in order, its hosts |
| `Datacenter.FieldIsRead` | emulated-sdn-application/minidc/controller/topo.py:145-155 | and of each host in it its name, address, switch and VLANs |
| `Datacenter.ReadingGivesHosts` | emulated-sdn-application/minidc/controller/topo.py:126-155 | so if no host is listed twice, the hosts that the controller knows are those that hang off its edge switches |
| `Datacenter.NetworkWellFormed` | emulated-sdn-application/minidc/controller/topo.py:98-124 | what the controller knows of the built network is well-formed, as the delivery theorems need it |
| `Policies.AddArpFlood` | emulated-sdn-application/minidc/controller/flood.py:5-65 | the flood and drop rules that each table gains |
| `Policies.GetVlanCore` | emulated-sdn-application/minidc/controller/topo.py:69-73 | the first core that carries the VLAN, or none |
| `Policies.BuildAdaptive` | emulated-sdn-application/minidc/controller/policy.py:114-147 | the table of each switch, hosts going up through their assigned cores |
| `Policies.BuildStatic` | emulated-sdn-application/minidc/controller/policy.py:153-199 | the table of each switch, hosts going up through the core of their first VLAN |
| `Policies.BuildDefault` | emulated-sdn-application/minidc/controller/policy.py:205-241 | the table of each switch, one core in use |
| `Delivery.UnicastDelivered` | emulated-sdn-application/minidc/controller/policy.py:114-241 | under any of these tables a packet between different hosts is delivered to exactly its destination, after at most three switches and none twice |
| `Delivery.PoliciesAgree` | emulated-sdn-application/minidc/controller/policy.py:114-241 | so any two of them deliver alike |
| `Delivery.BroadcastCopies` | emulated-sdn-application/minidc/controller/flood.py:5-65 | of a broadcast the sender gets no copy, each other host on its edge one, and each host on another edge one for each core that had a table |
| `Delivery.BroadcastEnds` | emulated-sdn-application/minidc/controller/flood.py:5-65 | and it never loops: every copy ends after at most three switches, none seen twice |
| `Delivery.AllCoresRun` | emulated-sdn-application/minidc/controller/policy.py:118-147 | under the adaptive and the static policy all cores have a table |
| `Delivery.OneCoreRuns` | emulated-sdn-application/minidc/controller/policy.py:208-222 | under the default policy one core has |

## Left out

- Byte layouts, `malloc` and `memcpy`: messages of the membership protocol are values; those of the key-value store are
  text, as in the source.
- Logs other than the coordinator's verdicts, and all output.
- Random choices are left open: which message is dropped, which node fails.
- Message sizes in the key-value store: messages are taken to fit, although every rewrite makes an entry longer.
- The width of counters: heartbeats, times and transaction numbers do not wrap around; the ledgers count without bound.
- The ledgers of the network are sequences of sequences, not two-dimensional arrays.
- `FattreeTopology.AddPort` and `AddLink` without explicit port numbers and without links from a node to itself, neither
  of which the network has.
- Python dictionaries are taken in an order that is left open, and sorted where the source sorts.
- The configuration file of the controller as text: its lines are taken as split into their fields. IP addresses.
- Hash codes are an arbitrary function; members are taken to have different hash codes, and rings to have at least three
  nodes before and after a change.
- Ring changes one after another, while letters of the one before are still under way: the theorems on repair follow one
  change, which all nodes see alike.
- Erasing from the table while iterating over it: stabilization treats the keys that the table held at its start, once
  each, in an order that is left open.
- `hasMyReplicas` and `haveReplicasOf`, which nothing reads but their own updates, and the exception that these raise when
  a CREATE arrives in a ring of fewer than three nodes.
- The order in which a pass over the replies looks at transactions is left open, and a text that cannot be parsed ends
  the pass, as the exception does.
- Transactions: what stabilization does in a tick is left open but for its numbers, or taken to rewrite entries only
  (`Consistency.dfy`), and the nodes are values, not the objects of KeyValueNode; its handling of messages and its
  verdicts are the functions that those methods are proved to compute.
- Destructors, clean-up, the scripted test drivers, the dashboard, the controller's connection to switches.
