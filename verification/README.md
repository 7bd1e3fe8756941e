# A verified model of the SDN controller and its replicated ledger

This project models, in Dafny, the parts of the repository that carry state over many steps,
and proves what they keep. `dafny verify dfyconfig.toml` checks all of it.

- **Paths and forwarding** (`Graphs`, `PathTables`, `L2Multi`, `TopoProactive`). The in-place
  Floyd-Warshall of `l2_multi.py` fills the path table with exact distances; the recursive
  reconstruction ends and gives shortest simple paths; the link handler keeps the cache empty or
  exact and, unless parallel links go down together, `adjacency` equal to the links discovery
  knows in both directions. Switches that each install only the first hop of a path of their own
  deliver every packet in the shortest distance.
- **Replicated ledger** (`Ledger`, `Validators`, `Blockchains`, `VotePools`, `Agreement`,
  `Certificates`, `Encodings`, `Scenarios`, `Forks`). A block list determines active validators,
  executed transactions and proposer. On top of it runs the state machine of the nodes: NewRound,
  Prepared and Committed, with block pool and vote pools, against faulty validators that vote as
  they like. Honest chains never fork, at any two moments of a run, while commands change the
  validator set. That an honest node commits once per height, that votes are counted at the height
  of their block and that only certified valid blocks are appended is derived from the code's own
  guards, not assumed. `Certificates` adds that every appended block was prepared by a quorum;
  `Scenarios` shows four validators, one of them faulty, meeting the assumptions; `Forks` shows
  that the honest validators append blocks without the faulty ones, whatever their number, and
  what happens where one announcement does not meet the assumptions.
- **Transaction pool** (`SortedHashes`, `TransactionPools`). A heap linked list and a
  binary-search slice implement one ordering; the pool keeps list and map in step and within its
  threshold through every operation, block selection deleting entries while it scans by index.
- **Chain files** (`Savers`). Saves that rewrite only from the previously last file onward always
  leave the whole chain on disk.
- **Addresses** (`Texts`, `IPv6Text`, `Netmasks`). The IPv6 printer with all its options and the
  parser (section 2.2 of RFC 4291, sections 4.2 and 5 of RFC 5952), netmasks and network
  membership.
- **Replicated topology** (`Topology`). The replica application and the viewer fold the same
  committed link events into the same links.
- **OpenFlow framing** (`Framing`). What a connection makes of its bytes does not depend on how
  they arrive in chunks (section 5.1 of the OpenFlow Switch Specification 1.0.0).
- **Smaller machines** (`Windows`, `Conditionals`, `Waiters`). Two sliding windows with one mean,
  the conditional stack of configuration files against nested blocks, and callbacks that wait for
  components and may register more of both.

Objects the source updates in place are classes with methods; each method is specified by a
function of its old state, and runs, round trips and refinements are proved about those functions.

## Where the code does not do what it is for

Each of these is a lemma together with the exact condition under which the code does.

- Links that discovery deletes together leave their dictionary only after all their events were
  handled, so one of them can be taken as the replacement of another: `L2Multi.TracksIffSafe`,
  `L2Multi.StaleAfterDisconnect`. `L2Multi.SelfLinkDown` is the case of a link from a switch to
  itself.
- `NewRound` takes up an announced block on its hash and its announced number alone. A pooled
  block of an earlier height, announced under the next number, is appended again, and honest
  chains fork, whatever the number of validators: `Agreement.EnterKeepsNodeIff`,
  `Agreement.OldBlockIsAppendedAgain`, `Forks.AnnouncementForks`.
- `getTxForBloc` advances its index after a deletion and so can pass over a valid transaction:
  `TransactionPools.SelectedIsFirstValid`, `TransactionPools.ShortBlockExample`.
- `addTransaction` does not look whether a hash is pooled already:
  `TransactionPools.TransactionPool.AddTransaction`, `SortedHashes.AddCoherentIffFresh`.
  This and the line before concern the pool alone: receiveTransacMess
  (`pbftStateConsensus.go:437-453`) verifies a transaction before it adds it, and
  `ControlFeedBack.go:186` adds one of the node's own.
- An IPv6 address made from an IPv4 address is never IPv4-mapped:
  `IPv6Text.FromIPv4IsNeverMapped`. Three to seven groups are accepted as a whole address, two to
  seven with a single colon before or after them, and a double colon for one group at either end
  is refused: `IPv6Text.ParseJoined`, `IPv6Text.JoinedAgreesWithRfc`, `IPv6Text.ParseColonAtEnd`,
  `IPv6Text.ParseColonAtStart`, `IPv6Text.ParseAround`.
- `read` repeats one iteration for ever on a header that claims length zero:
  `Framing.SpinsOnZeroLength`.

## Assumptions

- Hashes are collision free and never empty; each key has one signature per message, as in
  section 5.1.6 of RFC 8032, and signatures of honest nodes cannot be forged. Hashing, signing and
  transaction verification are parameters.
- `Agreement.ChainsNeverFork`: fewer than a third of the validators active before each block of
  one of the two chains are faulty, and every announcement of the run carries the number its hash
  is pooled under, which the code does not check. Nothing is assumed about delivery: messages may
  be lost, repeated and reordered.
- Handlers are atomic steps, so locks, channels and goroutines do not appear; a replica is
  notified of committed link events in block order. File writes succeed.
- A dictionary of dictionaries with default None is one map on pairs, a missing key standing for
  None. The map the sorted lists point to is an argument of their methods. nil and empty slices
  are one. Logging, metrics and times of last change are left away.
- Integers are unbounded: timestamps are only compared, counters stay far below the width of a
  machine word. Means are taken over the reals.
- Case folding of a link status is that of ASCII letters.

## Model

| member | source | states |
|---|---|---|
| `PathTables.RelaxKeeps` | pox/pox/forwarding/l2_multi.py:94-100 | Trying one intermediate keeps every stored distance split into two strictly smaller stored ones by an intermediate that differs from both ends, and makes no distance worse. |
| `PathTables.RelaxProgress` | pox/pox/forwarding/l2_multi.py:91-100 | One inner iteration of the three nested loops, in any order of i and j and reading a table that is being written, keeps the progress measure: finished pairs are no farther than any walk through the switches seen and k. |
| `PathTables.ProgressEnds` | pox/pox/forwarding/l2_multi.py:91-100 | When all switches have served as intermediate the table is exact: well split and no longer than any walk of the adjacency. |
| `PathTables.ExactIsShortest` | pox/pox/forwarding/l2_multi.py:67-121 | In an exact table a pair has an entry iff some walk joins it; the path rebuilt from the intermediates is such a walk, its length is the stored distance and no walk is shorter. |
| `PathTables.FullPathSplits` | pox/pox/forwarding/l2_multi.py:116-121 | A path with an intermediate is the path to it followed by the path from it, and both halves have positive, strictly smaller distances: the reconstruction terminates. |
| `PathTables.FullPathIsSimple` | pox/pox/forwarding/l2_multi.py:106-121 | A rebuilt path visits no switch twice. |
| `L2Multi.Controller.SeedPaths` | pox/pox/forwarding/l2_multi.py:81-87 | The cleared table holds distance 0 from each switch to itself, 1 to its neighbours and nothing else. |
| `L2Multi.Controller.TryIntermediate` | pox/pox/forwarding/l2_multi.py:94-100 | The innermost body is exactly one relaxation of the table. |
| `L2Multi.Controller.CalcPaths` | pox/pox/forwarding/l2_multi.py:67-100 | After the in-place loops the table is exact for the adjacency of that moment, for every finite adjacency over the known switches. |
| `L2Multi.Controller.GetRawPath` | pox/pox/forwarding/l2_multi.py:106-121 | Returns the intermediates of a shortest path, None iff there is none; fills an empty cache first and otherwise leaves it alone; terminates for every pair. |
| `L2Multi.Controller.GetPath` | pox/pox/forwarding/l2_multi.py:138-161 | Answers iff the destination can be reached, with a shortest simple chain whose ports agree with adjacency at both ends of every hop and whose outer ports are the given ones; the `Illegal path!` assertion never fires. |
| `L2Multi.Controller.Cook` | pox/pox/forwarding/l2_multi.py:150-157 | The running in-port gives every leg the ports adjacency records. |
| `L2Multi.Controller.CheckPath` | pox/pox/forwarding/l2_multi.py:124-135 | True iff every two consecutive legs agree with adjacency in both directions. |
| `L2Multi.Controller.ConnectionUp` | pox/pox/forwarding/l2_multi.py:483-491 | A reconnecting switch is not entered twice and the cached table stays valid. |
| `L2Multi.Controller.HandleLinkEvent` | pox/pox/forwarding/l2_multi.py:426-481 | For any iteration order of discovery's dictionary and any link: the adjacency the event leaves, an up event changing nothing between switches that are adjacent already and no event anything between others, the emptied cache, exactly the unlearned addresses, and no change at all when a switch is unknown. |
| `L2Multi.Controller.DeleteLinks` | pox/pox/openflow/discovery.py:469-473 | The down events of links deleted together are one step: every handler still sees all the links, which leave afterwards. |
| `L2Multi.TracksIffSafe` | pox/pox/forwarding/l2_multi.py:446-460 | After links went down together, adjacency is again exactly the links known both ways, whatever replacements were picked, iff no replacement candidate of a pair's last event goes down in the same batch. |
| `L2Multi.NoParallelsIsSafe` | pox/pox/openflow/discovery.py:328-340 | Batches without parallel links, and so single links, meet that condition. |
| `L2Multi.StaleAfterDisconnect` | pox/pox/openflow/discovery.py:322-326 | A switch that disconnects while two bidirectional links lead to one neighbour always stays adjacent to it although no link is left between them. |
| `L2Multi.SelfLinkDown` | pox/pox/forwarding/l2_multi.py:446-460 | For a link from a switch to itself: exactly when its removal leaves the self-adjacency that the remaining links call for. |
| `L2Multi.UpTracks` | pox/pox/forwarding/l2_multi.py:461-471 | An up event keeps adjacency equal to the links known both ways, with the two ports of one such link. |
| `L2Multi.StepKeepsInv` | pox/pox/forwarding/l2_multi.py:426-491 | Every event with a safe batch keeps adjacency over known switches, equal to the links known both ways, and the cached table empty or exact. |
| `L2Multi.RunKeepsInv` | pox/pox/forwarding/l2_multi.py:426-491 | So does every run of connects, link ups, safe link downs and path queries. |
| `L2Multi.StepKeepsPorts` | pox/pox/forwarding/l2_multi.py:448-471 | An event that takes down no link between two adjacent switches leaves the ports recorded for them. |
| `L2Multi.RunKeepsPorts` | pox/pox/forwarding/l2_multi.py:448-471 | In every run the ports of a pair, once adjacent, stay what they are until a link between the two goes down. |
| `L2Multi.AnswerUsesLiveLinks` | pox/pox/forwarding/l2_multi.py:138-161 | Each leg of an answer leaves and enters by the ports of a link currently known in both directions. |
| `L2Multi.AnsweredIffLinked` | pox/pox/forwarding/l2_multi.py:138-161 | A path exists in adjacency iff live links chain the two switches together. |
| `TopoProactive.GetHops` | pox/pox/forwarding/topo_proactive.py:118-137 | Nothing for the switch itself, otherwise the hop list of a shortest path: each switch but the last, with the port towards the next; None iff there is no path. |
| `TopoProactive.SendTable` | pox/pox/forwarding/topo_proactive.py:209-222 | The rules installed on a switch map exactly the other switches to which some walk leads, each to the port of the first hop of a walk than which none is shorter. |
| `TopoProactive.FirstHopNearer` | pox/pox/forwarding/topo_proactive.py:118-137 | The first hop of a computed path is exactly one nearer to the destination. |
| `TopoProactive.SameDistance` | pox/pox/forwarding/topo_proactive.py:61-94 | Any two exact tables of one adjacency agree on all distances, so switches may have computed theirs apart. |
| `TopoProactive.OneHop` | pox/pox/forwarding/topo_proactive.py:209-222 | Following the rule of the switch a packet is at brings it exactly one hop nearer; there is a rule iff the destination can be reached. |
| `TopoProactive.Delivers` | pox/pox/forwarding/topo_proactive.py:209-222 | Hop by hop over rules installed independently, a packet is after n hops exactly n nearer and arrives after precisely the shortest distance: forwarding is free of loops. |
| `TopoProactive.Undeliverable` | pox/pox/forwarding/topo_proactive.py:209-222 | A packet for an unreachable switch never leaves. |
| `Ledger.ActiveIndicesCount` | Sabine_ODL_Fork/source/Blockchain/validator.go:138-151 | The list of active ids has one entry per active validator. |
| `Ledger.ActiveStaysKnown` | Sabine_ODL_Fork/source/Blockchain/blockchain.go:301-329 | Whatever commands a chain holds, the active validators are known nodes and never run out. |
| `Ledger.ProposerIsActive` | Sabine_ODL_Fork/source/Blockchain/blockchain.go:430-479 | The elected proposer is a known node, carries its own id and is active. |
| `Ledger.ProposerHasTurn` | Sabine_ODL_Fork/source/Blockchain/blockchain.go:446-470 | As many active validators come before the elected one, in node order, as the first byte of the last hash modulo their number; none if that hash is empty. So the turn goes round. |
| `Ledger.LastCommandDecides` | Sabine_ODL_Fork/source/Blockchain/blockchain.go:301-329 | The active validators are those of the last command in the block list that changes the set, has at least four keys and at most as many as there are nodes, and names nodes only; without one they are the initial ones. |
| `Ledger.ExecutedIff` | Sabine_ODL_Fork/source/Blockchain/blockchain.go:301-321 | Executed are exactly the transactions of all blocks. |
| `Ledger.ChainGrows` | Sabine_ODL_Fork/source/Blockchain/blockchain.go:130-147 | Appending a block that passes IsValidNewBlock keeps every block of the chain valid on its prefix. |
| `Ledger.ChainShape` | Sabine_ODL_Fork/source/Blockchain/blockchain.go:130-147 | Block i has number i, links to the hash of block i-1 and was signed by the node elected from the blocks before it. |
| `Ledger.SameHashSameBlock` | Sabine_ODL_Fork/source/Blockchain/blockchain.go:130-147 | Two valid next blocks with one hash are equal, although the hash covers neither number, proposer nor signature. |
| `Ledger.TipDeterminesChain` | Sabine_ODL_Fork/source/Blockchain/block.go:62-74 | The hash of the last block determines the whole chain. |
| `Ledger.CreatedBlockIsValid` | Sabine_ODL_Fork/source/Blockchain/block.go:47-60 | What CreateBlock makes on the last block passes IsValidNewBlock iff the wallet is the elected one and every transaction verifies. |
| `Validators.SortedIdsAreActiveIndices` | Sabine_ODL_Fork/source/Blockchain/validator.go:138-151 | Listing the active map in any order and sorting gives one and the same list, the ids in increasing order. |
| `Validators.Registry.SetNewListOfValidator` | Sabine_ODL_Fork/source/Blockchain/validator.go:47-62 | The active set becomes the given keys iff all of them are nodes, otherwise nothing changes. |
| `Validators.Registry.SetNumberOfNode` | Sabine_ODL_Fork/source/Blockchain/validator.go:34-45 | Accepted iff the size is between 4 and the number of nodes; the first nodes become active unless the size is already right. |
| `Validators.Registry.GetValidatorIndexList` | Sabine_ODL_Fork/source/Blockchain/validator.go:138-151 | For any map iteration order, the ids of the active validators in increasing order. |
| `Validators.Registry.GetValidatorList` | Sabine_ODL_Fork/source/Blockchain/validator.go:128-136 | The keys of those ids, in the same order. |
| `Validators.Registry.GetActiveValidatorIndexOfValue` | Sabine_ODL_Fork/source/Blockchain/validator.go:170-176 | Id and key of the validator at a position of that list. |
| `Blockchains.Blockchain.AddBlock` | Sabine_ODL_Fork/source/Blockchain/blockchain.go:76-109 | Linked list, last, second last, size and hash index go on representing one sequence, now one block longer. |
| `Blockchains.Blockchain.FlushTransaction` | Sabine_ODL_Fork/source/Blockchain/blockchain.go:202-222 | The commands of a block change the active set as the fold over its transactions says, and all its transactions count as executed. |
| `Blockchains.Blockchain.UpdateProposer` | Sabine_ODL_Fork/source/Blockchain/blockchain.go:430-479 | The stored proposer is the one the block list determines: the active validator before which as many others come as the first byte of the last hash says, modulo their number. |
| `Blockchains.Blockchain.AddUpdatedBlock` | Sabine_ODL_Fork/source/Blockchain/blockchain.go:196-200 | After appending, active set, executed transactions and proposer are again functions of the block list alone. |
| `Blockchains.Blockchain.IsValidNewBlock` | Sabine_ODL_Fork/source/Blockchain/blockchain.go:130-182 | True iff the block may follow the represented sequence. |
| `Blockchains.Blockchain.AppendIfValid` | Sabine_ODL_Fork/source/Blockchain/blockchain.go:130-200 | A node that appends only what passes the check keeps its whole chain valid. |
| `Blockchains.Blockchain.GetBlock` | Sabine_ODL_Fork/source/Blockchain/blockchain.go:269-286 | The block at an index of the sequence; None where the source panics. |
| `Blockchains.Blockchain.GetBlocs` | Sabine_ODL_Fork/source/Blockchain/blockchain.go:349-370 | The whole sequence. |
| `Blockchains.Blockchain.GetSecLastBlock` | Sabine_ODL_Fork/source/Blockchain/blockchain.go:240-260 | The last but one block, or the first while it is alone. |
| `Blockchains.Blockchain.ExistBlockOfHash` | Sabine_ODL_Fork/source/Blockchain/blockchain.go:415-422 | True iff some block of the sequence has the hash. |
| `Blockchains.Blockchain.GetFragmentBlocks` | Sabine_ODL_Fork/source/Blockchain/blockchain.go:372-413 | The sequence cut into consecutive pieces of 4096 blocks, the last one shorter. |
| `Blockchains.FragmentSize` | Sabine_ODL_Fork/source/Blockchain/blockchain.go:372-413 | All fragments have 4096 blocks but the last, which has at least one and ends with the chain. |
| `VotePools.VotePool.Add` | Sabine_ODL_Fork/source/Blockchain/CommitPool.go:93-102 | A vote joins the unconfirmed ones of its hash unless its signature is confirmed. |
| `VotePools.VotePool.Confirm` | Sabine_ODL_Fork/source/Blockchain/CommitPool.go:34-43 | In any map order: votes of active validators are confirmed, the others dropped, none stays unconfirmed. |
| `VotePools.VotePool.GetNbOfHashOfActive` | Sabine_ODL_Fork/source/Blockchain/PreparePool.go:66-73 | Counting confirms first and returns the number of confirmed votes. |
| `VotePools.RunRepresents` | Sabine_ODL_Fork/source/Blockchain/PreparePool.go:29-38 | After any run of votes and counts the pool holds, disjointly, every vote of an active validator received and nothing that was not received. |
| `VotePools.CountIsActiveSignatures` | Sabine_ODL_Fork/source/Blockchain/CommitPool.go:148-155 | The count is the number of distinct signatures for the hash received from active validators. |
| `VotePools.Confluent` | Sabine_ODL_Fork/source/Blockchain/CommitPool.go:93-102 | It depends on the set of votes only, not on order, repetition or earlier counts. |
| `VotePools.ConfirmedStays` | Sabine_ODL_Fork/source/Blockchain/CommitPool.go:34-43 | A confirmed vote stays confirmed, with its key, and never turns unconfirmed again. |
| `VotePools.CountIsFinal` | Sabine_ODL_Fork/source/Blockchain/PreparePool.go:29-38 | Once counted, the votes received so far count under every later active set as they did then. |
| `Agreement.HomeTip` | Sabine_ODL_Fork/source/Blockchain/blockchain.go:130-147 | A hash is valid on top of one chain only: the prefix on which a block with this hash is valid is the same in every chain. |
| `Agreement.MessageGuardSufficient` | Sabine_ODL_Fork/source/Blockchain/Consensus/States.go:63-71 | What NewRound checks of an announced block names a block that is valid on top of the chain iff the announced number is the pooled block's. |
| `Agreement.EnterKeepsNodeIff` | Sabine_ODL_Fork/source/Blockchain/Consensus/States.go:63-98 | Taking up the announced block keeps the node's invariant iff the announced number is the pooled block's. |
| `Agreement.MessageGuardExample` | Sabine_ODL_Fork/source/Blockchain/Consensus/States.go:63-71 | A block of an earlier height that is still pooled, announced under the next number, passes that check and is not valid there. |
| `Agreement.OldBlockIsAppendedAgain` | Sabine_ODL_Fork/source/Blockchain/Consensus/States.go:63-188 | Its confirmed votes of old at the threshold, such a block is taken up, committed to and appended once more without a vote being received. |
| `Agreement.CountKeepsVotes` | Sabine_ODL_Fork/source/Blockchain/Consensus/States.go:144-150 | Counting prepares or commits at the height a hash belongs to confirms only signed votes of validators active there. |
| `Agreement.CountIsQuorum` | Sabine_ODL_Fork/source/Blockchain/Consensus/States.go:178-188 | Votes counted to the threshold come from more than two thirds, in distinct keys, of the validators active before the block. |
| `Agreement.CommitKeepsNode` | Sabine_ODL_Fork/source/Blockchain/Consensus/States.go:144-167 | An honest node's commit names a block of its own current height and comes once per height. |
| `Agreement.AppendKeepsNode` | Sabine_ODL_Fork/source/Blockchain/Consensus/States.go:189-270 | Finalizing the pooled block keeps the chain valid and certified and every earlier commit at its height. |
| `Agreement.StepKeepsInv` | Sabine_ODL_Fork/source/Blockchain/Consensus/States.go:63-270 | Every step of an honest node, every delivery of a vote or block in any order and every faulty vote keeps the network invariant, an announcement that carries the pooled number. |
| `Agreement.RunKeepsInv` | Sabine_ODL_Fork/source/Blockchain/Consensus/States.go:63-270 | It holds in every state of a run whose announcements do. |
| `Agreement.QuorumsShareHonest` | Sabine_ODL_Fork/source/Blockchain/Consensus/CoreConsensus.go:81-83 | Two sets of more than two thirds of the active validators share an honest one while fewer than a third are faulty. |
| `Agreement.TwoThirds` | Sabine_ODL_Fork/source/Blockchain/Consensus/CoreConsensus.go:81-83 | The threshold is met iff more than two thirds are counted, for every count and every number of validators. |
| `Agreement.MovesIffTwoThirds` | Sabine_ODL_Fork/source/Blockchain/Consensus/States.go:126-270 | A node commits iff it counts prepares of more than two thirds of the active validators, and appends its pooled block iff it counts such commits. |
| `Agreement.HonestSufficeIff` | Sabine_ODL_Fork/source/Blockchain/Consensus/CoreConsensus.go:81-83 | The honest validators reach the threshold without the faulty ones iff fewer than a third are faulty. |
| `Agreement.CommitAtHeight` | Sabine_ODL_Fork/source/Blockchain/Consensus/States.go:144-167 | An honest commit for a block sits in its signer's chain exactly at the block's height, or is the block being committed there. |
| `Agreement.SameNext` | Sabine_ODL_Fork/source/Blockchain/Consensus/States.go:178-188 | Two certified blocks on one prefix are the same block, fewer than a third of the validators active after the prefix being faulty. |
| `Agreement.RunGrowsChain` | Sabine_ODL_Fork/source/Blockchain/Consensus/States.go:189-270 | Honest chains only grow. |
| `Agreement.ChainsNeverFork` | Sabine_ODL_Fork/source/Blockchain/Consensus/States.go:178-270 | Agreement: of the chains of any two honest nodes at any two moments of such a run one is a prefix of the other, with validator sets changed by committed commands, if fewer than a third of the validators active before each block of one of the two chains are faulty. |
| `Certificates.CommitIsBacked` | Sabine_ODL_Fork/source/Blockchain/Consensus/States.go:144-167 | An honest node commits to a block only when a quorum of the validators active before it has prepared it. |
| `Certificates.RunKeepsPrepared` | Sabine_ODL_Fork/source/Blockchain/Consensus/States.go:63-270 | In every state of such a run every commit of an honest node is backed in that way, and every prepare it holds was signed. |
| `Certificates.RunAppendsPrepared` | Sabine_ODL_Fork/source/Blockchain/Consensus/States.go:144-270 | A block that an honest node has appended was prepared by a quorum of the validators active before it, fewer than a third of these being faulty. |
| `Encodings.EncodedIsSound` | Sabine_ODL_Fork/source/Blockchain/block.go:62-79 | Hashes and signatures as assumed exist: self-delimiting encodings of what is hashed and signed. |
| `Scenarios.OneOfFourFaulty` | Sabine_ODL_Fork/source/Blockchain/Consensus/States.go:63-270 | Four validators of which one is faulty and votes, every transaction verifying, meet all assumptions of ChainsNeverFork in a run that appends a block. |
| `Scenarios.TakeoverIsValid` | Sabine_ODL_Fork/source/Blockchain/blockchain.go:301-321 | In such a network a chain passes all block checks whose command leaves only the faulty validator active, so the bound can be asked of held chains only. |
| `Forks.AllAppend` | Sabine_ODL_Fork/source/Blockchain/Consensus/States.go:63-270 | If each of a list of validators, more than two thirds of the active ones, may take up one block, which the elected one proposes if it is among them, then steps lead to a network in which all of them have prepared, committed and appended it, still holding the votes of each other; nobody else signs anything on the way and no announcement carries a wrong number. |
| `Forks.HonestAppend` | Sabine_ODL_Fork/source/Blockchain/Consensus/States.go:63-270 | With fewer than a third of the active validators faulty, the honest ones append a block by their own votes alone. |
| `Forks.AppendsAgain` | Sabine_ODL_Fork/source/Blockchain/Consensus/States.go:63-71 | A node that holds the prepare and commit votes of more than two thirds of the active validators for its last block appends that block a second time after one announcement under the next number, without receiving a further vote. |
| `Forks.AnnouncementForks` | Sabine_ODL_Fork/source/Blockchain/Consensus/States.go:63-71 | For every list of at least two validator keys, all active from the start and all honest, there is a run with exactly one announcement under another number than the pooled one and no faulty vote, after which a held chain is no longer valid and two chains fork. |
| `SortedHashes.SortedLinkedList.Insert` | Sabine_ODL_Fork/source/Blockchain/transactionPoolInterf.go:92-126 | Stable insertion by timestamp into the sequence the list represents; forward and backward links stay mirrored. |
| `SortedHashes.SortedLinkedList.Remove` | Sabine_ODL_Fork/source/Blockchain/transactionPoolInterf.go:150-173 | The first entry with the hash leaves, both ends and both directions stay consistent; nothing changes when it is absent. |
| `SortedHashes.SortedLinkedList.GetFirstsElem` | Sabine_ODL_Fork/source/Blockchain/transactionPoolInterf.go:128-138 | The first entries, fewer when the list is shorter. |
| `SortedHashes.SortedLinkedList.GetElemNumber` | Sabine_ODL_Fork/source/Blockchain/transactionPoolInterf.go:140-148 | The entry at a position inside the list. |
| `SortedHashes.SortedList.Insert` | Sabine_ODL_Fork/source/Blockchain/transactionPoolInterf.go:40-48 | Insertion at the place binary search finds. |
| `SortedHashes.SortedList.Remove` | Sabine_ODL_Fork/source/Blockchain/transactionPoolInterf.go:61-70 | The first entry with the hash leaves. |
| `SortedHashes.SearchIsPlace` | Sabine_ODL_Fork/source/Blockchain/transactionPoolInterf.go:41-43 | On a list in order, binary search finds the place the backward scan stops at. |
| `SortedHashes.InsertCoherent` | Sabine_ODL_Fork/source/Blockchain/transactionPoolInterf.go:92-126 | Insertion of a new hash keeps the list in timestamp order and equal to the keys of the map. |
| `SortedHashes.RemoveCoherent` | Sabine_ODL_Fork/source/Blockchain/transactionPoolInterf.go:150-173 | So does removal. |
| `SortedHashes.ScanIsSearch` | Sabine_ODL_Fork/source/Blockchain/transactionPoolInterf.go:31-177 | After the same operations with no hash added twice, the linked list and the binary-search slice hold the same sequence, in order and with the keys of the map. |
| `SortedHashes.AddCoherentIffFresh` | Sabine_ODL_Fork/source/Blockchain/TransactionPool.go:260-264 | An unchecked addition keeps list and map in step iff the hash is new. |
| `TransactionPools.TransactionPool.Clear` | Sabine_ODL_Fork/source/Blockchain/TransactionPool.go:226-231 | Map and list are empty afterwards; commands stay. |
| `TransactionPools.TransactionPool.AlmostClear` | Sabine_ODL_Fork/source/Blockchain/TransactionPool.go:309-330 | What is kept is part of the old pool, of exactly a 64th of the threshold, or everything when that is zero or enough; list and map agree. |
| `TransactionPools.TransactionPool.AfterTxAdd` | Sabine_ODL_Fork/source/Blockchain/TransactionPool.go:32-43 | Which overload behaviour empties the pool or stops the senders, and when. |
| `TransactionPools.TransactionPool.AddTransaction` | Sabine_ODL_Fork/source/Blockchain/TransactionPool.go:248-274 | Accepted iff below the threshold, which the pool never exceeds; the list is the stable insertion of the hash unless the overload behaviour emptied the pool; list and map stay in step iff the hash was new. |
| `TransactionPools.TransactionPool.RemoveTransaction` | Sabine_ODL_Fork/source/Blockchain/TransactionPool.go:289-307 | Exactly this transaction leaves map and list. |
| `TransactionPools.TransactionPool.PickCommand` | Sabine_ODL_Fork/source/Blockchain/TransactionPool.go:347-362 | In any map order the first valid command met, and only invalid commands are dropped before it. |
| `TransactionPools.TransactionPool.GetTxForBloc` | Sabine_ODL_Fork/source/Blockchain/TransactionPool.go:343-440 | One valid command alone, or the selected transactions, at most five, all verified and in time order; exactly the entries met as invalid leave list and map; no index past the end although entries are deleted while scanning; terminates. |
| `TransactionPools.SelectedIsOrdered` | Sabine_ODL_Fork/source/Blockchain/TransactionPool.go:365-440 | The selection has at most five distinct valid transactions, in timestamp order. |
| `TransactionPools.SelectedExactly` | Sabine_ODL_Fork/source/Blockchain/TransactionPool.go:365-440 | Entry by entry: which are selected and which leave the list. Behind the first five the scan looks at an entry iff an even number of invalid ones stands directly before it and the block is not full; then a valid one is selected and an invalid one removed, and every other stays. |
| `TransactionPools.SelectedIsFirstValid` | Sabine_ODL_Fork/source/Blockchain/TransactionPool.go:403-436 | It is the first five valid ones iff, behind the first five entries, an even number of invalid ones stands directly before each valid one still needed. |
| `TransactionPools.ShortBlockExample` | Sabine_ODL_Fork/source/Blockchain/TransactionPool.go:428-434 | Seven transactions of which the first and the sixth are invalid: the seventh is valid and left out of a block with room for it. |
| `Savers.Saver.WriteMultipleFile` | Sabine_ODL_Fork/source/Blockchain/saver.go:111-147 | Exactly the files from the previously last one on are rewritten, with their fragments; the next save starts from their number. |
| `Savers.FullFragmentStays` | Sabine_ODL_Fork/source/Blockchain/blockchain.go:386-411 | A fragment that is not the last never changes when the chain grows. |
| `Savers.FragmentsJoin` | Sabine_ODL_Fork/source/Blockchain/blockchain.go:386-411 | The fragments one after the other are the chain. |
| `Savers.RunKeepsInv` | Sabine_ODL_Fork/source/Blockchain/saver.go:111-147 | After any interleaving of growth and saves the files hold the fragments of the last saved chain. |
| `Savers.FilesHoldTheChain` | Sabine_ODL_Fork/source/Blockchain/saver.go:111-147 | Concatenating the files gives the whole chain at the last save. |
| `IPv6Text.ToStr` | pox/pox/lib/addresses.py:689-743 | The printer with its loops. Read off the text: each segment between colons is the group that belongs there, in lower-case digits, without leading zeros under zero_drop and four of them otherwise; only in mixed notation, used on request or for mapped addresses, the last is the dotted quad; the empty ones stand where the leftmost longest run of at least two zero groups is dropped. Parsing the text gives the address back. |
| `IPv6Text.LongestRun` | pox/pox/lib/addresses.py:721-741 | The run picked is the leftmost among the longest of length at least two; None iff there is none. |
| `IPv6Text.FromText` | pox/pox/lib/addresses.py:475-524 | The parser's loop computes the parse function; what it accepts is 16 bytes long. |
| `IPv6Text.AcceptedIff` | pox/pox/lib/addresses.py:489-513 | A text without a dot is accepted iff it has two to seven colons, no second double colon, and every segment is empty or a hexadecimal number up to ffff. |
| `IPv6Text.SecondDoubleIsRefused` | pox/pox/lib/addresses.py:489-491 | Two double colons are refused, wherever they stand. |
| `IPv6Text.FirstBadSegment` | pox/pox/lib/addresses.py:497-510 | The first bad segment decides the error: not a number, or too large a one; Texts.NumberIffHex says which characters make a number. |
| `IPv6Text.DottedErrors` | pox/pox/lib/addresses.py:478-522 | Which error a text with dots meets: no colon, a dot before the last colon, or no IPv4 address behind it. |
| `IPv6Text.RoundTrip` | pox/pox/lib/addresses.py:689-743 | For every address, every choice of zero_drop and mixed notation and every droppable run, parsing the text gives the address back. |
| `IPv6Text.MixedRoundTrip` | pox/pox/lib/addresses.py:704-712 | The same for mixed notation, where finalize replaces two placeholder groups by the dotted quad. |
| `IPv6Text.ParseAround` | pox/pox/lib/addresses.py:489-513 | Around any dropped zero run the parser fills in exactly the missing groups iff the run has at least two groups or lies strictly inside; a double colon that stands for one group at either end is refused. |
| `IPv6Text.ParseColonAtEnd` | pox/pox/lib/addresses.py:489-513 | Groups followed by a single colon are read as an address iff there are two to seven of them, zeros being appended. |
| `IPv6Text.ParseColonAtStart` | pox/pox/lib/addresses.py:489-513 | The same for a single colon in front, the zeros coming first. |
| `IPv6Text.ParseJoined` | pox/pox/lib/addresses.py:489-513 | Groups without a double colon parse iff there are three to eight of them, zeros being appended to fewer than eight. |
| `IPv6Text.JoinedAgreesWithRfc` | pox/pox/lib/addresses.py:489-513 | On such a text the parser agrees with the preferred form of section 2.2 of RFC 4291 iff there are fewer than three groups, more than eight, or eight of at most four digits. |
| `IPv6Text.DottedQuadRoundTrip` | pox/pox/lib/addresses.py:517-522 | The dotted quad parses back to its four bytes. |
| `IPv6Text.FromIPv4IsNeverMapped` | pox/pox/lib/addresses.py:528-530 | The constructor's text for an IPv4 address never gives the IPv4-mapped address it is described to give. |
| `IPv6Text.MappedText` | pox/pox/lib/addresses.py:594-595 | The text with one zero group less does. |
| `Netmasks.NetmaskToCidr` | pox/pox/lib/addresses.py:603-619 | The bit-shifting loop returns the prefix length iff the number is a netmask, for 128 and for 32 bits. |
| `Netmasks.NetmaskBits` | pox/pox/lib/addresses.py:622-629 | The bits of a netmask are ones for the length of the prefix and zeros behind. |
| `Netmasks.NetmaskInjective` | pox/pox/lib/addresses.py:622-629 | Different prefix lengths have different netmasks. |
| `Netmasks.InNetworkIsSamePrefix` | pox/pox/lib/addresses.py:667-687 | An address is in a network iff the network's host part is zero and the two agree in the network bits. |
| `Netmasks.NumOf` | pox/pox/lib/addresses.py:563-567 | The shift loop computes the big-endian number of the bytes. |
| `Netmasks.NumInjective` | pox/pox/lib/addresses.py:563-567 | Addresses of one length with the same number are the same. |
| `Netmasks.ByteAlignedNetwork` | pox/pox/lib/addresses.py:667-687 | For a prefix of whole bytes, membership is equality of those bytes. |
| `Netmasks.MappedIsInNetwork` | pox/pox/lib/addresses.py:594-595 | The arithmetic test against ::ffff:0:0/96 holds iff the first twelve bytes are those of an IPv4-mapped address. |
| `Topology.CanonIsUnordered` | pox/ext/pbft_pox_app.py:107-109 | Sorted endpoint pairs are equal iff the unordered pairs are. |
| `Topology.DeterministicL2SwitchLogic.LearnMac` | pox/ext/pbft_pox_app.py:59-65 | The address maps to the port, everything else stays. |
| `Topology.DeterministicL2SwitchLogic.ComputeAction` | pox/ext/pbft_pox_app.py:67-103 | Unreadable, LLDP and IPv6 frames change nothing; otherwise the source is learned, and for every log that led here the frame goes to the port on which the destination was last learned and not cleared since, nowhere if that is the input port, and to the flood port if there is none. |
| `Topology.DeterministicL2SwitchLogic.UpdateLinkState` | pox/ext/pbft_pox_app.py:105-131 | Only the three enumerated statuses return; the state follows the fold. |
| `Topology.DeterministicL2SwitchLogic.ClearMacsForPort` | pox/ext/pbft_pox_app.py:134-143 | Exactly the addresses of the port leave and an emptied table with them. |
| `Topology.ActiveIffLastUp` | pox/ext/pbft_pox_app.py:105-131 | For any log of learns and link events, a link is active iff the last up or down event of the unordered pair was an up. |
| `Topology.NoTableIsEmpty` | pox/ext/pbft_pox_app.py:134-143 | No empty MAC table is ever kept. |
| `Topology.EntryIsLastLearn` | pox/ext/pbft_pox_app.py:59-143 | A table holds an address on a port iff that was its last learn and no later down event of an active link cleared the port. |
| `Topology.EndsMayBeSwapped` | pox/ext/pbft_pox_app.py:105-143 | Swapping the endpoints of any events leaves the whole replica state the same. |
| `Topology.FetchTopology` | real_time_ui.py:108-160 | The viewer shows a pair iff in some block some link data of it says up, in letters of either case, and none after that, in the same or a later block, says down; and it shows the same links as a replica that was notified of the same chain. |
| `Framing.OFConnection.Read` | pox/pox/datapaths/switch.py:1119-1174 | One call hands over the messages, sends the error replies and leaves the bytes that the framing function says. |
| `Framing.OFConnection.PushReceiveData` | pox/pox/lib/ioworker/__init__.py:209-212 | Arriving bytes are put behind those left and read. |
| `Framing.DrainInTwo` | pox/pox/datapaths/switch.py:1119-1174 | Reading in two calls what arrived in two parts does what one call on the whole would. |
| `Framing.FeedIsDrain` | pox/pox/datapaths/switch.py:1119-1174 | For any chunks, while unpackers keep to their frame: the same messages, replies and rest as for the whole stream at once, malformed frames included. |
| `Framing.ChunksDoNotMatter` | pox/pox/datapaths/switch.py:1119-1174 | Any cut of a stream of whole frames and a rest gives the messages of the good frames in order, a bad-type reply carrying the frame for each unknown type and a bad-length reply for each whose unpacker stops elsewhere, and leaves the rest, waiting for more or, where it starts with another version, giving up. |
| `Framing.RestIsSuffix` | pox/pox/datapaths/switch.py:1160-1161 | The rest is the end of the buffer, and when read waits it is less than one frame. |
| `Framing.SpinsOnZeroLength` | pox/pox/datapaths/switch.py:1136-1158 | read fails to return iff in the buffer whole non-empty frames of the right version, on which no unpacker raises, are followed by such a header that claims length zero. |
| `Framing.SpinExample` | pox/pox/datapaths/switch.py:1136-1149 | Four bytes of the right version, an unknown type and length zero are enough. |
| `Windows.NewFixSizeQueue` | Sabine_ODL_Fork/source/Blockchain/ControlFeedBack.go:26-29 | nil for fewer than two places, otherwise an empty window. |
| `Windows.FixSizeQueue.constructor` | Sabine_ODL_Fork/source/Blockchain/ControlFeedBack.go:26-39 | A chain of `size` distinct cells holding zeros. |
| `Windows.FixSizeQueue.Append` | Sabine_ODL_Fork/source/Blockchain/ControlFeedBack.go:41-46 | Moving the two pointers moves the window by one. |
| `Windows.FixSizeQueue.Mean` | Sabine_ODL_Fork/source/Blockchain/ControlFeedBack.go:48-56 | The mean of the last `size` values, zeros standing for missing ones. |
| `Windows.FixTor.Append` | Sabine_ODL_Fork/source/Blockchain/ControlFeedBack.go:73-77 | Overwriting the oldest place moves the same window by one, and the stored mean is its mean. |
| `Windows.FixTor.Mean` | Sabine_ODL_Fork/source/Blockchain/ControlFeedBack.go:87-89 | The mean of the last `size` values: the same term as the queue's. |
| `Windows.SameSum` | Sabine_ODL_Fork/source/Blockchain/ControlFeedBack.go:15-89 | Fed the same values, ring and queue of one size hold the same sum although they store it in different orders. |
| `Windows.WindowSum` | Sabine_ODL_Fork/source/Blockchain/ControlFeedBack.go:48-56 | A window sums to its last `size` values, to all of them while they are fewer. |
| `Windows.WindowSlides` | Sabine_ODL_Fork/source/Blockchain/ControlFeedBack.go:41-56 | From zero on, each value counts once when it comes and stops counting when `size` more have come. |
| `Conditionals.IfStack.SetMatch` | pox/pox/config/__init__.py:123-133 | Fails iff no block is open; otherwise the top moves unmatched, matching, done. |
| `Conditionals.FollowItems` | pox/pox/config/__init__.py:158-200 | Where the machine can execute, the lines of nested blocks do what a recursive reading of the blocks does, including lines that set or unset the variables tested, and the stack is restored. |
| `Conditionals.SkipItems` | pox/pox/config/__init__.py:112-147 | Where it cannot, whole blocks leave no trace. |
| `Conditionals.RunsIffBalanced` | pox/pox/config/__init__.py:139-147 | A file runs through without a conditional error iff its lines open and close blocks properly, whatever the variables are. |
| `Conditionals.Launch` | pox/pox/config/__init__.py:158-275 | A file runs through iff it is the text of some nesting of blocks, and then executes exactly what they mean. |
| `Conditionals.FirstOpenBranch` | pox/pox/config/__init__.py:172-200 | Of the branches of an if the first is executed, and no other, whose variable is set in either dictionary, or is not for the negated directives, or that is an else. |
| `Conditionals.LastSetDecides` | pox/pox/config/__init__.py:96-200 | In a file of actions before an if with an else, the last set or unset of the variable, local or global, or its initial state decides which of the two lines is executed, and exactly those lines run. |
| `Conditionals.ValueIsLast` | pox/pox/config/__init__.py:96-108 | A variable has the value it was last set to. |
| `Waiters.Core.RegisterComponent` | pox/pox/core.py:486-505 | When the call is done, however callbacks registered further components and waiters, no waiter is left whose components are all there, and an entry was called as often as it was added if its components are there and never otherwise. |
| `Waiters.Core.WaitFor` | pox/pox/core.py:507-540 | Waiting keeps that rest; the callback is called at once if its components are there. |
| `Waiters.Core.TryWaiter` | pox/pox/core.py:542-570 | A waiting entry is called and leaves iff its components are there; otherwise nothing changes. |
| `Waiters.Core.TryWaiters` | pox/pox/core.py:572-582 | The loop over snapshots of a list that changes under it ends with no satisfied waiter left. |
| `Waiters.CalledIffReady` | pox/pox/core.py:542-582 | At rest every entry has been called, as often as it was added, iff its components are registered. |

## Left out

- Agreement.ChainsNeverFork: covers validators; nodes outside the active set that take finalized blocks in non-validator mode (NewRoundNV), round changes and the time-outs behind them are not steps of the model.
- Agreement.StepKeepsInv: removing fully validated votes under RamOpt is the step ForgetVotes at any time, so the bookkeeping that decides when to remove is not modelled; a proposer may propose any verified transactions, whatever its pool holds.
- SortedHashes.SortedLinkedList.GetElemNumber: requires a position inside the list, beyond which the source dereferences nil; GetTxForBloc is proved to stay inside.
- IPv6Text.FromText: does not model that int(s, 16) also takes a sign, a 0x prefix, underscores and blanks, nor that inet_aton takes fewer than four parts and octal or hexadecimal ones.
- IPv6Text.ToStr: None for zero_drop and section_drop counts as False, as Python's truth test has it.
- Netmasks.InNetworkIsSamePrefix: the network arrives as number and prefix length; splitting the text at the slash and infer_netmask are not modelled, from_num and cidr_to_netmask are used only as numbers.
- L2Multi.Controller.HandleLinkEvent: the flow deletions sent to all switches are not modelled.
- L2Multi.Controller.DeleteLinks: batches that name a switch the controller never saw are not covered; their handler raises and is passed over while discovery drops the link.
- L2Multi.RunKeepsInv: events that name such a switch are not in the runs; on a new link the handler raises while discovery keeps the link.
- Blockchains.Blockchain.FlushTransaction: removing the block's transactions from the transaction pool is that pool's own operation, and commands that change the transmission delay do nothing here.
- Blockchains.Blockchain.AddUpdatedBlock: the transaction pool and the validator selector are told of the block elsewhere; changes of the transmission delay and selector.Update are not modelled.
- Windows.FixTor.constructor: requires a positive size; with size zero the source constructs a ring whose first Append fails.
- Conditionals.Launch: an executed line is one action; sections, arguments, !include, !log, variable substitution and the errors such lines raise are not modelled.
- Framing.OFConnection.Read: unpackers are a parameter; the transaction ids copied into error replies and exceptions of the message handler, which are logged and passed over, are not modelled.
- Waiters.Core.RegisterComponent: what a callback does is a finite list of registrations and waits, fixed when it starts to wait; listeners of the ComponentRegistered event are not modelled.
- Topology.FetchTopology: labels of switches, hosts and the drawing are left out.
- topo_proactive's own link handler: unlike l2_multi's it does not skip the removed link when it looks for a replacement; its adjacency is taken as given.
- Delivery in TopoProactive: flow priorities, DHCP and the rules for the hosts of a switch.
- CentricSelector: a weight matrix over floating-point distances; what it proposes reaches the ledger only as a command, which the model takes as arbitrary.
- The epoll emulation, the dealer's pending map and the switch's packet buffers are not part of this model.
- gRPC, TCP, gob and protobuf plumbing, container generation, command lines and the web pages.
