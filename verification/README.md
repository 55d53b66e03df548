# A Bitcoin-style client: block gossip, block store, framing, Merkle tree

This project models a small Bitcoin-style client in Dafny and proves what its parts promise.
To verify: `dafny verify dfyconfig.toml`.

Four parts are modelled, in the form their source has.

* **Block store and gossip.** The store is a tree of blocks with cached heights, a first-seen longest-chain tip, a
  buffer of blocks keyed by the parent they miss, and a recursive cascade that releases them. The object is
  `BlockStore.Blockchain`; its methods are proved against functions on a value, `Chains.Chain` (`Chains`, `Cascades`).
  The worker's block arms (`Worker.Context`) and a mining attempt (`Miner.Context`) are proved against `Gossip` and
  `Network`; what those functions answer, in content and order, is in `Answers`, what attempts build in `Mining`, and
  what the order of arrival decides in `Arrivals`. Each handler and each attempt holds the store's lock from beginning
  to end, so `Network` takes each as one atomic step of a system of nodes with messages in flight, delivered in any
  order or lost. The messages that are not about blocks change no store; in the system any node may send any of them
  at any time, which covers whatever the transaction arms, the transaction generator and the pings make it send. On it
  rest the invariant of all runs (`Network`), order independence (`Deliveries`, `Tips`), the bounded backfill
  (`Backfill`), agreement at rest (`Agreement`, `LateLinks`), agreement of contents and ledger states (`Contents`),
  and the termination of gossip (`Quiescence`).
* **Ledger.** The transition of unspent outputs (`Ledger`), whole histories (`Histories`), and what both mean for the
  cached state along every path of the tree (`Paths`). The rules are those of sections 4 and 5 of the Bitcoin paper
  (Nakamoto, 2008) as far as the client follows them.
* **Framing.** The resumable reader and writer (`Peer`) against the wire format and a byte-wise automaton (`Framing`),
  joined to one connection under arbitrary short reads, short writes and interruptions.
* **Merkle tree.** Construction, proof and check as loops (`Merkle`) against a recursive reference (`MerkleSpec`), and
  the comparison of digests (`Hash`).

Conventions:

* SHA-256 of headers, transactions and child pairs, and the owners of the initial coins, are arbitrary functions
  (`Blocks.Crypto`, `hc`). Nothing is assumed of them. Where a result needs collision-freeness it is stated of the
  blocks or transactions in play (`Deliveries.CollisionFree`, `Histories.Sensible`), or the result is "or here is a
  collision".
* A block is hashed by its header only, so among blocks offered from outside equal hashes do not fix the content
  (`Tips.FirstContentWins`). In every run of the system they do, whatever the hash function is, because a mined hash
  is new everywhere and blocks travel unchanged (`Contents.OneHashOneBlock`).
* **Repair.** `Blockchain::insert` runs the block on a temporary copy of the parent's state and drops it
  (src/blockchain.rs:90-91), so that inserting a block at height 2 would panic. The modelled `Insert` stores the
  child's state, as MidtermProject6/README.md:41 asks. `Chains.AsWrittenOnlyGenesisChildren` says exactly when the
  code as it stands survives. Everything else follows the code.
* **A mined header does not commit to its content.** The Merkle root is computed before transactions are taken from
  the pool (src/miner.rs:167-188); `Miner.Context.MineOnce` says so, and also that a failed attempt discards what it
  took.
* Some properties fail, and the exact condition is proved together with an input that shows it. Framing loses messages
  that are empty or too long (`Framing.QueueRoundTripIff`). `verify` shows a datum only for proofs of full length
  (`Merkle.Soundness`); `Merkle.AcceptedExactly` says what it accepts at every length, and `Merkle.ShortProofs` and
  `Merkle.LongProofs` what goes wrong at others. The tip depends on the order of arrival unless one block alone is
  highest (`Tips.TipIndependentIff`). A new block is answered with its transactions unless a waiting block that
  collides with it is released first (`Answers.TakenIffUnstored`, `Answers.RivalSilences`). Linked nodes need not
  agree, because linking announces nothing: they do if and only if they stored the same when they were linked
  (`Agreement.LinkedAtRestIff`, `Agreement.LateLinksCanDisagree`), and of what a late link leaves behind exactly that
  is caught up on which something new is built on (`LateLinks.LeftBehindExactly`). A Merkle root binds the data of one
  length (`Merkle.RootBindsData`) but not their number (`Merkle.RepeatedLastSameRoot`); trees of one depth have one
  root if and, up to a collision, only if their padded rows are the same (`Merkle.RootBindsRows`,
  `Merkle.PaddingGivesRoot`).
* Where an operation looks something up and unwraps it, `Ready`, `CanInsert` or a stored key is required; the
  invariants show that every reachable state provides it.

## Model

| member | source | states |
|---|---|---|
| `Quiescence.EventualAgreement` | src/network/worker.rs:68-124 | Every run of a multi-node system, with mining, new links, losses and talk about transactions interleaved in any way, can be continued by delivering messages about blocks until none is in flight. Then along every path of links, each made at its own time and without losses between its ends since, everything the first node stores has reached the last, unless a node on the way was ahead of the next by it when they were linked. If linked nodes stored the same when they were linked, the ends have the same blocks with their contents, the same heights, the same ledger state after every block, and tips of one height |
| `Quiescence.ComesToRest` | src/network/worker.rs:68-124 | From every reachable state, deliveries of messages about blocks alone lead to a state with none of them in flight; messages about transactions are left where they are, so that nothing rests on what their arms would do |
| `Quiescence.FallsSilent` | src/network/worker.rs:68-124 | Delivering every message leads to a state with nothing in flight, where a delivered `Transactions` message is inert: what its arm would write is a separate step of the system, and none is taken here |
| `Quiescence.DeliveriesLower` | src/network/worker.rs:68-124 | Over any stretch of a run without mining, a well-founded measure never rises, and falls if any message about blocks is delivered: first the set of (node, hash) pairs that a node lacks and another stores, then the weight of the messages about blocks in flight. Losses, new links and all messages about transactions, at any time and of any number, may come in between; so only finitely many messages about blocks are ever delivered |
| `Quiescence.StepNotHigher` | src/network/worker.rs:60-206 | One such step: losses, new links, and sending or delivering any message not about blocks do not raise the measure |
| `Quiescence.DeliveryLowers` | src/network/worker.rs:68-124 | In every state that a run can reach, delivering any message about blocks lowers the measure: the network lacks strictly less, or it lacks the same and less is in flight |
| `Quiescence.LackingFalls` | src/network/worker.rs:89-123 | A delivery never makes a node lack a hash that it did not lack, and leaves the lacking pairs as they are only if it stored nothing new |
| `Quiescence.ReplyLighter` | src/network/worker.rs:68-124 | An announcement is answered by a lighter request, a request by a lighter shipment, a shipment that brings nothing new by a lighter request for parents |
| `Quiescence.ParentsLower` | src/network/worker.rs:107-119 | A request for missing parents is about blocks strictly lower, at the node asked, than the shipment that caused it |
| `Quiescence.NothingNew` | src/network/worker.rs:112-123 | A `Blocks` message that stores nothing new causes no transaction reply and no announcement |
| `Contents.OneHashOneBlock` | src/block.rs:66-71 | In every state of every run a hash that two nodes store names the same block at both, content included, at the same height, with the same path from genesis and the same ledger state; nothing is assumed of the hash function |
| `Contents.RunAlike` | src/network/worker.rs:68-124 | The invariant behind it: any two stores have the same block under every hash they share |
| `Contents.StepAlike` | src/miner.rs:192-193 | Every step keeps it: mined hashes are new everywhere, and blocks travel unchanged |
| `Contents.NewIsKnown` | src/network/worker.rs:95-117 | Whatever a delivery makes a node store was stored by some node before, as it is |
| `Contents.RunWaiting` | src/blockchain.rs:129-132 | In every reachable state every buffered block is stored, as it is, by some node |
| `Agreement.NetworkAgreement` | src/network/worker.rs:68-124 | Whenever no message about blocks is in flight, the two ends of a path of links made at any times between nodes that stored the same, and lossless since, have the same blocks with their contents, the same heights, the same ledger state after every block, and tips of one height |
| `Agreement.PathInclusion` | src/network/worker.rs:68-124 | For links made between any stores: what the first node of the path stores at rest, the last stores too, unless some node was ahead of the next by it when they were linked |
| `Agreement.QuiescentAgreement` | src/network/worker.rs:68-124 | Two nodes linked at any moment j, nothing about blocks lost between them since, and nothing of the kind in flight between them now: each stores whatever the other has come to store since j; if they stored the same at j they now have the same blocks with their contents, heights and ledger states, and tips of one height |
| `Agreement.QuietInclusion` | src/network/worker.rs:68-124 | The same in one direction: what a is ahead of b by now is among what it was ahead by when b came onto its list |
| `Agreement.LinkedAtRestIff` | src/network/worker.rs:68-124 | The exact condition: nodes linked while nothing is in flight between them agree at every later rest if and only if they stored the same when they were linked |
| `Agreement.RunChased` | src/network/worker.rs:68-124 | Invariant from any moment at which b is on a's list: every block a stores, except what it was ahead by then, is at b stored, in hand (announced, asked for, shipped), or buffered with its parent in the same situation |
| `Agreement.QuietMeansStored` | src/network/worker.rs:68-124 | A block chased in this sense is stored once no message in flight brings it closer |
| `Agreement.ShippedIsHandled` | src/network/worker.rs:95-120 | A shipped block is afterwards stored, or buffered with a request for its parent on the way |
| `Agreement.RequestedIsShipped` | src/network/worker.rs:78-88 | A request for a stored block puts a shipment with that block on the way |
| `Agreement.AnnouncedIsRequested` | src/network/worker.rs:68-77 | An announced hash is stored already or asked for |
| `Agreement.LateLinksCanDisagree` | src/network/worker.rs:68-77 | A concrete run in which two nodes linked after one of them has mined are at rest with different stores: linking announces nothing |
| `Agreement.ConnectLinks` | src/network/server.rs:55-98 | A new link puts each of the two on the other's list, takes no link away, and changes no store and no message |
| `LateLinks.CatchesUp` | src/network/worker.rs:68-124 | After a late link, every block that a stores since then brings its whole path with it: at rest b stores it and all its ancestors, with the same ledger state, and has a tip at least as high, so once a's tip has moved b has a's whole longest chain |
| `LateLinks.LeftBehindExactly` | src/network/worker.rs:68-124 | What a late link leaves behind, exactly: let b come onto a's list at a rest with empty buffers, and let everything new reach a; at any later rest a is ahead of b by h if and only if it was so then and no new block that a stores is h's descendant |
| `LateLinks.TwoNodesExactly` | src/network/worker.rs:68-124 | The same for two nodes on their own, where everything new does reach both |
| `LateLinks.OnlyPathsToNewMove` | src/network/worker.rs:68-124 | From any rest with empty buffers on, in any network: whatever a node comes to store is new since then or an ancestor of something new |
| `LateLinks.BuiltOnParent` | src/network/worker.rs:107-119 | If something new is built on a block that a node asks the parent of, something new is built on that parent |
| `Backfill.BackfillConverges` | src/network/worker.rs:68-124 | A node with a fixed store announces hashes of height at most k: the exchange with any node in good order ends within k `Blocks` replies with all of them stored there; without collisions also all their ancestors, and a tip at least as high |
| `Backfill.ExchangeFetches` | src/network/worker.rs:68-124 | Every block chased by the request is stored when the exchange ends |
| `Backfill.RoundAsks` | src/network/worker.rs:107-120 | After one reply the node asks only for hashes that the other stores, at most one lower than before |
| `Backfill.ExchangeKeeps` | src/network/worker.rs:89-120 | What every reply keeps holds at the end of the exchange, and a bound that falls with every reply makes it end before it is reached |
| `Backfill.AncestorsToo` | src/blockchain.rs:136-147 | A stored block has the whole path to it, as another store has it, stored with it |
| `Deliveries.OrderIndependence` | src/network/worker.rs:89-123 | Two sequences of `Blocks` messages that offer the same blocks, in any order, grouping and repetition, leave the same stored hashes; if equal hashes mean equal headers among them, also the same heights, height of the tip and buffered hashes; if they mean equal blocks, also the same contents and ledger states |
| `Deliveries.StoredHashes` | src/network/worker.rs:89-123 | The stored hashes are the least set that contains genesis and, with a parent, every offered block that did its proof of work |
| `Deliveries.AwaitsExactly` | src/blockchain.rs:129-132 | Without collisions the buffered hashes are exactly the offered ones that did their work and are not stored |
| `Deliveries.WorksIsNumeric` | src/blockchain.rs:120-122 | A block did its work if and only if its hash is at most 256^31 as a number and it claims the default difficulty |
| `Deliveries.FaithfulStoresAgree` | src/blockchain.rs:80-147 | Any two stores in good order over the same offered blocks agree in this way, however they came about |
| `Tips.TipsAreTheHighest` | src/blockchain.rs:87-89 | Without collisions the blocks that can be the tip, over all orders, groupings and repetitions of the same blocks, are exactly the highest ones |
| `Tips.TipIndependentIff` | src/blockchain.rs:87-89 | So the tip is independent of the order if and only if one block alone is highest |
| `Tips.PathFirst` | src/blockchain.rs:87-89 | Delivering the path to a highest block first and then everything makes it the tip |
| `Tips.TipStaysIff` | src/blockchain.rs:87-89 | Further messages leave the tip where it is if and only if they leave its height as it is: ties keep the first-seen tip, through cascades and whole messages |
| `Tips.FirstOfTiedWins` | src/blockchain.rs:87-89 | Of any two blocks tied above the tip of any store, neither of them waited for, the first to arrive becomes and stays the tip |
| `Tips.FirstContentWins` | src/block.rs:66-71 | Where contents do depend on the order: of two contents under one header the first to arrive is stored and executed, in any store that the header can be attached to |
| `Arrivals.FirstOrphanWins` | src/blockchain.rs:129-147 | For any store in good order, a valid new block that nothing waits for, and any valid new children of it that arrive before it: once it arrives, the tip is the child that came first if the children rise above the tip, and stays otherwise |
| `Arrivals.FirstOfTwoOrphansWins` | src/blockchain.rs:129-147 | The same for two children and their parent in three messages: the child received first is the tip |
| `Arrivals.OrphansPile` | src/blockchain.rs:129-132 | Children that arrive before their parent wait for it in the order of arrival, each asks for it once, and nothing else in the store changes |
| `Arrivals.ReleasedInOrder` | src/blockchain.rs:136-147 | When the parent comes, the hashes announced are its own and then those of the children in the order of their arrival |
| `Arrivals.GroupingDoesNotMatter` | src/network/worker.rs:89-123 | The same blocks in the same order leave the same store, tip, contents and buffer, however they are grouped into messages |
| `Arrivals.ReceiveAllConcat` | src/network/worker.rs:89-123 | One message with the blocks of two does to the store, and puts on each of the three lists, what the two do one after the other |
| `Arrivals.CascadeOut` | src/blockchain.rs:136-147 | What `out_hashes` held before has no influence on the recursion, and stays in front |
| `Network.RunInv` | src/network/worker.rs:68-124 | In every state of every run (deliveries, losses, mining with fresh hashes, new links, talk about transactions) every store keeps the invariant and every message in flight tells the truth |
| `Network.NextInv` | src/network/worker.rs:68-124 | Every step keeps the system invariant, and no store loses or changes a block, a height or a state |
| `Network.RequestsCanBeServed` | src/network/worker.rs:78-88 | In every reachable state, every `GetBlocks` in flight is answered in full and in order: its filter drops nothing |
| `Network.AnnouncementsAreTrue` | src/network/worker.rs:121-123 | In every reachable state, every announcement in flight names only blocks its sender stores, and every shipment only blocks its sender stores |
| `Network.FlightExactly` | src/network/worker.rs:75-123 | After a reaction every reply is in flight to the sender once more, every broadcast once more for each entry of the peer list, and nothing else |
| `Network.ParentsAtSender` | src/network/worker.rs:107-111 | Every parent newly asked for or newly waited for is stored by the node that sent the child |
| `Network.OnMineProper` | src/miner.rs:164-195 | An attempt with an unused hash keeps the invariant, only extends the store, and announces only what is stored |
| `Network.CandidateAttachable` | src/miner.rs:164-190 | A block mined on the tip with the tip's difficulty passes the store's own checks when its hash is low enough and new |
| `Gossip.ReceiveAllSettles` | src/network/worker.rs:95-117 | No valid block of a message is lost: it is stored, or buffered with its parent among the missing hashes; and what was buffered is stored or still buffered |
| `Gossip.ReceiveAllStores` | src/network/worker.rs:95-117 | What a message newly stores was in the message or in the buffer |
| `Gossip.ReceiveAllOrigin` | src/network/worker.rs:95-117 | What is buffered afterwards was buffered before, or arrived and was not stored |
| `Gossip.ReceiveAllRelays` | src/network/worker.rs:116-123 | The hashes announced are exactly those newly stored |
| `Gossip.ReceiveAllMissing` | src/network/worker.rs:107-120 | Every hash asked for is the parent of an arrived block that was not stored |
| `Gossip.ReceiveAllInv` | src/network/worker.rs:89-123 | A message of arbitrary blocks keeps the invariant and only extends the store |
| `Gossip.SentMeansRelayed` | src/network/worker.rs:112-123 | Transactions are written back only by a message that stored something |
| `Gossip.OnBlocksReplies` | src/network/worker.rs:112-120 | The sender gets back transactions and, if anything is missing, one request for exactly that |
| `Answers.BlocksAnswered` | src/network/worker.rs:89-120 | The whole answer to a message of blocks, in order: the transactions of exactly those blocks that were new and valid with their parent stored when their turn came, one reply each, and then at most one request, for the parents of exactly those that were new and valid and had none stored |
| `Answers.NewsSpread` | src/network/worker.rs:116-123 | The hashes newly stored by the whole message are announced in one broadcast, each once and after its parent's; no broadcast if there are none |
| `Answers.AnsweredWasStored` | src/network/worker.rs:112-117 | A `Transactions` reply carries the content of a block of the message that was not stored before and is stored, as it came, afterwards |
| `Answers.NewIsAnswered` | src/network/worker.rs:95-115 | Conversely every valid new block whose parent was stored when the message came, the first in the message with its hash, has its transactions among the replies, unless a waiting block with another header has its hash |
| `Answers.TakenIffUnstored` | src/network/worker.rs:95-117 | The exact condition: a valid block with a stored parent is answered if and only if its hash is not stored when its turn comes |
| `Answers.RivalSilences` | src/blockchain.rs:136-147 | Why the last proviso: in any store, a waiting block that collides with the new one is released before it by the parent, and the new one is not answered |
| `Answers.RivalsExist` | src/block.rs:66-71 | Such blocks, for a hash function that keeps one byte of the nonce |
| `Answers.AnnouncementAnswered` | src/network/worker.rs:68-77 | An announcement is answered by one request for exactly the hashes not stored, in the order and number announced, and by nothing if all are stored |
| `Answers.UnknownsAskedInOrder` | src/network/worker.rs:68-77 | If nothing announced is stored, the request is the announcement as it came |
| `Answers.RequestAnswered` | src/network/worker.rs:78-88 | A request is answered by one message with exactly the stored ones of the blocks asked for, in order, and by nothing if none is stored |
| `Gossip.MissingExactly` | src/network/worker.rs:71-73 | The request names exactly the announced hashes that are not stored |
| `Gossip.StoredExactly` | src/network/worker.rs:81-84 | The shipment holds exactly the stored ones of the requested blocks, and all of them in order if all are stored |
| `Worker.Context.HandleNewBlockHashes` | src/network/worker.rs:68-77 | The loop writes back what `OnNewBlockHashes` says and changes nothing |
| `Worker.Context.HandleGetBlocks` | src/network/worker.rs:78-88 | The loop writes back what `OnGetBlocks` says and changes nothing |
| `Worker.Context.ReceiveBlock` | src/network/worker.rs:95-118 | One round of the loop over a message's blocks, with its early exits, on the shared store: the new store and the three lists are those of `ReceiveOne`, about which `Answers.BlocksAnswered` says what is written back and `Arrivals.OrphansPile` what is buffered |
| `Worker.Context.HandleBlocks` | src/network/worker.rs:89-124 | The whole arm: the new store, replies and broadcasts are those of `OnBlocks` on the old store, which `Answers.BlocksAnswered` and `Answers.NewsSpread` determine |
| `Worker.Context.Handle` | src/network/worker.rs:60-124 | Any message: the object does to the store what a node of the multi-node system does and, for the three messages about blocks, writes what it writes |
| `Miner.Context.MineOnce` | src/miner.rs:161-197 | The attempt: block on the tip with the tip's difficulty and the root of the default transaction alone; inserted, counted and announced if and only if its hash is low enough; the pool loses what was taken either way. In a sound store, an attempt with a new hash makes its block the tip, and the longest chain is the old one and its hash, if and only if the hash is at most 256^31 as a number |
| `Miner.Context.Fill` | src/miner.rs:177-187 | The content is the default transaction and different pool transactions, 20 in all or the whole pool, and exactly these leave the pool |
| `Miner.DefaultDoesNothing` | src/miner.rs:167 | The default transaction has no inputs, outputs, key or signature, and executing it changes no state |
| `Mining.MinedExtendsTip` | src/miner.rs:164-195 | An attempt on any sound store, whatever is buffered, succeeds if and only if the hash of the block with all that was chosen, on the tip and with difficulty 256^31, is at most that number. If the hash is new, the block is then the tip, the longest chain is the old one and its hash, its state is that of the old tip with its transactions executed, and just its hash is announced; a failed attempt changes and sends nothing |
| `Mining.MinesAChain` | src/miner.rs:161-197 | Any number of attempts by one node: those that succeed, if their hashes are new and differ, continue the longest chain in order, they and nothing else are stored, and the state of the tip has their transactions executed in order |
| `Miner.Mempool.Pop` | src/mempool.rs:31-38 | Takes out some one transaction, if there is one |
| `Cascades.CascadeContract` | src/blockchain.rs:136-147 | `insert_recursively` on a new block stores exactly the block and its transitive buffered descendants, reports each new hash once and after its parent's, removes from the buffer exactly the keys that are now stored, keeps the invariant and changes nothing stored |
| `Cascades.CascadeLeaves` | src/blockchain.rs:142-143 | A key leaves the buffer only when its hash is stored |
| `Cascades.CascadeBirths` | src/blockchain.rs:136-147 | For any state and starting list, what is appended to `out_hashes` is duplicate-free, parents first, and exactly the newly stored hashes |
| `Cascades.CascadeSettles` | src/blockchain.rs:136-147 | No buffered block is lost on the way, and every block given is stored |
| `Cascades.CascadeOrigin` | src/blockchain.rs:136-147 | A newly stored block was given or was buffered, and is filed under its hash |
| `Cascades.CascadeInv` | src/blockchain.rs:136-147 | The invariant holds after the cascade |
| `Cascades.CascadeGrows` | src/blockchain.rs:136-147 | The store only grows, the buffer only shrinks, key by key |
| `Cascades.CascadeConcat` | src/blockchain.rs:136-147 | Handling two lists of blocks in turn is handling them as one: the depth-first recursion is the worklist |
| `BlockStore.Blockchain.constructor` | src/blockchain.rs:29-77 | The new object holds genesis at height 0 as the tip and the state with the twelve coins |
| `BlockStore.Blockchain.Insert` | src/blockchain.rs:80-93 | The whole new store: block, height, tip moved only by a strictly greater height, and (repair) the child's state |
| `BlockStore.Blockchain.AllBlocksInLongestChain` | src/blockchain.rs:101-109 | The backward walk terminates and returns the path from genesis to the tip |
| `BlockStore.Blockchain.ContainsBlock` | src/blockchain.rs:115-117 | True if and only if the hash is stored |
| `BlockStore.Blockchain.PowValidityCheck` | src/blockchain.rs:120-122 | True if and only if the hash is at most the block's difficulty, as 256-bit numbers, and that is the store's |
| `BlockStore.Blockchain.ParentCheck` | src/blockchain.rs:125-127 | True if and only if the parent is stored |
| `BlockStore.Blockchain.AddToOrphanBuffer` | src/blockchain.rs:130-132 | The block is appended to what waits for its parent, and nothing else changes; `Arrivals.FirstOrphanWins` says what the order decides |
| `BlockStore.Blockchain.InsertRecursively` | src/blockchain.rs:136-147 | The recursive method terminates (the buffer loses a key before the loop) and its store and list are those of the worklist |
| `BlockStore.Blockchain.InsertChildren` | src/blockchain.rs:143-145 | The loop over the released children does the same as handing all of them to the worklist |
| `BlockStore.Blockchain.ProcessOneTransaction` | src/blockchain.rs:149-164 | Inputs removed, outputs added under a wrapping 32-bit counter; `Ledger.OutputsHeld` says under which outpoint each output is found |
| `BlockStore.Blockchain.ProcessAllTransactions` | src/blockchain.rs:166-171 | The block's transactions applied in order |
| `BlockStore.Blockchain.GetState` | src/blockchain.rs:172-174 | In a store in good order the cached state is the initial state with the whole history of the block replayed |
| `Chains.NewInv` | src/blockchain.rs:29-77 | The initial store keeps the invariant: parents stored, heights by one, work done, buffer keyed by unstored parents, states replayed, tip highest |
| `Chains.CoinsExactly` | src/blockchain.rs:42-67 | The new store's state holds exactly the outpoints 1 to 12 of a hash of 32 bytes of 50, every third of them for each of the three owners, with values of 32 bytes of 10 |
| `Chains.OwnersCoins` | src/blockchain.rs:43-55 | Four of the twelve belong to each owner |
| `Chains.CoinsTotal` | src/blockchain.rs:42-67 | In total they are worth twelve times the number of 32 bytes of 10 |
| `Chains.PowIsNumeric` | src/blockchain.rs:120-122 | A block is valid if and only if its hash, as a number, is at most its difficulty, and that is the store's |
| `Blocks.DifficultyValue` | src/block.rs:31-50 | The default difficulty is the number 256^31 |
| `Blocks.GenesisIsBlank` | src/block.rs:31-50 | The genesis block has zero parent, Merkle root, nonce and time, that difficulty, and no transactions |
| `Blocks.HashNamesHeader` | src/block.rs:58-71 | If two headers do not collide, their blocks have one hash if and only if they have one header, whatever their contents |
| `Blocks.ValueOfRepeated` | src/blockchain.rs:60-62 | What 32 equal bytes are worth as a number |
| `Chains.AdoptInv` | src/blockchain.rs:136-146 | Inserting a new valid block with a stored parent and releasing its children keeps it |
| `Chains.PlainInsertInv` | src/miner.rs:191 | The miner's plain `insert` keeps it if and only if nothing is buffered under the new hash |
| `Chains.AddOrphanInv` | src/blockchain.rs:130-132 | Buffering a valid block with an unstored parent keeps it, and the block waits |
| `Chains.AsWrittenOnlyGenesisChildren` | src/blockchain.rs:90-91 | The `insert` as it stands, which drops the state it computes, survives a sequence of insertions if and only if every block hangs directly on genesis |
| `Paths.LongestChainIsLongest` | src/blockchain.rs:101-109 | The list runs from genesis to the tip, parent-linked, without repetition, of length height + 1, and no parent-linked path from genesis in the store is longer |
| `Paths.PathToIsPath` | src/blockchain.rs:101-109 | Following parents from any stored block reaches genesis in as many steps as its height |
| `Paths.AlikeAt` | src/blockchain.rs:80-93 | Two stores in good order that share blocks under the hashes they share also share their heights, states and paths |
| `Paths.HeightIsPlace` | src/blockchain.rs:82-86 | On every parent-linked path from genesis a block's cached height is its place |
| `Paths.Reorganisation` | src/blockchain.rs:80-89 | An insertion leaves the longest-chain list as it is or makes it one longer; then old and new agree exactly up to the fork, and new is old plus the block if and only if the parent was the tip; ties keep the first tip |
| `Paths.PartedForGood` | src/blockchain.rs:101-109 | Two paths agree at a place if and only if it lies before their fork point |
| `Paths.PathStable` | src/blockchain.rs:80-93 | Paths to stored blocks do not change as the store grows |
| `Paths.StateIsReplay` | src/blockchain.rs:90-91 | The cached state of every stored block is the initial state with the transactions of the path from genesis replayed, across all forks |
| `Paths.ChainLedger` | src/blockchain.rs:149-174 | On every path whose transactions spend unspent outpoints, nothing is spent or created twice, the cached state is what was created and not spent, and values balance |
| `Ledger.TxEffect` | src/blockchain.rs:149-164 | A transaction removes exactly its inputs, adds exactly one outpoint per output and touches nothing else |
| `Ledger.OutputsHeld` | src/blockchain.rs:159-163 | After a transaction of at most 2^32 outputs, its i-th output is held under the index i and the transaction's hash, for every i |
| `Ledger.TotalOfOne` | src/blockchain.rs:149-164 | The total of a single output is its value as a number |
| `Ledger.TxValue` | src/blockchain.rs:149-164 | Total value changes by at most outputs minus inputs, and by exactly that when the outpoints are new |
| `Ledger.RemoveValue` | src/blockchain.rs:156-158 | Removing distinct unspent inputs lowers the total by exactly their value |
| `Ledger.AddValue` | src/blockchain.rs:159-163 | Adding outputs raises the total by at most their value, exactly when no outpoint is overwritten |
| `Ledger.ApplyConcat` | src/blockchain.rs:166-171 | Applying two lists of transactions in turn is applying their concatenation |
| `Histories.NothingTwice` | src/blockchain.rs:149-171 | Along a history of transactions with distinct hashes, each spending unspent outpoints and creating nothing from nothing, no outpoint is spent or created twice, none of the initial coins is recreated, and the unspent are those created or initial and not spent |
| `Histories.ValueBalance` | src/blockchain.rs:149-171 | Over a whole history the total value changes by outputs minus consumed inputs; it is less only if an existing outpoint was overwritten |
| `Histories.SupplyNeverGrows` | src/blockchain.rs:149-171 | If no transaction pays out more than it consumes, the total never grows |
| `Histories.OthersUntouched` | src/blockchain.rs:149-171 | An outpoint that the history neither spends nor creates keeps its output |
| `Histories.OutpointsAreNew` | src/blockchain.rs:159-163 | A transaction that spends unspent outpoints has not been executed before, so its outpoints are new |
| `Peer.Converse` | src/network/peer.rs:28-156 | For every queue of messages of 1 to 2^32 - 1 bytes, every answer of the operating system and every interleaving of queueing, writing, reading, would-block and hang-up: what was received is a prefix of what was dequeued, and all of it when no byte is on the way |
| `Peer.Connection.InOrder` | src/network/peer.rs:28-156 | The same as an invariant, and the reader never asks for zero bytes while messages of 1 to 2^32 - 1 bytes are sent, so that a zero-byte read means end of stream only |
| `Peer.Connection.DeliveredIff` | src/network/peer.rs:28-156 | Over a whole connection: once nothing is on the way, what was received is what was dequeued if and only if every message dequeued has 1 to 2^32 - 1 bytes |
| `Peer.Connection.Handle` | src/network/peer.rs:28-156 | Every event keeps the connection sound; the reader takes exactly what has arrived and fits; the writer stops only with nothing left to send or at a refusing socket |
| `Peer.Connection.Drain` | src/network/peer.rs:28-156 | From any sound state, whatever the socket has refused before, if it takes bytes from now on, one write and finitely many reads make the received messages exactly the queued ones |
| `Peer.Connection.Run` | src/network/peer.rs:28-156 | So does every schedule of events |
| `Peer.NothingLostOrReordered` | src/network/peer.rs:28-156 | Any prefix of the concatenated frames decodes to a prefix of the messages, all of them if it is everything |
| `Peer.ReadContext.constructor` | src/network/peer.rs:166-172 | The initial reader waits for a length |
| `Peer.ReadContext.Read` | src/network/peer.rs:29-72 | One resumed read: read_length, msg_length and buffer length stay ordered, and the reader's whole past agrees with the byte-wise automaton; errors and end of stream exactly when the socket says so |
| `Peer.ReadContext.FinishFrame` | src/network/peer.rs:42-65 | A full buffer becomes a length, growing the buffer if needed, or a message with exactly the collected bytes |
| `Peer.WriteContext.constructor` | src/network/peer.rs:175-183 | The initial writer has nothing to send |
| `Peer.WriteContext.Write` | src/network/peer.rs:97-155 | The loop terminates for a finite queue and every socket; bytes taken plus the rest of the current frame are the frames dequeued; each result is given exactly in its situation |
| `Peer.WriteContext.Pass` | src/network/peer.rs:98-154 | One round of the loop keeps this, and goes on only after lowering (queue length, frame part, bytes left) |
| `Peer.WriteContext.Load` | src/network/peer.rs:123-140 | The next message and its big-endian 32-bit length become the current frame |
| `Peer.WriteContext.NextMessage` | src/network/peer.rs:119-140 | A finished message is flushed, and the next one taken; complete or closed only with an empty queue |
| `Peer.WriteContext.Send` | src/network/peer.rs:107-115 | A short write moves the cursor by what was taken and keeps the accounting |
| `Framing.PrefixDecodes` | src/network/peer.rs:29-72 | However much of the frames has arrived, it yields a prefix of the messages and never a zero-byte read; all of it yields all of them |
| `Framing.FeedConcat` | src/network/peer.rs:29-72 | How the bytes are cut into reads does not matter |
| `Framing.RoundTripIff` | src/network/peer.rs:133-138 | A message survives framing and reading if and only if it has 1 to 2^32 - 1 bytes |
| `Framing.QueueRoundTripIff` | src/network/peer.rs:29-72 | A queue of messages survives framing and reading if and only if every message in it has 1 to 2^32 - 1 bytes |
| `Framing.MisfitIsMissed` | src/network/peer.rs:45-63 | A message that does not fit is never what is yielded in its place, whatever follows it |
| `Framing.EmptyMessageSilences` | src/network/peer.rs:45-53 | After an empty message nothing that follows is ever yielded |
| `Framing.FrameShape` | src/network/peer.rs:135-137 | The length on the wire is the message's length modulo 2^32 |
| `Bytes.ToBeThenFromBe` | src/network/peer.rs:136-137 | Big-endian digits read back give the number modulo 256^len |
| `Merkle.Completeness` | src/crypto/merkle.rs:68-116 | For every data and index the extracted proof of the datum is accepted |
| `Merkle.Soundness` | src/crypto/merkle.rs:96-116 | A proof of full length that is accepted at an index shows the datum there and is the extracted proof, or an explicit collision of `hash_children` is computed |
| `Merkle.RootBindsData` | src/crypto/merkle.rs:29-65 | Equal roots over equally many data mean equal leaf hashes, or an explicit collision |
| `Merkle.RootBindsRows` | src/crypto/merkle.rs:29-65 | Equal roots over data of any lengths: at every position of the shallower tree's padded row, its leaf hash is the hash of the other tree's node at that place, or an explicit collision; in trees of one depth the padded rows are the same |
| `Merkle.PaddingGivesRoot` | src/crypto/merkle.rs:29-65 | Conversely, trees of one depth with the same padded row are the same tree |
| `Merkle.RootOfRow` | src/crypto/merkle.rs:18-61 | The root is the usual recursive hash of the padded leaf row, left before right |
| `Merkle.SmallRoots` | src/crypto/merkle.rs:29-61 | The roots of one, two and three data written out; the third of three is its own neighbour |
| `Merkle.RepeatedLastSameRoot` | src/crypto/merkle.rs:42-44 | Where the root does not bind: an odd number of data, and the same with the last one repeated, have one root |
| `Merkle.AcceptedExactly` | src/crypto/merkle.rs:96-116 | For every data, datum, index and proof of every length: cut off what the proof has in excess of the depth and fold the datum with it; accepted if, and up to an explicit collision only if, the rest lists the siblings on the walk and the result is the hash of the node reached, which is a leaf, that of the datum which padding put there, unless the proof is too short |
| `Merkle.ShortProofs` | src/crypto/merkle.rs:96-116 | `verify` looks at no length: a shorter proof is accepted for the hash of the inner node where it stops and, up to collisions, for nothing else |
| `Merkle.LongProofs` | src/crypto/merkle.rs:96-116 | Nor does it refuse a longer one: if two digests hash to a datum's hash, each of them is accepted with the other in front of the datum's proof |
| `Merkle.TreeShape` | src/crypto/merkle.rs:29-61 | The tree is perfect, inner hashes are those of their children, 2^(levels-2) < n <= 2^(levels-1) for n > 1, and the leaf row starts with the data and goes on with the copies that padding made |
| `Merkle.PaddingIsRecursive` | src/crypto/merkle.rs:40-56 | The bottom-up construction with a repeated last node is the top-down one in which an empty right half is a copy of the left |
| `Merkle.New` | src/crypto/merkle.rs:29-61 | The loops, taking nodes out of the level as they go, build that tree; no take finds an empty slot |
| `Merkle.NextLevel` | src/crypto/merkle.rs:41-55 | One pass of the loop builds the next level |
| `Merkle.JoinPairs` | src/crypto/merkle.rs:47-53 | Neighbours are joined in pairs, each taken once |
| `Merkle.DuplicateLastNode` | src/crypto/merkle.rs:24-26 | The last node is appended again |
| `Merkle.LeafLevel` | src/crypto/merkle.rs:33-36 | One childless node per datum, with its hash |
| `Merkle.BinaryIndex` | src/crypto/merkle.rs:97-102 | The low bits of the index, lowest first |
| `Merkle.Proof` | src/crypto/merkle.rs:68-91 | The walk from the root by the reversed bits collects the sibling hashes, deepest first; no child is missing |
| `Merkle.Verify` | src/crypto/merkle.rs:96-116 | Accepts if and only if folding the proof by the index bits gives the root |
| `MerkleSpec.BuildIsTopDown` | src/crypto/merkle.rs:40-56 | Bottom-up and top-down construction agree on every level |
| `MerkleSpec.BuildDescend` | src/crypto/merkle.rs:40-56 | Walking down by the bits of i reaches the subtree that padding put at position i |
| `MerkleSpec.FoldSiblings` | src/crypto/merkle.rs:68-116 | Folding any node of a perfect tree with its siblings gives the root |
| `MerkleSpec.FoldSound` | src/crypto/merkle.rs:96-116 | What folds to the root is the node on the walk with the siblings on the way, or the search finds a collision |
| `MerkleSpec.FoldCut` | src/crypto/merkle.rs:104-114 | Folding a proof is folding its first part and then the rest with the index shifted |
| `MerkleSpec.FindCollision` | src/crypto/merkle.rs:18-21 | Whatever the search returns is a collision: different pairs, one hash |
| `Hash.CmpIsNumeric` | src/crypto/hash.rs:90-102 | Comparing two 128-bit halves in turn is comparing the 256-bit big-endian numbers: less, equal and greater exactly when they are |
| `Hash.LeqIsNumeric` | src/crypto/hash.rs:104-108 | `a <= b` for digests if and only if it holds of the two 256-bit numbers |
| `Hash.CmpIsLexicographic` | src/crypto/hash.rs:90-102 | It is also byte-lexicographic comparison |
| `Hash.CmpIsTotalOrder` | src/crypto/hash.rs:90-108 | It is a total order, and `Equal` means the same 32 bytes |

## Left out

- Heights and the mined-block counter as 64-bit numbers, the wire's `usize`: natural numbers here. The 32-bit output counter and the 32-bit length prefix are modelled with their wrap-around.
- The operating system: what a read, write or flush returns is a parameter (`Peer.Incoming`, `Peer.Outgoing`). `BufReader` and `BufWriter` are taken together with the socket as a first-in first-out sink of bytes; that buffered bytes are flushed later is not modelled.
- src/network/server.rs: the event loop and polling. In `Network` a link is a set of messages in flight, delivered in any order, and a broadcast is one message per node linked at the time of the handler; in the source it is queued (src/network/server.rs:134-139) and goes to the peers connected when the server gets to it, so that a link accepted in between receives it there and not here. Links are made and never closed; a connection that fails is a loss of its messages.
- src/network/message.rs serialisation. A serialised message is a sequence of bytes; that it is neither empty nor 2^32 bytes long is a condition of the delivery results, and what happens otherwise is proved (`Framing.QueueRoundTripIff`).
- What the worker's transaction arms, the pool's other operations, the pings and src/transaction_generator.rs compute. In `Network` they appear only as messages that may be sent at any time and change no store. Value results rest on their own preconditions, not on the worker's check, which compares a transaction hash with a value.
- `hash_to_origin`, delays, clocks, block counts and sizes, logs. A block from the future would make the delay computation underflow; that is not part of this model.
- The miner's control channel and sleeping, and the choice of nonce and timestamp, which are parameters. That a mined hash is not yet stored anywhere is a condition of the `Mine` step of `Network`.
- Thread interleaving below the locks, and deadlock freedom: the transaction generator takes the two locks in the opposite order of the miner.
- Key pairs, signatures, addresses, the HTTP interface and the command line.
- Deliveries.OrderIndependence: says nothing about which tip, because that does depend on the order, exactly as `Tips.TipsAreTheHighest` says.
- Agreement.QuiescentAgreement: only without losses of messages about blocks between the two nodes, because nothing is ever sent twice.
- Merkle.Soundness: only for proofs of full length; `Merkle.AcceptedExactly` has the others.
- Merkle.New: requires data, as the source asserts.
- Quiescence.FallsSilent: is about deliveries only, so that it does not count what the transaction arms would write on delivery of a `Transactions` message; `Quiescence.ComesToRest` and `Quiescence.DeliveriesLower` hold whatever they write.
- Answers.NewIsAnswered: not if a waiting block with another header has the same hash, because then it can fail (`Answers.RivalSilences`); `Answers.TakenIffUnstored` has the exact condition.
- Mining.MinesAChain: only while the hashes mined are new and differ, because `insert` overwrites a stored block that has the same hash.
