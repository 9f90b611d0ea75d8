# ddhcpd: a verified model

ddhcpd is a distributed DHCP server. An IPv4 range is cut into equal blocks; nodes compete for
the blocks over multicast (INQUIRE, UPDATECLAIM), and each node leases the addresses of the
blocks it owns. This project models the consensus about blocks, the house keeping that
claims, refreshes and drops them, the lease allocator, the wire formats and the intrusive list
below all of it, and proves what they promise. `dafny verify dfyconfig.toml` checks everything.

## Structure

* Types, LeaseTable, BlockSpec, ConsensusSpec, DhcpSpec and HouseSpec describe the state of one
  node as a value and every operation as a function on it.
* Store, ClaimRing, LeaseOps, BlockOps, ClaimOps, ConsensusOps, DhcpOps and HouseOps are the same
  operations as the C code has them: a class `Daemon` with an array of blocks, nullable arrays of
  leases, a ring of list.h as the claim list, and loops that update them in place. Each method
  is proved to leave exactly the state that its specification function describes.
* ClaimProofs, NodeProofs, OwnershipProofs, Takeover, Seniority, Progress, Bystander, RefreshProofs,
  HouseProofs, Shortage, Upkeep, DiscoverProofs, RequestProofs, Renewal, Releasing, Forwarding and
  LeaseProofs prove invariants and results about one node, most of them over all runs.
* HandlerProofs, Network, Convergence, Termination, Healing, RecordedOwner and Election are about any
  number of nodes and the packets under way between them; OwnerTiming, PeerTiming, LearningBound,
  Expiry, Schedule, Uptime and Newcomer are about time.
* Bytes, PacketCodec, Multicast, DhcpCodec, DhcpCodecOps and WireLayout are the wire formats; Address,
  Netmask and OptionStore the address plan; IntrusiveList the ring of list.h on real nodes.

The main results:

* Conflicts end with one owner. For any number of nodes with distinct ids, any set of owners of a
  block and any order of delivery, re-announcements included, deliveries end
  (`Termination.DeliveriesEnd`) and the highest owner alone owns the block
  (`Convergence.HighestOwnerPrevails`, `Healing.PartitionHeals`). After one more round all nodes name
  it as the owner (`RecordedOwner.SecondRoundNamesWinner`). Inquiries elect the highest claimant
  (`Convergence.HighestClaimantWins`, `Election.ElectionHolds`).
* In time, nothing expires, at the owner (`Uptime.OwnedNeverExpiresFromStart`) or on record
  (`PeerTiming.RecordNeverExpires`), and the learning phase is sound under two bounds that are
  exact (`PeerTiming.LearningIsSound`, `LearningBound.LearningExactly`), as the event loop has it
  (`Newcomer.NewcomerHarmless`).
* A block is owned only after three inquiries (`OwnershipProofs.ThreeInquiriesBeforeOwning`), and
  taken exactly when its counter says so (`Takeover.HouseKeepingTakesExactly`). A quiet node gets
  what it needs in four house keepings exactly when three come in time (`Progress.FourKeepingsExactly`).
* A block is given up exactly when it is spare and was marked for long enough (`Upkeep.OwnedBlockAfter`), the
  block that serves is the one held longest and the one given up the one held shortest
  (`Seniority.OffersFromOldest`, `Seniority.GivesUpYoungest`).
* A granted lease lasts and is exclusive (`LeaseProofs.GrantedLeaseLasts`,
  `LeaseProofs.LeaseIsExclusive`), and an offer is honoured (`DiscoverProofs.OfferIsHonoured`).
* The formats round-trip both ways, and each loop over a buffer computes its format.

## Where the code differs from its intent

The model follows the code. Where the code does not keep a promise, a lemma says exactly when it does.

* block.c:140 looks at the counter before the state: a block lost to another node after the third
  inquiry is taken all the same (`Takeover.LostBlockIsTaken`). Two owners at once are therefore
  possible, exactly when `Progress.BothOwnExactly` says; with slow packets all nodes may own
  everything (`Progress.AllOwnEverything`). What is proved across nodes is that this does not stay.
* A block so taken keeps the timeout of the claim it was lost to, which may lie far in the future. The house
  keeping that takes it announces it if and only if a block of its group of 32 is below the refresh
  threshold (`Takeover.TakenAnnouncedExactly`), and so does every later refresh
  (`RefreshProofs.AnnouncedExactly`); an inquiry provokes an announcement at any time
  (`HandlerProofs.HandleEffect`). How far the claim of an owner reaches beyond the time a newcomer
  joins is the `lag` of `PeerTiming.LearningIsSound`, and `LearningBound.LearningExactly` says which
  lags are too long.
* block.c:168-170 sets the timeout of a selected block once, and inquiries do not extend it. A node whose third
  house keeping comes later than a tentative timeout after the one that selected starts over
  (`Progress.FourKeepingsExactly`); the timer of main.c:537 asks for one every half of it.
* block.c:475-480 frees a block that a peer still claims once a cached lease table has no live lease
  (`PeerTiming.LiveRecordFreed`). The timing results for peers and newcomers are about runs in which a
  table of the block that the peer caches has one whenever the peer keeps house.
* block.c:262-272 never advances its pointer. `RequestProofs.NumOwnedRight` says when the result is right
  all the same, and `RequestProofs.RefusalIsRight` when the request handler, which asks whether
  any block is owned, decides as intended.
* dhcp.c:283-303 does not check that the cached lease table is still there. `Forwarding.AckFinds` says
  exactly when it is after one house keeping, and by `Forwarding.AckFindsAfterRun` it is after any
  run in which no house keeping drops it; where it is not, the outcome in the model is `NoTable`.
* dhcp_packet.c counts options without PAD and stores them with PAD, through an 8-bit index
  (`DhcpCodec.PassesAgree`). Where the passes disagree the model's result is `Corrupt`.
* docs/algorithm.md:40-45 says that listening for a block timeout is enough. It is if and only if the
  refresh gap plus the house keeping interval is at most the block timeout, and with the lag added
  below two block timeouts (`LearningBound.LearningExactly`, with the proviso on cached tables). An
  owner that announces in the very second of the join has a lag of a whole block timeout, so that
  for it the first bound must hold strictly (`LearningBound.TieNeedsTheSecond`).
* dhcp.c:267-273, a renewal forwarded by a peer, moves the lease end of a slot in any state and is
  acknowledged. The slot is the client's afterwards if and only if it was before
  (`Renewal.RenewalGrantsNothing`), and then until the new lease end (`Renewal.RenewedLeaseLasts`); an
  AVAILABLE slot can be renewed and is offered to the next client (`Renewal.RenewedIsOffered`).
* A record of a claim (ddhcp.c:126-131) names the claimant heard last, whichever owner that is
  (`RecordedOwner.AnyOwnerMayBeNamed`), so after a conflict renewals may be forwarded to a loser. It
  names the winner if and only if the winner was heard last (`RecordedOwner.NamesWinnerExactly`),
  and every node names it after its next refresh (`RecordedOwner.SoleOwnerIsNamed`).

## Assumptions

* Memory allocation succeeds. Node ids are given and distinct. One clock reading serves a whole
  operation, and `rand` and the outcome of each send are parameters: send number k succeeds as
  a function of k chooses.
* Multicast is delivered to every other node and not to the sender; packets of the network results
  are delivered once each, in any order. In the timing results they arrive at once.
* Block sizes from 1 to 255 are allowed, not only powers of two; with at most 2^24 addresses in use
  the 32-bit casts in main.c:70-71 lose nothing.
* Node ids are the big-endian numbers that `memcmp` compares (`Bytes.MemcmpIsNumeric`); IPv6 sender
  addresses are opaque numbers.
* A block whose timeout is set to 0 is stale, which holds for every clock after 1970.

## Model

| member | source | states |
|---|---|---|
| Store.Daemon.constructor | ddhcp.c:9-43 | a fresh daemon has every block FREE at its own index with subnet prefix + index * block_size, no lease table and an empty claim list, a ring of list.h, and satisfies every invariant |
| NodeProofs.InitialInv | ddhcp.c:28-40 | the initial state satisfies the table, claim list and history invariants, and every block is FREE, unmarked, of no node and without inquiries |
| NodeProofs.Step | main.c:546-562 | whatever happens to a node (house keeping, a multicast message, a client's discover, request or release, a peer's forwarded renewal or release, a peer's acknowledgement of a renewal), the table invariant, the claim list invariant and the three-inquiries history are kept |
| NodeProofs.Run | main.c:498-564 | the state after any sequence of actions from a fresh start satisfies all of these invariants: index and subnet of each block, a table of subnet_len entries for each owned block, and the claim list invariant |
| ClaimProofs.BlockClaimKeepsInv | block.c:130-236 | block_claim keeps the invariants: no duplicates on the claim list, its length is claiming_blocks_amount, every CLAIMING block is on it, no listed counter exceeds three, and the 8-bit amount does not wrap while at most 255 blocks are requested |
| ClaimProofs.RefreshKeepsInv | block.c:378-460 | a refresh keeps all invariants |
| ClaimProofs.EachOwnedAfterThree | block.c:137-172 | at every position of the trace where a block was taken, exactly three successful inquiries had listed it since it was last selected |
| NodeProofs.HandleKeepsInv | ddhcp.c:100-184 | both multicast handlers keep the invariants, for any packet and after any number of its entries |
| NodeProofs.TimeoutsKeepInv | block.c:462-485 | block_check_timeouts keeps the invariants |
| NodeProofs.DropKeepsNode | block.c:310-354 | block_drop_unused keeps the invariants |
| NodeProofs.DiscoverKeepsInv | dhcp.c:192-253 | an offer keeps the invariants |
| NodeProofs.RequestKeepsInv | dhcp.c:305-452 | a request, answered or forwarded, keeps the invariants |
| NodeProofs.ReleaseKeepsInv | dhcp.c:454-487 | a release, by a client or forwarded by a peer, keeps the invariants |
| NodeProofs.RemoteAckKeepsInv | dhcp.c:283-303 | a peer's acknowledgement of a forwarded renewal keeps the invariants, whether or not it finds a lease table |
| NodeProofs.HouseKeepingKeepsInv | main.c:65-92 | house keeping keeps the invariants, for all send outcomes and random numbers |
| OwnershipProofs.StepLogged | block.c:137-157 | no action other than house keeping makes a node own a block, and every block that house keeping gains is logged as taken by block_claim |
| OwnershipProofs.ThreeInquiriesBeforeOwning | block.c:137-157 | from any state that satisfies the invariants, a block that becomes owned does so in house keeping, after exactly three successful inquiries that listed it since it was last selected from the FREE blocks |
| Takeover.SettleOwns | block.c:137-157 | the first pass of block_claim owns a listed block if and only if its counter is three |
| Takeover.ClaimTakesExactly | block.c:130-236 | block_claim makes a node own a block it did not own if and only if the block is listed and its counter is three, whatever the block's state |
| Takeover.HouseKeepingTakesExactly | main.c:65-92 | house keeping takes a block if and only if the block is listed with three inquiries and the free leases after expiry are below the spare target; the state and the recorded owner of the block do not matter |
| Seniority.TakenIsDated | block.c:42-57 | a block that house keeping takes has its time as first_claimed and the node's id, and the cached table, or one with every lease available |
| Seniority.DateStays | block.c:54 | no action changes first_claimed of a block that the node keeps |
| Seniority.DateIsTime | block.c:54 | over every run from a fresh start first_claimed of an owned block is the time of the house keeping in which the node came by it |
| Takeover.LostBlockIsTaken | block.c:140-152 | ownership is not exclusive: after the third inquiry a claim by another node is recorded, and house keeping still takes the block exactly when it needs blocks |
| Takeover.TakenAnnouncedExactly | block.c:378-441 | the house keeping that takes a block announces it, and renews its timeout, if and only if a block of its group of 32 is below the refresh threshold after the first pass; otherwise it keeps the timeout of the claim it was lost to |
| Takeover.OwnedAfterClaiming | block.c:137-157 | the blocks owned when a house keeping that claims comes to its refresh are those owned before that have not timed out and the due ones, each with the timeout it had |
| Takeover.TakenSilently | block.c:140-152 | in particular, if neither an owned nor a due block is below the refresh threshold, the house keeping that takes a block changes nothing in its refresh, and the block keeps the timeout of the claim it was lost to, however far ahead |
| Takeover.ClaimsEnough | block.c:160-227 | after block_claim every listed block is CLAIMING, those claimed before come first, and they are as many as were requested less those just taken, unless no block is FREE |
| Progress.FourKeepingsExactly | block.c:130-236 | a fresh node that hears nothing and whose sends succeed owns after four house keepings as many blocks as it needs, or all, if and only if the second and third come within tentative_timeout of the first; otherwise it has started over and owns none |
| Progress.BothOwnExactly | block.c:140-152 | if one node owns a block, another node's house keeping makes both own it if and only if that node lists it with three inquiries and has too few leases |
| Progress.AllOwnEverything | block.c:130-236 | in a network of any number of nodes that need all blocks and keep house four times, promptly, before any packet arrives, every node owns every block at once |
| HandlerProofs.EntryEffect | ddhcp.c:109-183 | one entry of a packet changes the state of the block it names as the protocol says and the state of no other block; an owner provoked by it announces the block at once, and otherwise nothing is sent |
| HandlerProofs.HandleEffect | ddhcp.c:100-184 | the block states after a whole packet: each listed block ends in its protocol state, unlisted blocks keep theirs, only claims of owned blocks are sent, no block is gained and every provoked block is announced |
| HandlerProofs.PacketExact | ddhcp.c:126-182 | the whole record that a packet leaves of a block the node does not defend: state, timeout, node id and owner address are those of the last entry that lists it; a block the node is claiming is untouched by inquiries from ids that are not higher, and so is an unlisted block |
| HandlerProofs.HigherClaimIsSilent | ddhcp.c:117-131 | a claim from an id that is not lower provokes no answer |
| HandlerProofs.HandleSendsFew | ddhcp.c:122-123 | one packet causes at most as many sends as it has entries times the number of blocks |
| Network.InFlightAfter | ddhcp.c:66-98 | what is under way after a delivery: the other packets, and one copy for each other node of every packet the receiver sent |
| Convergence.PrevailsStays | ddhcp.c:100-142 | every delivery keeps the conflict invariant: the highest owner keeps the block and each other node has settled or will still hear from it |
| Convergence.HighestOwnerPrevails | ddhcp.c:100-184 | for any number of nodes with distinct ids and any order of delivery, re-announcements included: when nothing is under way the highest owner owns the block and no other node owns or claims it, and every other node has it CLAIMED if only claims were under way |
| Convergence.LeadsStays | ddhcp.c:144-184 | every delivery keeps the election invariant: nobody owns the block, the highest claimant still claims and each other node has yielded or will |
| Convergence.HighestClaimantWins | ddhcp.c:144-184 | when all inquiries are delivered, in any order, the highest claimant alone is CLAIMING and every other node is TENTATIVE |
| Termination.AnsweredIsLower | ddhcp.c:117-123 | a claim that is answered at all comes from a lower id than the node that answers |
| Termination.MeasureDecreases | ddhcp.c:100-184 | every delivery lowers a measure on the ranks of the senders, although it may put new packets under way |
| Termination.DeliveriesEnd | ddhcp.c:100-184 | no schedule of deliveries is longer than the measure at its start |
| Termination.CanDrain | ddhcp.c:66-98 | from every state some schedule delivers everything |
| Healing.TopOwnerPrevails | block.c:378-460 | one round of refreshes by all nodes establishes the conflict invariant for each block that some owner of it, the highest or not, announces |
| Healing.PartitionHeals | ddhcp.c:100-142 | whatever owners there are: when every node refreshes its claims and all packets are delivered in any order, deliveries end, each owned block that some owner announces, being due or in a group with a due block, is left with its highest owner as the only one and CLAIMED everywhere else, and no block without owners gains one |
| RecordedOwner.NamesWinnerExactly | ddhcp.c:126-131 | after a round of refreshes in which some owner of a contested block announces it, every other node has on record the sender of the last claim it has heard, so it names the winner if and only if that was the winner |
| RecordedOwner.AnyOwnerMayBeNamed | ddhcp.c:126-131 | in every network and for every owner of a block that announces it, winner or loser: some order of delivery resolves the conflict and leaves a given node without blocks with that owner's id and address on record |
| RecordedOwner.SoleOwnerIsNamed | ddhcp.c:126-131 | when the only owner of a block announces it in its refresh and everything is delivered in any order, every other node has the owner's id and address on record |
| RecordedOwner.SecondRoundNamesWinner | ddhcp.c:100-142 | for a block that some owner announces, whatever the owners and the order of delivery: after one round of refreshes the highest owner is alone, and after a second one in which it announces the block every other node names it |
| Election.ElectionHolds | ddhcp.c:144-184 | all claimants send their inquiries and these arrive in any order: a block that nobody owns is left CLAIMING at its highest claimant alone and TENTATIVE everywhere else |
| Election.OwnerHolds | ddhcp.c:156-161 | a single owner keeps its block through such a round, and nobody else owns or claims it afterwards |
| Election.InquiriesEnd | ddhcp.c:144-184 | such a round ends, whatever the order of delivery |
| RefreshProofs.RefreshSteps | block.c:356-460 | a refresh only sends claims that list 1 to 32 owned blocks, and moves the timeout of exactly the blocks announced by a successful send, to now + block_timeout; nothing else changes |
| RefreshProofs.Groups | block.c:404-441 | the owned blocks in groups of 32, the last one shorter, that together are the owned blocks in index order |
| RefreshProofs.RefreshPackets | block.c:378-460 | the packets sent are exactly the groups holding a stale block, in index order; nothing is sent exactly when no owned block is stale, and then nothing changes |
| RefreshProofs.RefreshCovers | block.c:383-460 | with lossless sends every stale block is announced, and no owned block is below the refresh threshold afterwards |
| RefreshProofs.StaleExactly | block.c:383-392 | an owned block is due for a refresh exactly when less than block_timeout - block_timeout / refresh_factor seconds of it are left, the quotient rounded down |
| RefreshProofs.AnnouncedExactly | block.c:404-441 | with lossless sends a refresh announces a block if and only if the node owns it and some block of its group of 32 owned blocks, itself or another, is below the refresh threshold |
| HouseProofs.CDivTruncates | main.c:71 | C division truncates toward zero |
| HouseProofs.NeededIsLeast | main.c:69-82 | the drop branch runs exactly when the free leases exceed the spare target by at least a block, the claim branch exactly below the target, and the number of blocks requested is the least that reaches it |
| HouseProofs.DropLeavesSpare | block.c:310-354 | a dropped block had every lease available, the free leases shrink by one block, and a drop decided by house keeping leaves at least the spare target |
| HouseProofs.DropsExactly | block.c:310-354 | block_drop_unused gives up a block exactly when it is the youngest owned block with every lease available and was marked at least needless_timeout ago; an unmarked one is marked now and every other block stays |
| Upkeep.OwnedBlockAfter | main.c:77-88 | house keeping gives up a block that is owned after expiry if and only if the free leases are at least spare target + block size, it is the youngest owned block with every lease available, and it was marked at least needless_timeout ago; it then is FREE, of no node, unmarked and without a table; every other owned block keeps all but its mark and its timeout: with leases to spare the youngest unused one is marked now unless it is already, and with fewer all marks are cleared if the flag is set |
| Upkeep.MarksAfter | main.c:77-82 | with leases to spare the flag says whether a mark was made, or a block given up, or neither; with fewer all marks and the flag are cleared if the flag was set, and the flag is off |
| Upkeep.Retired | block.c:310-354 | block_drop_unused on every block and table: the youngest unused block is given up when its mark is old enough, marked now when it has none, and nothing else changes |
| Seniority.GivesUpYoungest | block.c:310-354 | over every run from a fresh start the block given up has every lease available, and the node took no other such block later |
| HouseProofs.NumFreeUpdate | block.c:238-260 | replacing one block and its table changes the sum of free leases by the difference of the two shares |
| Shortage.SettleGains | block.c:137-157 | the first pass of block_claim adds, for each listed block with three inquiries, the available leases of its cached table, or a whole block if it has none |
| Shortage.HouseKeepingGains | main.c:65-92 | house keeping that is short of leases changes the number of free leases by exactly what the blocks it takes bring |
| Shortage.ClaimingSettles | main.c:65-92 | if no block it takes has a cached table, each block taken is one block less needed afterwards; so when as many were due as were needed, the next decision is neither to claim nor to drop |
| BlockSpec.FindsYoungest | block.c:310-354 | the drop candidate is an owned block with every lease available, none of which was claimed later; none is found exactly when there is none |
| BlockSpec.FindsOldest | block.c:274-308 | the block found is the earliest claimed owned block with a free lease, the first among equals; none is found exactly when no owned block has one |
| BlockSpec.FindFree | block.c:76-128 | a FREE block is found exactly when there is one |
| BlockSpec.FindsEach | block.c:95-117 | every FREE block is found, for exactly the random numbers that are its rank among the FREE blocks modulo their number |
| BlockSpec.IndicesAscend | block.c:84-91 | the blocks collected by state are in index order without repetition |
| OwnerTiming.StepFresh | block.c:378-460 | every action keeps each owned block at or above the refresh threshold of the last house keeping |
| OwnerTiming.OwnedNeverExpires | block.c:462-471 | with lossless sends and house keeping at least every h seconds, h at most block_timeout less block_timeout / refresh_factor, no owned block ever times out at its owner |
| OwnerTiming.StepAbout | block.c:356-376 | during a step everything an owner sends about its block is a claim with a full block timeout, and its own timeout moves to a full block timeout exactly when it announced the block |
| PeerTiming.PairInvHolds | ddhcp.c:126-131 | over all interleavings of an owner, a peer and multicasts of any other nodes, inquiries and claims included, the peer's record runs out when the owner's own timeout does and the peer is never about to take the block, as long as the block stays owned |
| PeerTiming.RecordNeverExpires | block.c:462-471 | a recorded claim never times out at a peer while the owner keeps the block and keeps house in time, whatever other nodes multicast and whether or not the peer once inquired the block, provided a table of it that the peer caches has a live lease whenever the peer keeps house |
| PeerTiming.RecordSurvivesExactly | main.c:65-92 | a record that does not lapse survives the peer's house keeping if and only if the block is not listed with three inquiries or the free leases suffice |
| PeerTiming.LiveRecordFreed | block.c:474-482 | a claim that has not run out is dropped exactly when the peer caches leases of the block and none of them is live |
| PeerTiming.LearningIsSound | main.c:498-564 | a peer that listens for block_timeout before its first house keeping never selects, claims or owns a block that another node owns throughout, whatever third nodes multicast about it, provided a table of it that the peer caches has a live lease whenever the peer keeps house, refresh gap + h is at most block_timeout and refresh gap + h + lag is below two of them, where lag is how far the owner's claim reaches beyond the join |
| LearningBound.LearningExactly | main.c:498-564 | these two bounds are exact: over runs in which a table of the block that the peer caches has a live lease whenever the peer keeps house, and for every block timeout, refresh factor, h of at least a second, time of joining and lag that leaves the owner in time, newcomers are harmless if and only if both hold |
| LearningBound.TieNeedsTheSecond | main.c:498-564 | over the same runs, with refresh gap + h equal to block_timeout, learning is sound when the owner announced before the newcomer joined, and not when it announced in the second of the join |
| Newcomer.NewcomerHarmless | main.c:498-564 | a daemon driven by the turns of its event loop, with a learning phase, keeps no house before start + block_timeout and so, under the same bounds and proviso on cached tables, never selects, claims or owns a block that another node owns throughout |
| Schedule.LearningComesFirst | main.c:498-564 | with the learning phase on, no house keeping runs before start + block_timeout, whatever the handlers ask for |
| Schedule.HouseKeptInTime | main.c:527-541 | from its first house keeping on, a node keeps house at least every tentative_timeout / 2 plus the time between two turns of the loop |
| Schedule.FirstKeeping | main.c:498-541 | with a learning phase the first house keeping is at the first turn not before start + block_timeout, whatever the handlers ask for, and without one at the first turn |
| Schedule.KeepsApart | main.c:527-541 | over turns in which no handler asks, house is never kept twice within tentative_timeout / 2 |
| Schedule.KeepingIsWarranted | main.c:527-562 | every house keeping is asked for in its own turn outside the learning phase, or comes at least tentative_timeout / 2 after the last one that was due |
| Schedule.AskedIsKept | main.c:543-562 | a turn in which a handler asks keeps house, unless the node is learning |
| Uptime.OwnedNeverExpiresFromStart | main.c:498-564 | from the start of the daemon, with or without a learning phase and whatever it hears and serves, no block it owns ever times out, if tentative_timeout / 2, the time between turns and the time spent in one are together at most block_timeout less the refresh gap and sends arrive |
| Schedule.EventLoop.TakeTurn | main.c:527-562 | one turn of the loop decides about house keeping and moves the timers as the specification says |
| Expiry.LapsesExactly | block.c:462-485 | a block becomes FREE exactly when it timed out, or is not ours and has a cached table without live leases; otherwise it keeps its state and owner, and counter and place never change |
| Expiry.BlockAfterExpiry | block.c:462-485 | the whole block after block_check_timeouts: what lapses or gives up its table becomes FREE and of no node, unless it is BLOCKED, what gives up its table loses its needless mark, and all else stays |
| Expiry.LeasesLapse | block.c:473-482 | a table is dropped exactly in these cases; in one that stays exactly the leases past their end become available, with a cleared record, and the others are untouched |
| Expiry.ClaimLasts | ddhcp.c:126-131 | a claim that is heard and not refreshed is on record, with its sender, exactly as long as the timeout it names and as long as no cached table of the block has run out of live leases; then the block is FREE |
| Expiry.InterestLasts | ddhcp.c:167-182 | a block that another node inquired is TENTATIVE exactly for the tentative timeout and as long as no cached table of it has run out of live leases; then it is FREE |
| LeaseTable.CountsAddUp | dhcp.c:612-640 | free, offered and leased entries of a table add up to its length |
| LeaseTable.CountZero | dhcp.c:598-656 | a table has a lease in a state exactly when the search for one finds it |
| LeaseTable.CountUpdate | dhcp.c:612-640 | rewriting one slot changes a count by the difference of the two states |
| LeaseProofs.StepKeepsLease | dhcp.c:192-454 | no action takes a live lease away: while the block stays owned and the lease has not run out, only its client's release or a forwarded release ends it, and its end never moves back |
| LeaseProofs.LeaseIsExclusive | dhcp.c:387-398 | over every run in which the clock does not go back, a leased slot stays with its client until its lease end passes |
| LeaseProofs.AckGrants | dhcp.c:305-452 | an acknowledgement names the address of the slot it grants; the slot was not leased to anyone else, is then leased to the requesting client until now + lease time + 10, and nothing else changes |
| LeaseProofs.GrantedLeaseLasts | dhcp.c:559-574 | a granted lease stays with its client for at least lease time + 10 seconds |
| Releasing.ReleaseVacates | dhcp.c:454-487 | a client's release makes the slot of an owned block AVAILABLE with a cleared record exactly when it is recorded for that client, with one more lease free unless it was already, and changes nothing else; in every other case it changes nothing |
| Releasing.ForwardedReleaseVacates | dhcp.c:658-671 | a forwarded release does the same to any slot of an owned block, whoever it was recorded for, and nothing for any other address |
| Renewal.RenewalGrantsNothing | dhcp.c:255-281 | a forwarded renewal of an address in an owned block is acknowledged whoever the slot belongs to; afterwards the slot is leased to a client if and only if it was before, and a request for the address is acknowledged to exactly the clients that could have had it before |
| Renewal.RenewalAnswers | dhcp.c:255-281 | the answer is 0, 1 or 2 exactly when the address lies in an owned block, in one that is not owned, or in none; only in the first case anything changes, the lease end of the slot |
| Renewal.RenewedLeaseLasts | dhcp.c:267-273 | a lease that was the client's before the renewal stays its own until the new lease end, over every run in which the node keeps the block and nobody entitled releases the slot |
| Renewal.OfferUnmoved | dhcp.c:267-273 | the next offer after a forwarded renewal is the one that would have been made without it |
| Renewal.RenewedIsOffered | dhcp.c:267-273 | in every node with a free lease there is an AVAILABLE slot whose renewal is acknowledged and which the next client is offered all the same, if the range covers at most 2^32 addresses |
| RequestProofs.RequestDecides | dhcp.c:305-452 | on the fields of the request: the requested address decides when there is one, whatever ciaddr is, else ciaddr unless it is 0; the request is acknowledged for that address exactly when it lies in an owned block and its slot is available, recorded for the client or offered in this transaction, forwarded exactly when a peer claims the block, not answered at all exactly when the block is neither owned nor claimed and block 0 is not owned, and refused otherwise; with neither address, acknowledged exactly when the client holds an offer of this transaction, else refused |
| RequestProofs.HolderRenews | dhcp.c:319-398 | a client for which a slot is recorded and which names its address in ciaddr alone is acknowledged for it, and the slot is leased to it until lease time + 10 seconds from now |
| RequestProofs.AckDecides | dhcp.c:283-303 | a peer's acknowledgement is about the requested address, else ciaddr: it finds nothing exactly when that is in no block or an owned one, no table exactly when the peer's block has none, and else leases the slot and nothing more |
| RequestProofs.NumOwnedRight | block.c:262-272 | block_num_owned is the number of owned blocks exactly when all are owned or none, and tells some from none exactly when block 0 is owned or no block is |
| RequestProofs.RefusalIsRight | dhcp.c:399-409 | a request for a block that is neither owned nor claimed is refused if and only if the node owns some block, exactly when it owns block 0 or no block |
| RequestProofs.AnswerLeaves | dhcp.c:329-409 | a refusal or silence changes nothing; a forwarded request changes only the cached table of the peer's block, where the slot is remembered as offered to the client |
| Forwarding.KeepingTables | block.c:462-485 | house keeping that does not take a claimed block drops its cached table exactly when the block lapses, and otherwise only expires leases in it |
| Forwarding.AckFinds | dhcp.c:283-303 | after a renewal was forwarded and the node has kept house once, the acknowledgement finds nothing exactly when the node has taken the block, no lease table exactly when the block has lapsed instead, and otherwise leases the slot to the client and answers with the address it asked for |
| Forwarding.AckFindsAfterRun | dhcp.c:283-303 | whatever happens to the node between forwarding and acknowledgement, as long as no house keeping drops the cached table or takes the block, the slot is leased to the client and the client is told the address it asked for |
| DiscoverProofs.FreeWhenServing | block.c:238-308 | the sum of free leases is zero exactly when no block can serve |
| DiscoverProofs.DiscoverPicks | dhcp.c:192-253 | discover offers the lowest available slot of the earliest claimed owned block with a free lease, holds it for 12 seconds, changes that slot only and takes one free lease; an offer that was sent clears the needless mark of its block; it stays silent exactly when no lease is free, and then changes nothing |
| Seniority.OffersFromOldest | block.c:274-308 | over every run from a fresh start a discover is offered a lease of a serving block that the node took no later than any other serving one; there is no offer exactly when none serves |
| DiscoverProofs.OfferIsHonoured | dhcp.c:305-452 | a client that then requests the offered address in the same transaction is acknowledged for it and holds the slot, if the range covers at most 2^32 addresses |
| DhcpSpec.FindOffer | dhcp.c:418-434 | the slot found is the first one offered to this client in this transaction |
| DhcpSpec.FindOfferBlock | dhcp.c:415-442 | the block found is the first owned one that holds such an offer |
| Address.FoundByDistance | dhcp.c:41-47 | an address is outside exactly when its distance to the prefix, modulo 2^32, is not below blocks * block_size; otherwise the distance is block * block_size + slot |
| Address.FoundIsThere | dhcp.c:33-68 | every address that is found is the address of the slot it is found at |
| Address.LookupInverts | dhcp.c:33-68 | looking up the address of a slot gives that block and slot, for every slot, if and only if the blocks cover at most 2^32 addresses |
| Address.AddressesDistinct | tools.c:10-17 | different slots have different addresses if and only if the blocks cover at most 2^32 addresses |
| Address.OutsideRejected | dhcp.c:41-67 | exactly the addresses outside the range are rejected, despite 32-bit wrap-around, if and only if the range does not run past 2^32 or starts at 0 |
| Netmask.BlocksFillRange | main.c:411 | the computed number of blocks fits the prefix range and twice as many would not; they fill it exactly when the block size is a power of two, and none fits exactly when a block is larger than the range; the number fits 32 bits unless the prefix length is 0 and the block size 1 |
| Netmask.SubnetMask | dhcp_options.c:237-240 | for every prefix length up to 32 the four mask bytes spell 2^32 - 2^(32 - length) |
| Netmask.Broadcast | dhcp_options.c:285-288 | the four broadcast bytes spell the prefix with its 32 - length low bits set |
| Netmask.BroadcastIsLastSlot | dhcp_options.c:285-288 | with power-of-two blocks the broadcast address is the address of the last slot of the last block, prefix + blocks * block_size - 1, if and only if the prefix is aligned |
| Netmask.OrLow | dhcp_options.c:285-288 | a bitwise or with 2^k - 1 sets the k low bits |
| OptionStore.LookupStored | dhcp_options.c:111-136 | storing an option changes what is found for its code only and never leaves two options of one code |
| OptionStore.InitialisedStore | dhcp_options.c:216-290 | initialisation leaves every configured option alone, and otherwise installs the mask and broadcast address of the prefix |
| OptionStore.InitialisedOthers | dhcp_options.c:245-345 | the other defaults: no time offset, 300 seconds, and as server identifier the prefix with 1 for its last byte; configured options stay |
| OptionStore.InitialisedLeaseTime | dhcp_options.c:93-109 | the lease time is the configured one, or 300 seconds if none was configured |
| OptionStore.OptionList.SetOption | dhcp_options.c:111-136 | the in-place list is replaced at the option's position or extended at the end |
| OptionStore.OptionList.Initialise | dhcp_options.c:216-345 | the in-place initialisation adds exactly the missing defaults |
| Bytes.ValueEncode | packet.c:85-94 | reading big-endian bytes undoes writing them |
| Bytes.EncodeValue | packet.c:126-135 | writing a number read from bytes gives the bytes back |
| Bytes.MemcmpIsNumeric | ddhcp.c:117 | memcmp orders node ids as the big-endian numbers they spell, and is zero exactly on equal ids |
| PacketCodec.ParsePrinted | packet.c:75-264 | printing fills exactly the computed size, and parsing the bytes gives the packet back up to the fields that are not carried |
| PacketCodec.PrintParsed | packet.c:75-264 | printing a parsed packet reproduces its bytes |
| PacketCodec.AcceptsWhatIsPrinted | packet.c:75-189 | exactly the byte strings that some well-formed packet prints as are accepted |
| PacketCodec.HtonPacket | packet.c:191-264 | the cursor loop fills the buffer with the printed packet |
| PacketCodec.NtohMcastPacket | packet.c:75-189 | the cursor loop returns what the format says, for any buffer contents and any length, short ones included |
| Multicast.ReceivedAsSent | ddhcp.c:56-98 | a claim or inquiry is handed to the handlers as it was sent by exactly the nodes with the same prefix, prefix length and block size; all others drop it |
| Multicast.OwnMessagesFit | block.c:176-211 | every claim and inquiry of a node in a reachable state fits the wire: the 8-bit count, 32-bit indices and 16-bit timeouts lose nothing |
| WireLayout.PacketHeader | packet.c:75-111 | node id, prefix, prefix length, block size, command and count lie in bytes 0-7, 8-11, 12, 13, 14 and 15, and a packet is accepted exactly when its length is right for command 1, 2 or 16 to 18 |
| WireLayout.ClaimEntryAt | packet.c:119-141 | entry k of a claim is a block index of four bytes, a timeout of two and a reserved one from byte 16 + 7k on, big-endian |
| WireLayout.InquiryEntryAt | packet.c:144-160 | entry k of an inquiry is a block index of four bytes from byte 16 + 4k on |
| WireLayout.RenewalAt | packet.c:163-182 | a renewal message has address, transaction id, lease seconds and hardware address at bytes 16, 20, 24 and 28 |
| WireLayout.MessageOnWire | packet.c:58-73 | a claim is sent with command 1 and an inquiry with command 2, the node id first, in network order |
| DhcpCodec.FillExceedsCount | dhcp_packet.c:142-233 | the filling pass stores every PAD on top of what the counting pass counted, and the counting pass sees a message type exactly when the filling pass stores one |
| DhcpCodec.PassesAgree | dhcp_packet.c:142-235 | the two passes agree if and only if no PAD stands before END and there are at most 255 entries |
| DhcpCodec.ParsePrinted | dhcp_packet.c:96-305 | parsing a printed message gives back the header and the options up to END if and only if these hold a message type, no PAD and at most 255 entries with END; it fails with -6 exactly without a message type, and the second pass runs astray exactly in the remaining cases |
| DhcpCodec.RoundTrip | dhcp_packet.c:96-305 | a list without PAD and END, with a message type and at most 254 options, comes back whole followed by END |
| DhcpCodec.PrintParsed | dhcp_packet.c:96-305 | printing a parsed message gives back its bytes up to the first END, or all of them, followed by one more END |
| WireLayout.DhcpHeader | dhcp_packet.c:96-136 | a message is refused with -1 exactly below 240 bytes and with -7 exactly without the cookie 99, 130, 83, 99 at byte 236; otherwise every header field lies at its offset |
| WireLayout.OptionsLaidOut | dhcp_packet.c:204-235 | the options are a code, a length and as many bytes, but 0 pads and 255 ends alone |
| WireLayout.OptionsBegin | dhcp_packet.c:137-200 | the options begin at byte 240, and an accepted message holds option 53 |
| DhcpCodecOps.DhcpPacketLen | dhcp_packet.c:74-94 | the computed length is that of header, cookie, all options and the closing END |
| DhcpCodecOps.Serialise | dhcp_packet.c:245-305 | the printer fills a buffer of exactly the computed length with the printed message |
| DhcpCodecOps.CountOptions | dhcp_packet.c:142-192 | the counting pass returns the number of entries and whether a message type was seen, or finds an option that overruns the message |
| DhcpCodecOps.FillOptions | dhcp_packet.c:204-235 | the filling pass, with its 8-bit index, ends well if and only if it meets as many entries as were counted, fewer than 256, and then has stored them all |
| DhcpCodecOps.NtohDhcpPacket | dhcp_packet.c:96-243 | the parser returns what the format says on every buffer and length, error codes -1, -7, -5 and -6 included |
| IntrusiveList.InsertBetween | list.h:96-105 | linking a node in between two neighbours inserts it at that position and keeps next and prev inverse around the ring |
| IntrusiveList.ListAdd | list.h:140-144 | adds to the front of the sequence |
| IntrusiveList.ListAddTail | list.h:146-150 | adds to the end of the sequence |
| IntrusiveList.ListDel | list.h:82-94 | removes one entry from the sequence and clears its links |
| IntrusiveList.SpliceBetween | list.h:166-183 | links a whole list in at a position of another one |
| IntrusiveList.ListSpliceInit | list.h:197-202 | puts a list in front of another one and leaves it empty |
| IntrusiveList.DeleteAll | list.h:121-122 | the safe traversal with a deleting body is a filter |
| IntrusiveList.TakeNth | block.c:105-117 | taking entries off the front while stepping through the list returns entry r |
| ClaimRing.ClaimList.Append | block.c:171 | a block that is not listed goes to the end of the claim list through its claim_list field |
| ClaimRing.ClaimList.Delete | block.c:151-155 | the entry a traversal stands at leaves the claim list, and the others keep their order |
| LeaseOps.HasFree | dhcp.c:598-610 | true exactly when the table has an available lease |
| LeaseOps.Num | dhcp.c:612-640 | the loop counts the leases in a state |
| LeaseOps.GetFreeLease | dhcp.c:642-656 | the index of the first available lease, or the length of the block |
| LeaseOps.CheckTimeouts | dhcp.c:673-693 | releases exactly the leases whose end has passed and returns the number of available ones |
| BlockOps.BlockAlloc | block.c:14-40 | gives the block a table of available leases unless it has one |
| BlockOps.BlockOwn | block.c:42-57 | the block becomes owned, with a table; nothing else changes |
| BlockOps.BlockFree | block.c:59-74 | the block becomes FREE, unless BLOCKED, and loses its table |
| BlockOps.FindFree | block.c:76-128 | collecting the FREE blocks on a list of list.h through their tmp_list fields and taking them off it yields the r-th one, r modulo their number, or none exactly when none is FREE |
| BlockOps.NumFreeLeases | block.c:238-260 | the loop sums the available leases of the owned blocks |
| BlockOps.FindFreeLeases | block.c:274-308 | the loop finds the earliest claimed block with a free lease (BlockSpec.FindsOldest) |
| BlockOps.DropUnused | block.c:310-354 | marks or frees the drop candidate as the specification says |
| BlockOps.UnmarkNeedless | block.c:550-564 | clears every mark |
| BlockOps.UpdateClaimSend | block.c:356-376 | sends the group and moves its timeouts only if the send succeeded |
| BlockOps.UpdateClaims | block.c:378-460 | the two loops over the block array, batching included, have exactly the effect of the refresh specification |
| BlockOps.CheckTimeouts | block.c:462-485 | expires blocks and leases and gives up cached tables with no live lease, block by block |
| ClaimOps.SettleAll | block.c:137-157 | the first loop, a safe traversal of the claim list with list_del, settles each listed block: taken, dropped or kept; the ring then holds exactly the kept ones in order |
| ClaimOps.SelectMany | block.c:164-181 | the second loop selects blocks at random among the FREE ones and appends them to the ring, on which they are not yet |
| ClaimOps.Payloads | block.c:196-218 | the traversal that writes the payload stays inside an array of claiming_blocks_amount entries, and fills it with the listed blocks in list order |
| ClaimOps.CountInquiry | block.c:224-227 | the traversal of the claim list counts the inquiry once for every listed block |
| ClaimOps.BlockClaim | block.c:130-236 | the three passes on the heap have exactly the effect of the specification |
| ConsensusOps.ProcessClaims | ddhcp.c:100-142 | the loop over the entries has exactly the effect of the handler specification |
| ConsensusOps.ProcessInquire | ddhcp.c:144-184 | the loop over the entries has exactly the effect of the handler specification |
| DhcpOps.FindLease | dhcp.c:33-68 | the code of the lookup; for one of our blocks the slot lies inside an allocated table |
| DhcpOps.Discover | dhcp.c:192-253 | state and reply of the discover specification, every table access in range |
| DhcpOps.AckLease | dhcp.c:559-596 | state and reply of the acknowledgement specification |
| DhcpOps.HandleRequest | dhcp.c:305-452 | state and reply of the request specification, through both searches |
| DhcpOps.NumOwned | block.c:262-272 | the pointer never advances: the number of blocks if block 0 is owned, else zero |
| DhcpOps.Release | dhcp.c:454-487 | only the recorded client's release frees the slot |
| DhcpOps.RemoteRelease | dhcp.c:658-671 | a forwarded release frees the slot of an owned block |
| DhcpOps.RemoteRequest | dhcp.c:255-281 | a forwarded renewal moves the lease end and nothing else |
| DhcpOps.RemoteAck | dhcp.c:283-303 | state and outcome of the specification of a peer's acknowledgement: the slot of the cached table is leased to the client, the lease is not found, or there is no table to write to |
| HouseOps.HouseKeeping | main.c:65-92 | expiry, balancing and refresh on the heap have exactly the effect of the specification |

## Left out

* Sockets, epoll, netlink, the control socket, hooks, statistics, logging, signals, daemonising and
  command-line parsing: input and output without a hard property.
* Allocation failure and explicit `free`.
* RELEASE between nodes on the wire: packet.c:25-48 has no size for it, so it cannot be received.
* The packet cache, which finds the client's request again when a peer answers it, and LEASENAK, which
  refuses that request and changes nothing else. LEASEACK is modelled from dhcp_rhdl_ack on.
* DhcpOps.RemoteAck: without a cached lease table the original writes through a null pointer; the model
  reports `NoTable` and leaves the state as it was.
* DHCPINFORM, the assembly of reply options, duplicate options, and the choice between unicast and
  broadcast replies.
* Shutdown clean-up.
* "Never two owners at once": false of the code, see `Progress.BothOwnExactly`.
* Packet loss across nodes: the network and timing results are for lossless sends. Failed sends are
  covered for one node (`RefreshProofs.RefreshSteps`, `ClaimProofs.BlockClaimKeepsInv`).
* Exclusivity of leases across nodes after a forwarded renewal.
* PeerTiming.LearningIsSound: about an owner that keeps the block; nothing is said about a run in which
  it loses the block while the newcomer listens.
* Bytes.MemcmpIsNumeric: the sign of the result, as the code uses it; C leaves the value open.
* DhcpCodec.ParsePrinted: says that the second pass runs astray, not what memory it overwrites.
* OptionStore.OptionList.SetOption: a replaced option is a new value in the sequence, so pointers to the old
  payload are not modelled.
