# Verification of the chuchotez domain engine

A Dafny model of the messaging engine in `crates/chuchotez-domain` and of the canonical JSON adapter in
`crates/chuchotez-adapters`, with proofs of what its protocols promise. `dafny verify dfyconfig.toml` checks all of it.

The engine keeps a set of transactions, keyed by 32-byte ids, in step between devices over relays that lose, repeat and
reorder packets. The model follows its parts:

| part | modules |
|---|---|
| ids and packets | `Numbers`, `Wrappers`, `Tags`, `Packets` |
| set reconciliation | `HealRange`, `HealSearch`, `HealRoot` (byte arithmetic and the binary search), `HealRow`, `HealSender` (one replica), `SendPositions` (runs of one replica), `HealProtocol`, `HealCompletes`, `HealHidden`, `HealTop` (two replicas), `HealFallback`, `HealAnswers` (what one replica posts) |
| packet chains | `Chain`, `Receive` |
| fragments | `Fragment`, `Reassemble` |
| handshake | `HandshakeRow`, `HandshakeParty` (one side), `HandshakeGuard` (one side against anybody), `HandshakeProtocol`, `HandshakeChildren` (two sides and the network) |
| live sends with durable fallback | `LiveRow`, `LiveSender`, `LiveRuns`, `Delivery` (from a send to the stored transaction) |
| transaction store | `TxStore`, `TxEngine`, `TxLookup` |
| hour bins and polling | `Bins`, `Poll`, `PollRuns` |
| acknowledged part and snapshots | `Fold` |
| canonical JSON | `Json`, `JsonText` (printer and parser), `JsonGrammar`, `JsonAccepts` (the parser against a grammar), `JsonSimple`, `JsonStrict` (against the strict grammar), `JsonRoundTrip`, `JsonWriter`, `JsonParser` |
| packets as JSON | `Codec`, `CodecRoundTrip` |

Code that changes state step by step is a class or a method with loops, proved against a function on values; the
properties over runs are proved about those functions. Keys, ciphertexts and hashes are terms: a key is built by joining,
stepping and labelling, a sealed body names its key, and a wrapped secret names the public key it was wrapped for. Two
terms are equal only when they were built alike, so a hash collision and a forged seal do not exist in the model. A
transaction id is the hash of the ticket secret and the payload, so in the handshake a payload stands for its id.

## What the proofs found

- Set fingerprints: the comment at `chain.rs:585-588` says one missing or extra id changes the fingerprint. This holds for
  every id except the all-zero one (`HealSearch.OneExtraIdShows`), and three ids can cancel out (`HealSearch.ThreeIdsCanHide`).
- The unbounded branch of `midpoint` gives no split point for the range that starts at `0xff00…00`, although it holds
  many ids. A replica then answers with its first 32 ids of that range in one packet. Sealing refuses a packet above 484
  bytes, and 16 ids that do not compress are more than that, so the call fails and nothing is posted
  (`HealTop.LongListIsRefused`). A difference there is asked for exactly when the list shows it and the packets fit
  (`HealTop.TopRangeHealsExactlyWhen`), some run heals it exactly then (`HealTop.TopIdMovesExactlyWhen`), and otherwise it
  stays in every run (`HealHidden.TopDifferenceStays`, from 16 ids on `HealHidden.LongReportsHide`). A search from the root
  ends either at one differing id or at this range (`HealRoot.RootSearchEnds`). When this range agrees, one run after another
  moves a missing transaction until the fingerprints agree (`HealCompletes.HealMakesProgress`, `HealEndsInAgreement`).
- A peer that does not follow the search can send the unbounded range of the last two ids, which is taken for a range of
  one id. Only there can a Want name an id the asker holds (`HealProtocol.WantNamesHeldIdExactlyWhen`).
- `rekey_row` leaves the index alone, so lookups stay right exactly when the moved rows are empty
  (`TxLookup.RekeyAgreesExactlyWhen`). Between an honest inviter and an honest invitee they always are
  (`HandshakeProtocol.RekeyOnlyWhenEmpty`).
- `insert_body` removes the body it is to replace before it knows whether the row takes the new one. An insert loses the
  stored body exactly when there is one and the row of the new body's conversation does not take its kind
  (`TxLookup.InsertLosesExactlyWhen`, at an input `TxLookup.RefusedInsertLoses`). Callers drop the whole state on this error.
- A transaction that is sent again is cut at later sequence numbers. Its fragments mix with those of the first sending
  exactly when both have the same pieces (`Reassemble.MixExactlyWhen`), which they have when every packet leaves the same room
  (`Reassemble.EvenResendMixes`). When a longer number leaves less room, the receiver that still holds parts of the first
  sending reports an equivocation (`Reassemble.ResendCanConflict`).
- A list during which the row took another conversation id is recorded with the bin itself as origin. Unlisted bins below
  it then count as complete, unless a watermark already stood or there are none (`Bins.RecordAtBinRefinesExactlyWhen`).
- A confirmation is a transaction of the row and the same one on both sides. When the peer's arrives first, by a
  retransmission, the local side can neither confirm nor reject any more (`HandshakeProtocol.PeerConfirmCloses`).
- The JSON parser reads texts that the grammar of RFC 8259 and RFC 8785 does not have: any Unicode white space between
  tokens, a plus sign for the first of the four digits of a `\u` escape, raw control characters in strings, and repeated
  keys, each shown at an input (`JsonStrict.WideSpaceIsRead`, `PlusIsRead`, `ControlIsRead`, `RepeatIsRead`). What it reads is
  strict exactly when it has none of these (`JsonStrict.ReadIsStrictExactlyWhen`). It refuses two kinds of strict text: a
  character written as a pair of escaped surrogates, and a whole number written with a sign, a fraction or an exponent
  (`JsonSimple.PairIsRefused`, `ScaledIsRefused`). It refuses exactly these strict texts (`JsonSimple.StrictIsReadExactlyWhen`).
  What the printer writes is strict exactly for values that repeat no key (`JsonStrict.CanonicalIsStrictExactlyWhen`).
- A fold leaves expired transactions out and carries the acknowledged sets over as they are. So an acknowledged
  set names a transaction that is not stored any more (`Fold.AckOutlivesItsMessage`), exactly when an acknowledged one has
  expired by the time of a fold (`Fold.ReloadKeepsAcksExactlyWhen`, over runs `Fold.AcksStayStoredExactlyWhen`).
  A new transaction still blocks folding as it should, because what is acknowledged and not stored has expired
  (`Fold.NewTransactionBlocksExactlyWhen`). The notice of an invitation is stored without a record, and still no fold drops
  anything but what has expired (`Fold.FoldLosesOnlyExpired`).
- A fragment is measured by a filler, so a fragment of other bytes can be too long for its packet
  (`Fragment.FillerCanMislead`), and its transaction is then never posted (`HealRow.MisledPostFails`). What is cut at one place
  fits exactly when every fragment of a length that may be cut there does (`Fragment.NextFitsExactlyWhen`), for instance when
  packed size depends on length only (`Fragment.EveryPacketFits`).

## Model

| member | source | states |
|---|---|---|
| HealRange.Midpoint | crates/chuchotez-domain/src/protocol/v1/engine/heal.rs:574-608 | The byte loops return the integer mean of the two bounds when the upper bound is finite, present exactly when it lies strictly between them; on an unbounded range they return the halved bytes with the top bit set, present exactly when that is above the lower bound |
| HealRange.MeanBytes | crates/chuchotez-domain/src/protocol/v1/engine/heal.rs:587-606 | Adding with carries into 33 bytes and shifting right computes floor((lo + hi) / 2) of the 256-bit values |
| HealRange.Successor | crates/chuchotez-domain/src/protocol/v1/engine/heal.rs:561-572 | The increment loop returns the id whose value is one more, and nothing exactly at the top of the id space |
| HealSearch.RangeXor | crates/chuchotez-domain/src/protocol/v1/engine/heal.rs:533-544 | The loop over ids and bytes computes the fold of XOR over exactly the ids that lie in the range |
| HealSearch.MidInside | crates/chuchotez-domain/src/protocol/v1/engine/heal.rs:556-608 | On a bounded range, a range counts as one id exactly when its bounds are one apart; otherwise the split point exists, is the mean, and lies strictly inside |
| HealSearch.XorSplits | crates/chuchotez-domain/src/protocol/v1/engine/heal.rs:533-548 | The fingerprint of a range is the XOR of the fingerprints of its two parts, unbounded ranges included |
| HealSearch.SomeHalfDiffers | crates/chuchotez-domain/src/protocol/v1/engine/heal.rs:176-206 | If two replicas differ on a bounded range of more than one id, they differ on one of the two halves the search asks about |
| HealSearch.SingleNamesTheId | crates/chuchotez-domain/src/protocol/v1/engine/heal.rs:176-193 | At a range of one id on which fingerprints differ, exactly one replica holds the id, and its own fingerprint equals the id exactly when it is the holder |
| HealSearch.AtMost256Splits | crates/chuchotez-domain/src/protocol/v1/engine/heal.rs:165-207 | Any descent through differing halves of a bounded range makes at most 256 splits |
| HealSearch.SearchFindsADifference | crates/chuchotez-domain/src/protocol/v1/engine/heal.rs:165-207 | From every bounded range with differing fingerprints some descent reaches, within 256 splits, a one-id range whose id exactly one replica holds |
| HealSearch.OneExtraIdShows | crates/chuchotez-domain/src/protocol/v1/chain.rs:585-602 | One extra id changes the fingerprint of a set exactly when the id is not all zero bytes |
| HealSearch.ThreeIdsCanHide | crates/chuchotez-domain/src/protocol/v1/chain.rs:585-602 | Three ids can leave the fingerprint of a set unchanged, so equal fingerprints do not mean equal sets |
| HealRoot.UnboundedSplits | crates/chuchotez-domain/src/protocol/v1/engine/heal.rs:574-586 | Whatever lower bound an unbounded range has, a split point it has lies above that bound and is not the end marker, so the two halves partition the range; and it has one whenever the first byte of the bound is not 0xff |
| HealRoot.HighRangeSplits | crates/chuchotez-domain/src/protocol/v1/engine/heal.rs:574-586 | Some unbounded ranges that start with 0xff do split, although the one with a zero tail does not |
| HealRoot.OnlyTopIsStuck | crates/chuchotez-domain/src/protocol/v1/engine/heal.rs:574-608 | Among the unbounded ranges a search from the root can reach, the split point is absent exactly for the one that starts at 0xff followed by zero bytes |
| HealRoot.HalvesAreHonest | crates/chuchotez-domain/src/protocol/v1/engine/heal.rs:165-207 | Splitting a range of a search from the root yields ranges of the same kind: bounded, or unbounded with a zero tail |
| HealRoot.RootSearchEnds | crates/chuchotez-domain/src/protocol/v1/engine/heal.rs:84-99 | If fingerprints of everything differ, following differing halves reaches in at most 265 splits a one-id range whose id exactly one side holds, or the topmost range |
| HealProtocol.HalfReactsHonestly | crates/chuchotez-domain/src/protocol/v1/engine/heal.rs:165-207 | A reply to a fingerprint of an honest range asks only about honest ranges, and a Want in it never names an id the asker holds |
| HealProtocol.WantNamesHeldIdExactlyWhen | crates/chuchotez-domain/src/protocol/v1/engine/heal.rs:176-193 | Off the honest ranges, a Want names an id the asker holds exactly for the unbounded range of the last two ids when both are held |
| HealProtocol.HealNeverDiverges | crates/chuchotez-domain/src/protocol/v1/engine/heal.rs:103-122 | One step of two replicas over any network: neither loses or invents ids, and their symmetric difference shrinks by exactly the id of a transaction delivered to the side that lacked it, and otherwise stays |
| HealProtocol.RunNeverDiverges | crates/chuchotez-domain/src/protocol/v1/engine/heal.rs:236-302 | Over every run the symmetric difference never grows and the union never changes |
| HealProtocol.WriteTxIsHonest | crates/chuchotez-domain/src/protocol/v1/engine/heal.rs:439-464 | Every fragment a row posts belongs to a transaction the row holds |
| HealProtocol.OneIdExchange | crates/chuchotez-domain/src/protocol/v1/engine/heal.rs:176-302 | At a one-id range the replies of the two sides end with the holder being asked for exactly the differing id, whichever side holds it |
| HealCompletes.HealMakesProgress | crates/chuchotez-domain/src/protocol/v1/engine/heal.rs:75-464 | From two replicas that can post, one of them idle, whose fingerprints of everything differ and of the topmost range agree, some run of posts and deliveries, in which nothing but the search sends transactions, moves exactly one id below the topmost range to the side that lacks it |
| HealCompletes.HealEndsInAgreement | crates/chuchotez-domain/src/protocol/v1/engine/heal.rs:75-464 | From two such replicas some run of the search ends with equal fingerprints of everything |
| HealCompletes.PathLeadsOn | crates/chuchotez-domain/src/protocol/v1/engine/heal.rs:165-207 | A posted fingerprint of a range at the head of a descent is answered, delivered and answered in turn down to the last range of the descent, without changing what either side holds |
| HealTop.ReportsExactlyWhen | crates/chuchotez-domain/src/protocol/v1/engine/heal.rs:207-232 | A row answers a differing fingerprint of the topmost range exactly when the list of its first 32 ids there fits a packet, and posts nothing but that list; otherwise the call fails |
| HealTop.TopRangeHealsExactlyWhen | crates/chuchotez-domain/src/protocol/v1/engine/heal.rs:207-302 | After a differing fingerprint of the topmost range, the other side asks for an id exactly when the list shows it, that side lacks it, and both the list and the Want fit their packets |
| HealTop.SmallTopRangeHeals | crates/chuchotez-domain/src/protocol/v1/engine/heal.rs:207-302 | With at most 32 ids in the topmost range, every id there that the peer lacks is asked for exactly when both packets fit |
| HealTop.LongListIsRefused | crates/chuchotez-domain/src/protocol/v1/codec.rs:1540-1550 | With 32 ids there that do not pack below their 32 bytes, whatever differing fingerprint of the range is heard, the call fails |
| HealTop.TopIdMovesExactlyWhen | crates/chuchotez-domain/src/protocol/v1/engine/heal.rs:75-464 | Two replicas apart by one id of the topmost range: some run of the search brings them together exactly when the list of the holder shows the id and fits a packet |
| HealTop.XorOfSet | crates/chuchotez-domain/src/protocol/v1/chain.rs:585-602 | The fingerprint of a range depends on which ids are held and not on their order |
| HealTop.TopRangeCanHide | crates/chuchotez-domain/src/protocol/v1/engine/heal.rs:265-302 | With 32 shared ids in the topmost range, a list of either side tells the other nothing about a further id there, and hearing it stops the search |
| HealHidden.HiddenForGood | crates/chuchotez-domain/src/protocol/v1/engine/heal.rs:75-302 | From a state in which one hidden id sets two replicas apart, in every run in which nobody sends that transaction of its own accord, the difference stays exactly that id |
| HealHidden.TopDifferenceStays | crates/chuchotez-domain/src/protocol/v1/engine/heal.rs:207-302 | Two fresh replicas apart by one id of the topmost range, which the holder does not list or never gets into a packet with its list, are never brought together by the search, in any run |
| HealHidden.SharedIdsHide | crates/chuchotez-domain/src/protocol/v1/engine/heal.rs:207-302 | That is so when the two share 32 ids there that come before it |
| HealHidden.LongReportsHide | crates/chuchotez-domain/src/protocol/v1/codec.rs:1540-1550 | That is so from 16 ids in the topmost range on, when ids do not pack below their 32 bytes |
| HealSender.Sender.PostProbes | crates/chuchotez-domain/src/protocol/v1/engine/heal.rs:320-406 | Posting seals the probes at consecutive positions, on the ephemeral path with a durable stash or on the durable path, and leaves exactly the row the specification gives; it fails exactly when there is no clock or a probe does not fit its packet |
| HealSender.Sender.Flush | crates/chuchotez-domain/src/protocol/v1/engine/heal.rs:125-143 | A tick past the answer window commits the stash if the chain has not moved, and otherwise asks for a reseal |
| HealSender.Sender.ResealIfDue | crates/chuchotez-domain/src/protocol/v1/engine/heal.rs:146-162 | A row reseals exactly when it searches ephemerally and a reseal is owed or the window is over with an empty stash |
| HealSender.Sender.WriteChainPackets | crates/chuchotez-domain/src/protocol/v1/engine/vault.rs:302-380 | A durable post drops the stash, seals every fragment at its own position from the stored chain on, and stores the chain after the last; it fails exactly when the transaction is not here, too large, or a fragment does not fit |
| HealRow.MisledPostFails | crates/chuchotez-domain/src/protocol/v1/engine/vault.rs:302-380 | A transaction that is cut by a filler into a fragment that does not fit is never posted |
| HealSender.Sender.OnHalf | crates/chuchotez-domain/src/protocol/v1/engine/heal.rs:165-232 | The in-place reaction to a fingerprint is the specified reaction followed by one post |
| HealSender.Sender.OnWantPacket | crates/chuchotez-domain/src/protocol/v1/engine/heal.rs:236-262 | A Want of at most 32 ids clears the search and posts exactly the named transactions that are held |
| HealSender.Sender.OnHave | crates/chuchotez-domain/src/protocol/v1/engine/heal.rs:265-302 | A Have of at most 32 ids leads to a Want of exactly the missing ones, or resets the search when none is missing |
| HealSender.Sender.NotePeerXor | crates/chuchotez-domain/src/protocol/v1/engine/heal.rs:75-101 | An agreeing fingerprint resets the search; a differing one starts one at the root only when none is running |
| HealFallback.SearchGoesOutExactlyWhen | crates/chuchotez-domain/src/protocol/v1/engine/heal.rs:320-406 | A search goes out exactly when the row has a clock and every question fits a packet of 484 bytes; without questions or channels it posts nothing |
| HealFallback.LiveSearchPosts | crates/chuchotez-domain/src/protocol/v1/engine/heal.rs:320-406 | A search on the ephemeral path posts each question once there, in order, under the ephemeral key of the position where the row stands, and nothing durable, and the row stays where it stands with a stash of durable copies |
| HealFallback.DurableSearchPosts | crates/chuchotez-domain/src/protocol/v1/engine/heal.rs:320-406 | A search on the durable path posts each question once, in order, each at its own position, and the row stands past them |
| HealFallback.FallbackHappens | crates/chuchotez-domain/src/protocol/v1/engine/heal.rs:125-162 | A search that went out on the ephemeral path and that nothing answers or ends: nothing of it is durable before the first tick at least three seconds on, which posts each question once on the durable channels from where the row stands and moves the row past them; when the row has sent transactions meanwhile, that tick and the next call do so with the questions as they are then |
| HealAnswers.ListIsAnswered | crates/chuchotez-domain/src/protocol/v1/engine/heal.rs:265-302 | A list of more than 32 ids changes nothing, one that names nothing new ends the search, and any other is answered with one Want of exactly what is missing and nothing else, or fails when that does not fit |
| HealAnswers.WantIsServedInFull | crates/chuchotez-domain/src/protocol/v1/engine/heal.rs:236-262 | A Want of at most 32 ids that goes through ends the search of the row, and posts every named transaction that is held, whole and in order, and nothing else |
| HealAnswers.ListIsTheLowest | crates/chuchotez-domain/src/protocol/v1/engine/heal.rs:207-232 | The list of a range that cannot be split names the lowest ids held there, all of them or 32 |
| HealAnswers.RunKeepsOrder | crates/chuchotez-domain/src/protocol/v1/engine/heal.rs:521-531 | A row keeps its ids in ascending order in every run |
| HealAnswers.PacketPutsOffFallback | crates/chuchotez-domain/src/protocol/v1/engine/heal.rs:103-122 | A row that still searches on the ephemeral path after a packet of the search waits three seconds from then on |
| HealAnswers.AgreementEndsSearch | crates/chuchotez-domain/src/protocol/v1/engine/heal.rs:75-101 | After a fingerprint of everything that agrees, neither a tick nor a reseal posts anything |
| Delivery.WriteTxPosts | crates/chuchotez-domain/src/protocol/v1/engine/vault.rs:302-380 | Writing a transaction posts its packets once each and in order, each at its own position from where the row stands, the last one with the fingerprint of the row, and the row stands past them |
| Delivery.WriteGoesThroughExactlyWhen | crates/chuchotez-domain/src/protocol/v1/engine/vault.rs:302-380 | It goes through exactly when the transaction is here, can be split, and every fragment fits 484 bytes |
| Delivery.WriteTxArrives | crates/chuchotez-domain/src/protocol/v1/engine/vault.rs:302-380 | A receiver that gets each of those posts, in any order and however often, stores the transaction |
| SendPositions.PositionsOnlyGrow | crates/chuchotez-domain/src/protocol/v1/engine/heal.rs:320-436 | In every run of posts, heal posts, retransmits, reseals, fallback commits and changes of the ephemeral channels, each durable packet is sealed at a strictly later position, hence under a different key, than all before it |
| Chain.KeysAreDistinct | crates/chuchotez-domain/src/protocol/v1/chain.rs:193-263 | Two positions of one chain have the same message key only if they are the same position, even where the sequence number saturates |
| Chain.KeysAreTheSendersOwn | crates/chuchotez-domain/src/protocol/v1/chain.rs:158-220 | Places of two chains have the same message key, or the same ephemeral key, exactly when secret, sort and position are equal and the senders are equal or the sort is that of a handshake; no ephemeral key is a message key; only the engine log has no chain |
| Chain.OpenSkipAhead | crates/chuchotez-domain/src/protocol/v1/chain.rs:363-430 | The three loops open what the specification opens, in at most 459 trials more than there are cached keys |
| Chain.OpensExactlyWhen | crates/chuchotez-domain/src/protocol/v1/chain.rs:363-430 | A body opens exactly when a live cached key fits, it lies at most 50 positions ahead, or a later-epoch probe fits; the packet returned is the one sealed |
| Chain.SealedAhead | crates/chuchotez-domain/src/protocol/v1/chain.rs:389-410 | A body d steps ahead that no cached key fits opens exactly for d up to 50, returns the chain d + 1 steps on and the d skipped keys in order |
| Chain.SealedBehind | crates/chuchotez-domain/src/protocol/v1/chain.rs:363-430 | A body of an earlier position opens only from the cache |
| Chain.SealedInLaterEpoch | crates/chuchotez-domain/src/protocol/v1/chain.rs:363-430 | A body under one of the next eight epochs at one of its first 51 numbers opens, and the receiver then stands one past it in that epoch with nothing skipped |
| Receive.RecvRow.Accept | crates/chuchotez-domain/src/protocol/v1/engine/handshake.rs:864-930 | Opening a body on a row, with the second try from the start of the conversation, leaves exactly the specified chain and cache |
| Receive.Arrival | crates/chuchotez-domain/src/protocol/v1/engine/handshake.rs:864-930 | A position that has not opened yet opens exactly when it is at most 50 ahead of the stored chain, or was passed over and its key is before its deadline, or lies within the first 50 positions; the row keeps a key until its deadline for every position it still owes |
| Receive.RunOpensExactlyWhen | crates/chuchotez-domain/src/protocol/v1/engine/handshake.rs:864-930 | Over runs of any length and over any stretch of time, every delivery of a position that has not opened yet opens exactly when that condition holds, and the stored position never moves back |
| Receive.AnyOrderOpensExactlyWhen | crates/chuchotez-domain/src/protocol/v1/chain.rs:363-457 | The same from a fresh row, whatever arrives, whenever and in whatever order |
| Receive.RunOpens | crates/chuchotez-domain/src/protocol/v1/engine/handshake.rs:864-930 | While no cached key has expired, every first delivery within the window opens, however long the run |
| Receive.AnyOrderOpens | crates/chuchotez-domain/src/protocol/v1/chain.rs:363-457 | From a fresh row, every order and repetition of one sender's packets, each at most 50 past the stored chain, opens each packet at its first delivery while no cached key has expired |
| Receive.NeverMovesBack | crates/chuchotez-domain/src/protocol/v1/engine/handshake.rs:908-919 | Over every run of bodies from anyone, sealed or forged, the stored chain never moves to an earlier epoch or sequence number |
| Receive.PruneKeepsInv | crates/chuchotez-domain/src/protocol/v1/engine/helpers.rs:548-589 | Dropping cached keys of acknowledged transactions never drops a key of a position still owed, because only used keys carry a transaction |
| Receive.UsedKeyIsForgotten | crates/chuchotez-domain/src/protocol/v1/engine/helpers.rs:548-589 | A cached key that opened a transaction is gone once that is acknowledged, so the packet does not open from the cache again |
| Fragment.LargestFrag | crates/chuchotez-domain/src/protocol/v1/chain.rs:464-489 | The binary search ends at the length where the filler fits and one byte more does not |
| Fragment.LargestIsMaximal | crates/chuchotez-domain/src/protocol/v1/chain.rs:464-489 | When packed size grows with length, a filler of length n fits exactly when n is at most the length found |
| Fragment.FragmentBody | crates/chuchotez-domain/src/protocol/v1/chain.rs:555-578 | The loop yields exactly the specified packets, or the too-large error |
| Fragment.SplitIsComplete | crates/chuchotez-domain/src/protocol/v1/chain.rs:491-578 | The fragments of every successful split concatenate to the body; indices and sequences are consecutive; only the final one is last; there are at most 64 and every index is one the parser accepts |
| Fragment.SplitsExactlyWhen | crates/chuchotez-domain/src/protocol/v1/chain.rs:491-578 | With the same room in every packet, a body splits exactly when it fits in 63 full fragments and a last one, or in the last alone |
| Fragment.EveryPacketFits | crates/chuchotez-domain/src/protocol/v1/chain.rs:464-553 | If packed size depends on length only and grows with it, every fragment fits the fixed packet size |
| Fragment.NextFitsExactlyWhen | crates/chuchotez-domain/src/protocol/v1/chain.rs:491-551 | Everything cut at one place fits exactly when every fragment that may be cut there, of whatever bytes, fits |
| Fragment.FillerCanMislead | crates/chuchotez-domain/src/protocol/v1/chain.rs:464-489 | When packed size depends on the bytes, the filler can fit where the fragment does not |
| Reassemble.FragTable.AcceptPart | crates/chuchotez-domain/src/protocol/v1/engine/handshake.rs:948-1017 | One fragment leaves exactly the specified table: an equivocation changes nothing, an incomplete set waits, a complete one is decoded and stored once |
| Reassemble.AnyOrderReassembles | crates/chuchotez-domain/src/protocol/v1/engine/handshake.rs:948-1017 | For every order and repetition of a body's fragments among others, the body is stored at the first moment all are present and not before, never changes after that, and no fragment of it is an equivocation |
| Reassemble.SplitReassembles | crates/chuchotez-domain/src/protocol/v1/engine/helpers.rs:302-318 | Any order of the packets of any successful split stores the body that was split |
| Reassemble.LastPieceRefused | crates/chuchotez-domain/src/protocol/v1/engine/handshake.rs:980-1017 | A body that does not decode leaves no fragments behind, and one that contradicts what is stored changes nothing |
| Reassemble.ResendsReassemble | crates/chuchotez-domain/src/protocol/v1/engine/handshake.rs:948-1017 | Packets of several transmissions with the same pieces, mixed in any order, store the body and never conflict |
| Reassemble.EvenResendMixes | crates/chuchotez-domain/src/protocol/v1/chain.rs:491-553 | Transmissions that leave the same room in every packet have the same pieces, wherever they start |
| Reassemble.MixExactlyWhen | crates/chuchotez-domain/src/protocol/v1/engine/handshake.rs:957-967 | Two transmissions of one body mix without a conflict exactly when they have the same pieces |
| Reassemble.ResendCanConflict | crates/chuchotez-domain/src/protocol/v1/engine/handshake.rs:957-961 | A body sent from number 0 and again from number 10, where one digit more leaves one byte less, conflicts at its first fragment |
| Json.KeysAreTotal | crates/chuchotez-adapters/src/json.rs:62-64 | UTF-16 order is a total order on keys: different keys are never equal in it |
| Json.SortedIsInOrder | crates/chuchotez-adapters/src/json.rs:46-47 | Sorting puts members in key order |
| Json.OrderIsUnique | crates/chuchotez-adapters/src/json.rs:46-47 | Two ordered lists with distinct keys and the same members are the same list |
| JsonWriter.Writer.WriteString | crates/chuchotez-adapters/src/json.rs:66-84 | Appends exactly the quoted and escaped text to the buffer |
| JsonWriter.EncodeText | crates/chuchotez-adapters/src/json.rs:10-14 | The text of a value is its canonical form |
| JsonWriter.Writer.WriteJson | crates/chuchotez-adapters/src/json.rs:28-60 | Sorting each object and printing it recursively appends the text of the fully normalised value |
| JsonWriter.NormOfSorted | crates/chuchotez-adapters/src/json.rs:46-56 | Sorting an object's members before normalising their values gives the same members as the other way round |
| JsonParser.Parser.Value | crates/chuchotez-adapters/src/json.rs:95-127 | The recursive descent returns what the grammar function returns and leaves exactly the unread text |
| JsonParser.Parser.Text | crates/chuchotez-adapters/src/json.rs:146-182 | The loop over characters and escapes reads exactly one string literal, or refuses it |
| JsonParser.DecodeText | crates/chuchotez-adapters/src/json.rs:16-25 | Decoding returns a value exactly when the text spells that value in the lenient grammar |
| JsonAccepts.DecodesExactlyWhenSpelled | crates/chuchotez-adapters/src/json.rs:95-236 | The parser reads a text as a value exactly when the text is the yield of a concrete syntax tree that means the value |
| JsonStrict.StrictExactlyWhen | crates/chuchotez-adapters/src/json.rs:91-182 | A text spells a value in the strict grammar, with neither escaped surrogates nor scaled numbers, exactly when the parser reads it so, one pass over the text finds no wider white space, no raw control character and no plus sign in an escape, and the value repeats no key |
| JsonStrict.ReadIsStrictExactlyWhen | crates/chuchotez-adapters/src/json.rs:91-224 | What the parser reads is strict exactly when that pass finds nothing and the value repeats no key |
| JsonSimple.StrictIsReadExactlyWhen | crates/chuchotez-adapters/src/json.rs:129-175 | A strict text of a value is read as that value exactly when one pass finds no escaped surrogate and no number with a sign, a fraction or an exponent, and is refused otherwise |
| JsonSimple.PairIsRefused | crates/chuchotez-adapters/src/json.rs:167-175 | The escape pair of U+1F600 is strict, and the parser refuses it |
| JsonSimple.ScaledIsRefused | crates/chuchotez-adapters/src/json.rs:129-144 | 1.0 and 1e2 spell 1 and 100 strictly, and the parser refuses both |
| JsonStrict.AgreeExactlyWhen | crates/chuchotez-adapters/src/json.rs:91-236 | Parser and strict grammar agree on a text without escaped surrogates and scaled numbers exactly when what is read is plain and repeats no key, and on any other text exactly when it is not strict at all |
| JsonStrict.CanonicalIsStrictExactlyWhen | crates/chuchotez-adapters/src/json.rs:28-60 | What the printer writes is strict exactly for values that repeat no key |
| JsonStrict.PlusIsRead | crates/chuchotez-adapters/src/json.rs:167-175 | A plus sign in place of the first of four digits is read, and the strict grammar has no such text |
| JsonStrict.ControlIsRead | crates/chuchotez-adapters/src/json.rs:178 | A raw control character in a string is read, and the strict grammar has no such text |
| JsonStrict.WideSpaceIsRead | crates/chuchotez-adapters/src/json.rs:91-93 | A no-break space between tokens is read, and the strict grammar has no such text |
| JsonStrict.RepeatIsRead | crates/chuchotez-adapters/src/json.rs:215-224 | An object with a repeated key is read with both members, and the strict grammar has no such text |
| JsonRoundTrip.EncodeThenDecode | crates/chuchotez-adapters/src/json.rs:10-25 | Decoding the encoding of any value gives the value with members sorted at every depth |
| JsonRoundTrip.EncodingIsCanonical | crates/chuchotez-adapters/src/json.rs:10-25 | Encoding what was decoded from an encoding gives the same text (sections 3.2.2.2 and 3.2.3 of RFC 8785) |
| JsonRoundTrip.EmitInjective | crates/chuchotez-adapters/src/json.rs:28-84 | Printed in the order they have, only equal values print alike |
| JsonRoundTrip.EncodeAlikeExactlyWhen | crates/chuchotez-adapters/src/json.rs:28-60 | Two values that repeat no key encode alike exactly when they differ only in the order of members, at any depth |
| CodecRoundTrip.FirstOfSorted | crates/chuchotez-domain/src/protocol/v1/codec.rs:45-51 | The sort is stable, so every key, repeated ones too, reads the same value before and after printing |
| CodecRoundTrip.PacketSurvivesExactlyWhen | crates/chuchotez-domain/src/protocol/v1/codec.rs:1219-1538 | A packet written, printed with sorted members, parsed and read comes back unchanged exactly when its fragment index and its list of ids are within the limits, and is refused otherwise |
| CodecRoundTrip.PacketsPrintApart | crates/chuchotez-domain/src/protocol/v1/codec.rs:1219-1304 | Different legal packets never print alike |
| CodecRoundTrip.AcceptedIsWellFormed | crates/chuchotez-domain/src/protocol/v1/codec.rs:1341-1538 | Whatever object is read as a packet has exactly the keys of that packet, and the packet is within the limits |
| HandshakeParty.HandshakeState.Receive | crates/chuchotez-domain/src/protocol/v1/engine/handshake.rs:1005-1036 | Taking in a transaction in place — rekey, held check, gate, store, mint — leaves exactly the specified row and posts |
| HandshakeParty.HandshakeState.PassGate | crates/chuchotez-domain/src/protocol/v1/engine/handshake.rs:1039-1118 | The gate moves or fails the phase exactly as specified and says whether ingest goes on |
| HandshakeParty.HandshakeState.PassInviter | crates/chuchotez-domain/src/protocol/v1/engine/handshake.rs:1120-1172 | An inviter introduction confirms the invitee exactly in its two waiting phases when the secret unwraps; otherwise the row fails |
| HandshakeParty.HandshakeState.MintAsInvitee | crates/chuchotez-domain/src/protocol/v1/engine/handshake.rs:527-592 | The invitee's introduction carries a secret wrapped for the notice's key, and the phase keeps that secret |
| HandshakeParty.HandshakeState.MintAsInviter | crates/chuchotez-domain/src/protocol/v1/engine/handshake.rs:594-665 | The inviter's introduction carries a secret wrapped for the invitee's key; the phase keeps it and the one unwrapped |
| HandshakeParty.HandshakeState.WritesAcked | crates/chuchotez-domain/src/protocol/v1/engine/party.rs:129-163 | Acknowledged writes move exactly the three phases that wait for them |
| HandshakeParty.HandshakeState.DecideYes | crates/chuchotez-domain/src/protocol/v1/engine/session.rs:54-87 | Confirming logs the decision and spawns the child, unless there is one |
| HandshakeProtocol.StepKeeps | crates/chuchotez-domain/src/protocol/v1/engine/handshake.rs:1039-1172 | Every step of the two parties and the network keeps the invariant that ties phases, logs, messages in flight and children together |
| HandshakeProtocol.RekeyOnlyWhenEmpty | crates/chuchotez-domain/src/protocol/v1/engine/handshake.rs:1005-1007 | In every reachable state, a row that takes the other side's conversation id has an empty log and no child |
| HandshakeProtocol.ConfirmingAgrees | crates/chuchotez-domain/src/protocol/v1/engine/handshake.rs:249-286 | In every run, over any network, when both rows are confirming they hold the same two shared secrets and the same digest, hence the same child secret and id |
| HandshakeProtocol.ChildrenAgree | crates/chuchotez-domain/src/protocol/v1/engine/handshake.rs:298-325 | In every run each side has at most one child, and any two children have the same id and the same secret, whatever became of the rows since |
| HandshakeChildren.ChildrenAlikeExactlyWhen | crates/chuchotez-domain/src/protocol/v1/engine/handshake.rs:246-325 | Children of two runs have the same id, and the same secret, exactly when the tickets are equal and the secrets wrapped in the two introductions are equal as unordered pairs |
| HandshakeChildren.DigestsAlikeExactlyWhen | crates/chuchotez-domain/src/protocol/v1/engine/handshake.rs:246-283 | Two confirming sides show the same digest exactly when ticket, kind of handshake, both introductions and the pair of secrets are equal |
| HandshakeGuard.GuardedFromTheStart | crates/chuchotez-domain/src/protocol/v1/engine/handshake.rs:1039-1172 | Whatever a row hears and from whomever, it never holds two different notices, two introductions of one side or one of the other kind of handshake; those of the other side came after the notice and fit its policy; the inviter holds only one wrapped for its own key, and the invitee confirms only with the secret wrapped for its own |
| HandshakeGuard.TakesIntroExactlyWhen | crates/chuchotez-domain/src/protocol/v1/engine/handshake.rs:1039-1172 | A row that has not failed takes an introduction it does not hold exactly when it is the first of its side, of this kind of handshake, after the notice, of its policy, and wrapped for the key this side gave out; any other leaves the log and fails the row or the call |
| HandshakeGuard.OtherNoticeFails | crates/chuchotez-domain/src/protocol/v1/engine/handshake.rs:1047-1053 | A second, different notice fails the row and is not taken |
| HandshakeGuard.ForeignPolicyFails | crates/chuchotez-domain/src/protocol/v1/engine/handshake.rs:1054-1066 | A notice of another policy than that of the identity fails the row |
| HandshakeGuard.IntroducesUnderOwnPolicy | crates/chuchotez-domain/src/protocol/v1/engine/handshake.rs:527-665 | An identity introduces itself only under its own policy, with its own profile, and with one introduction at a time |
| HandshakeGuard.AckedMeansSent | crates/chuchotez-domain/src/protocol/v1/engine/party.rs:129-163 | Once its writes are acknowledged a row is in no phase that waits for them, and holds the secrets it held |
| HandshakeGuard.RejectingIsFinal | crates/chuchotez-domain/src/protocol/v1/engine/session.rs:89-109 | After a rejection the row has failed for good: whatever happens, it never gets a child it did not have |
| HandshakeProtocol.ConfirmsExactlyWhen | crates/chuchotez-domain/src/protocol/v1/engine/handshake.rs:388-418 | In every run a side can confirm exactly while it is confirming and no decision is logged, and then has its child |
| HandshakeProtocol.PeerConfirmCloses | crates/chuchotez-domain/src/protocol/v1/engine/handshake.rs:406-412 | A peer's confirmation or rejection that arrives first closes the local decision without giving the row a child |
| HandshakeProtocol.HandshakeCompletes | crates/chuchotez-domain/src/protocol/v1/engine/handshake.rs:510-665 | Whatever the two sides draw, if policies match some run ends with both sides able to confirm |
| LiveSender.LiveQueue.SendTx | crates/chuchotez-domain/src/protocol/v1/engine/live.rs:187-256 | A send leaves exactly the specified queue, writes and ephemeral posts; it fails exactly when the transaction is too large or the announcement or a fragment does not fit its packet |
| Delivery.SendGoesThroughExactlyWhen | crates/chuchotez-domain/src/protocol/v1/engine/live.rs:187-256 | A send goes through exactly when the transaction can be split and every packet, the announcement included, fits 484 bytes |
| Delivery.WaitingSendPosts | crates/chuchotez-domain/src/protocol/v1/engine/live.rs:187-256 | A send that waits posts, after the announcement if there is one, every packet of the split once and in order on the ephemeral channels, all under the ephemeral key of the position where the row stands, and nothing durable |
| Delivery.WaitingSendQueues | crates/chuchotez-domain/src/protocol/v1/engine/live.rs:237-256 | Its durable copies wait in one more entry: the same packets, each under the message key of its own position, and the next send starts past them |
| Delivery.WaitingSendArrives | crates/chuchotez-domain/src/protocol/v1/engine/live.rs:187-256 | A peer that gets each of those ephemeral posts, in any order and however often, stores the transaction |
| Delivery.DirectSendPosts | crates/chuchotez-domain/src/protocol/v1/engine/live.rs:187-256 | Without ephemeral channels every packet is written at once, in order, each at its own position, and the row stands past them |
| Delivery.AnnouncedOnce | crates/chuchotez-domain/src/protocol/v1/engine/live.rs:277-303 | A row that has announced itself never does so again in any run |
| LiveSender.LiveQueue.Settle | crates/chuchotez-domain/src/protocol/v1/engine/live.rs:119-139 | Counting an acknowledgement keeps exactly the entries that still lack one |
| LiveSender.LiveQueue.Flush | crates/chuchotez-domain/src/protocol/v1/engine/live.rs:141-185 | A flush writes exactly the due entries and moves the stored chain to the end of the last of them |
| LiveSender.LiveQueue.Tick | crates/chuchotez-domain/src/protocol/v1/engine/poll.rs:13-51 | The clock never goes back; an accepted tick flushes at the new time |
| LiveRuns.CopiesAreConserved | crates/chuchotez-domain/src/protocol/v1/engine/live.rs:119-256 | In every run each durable copy ever sealed is in exactly one place: waiting, released, or written |
| LiveRuns.WrittenPositionsGrow | crates/chuchotez-domain/src/protocol/v1/engine/live.rs:353-380 | In every run written copies stand at strictly increasing positions of the chain |
| LiveRuns.DueIsPrefix | crates/chuchotez-domain/src/protocol/v1/engine/live.rs:144-151 | Entries due at a tick form a prefix of the queue |
| LiveRuns.WrittenOnTime | crates/chuchotez-domain/src/protocol/v1/engine/live.rs:141-185 | An unacknowledged entry is unwritten until the first tick three seconds on, and that tick writes all of it and removes it |
| LiveRuns.ReleasedExactlyWhenAcked | crates/chuchotez-domain/src/protocol/v1/engine/live.rs:119-139 | An acknowledgement takes an entry out exactly when it carries the fingerprint the entry was sent under, and the peer then counts as live for half a minute; one that matches nothing changes nothing |
| TxEngine.EngineState.PlaceOf | crates/chuchotez-domain/src/protocol/v1/engine/state.rs:1169-1185 | Finds the first identity in order that has the conversation, else the device |
| TxEngine.EngineState.Insert | crates/chuchotez-domain/src/protocol/v1/engine/state.rs:1018-1096 | An insert in place leaves exactly the specified logs and index, refused or not |
| TxEngine.EngineState.Remove | crates/chuchotez-domain/src/protocol/v1/engine/state.rs:1098-1144 | Removing an id empties its place and its index entry |
| TxEngine.EngineState.Drop | crates/chuchotez-domain/src/protocol/v1/engine/state.rs:823-831 | Drops the first identity's row and the device's, and leaves the index alone |
| TxEngine.EngineState.BodyPairs | crates/chuchotez-domain/src/protocol/v1/engine/state.rs:997-1016 | The scan of all logs collects exactly what lookup finds |
| TxLookup.LookupIsScan | crates/chuchotez-domain/src/protocol/v1/engine/state.rs:980-1016 | While everything stored is indexed to its place, lookup and scan agree and no id is in two logs |
| TxLookup.InsertIs | crates/chuchotez-domain/src/protocol/v1/engine/state.rs:1018-1096 | After an insert the id reads the new body exactly when the row of its conversation takes the kind, and otherwise nothing; every other id reads as before |
| TxLookup.InsertsExactlyWhen | crates/chuchotez-domain/src/protocol/v1/engine/state.rs:1029-1094 | An insert goes through exactly when the row found for the conversation has a log that takes the kind, or there is no row and the kind is the engine's |
| TxLookup.InsertLosesExactlyWhen | crates/chuchotez-domain/src/protocol/v1/engine/state.rs:1023-1094 | An insert loses the body stored under its id exactly when there is one and the new body is not taken |
| TxLookup.RefusedInsertIsNoOpExactlyWhen | crates/chuchotez-domain/src/protocol/v1/engine/state.rs:1023-1025 | A refused insert changes nothing exactly when the index does not know the id |
| TxLookup.RefusedInsertLoses | crates/chuchotez-domain/src/protocol/v1/engine/state.rs:1023-1045 | A chat text meant for a handshake row takes the notice with its id out of the store |
| TxLookup.LookupAgreesAlways | crates/chuchotez-domain/src/protocol/v1/engine/state.rs:980-1210 | In every reachable state lookup agrees with the scan and no id is in two logs, across failed inserts, replaced and dropped rows |
| TxLookup.PutIs | crates/chuchotez-domain/src/protocol/v1/engine/state.rs:339-400 | A row that is opened, replaced or closed forgets its log, and nothing else is forgotten |
| TxLookup.DropIs | crates/chuchotez-domain/src/protocol/v1/engine/state.rs:823-831 | Dropping a conversation forgets what the row of the first identity that has it and the row of the device held, and nothing else |
| TxStore.TakesExactlyWhen | crates/chuchotez-domain/src/protocol/v1/engine/row_log.rs:156-470 | Which rows take a kind, kind by kind |
| TxLookup.RekeyAgreesExactlyWhen | crates/chuchotez-domain/src/protocol/v1/engine/state.rs:800-821 | Rekeying keeps lookup and scan in agreement exactly when no row it moves holds anything |
| Bins.BinProgress.Advance | crates/chuchotez-domain/src/protocol/v1/engine/helpers.rs:232-244 | The loop moves the watermark over every bin that follows it in the set |
| Bins.BinProgress.Complete | crates/chuchotez-domain/src/protocol/v1/engine/handshake.rs:1180-1203 | Recording a bin leaves exactly the specified watermark and set |
| Bins.ProgressIsListedSet | crates/chuchotez-domain/src/protocol/v1/engine/helpers.rs:225-244 | Whatever bins are listed, in any order, a bin from the origin on is complete exactly when it was listed |
| Bins.RecordAtBinRefinesExactlyWhen | crates/chuchotez-domain/src/protocol/v1/engine/handshake.rs:1187-1202 | With the bin itself as origin, recording is right exactly when a watermark already stood or nothing between the origin and the bin is unlisted |
| Poll.PollList | crates/chuchotez-domain/src/protocol/v1/engine/poll.rs:54-98 | The nested loops ask for exactly the specified locators |
| Poll.HandshakeHits | crates/chuchotez-domain/src/protocol/v1/engine/handshake.rs:773-823 | The loops over rows and bins find exactly the rows that look for the tag |
| Poll.PollOmitsNothing | crates/chuchotez-domain/src/protocol/v1/engine/poll.rs:59-85 | Every unlisted bin from the row's origin to the next hour is asked for, on a row that is not skipped |
| Poll.AskedIsAccepted | crates/chuchotez-domain/src/protocol/v1/engine/handshake.rs:680-683 | Every locator that is asked for is accepted in the same state |
| Poll.AcceptedIsComplete | crates/chuchotez-domain/src/protocol/v1/engine/handshake.rs:1180-1203 | After an accepted list the bin it held counts as complete |
| Poll.AcceptingShrinks | crates/chuchotez-domain/src/protocol/v1/engine/handshake.rs:671-697 | With distinct tickets, accepting an older list takes exactly that list off what is asked for |
| Poll.CatchUpEnds | crates/chuchotez-domain/src/protocol/v1/engine/poll.rs:59-97 | At most as many older lists arrive as were asked for at the start, also when rows are finished meanwhile, and once as many have arrived none is asked for any more |
| PollRuns.OlderExactlyWhenNeverAccepted | crates/chuchotez-domain/src/protocol/v1/engine/poll.rs:54-98 | After any run in which lists arrive, hours pass and rows finish, reopen and change channels, an older list from the origin of its row to the next hour is asked for exactly while the row is open on that channel and no such list was ever accepted |
| PollRuns.AskedExactlyWhen | crates/chuchotez-domain/src/protocol/v1/engine/poll.rs:54-98 | All that is asked for after any run: on each channel of an open row the hour before this one, this one and the next, whatever was accepted, and every list from the origin to the next hour that was never accepted |
| PollRuns.TakenExactlyWhen | crates/chuchotez-domain/src/protocol/v1/engine/handshake.rs:671-823 | All that is taken after any run: a list for a channel of a row with its ticket, of those three hours, or of an hour up to the next with some list from the origin up to it never accepted |
| PollRuns.NeverAskedAgain | crates/chuchotez-domain/src/protocol/v1/engine/handshake.rs:1180-1203 | A list that was accepted is not asked for as an older one again, however the run goes on |
| Fold.Vault.WatermarkOf | crates/chuchotez-domain/src/protocol/v1/engine/helpers.rs:487-498 | The intersection loop yields exactly the ids every acknowledging actor has, or everything when nobody has acknowledged |
| Fold.Vault.TakeSnapshot | crates/chuchotez-domain/src/protocol/v1/engine/persist.rs:17-47 | Folding returns exactly the specified snapshot or error |
| Fold.Vault.StoreLastAck | crates/chuchotez-domain/src/protocol/v1/engine/helpers.rs:527-546 | A fingerprint that agrees with that of the set held now stores this set for that actor, and nothing else changes |
| Fold.SnapshotHoldsAllPersisted | crates/chuchotez-domain/src/protocol/v1/engine/persist.rs:23-47 | A snapshot loses no persisted transaction that is stored and unexpired |
| Fold.SnapshotIsAcknowledged | crates/chuchotez-domain/src/protocol/v1/engine/helpers.rs:487-504 | On a row with chains everything in a snapshot lies in the last acknowledged set of every actor with a nonempty one |
| Fold.FoldAgain | crates/chuchotez-domain/src/protocol/v1/engine/persist.rs:17-47 | Folding what was read back from a snapshot gives the same snapshot |
| Fold.NothingPersistedIsLost | crates/chuchotez-domain/src/protocol/v1/engine/persist.rs:17-47 | In every run of merges, acknowledgements, ticks, folds and reloads, a persisted transaction that has not expired by the end is still stored and on record, unless its conversation was dropped |
| Fold.RunKeepsSane | crates/chuchotez-domain/src/protocol/v1/engine/helpers.rs:487-546 | Every run, folds and reloads included, keeps what is stored on record or acknowledged by everybody who acknowledges, and what somebody has acknowledged stored or expired |
| Fold.FoldLosesOnlyExpired | crates/chuchotez-domain/src/protocol/v1/engine/persist.rs:17-47 | In every run from nothing, a fold that goes through holds exactly what is stored and unexpired, and of the records exactly those of what it holds |
| Fold.NoticeCanBeAcknowledged | crates/chuchotez-domain/src/protocol/v1/engine/invite.rs:70-82 | The notice of an invitation is stored in a row of its own without a record, and whoever acknowledges it has exactly it |
| Fold.SetIsOfTheLastAck | crates/chuchotez-domain/src/protocol/v1/engine/helpers.rs:527-546 | In every run an actor has a set exactly when an acknowledgement of its own agreed since the row was opened, and it is what the conversation stored at the last such one, whatever others acknowledged |
| Fold.FoldHoldsWhatAllAcknowledged | crates/chuchotez-domain/src/protocol/v1/engine/helpers.rs:487-525 | In every run a fold that goes through holds only what every actor whose last acknowledgement was of anything had in it |
| Fold.FoldGoesThroughExactlyWhen | crates/chuchotez-domain/src/protocol/v1/engine/persist.rs:17-25 | In every run a fold goes through exactly when record numbers are left and every transaction on record, stored and unexpired is in what each actor of its conversation last acknowledged, unless that was nothing |
| Fold.ReloadKeepsAcksExactlyWhen | crates/chuchotez-domain/src/protocol/v1/engine/persist.rs:26-47 | A fold and reload leaves acknowledged sets within what is stored exactly when no acknowledged transaction has expired |
| Fold.AcksStayStoredExactlyWhen | crates/chuchotez-domain/src/protocol/v1/engine/helpers.rs:527-546 | Acknowledged sets stay within what their conversation stores all along a run exactly when, at every fold that goes through, no acknowledged transaction has expired |
| Fold.AckOutlivesItsMessage | crates/chuchotez-domain/src/protocol/v1/engine/persist.rs:33-35 | One message is acknowledged, expires and is folded away, and its id is still in the acknowledged set |
| Fold.NewTransactionBlocksExactlyWhen | crates/chuchotez-domain/src/protocol/v1/engine/helpers.rs:514-525 | In every reachable state, storing a new transaction makes folding fail exactly when something else blocks it already, or somebody in the conversation has acknowledged anything and the transaction has not expired |
| Fold.AgreementUnblocks | crates/chuchotez-domain/src/protocol/v1/engine/helpers.rs:487-525 | Once every acknowledging actor agrees with the stored set, everything unexpired folds |

## Left out

- Base64url, Deflate, HMAC, AES-GCM, KEM, signatures, SHA-256 and Argon2: terms, or functions with a stated property (base64url that round-trips, packed sizes as a parameter).
- Failures of the cipher and of compression while posting, and removal of acknowledged writes from the outbox: a packet that does not fit fails the call, nothing else does, and posts are kept as a history of everything ever posted.
- Nonces, mailbox tags and the random parts of sealed bodies: they do not influence what opens.
- Fragment.EveryPacketFits: assumes that packed size depends on length only and grows with it, because the source measures a constant filler and real Deflate promises neither (`Fragment.FillerCanMislead`).
- JsonStrict.StrictExactlyWhen: the strict grammar is that of the values the engine has, so a number, however written, is whole and below 2^64, and an escape of half a pair that stands alone spells nothing.
- Receive.AnyOrderOpensExactlyWhen: positions below 2^64 - 1, since the sequence number does not count further.
- HealCompletes.HealMakesProgress: fingerprints and lists of one id fit a packet, and every transaction can be cut into packets that fit wherever the chain stands; fingerprints that cancel out start no search.
- HealTop.TopIdMovesExactlyWhen: whether the list of the holder fits does not hang on the number of its packet; the one-step results do without this.
- The conversions of `row_log.rs` between payloads and log rows: they are the identity on contents, so the store keeps the payload and only says which kinds a log takes (`TxStore.Takes`).
- Poll.PollList: yields a set, without the sort order of the locators, and without the group and blob parts of the poll.
- Poll.AcceptingShrinks: rows keep their conversation id during a list, and no two rows share a ticket; what happens otherwise is `Bins.RecordAtBinRefinesExactlyWhen`; runs are `PollRuns`.
- Poll.CatchUpEnds: within one hour, with rows that only finish; runs with passing hours and reopened rows are `PollRuns`.
- Fold.Vault.TakeSnapshot: the JSON of the snapshot, its size limit and its sealing are not modelled; chains, fragments and bins are carried over unchanged.
- Fold.Vault.StoreLastAck: the fingerprint is any function of the set, since equal fingerprints do not mean equal sets; in runs whether it agrees is part of the event.
- Fold.RunKeepsSane: rekeyed rows and restart from the persisted log are not among the events; an invitation names a conversation that is not known yet.
- LiveRuns.CopiesAreConserved: for a synchronization row whose route stays and that is not kicked; ratchet packets, groups and acknowledgements sent by the row itself are not modelled.
- HandshakeProtocol.StepKeeps: writes may be acknowledged at any time and a row may fail at any time, which covers more than the source does; vault key transfer, deletion of the row and restart from the persisted log are not modelled.
- HandshakeChildren.DigestsAlikeExactlyWhen: a digest is the term of what is hashed, with the introduction of the lower signing key first.
- HealFallback.FallbackHappens: ticks that come later than the search, so a clock that already stands at its last second is not among them.
- Delivery.WaitingSendArrives: the receiver is handed the packets opened; what opens is `Chain` and `Receive`.
- HandshakeProtocol.ConfirmingAgrees: the two parties are honest and nobody else has the ticket.
- HealProtocol.RunNeverDiverges: transactions are delivered whole; reassembly is `Reassemble`.
- Receive.RunOpens: one sender on a handshake row, where no ratchet secret is mixed into the chain.
- Ratchet mixing, groups, chat queries, media, wake pings, the vault header and the payload codec: many cases, mostly easy ones.
- `accept_fragment` on established rows: the same reassembly without the equivocation check.
- Relay input and output, the host clock, randomness and secrecy.
