# A verified model of nl-wireguard

nl-wireguard configures WireGuard interfaces over generic netlink. The value of one netlink attribute is limited to
about 64 KiB, so a large configuration has to be cut twice: a peer with many allowed IPs into several peer entries, and
the peer entries into several messages. In the other direction, the kernel cuts its dumps in the same way, and the
library puts the peers together again.

This project models that fragment and reassemble engine, the device that receives the messages, and the handle that
sends them and classifies the replies. It proves that the engine does what it is for:

- splitting a configuration does not change what it does to a device (with the one exception, characterised exactly);
- building messages and reading them back gives the configuration in its normal form, however it was split;
- both levels of splitting are greedy and, each taken for itself, use the fewest pieces;
- every attribute of every message, at every nesting level, fits its sixteen bit length, so that the bytes of the
  message can be read back;
- the last attribute of a kind decides what is read, every allowed IP that is sent is well formed, and every fault and
  every bad reply is reported as the error it is;
- how a dump is cut and spread over messages makes no difference to what is read from it;
- setting what was read from a device changes nothing on the device, and peers that were set are read back;
- interrupted runs are healed by a retry: always, if the configuration replaces all peers or has no update-only peer;
  otherwise exactly when the entries that act in the retry only, or in the first run only, do no harm.

`dafny verify dfyconfig.toml` checks everything.

## Files

| file | content |
|---|---|
| wrappers.dfy, sequences.dfy | options, results, folds, sums |
| greedy.dfy | greedy cuts of a list into groups under a capacity |
| base64.dfy, keys.dfy | key text (RFC 4648, section 4, canonical as in section 3.5) and its strict decoding |
| flags.dfy | flag lists and 32 bit words |
| netlink.dfy | the attribute tree and its encoded lengths |
| peer_parsed.dfy, peer_round_trip.dfy | peers, their entries, and what comes back of them |
| coalesce.dfy, fragments.dfy | merging entries of one peer, and entries cut into pieces |
| parsed.dfy | the splitter: specification and implementation |
| reassembly.dfy, round_trip.dfy, dump.dfy, single.dfy | the two readers, round trips, dumps |
| reading.dfy, faults.dfy, well_formed.dfy | what is read of each attribute, which error is reported, what allowed IPs look like |
| lengths.dfy, emission.dfy | encoded lengths, optimality, when one message is enough; the bytes of the attributes |
| device.dfy, meaning.dfy | the receiving device; splitting preserves meaning |
| applying.dfy, get_then_set.dfy, set_then_get.dfy | applying what was read, removing peers, reading what was set |
| owners.dfy, turns.dfy, outcomes.dfy, effects.dfy | a device seen one key and one allowed IP at a time; what a list of entries leaves, in closed form |
| reruns.dfy | applying a list of entries again to a device on which it was begun |
| retry.dfy, retry_kept.dfy, retry_exact.dfy | retries that replace all peers; retries that keep them, and exactly when they heal |
| limits.dfy | inputs for which promises do not hold |
| handle.dfy, idle.dfy, sessions.dfy | sending, classifying replies, retrying; reading and setting with one handle |

## How the source is modelled

- Loops and in-place updates are methods and classes. Each is proved against a specification function, and the lemmas
  are about these functions. `?` is `:-`, a `&mut Vec` that is drained is the class `IpQueue`, the list of peers a dump
  is read into is the class `PeerList` of `PeerEntry` objects, and `WireguardHandle` is a class that logs its requests.
- Attribute value sizes are those of the netlink and WireGuard kernel ABI (`nla_put`, `include/uapi/linux/wireguard.h`,
  `sockaddr_in`, `sockaddr_in6`); every attribute is a four byte header and a value padded to four bytes, emitted on a
  little-endian machine. The attribute crates themselves are not part of this model. Attributes the library does not
  read appear as `Unknown...`.
- A 32 bit flag word is the set of the positions of its one bits.
- An interface name is the sequence of its UTF-8 bytes, because `len()` and the NUL test work on bytes.
- The cast of the handshake seconds to a signed word wraps around, as `as i64` does.
- The device is a specification. It keeps the last value it was given of every property, refuses an allowed IP whose
  family, address and prefix length do not agree, gives an allowed IP to one peer at a time, and entries act from left
  to right. `RemoveMe` ignores everything else and is no error for a missing peer, the replace flags remove before
  anything is added, and `UpdateOnly` never creates a peer (the meaning of the flag in the kernel API; the repository
  only names it). A message is for a device that it names by name or by index, but not by both.
- The other side of the handle is an arbitrary function from the requests so far to an outcome: the request cannot be
  sent, or a finite sequence of replies comes back. A request that is answered by an error may have taken effect in
  part: any of its settings, the old peers replaced or not, and any of its first entries, each of them with any of its
  properties and of its first allowed IPs.

The code and its documentation disagree in one point: that each message fills in what the prior ones missed
(src/parsed.rs:232-236) is not so for a peer that is to be updated only, needs several entries and is missing on the
device, because its continuations carry no flags and create it. Such a peer is called lost. `Meaning.PeerMeaning`,
`Meaning.SplittingPreservesMeaningIff` and `Meaning.SplittingPreservesMeaningThroughout` state exactly when splitting
shows; `Limits.SplittingShows` gives an input.

A configuration that keeps the old peers can be retried after any number of interrupted runs, and can be applied twice,
if none of its peers is update-only, however often it names a peer (`RetryExact.WithoutUpdateOnly`). An update-only
entry can be skipped the first time, because its peer is missing and no entry in front of it creates or removes the
peer, and act in a retry, because a later entry has created the peer; or the other way round, because a later entry has
removed the peer. `Limits.RetryMayDiffer` is such a configuration, and the first entry of a lost peer is such an entry.
The configuration can be applied twice if and only if these entries are harmless (`RetryExact.RetryHealsIff`): what they
set is set again by the other entries of the peer, or the peer is removed; and if another entry than the first time is
the last to give an allowed IP, then its peer loses it again and nobody owns it after the first run either. It can be
retried after all interrupted runs if and only if that is so after every number of entries, unless an update-only entry
gives allowed IPs to a peer that a later entry removes.

Note also that `set` names the part of the configuration that failed only if there are several parts and the part
was answered by an error; a request that cannot be sent is reported without its part (src/handle.rs:75-76).

## Model

| member | source | states |
|---|---|---|
| Meaning.SplittingPreservesMeaning | src/parsed.rs:230-292 | For every device and every accepted configuration, whatever its keys: the messages applied in order leave the device that one unsplit message leaves, if no peer is lost on the way |
| Meaning.SplittingPreservesMeaningIff | src/parsed.rs:230-292 | If every peer is named once, the messages mean what the unsplit message means if and only if no peer that needs several entries is update-only and missing on the device after the old peers were kept or replaced |
| Meaning.SplittingPreservesMeaningThroughout | src/parsed.rs:230-292 | For every accepted configuration, whatever its keys: it and all its beginnings mean, split, what they mean unsplit, if and only if no peer is lost when its turn comes |
| Meaning.PeerMeaning | src/parsed.rs:377-455 | For one peer and any device, its entries and its whole entry have the same effect if and only if the peer is not lost |
| Meaning.PiecesMean | src/parsed.rs:377-382 | The receiver cannot tell an entry that acts on its peer from a first piece with all state and continuations with key and further allowed IPs |
| Meaning.ContinuationAdds | src/parsed.rs:440-452 | After an entry has acted, a continuation adds its allowed IPs and changes nothing else |
| Meaning.ApplySplit | src/parsed.rs:272-292 | All messages together prepare the device once and apply all entries in order: settings and `ReplacePeers` act only before the first entry, and every message names the interface |
| Meaning.SettingsAreSet | src/parsed.rs:272-292 | After all messages every device setting that is given is set, and every other one is as it was |
| Limits.UpdateOnlyPeerIsCreated | src/parsed.rs:444-452 | For any key missing on the device there is a peer whose whole entry changes nothing while its entries create it |
| Limits.SplittingShows | src/parsed.rs:444-452 | For any device and any key it does not hold, `set` accepts a configuration whose messages leave another device than its unsplit message |
| Limits.LaterEntryMakesUp | src/parsed.rs:377-455 | If a peer is named twice, its later entry can make up for a lost one: a configuration with a lost peer whose messages mean what the unsplit message means |
| RoundTrip.BuildThenRead | src/parsed.rs:151-192 | Reading the messages of any accepted configuration gives its normal form, with neighbours of one key made one peer |
| RoundTrip.NormalKeepsPeers | src/parsed.rs:478-486 | The peers come back one by one if and only if no two neighbours have the same key |
| RoundTrip.ReadChunks | src/parsed.rs:383-455 | The entries of a peer coalesce to exactly one peer, its normal form, wherever it was cut |
| RoundTrip.ReadRendered | src/parsed.rs:277-292 | Device properties come back once although every message names the interface; peers are all entries coalesced |
| Single.HandshakeComesBack | src/peer_parsed.rs:159-175 | A last handshake comes back if and only if it is not the zero time and its seconds fit a signed word |
| Single.SingleMessageReads | src/parsed.rs:111-149 | The single message of any configuration that fits reads, by the reader of one message, as the configuration in normal form, even if neighbours share a key |
| Reading.PropertiesAreLast | src/parsed.rs:151-192 | Of any messages, each of name, index, keys, port and mark is that of the last attribute of its kind among all attributes, and there is none without such an attribute |
| Reading.SinglePropertiesAreLast | src/parsed.rs:111-149 | The same of the reader of a single message, and the last list of peers and the last flags count, too |
| Reading.FlagsAreCollected | src/parsed.rs:174-180 | Of several messages the flags of all flags attributes are collected in order |
| Reading.PeerKeysAreLast | src/peer_parsed.rs:140-154 | The last keys of an entry are read as their base64 text; a preshared key of 32 zero bytes, and no other one, is none |
| Reading.PeerPropertiesAreLast | src/peer_parsed.rs:155-191 | The last endpoint, keepalive and protocol version of an entry are read |
| Reading.PeerCountersAreLast | src/peer_parsed.rs:159-178 | The last time of an entry that is one is read, the zero time as none; so are the last counters |
| Reading.PeerListsAreLast | src/peer_parsed.rs:179-199 | The last list of allowed IPs and the last flags of an entry are read |
| Reading.IpIsLast | src/peer_parsed.rs:409-462 | An allowed IP is read if and only if it has an address and a prefix length; the last ones count, and the last flags |
| Reading.IpsAreRead | src/peer_parsed.rs:179-191 | Of a list of allowed IPs exactly those with an address and a prefix length are read, in order |
| Faults.PeerErrors | src/peer_parsed.rs:271-330 | Which error a peer has: no public key, then a text that is not the base64 text of 32 bytes, then a prefix length out of range |
| Faults.DeviceErrors | src/parsed.rs:294-373 | Which error the device properties have: the interface, then the keys |
| Faults.FirstFault | src/parsed.rs:237-270 | The first faulty peer is reported, unless the device is at fault and the peers in front of it need more than one message |
| Faults.DeviceFaultOnly | src/parsed.rs:237-270 | Without a faulty peer the fault of the device is reported, and without a fault there are messages |
| Faults.MoreThanOne | src/parsed.rs:211-228 | If more messages than one are needed, building one is an input error; otherwise it is the only message, or the error of building messages |
| Faults.CastWraps | src/peer_parsed.rs:300-310 | The cast of the handshake seconds keeps the low 64 bits |
| WellFormedness.SentIpsAreProper | src/peer_parsed.rs:464-485 | Every allowed IP of every entry of every message has exactly one family, one address of that family and one prefix length in its range, and at most flags besides |
| Applying.BuiltIpIsSeen | src/peer_parsed.rs:384-407 | The receiver sees address, prefix length and flags of a built allowed IP and accepts it if and only if the prefix length is valid |
| Dump.DumpCanBeApplied | src/parsed.rs:151-192 | What is read from any dump can be built again, and reads as the same configuration up to the redundant index, the order of flags and the allowed IPs of removed peers |
| Dump.DumpIsAccepted | src/parsed.rs:237-332 | What is read from any dump is accepted if and only if the interface is valid and every peer has a public key and prefixes in range |
| Dump.MessagesAreRead | src/peer_parsed.rs:140-209 | Whatever the messages hold, keys that were read decode, preshared keys are not zero, handshakes and allowed IPs are in normal form, neighbours differ |
| Dump.ReadersAgree | src/parsed.rs:111-192 | On a message with at most one peers and one flags attribute the two readers agree if and only if no neighbouring entries are the same peer |
| GetThenSet.GetThenSetChangesNothing | tests/wireguard_kernel.rs:186-218 | For every device and every true dump of it, however it was cut: what is read is accepted by `set` and applying it leaves the device unchanged |
| GetThenSet.DumpDescribes | src/parsed.rs:151-192 | What is read from a true dump says nothing that is not so, after merging all entries of a peer |
| SetThenGet.EntriesComeBack | tests/wireguard_kernel.rs:155-184 | With `ReplacePeers`, whatever the keys and flags: any complete dump of the device after `set`, cut in any way, reads as one peer for each that the entries leave there, with the endpoint, preshared key, keepalive and exactly the allowed IPs they leave it |
| SetThenGet.SetPeersComeBack | tests/wireguard_kernel.rs:155-184 | The same in terms of the configuration, if every peer is named once and no peer is update-only, removed, or has allowed IPs taken away: one peer for each that was set and none else, with what was set and the allowed IPs that no later peer names, each once |
| SetThenGet.OnePeerComesBack | tests/wireguard_kernel.rs:155-184 | One peer with any number of different allowed IPs is read back as one peer with all of them |
| SetThenGet.RoutesAreSet | src/parsed.rs:377-455 | On a device without peers, if every peer is named once and all only add: an allowed IP belongs to the last peer that names it |
| SetThenGet.EveryDeviceHasFullDump | src/parsed.rs:151-192 | There is a complete dump of every device |
| Applying.ReapplyChangesNothing | src/parsed.rs:230-292 | A configuration that describes the device leaves it unchanged, however many messages it takes |
| Retry.ReplacingForgets | README.md:119-122 | With `ReplacePeers`, all messages leave the same device whatever peers were there before, if the settings that the configuration does not set are the same |
| Retry.RetryHeals | src/handle.rs:65-98 | With `ReplacePeers`, after any number of runs interrupted between messages, within the settings or within an entry, applying all messages gives the device of an uninterrupted run |
| RetryKept.RetryHealsKept | src/handle.rs:65-98 | The same without `ReplacePeers`, whatever the keys and flags, if runs after interrupted ones are harmless and no update-only entry gives what is not given again to a peer that is removed |
| RetryExact.RetryHealsIff | README.md:119-122 | Without `ReplacePeers`, whatever the keys and flags: the configuration can be applied twice if and only if the entries that act in one of both runs only are harmless; all interrupted runs are healed only if that is so after every number of entries, and if no update-only entry gives what is not given again to a peer that is removed, then also if |
| RetryExact.WithoutUpdateOnly | README.md:119-122 | A configuration without update-only peers, whatever its keys, can be retried after all interrupted runs |
| RetryExact.NamedOnceNoneLost | src/handle.rs:65-98 | So can a configuration that names every peer once if no peer is lost |
| Reruns.RerunIff | src/handle.rs:65-98 | For any device and any list of entries: all entries after the first few of them leave what all of them leave if and only if the retry is harmless |
| Turns.LastGiverDecides | src/parsed.rs:377-455 | After any list of entries an allowed IP belongs to the peer of the last entry that acts and gives it, unless that entry or a later one of the peer drops it |
| Turns.StateInTurn | src/parsed.rs:377-455 | A peer that is not removed has, after any list of entries, what it had and what the entries that act on it set |
| RetryExact.LostPropertyShows | src/parsed.rs:444-452 | If every peer is named once and a lost one carries any property, applying the configuration twice leaves another device than applying it once |
| Retry.InterruptedSettings | src/parsed.rs:274-276 | Whatever part of its messages took effect, an interrupted run changes only settings that the configuration sets: setting them again gives what setting them once gives |
| Limits.RetryMayDiffer | README.md:119-122 | Without `ReplacePeers` there is a configuration, with an update-only entry that is skipped the first time only, whose second application leaves another device |
| Limits.PartialUpdateShows | src/handle.rs:65-69 | If an update-only entry gives an allowed IP to a peer that is removed further on, a run in which the entry took effect in part is not healed although every run after whole entries is |
| Applying.RemovalMeaning | src/handle.rs:100-120 | Removing a peer takes one message, takes away the peer and its allowed IPs, and changes nothing if the device does not hold it; a bad key is reported before a bad name |
| Applying.WholeFields | src/peer_parsed.rs:271-348 | The receiver sees every property of the peer in its entry, whole or without allowed IPs |
| Device.RunKeepsValid | tests/wireguard_kernel.rs:261-299 | Over every run of messages, no allowed IP is left without its peer |
| Device.EntryPeers | src/handle.rs:104-107 | An entry lets at most its own peer appear or disappear |
| Greedy.CutIsOptimal | src/parsed.rs:242-269 | No cut of a list in order and within the capacities has fewer groups than the greedy one |
| Greedy.CutIsUnique | src/parsed.rs:457-474 | A cut in which no group could take the next item is the greedy one |
| Greedy.OneGroup | src/parsed.rs:249-259 | One group is enough if and only if everything fits into it |
| Lengths.MessagesAreFewest | src/parsed.rs:242-269 | Any list of messages with one peers attribute at most, all of whose attributes fit sixteen bits, that carries the same entries in order has at least as many messages |
| Lengths.ChunksAreFewest | src/parsed.rs:432-474 | Any cut of the allowed IPs of a peer into entries that can each be sent in some message has at least as many entries |
| Lengths.LimitIsTight | src/parsed.rs:194-198 | Entries stay within the limit of the splitter if and only if the attribute that holds them fits sixteen bits |
| Lengths.MessageCount | src/parsed.rs:245-267 | Two neighbouring messages carry more than one attribute value of peers, so there are at most 2 * (bytes / (limit + 1)) + 1 messages |
| Lengths.MessagesAreEncodable | src/parsed.rs:194-198 | Every attribute at every nesting level of every message has an encoded length of at most 65535, and no message has two peers or flags attributes |
| Emission.SentIsReadBack | src/parsed.rs:194-198 | The bytes of every message are read back, by the lengths in their headers, as the same attributes at every nesting level |
| Emission.LimitIsReadable | src/parsed.rs:194-198 | Entries stay within the limit of the splitter if and only if the length of their attribute can be read from its two bytes |
| Emission.WalkEmitted | src/parsed.rs:194-198 | A list of attributes whose lengths fit sixteen bits is read back from its bytes |
| Emission.LongValueIsLost | src/parsed.rs:194-198 | The length in the header of a longer attribute is too small |
| Emission.PeerIsLong | src/parsed.rs:432-436 | The length of an entry that the splitter works with is the number of its bytes |
| Emission.DeviceAttrIsLong | src/parsed.rs:194-198 | So is the length of every attribute of a message |
| Lengths.ChunksFit | src/parsed.rs:457-474 | Every entry of every peer fits; the forced first allowed IP of a batch is never too long |
| Lengths.PieceLen | src/parsed.rs:432-436 | `state_len` plus the headers and the allowed IPs is the true encoded length of the first entry |
| Lengths.ContinuationLen | src/parsed.rs:445 | `continuation_len` likewise for the further entries |
| Lengths.RoomsAreLengths | src/parsed.rs:463-471 | Batches stay within their rooms if and only if the entries made from them fit an attribute |
| Lengths.SplitIffTooLong | src/parsed.rs:411-454 | A peer stays one entry if and only if its whole entry fits; the entries of a split peer never fit one message |
| Lengths.SingleIffFits | src/parsed.rs:206-228 | `build` succeeds if and only if nothing is at fault and the unsplit peers fit one attribute, a removed peer counting without allowed IPs |
| Lengths.ChunksConserve | src/parsed.rs:377-382 | The allowed IPs of the entries are those of the peer in order; all other attributes are in the first entry; a further entry is the key and at least one allowed IP |
| Lengths.RenderedEntries | src/parsed.rs:245-270 | The messages hold the entries of their groups, in order |
| Lengths.NameIsRead | src/parsed.rs:296-321 | A name is accepted if and only if it fits `IFNAMSIZ` with its NUL byte and the receiver reads the same name |
| Netlink.SumIsAligned | src/parsed.rs:194-198 | Sums of padded lengths need no padding, so the running sums are encoded lengths |
| Parsed.BuildMessages | src/parsed.rs:237-270 | The loops compute the specified messages, or the fault that is met first: a faulty peer before a fault of the device unless the peers in front of it fill a message |
| Parsed.AcceptedIffSound | src/parsed.rs:237-270 | Messages are built if and only if the device properties and every peer are without a fault, and there always is a first message |
| Parsed.BuildSingle | src/parsed.rs:211-228 | One message, or an error if more are needed; `remove(0)` cannot fail |
| Meaning.ApplyOneMessage | src/parsed.rs:277-292 | One message prepares the device only if it is the first, applies its entries only if the configuration has a list of peers, and does nothing to another device |
| RoundTrip.ReadDevice | src/parsed.rs:336-373 | The device attributes read as the device properties in normal form, the name alone if there are a name and an index |
| Meaning.IfaceRequest | src/parsed.rs:296-332 | A request names its device by the name if there is one, else by the index, never by both |
| Device.OneNameIsNeeded | tests/wireguard_kernel.rs:211-213 | A request that names its device by name and by index, or not at all, changes nothing |
| Parsed.PeerChunks | src/parsed.rs:383-455 | The walk over the attributes and the loop over the batches compute the entries cut greedily; `expect` cannot fail |
| Parsed.IpQueue.TakeBatch | src/parsed.rs:459-474 | Takes a prefix off the list in place: at least one allowed IP, no more than fit, and no fewer |
| Parsed.SiftBuilt | src/parsed.rs:390-399 | The walk separates the state, the allowed IPs and the removal flag of a peer |
| Parsed.DeviceFaultFirst | src/parsed.rs:252-256 | A message that fills up before a faulty peer is reached reports the fault of the device |
| Reassembly.FragmentationIndependence | src/parsed.rs:151-192 | Entries cut along any slices of their allowed IPs and spread over any messages read as the uncut entries, invalid allowed IPs dropped alike |
| Reassembly.PeersRead | src/parsed.rs:168-173 | The peers read are the coalesced entries of all messages in order, and there is a list if any message has a peers attribute |
| Reassembly.CoalesceBlocks | src/parsed.rs:478-486 | Blocks that each coalesce to one peer coalesce together to these peers, coalesced |
| Reassembly.FromMessages | src/parsed.rs:151-192 | Reads all attributes of all messages into one configuration, merging peers in place |
| Reassembly.FromMessage | src/parsed.rs:111-149 | Reads one message; the last attribute of a kind decides |
| Reassembly.PushEntries | src/parsed.rs:170-172 | Pushes the entries of one attribute one after the other |
| Fragments.PiecesCoalesce | src/parsed.rs:478-486 | The pieces of an entry coalesce to the uncut entry |
| Fragments.ReadPiece | src/peer_parsed.rs:140-209 | Where the allowed IPs stand among the attributes makes no difference |
| Coalesce.CoalesceConcat | src/parsed.rs:478-486 | Coalescing is a homomorphism and idempotent: a list may be cut anywhere and each part coalesced first |
| Coalesce.MergeIsAssociative | src/peer_parsed.rs:235-269 | Merging three entries does not depend on the order in which they are merged |
| Coalesce.RunIsGathered | src/peer_parsed.rs:229-269 | A run of entries of one peer becomes the first value given of every property and all allowed IPs and flags in order |
| Coalesce.CoalescedIsSeparate | src/parsed.rs:478-486 | No two neighbours of the result share a present key |
| Coalesce.CoalescedIsIdentity | src/parsed.rs:478-486 | Coalescing changes a list if and only if two neighbours are the same peer |
| Coalesce.NeighboursAreMerged | src/parsed.rs:478-486 | Coalescing changes a list if and only if two neighbours have one and the same public key; peers without a key are kept apart |
| Coalesce.OnePush | src/parsed.rs:478-486 | An entry is merged into the last peer if it has its key, and becomes a peer of its own otherwise |
| Coalesce.PeerEntry.MergeContinuation | src/peer_parsed.rs:235-269 | Updates the fields of the peer to the merge with the continuation |
| Coalesce.PeerList.Push | src/parsed.rs:478-486 | Merges into the last entry in place or appends a new one |
| PeerRoundTrip.ReadState | src/peer_parsed.rs:140-209 | The state attributes read as the peer in normal form without allowed IPs |
| PeerRoundTrip.ReadBuiltIp | src/peer_parsed.rs:409-485 | A built allowed IP reads as itself with its flags in order |
| PeerParsed.Build | src/peer_parsed.rs:271-348 | The attributes in order, or the first fault: key, preshared key, prefix lengths |
| PeerRoundTrip.ReadHead | src/peer_parsed.rs:271-314 | What is built in front of the allowed IPs reads as the peer in normal form without allowed IPs, version and flags |
| PeerParsed.BuildIps | src/peer_parsed.rs:316-330 | Every prefix length is checked before anything is converted |
| PeerParsed.TryFrom | src/peer_parsed.rs:409-462 | An allowed IP needs an address and a prefix length; the last attribute of a kind decides |
| PeerParsed.FromPeer | src/peer_parsed.rs:140-209 | Reads an entry attribute by attribute; invalid times and allowed IPs are ignored |
| Netlink.OneZeroKey | src/peer_parsed.rs:148-154 | The one key whose bytes are all zero is the key of zeros |
| Flags.ListsKeepBits | src/peer_parsed.rs:32-62 | Listing the flags of a word loses no bit, named or not |
| Flags.PeerListIsNamed | src/peer_parsed.rs:32-62 | The flags of a peer are listed by name, in the order of bits 0, 1 and 2, and all other bits as one flag |
| Flags.ListIsNamed | src/parsed.rs:36-57 | So are those of an allowed IP and of a device, with bit 0 named |
| Flags.FlagsAreJoined | src/peer_parsed.rs:32-62 | A bit of a word is set if and only if one of the flags it was made of sets it |
| Keys.KeyTextRoundTrip | src/parsed.rs:488-515 | The text of a key decodes to the key |
| Keys.KeyTextIsCanonical | src/parsed.rs:488-515 | A text that decodes is the text of its key |
| Faults.TextHoldsKey | src/parsed.rs:488-515 | A text is accepted as a key if and only if it is the base64 text of 32 bytes; otherwise the error is an invalid key |
| Base64.DecodeEncode | src/parsed.rs:488-500 | Decoding undoes encoding for every byte string |
| Base64.EncodeDecode | src/parsed.rs:488-500 | Only the canonical text of a byte string is accepted |
| Base64.DigitsAreStandard | src/parsed.rs:488-500 | The digits are those of table 1 of RFC 4648 |
| Base64.QuadIsNumber | src/parsed.rs:488-500 | Four characters and the three bytes they stand for are the same number, in base 64 and in base 256 |
| Base64.TextsAreJoined | src/parsed.rs:488-500 | Texts of multiples of three bytes are joined as the bytes are |
| Base64.LastIsPadded | src/parsed.rs:488-500 | One or two last bytes are filled up with zeros whose characters are replaced by padding |
| Handle.WireguardHandle.Set | src/handle.rs:57-98 | Sends the messages in order up to the first failure, is Ok if and only if none fails, and leaves the device of the run so far, interrupted at a prefix of all entries. A failure has the kind of the first bad reply, and the part n of m if the n-th of m > 1 messages was answered by it; there is no part of a single message or of a request that could not be sent |
| Handle.FailedSetHeals | src/handle.rs:65-69 | After a `set` that failed anywhere, a successful `set` of the same configuration leaves the device the first one would have left, if it replaces all peers or runs after interrupted ones are harmless |
| Handle.SetRepeatedly | src/handle.rs:57-98 | A caller that repeats `set` until it succeeds leaves the device that one successful `set` would have left, under the same condition |
| Handle.PlainCanBeRetried | src/handle.rs:57-98 | The condition holds for every accepted configuration without update-only peers, whatever its keys |
| Idle.InterruptedReapply | tests/wireguard_kernel.rs:186-218 | A run of a configuration that describes the device leaves it unchanged even if it is interrupted anywhere |
| Sessions.ReadThenSet | tests/wireguard_kernel.rs:186-218 | Reading with a handle and setting what was read leaves the device as it was if the replies are a true dump of it, even if setting fails |
| Sessions.SetThenRead | tests/wireguard_kernel.rs:155-184 | Setting with a handle and reading returns the peers that were set, if all peers are replaced and the replies are a complete dump |
| Handle.RunIsPrefix | src/handle.rs:70-98 | The messages before a failure hold a prefix of all entries of the configuration |
| Handle.WireguardHandle.RemovePeer | src/handle.rs:108-120 | Sends at most one message and, if it succeeds, removes the peer from the device it names |
| Handle.WireguardHandle.GetByName | src/handle.rs:26-55 | Asks by name, and returns the first error, an error if there is no reply, or what the replies read as |
| Handle.WireguardHandle.Request | src/handle.rs:123-143 | Logs the request and yields the classified replies |
| Handle.ErrorIffReply | src/handle.rs:146-223 | A request is answered by an error if and only if one of the replies is undecodable, an error with a code, the end of a dump with a status other than zero, an overrun or unexpected |
| Handle.BadReplyIsReported | src/handle.rs:146-223 | The first such reply decides the kind of error: decode error, netlink error, or bug for an overrun and what is unexpected |
| Handle.MessagesAreYielded | src/handle.rs:146-223 | Without such a reply the stream yields exactly the inner messages of the replies, in order |
| Handle.SetAsksForAck | src/handle.rs:75-76 | A request to set has the header flags `NLM_F_REQUEST` and `NLM_F_ACK` and no other one |
| Handle.QueryMessage | src/handle.rs:30-34 | The query for a device is one message that holds only its name |

## Left out

- Sockets, async plumbing, new connections and streams as futures: a reply stream is a finite sequence of replies.
- The code that emits and parses attribute bytes, which lives in other crates: `Emission` states the bytes of the
  attributes that the library knows, and walks over them only to show that the lengths in the headers suffice.
- The kernel beyond the device described above: handshakes, counters, masked host bits of allowed IPs, the peer with the
  device's own key, requests that the kernel rejects.
- Minimality over both levels of splitting together: a peer is cut without regard to the room left in the open message,
  so only each level by itself is optimal.
- Error texts, redaction of keys in errors, `Debug` output and logging: an error is its kind and, for `set`, the part
  that failed. No decision of the library depends on a text.
- Overflow of `usize` sums of lengths, which are bounded by the memory the values occupy.
- Meaning.SplittingPreservesMeaningIff: only for configurations that name every peer once, because a later entry of the
  same peer can make up for a lost one (`Limits.LaterEntryMakesUp`). For all configurations there are
  `SplittingPreservesMeaning` and, for them and their beginnings, `SplittingPreservesMeaningThroughout`.
- RetryExact.RetryHealsIff: that runs interrupted within entries are healed is left open for configurations with an
  update-only entry that alone gives an allowed IP to a peer that is removed further on. There it depends on which
  entries can take effect in part (`Limits.PartialUpdateShows`). When such a configuration can be applied twice is
  characterised like that of all others.
- SetThenGet.EntriesComeBack: not the last handshake and the counters, which the kernel keeps itself, and not the
  properties of the device.
- Coalesce.PeerEntry.MergeContinuation: assigns every scalar field, to its old value if that is present, where the
  source assigns only the missing ones.
