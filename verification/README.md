# Verified model of an 802.11n Wi-Fi driver

A Dafny model of the parts of the driver (under `trunk_driver/`) whose correctness is hardest to see
from the code, with proofs about every input, every run or every reachable state.

| file | models |
|---|---|
| `SeqNum.dfy`, `Window.dfy`, `Reorder.dfy`, `ReorderControl.dfy` | the receive block-ack reorder buffer (`nic/rx.c`) against the receive reordering buffer of section 9.21.7.6 of IEEE 802.11-2012 |
| `Bytes.dfy`, `Crc32.dfy`, `Arc4.dfy`, `TkipKey.dfy`, `LinkCipher.dfy`, `Michael.dfy` | the link ciphers: CRC-32, ARC4, TKIP key mixing, WEP and TKIP frames, the Michael code |
| `XorLaws.dfy`, `Arc4Laws.dfy`, `TkipVectors.dfy`, `CrcResidue.dfy`, `LinkIv.dfy`, `MichaelLaws.dfy` | what fixes the ciphers beyond their inverses: bit laws, known keys and codes, the remainder of a checked payload, the IV a sender writes |
| `ApMessage.dfy`, `SecurityIe.dfy`, `ApRequest.dfy`, `ApStation.dfy`, `ApAdmission.dfy`, `ApDeparture.dfy`, `AccessPoint.dfy`, `ApShortFrames.dfy`, `ApElementRuns.dfy`, `ApTeardown.dfy` | the access point's message pools, association requests, station threads, their interleavings and their clean-up (`nic/ap.c`, `nic/auth.c`, `nic/assoc.c`, `nic/wf_80211.c`) |
| `MlmeLock.dfy`, `MlmeStages.dfy` | the station-side threads of interfaces that share one hardware lock (`nic/mlme.c`, `nic/scan.c`, `nic/auth.c`, `nic/assoc.c`) |
| `TxPool.dfy`, `BitWord.dfy`, `TxDesc.dfy` | the transmit frame pool and the hardware descriptor (`nic/tx.c`, `nic/nic_io.h`) |
| `Elements.dfy` | the information-element writer and walkers (`nic/ie.c`, `nic/ap.c`, `nic/wf_80211.c`) |

Lists, queues and counters that the driver updates in place are class fields or arrays; each such
method is proved equal to a function of the old state, and the properties are proved about those
functions. A protothread is a state machine whose points are the places where it waits, and one step
is one resumption up to the next wait; a wait that is already over is passed by a further step with
nothing in between. Receive-side calls and the threads of other stations or interfaces come between
any two steps. Timers, random numbers, message arrival, hardware success and
failure are inputs of the steps.

`dafny verify dfyconfig.toml` checks the whole project.

## Main results

- The list-based reorder buffer refines the standard's window on every run of arrivals and timer
  firings; numbers within half a circle of the window are delivered as they were sent, strictly
  ascending across wraps, every packet is in exactly one of delivered, freed and pending, a free node
  always exists, the timer is armed whenever packets are pending, and firings alone empty the list.
- The table-driven CRC equals the bit-at-a-time one on every byte string; frames of every length
  survive WEP and TKIP protection, and a frame with room for a check value opens exactly when it is
  the sealing of one; phase 1 of TKIP is a bijection and the packet keys of distinct (address, packet
  number) are distinct, so one sender's keys repeat only when its packet number wraps; the streamed
  Michael code equals the word-wise definition for every way of splitting the message, and is a
  bijection of the key. Every payload followed by its check value leaves one fixed remainder, and
  whole packet keys, a key stream and a code are computed.
- Along every run of the access point, association and disassociation indications alternate, exactly
  when no re-association meets an operating-system hook that overwrites the station's state. Over
  every sequence of arrivals, resumptions and timeouts a station is admitted exactly when the
  messages it is resumed with come in time and are acceptable, as their buffers read; on every run a
  station above "associating" got there on frames of its own and a challenge issued to it, its
  request said so itself exactly from 28 bytes on, its answer was sealed with the key exactly from
  32 bytes on and seals the challenge exactly from 168, and its association elements are its own
  exactly when its bytes parse. Messages are conserved per tag, loads never run past a buffer, and
  the range that the decryption computes does so exactly under 28 bytes; the element walk leaves a
  buffer, and the copy of an element its field, under exact conditions on the request. A connected
  station goes exactly when a turn ends its connection, and then its whole queue is freed and the
  end reported. Its clean-up loses a message exactly when one is loaded between its clearing loop
  and the removal of the record, or is on a record that is taken again too early.
- Over every run of any number of interfaces, at most one is past its lock wait, every finished
  sub-thread has released the lock and restarted transmission, and the two exits that would keep the
  lock are unreachable; each stage of a connection was reached by winning every stage before it, and a
  stage that fails or is aborted breaks the connection at that step.
- Transmit frames are conserved on every run; a filled and checksummed descriptor decodes to what the
  frame asked for and its ten half-words cancel.
- Written RSN and WPA elements are read back exactly when they fit in 253 bytes, and are accepted
  exactly when they do and their ciphers agree with the access point's.
- A byte string parses to a list of elements exactly when it is the encoding of that list; the walk
  visits what the writer wrote; resetting the beacon channel changes only the channel byte under an
  exact condition.

## Where the code misses a property

- Shared-key answers: the code reads transaction, algorithm and challenge from the pooled buffer,
  whatever the frame's length (`nic/auth.c:380-402`), and buffers are reused last in, first out. An
  accepted answer seals the challenge exactly when it is at least 168 bytes long
  (`ApStation.AnswerWasSealed`); from 32 to 167 bytes it is still a sealing under the key
  (`ApStation.AnswerUsedKey`). From 28 to 31 bytes the payload length of the decryption wraps
  (`nic/sec_wep.c:151`) and a frame opens exactly when it ends in zeros (`LinkCipher.ShortOpens`).
  `ApShortFrames.KeylessAdmitted` and `ApShortFrames.ShortAdmitted` are runs that let a station
  through on 28 and on 36 bytes. Under 28 bytes the decryption runs past the buffer
  (`ApStation.PastIffShort`, `AccessPoint.RunsPastExactly`, `ApShortFrames.HeaderRunsPast`).
- First messages: transaction and algorithm are read from the buffer too, so a message says them
  itself exactly when it is at least 28 bytes long (`ApStation.RequestSaidItself`);
  `ApShortFrames.HeaderAdmitted` is a run on a 24-byte one.
- Association requests: the element walk ends at the first offset behind the frame, so a cut-off last
  element is read from what the buffer held before (`nic/assoc.c:395-398`). What was accepted are the
  request's own elements exactly when its bytes parse (`ApRequest.GrantedOwn`);
  `ApElementRuns.CutAdmitted` is a run that lets a station through on a name it did not send. The walk
  leaves the buffer exactly when the request ends before its elements start, as a 28-byte
  reassociation request does, or its cut-off element runs past the buffer too
  (`ApRequest.WalkMeaning`, `AccessPoint.RunsLeaveExactly`); `ApElementRuns.LongStrays` is such a run.
- Cipher elements: the caller passes an element's length to the parsers in eight bits
  (`nic/assoc.c:578`, `nic/assoc.c:625`), so an element of 254 or 255 bytes is refused whatever its
  ciphers. `ApRequest.LongRsnRefused` is such an element; `ApRequest.RsnAccepted` and
  `ApRequest.WpaAccepted` give the exact condition.
- Copies into the record: `nic/assoc.c:671-731` copies WMM and HT elements with the length they claim.
  They fit up to 22 bytes of WMM data, 26 bytes of HT capability and a pointer's size of HT operation
  data (`nic/wdn.h:205-219`); longer ones run over the fields behind, the cipher flags among them.
  `ApRequest.SpillsExactly` and `AccessPoint.RunsLeaveExactly` give the exact condition,
  `ApElementRuns.WmmOverwrites` a run.
- Clean-up: a message loaded between the clearing loop and the removal of the record is lost, as the
  cfg80211 request to drop a station does when it comes there
  (`os/linux/cfg80211/wf_cfg80211.c:3778-3782`), and so are those on a dropped record that is taken
  again while its thread still clears it (`nic/wdn.c:221-263`). `ApTeardown.DropLoses` and
  `ApTeardown.RetakeLoses` are such interleavings; `ApTeardown.ClosingConserves` gives the exact
  condition. Between resumptions that request does nothing (`AccessPoint.DeletesNothing`).
- Element search: on an empty list the search looks at the byte behind it. `Elements.Search` states
  when it is right; `Elements.EmptySearchFinds` is a failing input.
- Indications: `os/linux/cfg80211/wf_cfg80211.c:3252` sets the station's state inside the
  disassociation hook, so the re-association branch of `nic/ap.c:389-397` falls through to the
  clean-up and the association is closed twice. `AccessPoint.DoubleClose` is such a run;
  `AccessPoint.IndicationsAlternate` gives the exact condition.
- Beacon channel: an empty DS element in front of another element makes the reset overwrite that
  element's identifier (`nic/ap.c:1874-1876`). `Elements.EmptyDsOverwritesNext` is such a list;
  `Elements.ResetIffChannelByte` gives the exact condition.
- Frame pool: deleting a frame that is held rather than pending counts a frame off the pending list
  that is not on it, as `nic/tx.c:1376-1385` does. `TxPool.HeldDeleteBreaks` is that case;
  `TxPool.DeleteKeepsIffPending` gives the exact condition.
- Idle limit: the comment at `nic/ap.c:352` speaks of an idle timeout, but traffic does not reset the
  counter, so quiet seconds add up over the whole connection (`ApAdmission.IdleLimit`).
- Stop counter: the 16-bit counter is restored by the pending-queue clear except at its largest
  value (`TxPool.PendingClearMeaning`).

## Model

| member | source | states |
|---|---|---|
| `SeqNum.SnLessUnwrapped` | trunk_driver/nic/tx.h:242-243 | the 12-bit comparison macro is the order of the unwrapped numbers whenever these differ by less than 2048 |
| `SeqNum.UnwrapRecovers` | trunk_driver/nic/tx.h:242-243 | a number less than half the space from a reference is recovered from its residue |
| `Window.NextMissingUnique` | trunk_driver/nic/rx.c:2128-2186 | the standard's next number to release is the only one with everything up to it received and itself missing |
| `Window.StepAdvances` | trunk_driver/nic/rx.c:2128-2282 | one step of the reference window releases ascending numbers below the new start and keeps the window invariant |
| `Window.RunReleasesInOrder` | trunk_driver/nic/rx.c:2128-2282 | over every run of the reference window the released numbers strictly ascend |
| `Window.RunReleasesTrue` | trunk_driver/nic/rx.c:2128-2282 | if each true number is within half a circle of the window start it meets, everything held or released is under its true number |
| `Reorder.NodeAvailable` | trunk_driver/nic/rx.c:1661-1672 | at most window size minus one entries are pending, free and pending nodes are 64, so a node is always free |
| `Reorder.FindSlotMeaning` | trunk_driver/nic/rx.c:1800-1830 | the backward search finds a duplicate, or the one place that keeps the list ascending |
| `Reorder.ShiftMeaning` | trunk_driver/nic/rx.c:1963-1976 | both wrap branches of the window shift give the start of the window that ends at the packet |
| `Reorder.CheckTests` | trunk_driver/nic/rx.c:1939-1982 | the check's comparisons on 12-bit numbers decide behind, in and beyond the window |
| `Reorder.CheckMeaning` | trunk_driver/nic/rx.c:1939-1982 | a packet is turned away exactly when it lies behind the window; otherwise the start moves to where the standard puts it |
| `Reorder.UploadMeaning` | trunk_driver/nic/rx.c:2128-2186 | the upload takes off the entries behind the start and then the contiguous run, and nothing more |
| `Reorder.UploadRefines` | trunk_driver/nic/rx.c:2128-2186 | the upload is the standard's release of what fell out plus the contiguous run |
| `Reorder.EnqueueRefines` | trunk_driver/nic/rx.c:1781-1859 | queueing refuses exactly duplicates of a pending packet and otherwise stores in order |
| `Reorder.CoreRefines` | trunk_driver/nic/rx.c:2217-2282 | the whole step on a packet refines the standard's window step |
| `Reorder.TimeoutRefines` | trunk_driver/nic/rx.c:2188-2215 | the gap-timer handler refines skipping to the first packet received |
| `Reorder.ReactRefines` | trunk_driver/nic/rx.c:2188-2282 | every arrival or firing keeps the invariant and the correspondence with the standard's window |
| `Reorder.RunsRefine` | trunk_driver/nic/rx.c:2188-2282 | every run from set-up agrees with the standard's window, never waits for a node and accounts for every packet once |
| `Reorder.RunsDeliverInOrder` | trunk_driver/nic/rx.c:2128-2282 | over every interleaving the unwrapped numbers delivered strictly ascend |
| `Reorder.RunsDeliverTrue` | trunk_driver/nic/rx.c:2128-2282 | under that condition the driver hands up packets under the numbers they were sent with, strictly ascending |
| `Reorder.ReactConserves` | trunk_driver/nic/rx.c:2217-2282 | every step keeps the nodes a partition of the pool and each packet in exactly one of delivered, freed, pending |
| `Reorder.UploadConserves` | trunk_driver/nic/rx.c:2128-2186 | what the upload takes off the list is what it delivers, and its nodes return to the pool |
| `Reorder.EnqueueConserves` | trunk_driver/nic/rx.c:1781-1859 | queueing moves one node from the free list to the pending list and adds one packet |
| `Reorder.FreedExactly` | trunk_driver/nic/rx.c:2250-2273 | a packet is freed exactly when it lies behind the window or repeats a pending one |
| `Reorder.TimerMeaning` | trunk_driver/nic/rx.c:2177-2280 | a step that uploads sets the timer exactly when packets stay pending; a firing on a non-empty list delivers at least one |
| `Reorder.PendingIsArmed` | trunk_driver/nic/rx.c:2177-2280 | over every run, whenever packets are pending the gap timer is armed |
| `Reorder.FiringShrinks` | trunk_driver/nic/rx.c:2188-2215 | each firing on a non-empty list makes it shorter |
| `Reorder.FiringsEmpty` | trunk_driver/nic/rx.c:2188-2215 | with no arrivals, as many firings as there are entries empty the list |
| `Reorder.InvStep` | trunk_driver/nic/rx.c:2188-2282 | every arrival or firing keeps sortedness, window bounds and the node partition |
| `ReorderControl.BaControl.constructor` | trunk_driver/nic/rx.c:1643-1672 | set-up gives the initial record with 64 free nodes |
| `ReorderControl.BaControl.FreeDequeue` | trunk_driver/nic/rx.c:1696-1727 | the head free node, or none |
| `ReorderControl.BaControl.FreeEnqueue` | trunk_driver/nic/rx.c:1729-1750 | a node returns to the front of the free list |
| `ReorderControl.BaControl.CheckExpected` | trunk_driver/nic/rx.c:1939-1982 | the in-place check equals the function |
| `ReorderControl.BaControl.PendingEnqueue` | trunk_driver/nic/rx.c:1781-1859 | the in-place sorted enqueue equals the function, and its wait for a node never iterates |
| `ReorderControl.BaControl.PendingDequeue` | trunk_driver/nic/rx.c:1861-1893 | the head pending entry is unlinked and counted off |
| `ReorderControl.BaControl.UploadReady` | trunk_driver/nic/rx.c:2128-2186 | the upload loop equals the recursive function and ends |
| `ReorderControl.BaControl.DeliverPending` | trunk_driver/nic/rx.c:2275-2280 | upload, and the timer armed if packets stay |
| `ReorderControl.BaControl.TimeoutHandle` | trunk_driver/nic/rx.c:2188-2215 | the in-place timer handler equals the function and keeps the invariant |
| `ReorderControl.BaControl.ReorderCore` | trunk_driver/nic/rx.c:2217-2282 | the in-place packet step equals the function and keeps the invariant |
| `Crc32.TableEntryMeaning` | trunk_driver/nic/sec_wep.c:35-64 | an entry built by byte reversal and the MSB-first polynomial loop is eight reflected steps on its index |
| `Crc32.EightSteps` | trunk_driver/nic/sec_wep.c:66-81 | eight reflected steps on a word are its table entry and the shifted rest |
| `Crc32.ByteStep` | trunk_driver/nic/sec_wep.c:66-81 | one table step is feeding the eight bits of a byte |
| `Crc32.ReflectIsButterfly` | trunk_driver/nic/sec_wep.c:28-33 | reversing the four bytes bit by bit is the full reversal of the word |
| `Crc32.BuildEntry` | trunk_driver/nic/sec_wep.c:35-64 | the entry loop computes the table function |
| `Crc32.CrcEngine.InitTable` | trunk_driver/nic/sec_wep.c:35-64 | the table is built once and holds every entry |
| `Crc32.CrcEngine.GetCrc` | trunk_driver/nic/sec_wep.c:66-81 | the table-driven loop gives the bit-at-a-time reflected CRC-32 of every byte string |
| `Arc4.ScheduledIsPermutation` | trunk_driver/nic/sec_arc4.c:19-44 | for every non-empty key the scheduled state is a permutation of 0..255 |
| `Arc4.NextValid` | trunk_driver/nic/sec_arc4.c:46-63 | every key-stream byte keeps the state a permutation and lies in 0..255 |
| `Arc4.CryptSplits` | trunk_driver/nic/sec_arc4.c:65-72 | two consecutive calls are one call on the concatenation |
| `Arc4.CryptTwice` | trunk_driver/nic/sec_arc4.c:65-72 | encrypting twice from the same state is the identity |
| `Arc4.MixKey` | trunk_driver/nic/sec_arc4.c:19-44 | the key schedule loop equals the recursive schedule |
| `Arc4.Context.constructor` | trunk_driver/nic/sec_arc4.c:19-44 | initialisation gives the scheduled state |
| `Arc4.Context.NextByte` | trunk_driver/nic/sec_arc4.c:46-63 | the in-place step equals the function |
| `Arc4.Context.Encrypt` | trunk_driver/nic/sec_arc4.c:65-72 | the in-place loop replaces exactly the given range by its encryption |
| `XorLaws.Xor8Bits` | trunk_driver/nic/sec_arc4.c:65-72 | the exclusive or on byte values is the one of the machine, bit by bit |
| `XorLaws.Xor16Bits` | trunk_driver/nic/sec_tkip.c:27-33 | the exclusive or on word values is the one of the machine, byte by byte |
| `Arc4Laws.DoubledKey` | trunk_driver/nic/sec_arc4.c:19-44 | the key enters the schedule cyclically: a key and the same key written twice give the same state |
| `Arc4Laws.RotorRounds` | trunk_driver/nic/sec_arc4.c:19-44 | for one 256-byte key the state after every round, up to the last |
| `Arc4Laws.OutputPlace` | trunk_driver/nic/sec_arc4.c:46-63 | the byte handed out is the entry of the new state at the sum of the two entries just exchanged |
| `Arc4Laws.RotorStream` | trunk_driver/nic/sec_arc4.c:19-63 | the first three bytes of that key's stream |
| `Arc4Laws.RotorCrypt` | trunk_driver/nic/sec_arc4.c:65-72 | three zeros encrypted under that key |
| `TkipKey.Phase1Bijective` | trunk_driver/nic/sec_tkip.c:139-160 | for a fixed key, phase 1 is a bijection between (TA, IV32) and 80-bit keys, with an explicit inverse |
| `TkipKey.Phase2Injective` | trunk_driver/nic/sec_tkip.c:185-226 | for a fixed key, phase 2 is injective in (P1K, IV16): the inverse recovers them from the 16 key bytes |
| `TkipKey.PacketKeysDistinct` | trunk_driver/nic/sec_tkip.c:162-226 | distinct (TA, IV32, IV16) under one key give distinct RC4 keys |
| `TkipKey.UnmixMix` | trunk_driver/nic/sec_tkip.c:194-200 | the S-box mixing of the six words is undone |
| `TkipKey.UnsweepSweep` | trunk_driver/nic/sec_tkip.c:202-208 | the final sweep is undone |
| `TkipKey.RoundInPlace` | trunk_driver/nic/sec_tkip.c:151-159 | the in-place round equals the function |
| `TkipKey.MixPhase1` | trunk_driver/nic/sec_tkip.c:139-160 | the phase 1 loop on the array gives the phase 1 key |
| `TkipKey.MixInPlace` | trunk_driver/nic/sec_tkip.c:194-200 | the in-place mixing equals the function |
| `TkipKey.SweepInPlace` | trunk_driver/nic/sec_tkip.c:202-208 | the in-place sweep equals the function |
| `TkipKey.EmitKey` | trunk_driver/nic/sec_tkip.c:214-225 | the copy loop lays out the sixteen key bytes |
| `TkipKey.MixPhase2` | trunk_driver/nic/sec_tkip.c:185-226 | phase 2 on arrays gives the packet key |
| `TkipVectors.WordsAreKey` | trunk_driver/nic/sec_tkip.c:30 | the eight key words are the temporal key read as one little-endian number |
| `TkipVectors.GuardBits` | trunk_driver/nic/sec_tkip.c:216 | the second key byte as the code writes it, with bit operations |
| `TkipVectors.Rotated` | trunk_driver/nic/sec_tkip.c:22 | the rotation moves the lowest bit to the top and every other one down |
| `TkipVectors.FirstPacketKey` | trunk_driver/nic/sec_tkip.c:139-226 | the sixteen bytes of one packet key with all tables zero |
| `TkipVectors.SecondPacketKey` | trunk_driver/nic/sec_tkip.c:139-226 | the sixteen bytes of another, with tables that keep every word, sixteen different key bytes, an address and a packet number |
| `CrcResidue.LeBytesNumber` | trunk_driver/nic/sec_wep.c:118-119 | the four bytes of the check value are the code as a number, lowest byte first |
| `CrcResidue.IcvResidue` | trunk_driver/nic/sec_wep.c:66-81 | every payload followed by its check value leaves the remainder 0xDEBB20E3 |
| `LinkIv.PnReadBack` | trunk_driver/nic/sec.h:227-235 | the packet number that a sender writes in front of a TKIP frame is the one the ciphers read |
| `LinkIv.ClearPart` | trunk_driver/nic/tx.h:255-266 | the first three bytes of the packet key stand in the clear in front of the frame |
| `LinkIv.WepIvChooses` | trunk_driver/nic/tx.h:246-253 | a WEP frame is sealed under the three lowest bytes of its number and the default key that was chosen |
| `LinkIv.KeysRepeatOnlyOnWrap` | trunk_driver/nic/tx.h:255-266 | of one sender's frames under one temporal key the packet keys of two that are at most 2^48 frames apart are equal exactly at that distance |
| `LinkCipher.OpenSealed` | trunk_driver/nic/sec_wep.c:179-283 | opening what was sealed with the same key succeeds and restores header and payload |
| `LinkCipher.SealOpened` | trunk_driver/nic/sec_wep.c:235-283 | a frame that opens is the sealing of what it opened to if it has room for a check value, and otherwise ends in zeros |
| `LinkCipher.OpensExactlySealed` | trunk_driver/nic/sec_wep.c:128-283 | the frames that open under a key are the sealings under it, exactly when the frame has room for a check value or does not end in zeros |
| `LinkCipher.ShortOpens` | trunk_driver/nic/sec_wep.c:143-175 | a frame without room for a check value, whose payload length wraps, opens exactly when its last four bytes are zero |
| `LinkCipher.ZeroIvOpens` | trunk_driver/nic/sec_wep.c:143-175 | a header with an all-zero IV and nothing else opens under every key and is no sealing |
| `LinkCipher.SealInTwoSteps` | trunk_driver/nic/sec_wep.c:222-230 | encrypting payload and check value in two calls is encrypting them as one string |
| `LinkCipher.WepRoundTrip` | trunk_driver/nic/sec_wep.c:83-283 | WEP data and authentication frames of every length survive the round trip, with the receiver's key rebuilt from the IV |
| `LinkCipher.TkipRoundTrip` | trunk_driver/nic/sec_tkip.c:228-378 | TKIP frames of every length survive the round trip |
| `LinkCipher.SealFrame` | trunk_driver/nic/sec_wep.c:222-230 | the two-call encryption in place equals the sealing |
| `LinkCipher.OpenFrame` | trunk_driver/nic/sec_wep.c:264-280 | the in-place decryption and comparison equal the opening, also where the payload length wraps |
| `LinkCipher.WepEncrypt` | trunk_driver/nic/sec_wep.c:179-233 | a WEP frame is sealed, any other algorithm is refused and left alone |
| `LinkCipher.WepDecrypt` | trunk_driver/nic/sec_wep.c:235-283 | a WEP frame is opened, with failure on a check-value mismatch |
| `LinkCipher.WepEncryptAuth` | trunk_driver/nic/sec_wep.c:83-126 | the authentication variant, which stores the check value first, gives the same sealing |
| `LinkCipher.WepDecryptAuth` | trunk_driver/nic/sec_wep.c:128-177 | the authentication variant opens the same way, from 28 bytes on |
| `LinkCipher.FrameKey` | trunk_driver/nic/sec_tkip.c:252-265 | the packet key is mixed from the frame's own IV |
| `LinkCipher.TkipEncrypt` | trunk_driver/nic/sec_tkip.c:228-288 | a TKIP frame is sealed under its packet key |
| `LinkCipher.TkipDecrypt` | trunk_driver/nic/sec_tkip.c:291-378 | the missing-key cases leave the frame alone; otherwise it is opened under its packet key |
| `Michael.AppendSplits` | trunk_driver/nic/sec.c:93-100 | the stream does not depend on how the message is split into appends |
| `Michael.StreamHolds` | trunk_driver/nic/sec.c:71-91 | the context has absorbed the whole words and holds the bytes after them |
| `Michael.StreamIsMic` | trunk_driver/nic/sec.c:71-116 | streaming the padded message gives the word-wise code and an empty buffer |
| `MichaelLaws.RolBits` | trunk_driver/nic/sec.h:237 | bit by bit, a rotation to the left for every distance |
| `MichaelLaws.RorBits` | trunk_driver/nic/sec.h:238 | bit by bit, a rotation to the right for every distance |
| `MichaelLaws.SwapBits` | trunk_driver/nic/sec.c:79-81 | bit by bit, the bytes of each half exchanged |
| `MichaelLaws.BlockBijective` | trunk_driver/nic/sec.c:75-87 | for every message word the mixing is a bijection, with its inverse |
| `MichaelLaws.CodeGivesKey` | trunk_driver/nic/sec.c:70-118 | for every message the code is a bijection of the key, with its inverse |
| `MichaelLaws.WordReadBack` | trunk_driver/nic/sec.c:31-55 | a word written as four bytes and read again is the same |
| `MichaelLaws.KnownBlocks` | trunk_driver/nic/sec.c:75-87 | the mixing of three fixed words |
| `MichaelLaws.EmptyCode` | trunk_driver/nic/sec.c:103-118 | the eight bytes of the empty message's code under the zero key |
| `Michael.MicData.constructor` | trunk_driver/nic/sec.c:56-69 | setting the key resets the context |
| `Michael.MicData.AppendOne` | trunk_driver/nic/sec.c:71-91 | the in-place byte step equals the function |
| `Michael.MicData.AppendMany` | trunk_driver/nic/sec.c:93-100 | the append loop equals the function |
| `Michael.MicData.GetMic` | trunk_driver/nic/sec.c:102-116 | the padding loop ends on a word boundary, the result is the code of the message and the context is reset |
| `Michael.TxMic` | trunk_driver/nic/tx.c:453-564 | a TKIP frame without a key is refused; otherwise the code of destination, source, priority and the payload of all fragments is stored behind the last one |
| `Michael.AppendFragments` | trunk_driver/nic/tx.c:518-541 | streaming the fragments one by one is streaming their concatenation |
| `ApMessage.ReleaseAllCounts` | trunk_driver/nic/ap.c:126-160 | freeing returns each message to the pool of its own tag and buffer size, and adds nothing else |
| `ApMessage.LoadKeeps` | trunk_driver/nic/ap.c:81-110 | loading moves one message of the tag, and a frame within the tag's capacity fits its buffer |
| `ApMessage.LoadFits` | trunk_driver/nic/ap.c:81-110 | loading keeps every queued message in a buffer of its tag's size exactly when the pool is empty or the frame is within the tag's capacity |
| `ApMessage.InitialPoolInv` | trunk_driver/nic/ap.c:163-256 | set-up gives every tag its depth of messages of its own size |
| `ApMessage.InitialSizes` | trunk_driver/nic/ap.c:163-256 | the number and byte size of the messages of each tag at set-up, all blank |
| `ApMessage.MsgPool.constructor` | trunk_driver/nic/ap.c:163-256 | the five allocation loops give the initial pools |
| `ApMessage.MsgPool.Fill` | trunk_driver/nic/ap.c:173-188 | one allocation loop fills one tag's queue to its depth |
| `ApMessage.MsgPool.LoadMsg` | trunk_driver/nic/ap.c:81-110 | in-place load equals the function, with -1 exactly on an empty pool |
| `ApMessage.MsgPool.FreeHead` | trunk_driver/nic/ap.c:126-141 | the head message goes back to the head of its tag's queue |
| `ApMessage.MsgPool.Clearup` | trunk_driver/nic/ap.c:143-161 | the clear-up loop frees the whole queue and ends |
| `SecurityIe.UnionMeaning` | trunk_driver/nic/wf_80211.c:246-256 | the selector loop finds a cipher exactly when one of the selectors stands for it |
| `SecurityIe.ReadSuites` | trunk_driver/nic/wf_80211.c:246-256 | the selector loop gives exactly the ciphers of its selectors |
| `SecurityIe.SuitesReadBack` | trunk_driver/nic/wf_80211.c:184-257 | a written group cipher and list of pairwise ciphers are read back, whatever follows |
| `SecurityIe.RsnReadBack` | trunk_driver/nic/wf_80211.c:158-261 | a written RSN element is read back exactly when it fits in 253 bytes; a longer one reports an error |
| `SecurityIe.WpaReadBack` | trunk_driver/nic/wf_80211.c:331-452 | a written WPA element is read back exactly when it fits in 253 bytes; a longer one reports an error that is refused |
| `SecurityIe.CutSuites` | trunk_driver/nic/wf_80211.c:184-257 | a written list cut off at any byte is an error with its own code, except behind the version and behind the group cipher, where the outputs not reached stay as they were |
| `SecurityIe.OtherSuites` | trunk_driver/nic/wf_80211.c:184-244 | another version and an empty list are errors |
| `SecurityIe.OtherVendor` | trunk_driver/nic/wf_80211.c:331-372 | a vendor element of another type is reported as no WPA element, one too short for its type as an error |
| `SecurityIe.WmmExactly` | trunk_driver/nic/wf_80211.c:494-534 | a vendor element is a WMM element exactly if its bytes say that type, subtype 0 and version 1; where it ends before these, the bytes behind it decide |
| `ApRequest.RsnAccepted` | trunk_driver/nic/assoc.c:576-621 | a written RSN element is accepted exactly when it fits in 253 bytes, its group cipher is the access point's and one of its pairwise ciphers is among them |
| `ApRequest.WpaAccepted` | trunk_driver/nic/assoc.c:623-668 | a written WPA element is accepted exactly when it fits in 253 bytes, its multicast cipher is the access point's and one of its unicast ciphers is among them |
| `ApRequest.LongRsnRefused` | trunk_driver/nic/assoc.c:576-581 | a 254-byte RSN element is refused although its ciphers agree |
| `ApRequest.WalkIsWhole` | trunk_driver/nic/assoc.c:395-398 | the walk visits the whole elements, then the one that is cut off if it can be looked at inside the buffer, and leaves the buffer exactly when it cannot |
| `ApRequest.WalkMeaning` | trunk_driver/nic/assoc.c:383-398 | the walk leaves the buffer exactly on a request that ends before its elements start or whose cut-off element runs past the buffer too; it visits the frame's own elements exactly when they parse |
| `ApRequest.ShortStays` | trunk_driver/nic/assoc.c:383-398 | a request that reaches its elements and has at most 540 bytes keeps the walk inside |
| `ApRequest.StraysExactly` | trunk_driver/nic/assoc.c:383-731 | the walk leaves the buffer before an element is refused exactly when the request leaves it and the whole elements in front are acceptable |
| `ApRequest.SpillsExactly` | trunk_driver/nic/assoc.c:671-731 | a copy runs past its field exactly when an element too long for it is reached behind acceptable ones and is acceptable |
| `ApRequest.GrantedSpills` | trunk_driver/nic/assoc.c:671-731 | on an accepted request, exactly when some element is too long for its field |
| `ApRequest.WmmSpills` | trunk_driver/nic/assoc.c:671-688 | a 40-byte WMM element is accepted by every access point and does not fit its field |
| `ApRequest.FitsInBytes` | trunk_driver/nic/assoc.c:671-731 | the copies fit exactly up to 26, pointer-size and 22 bytes of HT capability, HT operation and WMM data |
| `ApRequest.WrittenWalked` | trunk_driver/nic/assoc.c:383-398 | the walk over a written association or reassociation request visits exactly the elements that were written |
| `ApRequest.OfferedMeaning` | trunk_driver/nic/assoc.c:437-447 | a rate is offered exactly when it stands in the access point's list before the first zero, up to the basic-rate bit |
| `ApRequest.ScanAccepts` | trunk_driver/nic/assoc.c:369-731 | an association request is accepted exactly when the walk over its buffer stays inside and every element is acceptable after the ones before it: own name, offered rates that fit, matching ciphers, no HT the access point lacks |
| `ApRequest.GrantedOwn` | trunk_driver/nic/assoc.c:383-731 | an accepted request reaches the place of its elements, and what was accepted are its own elements exactly when its bytes parse |
| `ApRequest.NameGranted` | trunk_driver/nic/assoc.c:395-424 | a request for the name and its first 30 bytes alone are both accepted in a buffer that starts with the full one |
| `ApRequest.ScanKeeps` | trunk_driver/nic/assoc.c:369-671 | unless a copy ran past its field, recorded RSN and WPA ciphers are non-empty parts of the access point's; recorded rates fit and are its own or cleared |
| `ApRequest.TakeMeaning` | trunk_driver/nic/assoc.c:434-472 | the rate loop records the offered rates, in order and behind those it had, and refuses exactly when they exceed the array |
| `ApRequest.ListRecorded` | trunk_driver/nic/assoc.c:369-731 | an accepted list leaves each flag set exactly if some element says so, and the ciphers common to the access point and the last element that names any |
| `ApRequest.RequestRecorded` | trunk_driver/nic/assoc.c:369-731 | an accepted request is recorded by what its elements say, whatever the record held; only the HT flag stays set |
| `ApRequest.ScanLoop` | trunk_driver/nic/assoc.c:383-731 | the offset loop on the buffer equals the function, and accepts exactly the acceptable requests |
| `ApStation.AssocKeeps` | trunk_driver/nic/assoc.c:317-749 | the association sub-thread ends connected with one association indication, or leaves with none |
| `ApStation.AuthKeeps` | trunk_driver/nic/auth.c:238-303 | the first authentication message is accepted only with transaction 1 and the algorithm asked for |
| `ApStation.ReplyKeeps` | trunk_driver/nic/auth.c:305-335 | the waits for the station's next frame keep the invariant and report nothing by themselves |
| `ApStation.SharedKeeps` | trunk_driver/nic/auth.c:343-408 | the third message is accepted only if it is protected, decrypts, and its buffer holds transaction 3, the algorithm and the challenge |
| `ApStation.MaintainKeeps` | trunk_driver/nic/ap.c:315-417 | maintenance keeps the station invariant and reports a disassociation exactly when it leaves |
| `ApStation.RejoinKeeps` | trunk_driver/nic/ap.c:380-401 | a re-association closes the old association once; with a hook that overwrites the state it closes it twice |
| `ApStation.ResumeKeeps` | trunk_driver/nic/ap.c:420-487 | every resumption keeps the station invariant and reports exactly the change of connection, but for the hook case |
| `ApStation.ResumeConserves` | trunk_driver/nic/ap.c:315-487 | no resumption loses, adds or retags a message |
| `ApStation.AnswerWasSealed` | trunk_driver/nic/auth.c:369-408 | an accepted answer is the WEP sealing of a frame whose payload holds the challenge exactly when it is at least 168 bytes long |
| `ApStation.AnswerUsedKey` | trunk_driver/nic/auth.c:369-408 | an accepted answer is the sealing of some frame under the station's key exactly when it is at least 32 bytes long |
| `ApStation.PastIffShort` | trunk_driver/nic/sec_wep.c:147-165 | the 32-bit lengths take the decryption past the message's buffer exactly when the message is under 28 bytes long |
| `ApStation.ResumeSound` | trunk_driver/nic/ap.c:315-487 | between resumptions no record is in a state that clean-up is entered with, and a recorded request was in a buffer of its own tag |
| `ApStation.RequestSaidItself` | trunk_driver/nic/auth.c:264-266 | an accepted first message carries its transaction and algorithm itself exactly when it is at least 28 bytes long |
| `ApStation.KeylessAnswer` | trunk_driver/nic/auth.c:369-408 | for every challenge there is a 28-byte answer, in a buffer that holds the rest, that is accepted without a key and is no sealing under it |
| `ApStation.ShortAnswer` | trunk_driver/nic/auth.c:369-408 | for every challenge there is a 36-byte sealed answer that is accepted and holds no byte of the challenge |
| `ApAdmission.RequestExact` | trunk_driver/nic/auth.c:238-346 | authentication goes on exactly when the first message has transaction 1 and the algorithm asked for, to the wait of that algorithm, with the challenge issued under shared key |
| `ApAdmission.LetIn` | trunk_driver/nic/auth.c:276-303 | which algorithm a first message may name under each setting of the access point |
| `ApAdmission.AssocExact` | trunk_driver/nic/assoc.c:317-749 | an authenticated station's next frame connects it exactly when it is an acceptable association request; authentication frames are dropped |
| `ApAdmission.LoadsCommute` | trunk_driver/nic/ap.c:81-487 | frames loaded behind a waiting one, before or during a resumption, change nothing but the queue |
| `ApAdmission.WaitExact` | trunk_driver/nic/auth.c:305-435 | over every sequence of arrivals, resumptions and timeouts an authenticated station is admitted exactly when a turn looks at an acceptable request after turns that left it waiting |
| `ApAdmission.AnswerExact` | trunk_driver/nic/auth.c:353-408 | the third message is accepted exactly when its buffer answers the challenge, and then stays queued |
| `ApAdmission.ChallengeExact` | trunk_driver/nic/auth.c:343-435 | from the challenge on, exactly when the first frame looked at comes in time and answers it and the station then associates; the answer is looked at twice |
| `ApAdmission.Admission` | trunk_driver/nic/ap.c:445-472 | over every sequence of arrivals, resumptions and timeouts a new station is admitted exactly when its first frame is an acceptable request, under shared key the next answers the challenge issued on it in time, and it then associates in time |
| `ApAdmission.IdleLimit` | trunk_driver/nic/ap.c:335-361 | a silent station is dropped exactly at the tick after its 1200th quiet one over the whole connection, with one disassociation |
| `ApDeparture.MessageExact` | trunk_driver/nic/ap.c:364-416 | what each message does to a connected station: gone with one disassociation and its queue freed, waiting for a new request, or unchanged but for the message |
| `ApDeparture.TickExact` | trunk_driver/nic/ap.c:335-361 | what a tick does to a connected station with nothing queued |
| `ApDeparture.PartedExact` | trunk_driver/nic/ap.c:380-400 | what a disassociated station does next, in every case |
| `ApDeparture.TurnExact` | trunk_driver/nic/ap.c:315-417 | whether a turn ends the connection, from what the turns looked at, and the whole record if not |
| `ApDeparture.Departure` | trunk_driver/nic/ap.c:315-441 | over every sequence of arrivals, resumptions and timeouts a connected station is gone exactly when a turn looked at an authentication or deauthentication frame, or a disassociated station ran out of time or sent no acceptable request, or the quiet ticks reached the limit |
| `ApDeparture.LastTurn` | trunk_driver/nic/ap.c:420-441 | the first such turn frees everything queued and reports the end once, or twice where the hook hides a re-association |
| `AccessPoint.StepConserves` | trunk_driver/nic/ap.c:81-157 | every received frame, removal request, cfg80211 request and resumption keeps free plus queued messages per tag |
| `AccessPoint.RunsConserve` | trunk_driver/nic/ap.c:81-441 | over every run free plus queued messages of each tag stay the initial depth, in buffers of the tag's size, and no copy overruns |
| `AccessPoint.StationsStep` | trunk_driver/nic/auth.c:172-214 | every step keeps addresses distinct and each station's invariant |
| `AccessPoint.RunsKeepStations` | trunk_driver/nic/ap.c:445-487 | over every run every station but broadcast keeps its invariant |
| `AccessPoint.RunsTie` | trunk_driver/nic/auth.c:172-214 | over every run every recorded request, answer, challenge and association request comes from the station's own frames and resumptions |
| `AccessPoint.KindsByType` | trunk_driver/nic/wlan_mgmt.c:847-985 | a frame reaches a kind's handler exactly if its first byte holds the management type and one of the kind's subtypes |
| `AccessPoint.ReceivedExact` | trunk_driver/nic/auth.c:172-214 | a taken frame waits last in its station's queue if a message is left; an authentication frame makes a record if there is room; any other frame changes nothing |
| `AccessPoint.RemovedExact` | trunk_driver/nic/ap.c:1828-1847 | a request to remove queues a deauthentication for every known station but broadcast, and changes nothing else |
| `AccessPoint.RemovalDisconnects` | trunk_driver/nic/ap.c:364-441 | an idle connected station asked to go is gone after its next resumption, reported once, and its message is back in the pool |
| `AccessPoint.DeletesNothing` | trunk_driver/os/linux/cfg80211/wf_cfg80211.c:3766-3785 | between resumptions the request to drop a record finds none on its way out and changes nothing |
| `AccessPoint.PastStep` | trunk_driver/nic/sec_wep.c:147-165 | where every message is in a buffer of its own size, a step decrypts past one exactly when it resumes a station with a protected answer under 28 bytes |
| `AccessPoint.RunsPastExactly` | trunk_driver/nic/auth.c:369-377 | the range that the decryption computes leaves a buffer on a run exactly when a station that waits for the answer is resumed with a protected frame under 28 bytes; loading never does |
| `AccessPoint.RequestStep` | trunk_driver/nic/assoc.c:383-731 | a step takes a walk out of its buffer, or a copy past its field, exactly when it scans such a request |
| `AccessPoint.RunsLeaveExactly` | trunk_driver/nic/assoc.c:383-731 | over every run the element walk leaves a buffer exactly when a station is resumed with such a request, and a copy its field exactly when an element too long for it is reached |
| `AccessPoint.AboveOnlyIfAdmitted` | trunk_driver/nic/ap.c:320-329 | a station is above "associating" only with messages of its own that were accepted and a challenge issued to it; the request said so itself exactly from 28 bytes, the answer was sealed with the key exactly from 32 and sealed the challenge exactly from 168, the association elements were its own exactly when its bytes parse, and a copy of one ran past its field exactly when one is too long |
| `AccessPoint.StepLog` | trunk_driver/nic/ap.c:420-441 | every step but the hook case keeps indications alternating and an association open exactly while the thread is connected |
| `AccessPoint.MarkedBreaks` | trunk_driver/nic/ap.c:389-397 | the hook case closes the association twice |
| `AccessPoint.IndicationsAlternate` | trunk_driver/nic/ap.c:315-487 | over every run the indications of every station alternate, exactly when no re-association met an overwriting hook |
| `AccessPoint.ClosedWhenRemoved` | trunk_driver/nic/ap.c:420-441 | on every run without a re-association under an overwriting hook, a removed station's association has been closed |
| `AccessPoint.UnmarkedAlternates` | trunk_driver/nic/ap.c:315-487 | under a hook that leaves the state alone the indications alternate on every run |
| `AccessPoint.DoubleClose` | trunk_driver/nic/ap.c:389-397 | a run of eight genuine frames and resumptions that closes one association twice under an overwriting hook |
| `ApShortFrames.StaleAdmits` | trunk_driver/nic/ap.c:81-141 | a run of genuine frames in which a station sends only an answer's own bytes and another station's refused frame supplied the rest of the buffer |
| `ApShortFrames.KeylessAdmitted` | trunk_driver/nic/auth.c:369-408 | for every challenge a run of genuine frames that lets a station through on a 28-byte answer that no key sealed |
| `ApShortFrames.ShortAdmitted` | trunk_driver/nic/auth.c:369-408 | for every challenge a run of genuine frames that lets a station through on a 36-byte answer that was sealed with the key and holds no byte of it |
| `ApShortFrames.HeaderAdmitted` | trunk_driver/nic/auth.c:264-303 | a run of genuine frames that lets a station through on a 24-byte first message without algorithm or transaction |
| `ApShortFrames.HeaderRunsPast` | trunk_driver/nic/auth.c:369-377 | a run of four events in which a 24-byte protected answer makes the decryption run past its buffer |
| `ApTeardown.Uninterrupted` | trunk_driver/nic/ap.c:420-441 | with nothing in between, the small steps free the queue in order and remove the record, as the clean-up in one piece does |
| `ApTeardown.LostExactly` | trunk_driver/nic/ap.c:420-441 | over every interleaving a finished clean-up has put out of reach exactly the messages loaded between the clearing loop and the removal and those on a record taken again too early |
| `ApTeardown.ClosingConserves` | trunk_driver/nic/ap.c:143-161 | over every interleaving with loads, cfg80211 requests and the record's next use, a finished clean-up has put every message back exactly when there were none of those |
| `ApTeardown.DropActs` | trunk_driver/os/linux/cfg80211/wf_cfg80211.c:3766-3785 | once the end was reported the drop request acts exactly when the station was on its way out already, or was connected and the hook marks it |
| `ApTeardown.DropLoses` | trunk_driver/os/linux/cfg80211/wf_cfg80211.c:3766-3785 | a cfg80211 request between the clearing loop and the removal loses a message |
| `ApTeardown.RetakeLoses` | trunk_driver/nic/wdn.c:221-263 | a record dropped and taken again before its thread has cleared it loses its queue |
| `ApElementRuns.LongStrays` | trunk_driver/nic/assoc.c:383-398 | a run of genuine frames in which a 796-byte request takes the walk out of its buffer |
| `ApElementRuns.WmmOverwrites` | trunk_driver/nic/assoc.c:671-688 | a run of genuine frames in which a request with a 40-byte WMM element is accepted and overwrites the record |
| `ApElementRuns.CutAdmitted` | trunk_driver/nic/assoc.c:395-424 | a run of genuine frames that lets a station through on a 30-byte request without the name, in the buffer of another station's request |
| `MlmeLock.ScanExitOk` | trunk_driver/nic/scan.c:744-781 | from any point with the lock held and transmission stopped, the scan's exit puts everything back |
| `MlmeLock.ScanDrainOk` | trunk_driver/nic/scan.c:541-575 | the wait for an empty transmit path keeps the lock and the stop count, or leaves through the exit |
| `MlmeLock.ScanStartOk` | trunk_driver/nic/scan.c:511-541 | the scan releases the lock if it has no start message, and otherwise stops transmission once |
| `MlmeLock.ScanTurnOk` | trunk_driver/nic/scan.c:490-782 | a scan resumption takes the lock only when free, holds it to its end and stops and starts transmission in pairs |
| `MlmeLock.StepTurnOk` | trunk_driver/nic/auth.c:504-735 | authentication and association resumptions hold the lock from their lock wait to every exit |
| `MlmeLock.BaExitLeaks` | trunk_driver/nic/mlme.c:734-739 | a block-ack sub-thread resumed with the lock free keeps it exactly when there is no station record, and then it stays taken on every later run |
| `MlmeLock.LeakIsForever` | trunk_driver/nic/mlme.c:734-739 | after such an exit no interface would ever get past its lock wait again |
| `MlmeLock.SubTurnOk` | trunk_driver/nic/mlme.c:504-794 | every sub-thread's resumption releases the lock when it finishes |
| `MlmeLock.OnDoneInv` | trunk_driver/nic/mlme.c:119-147 | the main thread's reaction to a finished sub-thread keeps the record exactly between its making and the break |
| `MlmeLock.ResumeOk` | trunk_driver/nic/mlme.c:1205-1330 | a resumption keeps the interface's invariant and touches the lock only to take or release it |
| `MlmeLock.AttemptsBounded` | trunk_driver/nic/mlme.c:297-324 | a connection attempt runs at most three scans |
| `MlmeLock.RunsKeep` | trunk_driver/nic/mlme.c:1205-1400 | over every run of any number of interfaces the invariant holds |
| `MlmeLock.MutualExclusion` | trunk_driver/nic/nic.h:175-190 | at most one interface is past its lock wait |
| `MlmeLock.ReleasedOnFinish` | trunk_driver/nic/scan.c:511-770 | an interface with no sub-thread under way does not hold the lock, has its transmit stops matched by starts and its settings put back |
| `MlmeLock.BaExitUnreachable` | trunk_driver/nic/mlme.c:723-794 | whenever a block-ack sub-thread runs its record exists, so the exit that keeps the lock is unreachable |
| `MlmeLock.WaiterProceeds` | trunk_driver/nic/nic.h:175-190 | a waiting interface passes the wait at its next resumption if the lock is free, and otherwise another interface is past its own |
| `MlmeStages.ScanTurnOver` | trunk_driver/nic/scan.c:490-782 | on which inputs a scan is over and won |
| `MlmeStages.StepTurnOver` | trunk_driver/nic/auth.c:504-735 | on which inputs an authentication or association is over and won |
| `MlmeStages.SearchOutcome` | trunk_driver/nic/mlme.c:297-385 | the target found leads to authentication, a fruitless scan to another try, anything else to the break |
| `MlmeStages.AuthOutcome` | trunk_driver/nic/mlme.c:389-445 | authentication won and not aborted leads to association, over in any other way to the break at that step |
| `MlmeStages.AssocOutcome` | trunk_driver/nic/mlme.c:447-502 | the same of association and the setting up of the connection |
| `MlmeStages.PreconnectOutcome` | trunk_driver/nic/mlme.c:504-565 | the same of the setting up and the connection being up |
| `MlmeStages.RankStep` | trunk_driver/nic/mlme.c:1241-1330 | a step keeps the stage, earns the next one, or loses the connection |
| `MlmeStages.StagesEarned` | trunk_driver/nic/mlme.c:1241-1330 | over every run of any number of interfaces each stage was reached by winning every stage before it, one after the other, since the request to connect |
| `MlmeStages.UpOnlyThrough` | trunk_driver/nic/mlme.c:1241-1330 | the five events through which a connection that is up has come |
| `MlmeStages.AbortsRemembered` | trunk_driver/nic/mlme.c:408-436 | over every run an authentication or association is aborting exactly when one of its own messages since it began was an abort |
| `MlmeStages.TaskStep` | trunk_driver/nic/mlme.c:797-880 | in a connection each task starts exactly on its message, goes on until it is over and returns; a deauthentication breaks the connection |
| `MlmeStages.TasksCaused` | trunk_driver/nic/mlme.c:797-880 | over every run a task under way was started by its own message |
| `MlmeStages.StopRemembered` | trunk_driver/nic/mlme.c:589-712 | a scan under way remembers exactly the messages that stop it |
| `MlmeStages.ClearupEnds` | trunk_driver/nic/mlme.c:1026-1053 | the break is over exactly when the transmit path is empty or its time is up |
| `TxPool.OnlyOnce` | trunk_driver/nic/tx.c:2409-2425 | a frame is on at most one list, and a held one on neither |
| `TxPool.MsduKeeps` | trunk_driver/nic/tx.c:2916-2940 | sending keeps the partition and both counters, also when set-up fails |
| `TxPool.SendQueuesLast` | trunk_driver/nic/tx.c:2916-2940 | an accepted packet waits behind all accepted before it; a refused one changes none |
| `TxPool.PutBack` | trunk_driver/nic/tx.c:1574-1631 | a frame taken and put back at the head leaves everything as it was; at the tail it waits behind all others |
| `TxPool.DeleteKeepsIffPending` | trunk_driver/nic/tx.c:1529-1552 | deleting keeps partition and counters exactly when the frame is pending |
| `TxPool.HeldDeleteBreaks` | trunk_driver/nic/tx.c:1376-1385 | taking a frame and deleting it while held leaves the pending counter one too low |
| `TxPool.ClearAllMeaning` | trunk_driver/nic/tx.c:3055-3064 | the clear loop empties pending, frees its frames in order and gives back exactly their packets |
| `TxPool.PendingClearMeaning` | trunk_driver/nic/tx.c:3049-3066 | the whole clear leaves pending empty, its frames free and the stop counter as it was unless it would wrap |
| `TxPool.StepKeeps` | trunk_driver/nic/tx.c:1481-1631 | every operation keeps the partition and both counters |
| `TxPool.FramesConserved` | trunk_driver/nic/tx.c:1481-1631 | over every run each of the 256 frames is in exactly one place and the counters add up |
| `TxPool.Pool.constructor` | trunk_driver/nic/tx.c:2409-2425 | set-up puts all frames on the free list |
| `TxPool.Pool.FrameNew` | trunk_driver/nic/tx.c:1481-1526 | in-place allocation equals the function |
| `TxPool.Pool.FrameEnqueue` | trunk_driver/nic/tx.c:1554-1572 | in-place return equals the function, refusing null |
| `TxPool.Pool.FrameDelete` | trunk_driver/nic/tx.c:1529-1552 | in-place deletion equals the function, refusing null |
| `TxPool.Pool.DataEnqueueTail` | trunk_driver/nic/tx.c:1574-1583 | in-place enqueue at the tail equals the function |
| `TxPool.Pool.DataEnqueueHead` | trunk_driver/nic/tx.c:1585-1594 | in-place enqueue at the head equals the function |
| `TxPool.Pool.DataDequeue` | trunk_driver/nic/tx.c:1614-1631 | in-place dequeue equals the function |
| `TxPool.Pool.TxMsdu` | trunk_driver/nic/tx.c:2916-2940 | 0 exactly when a frame was free and could be set up |
| `TxPool.Pool.XmitStop` | trunk_driver/nic/tx.c:3029-3036 | the stop counter counts up in 16 bits |
| `TxPool.Pool.XmitStart` | trunk_driver/nic/tx.c:3038-3047 | the stop counter counts down to zero and no further |
| `TxPool.Pool.PendingQueueClear` | trunk_driver/nic/tx.c:3049-3066 | the loop ends and equals the function |
| `BitWord.SetBitsMeaning` | trunk_driver/nic/nic_io.h:86-115 | writing a field replaces its bits by the value's low ones and no other bit |
| `BitWord.ReadBack` | trunk_driver/nic/nic_io.h:68-115 | reading a written field gives the value masked to its width |
| `BitWord.ReadOther` | trunk_driver/nic/nic_io.h:68-115 | disjoint fields are unchanged |
| `BitWord.FieldReadBack` | trunk_driver/nic/nic_io.h:36-115 | in numbers: a written field reads back as the value modulo two to its width |
| `BitWord.FieldOther` | trunk_driver/nic/nic_io.h:36-115 | in numbers: disjoint fields are unchanged |
| `TxDesc.Word0Decodes` | trunk_driver/nic/tx.c:941-1041 | type, sequence and sequence-enable fields decode to the frame's, other bits unchanged |
| `TxDesc.Word1Decodes` | trunk_driver/nic/tx.c:1024-1032 | the software field decodes to the sequence counter when a report is asked for |
| `TxDesc.Word2Decodes` | trunk_driver/nic/tx.c:829-1035 | length, rate, preamble and protection fields decode to the frame's choice |
| `TxDesc.Word3Decodes` | trunk_driver/nic/tx.c:959-1038 | queue, security, aggregation, report and address fields decode to the frame's |
| `TxDesc.Word4Decodes` | trunk_driver/nic/tx.c:903-957 | station, rate and channel fields decode to the frame's, in fixed and in adaptive rate mode |
| `TxDesc.RateModeDecodes` | trunk_driver/nic/tx.c:945-957 | the two rate modes write their own mode bit and rate field and leave the other's |
| `TxDesc.SummedHalves` | trunk_driver/nic/tx.c:1119-1129 | the checksum changes only the upper half of the last word |
| `TxDesc.SumCancels` | trunk_driver/nic/tx.c:1119-1129 | the ten half-words of a checksummed descriptor cancel |
| `TxDesc.CancelsOnlyIfSummed` | trunk_driver/nic/tx.c:1119-1129 | they cancel only if the checksum is the right one |
| `TxDesc.SummedDecodes` | trunk_driver/nic/tx.c:1149-1162 | the checksum leaves every field as it was |
| `TxDesc.DescriptorDecodes` | trunk_driver/nic/tx.c:930-1041 | a data frame's descriptor, filled into a cleared buffer and checksummed, decodes to what the frame asked for |
| `TxDesc.RateIdByNetwork` | trunk_driver/nic/wdn.c:120-170 | the rate table number of every kind of network as the chip numbers it |
| `TxDesc.ChoosesRate` | trunk_driver/nic/tx.c:969-1018 | which frames choose their rate themselves, and which rate |
| `TxDesc.SetField` | trunk_driver/nic/nic_io.h:104-115 | the write macro on the buffer changes one word |
| `TxDesc.FillProtection` | trunk_driver/nic/tx.c:829-862 | the in-place protection writes equal the function |
| `TxDesc.FillRate` | trunk_driver/nic/tx.c:969-1019 | the in-place aggregation, channel and rate writes equal the functions |
| `TxDesc.Fill` | trunk_driver/nic/tx.c:930-1041 | the in-place fill equals the word functions, and leaves other frame kinds alone |
| `TxDesc.Checksum` | trunk_driver/nic/tx.c:1119-1129 | the checksum loop makes the ten half-words cancel |
| `TxDesc.Update` | trunk_driver/nic/tx.c:1149-1162 | fill and checksum together |
| `TxDesc.AggNumFill` | trunk_driver/nic/tx.c:2994-3005 | re-filling the aggregation count sets that field, renews the checksum and changes nothing else |
| `Elements.ParseEncoded` | trunk_driver/nic/ie.c:22-33 | the encoding of a list parses back to it |
| `Elements.EncodeParsed` | trunk_driver/nic/ie.c:22-33 | a byte string that parses is the encoding of what it parses to |
| `Elements.WholeUnique` | trunk_driver/nic/ie.c:22-33 | a byte string splits into whole elements and a rest where none starts in one way only |
| `Elements.WholeSplits` | trunk_driver/nic/ie.c:22-33 | every byte string splits so |
| `Elements.ParseIsWhole` | trunk_driver/nic/ie.c:22-33 | it parses exactly when nothing is left |
| `Elements.SetIe` | trunk_driver/nic/ie.c:22-33 | one element is written at its place, nothing else changes, and pointer and length advance by it |
| `Elements.WriteAll` | trunk_driver/nic/ie.c:22-33 | successive writes give the encoding of the list |
| `Elements.Walk` | trunk_driver/nic/ap.c:904-907 | the offset walk visits exactly the elements written, in order, and reads only inside them |
| `Elements.Search` | trunk_driver/nic/wf_80211.c:34-62 | the first element with the identifier; right about its list exactly when the list has an element or the byte behind it is not the identifier |
| `Elements.EmptySearchFinds` | trunk_driver/nic/wf_80211.c:34-62 | on an empty list with the identifier behind it the search reports an element |
| `Elements.ResetChannel` | trunk_driver/nic/ap.c:1849-1880 | the reset writes the byte behind the first DS element's header and no other byte of the buffer |
| `Elements.PokedParses` | trunk_driver/nic/ap.c:1868-1880 | the list after the reset: the channel replaced, or a following element's identifier overwritten |
| `Elements.ResetIffChannelByte` | trunk_driver/nic/ap.c:1868-1880 | the reset changes only the first DS element's channel byte exactly when that element is not an empty one before an element with another identifier |
| `Elements.EmptyDsOverwritesNext` | trunk_driver/nic/ap.c:1868-1880 | an empty DS element before an SSID: channel 6 turns the SSID into an element 6 |

## Left out

- Reorder reinit and deinit (`nic/rx.c:1984-2126`): they free pending nodes instead of returning them to the pool, so the reorder results hold between reinits; the enable flag and the null checks in front of the reorder step are not modelled either.
- Receive defragmentation (`nic/rx.c:223-371`) and the splitting of a transmit payload into fragments (`nic/tx.c:2854-2860`): the copies do not follow the pointers; the ciphers are for single-fragment frames.
- The S-box tables and the mapping tables for rates, bandwidth, sub-channel and security type: the S-box is an arbitrary table, the mapped values are inputs.
- After a decryption or an element walk that leaves its buffer the model goes on as if the message were refused, and after a copy that leaves its field as if nothing but the mark had changed, so the access-point results describe the code up to that step. The walk counts as leaving the buffer when an element whose data the code looks at is cut off by the buffer's end.
- LinkCipher.OpenFrame: frames that end before the payload starts, because the length of the decryption then wraps and it leaves the buffer.
- LinkCipher.WepDecrypt: the same frames, for the same reason.
- LinkCipher.WepDecryptAuth: the same frames, for the same reason; `AccessPoint.RunsPastExactly` says when the access point meets one.
- LinkCipher.TkipDecrypt: the same frames, for the same reason.
- ApRequest.ScanAccepts: where an RSN or WPA element ends before its cipher fields the code compares locals that it has not assigned or that an earlier element left, and where a WMM element ends early it reads behind it (`nic/wf_80211.c:200-216`, `nic/wf_80211.c:516-525`); what it finds there is an arbitrary input of the resumption, element by element. The P2P element and the copy of the name are not recorded.
- ApRequest.ScanKeeps: after a copy that ran past its field nothing is said of the cipher flags behind it; `spilt` marks such a record.
- ApRequest.ScanLoop: the copies into the record are represented by whether they fit.
- ApAdmission.AnswerExact: an answer under 28 bytes counts as refused.
- ApStation.SharedKeeps: an answer under 28 bytes counts as refused.
- ApAdmission.LoadsCommute: loads onto an empty queue during a resumption.
- The challenge generator (`nic/auth.c:216-224`): the challenge is an arbitrary input.
- Access-point frames sent, the association identifier test (`nic/assoc.c:306-310`, never true for table numbers), the working mode of a record and the rate tables: they do not touch state, queues or indications.
- ReorderControl.BaControl.constructor: a failed allocation, after which the code runs with fewer nodes.
- ApMessage.MsgPool.constructor: a failed allocation, after which set-up fails; the tear-down of the access point (`nic/ap.c:258-311`) is not modelled either.
- AccessPoint.RunsConserve: a resumption is one step there; the interleavings inside its clean-up, where messages can be lost, are those of `ApTeardown`. A receiver that found a record before it was taken off its list and loads a message afterwards is not modelled, nor is what becomes of the station whose newly taken record the old thread removes.
- Station threads, access-point threads and the lock's threads are modelled on values, one step per wait; locals that a protothread loses over a wait are covered by leaving the outcome of the sub-thread open.
- MlmeLock.ScanTurnOk: channel index, retry counters and the pause for a neighbouring access point are one choice between waiting again and leaving, because no branch there touches the lock, the stop counter or the settings.
- MlmeLock.StepTurnOk: message contents and resend counters of station-side authentication and association are one choice between waiting again and leaving; the result code of station-side shared-key authentication, which one path leaves unassigned (`nic/auth.c:706-719`), is an arbitrary outcome.
- Ad-hoc mode, P2P, power save and the keep-alive and traffic timers of the connection: they take no part in the infrastructure-mode use of the lock.
- LPS command frames and `wf_tx_frame_queue_clear` (`nic/tx.c:1664-1680`): they do not follow the frame-pool discipline, as `TxPool.DeleteKeepsIffPending` shows for deleting a held frame.
- The descriptor layout of the older chip; for rate tables above 8 the look-up reads behind its table, and the byte it finds there is an input.
- Michael.TxMic: the fragments' places and lengths, which the code computes with alignment, are inputs.
- Arc4.Context.Encrypt: the source range is passed as a value, so encrypting in place and from another buffer are the same call.
- Elements.Search: on an empty list one header must lie inside the buffer.
- Elements.ResetChannel: the write behind an empty last DS element must lie inside the buffer.
- Mailbox commands, firmware download, register access, hardware set-up, country tables and signal-strength maps: device input and output or finite tables.
