# Sarachi's disk pipeline, modelled and verified

Sarachi erases and reinstalls Linux and BSD machines. This project models what it does to a disk, what decides whether it may do so,
and where the key goes, and proves what each part promises, on one byte array for the disk and with real arithmetic.

- **Table** (`Crc32`, `DiskLayout`, `Gpt`, `GptReader`, `GptOnDisk`, `GptDamage`). The planner, the writer of the GUID partition table
  and its CRC.
  A reader after sections 5.2.3, 5.3.2 and 5.3.3 of UEFI 2.10 serves as the writer's specification: either copy alone reads back as the layout.
- **Images** (`Manifests`, `ImageCodec`, `Signing`, `SignedManifests`, `Ingest`, `Install`). Signed manifests, chunk-by-chunk verification before
  every write, and resuming over any number of interrupted sessions.
- **Orders** (`OrderCodec`, `Orders`). The canonical encoding of wipe orders and their one-shot acceptance.
- **Provisioning and wiping** (`Crypt`, `Wipe`, `Provision`, `ProvisionProofs`, `EndToEnd`, `Completion`). Programs over the disk in which every
  step may fail; the theorem `EndToEnd.LifeOfADisk` goes from an empty disk through provisioning to a later wipe, and
  `Completion` says exactly when provisioning and destruction succeed.
- **Keys** (`EscrowWire`, `KeyStore`, `Escrow`). The escrow request, printed by one program and parsed by another, the key folder under
  any interleaving of puts, gets and revocations, and the way of one key through all of it.

How the outside world enters:

- A device carries out a number of further operations and then fails (`Device.Dev`). Every byte written, every open, seek and flush
  costs one, so a statement about all budgets is a statement about every point of failure, inside a write as well as between two.
- SHA-256 is a parameter of type `bytes -> Digest`, Ed25519 a parameter of type `(bytes, bytes, Signature) -> bool`. Nothing is assumed of
  either. Where a claim depends on the hash, its only way to fail is `Install.Forged`, which exhibits two chunks with one hash.
- GUIDs, keys, clocks, what a server sends, whether device nodes appear and what the encryption tools answer and leave behind in the root
  partition are parameters (`Provision.World`, `Crypt.Tools`).

Where the source changes state, a method does the same steps in the same order and is proved equal to a function of the old state; the
lemmas are about these functions.

Where code and comments disagree, the model follows the code:

- A comment calls 4 GiB the size root never gets less than (`crates/disk/src/layout.rs:27-28`). The check ignores what alignment and
  the tables take; `DiskLayout.RootSize` says exactly when root reaches 4 GiB and that it may be 2 MiB short.
- The planner keeps 34 and 33 sectors whatever the sector size, the writer needs 2 + 16384 / size and one less. They agree on every planned disk
  (`GptOnDisk.PlannedIsUsable`).
- The codecs promise that signed bytes are unique (`crates/image/src/codec.rs:1-2`, `crates/order/src/codec.rs:1-6`), but cast the
  length of a string to 16 bits without checking it. `ImageCodec.LongNameCollides` and `OrderCodec.LongStringsCollide` each give two
  values with one encoding. The promise holds for manifests if and only if names have fewer than 65536 bytes
  (`ImageCodec.InjectiveIff`), and for orders if and only if device names have, whatever the issuers (`OrderCodec.InjectiveIff`). What
  the decoders take is far below that; `RoundTripIff` in either module says exactly what survives. Replay does not depend on it: one
  device never accepts signed bytes twice (`Orders.OneDeviceNeverReplays`); only devices that share a log could, and exactly when
  their own names may reach 65536 bytes (`Orders.OneShotIff`).
- The third wipe level is described as retried until done. The code stops at the first error, like the other levels.
- `fits` judges the root image by the raw partition; the opened container may be smaller. Nothing is claimed before the fill, and
  `ProvisionProofs.ContainerEffect` says that a successful run did put the whole image there.
- `format` and `open` are called with the key for every kind of root, but the cgd layer of the NetBSD kinds ignores it: its container opens
  with what its key command fetches (`crates/recovery/src/crypt.rs:436-456`). The events `FormatBegun` and `OpenBegun` of `Provision`
  record the argument of the call.

## Model

| member | source | states |
|---|---|---|
| Crc32.TableStep | crates/disk/src/crc32.rs:28-30 | one lookup, indexed by the low byte of register plus input, does eight steps of bitwise division |
| Crc32.TableLinear | crates/disk/src/crc32.rs:9-23 | the table entry of a sum (xor) of indices is the sum of their entries |
| Crc32.Table | crates/disk/src/crc32.rs:9-23 | the two loops fill all 256 entries, each with the register after eight bit steps from its index |
| Crc32.TableCrc | crates/disk/src/crc32.rs:25-32 | for every byte string the table-driven loop gives the bit-at-a-time checksum |
| Crc32.PolyIsGenerator | crates/disk/src/crc32.rs:7 | the constant is the IEEE 802.3 generator, reflected, without its leading term |
| Crc32.CrcIsRemainder | crates/disk/src/crc32.rs:25-32 | the checksum is the complemented remainder of the message polynomial, first 32 coefficients complemented, shifted by 32, on division by the generator |
| Crc32.CrcAsStandard | crates/disk/src/crc32.rs:25-32 | in the words of IEEE 802.3: append 32 zeros, complement the first 32 bits, divide, complement the remainder; for every input |
| Crc32.RemIgnoresMultiples | crates/disk/src/crc32.rs:25-32 | adding a shifted generator to the dividend does not change what the long division leaves |
| Crc32.Division | crates/disk/src/crc32.rs:25-32 | for every polynomial of at least 32 coefficients, quotient times generator plus remainder is the dividend |
| Crc32.RemainderIff | crates/disk/src/crc32.rs:25-32 | the long division gives the remainder: a word is it if and only if some quotient times the generator plus that word is the dividend |
| Crc32.BurstDetected | crates/disk/src/crc32.rs:25-32 | two bit streams that differ only within 32 consecutive bits leave different registers, whatever comes before and after |
| Crc32.FourByteBurstDetected | crates/disk/src/crc32.rs:25-32 | inputs of equal length that differ only inside four consecutive bytes have different checksums |
| DiskLayout.LegalSectors | crates/disk/src/layout.rs:153-163 | the power-of-two and range checks leave exactly 512, 1024, 2048 and 4096 |
| DiskLayout.PlanAnswers | crates/disk/src/layout.rs:153-175 | a plan is made exactly for sectors of 512, 1024, 2048 or 4096 and at least 6979321856 bytes, the sector size is judged first, and the plan carries size, kind and identifier |
| DiskLayout.PlannedNames | crates/disk/src/layout.rs:112-118 | the labels spelled out, and each partition with the identifier drawn for it |
| DiskLayout.TypesAre | crates/disk/src/layout.rs:30-81 | every type identifier, group by group as it is printed, for every kind of root |
| DiskLayout.Plan | crates/disk/src/layout.rs:153-220 | the planner's loop yields the closed-form layout on every accepted disk; its "past the end" and "does not divide" errors never occur |
| DiskLayout.Place | crates/disk/src/layout.rs:185-211 | the moving cursor computes the recursive placement, refusing the first role that runs past the end |
| DiskLayout.Geometry | crates/disk/src/layout.rs:153-220 | three contiguous aligned partitions, exact sizes of the first two, root ends at the greatest aligned boundary before the reserved tail |
| DiskLayout.RootSize | crates/disk/src/layout.rs:177-184 | root is at least 4 GiB less 2 MiB, exactly that on the smallest disk, and at least 4 GiB if and only if another mebibyte and 33 sectors are there |
| DiskLayout.BoundariesDependOnDiskOnly | crates/disk/src/layout.rs:153-220 | boundaries are a function of size and sector size, not of root kind or identifiers |
| DiskLayout.PlannedBytes | crates/disk/src/layout.rs:134-137 | in bytes, every partition runs between two whole mebibytes at every sector size |
| DiskLayout.Find | crates/disk/src/layout.rs:222-224 | a partition of the role if there is one, nothing exactly when there is none |
| DiskLayout.GetPlanned | crates/disk/src/layout.rs:222-224 | looking a role up in a planned layout finds the partition planned for it |
| Device.Disk.WriteAll | crates/disk/src/gpt.rs:128-167 | a write fails where the partition ends or the device gives up, and leaves exactly the prefix written |
| Device.ExecSucceedsIff | crates/disk/src/gpt.rs:127-168 | a program of writes inside the device succeeds if and only if the device lasts for its cost |
| Device.ExecAvoids | crates/disk/src/gpt.rs:127-168 | bytes no write is aimed at survive every run, finished or not |
| Device.ExecHolds | crates/disk/src/gpt.rs:127-168 | after a finished run each write that no later one overlaps is on the device |
| Gpt.GuidLeInvolution | crates/disk/src/gpt.rs:42-64 | the mixed-endian form of an identifier is undone by applying it again |
| Gpt.GuidFields | crates/disk/src/gpt.rs:42-64 | on the disk the first three groups of an identifier read as little-endian numbers equal to the printed ones, the rest is in order |
| Gpt.Utf16RoundTrip | crates/disk/src/gpt.rs:42-64 | every string is read back from its UTF-16 form, surrogate pairs included |
| Gpt.BuildMbr | crates/disk/src/gpt.rs:24-39 | the array filled in place is the protective MBR, its size field saturated |
| Gpt.PutEntry | crates/disk/src/gpt.rs:42-64 | an entry replaces the front of its own slot, fields in order and at most 36 name units, and nothing else |
| Gpt.BuildEntryArray | crates/disk/src/gpt.rs:42-64 | the array filled in place is 128 slots with each partition in its own |
| Gpt.BuildHeader | crates/disk/src/gpt.rs:66-92 | the header filled in place carries the checksum of itself with the checksum field zero |
| Gpt.WriteGpt | crates/disk/src/gpt.rs:99-169 | checks the range first, then both copies, stopping where the device fails: final device and answer are those `RefusedIff`, `RoundTrip` and `OneCopyAtATime` speak of |
| Gpt.Outside | crates/disk/src/gpt.rs:107-118 | the writer refuses exactly when some partition is outside the usable range |
| GptReader.HeaderReads | crates/disk/src/gpt.rs:66-92 | a header the writer built is valid for the reader, at the address it names, and every field reads back |
| GptReader.EntryArrayReads | crates/disk/src/gpt.rs:42-64 | the array reads as exactly the partitions it was written for: types, identifiers, addresses, labels |
| GptReader.NameStored | crates/disk/src/gpt.rs:42-64 | of every label the first 36 units are stored, zeros behind a shorter one |
| GptOnDisk.UsableIsBetween | crates/disk/src/gpt.rs:104-105 | the usable range of both headers begins where the primary array ends and ends where the backup array begins |
| GptOnDisk.RefusedIff | crates/disk/src/gpt.rs:107-118 | a layout is refused, and nothing written, exactly when some partition's bytes are not between the two arrays |
| GptOnDisk.TableRegions | crates/disk/src/gpt.rs:120-167 | all writes of a table are inside the disk, pairwise disjoint, and miss everything between the two arrays |
| GptOnDisk.WriterKeeps | crates/disk/src/gpt.rs:99-169 | wherever writing stops, nothing between the arrays has changed |
| GptOnDisk.RoundTrip | crates/disk/src/gpt.rs:99-169 | success if and only if the device lasts, and then the primary alone and the backup alone read back as the layout and nothing else |
| GptOnDisk.OneCopyAtATime | crates/disk/src/gpt.rs:127-168 | wherever writing stops, the new primary copy is whole or every byte of the old backup copy is untouched |
| GptOnDisk.NeverWithoutTable | crates/disk/src/gpt.rs:127-168 | writing a table over another never loses both: the new one reads from the primary copy or the old one from the backup |
| GptDamage.DamageIsNoticed | crates/disk/src/gpt.rs:84-92 | up to four consecutive bytes changed in one copy, in its array or in its header outside the size field, make that copy unreadable while the other reads as the layout |
| GptReader.MbrReads | crates/disk/src/gpt.rs:24-39 | what the writer builds is a protective MBR after section 5.2.3 of UEFI 2.10: one record of type 0xEE over the whole disk, its size saturated |
| GptOnDisk.WrittenIsProtected | crates/disk/src/gpt.rs:127-129 | after a successful write sector 0 protects the whole disk, and no later write of the table has touched it |
| GptOnDisk.PlannedIsWritable | crates/disk/src/layout.rs:153-220 | every planned layout meets what the writer and the round trip require |
| GptOnDisk.PlannedIsUsable | crates/disk/src/gpt.rs:102-118 | the writer never turns a planned layout away, at any sector size |
| GptOnDisk.PartitionsAreClear | crates/disk/src/layout.rs:177-211 | no write of the table meets a planned partition |
| Manifests.ChunkArithmetic | crates/image/src/lib.rs:73-77 | in a manifest that passes verification no start passes the end, every length is positive, and each chunk ends where the next begins |
| Manifests.LengthsAddUp | crates/image/src/lib.rs:73-77 | the chunk lengths sum to the total size |
| Manifests.BuildIsConsistent | crates/image/src/lib.rs:45-63 | building fails exactly for chunk size zero, and otherwise gives a consistent manifest of that name and chunk size whose entries are the hashes of the data's chunks |
| ImageCodec.EncodeLoop | crates/image/src/codec.rs:14-26 | appending field after field gives the canonical bytes |
| ImageCodec.DecodeLoop | crates/image/src/codec.rs:28-69 | the cursor loop answers as the declarative decoder, with the same first error |
| ImageCodec.FormatOf | crates/image/src/codec.rs:14-26 | where each field of the format is and how it reads: magic, name, sizes, count |
| ImageCodec.FormatChunks | crates/image/src/codec.rs:14-26 | behind the fields the hashes, each in its place |
| ImageCodec.PrefixTruncated | crates/image/src/codec.rs:28-69 | an encoding cut anywhere is reported as truncated |
| ImageCodec.ExtensionTrails | crates/image/src/codec.rs:28-69 | bytes behind an encoding are reported and counted |
| ImageCodec.RefusedFor | crates/image/src/codec.rs:28-69 | every other refusal with its exact condition: magic, name length, UTF-8, zero chunk size, number of chunks |
| ImageCodec.EncodeDecode | crates/image/src/codec.rs:28-69 | whatever decodes is the encoding of what it decodes to |
| ImageCodec.RoundTripIff | crates/image/src/codec.rs:14-69 | encoding is undone by decoding if and only if the name has at most 256 bytes, the chunk size is positive and there are at most 65536 chunks |
| ImageCodec.SharedEncoding | crates/image/src/codec.rs:14-26 | manifests with one encoding have name lengths equal modulo 65536, and are equal if and only if their names have one length |
| ImageCodec.EncodeInjective | crates/image/src/codec.rs:14-26 | names below 65536 bytes: equal encodings are of equal manifests, whatever their chunks |
| ImageCodec.InjectiveIff | crates/image/src/codec.rs:14-26 | names below a bound keep encodings apart if and only if the bound is at most 65536 |
| ImageCodec.PrefixFree | crates/image/src/codec.rs:14-26 | where the fields hold both lengths, no encoding is a prefix of that of another manifest |
| ImageCodec.PrefixFreeIff | crates/image/src/codec.rs:14-26 | for names that fit, a bound on the number of chunks keeps encodings from extending each other if and only if it is at most 4294967296 |
| ImageCodec.StrictPrefixOrExtensionRejected | crates/image/src/codec.rs:28-69 | every strict prefix and every extension of an encoding whose fields hold its lengths is rejected |
| ImageCodec.LongNameCollides | crates/image/src/codec.rs:14-26 | the counterexample at 65536: a manifest that `build` makes of an empty image shares its encoding, and thus its signature, with another that decodes |
| SignedManifests.EncodeDecode | crates/image/src/lib.rs:89-104 | what was received is what would be sent again, and its body is the encoding of its manifest |
| SignedManifests.DecodeEncode | crates/image/src/lib.rs:89-104 | a signed manifest survives the wire if and only if its manifest is within the limits |
| SignedManifests.AcceptedWasSigned | crates/image/src/lib.rs:95-127 | acceptance is equivalent to: exactly the received body was signed, and the number of chunks is right |
| Ingest.VerifyAndWrite | crates/image/src/lib.rs:145-196 | the loop over one reused buffer leaves device, error and statistics as `AnswerIs` and `VerifiedOnly` say, for every stream and failure; a start is refused exactly behind the last chunk |
| Ingest.VerifiedOnly | crates/image/src/lib.rs:145-196 | on every outcome the device got whole consecutive verified chunks, and beyond them at most part of one more verified chunk and that only if the device failed |
| Ingest.AnswerIs | crates/image/src/lib.rs:145-196 | the exact answer for every source, device and start: which chunk cannot be read, which does not match, when the device fails, when it succeeds, and how much was written |
| Ingest.FirstBadExists | crates/image/src/lib.rs:164-188 | every source has a first chunk that is missing or wrong, or none |
| Ingest.BadResumeIff | crates/image/src/lib.rs:151-157 | a start is refused exactly when it is behind the last chunk |
| Ingest.StaysInWindow | crates/image/src/lib.rs:145-196 | nothing outside the window is touched, whatever the manifest announces and the source sends |
| Ingest.OwnImageIsAccepted | crates/image/src/lib.rs:145-196 | from any chunk on, the image itself passes every check |
| Ingest.IngestReproduces | crates/image/src/lib.rs:45-196 | ingesting the data a manifest was built from puts it on the device byte for byte and changes nothing else |
| Install.TrustedManifest | crates/recovery/src/install.rs:59-66 | a manifest that is used was short enough, consistent, and its received bytes were signed |
| Install.TrustedIff | crates/recovery/src/install.rs:59-66 | a manifest is trusted if and only if it came, has at most 4 MiB, decodes, was signed as received, and is consistent |
| Install.Run | crates/recovery/src/install.rs:59-118 | nothing is written before the manifest is trusted or without commit; then the device is as one session leaves it |
| Install.ForgedIsCollision | crates/image/src/lib.rs:175-188 | a forged chunk is a hash collision: two different byte strings of one length and one hash |
| Install.SessionKeeps | crates/recovery/src/install.rs:88-107 | a session resuming inside the verified prefix keeps it, extends it and touches nothing behind the image |
| Install.ResumeIsSafe | crates/recovery/src/install.rs:88-107 | over any sequence of sessions, streams and failures the verified prefix is the image and never shrinks, and success leaves exactly the image, unless a forged chunk is exhibited |
| Install.SessionInstallsIff | crates/recovery/src/install.rs:86-107 | with the rest of the right image from any chunk on, a session installs if and only if the range was honoured or not needed, the image fits and the device lasts; the disk then holds the whole image |
| Install.SessionRefusesIff | crates/recovery/src/install.rs:88-98 | the exact condition of a failed fetch, an ignored range and a start out of range |
| Install.Uninterrupted | crates/recovery/src/install.rs:88-107 | one uninterrupted session from the start leaves that same disk |
| OrderCodec.Cursor.Take | crates/order/src/codec.rs:40-52 | the cursor gives the next bytes and moves past them, or gives nothing and stays |
| OrderCodec.Cursor.Str | crates/order/src/codec.rs:62-68 | a string with its length in front, or the first error |
| OrderCodec.DecodeLoop | crates/order/src/codec.rs:71-96 | the cursor program answers as the declarative decoder, with the same first error |
| OrderCodec.ParseEncoded | crates/order/src/codec.rs:18-96 | an encoded order is found at the front of anything it is put in front of |
| OrderCodec.FormatOf | crates/order/src/codec.rs:18-33 | where each field of the format is and how it reads, the level as 1, 2 or 3 |
| OrderCodec.PrefixTruncated | crates/order/src/codec.rs:71-96 | an encoding cut anywhere is reported as truncated |
| OrderCodec.ExtensionTrails | crates/order/src/codec.rs:71-96 | bytes behind an encoding are reported and counted |
| OrderCodec.RoundTripIff | crates/order/src/codec.rs:18-96 | decoding undoes encoding if and only if device and issuer have at most 256 bytes each |
| OrderCodec.EncodeDecode | crates/order/src/codec.rs:71-96 | whatever decodes is the encoding of what it decodes to |
| OrderCodec.PrefixFree | crates/order/src/codec.rs:18-33 | the encoding of an order whose strings fit their fields extends, and so equals, that of no other order at all |
| OrderCodec.SharedEncoding | crates/order/src/codec.rs:18-33 | orders with one encoding have device lengths equal modulo 65536, and are equal if and only if their devices have one length |
| OrderCodec.InjectiveIff | crates/order/src/codec.rs:18-33 | devices below a bound keep encodings apart, whatever the issuers, if and only if the bound is at most 65536 |
| OrderCodec.PrefixFreeIff | crates/order/src/codec.rs:18-33 | for devices that fit, a bound on issuers keeps encodings from extending each other if and only if it is at most 65536 |
| OrderCodec.LongStringsCollide | crates/order/src/codec.rs:18-33 | the counterexample at 65536: a long device and a long issuer give one encoding to orders with different nonces |
| OrderCodec.StrictPrefixOrExtensionRejected | crates/order/src/codec.rs:71-96 | every strict prefix and every extension of an encoding whose strings fit their fields is rejected |
| Orders.Verify | crates/order/src/lib.rs:143-181 | accepted if and only if the signature is valid over the order, the time is within its bounds, the device is its own and the nonce is new; each refusal exactly on its own condition and with its arguments; only acceptance changes the log |
| Orders.JudgedRight | crates/order/src/lib.rs:143-181 | the ordered checks answer what those conditions say, for every call and log |
| Orders.FirstFailing | crates/order/src/lib.rs:143-181 | accepted exactly when all checks pass, else the reason of the first that fails |
| Orders.LogIsAccepted | crates/order/src/lib.rs:132-181 | after any run a nonce is in the log if and only if it was there at first or belongs to an accepted order |
| Orders.AcceptedOnce | crates/order/src/lib.rs:132-181 | over any run, whatever keys, devices and clocks, no nonce is accepted twice nor if it was logged before |
| Orders.SignedBytesAcceptedOnce | crates/order/src/lib.rs:132-181 | over any run, orders of any length: two acceptances of the same signed bytes could only be by devices whose own names differ in length by a multiple of 65536 |
| Orders.OneDeviceNeverReplays | crates/order/src/lib.rs:132-181 | on one device the same signed bytes are accepted at most once, with no bound on anything |
| Orders.LongNamesReplay | crates/order/src/lib.rs:143-181 | the counterexample at 65536: two devices that share one log, named with 65536 bytes and with none, each accept one signature as addressed to them |
| Orders.OneShotIff | crates/order/src/lib.rs:132-181 | devices that share a log never let signed bytes through twice, under any verifier, if and only if their names are bounded by at most 65536 |
| Crypt.OverlayReaches | crates/recovery/src/crypt.rs:215-287 | an outside tool may make any change inside its window, and only there |
| Crypt.ErasedIsNoContainer | crates/recovery/src/crypt.rs:604-637 | a softraid partition that was erased is no container any more |
| Crypt.ContainerIff | crates/recovery/src/crypt.rs:607-634 | for every kind of root: an OpenBSD one shows the magic in its seventeenth sector, the others are what their tool says |
| Crypt.KeyOnDiskIff | crates/recovery/src/crypt.rs:485-487 | the two NetBSD kinds and no others have no key on the disk |
| Crypt.EraseSoftraidIff | crates/recovery/src/crypt.rs:604-616 | erasing zeroes exactly the first 270336 bytes and succeeds exactly when the device lasts |
| Wipe.DestroyGpt | crates/recovery/src/wipe.rs:37-54 | the first and, on disks over 2 MiB, the last mebibyte are zeroed, stopping at the first failure |
| Wipe.Run | crates/recovery/src/wipe.rs:72-168 | plan, key check, erase, then root, recovery and table: final device and report are those the rows below speak of |
| Wipe.NothingWritten | crates/recovery/src/wipe.rs:80-132 | a dry run, a refused plan and a layer without key on disk write nothing |
| Wipe.ResetKeepsTheRest | crates/recovery/src/wipe.rs:134-146 | Reset and Factory change nothing outside root, wherever they stop, and never report recovery or table destroyed |
| Wipe.KeepingWipeIff | crates/recovery/src/wipe.rs:117-168 | Reset and Factory, for every kind: when they complete, when they report an erasure, and exactly what they leave on the disk |
| Wipe.WipeRefusals | crates/recovery/src/wipe.rs:80-109 | refused plans and dry runs, each with its exact condition |
| Wipe.DestroyCoversTable | crates/recovery/src/wipe.rs:37-54 | the two zeroed mebibytes cover every byte the table writer writes, at every size and sector size |
| Wipe.ContainerLeftIff | crates/recovery/src/wipe.rs:134-168 | after a completed wipe of a softraid root a container is found if and only if there was one, the level keeps the recovery system, and the probe could not read |
| Wipe.HeadsInside | crates/recovery/src/wipe.rs:58-70 | the 4 MiB overwrites of root and recovery stay inside their partitions |
| Wipe.DestroyIsThorough | crates/recovery/src/wipe.rs:146-168 | a completed wipe at the last level leaves zeros in all four places and no readable copy of any table, whichever legal sector size the disk is read with |
| Wipe.TableGoesLast | crates/recovery/src/wipe.rs:134-168 | wherever the last level stops, if anything outside root and recovery changed then both heads are zero and a container was erased |
| Wipe.RootGoesFirst | crates/recovery/src/wipe.rs:134-168 | wherever the last level stops, if anything outside root changed then root's head is zero and a container was erased |
| Provision.CheckedWhenNoError | crates/recovery/src/provision.rs:111-135 | checking touches neither disk nor container, and passes only if every wanted manifest is trusted and fits |
| Provision.CheckRoleIff | crates/recovery/src/provision.rs:77-88 | a role passes if and only if its manifest is trusted and its image is no larger than its own partition, given in bytes; too large exactly otherwise |
| Provision.EscrowStoresIff | crates/recovery/src/escrow.rs:102-111 | a key is stored only where escrow works, never in a TPM, and with a control plane only behind `https://` |
| Provision.WriteInto | crates/recovery/src/provision.rs:90-101 | a partition is filled from chunk 0 inside its own window, with the first failure reported |
| Provision.Run | crates/recovery/src/provision.rs:103-218 | the program leaves the disk, container, event log and result that the rows below speak of, in every world and at every point of failure |
| ProvisionProofs.OrderIsFixed | crates/recovery/src/provision.rs:111-207 | every log is a prefix of one fixed log (checks, table, fills, escrow, format and open called with that key, root, close), whole exactly on success |
| ProvisionProofs.FillEffect | crates/recovery/src/provision.rs:90-101 | a fill stays inside its window, whatever is announced and sent, and success means every chunk there hashes to its entry |
| ProvisionProofs.RootStageEffect | crates/recovery/src/provision.rs:161-207 | nothing outside root changes, and nothing at all before the key is escrowed |
| ProvisionProofs.ContainerEffect | crates/recovery/src/provision.rs:200-207 | after success the container begins with the verified root image |
| EndToEnd.ChecksComeFirst | crates/recovery/src/provision.rs:107-140 | if anything at all was changed, the run was told to commit and every wanted manifest was trusted and fits |
| EndToEnd.EveryRun | crates/recovery/src/provision.rs:103-218 | bytes outside table and wanted partitions never change, root only once its key is escrowed, dry runs change nothing |
| EndToEnd.SuccessIsComplete | crates/recovery/src/provision.rs:103-218 | a successful run leaves both copies of the table, verified images in the open partitions and in the container |
| EndToEnd.LifeOfADisk | crates/recovery/src/wipe.rs:72-168 | after provisioning, each copy reads as the plan; a later keeping wipe changes nothing of that, whatever root kind it assumes; a completed destroying wipe leaves neither copy at any sector size |
| EndToEnd.NeverWithoutPlan | crates/recovery/src/provision.rs:103-218 | provisioning a disk planned at the same size and sector size again, however it ends, leaves the new plan readable from the primary copy or the old one from the backup |
| Completion.FillSucceedsIff | crates/recovery/src/provision.rs:90-101 | filling a window with the image of its manifest succeeds if and only if it fits and the device lasts, and costs exactly its length and three operations |
| Completion.FillAnswerIs | crates/recovery/src/provision.rs:90-101 | what a fill answers for any source: no image, cannot open, which chunk failed and how, cannot sync |
| Completion.TableSucceedsIff | crates/recovery/src/provision.rs:142-151 | the exact answer of the table stage on every planned layout, by how long the device lasts |
| Completion.TableCostIs | crates/recovery/src/provision.rs:142-151 | writing the table of a planned layout costs exactly 33288 plus twice the sector size: its bytes, and eight opens, seeks, flushes and syncs |
| Completion.RootAnswers | crates/recovery/src/provision.rs:161-207 | each failure of the root stage with its exact condition, in order |
| Completion.FillAnswers | crates/recovery/src/provision.rs:152-165 | an open partition is skipped exactly when not wanted and missed exactly when its node does not appear |
| Completion.ChecksAnswer | crates/recovery/src/provision.rs:116-135 | the checks answer for the first wanted role that does not pass |
| Completion.DryRunIff | crates/recovery/src/provision.rs:103-140 | a dry run ends as such if and only if everything would have been checked; refused plans exactly as planned |
| Completion.ProvisionSucceedsIff | crates/recovery/src/provision.rs:103-218 | with a server that has the images of its manifests, a run succeeds if and only if it commits, sector and disk size are right, every wanted manifest is trusted and fits its own partition, nodes, key, escrow and tools work, root fits the opened container and the devices last, the costs given in numbers |
| Completion.DestroyCompletesIff | crates/recovery/src/wipe.rs:72-168 | the last level completes, for every kind, if and only if the key is on disk, a container found is erased, and the device lasts for ten mebibytes of zeros; and what it reports |
| EscrowWire.ParseEscrow | crates/control-plane/src/http.rs:113-127 | the loop over pairs of digits parses as the declarative parser, with the same first error |
| EscrowWire.Find | crates/control-plane/src/http.rs:129-139 | the search gives the first occurrence, and nothing only if there is none |
| EscrowWire.FieldReads | crates/control-plane/src/http.rs:129-139 | a field that stands in a text, whatever surrounds it, is read |
| EscrowWire.FieldStands | crates/control-plane/src/http.rs:129-139 | and only such a field is read |
| EscrowWire.ParseAnswers | crates/control-plane/src/http.rs:113-127 | each refusal with its exact condition, and the key byte for byte from its pairs of digits |
| EscrowWire.RadixIff | crates/control-plane/src/http.rs:122-125 | two characters make a byte exactly when both are digits of either case, or a plus sign precedes a digit |
| EscrowWire.DigitIff | crates/control-plane/src/http.rs:122-125 | the digits of either case and their values |
| EscrowWire.KnownBody | crates/recovery/src/escrow.rs:115-118 | one body character for character |
| EscrowWire.KeyPosition | crates/control-plane/src/http.rs:129-139 | where the quoted word key is found in a printed body, also when the device itself is called key |
| EscrowWire.WireRoundTripIff | crates/recovery/src/escrow.rs:115-118 | parsing what was printed gives device and key back if and only if the device has no quote and the key is not empty |
| EscrowWire.BytesRoundTripIff | crates/control-plane/src/http.rs:113-139 | the same over the bytes sent, for a device in any valid UTF-8: they pass the text check too |
| Utf8.ValidIff | crates/control-plane/src/http.rs:114 | the text check accepts exactly the encodings of characters after RFC 3629 |
| KeyStore.SafeNames | crates/control-plane/src/store.rs:29-41 | an admitted name stays inside the folder and its request comes through the wire unchanged |
| KeyStore.SafeIff | crates/control-plane/src/store.rs:29-38 | exactly which names are admitted, in ASCII codes |
| KeyStore.RunKeeps | crates/control-plane/src/store.rs:48-87 | the invariant of the folder holds after any interleaving of put, get and revoke steps |
| KeyStore.CreationsAndRemovalsAlternate | crates/control-plane/src/store.rs:48-87 | per device, successful exclusive creations and removals strictly alternate, and the file is there exactly after a creation |
| KeyStore.KeyStaysUntilRevoked | crates/control-plane/src/store.rs:48-87 | whatever else runs, a file keeps owner and key, and once whole its bytes until a revocation opens it |
| KeyStore.StoredIsWhole | crates/control-plane/src/store.rs:48-63 | a put that reports success wrote its own whole key into a file of its own, and the device's name leads to it until it is removed |
| KeyStore.UnrevokedIsUntouched | crates/control-plane/src/store.rs:77-87 | as long as nobody has asked to revoke a device its file is untouched and under its name |
| KeyStore.StoredIsServed | crates/control-plane/src/store.rs:48-68 | every get that starts after a successful put fails or returns exactly its key, unless a revocation opens or removes the file |
| KeyStore.GotIsOneKey | crates/control-plane/src/store.rs:65-68 | a get never mixes two keys, and returns exactly the key if it was whole and not being revoked |
| KeyStore.RevokedIsGone | crates/control-plane/src/store.rs:77-87 | every get starting after a successful revocation fails until a key is put again |
| Escrow.KeyInUseWasEscrowed | crates/recovery/src/provision.rs:184-205 | whatever key a format or open is called with was drawn in that run and escrowed before |
| Escrow.KeyGoesNowhereElse | crates/recovery/src/escrow.rs:102-138 | over every run, a key is escrowed only where escrow works, never to a TPM and never to an address without `https://` |
| Escrow.EscrowedKeyIsTheKey | crates/recovery/src/escrow.rs:115-118 | the key of the format call, printed, parsed and put with success, is the key in the file the device's name leads to; every get starting later fails or returns it, unless a revocation opens or removes the file |
| KeyStore.Store.Put | crates/control-plane/src/store.rs:48-63 | undisturbed: a new file with the key, or a prefix of it, or nothing; success on a free name if no operation fails |
| KeyStore.Store.Get | crates/control-plane/src/store.rs:65-68 | undisturbed: changes nothing and returns the whole file |
| KeyStore.Store.Revoke | crates/control-plane/src/store.rs:77-87 | undisturbed: the name goes, the bytes are zeroed as far as the device lets that happen, nothing else changes |

## Left out

- HTTP, TLS, DHCP, the command line, printing, sysfs, `part_path`, `describe` and type names: input, output and presentation.
- SHA-256, Ed25519, LUKS, geli, cgd and bioctl themselves: parameters; a tool may answer anything and change anything inside root.
- Randomness: identifiers, keys and nonces are parameters, and nothing is claimed about their being different or hard to guess.
- Install.ResumeIsSafe: sessions resume at or before the verified prefix, as the caller is told to; the offset is not cut to 64 bits, so a resume value beyond every image is outside the model.
- Ingest.VerifyAndWrite: memory is unbounded, so the buffer of one chunk can always be had; `usize` has 64 bits.
- Device.Disk.WriteAll: bytes arrive in order and stay; caches, reordering at power loss and what flash keeps of overwritten data are not modelled.
- Fetching with a Range request: only whether the answer was partial matters; the stream is any byte string.
- `load_key`, `secret_eq`, `reread_partitions` and the waiting in `settle`: they decide nothing on the disk beyond failing.
- Retrying the last wipe level until it is done: no loop in the code does so.
- The persistence of the nonce log: the trait in the repository leaves it to the caller.
- ProvisionProofs.OrderIsFixed: records the key that format and open are called with; that the cgd layer ignores it and fetches its own is not an event of the log.
- Provision.EscrowStores: escrow succeeds or fails as a whole; that the request reaches the control plane is not part of it, only what becomes of it there (`Escrow.EscrowedKeyIsTheKey`).
- EscrowWire.WireRoundTripIff: says nothing of the HTTP request around the body, nor of the `https://` test beyond `Provision.EscrowStores`.
- KeyStore.GotIsOneKey: a get that races a put or a revocation may return part of a key or zeros, in the code as well, so nothing more is claimed of it.
- File permissions and the creation of the key folder.
