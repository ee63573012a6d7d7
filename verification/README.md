# DKR-R runtime: verified core

Dafny models of the parts of the DKR-R runtime that carry state or a file format, with proofs of what they promise.
`dafny verify dfyconfig.toml` checks the whole project.

- **EEPROM saves** (`BitPacking`, `BitCursors`, `SaveNames`, `SaveLayout`, `SaveCodec`, `SaveTheorems`, `SaveImages`,
  `SaveTools`, `SaveFields`). The 512-byte image is parsed and printed bit by bit. The methods of `SaveCodec` and `SaveTools` work on
  buffers as the program does and are proved against functions on bytes; `SaveTheorems` and `SaveImages` prove about those
  functions that encoding and decoding are inverse up to an explicitly stated normal form, that canonical bytes decide
  equality of saves, what the checksums detect, and that checksum repair always succeeds. `SaveFields` says where each field
  lies in the bytes and what it is, without the order in which the codec walks over them.
- **Custom tracks** (`TrackData`, `TrackModels`, `TrackTables`, `TrackSteps`, `TrackRegistry`, `TrackRuns`, `TrackLinks`,
  `TrackTextures`, `TrackParsing`, `TrackHooks`, `TrackTableLoads`, `TrackHeaders`, `TrackGame`). `Registry` is the global
  state behind the API; `TrackSteps` is the same state machine on values, and `TrackGame` puts the game's own memory beside it. Main results:
  retail tables keep their meaning, custom entries are served exactly, model textures and header fields only ever name
  entries of their own track, what an armed track's level id loads, and all of it over every run.
- **Presentation scopes** (`PresentationScopes`, `PresentationBridge`, `GroupScopes`). Bounded stacks with counters of
  rejected begins, proved to behave like unbounded ones.
- **Asset mutex** (`AssetMutex`). The uncontended fast paths refine the blocking queue, and the token gives mutual exclusion.
- **Policies** (`Controllers`, `PanelCache`, `MagicCodes`, `CountedLists`).

`Basics` holds what several of these share: optional values and one sequence laid over another.

## Where the code does less than one might expect

- A HUD slot's "pushed a projection" flag is set by a reference pass and cleared only with the task
  (`f3ddkr_rt64.cpp:2198-2225`). A later pass of another kind in the same slot then pops a projection that it never pushed.
  `ReusedSlotPopsTwice` shows it; `ProjectionsBalanceExactly` says exactly when a task is free of it.
- An ordinary HUD end tells the RDP its rectangle aspect only when that flag is set, so crossed scopes can leave the RDP out
  of step (`CrossedScopesLeaveAspect`). `StepBroken` says exactly which marker does it and `TaskAspect` exactly which tasks
  end on another aspect; well-nested markers and all their prefixes are safe.
- A reload that has to wait for the next build restores no enable choices: no manifest holds a flag, so every disabled track
  comes back enabled. `DeferredReloadForgetsChoice` shows it; `NextBuildKeepsChoice` says exactly when a choice survives.
- If the game's pool cannot hold the longer table, the retail table stays published although the section counts as built and
  level ids stay resolved. `RefusedPoolKeepsLevelId` shows an id beyond the game's count; `LevelIdReachable` says exactly when
  that happens.
- A header can reach the game with object map 0 in spite of the parser's check. The check covers only the last header of a
  track (`FirstOfTwoHeadersHasMapZero`), and a map that the track supplies helps only if the object-map table was built while
  the track was enabled: `LateMapsLeaveZero` builds it while the track is switched off, `HeadersFirstLeaveZero` loads the
  header table first. `LoadedMapField` says exactly when a header arrives with an object map other than 0, for maps built or
  not, and `ArmedLevelMapField` says it for the armed level over every run. An accepted track is safe where maps and headers
  were built from the same tracks (`JudgedHeaderHasNoZeroMap`, `ArmedLevelHasNoZeroMap`).
- A texture rebuild does not touch the models that were built before it. A track that is switched on in between can move the
  textures behind it, and a served model then names another track's texture (`RebuildMovesTexture`). `ServedIdAfterRebuild`
  says exactly when an id stays correct.
- No header has to be as long as the 196 bytes that the game reads of it at start-up (`ShortHeaderAccepted`). The read of a
  shorter one goes on with the headers behind it, or reaches the ROM (`ShortHeaderOverruns`).
- The command loop checks its pointer before it steps on, so by itself it could fetch the one word directly behind RDRAM, and
  no other outside it (`RunCommands`). Its only caller never gets there: it checks the whole block first, and all that it runs
  lies in RDRAM (`CountedDisplayList`).
- Normalising a code mask can drop a code for the sake of another that is dropped itself (`NormalisingLosesMore`);
  `NormalisedKeeps` says exactly which codes stay.
- An acknowledgement of a one-shot code that arrives before the codes are applied has no effect (`AcknowledgedExactly`).
- A single changed byte in the payload of the config word is noticed only if it changes that byte's nibble sum
  (`ConfigByteAccepted`).

## Assumptions

- Builds take any 32-bit table, with the program's unsigned and signed arithmetic. Only the theorems on what is served ask
  for offsets that are not negative, a section that ends below 2^31 and indices that fit a signed word; those on object-map
  fields instead for at least one retail object map, since index 0 is then no custom one, and for indices that fit the
  header's 16 bits, where object maps were built.
- Tracks reach the registry as the parser hands them over: named, enabled, with non-empty payloads. The directory listing and
  the saved armed id are inputs of a scan, a manifest is its decoded JSON, and whether a path is absolute and what file lies
  there are inputs of the parser.
- `osRecvMesg` blocks on an empty queue and wakes some waiting sender, `osSendMesg` without blocking fails on a full queue and
  wakes some waiting receiver; which one is woken is arbitrary. A woken thread looks at the queue again.
- The handlers of the opcodes allowed in a counted block leave the command pointer alone or reject the task.
- RT64 pushes, pops and sets are plain state: the projection stack's size is a number that pops lower without a floor, and
  alignments and clip ratios are opaque numbers. Rasterising a panel yields nothing or a handle not used before.
- Disjoint bit fields that the program combines by OR are added; a code mask is the set of its bit positions.

## Model

| member | source | states |
|---|---|---|
| `BitPacking.ToFromBits` | runtime-recomp/src/game/dkr_save_codec.cpp:104-122 | Writing the value of a bit field back in its own width gives the same bits. |
| `BitPacking.FromToBits` | runtime-recomp/src/game/dkr_save_codec.cpp:124-146 | Reading back a field written from a value that fits its width gives the value. |
| `BitPacking.ParseFlat` | runtime-recomp/src/game/dkr_save_codec.cpp:104-146 | Parsing a stream of fields written with given widths returns exactly the written values, for any widths and values that fit. |
| `BitPacking.FlatParse` | runtime-recomp/src/game/dkr_save_codec.cpp:104-146 | Writing back the values parsed from a stream reproduces the stream bit for bit. |
| `BitPacking.BitUpdate` | runtime-recomp/src/game/dkr_save_codec.cpp:124-146 | Setting or clearing one bit of a number changes that bit of its binary form and no other. |
| `BitCursors.BitReader.Read` | runtime-recomp/src/game/dkr_save_codec.cpp:104-122 | The cursor advances by the width and the value is the number those bits of the buffer spell; the sequence of values read so far stays the parse of the stream. |
| `BitCursors.BitReader.ReadEach` | runtime-recomp/src/game/dkr_save_codec.cpp:190-201 | A group of equal-width fields extends the parse by exactly those fields. |
| `BitCursors.BitWriter.Write` | runtime-recomp/src/game/dkr_save_codec.cpp:124-146 | The buffer stays the original with the written fields laid over it from the start position, and every other bit is untouched. |
| `BitCursors.BitWriter.WriteEach` | runtime-recomp/src/game/dkr_save_codec.cpp:205-220 | A group of equal-width fields extends what has been written by exactly those fields. |
| `SaveNames.FindIsFirstIndex` | runtime-recomp/src/game/dkr_save_codec.cpp:14-14 | The letter lookup is the first index in the alphabet, and fails exactly for characters outside it. |
| `SaveNames.SanitiseName` | runtime-recomp/src/game/dkr_save_codec.cpp:481-490 | At most three characters, upper-cased, with a space for everything outside the alphabet. |
| `SaveNames.DecodeName` | runtime-recomp/src/game/dkr_save_codec.cpp:148-159 | The three letters of the packed word with trailing spaces dropped; bit 15 plays no part. |
| `SaveNames.EncodeName` | runtime-recomp/src/game/dkr_save_codec.cpp:161-171 | Five bits a letter, space for missing ones. |
| `SaveNames.NameRoundTrip` | runtime-recomp/src/game/dkr_save_codec.cpp:148-171 | Encoding then decoding any name sanitises and trims it. |
| `SaveNames.CodeRoundTrip` | runtime-recomp/src/game/dkr_save_codec.cpp:148-171 | Decoding then encoding a packed word returns it if and only if bit 15 is clear and no letter uses one of the redundant space codes. |
| `SaveNames.NormalNameIdempotent` | runtime-recomp/src/game/dkr_save_codec.cpp:148-171 | Writing and reading a name twice is the same as once. |
| `SaveNames.NormalNameExactly` | runtime-recomp/src/game/dkr_save_codec.cpp:148-171 | A name survives writing and reading unchanged if and only if it has at most three alphabet characters and no trailing space. |
| `SaveNames.DecodedNameIsNormal` | runtime-recomp/src/game/dkr_save_codec.cpp:148-171 | Every decoded name survives another write and read. |
| `SaveLayout.ChecksumNeverWraps` | runtime-recomp/src/game/dkr_save_codec.cpp:87-94 | The 16-bit additive checksum of a slot or a record block never truncates. |
| `SaveLayout.SlotWidthsTotal` | runtime-recomp/src/game/dkr_save_codec.cpp:189-201 | The slot field widths add up to the 304 bits behind the checksum. |
| `SaveLayout.ConfigWord` | runtime-recomp/src/game/dkr_save_codec.cpp:271-273 | The big-endian config word is its payload plus its checksum byte above it. |
| `SaveCodec.BlockChecksumAt` | runtime-recomp/src/game/dkr_save_codec.cpp:87-94 | The loop computes five plus the byte sum, as a 16-bit number. |
| `SaveCodec.ConfigChecksumOf` | runtime-recomp/src/game/dkr_save_codec.cpp:96-102 | The loop computes five plus the sum of the fourteen payload nibbles. |
| `SaveCodec.ReadBe64` | runtime-recomp/src/game/dkr_save_codec.cpp:70-77 | The value of eight big-endian bytes. |
| `SaveCodec.WriteBe64` | runtime-recomp/src/game/dkr_save_codec.cpp:79-85 | Eight big-endian bytes at the offset; all other bytes unchanged. |
| `SaveCodec.DecodeSlot` | runtime-recomp/src/game/dkr_save_codec.cpp:173-203 | Blank for an erased slot, nothing for a wrong checksum, otherwise the fields that the slot bits hold; `SaveFields.SlotByPosition` says what these are. |
| `SaveCodec.EncodeSlot` | runtime-recomp/src/game/dkr_save_codec.cpp:205-222 | Exactly the forty bytes at the offset become the clamped and masked fields under their checksum. |
| `SaveCodec.DecodeSettings` | runtime-recomp/src/game/dkr_save_codec.cpp:271-284 | Nothing for a wrong checksum, otherwise the settings that the payload encodes. |
| `SaveCodec.EncodePayload` | runtime-recomp/src/game/dkr_save_codec.cpp:301-310 | The bit-by-bit loop over the trial flags produces the settings payload. |
| `SaveCodec.EncodeSettings` | runtime-recomp/src/game/dkr_save_codec.cpp:301-311 | Exactly the eight config bytes become payload and checksum. |
| `SaveCodec.DecodeRecords` | runtime-recomp/src/game/dkr_save_codec.cpp:224-239 | Nothing for a wrong checksum, otherwise all records and the reserved bytes. |
| `SaveCodec.EncodeRecords` | runtime-recomp/src/game/dkr_save_codec.cpp:241-255 | Exactly the 192 bytes of the block become the records, the reserved bytes and the checksum. |
| `SaveCodec.Decode` | runtime-recomp/src/game/dkr_save_codec.cpp:259-293 | The decoded image, or the first failing check in source order: size, slots, settings, records. |
| `SaveCodec.Encode` | runtime-recomp/src/game/dkr_save_codec.cpp:295-317 | The six regions of the image, each as its own encoder writes it. |
| `SaveTheorems.SlotRoundTrip` | runtime-recomp/src/game/dkr_save_codec.cpp:173-222 | Any slot decodes from its own encoding to its clamped, masked and trimmed form. |
| `SaveTheorems.SlotCanonical` | runtime-recomp/src/game/dkr_save_codec.cpp:173-222 | A checksummed slot is re-encoded byte for byte if and only if its name code is canonical. |
| `SaveTheorems.SettingsRoundTrip` | runtime-recomp/src/game/dkr_save_codec.cpp:271-310 | Any settings decode from their own payload with the language masked and only the preserved bits kept. |
| `SaveTheorems.PayloadRoundTrip` | runtime-recomp/src/game/dkr_save_codec.cpp:271-310 | Every 56-bit payload is reproduced by decoding and encoding it. |
| `SaveTheorems.ConfigRoundTrip` | runtime-recomp/src/game/dkr_save_codec.cpp:271-311 | The encoded config word always passes its checksum and decodes to the normal settings. |
| `SaveTheorems.ConfigCanonical` | runtime-recomp/src/game/dkr_save_codec.cpp:271-311 | Every valid config word is re-encoded byte for byte. |
| `SaveTheorems.RecordsRoundTrip` | runtime-recomp/src/game/dkr_save_codec.cpp:224-255 | Any record block decodes from its own encoding with its initials normalised. |
| `SaveTheorems.RecordsCanonical` | runtime-recomp/src/game/dkr_save_codec.cpp:224-255 | A valid record block is re-encoded byte for byte if and only if all its initials codes are canonical. |
| `SaveTheorems.ErasedIsNotValid` | runtime-recomp/src/game/dkr_save_codec.cpp:173-188 | A slot of 0xFF bytes never passes the checksum, so erased and checksummed slots cannot be confused. |
| `SaveImages.Tiles` | runtime-recomp/src/game/dkr_save_codec.cpp:9-13 | Three slots, config word and two record blocks tile the 512 bytes. |
| `SaveImages.ImageRoundTrip` | runtime-recomp/src/game/dkr_save_codec.cpp:259-317 | For every image, decoding its encoding succeeds and gives the normal form of the image. |
| `SaveImages.RoundTripExactly` | runtime-recomp/src/game/dkr_save_codec.cpp:259-317 | An image comes back unchanged if and only if every field is within the range the encoder keeps, every name is storable and the preserved word holds only preserved bits. |
| `SaveImages.DecodedIsNormal` | runtime-recomp/src/game/dkr_save_codec.cpp:259-317 | Every decoded image is in normal form, so it survives encoding. |
| `SaveImages.CanonicalIdempotent` | runtime-recomp/src/game/dkr_save_codec.cpp:385-401 | Canonical bytes are valid and canonicalise to themselves. |
| `SaveImages.CanonicalDecidesEquality` | runtime-recomp/src/game/dkr_save_codec.cpp:385-401 | Two valid images have the same canonical bytes if and only if they decode to the same save. |
| `SaveImages.CanonicalFixesExactly` | runtime-recomp/src/game/dkr_save_codec.cpp:385-401 | A valid image is returned byte for byte if and only if no slot is erased and every name code is canonical. |
| `SaveImages.ErasedEqualsBlank` | runtime-recomp/src/game/dkr_save_codec.cpp:173-185 | Replacing an erased slot by a checksummed blank one gives the same canonical bytes. |
| `SaveImages.DecodeAccepts` | runtime-recomp/src/game/dkr_save_codec.cpp:259-293 | Decoding succeeds if and only if each region passes its own check, erased slots included. |
| `SaveImages.BlockDetectsByte` | runtime-recomp/src/game/dkr_save_codec.cpp:87-94 | Changing any one byte of a valid block invalidates it. |
| `SaveImages.SlotDetectsByte` | runtime-recomp/src/game/dkr_save_codec.cpp:173-188 | Changing any one byte of an accepted slot, erased or not, makes it unacceptable. |
| `SaveImages.SingleByteDetected` | runtime-recomp/src/game/dkr_save_codec.cpp:87-94 | Decoding refuses every image that differs from a valid one in a single byte outside the config word. |
| `SaveImages.ConfigByteAccepted` | runtime-recomp/src/game/dkr_save_codec.cpp:96-102 | A one-byte change inside the config word of a valid image is accepted if and only if it is in the payload and keeps the nibble sum of that byte. |
| `SaveImages.SingleNibbleDetected` | runtime-recomp/src/game/dkr_save_codec.cpp:271-276 | Any single-nibble change in the config word of a valid image is refused. |
| `SaveImages.RepairedDecodes` | runtime-recomp/src/game/dkr_save_codec.cpp:338-383 | Repairing any 512 bytes yields an image that decodes. |
| `SaveImages.RepairFixesValid` | runtime-recomp/src/game/dkr_save_codec.cpp:338-383 | Repair leaves every valid image as it is. |
| `SaveImages.RepairIdempotent` | runtime-recomp/src/game/dkr_save_codec.cpp:338-383 | Repairing twice is repairing once. |
| `SaveImages.RepairTouchesChecksumsOnly` | runtime-recomp/src/game/dkr_save_codec.cpp:338-383 | Every byte outside the eleven checksum bytes survives repair. |
| `SaveImages.RepairKeepsErased` | runtime-recomp/src/game/dkr_save_codec.cpp:342-352 | An erased slot stays byte for byte, and repair never creates one. |
| `SaveTools.RepairChecksums` | runtime-recomp/src/game/dkr_save_codec.cpp:338-383 | The in-place repair fails on a wrong size only; its closing validation can never refuse the result. |
| `SaveTools.CanonicalBytes` | runtime-recomp/src/game/dkr_save_codec.cpp:385-401 | Fails exactly where decoding fails, otherwise gives the canonical bytes. |
| `SaveTools.ValidateEditableRanges` | runtime-recomp/src/game/dkr_save_codec.cpp:434-479 | Accepts exactly the images within the editable ranges, balloon totals included. |
| `SaveTools.NormaliseEditableFields` | runtime-recomp/src/game/dkr_save_codec.cpp:403-432 | The loops produce the clamped image with consistent balloon totals. |
| `SaveTools.NormalisedIsEditable` | runtime-recomp/src/game/dkr_save_codec.cpp:403-479 | Normalising always lands in the accepted ranges and changes nothing if and only if the slot is there already with a clean name. |
| `SaveTools.EditableSurvivesEncoding` | runtime-recomp/src/game/dkr_save_codec.cpp:205-222 | A slot in the editable ranges loses nothing in the encoder but the normalisation of its name. |
| `SaveFields.FieldOfBits` | runtime-recomp/src/game/dkr_save_codec.cpp:104-122 | A stretch of the bit cursor's bits is the field of the one big-endian number that the bytes spell, at that place and width. |
| `SaveFields.DecodedNameShows` | runtime-recomp/src/game/dkr_save_codec.cpp:148-159 | The first letter of a name comes from bits 10 to 14 of its word, the third from bits 0 to 4; behind the name there are only spaces. |
| `SaveFields.EncodedNameIs` | runtime-recomp/src/game/dkr_save_codec.cpp:161-171 | The word of a name: letters in either case count from A as 0, then the point, the question mark and a space for everything else, five bits each. |
| `SaveFields.SanitisedIs` | runtime-recomp/src/game/dkr_save_codec.cpp:481-490 | A cleaned name has the first three characters, letters in upper case, points and question marks kept, a space for anything else. |
| `SaveFields.SlotByPosition` | runtime-recomp/src/game/dkr_save_codec.cpp:173-203 | A slot of 0xFF bytes decodes with every number 0 and no name; every other accepted slot decodes to the fields at their fixed bit positions. |
| `SaveFields.EncodedSlotByPosition` | runtime-recomp/src/game/dkr_save_codec.cpp:205-222 | And the encoder puts each field, clamped or masked, at that position. |
| `SaveFields.SettingsByPosition` | runtime-recomp/src/game/dkr_save_codec.cpp:271-284 | Each setting is its own bits of the payload, and the preserved word is bit 24 and bits 26 to 55 of it. |
| `SaveFields.EncodedSettingsByPosition` | runtime-recomp/src/game/dkr_save_codec.cpp:301-311 | The encoded payload carries each setting, and the kept bits of the preserved word, at those bits. |
| `SaveFields.RecordsByPosition` | runtime-recomp/src/game/dkr_save_codec.cpp:224-239 | Each record is the time word and the initials word at its place, and the two tail bytes follow them. |
| `SaveFields.EncodedRecordsByPosition` | runtime-recomp/src/game/dkr_save_codec.cpp:241-255 | The encoder writes time and initials word of each record to that place. |
| `SaveFields.ImageByPosition` | runtime-recomp/src/game/dkr_save_codec.cpp:259-293 | Every field of a decoded image by its place in the 512 bytes; an erased slot is empty. |
| `SaveFields.EncodedImageByPosition` | runtime-recomp/src/game/dkr_save_codec.cpp:295-317 | Every field of an encoded image by its place. |
| `SaveFields.RefusedExactly` | runtime-recomp/src/game/dkr_save_codec.cpp:259-293 | Which refusal is reported: the size, else the first slot that fails, else the settings, else the records. |
| `SaveFields.NormalisedFields` | runtime-recomp/src/game/dkr_save_codec.cpp:403-432 | What normalising makes of each field: worlds cut to eight balloons, and the total cut to 47 and moved to the nearest number from the worlds' sum to seven above it. |
| `SaveFields.NormalisedImageFields` | runtime-recomp/src/game/dkr_save_codec.cpp:403-432 | All three slots are normalised, the language is cut to 3, and everything else stays. |
| `SaveFields.EditableExactly` | runtime-recomp/src/game/dkr_save_codec.cpp:434-475 | Which slots are accepted, range by range. |
| `SaveFields.EditableImageExactly` | runtime-recomp/src/game/dkr_save_codec.cpp:434-479 | An image is accepted if and only if its three slots are and the language is at most 3. |
| `TrackData.CollectEnabled` | runtime-recomp/src/game/custom_tracks.cpp:83-96 | The nested loops give the entries of enabled tracks in track order, then manifest order, each with its owner; `EnabledInOrder` and `EnabledListed` say which entry stands where. |
| `TrackData.EntriesInOrder` | runtime-recomp/src/game/custom_tracks.cpp:83-96 | Manifest order: an entry of a section stands at the position that equals the number of earlier entries of that section, and as many are listed as there are. |
| `TrackData.ListedEntry` | runtime-recomp/src/game/custom_tracks.cpp:83-96 | And every listed entry is one of them. |
| `TrackData.EnabledInOrder` | runtime-recomp/src/game/custom_tracks.cpp:83-96 | Each entry of an enabled track is contributed, at the position that counts what the enabled tracks ahead contribute and its own predecessors. |
| `TrackData.EnabledListed` | runtime-recomp/src/game/custom_tracks.cpp:83-96 | And nothing else is contributed. |
| `TrackData.ManifestOrder` | runtime-recomp/src/game/custom_tracks.cpp:478-486 | With unique ids, the running count that a build keeps per track is each entry's manifest position within its own track and section. |
| `TrackData.ManifestPosition` | runtime-recomp/src/game/custom_tracks.cpp:79-96 | Every entry of an enabled track appears among the contributions at its manifest position. |
| `TrackModels.ResolveModelTextures` | runtime-recomp/src/game/custom_tracks.cpp:171-250 | The guarded in-place loop rewrites the appended model and leaves all earlier bytes of the blob alone. |
| `TrackModels.RewriteIds` | runtime-recomp/src/game/custom_tracks.cpp:216-237 | The loop over the texture table substitutes each custom id and nothing else. |
| `TrackModels.OwnTexture` | runtime-recomp/src/game/custom_tracks.cpp:266-282 | The index of the first published texture of this track and ordinal, or -1 if there is none. |
| `TrackModels.ResolvedIds` | runtime-recomp/src/game/custom_tracks.cpp:171-235 | Each texture of an acceptable model ends up with its own substituted id: retail ids unchanged, custom ones the own index or 0. |
| `TrackModels.OnlyCustomIdsChange` | runtime-recomp/src/game/custom_tracks.cpp:109-125 | A byte changes only inside an id word in the custom range, and that word lies inside the stored data. |
| `TrackModels.StreamPreserved` | runtime-recomp/src/game/custom_tracks.cpp:171-235 | The rewritten payload inflates to a stored block with the same final flag, length and following stream, different in custom id words only. |
| `TrackModels.ResolvableExactly` | runtime-recomp/src/game/custom_tracks.cpp:171-212 | Which models are rewritten, byte by byte: tag, block type, length words, texture count and the place of the table. |
| `TrackModels.ShortModelKept` | runtime-recomp/src/game/custom_tracks.cpp:171-185 | A model too short for its texture count is left alone. |
| `TrackModels.IdExactly` | runtime-recomp/src/game/custom_tracks.cpp:213-228 | Where the id of each texture lies, its byte order, and the range that counts as custom. |
| `TrackTables.PublishedCount` | runtime-recomp/src/game/custom_tracks.cpp:430-445 | The game's own count of the published table is the retail count plus the added entries. |
| `TrackTables.WordsConvert` | runtime-recomp/src/game/custom_tracks.cpp:447-507 | The conversions between signed and unsigned table words are inverse to each other and keep the value modulo 2^32. |
| `TrackTables.RetailUntouched` | runtime-recomp/src/game/custom_tracks.cpp:471-476 | Every retail entry keeps its offset and difference size, the last one included. |
| `TrackTables.EntryRangeServed` | runtime-recomp/src/game/custom_tracks.cpp:516-531 | Any range inside custom entry j, counted from the offset that the game computes, is served as that part of its assembled bytes. |
| `TrackTables.CustomEntryServed` | runtime-recomp/src/game/custom_tracks.cpp:471-531 | Loading custom entry j with the offset and size that the game computes serves exactly its assembled bytes. |
| `TrackTables.OverrunServed` | runtime-recomp/src/game/custom_tracks.cpp:516-531 | A load that runs past its entry goes on with the bytes that the section holds behind it, and is left to the ROM if and only if the section ends first. |
| `TrackTables.RetailOffsetsGoToRom` | runtime-recomp/src/game/custom_tracks.cpp:516-522 | Every offset below the retail end is left to the ROM. |
| `TrackRegistry.Registry.Scan` | runtime-recomp/src/game/custom_tracks.cpp:1038-1066 | The new state after a scan: first track of each id in listing order, no resolved ids, no pending rescan, the saved armed id if any; `TrackSteps.ScanExactly` says so of the lists. |
| `TrackSteps.ScanExactly` | runtime-recomp/src/game/custom_tracks.cpp:1038-1066 | The first track of each id stands behind the kept tracks ahead of it and nothing else is kept; a saved armed id is taken over, otherwise the old one stays; nothing is resolved or pending, and what was built stays. |
| `TrackRegistry.Registry.SetEnabled` | runtime-recomp/src/game/custom_tracks.cpp:305-312 | Only the enable flag of the named track changes. |
| `TrackSteps.SwitchExactly` | runtime-recomp/src/game/custom_tracks.cpp:305-312 | The flag of the tracks with this id is set, and no other flag, track or field changes. |
| `TrackRegistry.Registry.Arm` | runtime-recomp/src/game/custom_tracks.cpp:351-364 | Only the armed track changes. |
| `TrackRegistry.Registry.Reload` | runtime-recomp/src/game/custom_tracks.cpp:1225-1252 | Deferred once the header table exists, otherwise an immediate rescan that restores enable choices by id. |
| `TrackSteps.ReloadExactly` | runtime-recomp/src/game/custom_tracks.cpp:1239-1251 | Apart from the enable flags, an immediate reload does what a scan does, the saved armed id included. |
| `TrackRegistry.Registry.BuildExtendedTable` | runtime-recomp/src/game/custom_tracks.cpp:413-514 | For every 32-bit table: the pending rescan, the refusals, the new section state, the resolved level ids and the returned table, all at once. |
| `TrackSteps.AcceptedExactly` | runtime-recomp/src/game/custom_tracks.cpp:425-445 | A table is accepted if and only if its first terminator lies behind at least one word and within 4096. |
| `TrackSteps.BuildResolves` | runtime-recomp/src/game/custom_tracks.cpp:452-507 | After an accepted header build exactly the enabled tracks with a header have a level id; no other build changes level ids. |
| `TrackRegistry.AssembleSection` | runtime-recomp/src/game/custom_tracks.cpp:476-507 | The loop over the entries yields the blob, the added-entry list with per-track ordinals and the running end offsets. |
| `TrackRegistry.Registry.PayloadAt` | runtime-recomp/src/game/custom_tracks.cpp:516-531 | The served bytes, or nothing for an unbuilt section, a retail offset, a non-positive size or an overrun. |
| `TrackRegistry.Registry.Sibling` | runtime-recomp/src/game/custom_tracks.cpp:533-556 | The index of the same track's first entry for a section and slot, or -1; that it is the first in the manifest is `FixupNamesOwnEntry`. |
| `TrackRegistry.Registry.TrackOverrideId` | runtime-recomp/src/game/custom_tracks.cpp:401-411 | The level id of the armed track, or -1. |
| `TrackRuns.ReachableInv` | runtime-recomp/src/game/custom_tracks.cpp:413-514 | In every run of scan, enable, reload, arm and build from the start, each section is exactly what its last build made of the tracks of that moment, ids are unique and resolved ids come from the last header build. |
| `TrackRuns.PayloadsStable` | runtime-recomp/src/game/custom_tracks.cpp:516-531 | What a section serves changes at that section's own build and nowhere else in a run. |
| `TrackRuns.ReloadsDefer` | runtime-recomp/src/game/custom_tracks.cpp:1225-1237 | Once the header table exists, the reloads in any stretch of calls up to the next build change nothing but the pending mark: the state is the one that the same calls without them reach. |
| `TrackRuns.ReloadKeepsChoices` | runtime-recomp/src/game/custom_tracks.cpp:1239-1251 | An immediate reload keeps every enable choice by id and brings new tracks in enabled. |
| `TrackRuns.NextBuildKeepsChoice` | runtime-recomp/src/game/custom_tracks.cpp:420-423 | Over any calls up to the next build, refused tables included, a track known before and after keeps its enable choice if and only if it was enabled at that moment or no reload was waiting. |
| `TrackRuns.DeferredReloadForgetsChoice` | runtime-recomp/src/game/custom_tracks.cpp:1225-1252 | Counterexample to keeping choices: a track switched off after the header build is enabled again by a reload and the next build. |
| `TrackRuns.RebuildSame` | runtime-recomp/src/game/custom_tracks.cpp:487-499 | Building again from the same tracks and table serves and returns the same: the id rewrite is never cumulative. |
| `TrackLinks.BackedServes` | runtime-recomp/src/game/custom_tracks.cpp:516-531 | In a built section within range, the table index of an entry leads to exactly that entry's assembled bytes. |
| `TrackLinks.LevelIdNamesOwnHeader` | runtime-recomp/src/game/custom_tracks.cpp:452-458 | In every state that satisfies the run invariant, a resolved level id is the index of the last header of that very track, and serves it, in the table that the build returned. Whether that table reached the game is `LevelIdReachable`. |
| `TrackLinks.OwnTextureResolved` | runtime-recomp/src/game/custom_tracks.cpp:266-282 | A custom id 0x7000 + k resolves to the index that serves the own track's texture with exactly k textures ahead of it in the manifest, or to 0 when the track published none. |
| `TrackLinks.ModelBuildLinks` | runtime-recomp/src/game/custom_tracks.cpp:471-507 | Over every run from the start: from a model build on, models stay linked to the published textures until the textures are built again. |
| `TrackLinks.ModelTexturesServed` | runtime-recomp/src/game/custom_tracks.cpp:164-250 | End to end, while the textures that the models were built against are still published: each custom id 0x7000 + k of a served model becomes the index of a texture that its own track owns, and that serves the bytes of the manifest texture with exactly k textures ahead of it, or 0 where the track shipped none to that table. |
| `TrackTextures.OwnTextureExactly` | runtime-recomp/src/game/custom_tracks.cpp:266-282 | An index names a track's own k-th texture if and only if it is the retail count plus the textures of the enabled tracks ahead plus k; or 0 where no such texture was published. |
| `TrackTextures.ServedIdAfterRebuild` | runtime-recomp/src/game/custom_tracks.cpp:471-507 | Over every run with a model build and no later one: a custom id of a served model is the place that its texture had when the models were built; it still names the track's own texture if and only if that place has not moved since; otherwise it serves the texture that lies there now. |
| `TrackTextures.RebuildMovesTexture` | runtime-recomp/src/game/custom_tracks.cpp:487-499 | Counterexample to lasting links: a legal run after which a model is served with index 1, which now belongs to another track. |
| `TrackParsing.ParseTrack` | runtime-recomp/src/game/custom_tracks.cpp:720-887 | A manifest is accepted if and only if it has schema version 1, an id and entries, every entry is acceptable, and the last header leaves no object map at 0 that the track does not supply; an accepted track holds exactly those entries, none empty, and is enabled. |
| `TrackParsing.ParseItem` | runtime-recomp/src/game/custom_tracks.cpp:767-840 | An entry is accepted if and only if its section is known, an object map names its slot, its path is neither empty nor absolute nor contains two dots in a row, its file is readable with 1 byte to 16 MiB, and a texture has at least 40 bytes and a multiple of 16. |
| `TrackParsing.ItemExactly` | runtime-recomp/src/game/custom_tracks.cpp:767-840 | The accepted entries in terms of names, paths and sizes alone; two dots in a row anywhere in the path are refused. |
| `TrackParsing.EntryExactly` | runtime-recomp/src/game/custom_tracks.cpp:767-840 | What an accepted entry becomes: its file's bytes, its section and, for object maps only, its slot. |
| `TrackParsing.ManifestExactly` | runtime-recomp/src/game/custom_tracks.cpp:736-766 | Schema version 1, an id, at least one entry, all entries acceptable, and the header check. |
| `TrackParsing.CheckHeader` | runtime-recomp/src/game/custom_tracks.cpp:843-885 | The loops decide whether either object-map field of the last header is 0 with no map of the track's own to replace it. |
| `TrackParsing.HeaderSafeExactly` | runtime-recomp/src/game/custom_tracks.cpp:843-885 | The check in terms of bytes: a header behind which no other follows does not have both bytes of a map field 0 unless the track has a map for it. |
| `TrackHooks.Loader.Begin` | runtime-recomp/src/game/custom_tracks_hooks.cpp:227-233 | The load request is recorded. |
| `TrackHooks.Loader.End` | runtime-recomp/src/game/custom_tracks_hooks.cpp:239-287 | The request is consumed; exactly the requested bytes of memory become the custom payload, headers fixed up, or nothing changes. |
| `TrackHooks.SectionNumbers` | runtime-recomp/src/game/custom_tracks_hooks.cpp:53-86 | Which of the game's sections are the data and the tables of which custom section, and that no others are. |
| `TrackHooks.OthersDelivered` | runtime-recomp/src/game/custom_tracks_hooks.cpp:239-262 | Every section but the headers is delivered as the registry serves it. |
| `TrackHooks.FixHeader` | runtime-recomp/src/game/custom_tracks_hooks.cpp:264-286 | The loop applies the three fix-ups that fit the header and whose entry the track supplies. |
| `TrackTableLoads.TableLoader.Begin` | runtime-recomp/src/game/custom_tracks_hooks.cpp:162-165 | The requested table is recorded. |
| `TrackTableLoads.TableLoader.End` | runtime-recomp/src/game/custom_tracks_hooks.cpp:169-222 | The request is consumed; the build runs exactly for a terminated table of a custom section, memory changes only by the extended table in the allocated block, and from the returned address the game reads that table, or its own where the pool had no block. |
| `TrackTableLoads.ReadTable` | runtime-recomp/src/game/custom_tracks_hooks.cpp:183-196 | The loop finds a table if and only if a terminator follows within the limit, and returns it with its terminator. |
| `TrackHeaders.CoveringIsOwn` | runtime-recomp/src/game/custom_tracks.cpp:541-544 | Spans of added entries do not overlap: an offset inside an entry finds that entry. |
| `TrackHeaders.FixupNamesOwnEntry` | runtime-recomp/src/game/custom_tracks_hooks.cpp:264-286 | The index written into a served header names an entry of the same track with the section and slot asked for, the first published and the first of the track's manifest, which is served where the table is within range; none is written if and only if that section was not built or its last build held no such entry. |
| `TrackHeaders.ServedFields` | runtime-recomp/src/game/custom_tracks_hooks.cpp:269-286 | In a header of any length each fix-up sets its own field, if the header holds it, and leaves the other two alone. |
| `TrackHeaders.ServedBytes` | runtime-recomp/src/game/custom_tracks_hooks.cpp:269-286 | A served header differs from the authored one in at most the six bytes of the three fields, each written high byte first. |
| `TrackHeaders.HeaderDelivered` | runtime-recomp/src/game/custom_tracks_hooks.cpp:239-287 | Reading the first bytes of a header at the offset that the game computes, as many as it has or fewer, delivers them with their fix-ups. |
| `TrackHeaders.ShortHeaderOverruns` | runtime-recomp/src/game/custom_tracks_hooks.cpp:25-27 | The 196-byte read of a shorter header delivers that header and then the headers behind it; where they end too soon nothing is replaced. |
| `TrackHeaders.ShortHeaderAccepted` | runtime-recomp/src/game/custom_tracks.cpp:843-885 | Counterexample to a minimum header size: a manifest with a one-byte header is accepted. |
| `TrackHeaders.TexturePeekServed` | runtime-recomp/src/game/custom_tracks.cpp:797-825 | The 40-byte peek at a published texture of an accepted manifest reads that texture's own bytes and nothing else. |
| `TrackHeaders.MapFoundExactly` | runtime-recomp/src/game/custom_tracks.cpp:533-556 | A fix-up finds a map for a slot if and only if the object maps were built while the header's track was enabled and supplied one; with at least one retail map its index is never 0. |
| `TrackHeaders.LoadedMapField` | runtime-recomp/src/game/custom_tracks_hooks.cpp:269-286 | In every state, maps built or not: a read of a custom header that is long enough to hold an object-map field finds a non-zero value there if and only if the author wrote one or the object maps were built while the header's track was enabled and supplied one. Built maps have at least one retail entry and 16-bit indices. |
| `TrackHeaders.JudgedHeaderHasNoZeroMap` | runtime-recomp/src/game/custom_tracks.cpp:843-885 | Where object maps and headers were built from the same tracks, over at least one retail map and with 16-bit indices, the last header of an accepted track never reaches the game with object map 0 in a field that it is long enough to hold. |
| `TrackHeaders.OnlyHeaderHasNoZeroMap` | runtime-recomp/src/game/custom_tracks.cpp:843-885 | Hence, under the same conditions, neither does the only header of a track that has one. |
| `TrackHeaders.FirstOfTwoHeadersHasMapZero` | runtime-recomp/src/game/custom_tracks.cpp:848-853 | Counterexample for earlier headers: a run in which the first header of an accepted two-header track is delivered with both fields 0. |
| `TrackHeaders.LateMapsLeaveZero` | runtime-recomp/src/game/custom_tracks_hooks.cpp:275-277 | Counterexample for other map tracks: a legal run in which an accepted one-header track supplies both maps but was switched off when the maps were built, and its header is delivered with both fields 0. |
| `TrackGame.PlayKeepsInv` | runtime-recomp/src/game/custom_tracks_hooks.cpp:198-222 | Over every run of registry calls and table loads, from the start, a table that was published is what memory starts with, and otherwise the game counts no more than the retail entries. |
| `TrackGame.LevelIdReachable` | runtime-recomp/src/game/custom_tracks.cpp:401-411 | Over every such run, the level id of the armed track is below the game's own count if and only if the last header table reached the game. |
| `TrackGame.LevelIdLoadsOwnHeader` | runtime-recomp/src/game/custom_tracks.cpp:452-507 | When it did, the offset and size that the game takes from its memory for that id deliver a header of the armed track, its last one, with its fix-ups. |
| `TrackGame.MapTracksRecorded` | runtime-recomp/src/game/custom_tracks.cpp:413-514 | Over every run of registry calls and table loads, the registry's object maps come from the tracks of the moment when the object-map table was last loaded. |
| `TrackGame.ArmedLevelMapField` | runtime-recomp/src/game/custom_tracks_hooks.cpp:264-286 | Exactly, over every such run: the armed level, its header table published and its header long enough, reaches the game with a non-zero object-map field if and only if its last header has one or the track was enabled and supplied one when the object-map table was last loaded. |
| `TrackGame.ArmedLevelHasNoZeroMap` | runtime-recomp/src/game/custom_tracks.cpp:843-885 | So where maps and headers were built from the same tracks, the level of an armed, accepted track has no object map 0 in a field that its header holds, however many headers the track has. |
| `TrackGame.HeadersFirstLeaveZero` | runtime-recomp/src/game/custom_tracks_hooks.cpp:275-277 | Counterexample without that condition: the header table is loaded before the object-map table, and the armed level of an accepted track that supplies both maps is loaded with both fields 0. |
| `TrackGame.RefusedPoolKeepsLevelId` | runtime-recomp/src/game/custom_tracks_hooks.cpp:209-216 | Counterexample to unconditional reach: the pool refuses the longer table, and the armed track keeps level id 2 where the game counts one level. |
| `PresentationScopes.ApplyAllAccounts` | runtime-recomp/src/game/f3ddkr_rt64.cpp:2125-2321 | For any markers, outstanding scissor pushes are exactly the open scopes, and the projection debt grows by one for each stale begin. |
| `PresentationScopes.UnwindBalances` | runtime-recomp/src/game/f3ddkr_rt64.cpp:1768-1830 | For any markers, the task-end unwind leaves no scope open, scissor pushes equal to pops, and projection pops equal to pushes plus the number of stale begins. |
| `PresentationScopes.MarkedMeans` | runtime-recomp/src/game/f3ddkr_rt64.cpp:2198-2225 | A HUD slot carries the pushed-projection flag if and only if an earlier reference pass of the task was accepted into it. |
| `PresentationScopes.ProjectionsBalanceExactly` | runtime-recomp/src/game/f3ddkr_rt64.cpp:1784-1787 | Projection pushes equal pops at task end if and only if no pass of another kind is accepted at a depth where a reference pass was accepted before. |
| `PresentationScopes.ReusedSlotPopsTwice` | runtime-recomp/src/game/f3ddkr_rt64.cpp:2198-2292 | Counterexample to unconditional balance: a reference pass and then a plain one, well nested, pop two projections for one push. |
| `PresentationScopes.StepBroken` | runtime-recomp/src/game/f3ddkr_rt64.cpp:2289-2312 | From a state in step, a marker takes the RDP out of step with the recorded aspect if and only if it is an accepted end of an unmarked HUD slot that recorded another one. |
| `PresentationScopes.ToldAspect` | runtime-recomp/src/game/f3ddkr_rt64.cpp:2125-2321 | After any markers the RDP has the aspect that was recorded when a marker last told it. |
| `PresentationScopes.UnwindAspect` | runtime-recomp/src/game/f3ddkr_rt64.cpp:1823-1827 | After the unwind the RDP has the automatic rectangle aspect if and only if a scope was still open, the recorded aspect was another, or it was automatic already. |
| `PresentationScopes.TaskAspect` | runtime-recomp/src/game/f3ddkr_rt64.cpp:1768-1830 | For any markers, a task ends on the automatic rectangle aspect if and only if it leaves a scope open, ends with another recorded aspect, or the recorded aspect was automatic when the RDP was last told. |
| `PresentationScopes.WellNestedRestores` | runtime-recomp/src/game/f3ddkr_rt64.cpp:2125-2321 | Any well-nested aspect, HUD and widget markers, at any depth beyond the capacities, restore the shared aspect state, the RDP aspect, the alignment and clip values and all scope stacks. |
| `PresentationScopes.WellNestedProjections` | runtime-recomp/src/game/f3ddkr_rt64.cpp:2223-2291 | Over well-nested markers the projection stack loses exactly one entry for each stale begin. |
| `PresentationScopes.PrefixInStep` | runtime-recomp/src/game/f3ddkr_rt64.cpp:2125-2321 | After any prefix of well-nested markers the RDP aspect equals the recorded one. |
| `PresentationScopes.PrefixEndsAutomatic` | runtime-recomp/src/game/f3ddkr_rt64.cpp:1768-1830 | A task cut off inside well-nested markers ends on the automatic rectangle aspect. |
| `PresentationScopes.CrossedScopesLeaveAspect` | runtime-recomp/src/game/f3ddkr_rt64.cpp:2289-2312 | Counterexample for crossed scopes: the RDP is left on another aspect with no scope open. |
| `PresentationScopes.AspectBeginSets` | runtime-recomp/src/game/f3ddkr_rt64.cpp:2123-2158 | When an aspect begin is accepted, and what it sets then: a background scope tells the RDP to stretch, takes the token as fill mode if it is at most 2 and leaves the matrix override; every other kind keeps proportions of matrices and rectangles and clears the fill mode. |
| `PresentationScopes.InsideAspectScope` | runtime-recomp/src/game/f3ddkr_rt64.cpp:2123-2176 | And that is what holds after any well-nested markers inside the scope. |
| `PresentationScopes.AspectEndExactly` | runtime-recomp/src/game/f3ddkr_rt64.cpp:2159-2176 | An aspect end pays off a rejected begin, closes the innermost scope if that has its kind, or does nothing. |
| `PresentationScopes.HudBeginSets` | runtime-recomp/src/game/f3ddkr_rt64.cpp:2180-2281 | When a HUD begin is accepted, and what each of the three variants sets then. |
| `PresentationScopes.HudEndExactly` | runtime-recomp/src/game/f3ddkr_rt64.cpp:2282-2321 | A HUD end pays off a rejected begin, does nothing without an open scope, and otherwise brings back what the innermost scope recorded. |
| `PresentationScopes.WidgetsExactly` | runtime-recomp/src/game/f3ddkr_rt64.cpp:2008-2032 | When a widget begin is accepted, and what begins and ends count. |
| `PresentationScopes.UnwindNeutral` | runtime-recomp/src/game/f3ddkr_rt64.cpp:1823-1831 | Whatever the markers were, a task leaves no override, rectangle aspect or fill mode recorded. |
| `PresentationBridge.Bridge.OnMarker` | runtime-recomp/src/game/f3ddkr_rt64.cpp:1984-2032 | One marker changes the arrays, depths and counters as the abstract step does; what the step sets is said by `AspectBeginSets`, `HudBeginSets` and `WidgetsExactly`. |
| `PresentationBridge.Bridge.OnHudBegin` | runtime-recomp/src/game/f3ddkr_rt64.cpp:2180-2281 | A HUD begin on the arrays, the slot flag surviving from earlier use. |
| `PresentationBridge.Bridge.EndTask` | runtime-recomp/src/game/f3ddkr_rt64.cpp:1768-1830 | The three unwind loops on the arrays, in source order. |
| `PresentationBridge.RunTask` | runtime-recomp/src/game/f3ddkr_rt64.cpp:1735-1830 | For every marker sequence, a whole task from fresh state: scissors balance, projections do exactly under the slot condition, and the RDP ends on the automatic aspect exactly under the condition of `TaskAspect`. |
| `GroupScopes.RunRefines` | runtime-recomp/src/game/interpolation_state_policy.hpp:86-137 | For every sequence of loads, selects, begins and ends, the record holds the first 32 scopes of an unbounded stack and the rejected depth is the rest. |
| `GroupScopes.EndReports` | runtime-recomp/src/game/interpolation_state_policy.hpp:124-137 | What an end reports in terms of the unbounded stack: its scope, a rejected begin, or nothing and no change on underflow. |
| `GroupScopes.NestKeepsStack` | runtime-recomp/src/game/interpolation_state_policy.hpp:108-137 | Nested operations leave the unbounded stack as they found it. |
| `GroupScopes.EndClosesOwnBegin` | runtime-recomp/src/game/interpolation_state_policy.hpp:108-137 | After any nested operations, an end closes the very begin it belongs to, recorded or rejected. |
| `GroupScopes.ActiveGroupMeaning` | runtime-recomp/src/game/interpolation_state_policy.hpp:139-148 | The active identity in terms of the unbounded stack. |
| `GroupScopes.AspectScopesKeepIdentity` | runtime-recomp/src/game/interpolation_state_policy.hpp:139-148 | However aspect scopes open, close, overflow or underflow, the active identity is the one that the loads and selects alone give. |
| `GroupScopes.ActiveExactly` | runtime-recomp/src/game/interpolation_state_policy.hpp:86-148 | What a load and a select make active: the clamped slot, unless a geometry scope is innermost. |
| `GroupScopes.BeginExactly` | runtime-recomp/src/game/interpolation_state_policy.hpp:108-148 | What a begin makes active: a geometry scope itself, an aspect scope the selected matrix; 32 levels are recorded. |
| `GroupScopes.GroupState.Load` | runtime-recomp/src/game/interpolation_state_policy.hpp:86-94 | Loads into the clamped slot and selects it. |
| `GroupScopes.GroupState.Select` | runtime-recomp/src/game/interpolation_state_policy.hpp:96-98 | Selects the clamped slot. |
| `GroupScopes.GroupState.BeginGroup` | runtime-recomp/src/game/interpolation_state_policy.hpp:108-122 | Records the scope, or counts it as rejected, and says which. |
| `GroupScopes.GroupState.EndGroup` | runtime-recomp/src/game/interpolation_state_policy.hpp:124-137 | Consumes a rejected begin, reports underflow or pops the last scope. |
| `GroupScopes.GroupState.Active` | runtime-recomp/src/game/interpolation_state_policy.hpp:139-148 | The active group of the recorded scopes. |
| `GroupScopes.GroupState.ContainsMode` | runtime-recomp/src/game/interpolation_state_policy.hpp:166-173 | True exactly when some recorded scope has the mode. |
| `AssetMutex.FastPathsRefine` | runtime-recomp/src/game/rev_a_asset_mutex.cpp:65-107 | Every hooked acquire and release does what the blocking queue would do. |
| `AssetMutex.RunsRefine` | runtime-recomp/src/game/rev_a_asset_mutex.cpp:65-107 | Every interleaving of hooked steps is a run of the plain queue and ends in the same state. |
| `AssetMutex.RunKeepsInv` | runtime-recomp/src/game/rev_a_asset_mutex.cpp:65-107 | Over every interleaving the one token is in the queue or with one holder, parked threads are the waiting ones and no wake-up is lost. |
| `AssetMutex.MutualExclusion` | runtime-recomp/src/game/rev_a_asset_mutex.cpp:58-64 | From one token: at most one holder ever, the token is never lost, duplicated or replaced, and a release always finds room. |
| `AssetMutex.Ring.FastReceive` | runtime-recomp/src/game/rev_a_asset_mutex.cpp:65-86 | Taken exactly when a message is there and no sender waits; then it removes the oldest message of the ring. |
| `AssetMutex.Ring.FastSend` | runtime-recomp/src/game/rev_a_asset_mutex.cpp:88-107 | Taken exactly when there is room and no receiver waits; then it appends to the ring. |
| `Controllers.Resolve` | runtime-recomp/src/game/controller_assignment_policy.hpp:26-45 | The nested loops give each player the device of its key left over by earlier players with the same claim, or -1. |
| `Controllers.ResolvedIsTaken` | runtime-recomp/src/game/controller_assignment_policy.hpp:26-45 | A player gets an instance exactly from the device whose rank among its key is the player's own. |
| `Controllers.EachDeviceOnce` | runtime-recomp/src/game/controller_assignment_policy.hpp:26-45 | No device serves two players. |
| `Controllers.OtherKeysUnaffected` | runtime-recomp/src/game/controller_assignment_policy.hpp:26-45 | Connecting or removing any devices with keys other than a player's own changes nothing for that player. |
| `Controllers.DistinctClaimsGetFirstDevice` | runtime-recomp/src/game/controller_assignment_policy.hpp:26-45 | With distinct claims every player gets the first device of its key. |
| `Controllers.ClaimFor` | runtime-recomp/src/game/controller_assignment_policy.hpp:47-60 | The claim in place, with the swap, and its refusals. |
| `Controllers.ClearFor` | runtime-recomp/src/game/controller_assignment_policy.hpp:62-68 | The claim is emptied; refused for an unknown player. |
| `Controllers.PopulateAutomaticClaims` | runtime-recomp/src/game/controller_assignment_policy.hpp:70-84 | Devices in order fill the first empty claims, skipping keys already claimed. |
| `Controllers.PopulateKeeps` | runtime-recomp/src/game/controller_assignment_policy.hpp:70-84 | Populating keeps claims distinct and never changes a claim that exists. |
| `Controllers.PopulatedExactly` | runtime-recomp/src/game/controller_assignment_policy.hpp:70-84 | A new claim is a device key that nobody claimed; no device is left over while a player has no claim; players are filled from the first on, in the order of the devices. |
| `Controllers.RefusedOrOwn` | runtime-recomp/src/game/controller_assignment_policy.hpp:47-68 | A clear empties the player's own claim only; unknown players and empty keys are refused. |
| `Controllers.ClaimTouchesOwnerOnly` | runtime-recomp/src/game/controller_assignment_policy.hpp:47-60 | A claim reaches another player only by the swap with the previous owner. |
| `Controllers.RunKeepsDistinct` | runtime-recomp/src/game/controller_assignment_policy.hpp:47-84 | Claims stay pairwise distinct over every run. |
| `Controllers.RunSparesOthers` | runtime-recomp/src/game/controller_assignment_policy.hpp:47-84 | Over every run a player's claim changes only by its own claim or clear, or by somebody claiming that very key. |
| `PanelCache.ComputeBounds` | runtime-recomp/src/game/launcher_panel_cache.hpp:36-51 | The loop computes the exact integer bounds of a mesh that may be cached, and refuses exactly the others. |
| `PanelCache.BoundsExactly` | runtime-recomp/src/game/launcher_panel_cache.hpp:36-51 | A mesh may be cached if and only if it has 1 to 4096 finite vertices on the screen and its smallest rectangle on whole coordinates has 100,000 to 4,194,304 pixels; that rectangle is the result. |
| `PanelCache.ReachableInv` | runtime-recomp/src/game/launcher_panel_cache.hpp:26-76 | Over every run of lookups, frames and clears from an empty cache: live keys unique, each live texture with one owner, none leaked or used after destruction, the pixel budget kept. |
| `PanelCache.HitIsExact` | runtime-recomp/src/game/launcher_panel_cache.hpp:52-66 | A hit returns a live texture rasterised from exactly the queried vertices. |
| `PanelCache.CurrentFrameNotEvicted` | runtime-recomp/src/game/launcher_panel_cache.hpp:69-76 | No lookup evicts an entry that the current frame uses. |
| `PanelCache.FrameKeepsUsed` | runtime-recomp/src/game/launcher_panel_cache.hpp:69-76 | Through all lookups of a frame, an entry once used keeps its mesh and its texture alive. |
| `PanelCache.KeyRecursBeforeTexture` | runtime-recomp/src/game/launcher_panel_cache.hpp:12-14 | Over every run from an empty cache, a texture is created only at a lookup of vertices that were looked up before, in the same frame or the one before it, and not cleared since. |
| `PanelCache.LookupExactly` | runtime-recomp/src/game/launcher_panel_cache.hpp:52-66 | Exactly when a lookup creates a texture and exactly when it hits: an entry of these vertices, used in this frame or the one before, not tried yet and within what is left of the budget; or one with a texture. |
| `PanelCache.InsertExactly` | runtime-recomp/src/game/launcher_panel_cache.hpp:69-75 | A new key replaces the first of the least recently used entries and its texture, unless that is used in this frame, and changes nothing else. |
| `PanelCache.SecondFrameHits` | runtime-recomp/src/game/launcher_panel_cache.hpp:35-76 | End to end: a new mesh that finds a place is rasterised and hit when it is looked up in the next frame, if budget and rasteriser allow. |
| `PanelCache.ClearedKeepsInv` | runtime-recomp/src/game/launcher_panel_cache.hpp:25-31 | Clearing destroys every texture ever created that is still alive. |
| `PanelCache.Panels.Lookup` | runtime-recomp/src/game/launcher_panel_cache.hpp:35-76 | A lookup on the array does what the abstract lookup does, result included. |
| `PanelCache.Panels.Touch` | runtime-recomp/src/game/launcher_panel_cache.hpp:55-64 | Second consecutive use attempts one rasterisation within the budget. |
| `PanelCache.Panels.Insert` | runtime-recomp/src/game/launcher_panel_cache.hpp:69-75 | The loop finds the first least recently used entry and replaces it unless this frame uses it. |
| `PanelCache.Panels.Clear` | runtime-recomp/src/game/launcher_panel_cache.hpp:26-31 | The loop destroys every texture and empties every entry. |
| `PanelCache.Panels.Advance` | runtime-recomp/src/game/launcher_panel_cache.hpp:32-32 | Only the frame counter changes. |
| `MagicCodes.BuildMasks` | runtime-recomp/src/game/magic_code_policy.hpp:62-85 | The table loops yield the selectable and the one-shot masks. |
| `MagicCodes.EnableKeepsConsistent` | runtime-recomp/src/game/magic_code_policy.hpp:87-120 | Enabling a code keeps a mask free of conflicts, takes the code in and drops only codes in conflict with it. |
| `MagicCodes.ClashesAre` | runtime-recomp/src/game/magic_code_policy.hpp:95-118 | Which pairs of codes contradict each other. |
| `MagicCodes.ChoiceExactly` | runtime-recomp/src/game/magic_code_policy.hpp:87-126 | Code by code, what enabling and disabling keep, add and drop. |
| `MagicCodes.ChoicesStayConsistent` | runtime-recomp/src/game/magic_code_policy.hpp:87-126 | Every run of enables and disables stays selectable and free of conflicts. |
| `MagicCodes.NormaliseMask` | runtime-recomp/src/game/magic_code_policy.hpp:128-137 | The loop enables the codes of the mask in table order. |
| `MagicCodes.NormalisedExactly` | runtime-recomp/src/game/magic_code_policy.hpp:128-137 | Normalising yields a consistent part of the mask and is the identity if and only if the mask is consistent. |
| `MagicCodes.NormalisedKeeps` | runtime-recomp/src/game/magic_code_policy.hpp:128-137 | A code survives normalising if and only if it is a selectable code of the mask and no later selectable code of the mask contradicts it. |
| `MagicCodes.NormalisingLosesMore` | runtime-recomp/src/game/magic_code_policy.hpp:128-137 | Codes 7, 12 and 13 become 13 alone, although 7 and 13 are consistent. |
| `MagicCodes.BeginInv` | runtime-recomp/src/game/magic_code_runtime_policy.hpp:27-38 | A session begins with a consistent persistent part and one-shots only in the deferred part; which codes these are is `MagicCodes.BeginExactly`. |
| `MagicCodes.BeginExactly` | runtime-recomp/src/game/magic_code_runtime_policy.hpp:27-38 | A code is in the persistent part if and only if it is in the given mask, selectable, no one-shot and not contradicted by a later selectable code of the mask; in the deferred part if and only if it is a given one-shot and not code 10 while online. |
| `MagicCodes.FirstApplicationExactly` | runtime-recomp/src/game/magic_code_runtime_policy.hpp:27-57 | End to end: the first application after a begin adds exactly those codes to both words and arms exactly those one-shots, whatever was completed or acknowledged before. |
| `MagicCodes.ActionExactly` | runtime-recomp/src/game/magic_code_runtime_policy.hpp:62-76 | What completing and acknowledging change, code by code. |
| `MagicCodes.SelectionSurvives` | runtime-recomp/src/game/magic_code_runtime_policy.hpp:47-49 | One-shots conflict with nothing, so the whole selection survives normalisation. |
| `MagicCodes.AppliesOnce` | runtime-recomp/src/game/magic_code_runtime_policy.hpp:40-57 | The first application adds exactly the persistent and deferred codes; later ones change nothing. |
| `MagicCodes.AppliedOverSession` | runtime-recomp/src/game/magic_code_runtime_policy.hpp:40-57 | The same over every session, whatever is completed or acknowledged in between. |
| `MagicCodes.SessionKeepsInv` | runtime-recomp/src/game/magic_code_runtime_policy.hpp:40-76 | Over every session completed codes are armed ones, armed ones are one-shots of the selection, and the selection never changes. |
| `MagicCodes.AcknowledgedNeverCompletes` | runtime-recomp/src/game/magic_code_runtime_policy.hpp:70-76 | After the application, an acknowledged one-shot never completes again in that session. |
| `MagicCodes.AcknowledgedExactly` | runtime-recomp/src/game/magic_code_runtime_policy.hpp:70-76 | An acknowledgement rules completion out if and only if the codes were already applied or the code is not among the session's one-shots. |
| `CountedLists.RunCommands` | runtime-recomp/src/game/f3ddkr_rt64.cpp:3081-3177 | The loop does what the recursive interpreter does, for any memory and handlers: at most the given number of commands, and no fetch outside RDRAM but the word directly behind it; a list of safe commands runs in order, entirely or up to a rejection, and with handlers that do not reject it is fetched inside RDRAM if and only if it lies there. |
| `CountedLists.CallReturns` | runtime-recomp/src/game/f3ddkr_rt64.cpp:3090-3177 | A call runs its callee in order, then its end, and goes on behind the call with the same calls open. |
| `CountedLists.JumpsExactly` | runtime-recomp/src/game/f3ddkr_rt64.cpp:3090-3117 | Where calls and branches go, which of them are rejected, and that an end without an open call ends the list. |
| `CountedLists.CountedDisplayList` | runtime-recomp/src/game/f3ddkr_rt64.cpp:2921-2978 | Nothing runs unless the whole block is valid; then exactly its own commands run in order, or a prefix ending in a rejection, all of them safe and inside RDRAM. |
| `CountedLists.SafeOpcodesNeverBranch` | runtime-recomp/src/game/f3ddkr_rt64.cpp:155-176 | No safe opcode calls, returns or opens another counted list. |
| `CountedLists.SafeOpcodesAre` | runtime-recomp/src/game/f3ddkr_rt64.cpp:155-176 | The fifteen safe opcodes. |

## Left out

- File system, JSON syntax, zip archives, HD packs, a track's name and author, installation, the working directory and automatic boot of custom tracks.
- The track-id override and auto-boot hooks, which only pass one value on.
- Byte order inside RDRAM words, and the game's memory pool: the allocated block is an input of the table hook.
- Texts of error messages, log output, and what a failed decode leaves in its out-parameter.
- DEFLATE blocks behind the stored one: they are shown to be unchanged, not inflated.
- Geometry, shadow, split-viewport and HUD-rectangle markers, the contents of scissor rectangles, and all drawing.
- The mutex's statistics counters and the internals of the operating system's queue.
- 64-bit wrap-around of the panel cache's frame counter; vertex coordinates are real numbers instead of floats.
- RSP microcode, audio, input mapping, the launcher and HUD editor interfaces, crash handling and the Python tools.
- The save codec's names of courses and records, its blank images and its other constant tables.
- TrackRegistry.Registry.BuildExtendedTable: the owner of an entry is carried along instead of being found again by pointer identity, which is the same for entries of distinct tracks.
- TrackHooks.Loader.End: header fix-ups are computed before the bytes are copied, where the program patches the copy; the resulting memory is the same.
