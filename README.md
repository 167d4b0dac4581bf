# asdcplib cores in Dafny

A Dafny model of four parts of asdcplib 2.10.32, the library that reads and
writes the MXF track files of Digital Cinema packages, with proofs of what
each part promises.

- **Dolby Atmos track files** (`AS_DCP_ATMOS.cpp`), module `Atmos`.
  - The writer `h__Writer` walks BEGIN, INIT, READY, RUNNING, FINAL.
    `OpenWrite`, `SetSourceStream` and `Finalize` each test the state first.
    `SetSourceStream` also accepts only twelve edit rates. `WriteFrame`
    pushes an index entry that holds the stream offset from before the write.
  - The reader `h__Reader::OpenRead` recovers the descriptors from the header
    metadata.
  - The public `MXFWriter` and `MXFReader` return RESULT_INIT while nothing
    is open. `MXFWriter::OpenWrite` accepts only the SMPTE label set.
- **MXF structural primitives** (`MXF.h`), module `MXF`:
  - the Random Index Pack `PartitionPair`: 4-byte big-endian BodySID, then
    8-byte big-endian ByteOffset;
  - the Primer `LocalTagEntry` and its tag order;
  - the `optional_property` wrapper;
  - the `IndexEntry` and `DeltaEntry` defaults and archive lengths;
  - `to_lower` and `ci_comp`;
  - the constants `kl_length` and `MaxIndexSegmentSize`.

  Archive and Unarchive run over bounded byte cursors that stand in for
  Kumu's MemIOWriter/MemIOReader (modules `MemIO` and `BigEndian`).
- **The PCM frame reader** (`PCM_Parser.cpp`), module `PCMParser`.
  - `h__WAVParser` is a cursor over a file's audio data. Its EOF flag is
    sticky. It refuses buffers that are too small. It zero-fills the tail of
    the buffer after a short final frame. It keeps a frame counter and a byte
    counter, which `Reset` and `Seek` set.
  - The public `WAVParser` returns RESULT_INIT while no parser is open.
- **The XML visitor walk** (`KM_xml.h`), module `KumuXML`.
  - `apply_visitor` is a pre-order walk over the children that stops at the
    first `false`.
  - `AttributeVisitor` and `ElementVisitor` collect values into a set.

Code outside these files becomes a parameter that carries its outcome:
- opening a file;
- the WAV/AIFF/RF64 header probes;
- `GetMDObjectByType`;
- writing the header, each essence packet and the footer;
- reading a packet;
- `GenRandomValue`.

The shared widths (`ui8_t` … `ui64_t`), `Result_t` and `Rational` are in
module `Common`. Unsigned wrap-around is written out (`AddU32`, `MulU32`,
`SubU32`, `AddU64`) wherever the source lets a counter wrap.

Each imperative part is a class whose methods change its fields. A method's
`ensures` ties its new state to a specification function, for example
`ReadFrameSpec`, `WriteFrameSpec`, `OpenReadSpec`, `AttributeVisit` or
`ElementVisit`. Lemmas then prove the promised properties of those functions
over any number of calls.

## Model

| member | source | states |
|---|---|---|
| Atmos.RateAllowed | asdcplib-rel_2_10_32/src/AS_DCP_ATMOS.cpp:500-511 | the edit-rate test of SetSourceStream and OpenRead: a rate passes exactly when it is one of the twelve listed rates over 1, compared field by field (see RateAllowedIsList) |
| Atmos.RateAllowedIsList | asdcplib-rel_2_10_32/src/AS_DCP_ATMOS.cpp:500-511 | the edit-rate test accepts exactly the twelve rates 24, 25, 30, 48, 50, 60, 96, 100, 120, 192, 200 and 240 over 1; they are distinct, and every accepted rate has denominator 1 |
| Atmos.MDToDCDataDesc | asdcplib-rel_2_10_32/src/AS_DCP_ATMOS.cpp:130-139 | reading the descriptor copies SampleRate into EditRate and DataEssenceCoding; ContainerDuration is the stored one when it fits in 32 bits and otherwise its low 32 bits, as the static_cast leaves it |
| Atmos.DCDataDescToMD | asdcplib-rel_2_10_32/src/AS_DCP_ATMOS.cpp:423-432 | what the writer stores in the descriptor object, the reader's copy reads back unchanged; the SubDescriptors list is not touched |
| Atmos.MDToAtmosDesc | asdcplib-rel_2_10_32/src/AS_DCP_ATMOS.cpp:141-156 | the Atmos descriptor takes its base fields from the descriptor object and MaxChannelCount, MaxObjectCount, AtmosID, AtmosVersion and FirstFrame from the sub-descriptor |
| Atmos.AtmosDescToMD | asdcplib-rel_2_10_32/src/AS_DCP_ATMOS.cpp:436-447 | the writer's sub-descriptor keeps its InstanceUID, and the reader's copy returns exactly the five Atmos fields that were stored |
| Atmos.AtmosDescriptorRoundTrip | asdcplib-rel_2_10_32/src/AS_DCP_ATMOS.cpp:130-156 | storing a whole Atmos descriptor with both writer copies and reading it back with the reader's copy gives the same descriptor |
| Atmos.MetadataRoundTrip | asdcplib-rel_2_10_32/src/AS_DCP_ATMOS.cpp:423-447 | the converse: storing what was read leaves both metadata objects as they were |
| Atmos.LongDurationIsTruncated | asdcplib-rel_2_10_32/src/AS_DCP_ATMOS.cpp:135-136 | a stored duration above 0xFFFFFFFF reads back smaller, so storing what was read does not restore the metadata object |
| Atmos.Goto | asdcplib-rel_2_10_32/src/AS_DCP_ATMOS.cpp:474 | a state transition succeeds exactly when the state is its source state; otherwise it returns RESULT_STATE and the state stays |
| Atmos.WriterTransitionsGoForward | asdcplib-rel_2_10_32/src/AS_DCP_ATMOS.cpp:474-576 | none of the writer's four transitions moves the lifecycle backwards, and each goes forward at most one step |
| Atmos.EssenceULFor | asdcplib-rel_2_10_32/src/AS_DCP_ATMOS.cpp:524-526 | the essence UL is the dictionary's PrivateDCDataEssence UL with its last byte set to 1 |
| Atmos.I32ToU32 | asdcplib-rel_2_10_32/src/AS_DCP_ATMOS.cpp:533 | the timecode rate is the edit rate's signed numerator stored in 32 unsigned bits |
| Atmos.EntryAt | asdcplib-rel_2_10_32/src/AS_DCP_ATMOS.cpp:558-562 | the pushed index entry is a default entry with only StreamOffset set |
| Atmos.WriteFrameSpec | asdcplib-rel_2_10_32/src/AS_DCP_ATMOS.cpp:544-566 | READY becomes RUNNING and other states stay; the result is the packet write's; on success one entry with the pre-write offset is appended, the frame count grows by one and the offset by the packet length; on failure nothing else changes |
| Atmos.WriteFrameTestsOnlyReady | asdcplib-rel_2_10_32/src/AS_DCP_ATMOS.cpp:548-565 | in any state other than READY (FINAL included) a successful packet write still appends an index entry, and the state stays |
| Atmos.IndexRecordsOffsetsInOrder | asdcplib-rel_2_10_32/src/AS_DCP_ATMOS.cpp:554-563 | after n successful writes the index has n new entries in write order; entry i holds the start offset plus the lengths of packets 0..i-1; m_FramesWritten grows by n; earlier entries are kept |
| Atmos.IndexOffsetsIncrease | asdcplib-rel_2_10_32/src/AS_DCP_ATMOS.cpp:554-563 | with non-empty packets, the recorded stream offsets strictly increase |
| Atmos.TotalLengthGrows | asdcplib-rel_2_10_32/src/AS_DCP_ATMOS.cpp:557 | the bytes written by a prefix of the packets grow with the prefix, strictly when the packets are non-empty |
| Atmos.Writer.constructor | asdcplib-rel_2_10_32/src/AS_DCP_ATMOS.cpp:406-409 | a new writer is in BEGIN with a zero essence UL, no metadata objects, an empty index and zero counters |
| Atmos.LinkSubDescriptors | asdcplib-rel_2_10_32/src/AS_DCP_ATMOS.cpp:463-473 | the loop over the one new sub-descriptor appends its InstanceUID to the writer's list and to the descriptor's SubDescriptors, and gives the sub-descriptor that InstanceUID |
| Atmos.Writer.OpenWrite | asdcplib-rel_2_10_32/src/AS_DCP_ATMOS.cpp:451-488 | outside BEGIN: RESULT_STATE and nothing changes; a failed file open returns its result and nothing changes; otherwise the state is INIT, the descriptor's SubDescriptors and the list hold exactly the one new InstanceUID, m_ADesc is ADesc with the Atmos essence coding, and the sub-descriptor holds its Atmos fields |
| Atmos.Writer.AtmosADescToMD | asdcplib-rel_2_10_32/src/AS_DCP_ATMOS.cpp:436-447 | RESULT_PTR when either metadata object is missing; otherwise the sub-descriptor takes m_ADesc's Atmos fields |
| Atmos.Writer.SetSourceStream | asdcplib-rel_2_10_32/src/AS_DCP_ATMOS.cpp:492-541 | outside INIT: RESULT_STATE; a rate not in the list: RESULT_RAW_FORMAT; in both cases nothing changes; otherwise m_DDesc is DDesc with the given coding, the descriptor is filled, the essence UL is set, the state is READY and the header is requested with the right labels, ULs and rates; the result is the header write's |
| Atmos.Writer.DCDataDDescToMD | asdcplib-rel_2_10_32/src/AS_DCP_ATMOS.cpp:423-432 | RESULT_PTR when the descriptor is missing; otherwise it takes m_DDesc's three fields |
| Atmos.Writer.WriteFrame | asdcplib-rel_2_10_32/src/AS_DCP_ATMOS.cpp:544-566 | the result and the new frame state are WriteFrameSpec of the old; the writer invariant (frame count = index length mod 2^32, descriptor lists the one sub-descriptor) is kept |
| Atmos.Writer.Finalize | asdcplib-rel_2_10_32/src/AS_DCP_ATMOS.cpp:570-579 | outside RUNNING: RESULT_STATE and nothing changes; otherwise the state is FINAL whatever the footer write returns, and the footer receives the index |
| Atmos.MXFWriter.constructor | asdcplib-rel_2_10_32/src/AS_DCP_ATMOS.cpp:585-587 | a new public writer has no writer open |
| Atmos.MXFWriter.OpenWrite | asdcplib-rel_2_10_32/src/AS_DCP_ATMOS.cpp:640-663 | a label set other than LS_MXF_SMPTE gives RESULT_FORMAT; otherwise the result is the file open's failure, RESULT_RAW_FORMAT for a rate not in the list, or the header write's; a writer stays open exactly on success, in READY with the Atmos coding and descriptors, and with the full header request: the Atmos labels, the wrapping, essence and data-definition ULs, the edit rate and its numerator as the timecode rate |
| Atmos.MXFWriter.WriteFrame | asdcplib-rel_2_10_32/src/AS_DCP_ATMOS.cpp:669-676 | RESULT_INIT without a writer; otherwise the result and frame state are WriteFrameSpec of the old, and the header, footer, descriptors, essence UL, m_Info and header size stay |
| Atmos.MXFWriter.Finalize | asdcplib-rel_2_10_32/src/AS_DCP_ATMOS.cpp:679-686 | RESULT_INIT without a writer; outside RUNNING RESULT_STATE and nothing changes; in RUNNING the state is FINAL, the footer gets the index written before, and every other field stays |
| Atmos.OpenReadSpec | asdcplib-rel_2_10_32/src/AS_DCP_ATMOS.cpp:160-232 | the result is only ever RESULT_OK or RESULT_FORMAT; it is OK exactly when the open succeeded, the descriptor was found, its rate is in the list and a sub-descriptor is at hand (kept from before or found now); on OK both descriptors are read from the metadata |
| Atmos.OpenReadFormatCases | asdcplib-rel_2_10_32/src/AS_DCP_ATMOS.cpp:177-222 | each of the three cases gives RESULT_FORMAT: missing descriptor, rate not in the list, missing sub-descriptor |
| Atmos.OpenReadKeepsEarlierSubDescriptor | asdcplib-rel_2_10_32/src/AS_DCP_ATMOS.cpp:212-222 | a sub-descriptor found by an earlier OpenRead is used again, and the new file's is not looked up |
| Atmos.WriteThenRead | asdcplib-rel_2_10_32/src/AS_DCP_ATMOS.cpp:130-156 | a fresh reader given the objects the public writer filled opens with RESULT_OK and recovers the descriptor passed to OpenWrite, with the Atmos essence coding |
| Atmos.Reader.constructor | asdcplib-rel_2_10_32/src/AS_DCP_ATMOS.cpp:120-121 | a new reader has no file open and no metadata objects |
| Atmos.Reader.OpenRead | asdcplib-rel_2_10_32/src/AS_DCP_ATMOS.cpp:160-232 | result, metadata objects and descriptors are those of OpenReadSpec; the file counts as open whenever the open itself succeeded |
| Atmos.Reader.MDToDCDataDDesc | asdcplib-rel_2_10_32/src/AS_DCP_ATMOS.cpp:130-139 | RESULT_PTR without a descriptor; otherwise m_DDesc is read from it |
| Atmos.Reader.MDToAtmosADesc | asdcplib-rel_2_10_32/src/AS_DCP_ATMOS.cpp:141-156 | RESULT_PTR when either object is missing; otherwise m_ADesc is read from both |
| Atmos.Reader.ReadFrame | asdcplib-rel_2_10_32/src/AS_DCP_ATMOS.cpp:236-244 | RESULT_INIT unless the file is open; otherwise the packet read's result |
| Atmos.Reader.Close | asdcplib-rel_2_10_32/src/AS_DCP_ATMOS.cpp:379-385 | closing leaves the file not open and keeps the metadata objects, both descriptors and m_Info |
| Atmos.MXFReader.constructor | asdcplib-rel_2_10_32/src/AS_DCP_ATMOS.cpp:249-252 | a new public reader owns a fresh h__Reader with no file open and no sub-descriptor |
| Atmos.MXFReader.OpenRead | asdcplib-rel_2_10_32/src/AS_DCP_ATMOS.cpp:309-312 | the reader's result, metadata objects and both descriptors are those of OpenReadSpec, a descriptor not read keeping its old value; the file counts as open whenever the open succeeded |
| Atmos.MXFReader.ReadFrame | asdcplib-rel_2_10_32/src/AS_DCP_ATMOS.cpp:316-323 | RESULT_INIT unless the file is open |
| Atmos.MXFReader.FillAtmosDescriptor | asdcplib-rel_2_10_32/src/AS_DCP_ATMOS.cpp:335-344 | RESULT_INIT and the argument unchanged unless the file is open; otherwise RESULT_OK and m_ADesc |
| Atmos.MXFReader.FillWriterInfo | asdcplib-rel_2_10_32/src/AS_DCP_ATMOS.cpp:350-359 | RESULT_INIT and the argument unchanged unless the file is open; otherwise RESULT_OK and m_Info |
| Atmos.MXFReader.Close | asdcplib-rel_2_10_32/src/AS_DCP_ATMOS.cpp:379-388 | RESULT_OK if the file was open, which is then closed with the metadata objects, descriptors and m_Info kept; RESULT_INIT otherwise, with nothing changed |
| MXF.ConstantsFixed | asdcplib-rel_2_10_32/src/MXF.h:44 | kl_length is 16 + 4 = 20, and MaxIndexSegmentSize (line 348) is 65536 |
| MXF.PairBytes | asdcplib-rel_2_10_32/src/MXF.h:94-98 | 12 bytes: BodySID big-endian in the first four, ByteOffset big-endian in the last eight |
| MXF.ParsePair | asdcplib-rel_2_10_32/src/MXF.h:88-92 | a pair can be parsed exactly when at least 12 bytes remain |
| MXF.PairRoundTrip | asdcplib-rel_2_10_32/src/MXF.h:86-98 | parsing an archived pair, whatever follows it, gives back BodySID and ByteOffset |
| MXF.ParsePairExact | asdcplib-rel_2_10_32/src/MXF.h:88-92 | a successful parse read exactly the archived form of what it returned |
| MXF.PartitionPair.constructor | asdcplib-rel_2_10_32/src/MXF.h:73 | a default pair is (0, 0) |
| MXF.PartitionPair.Of | asdcplib-rel_2_10_32/src/MXF.h:74 | a pair built from (sid, offset) holds them |
| MXF.PartitionPair.ArchiveLength | asdcplib-rel_2_10_32/src/MXF.h:86 | 12 bytes |
| MXF.PartitionPair.Archive | asdcplib-rel_2_10_32/src/MXF.h:94-98 | succeeds exactly when 12 bytes fit and then appends PairBytes; on failure only the BodySID may have been written, when 4 bytes fit |
| MXF.PartitionPair.Unarchive | asdcplib-rel_2_10_32/src/MXF.h:88-92 | succeeds exactly when 12 bytes remain, then consumes them and holds what they encode; fails at the first read that does not fit |
| MXF.PairArchiveRoundTrip | asdcplib-rel_2_10_32/src/MXF.h:86-98 | archiving a pair into a 12-byte buffer and unarchiving it restores both fields |
| MXF.TagLess | asdcplib-rel_2_10_32/src/MXF.h:187-199 | operator< on tags: true when a is smaller, or a is equal and b is smaller; its order properties are the TagLess lemmas below |
| MXF.TagLessIsKeyOrder | asdcplib-rel_2_10_32/src/MXF.h:187-199 | operator< on tags is the order of the 16-bit key a*256 + b, so it is lexicographic on (a, b) |
| MXF.TagLessIrreflexive | asdcplib-rel_2_10_32/src/MXF.h:187-199 | no tag is less than itself |
| MXF.TagLessTransitive | asdcplib-rel_2_10_32/src/MXF.h:187-199 | the tag order is transitive |
| MXF.TagLessTotal | asdcplib-rel_2_10_32/src/MXF.h:187-199 | of two distinct tags, one is less than the other |
| MXF.SortedByTagIsStrict | asdcplib-rel_2_10_32/src/MXF.h:187-199 | in a list sorted by tag, every earlier tag is less than and differs from every later one |
| MXF.EntryBytes | asdcplib-rel_2_10_32/src/MXF.h:216-220 | 18 bytes: Tag.a, Tag.b, then the 16 bytes of the UL |
| MXF.ParseEntry | asdcplib-rel_2_10_32/src/MXF.h:210-214 | an entry can be parsed exactly when at least 18 bytes remain |
| MXF.EntryRoundTrip | asdcplib-rel_2_10_32/src/MXF.h:208-220 | parsing an archived entry gives back its tag and UL |
| MXF.LocalTagEntry.constructor | asdcplib-rel_2_10_32/src/MXF.h:184 | a default entry has tag (0, 0) |
| MXF.LocalTagEntry.Of | asdcplib-rel_2_10_32/src/MXF.h:185 | an entry built from a tag and a UL holds them |
| MXF.LocalTagEntry.ArchiveLength | asdcplib-rel_2_10_32/src/MXF.h:208 | 2 + 16 bytes |
| MXF.LocalTagEntry.Less | asdcplib-rel_2_10_32/src/MXF.h:187-199 | operator< between two entries holds exactly when the first tag's 16-bit key is smaller; the ULs are not compared |
| MXF.LocalTagEntry.Archive | asdcplib-rel_2_10_32/src/MXF.h:216-220 | succeeds exactly when 18 bytes fit and then appends EntryBytes; on failure the writer holds the tag bytes that did fit (Tag.a and Tag.b, only Tag.a, or nothing) |
| MXF.LocalTagEntry.Unarchive | asdcplib-rel_2_10_32/src/MXF.h:210-214 | succeeds exactly when 18 bytes remain, then consumes them and holds the tag and UL they encode; on failure the UL is kept, and the reader has moved past and Tag has taken the tag bytes that were there (two, one or none) |
| MXF.OptionalProperty.constructor | asdcplib-rel_2_10_32/src/MXF.h:247 | a default property is empty |
| MXF.OptionalProperty.Of | asdcplib-rel_2_10_32/src/MXF.h:248 | a property built from a value holds it and is present |
| MXF.OptionalProperty.Assign | asdcplib-rel_2_10_32/src/MXF.h:249-253 | assignment stores the value and marks it present |
| MXF.OptionalProperty.Set | asdcplib-rel_2_10_32/src/MXF.h:257 | set stores the value and marks it present |
| MXF.OptionalProperty.SetHasValue | asdcplib-rel_2_10_32/src/MXF.h:258 | changes only the presence flag, to true when no argument is given |
| MXF.OptionalProperty.Reset | asdcplib-rel_2_10_32/src/MXF.h:259 | marks the property empty, ignores its argument and keeps the stored value |
| MXF.OptionalProperty.Empty | asdcplib-rel_2_10_32/src/MXF.h:260 | empty() is true exactly when no value is present; its interplay with operator== is stated by EqualityIgnoresPresence |
| MXF.OptionalProperty.Get | asdcplib-rel_2_10_32/src/MXF.h:261 | get() returns the stored value, present or not |
| MXF.OptionalProperty.EqualsValue | asdcplib-rel_2_10_32/src/MXF.h:254 | operator== against a plain value compares the stored value only |
| MXF.OptionalProperty.Equals | asdcplib-rel_2_10_32/src/MXF.h:255 | operator== between two properties compares the stored values only, as EqualityIgnoresPresence shows |
| MXF.EqualityIgnoresPresence | asdcplib-rel_2_10_32/src/MXF.h:254-255 | an empty and a present property holding the same value compare equal |
| MXF.DeltaEntry.ArchiveLength | asdcplib-rel_2_10_32/src/MXF.h:368 | 4 + 2 = 6 bytes |
| MXF.IndexEntry.ArchiveLength | asdcplib-rel_2_10_32/src/MXF.h:392 | 8 + 3 = 11 bytes |
| MXF.DefaultDeltaEntry | asdcplib-rel_2_10_32/src/MXF.h:365 | a default delta entry is all zeros |
| MXF.DefaultIndexEntry | asdcplib-rel_2_10_32/src/MXF.h:388 | a default index entry is all zeros |
| MXF.ToLowerChar | asdcplib-rel_2_10_32/src/MXF.h:500-503 | an upper-case ASCII letter becomes its lower-case letter; every other character is kept; the result is never upper case |
| MXF.ToLower | asdcplib-rel_2_10_32/src/MXF.h:500-503 | lower-cases each character of a copy and keeps the length |
| MXF.ToLowerIdempotent | asdcplib-rel_2_10_32/src/MXF.h:500-503 | lower-casing twice is lower-casing once |
| MXF.LexLess | asdcplib-rel_2_10_32/src/MXF.h:509 | std::string operator<: lexicographic by character, a proper prefix first; it is a strict total order by the three LexLess lemmas |
| MXF.LexLessIrreflexive | asdcplib-rel_2_10_32/src/MXF.h:509 | string < is irreflexive |
| MXF.LexLessTransitive | asdcplib-rel_2_10_32/src/MXF.h:509 | string < is transitive |
| MXF.LexLessTotal | asdcplib-rel_2_10_32/src/MXF.h:509 | of two distinct strings, one is < the other |
| MXF.CiComp | asdcplib-rel_2_10_32/src/MXF.h:506-511 | ci_comp(a, b) is string < on the lower-cased copies; it is a strict weak order by the three CiComp lemmas |
| MXF.CiCompIrreflexive | asdcplib-rel_2_10_32/src/MXF.h:506-511 | never ci_comp(a, a) |
| MXF.CiCompTransitive | asdcplib-rel_2_10_32/src/MXF.h:506-511 | ci_comp is transitive |
| MXF.CiCompEquivalence | asdcplib-rel_2_10_32/src/MXF.h:506-511 | two strings are ci_comp-equivalent (neither less) exactly when they agree after lower-casing |
| PCMParser.ChosenHeader | asdcplib-rel_2_10_32/src/PCM_Parser.cpp:102-148 | WAV is chosen when its probe succeeds, AIFF when WAV fails and AIFF succeeds, whatever RF64 returns, RF64 when only it succeeds, none when all fail |
| PCMParser.ProbeResult | asdcplib-rel_2_10_32/src/PCM_Parser.cpp:102-151 | once the file is open, OpenRead succeeds exactly when some probe does, and returns that probe's result |
| PCMParser.DurationCountsWholeFrames | asdcplib-rel_2_10_32/src/PCM_Parser.cpp:112 | ContainerDuration is the number of whole frames in data_len, a partial last frame not counted |
| PCMParser.OpenedDescriptor | asdcplib-rel_2_10_32/src/PCM_Parser.cpp:109-113 | the kept descriptor is the probe's, with ContainerDuration from data_len and ChannelFormat CF_NONE |
| PCMParser.ReadFrameSpec | asdcplib-rel_2_10_32/src/PCM_Parser.cpp:156-198 | once EOF is set a call returns ENDOFFILE and changes nothing; a small buffer gives SMALLBUF and changes nothing; a short read sets EOF; the result is OK exactly when some byte was read (or the frame is empty); on OK the next bytes of the file are delivered, the position and m_ReadCount move by that many, and m_FramesRead grows by one |
| PCMParser.FrameImage | asdcplib-rel_2_10_32/src/PCM_Parser.cpp:191-194 | the buffer after a read holds the bytes read, then zeros up to its capacity |
| PCMParser.ResetCursor | asdcplib-rel_2_10_32/src/PCM_Parser.cpp:89-94 | Reset keeps m_EOF |
| PCMParser.SeekCursor | asdcplib-rel_2_10_32/src/PCM_Parser.cpp:201-206 | Seek keeps m_EOF and zeroes m_ReadCount |
| PCMParser.EndOfFileIsSticky | asdcplib-rel_2_10_32/src/PCM_Parser.cpp:160-163 | once EOF is set, any number of reads delivers nothing and moves nothing |
| PCMParser.EndOfFileSurvivesRewind | asdcplib-rel_2_10_32/src/PCM_Parser.cpp:89-94 | after Reset or Seek a reader at EOF still returns ENDOFFILE |
| PCMParser.ReadsDeliverBytesInOrder | asdcplib-rel_2_10_32/src/PCM_Parser.cpp:172-189 | k reads deliver exactly the next k frames of the file, with no gap or overlap, cut short at its end |
| PCMParser.ReadsAdvanceByFrames | asdcplib-rel_2_10_32/src/PCM_Parser.cpp:185-189 | while inside the file, k reads move the position and m_ReadCount by k frames and add k to m_FramesRead |
| PCMParser.ResetNumbersFramesFromZero | asdcplib-rel_2_10_32/src/PCM_Parser.cpp:89-94 | after Reset, the frame at DataStart + j*size is read as frame j and delivers those bytes |
| PCMParser.SeekNumbersFramesFromNMinusOne | asdcplib-rel_2_10_32/src/PCM_Parser.cpp:201-206 | after Seek(n), n > 0, the frame at DataStart + (n+j)*size is numbered n+j-1 |
| PCMParser.SeekZeroNumbersFirstFrameMax | asdcplib-rel_2_10_32/src/PCM_Parser.cpp:203 | after Seek(0) the first frame read is numbered 0xFFFFFFFF, and the count then wraps to 0 |
| PCMParser.WAVParserImpl.constructor | asdcplib-rel_2_10_32/src/PCM_Parser.cpp:63-65 | a new parser has m_EOF false and every offset and counter zero, over a reader with nothing open |
| PCMParser.WAVParserImpl.Reset | asdcplib-rel_2_10_32/src/PCM_Parser.cpp:89-94 | the position is DataStart and both counters are 0; m_EOF and the rest are kept |
| PCMParser.WAVParserImpl.Accept | asdcplib-rel_2_10_32/src/PCM_Parser.cpp:109-114 | a successful probe sets the descriptor, frame size, data length and data start, then resets |
| PCMParser.WAVParserImpl.OpenRead | asdcplib-rel_2_10_32/src/PCM_Parser.cpp:98-152 | a failed open returns its result; otherwise the result is ProbeResult; on success the parser holds the chosen probe's values and sits at its data start with zero counters |
| PCMParser.WAVParserImpl.ReadFrame | asdcplib-rel_2_10_32/src/PCM_Parser.cpp:156-198 | result, cursor and buffer size are those of ReadFrameSpec; on OK the frame number is the old m_FramesRead and the buffer is the FrameImage; otherwise the buffer contents are unchanged |
| PCMParser.WAVParserImpl.Seek | asdcplib-rel_2_10_32/src/PCM_Parser.cpp:201-206 | the position is DataStart + size*n in 32 bits, m_FramesRead is n-1 in 32 bits, m_ReadCount is 0 |
| PCMParser.WAVParser.constructor | asdcplib-rel_2_10_32/src/PCM_Parser.cpp:211-213 | a new public parser has no parser open |
| PCMParser.WAVParser.OpenRead | asdcplib-rel_2_10_32/src/PCM_Parser.cpp:221-232 | a new parser is opened and kept exactly when OpenRead succeeds |
| PCMParser.WAVParser.Reset | asdcplib-rel_2_10_32/src/PCM_Parser.cpp:235-243 | RESULT_INIT without a parser; otherwise RESULT_OK, the cursor is ResetCursor of the old one, and the file, data start, data length, frame size and descriptor stay |
| PCMParser.WAVParser.ReadFrame | asdcplib-rel_2_10_32/src/PCM_Parser.cpp:247-254 | RESULT_INIT without a parser and the buffer untouched; otherwise result, cursor and buffer follow ReadFrameSpec and FrameImage, the frame number changes only on OK, and the data start, data length and descriptor stay |
| PCMParser.WAVParser.FillAudioDescriptor | asdcplib-rel_2_10_32/src/PCM_Parser.cpp:256-264 | RESULT_INIT without a parser; otherwise RESULT_OK and the parser's descriptor |
| PCMParser.WAVParser.Seek | asdcplib-rel_2_10_32/src/PCM_Parser.cpp:266-272 | RESULT_INIT without a parser; otherwise RESULT_OK, the cursor is SeekCursor of the old one, and the file, data start, data length, frame size and descriptor stay |
| KumuXML.ApplyVisitor | asdcplib-rel_2_10_32/src/KM_xml.h:150-170 | apply_visitor over an element: the visitor run over its descendants in pre-order, stopping at the first false, as ApplyVisitorIsPreOrderRun proves |
| KumuXML.ApplyFrom | asdcplib-rel_2_10_32/src/KM_xml.h:156-166 | the loop from child i on: each child is visited and then its own subtree, stopping at the first false |
| KumuXML.RunSeqAppend | asdcplib-rel_2_10_32/src/KM_xml.h:156-166 | visiting two lists one after the other is visiting the first, then the second unless the first stopped |
| KumuXML.ApplyVisitorIsPreOrderRun | asdcplib-rel_2_10_32/src/KM_xml.h:150-170 | apply_visitor is exactly the visitor run over the pre-order list of the descendants |
| KumuXML.PreOrder | asdcplib-rel_2_10_32/src/KM_xml.h:153-167 | every visited element is followed at once by all of its own descendants |
| KumuXML.RootNotVisited | asdcplib-rel_2_10_32/src/KM_xml.h:153-167 | the element handed to apply_visitor is itself never visited |
| KumuXML.ChildrenVisited | asdcplib-rel_2_10_32/src/KM_xml.h:153-167 | every child is visited, and the first visit is the first child |
| KumuXML.RunSeqStopsAtFirstFalse | asdcplib-rel_2_10_32/src/KM_xml.h:158-166 | a false run has a first false visit; everything before it was true and nothing after it is visited |
| KumuXML.RunSeqTrueIffAllVisitsTrue | asdcplib-rel_2_10_32/src/KM_xml.h:155-169 | a run is true exactly when every visit in it returned true |
| KumuXML.ApplyVisitorTrueIffAllVisitsTrue | asdcplib-rel_2_10_32/src/KM_xml.h:155-169 | apply_visitor returns true exactly when every descendant's visit returned true |
| KumuXML.ApplyVisitorStopsAtFirstFalse | asdcplib-rel_2_10_32/src/KM_xml.h:158-166 | after the first false visit apply_visitor returns false and visits nothing more |
| KumuXML.AttributeVisitor.constructor | asdcplib-rel_2_10_32/src/KM_xml.h:178 | a new visitor has the given name and an empty value list |
| KumuXML.AttributeVisitor.Element | asdcplib-rel_2_10_32/src/KM_xml.h:181-195 | inserts the value of every attribute with the visitor's name, nothing else, and returns true |
| KumuXML.RunAttributeVisit | asdcplib-rel_2_10_32/src/KM_xml.h:181-195 | a run of the attribute visitor is true and adds exactly the matching values of all visited elements |
| KumuXML.CollectedCons | asdcplib-rel_2_10_32/src/KM_xml.h:181-195 | the values collected from a list are the first element's plus the rest's |
| KumuXML.AttributeVisitorCollects | asdcplib-rel_2_10_32/src/KM_xml.h:150-195 | apply_visitor with the attribute visitor returns true, and its value list gains exactly the matching values over all descendants |
| KumuXML.ElementVisitor.constructor | asdcplib-rel_2_10_32/src/KM_xml.h:204 | a new visitor has the given name and an empty value list |
| KumuXML.ElementVisitor.Element | asdcplib-rel_2_10_32/src/KM_xml.h:207-215 | compares the element's body, not its name; inserts the body only on equality; returns true |
| KumuXML.RunElementVisit | asdcplib-rel_2_10_32/src/KM_xml.h:207-215 | a run of the element visitor is true and adds the name exactly when some visited body equals it |
| KumuXML.ElementVisitorCollects | asdcplib-rel_2_10_32/src/KM_xml.h:150-215 | apply_visitor with the element visitor from an empty list returns true, with a value list inside {name} that holds name exactly when some descendant's body equals it |

## Left out

- `Atmos.Reader.Close`: the body of h__Reader::Close is inherited and is not part of this model. It is taken to close the file and to keep the metadata objects, both descriptors and m_Info.
- Kumu's MemIOReader and MemIOWriter (KM_memio.h is not part of this model) are modelled by `MemIO` over `BigEndian`. Each fixed-size read or write is taken either to fit entirely or to leave the cursor where it was. The failure states of `MXF.PartitionPair` and `MXF.LocalTagEntry` rest on that assumption.
- Kumu's file I/O (KM_fileio.h is not part of this model).
  - `PCMParser.FileReader` models a file as its bytes and a position. A read delivers min(n, bytes left) bytes and reports RESULT_ENDOFFILE when short. Seek always succeeds.
  - Other read failures (RESULT_READFAIL) are not modelled.
  - Reads are bounded by the end of the file, not by the header's data length, because ReadFrame itself does not test it.
  - Opening a file is a parameter that gives its result. For the Atmos reader, that result decides whether the file counts as open afterwards.
- The WAV, AIFF and RF64 header parsers and CalcFrameBufferSize (Wav.h and AS_DCP.h are not part of this model). Each probe is a parameter that gives a result, a data start, a data length, a descriptor and a frame size.
  - What a failed probe leaves in m_DataStart is not modelled.
  - A zero frame size for the chosen probe, where the source divides by zero, is excluded by `ProbesDivisible`.
- `PCMParser.Duration` has no contract of its own. Its property is stated by `DurationCountsWholeFrames` and used by `OpenedDescriptor`.
- `Atmos.WriteFrameSpec`: the packet write (WriteEKLVPacket, in AS_DCP_internal.h, which is not part of this model) is a parameter. It gives the packet's result and the number of bytes it added. On failure the stream offset is taken as unchanged.
- Encryption and HMAC in packet writes and reads, and the essence bytes of a frame, are not modelled.
- WriteASDCPHeader and WriteASDCPFooter are parameters that give their outcome:
  - the header request is recorded as the arguments of the call;
  - the footer is recorded as the index it receives;
  - the bytes of the partitions, index segments and the Random Index Pack are not modelled.
- GetMDObjectByType is a parameter: what the header holds of each metadata object type, or nothing. The metadata objects are values. The sub-descriptor list holds InstanceUIDs rather than pointers to the objects, so aliasing and `delete`/`release` are not modelled.
- A fresh metadata object's fields start at zero, because its constructor is not part of this model. GenRandomValue is a parameter: the InstanceUID to use.
- `Atmos.Writer.SetSourceStream` and `Atmos.MXFWriter.OpenWrite` do not model the dictionary lookups. The three ULs are fields of `Atmos.Dictionary`, since AtmosSMPTEDict is not part of this model.
- The state machine's Goto_*/Test_* (AS_DCP_internal.h is not part of this model) are modelled by their use here: a transition succeeds only from its source state.
- `Atmos.OpenReadSpec`, `Atmos.Reader.OpenRead`, `Atmos.MXFReader.OpenRead`: a header whose ContainerDuration exceeds 0xFFFFFFFF aborts on the assert at AS_DCP_ATMOS.cpp:135 in a debug build. The model follows a release build, where the assert is gone and the duration keeps its low 32 bits (`Atmos.LongDurationIsTruncated`); the abort is not modelled.
- The reader's m_Info is set from a parameter: the identification OpenMXFRead would fill.
- Not modelled:
  - LocateFrame, which is inherited reader code;
  - the OP1aHeader, OPAtomIndexFooter and RIP accessors;
  - DumpHeaderMetadata, DumpIndex, `operator<<`, AtmosDescriptorDump and the EncodeString methods, which are text output;
  - IsDolbyAtmos, which depends on unseen path helpers;
  - h__WAVParser::Close.
- `MXF.OptionalProperty` does not model the conversion to a reference (`operator PropertyType&`) or writes through it.
- optional_container_property, the IndexEntry/DeltaEntry byte layouts, Primer tag insertion and the object factory are not modelled; their bodies are outside MXF.h.
- The XML parser, renderer and builder are not modelled (their bodies are not in KM_xml.h). Elements are values.
- `MXF.ToLowerChar` lower-cases only the 26 ASCII letters, as `::tolower` does in the "C" locale; other locales are not modelled.
- Atmos WriteFrame: the comment at AS_DCP_ATMOS.cpp:666-668 says it fails after Finalize, but h__Writer::WriteFrame tests no state except READY. The model follows the code (see `Atmos.WriteFrameTestsOnlyReady`). Whether the unseen packet write refuses instead is not modelled.
