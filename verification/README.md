# A model of the client's parameter-set codec, DRM hand-over, output topology and host list

This project models four parts of the client and proves what they are for.

**H.264 parameter sets.** The client rewrites a host's sequence parameter set before a decoder
sees it. The model follows the whole path: the bit cursor over a byte buffer (`BitStream`), the
fixed-width and Exp-Golomb codes (`BitCodes`, `Bits`), the syntax of sections 7.3.2.1.1, E.1.1 and
E.1.2 of ITU-T H.264 as a pure grammar (`SpsSyntax`) and as the statement-by-statement reader and
writer that refine it (`SpsCodec`), emulation prevention and start codes (`Nal`), the NAL unit
through all layers (`NalUnit`), and the rewrite itself (`SpsFixup`). A parameter set in range is
recovered in *canonical form*: every field that the syntax sends, and the reader's default for
every field it does not. Round trips say nothing about what both sides agree on, so `SpsTable` has
the syntax tables of the standard, row by row, and proves that the writer puts and the reader takes
just these rows. `SpsSize` shows that the canonical form is all the coded bits depend on,
and `SpsOverflow` builds a set whose rewrite does not fit.

**DRM master.** `MasterHook` is the table of SDL descriptors, its counter and the kernel's idea of
who is master, moved by the open, close, set-CRTC, flip and commit hooks; `MasterLocks` is the two
locks, with any number of threads and hooks entered again from driver calls; `MasterTable` puts the
two together, slot write by slot write.

**Output topology.** `Topology` is the strict parser with its two families and the printer, on the
JSON values of `Json`; `TopologyReference` lists the accepted descriptions member by member, without
the parser, and proves that the parser accepts these and no others; `Modes` is display modes as
text; `MacDisplays` matches a Mac desktop to the client's monitors.

**Hosts.** `HostStore` is the settings store and the backup-then-primary flush, step by step;
`HostFlusher` the flush thread beside the threads that change and save hosts, `HostSaves` the saving
of a single host and `HostCrashes` a crash at any moment of all this; `Polling` the
reference-counted polling of known hosts, with the polling threads themselves.

Where the code departs from what one would expect, the model keeps the code and says when it does
hold:

- A source rectangle is checked with `int` sums. `Topology.AcceptedOutputs` shows that an accepted
  rectangle lies inside the desktop exactly when those sums do not overflow;
  `Topology.OutsideSourceAccepted` is an input where they do.
- A flush keeps the old or the new hosts across one crash exactly when the primary array alone
  already gives one of them (`HostStore.CrashSafeExactly`); after a first crash it may not
  (`HostStore.TwoCrashesLoseHosts`).
- The backup array is written without app lists, so a restart that takes the hosts from it has lost
  every one of them (`HostStore.CrashLosesApps`, `HostCrashes.BackupHasNoApps`).
- A host whose address was changed by a later answer of its server keeps the uuid of its first
  address. The checks of editing and adding compare addresses, so another bookmark can be moved to
  that uuid, which drops the first host's poll entry with its thread still running, or added under
  it, which starts no thread for the new host. Either way the first host leaves the host map, so
  that the next flush forgets it. `Polling.EditTouchesOthers`, `Polling.AddKeepsOwnPolled` and
  `Polling.AddKeepsHosts` say exactly when this does not happen, `Polling.TakenUuidReached` and
  `Polling.StaleUuidReached` are runs in which it does, and `Polling.PollingFollowsCount` gives its
  effect on any run.
- saveHost compares a host with what was recorded when the flush thread woke, which need not be what
  it wrote. `HostSaves.SavedHostKept` is the exact condition; `HostSaves.SavedHostLost` loses a
  change from any store.
- The room reserved for a rewritten set is not enough for every set. The exact condition is that the
  changed set, escaped, and the zero byte in front of it fit (`SpsFixup.WriteBuffer`); when they do
  not, the offset moves by two less than the start code and the set is lost. A payload of up to 29
  bytes always fits (`SpsFixup.ShortSetsFit`); `SpsOverflow.LongSetDoesNotFit` is a set of 61 bytes
  whose rewrite needs one byte more than there is.
- The rewrite sets a field that is only sent when the set carries a bitstream restriction
  (`SpsFixup.FixupEffect`), so without one the decoder sees no limit on buffered frames.
- An empty RBSP is accepted by the escaper whatever the capacity, although it reports one byte; a
  NAL unit is never empty, so its writer is not affected.

Modelling choices: bytes are `bv8`; C integers are unbounded and wrap explicitly where they are
stored as 32-bit patterns or where a sum may leave `int`; allocation, logging, I/O, clocks and the
kernel's answers are parameters or are absent. JSON numbers are reals, and the member names the
code looks up are an enumeration beside all other names.

## Model

| member | source | states |
|---|---|---|
| Bits.BitsOfInjective | h264bitstream/bs.h:20-60 | a buffer is determined by its bits, most significant first |
| BitStreams.BitStream.ReadU1 | h264bitstream/bs.h:84-98 | one bit read moves the position by one, returns the bit under the cursor or 0 at the end, and changes no byte |
| BitStreams.BitStream.ReadU | h264bitstream/bs.h:106-115 | n bits, n up to 32, are the unsigned number at the position |
| BitStreams.BitStream.ReadU8 | h264bitstream/bs.h:126-137 | the byte-aligned fast path and the loop both read the same eight bits |
| BitStreams.BitStream.ReadUe | h264bitstream/bs.h:139-155 | the loop is the specification's Exp-Golomb reader, on any bits |
| BitStreams.BitStream.ReadSe | h264bitstream/bs.h:157-169 | likewise for signed codes |
| BitStreams.BitStream.WriteU1 | h264bitstream/bs.h:171-182 | one bit is appended; the buffer is its first contents overlaid with all bits put so far, nothing at or past the end changes, and bits past it are dropped |
| BitStreams.BitStream.WriteU | h264bitstream/bs.h:184-191 | n bits are appended, n up to 32 |
| BitStreams.BitStream.WriteU8 | h264bitstream/bs.h:193-204 | the byte-aligned fast path and the loop append the same eight bits |
| BitStreams.BitStream.WriteUe | h264bitstream/bs.h:206-261 | the table-driven writer appends the Exp-Golomb code for 0..65534 |
| BitStreams.BitStream.WriteSe | h264bitstream/bs.h:263-273 | the signed code for -32767..32767 |
| BitCodes.TableLenExact | h264bitstream/bs.h:208-257 | the byte-sliced length table is the exact bit length over the whole unsigned range |
| BitCodes.IntLaw | h264bitstream/bs.h:106-115 | u(n) read after u(n) written is the identity, from any position and whatever follows |
| BitCodes.UeLaw | h264bitstream/bs.h:139-155 | unsigned Exp-Golomb is lossless and self-delimiting, exactly 2 * len - 1 bits |
| BitCodes.SeLaw | h264bitstream/bs.h:157-169 | signed Exp-Golomb is lossless and self-delimiting |
| SpsSyntax.ListLaw | h264bitstream/h264_stream.c:146-162 | for a list of any length the reader rebuilds the writer's entries although deltas wrap modulo 256 and coding stops early; both agree on when it stopped and on the use-default flag |
| SpsSyntax.EntryLaw | h264bitstream/h264_stream.c:398-434 | a present list with entries 1..255, or all eights under the use-default flag, is rebuilt |
| SpsSyntax.HrdBlockLaw | h264bitstream/h264_stream.c:235-254 | an HRD block with up to 32 CPB entries round-trips |
| SpsSyntax.VuiLaw | h264bitstream/h264_stream.c:164-233 | VUI parameters with either, both or neither HRD block round-trip |
| SpsSyntax.SpsLaw | h264bitstream/h264_stream.c:44-144 | from any position and whatever follows, reading a written parameter set rebuilds its canonical form and stops exactly where the writer stopped |
| SpsSyntax.ListEntriesBounded | h264bitstream/h264_stream.c:146-162 | on any bits the scaling arithmetic stays between -256 and 256 |
| SpsSyntax.CountsClamped | h264bitstream/h264_stream.c:79-98 | on any bits the two clamps keep the loop counts inside the 256- and 32-entry tables, and every table keeps its size |
| SpsSyntax.CanonicalIdempotent | h264bitstream/h264_stream.c:303-396 | the canonical form is in range and its own canonical form |
| SpsSize.PutCanonical | h264bitstream/h264_stream.c:303-396 | a set and its canonical form are coded into the same bits |
| SpsSize.CodedAlikeExactly | h264bitstream/h264_stream.c:303-396 | two sets in range are coded alike if and only if their canonical forms are the same |
| SpsTable.WriterFollowsTable | h264bitstream/h264_stream.c:303-396 | for every set that can be written, the bits put are the rows of sections 7.3.2.1.1, E.1.1 and E.1.2 in their order, each element in its own code and width under its own condition, the twelve profile numbers, 255 for extended aspect ratios and all widths written out |
| SpsTable.ReaderFollowsTable | h264bitstream/h264_stream.c:44-144 | on any bits, the rows of what is read stand one behind the other from where the reader began to where it stopped, the two counts cut down to 256 and 31 |
| SpsTable.ReaderDefaults | h264bitstream/h264_stream.c:48-49 | on any bits, every field without a row is zero, but chroma_format_idc, which is one; tables have 12 lists of 16 and 64 entries, 256 offsets and 32 CPB rows |
| SpsTable.InRangeExactly | h264bitstream/bs.h:184-273 | a set is in range, as the round trips demand, if and only if the value of each of its rows is one its element can carry, the ranges written out; no field without a row matters |
| SpsTable.ProfileDecides | h264bitstream/h264_stream.c:318-326 | behind the header comes the code of chroma_format_idc for the twelve profiles, and that of log2_max_frame_num_minus4 for every other |
| SpsTable.ProfileDecidesReading | h264bitstream/h264_stream.c:62-70 | the reader, on any bits, takes the first code behind the header for the one or the other by the same twelve numbers |
| SpsTable.ScalingListCodes | h264bitstream/h264_stream.c:398-434 | a list sends one difference modulo 256 for each entry up to the last that differs from the one before, and one that leads to 0 if entries are left; a default list sends that one alone |
| SpsTable.SignedCodes | h264bitstream/bs.h:157-169 | code numbers 0, 1, 2, 3, 4 and so on carry 0, 1, -1, 2, -2 and so on |
| SpsOverflow.CodeIsPut | h264bitstream/bs.h:206-261 | a run of zeros, a one and as many bits again are the unsigned code of that number less one |
| SpsCodec.H264Stream.ReadSeqParameterSet | h264bitstream/h264_stream.c:44-144 | the imperative reader ends with the structure and position of `ReadSps`, for any bits; which elements that takes, in which order and for which profiles, is `SpsTable.ReaderFollowsTable`, and what it leaves in the other fields `SpsTable.ReaderDefaults` |
| SpsCodec.H264Stream.WriteSeqParameterSet | h264bitstream/h264_stream.c:303-396 | the imperative writer puts exactly the bits of `Sps.Put`, which are the rows of the standard by `SpsTable.WriterFollowsTable` |
| SpsCodec.H264Stream.ReadScalingList | h264bitstream/h264_stream.c:146-162 | the loop over lastScale and nextScale is the list reader |
| SpsCodec.H264Stream.WriteScalingList | h264bitstream/h264_stream.c:398-434 | the loop with its early stop puts exactly the deltas of the list |
| SpsCodec.H264Stream.ReadCpbTable | h264bitstream/h264_stream.c:241-249 | the clamped loop fills the CPB rows and leaves the others |
| SpsCodec.H264Stream.ReadTrailingBits | h264bitstream/h264_stream.c:256-264 | the cursor ends at the next byte boundary strictly behind it |
| Nal.EscapeHasNoStartCode | h264bitstream/h264_nal.c:78-84 | escaped bytes hold no 00 00 00, 00 00 01 or 00 00 02 |
| Nal.EscapeBound | h264bitstream/h264_nal.c:63-100 | a non-empty RBSP of n bytes gains at most (n - 1) / 2 bytes |
| Nal.EscapeBoundTight | h264bitstream/h264_nal.c:63-100 | the all-zero string of every length reaches that bound |
| Nal.UnescapeEscape | h264bitstream/h264_nal.c:102-151 | unescaping undoes escaping for every byte string |
| Nal.EscapeUnescape | h264bitstream/h264_nal.c:102-151 | escaping what was unescaped gives back the bytes reported as consumed: all of them, or all but a dropped trailing 03 |
| Nal.EscapeAppends | h264bitstream/h264_nal.c:78-84 | one more byte adds a 03 and itself if the output ends in two zero bytes and it is at most 3, and itself alone otherwise |
| Nal.UnescapeAcceptsExactly | h264bitstream/h264_nal.c:102-151 | what is accepted as a given RBSP is that string escaped, or that with a 03 behind two final zero bytes |
| Nal.UnescapeFits | h264bitstream/h264_nal.c:102-151 | an RBSP is never longer than its NAL |
| Nal.NalSpanUnique | h264bitstream/h264_nal.c:21-61 | a byte stream has at most one first NAL unit |
| Nal.FramingUnambiguous | h264bitstream/h264_nal.c:21-61 | an escaped RBSP ending in a non-zero byte, behind the first start code and before another or the end, is exactly the first NAL unit |
| Nal.RbspToNal | h264bitstream/h264_nal.c:63-100 | stores a zero byte and the escaped bytes, or fails exactly when a non-empty input does not fit |
| Nal.NalToRbsp | h264bitstream/h264_nal.c:102-151 | stores the unescaped bytes and both sizes, or fails exactly when the bytes are malformed or do not fit |
| Nal.FindNalUnit | h264bitstream/h264_nal.c:21-61 | on any bytes returns the first NAL unit's bounds, or 0 0 exactly when there is no start code |
| NalUnit.RbspEndsInStopBit | h264bitstream/h264_stream.c:524-532 | trailing bits make the last byte non-zero |
| NalUnit.NalRoundTrip | h264bitstream/h264_stream.c:8-42 | through all layers a parameter set in range is recovered in canonical form with its header, all bytes consumed |
| NalUnit.HeaderByte | h264bitstream/h264_stream.c:20-34 | on any payload, nal_ref_idc and nal_unit_type are bits 5 to 6 and 0 to 4 of the first byte, and every type but 7 is refused with the parameter set left alone |
| NalUnit.HeaderByteWritten | h264bitstream/h264_stream.c:275-277 | the payload written begins with the byte 32 * nal_ref_idc + nal_unit_type |
| NalUnit.WrittenReadsBack | h264bitstream/h264_stream.c:266-301 | reading rc - 1 bytes behind the leading zero returns rc - 1 and what was written |
| NalUnit.RoomSuffices | h264bitstream/h264_stream.c:266-301 | 1 + n + (n - 1) / 2 bytes are always enough for an RBSP of n bytes |
| NalUnit.WriteNalUnit | h264bitstream/h264_stream.c:266-301 | succeeds if and only if the zero byte and the escaped payload fit, stores just them, and changes nothing outside the buffer given |
| NalUnit.ReadNalUnit | h264bitstream/h264_stream.c:8-42 | on any bytes, the result, header and parameter set are those of the specification, rejections included |
| SpsFixup.WriteBuffer | app/streaming/video/ffmpeg.cpp:1839-1878 | the decode buffer gets the same start code and the changed set if and only if the set, escaped, and a zero byte fit the room reserved; otherwise the offset moves by two less than the start code |
| SpsFixup.FixupMeaning | app/streaming/video/ffmpeg.cpp:1839-1878 | a buffer holding a set in range becomes, where the rewrite fits, one that reads back as the changed set |
| SpsFixup.FixupEffect | app/streaming/video/ffmpeg.cpp:1854-1856 | one reference frame always; one buffered frame if and only if the set carried a bitstream restriction; nothing else differs |
| SpsFixup.FixedPayload | app/streaming/video/ffmpeg.cpp:1854-1856 | the changed set's payload is at most one byte longer |
| SpsFixup.ShortSetsFit | app/streaming/video/ffmpeg.cpp:1862-1863 | the rewrite of a set with a payload of up to 29 bytes always fits |
| SpsOverflow.LongSetDoesNotFit | app/streaming/video/ffmpeg.cpp:61 | the 16 spare bytes are not enough for every set: one of 61 bytes, nothing in it escaped, needs 17 |
| MasterHook.RemoveKeepsCounter | app/masterhook_internal.c:85-113 | true is reported exactly when the counter falls from one to zero, and then the table is empty |
| MasterHook.SectionsKeepCounter | app/masterhook_internal.c:70-113 | after any sequence of table sections, the counter equals the number of occupied slots |
| MasterTable.SectionsAreAtomic | app/masterhook_internal.c:95-111 | in every interleaving of the slot and counter writes of any threads, table and counter are those of whole sections one after the other whenever the lock is free, and the counter is off by one only between its holder's two writes |
| MasterHook.StepKeepsCounter | app/masterhook_internal.c:137-239 | each whole hook keeps the counter right, whatever the kernel answers |
| MasterHook.Ownership | app/masterhook.c:132-198 | after any run of hooks one at a time, once Qt's descriptor is captured Qt holds master exactly when the table is empty, every tracked descriptor does otherwise, and a Qt flip or commit succeeds and changes nothing |
| MasterHook.Hooks.RemoveSdlFd | app/masterhook_internal.c:85-113 | the scan of the table clears the first match |
| MasterHook.Hooks.Open | app/masterhook_internal.c:137-239 | the open hook is its transition on every path, result included; what that result is, is `MasterHook.OpenGivesBack` |
| MasterHook.OpenGivesBack | app/masterhook_internal.c:137-239 | for every state and answer, opening Qt's card returns the one descriptor that is newly open, put into one free slot of the eight exactly when it is tracked, or an error after which the open descriptors and the table are as before |
| MasterHook.OpenGivesMaster | app/masterhook_internal.c:222-230 | with ownership right and the kernel willing, a tracked descriptor is master when it is returned, and Qt's is not |
| MasterHook.CloseForgets | app/masterhook.c:232-280 | a close takes its descriptor, and no other, out of the table, and out of the kernel when the real close succeeds |
| MasterHook.CaptureExactly | app/masterhook.c:93-113 | the first descriptor that is master at a set-CRTC or commit is captured, once; a flip captures none |
| MasterHook.OthersPassedOn | app/masterhook.c:132-198 | a flip or commit on another descriptor than Qt's changes nothing, and gives 0 or -13 as the kernel does |
| MasterHook.Hooks.Close | app/masterhook.c:232-280 | the close hook restores master to Qt after the last tracked descriptor |
| MasterHook.Hooks.PageFlip | app/masterhook.c:132-156 | the flip hook takes master for Qt only for the duration of the call |
| MasterHook.Hooks.AtomicCommit | app/masterhook.c:159-198 | likewise for commits, after the capture |
| MasterLocks.ProgramsConsistent | app/masterhook_internal.c:43 | on every path of every hook the table lock is taken last, no call that may enter a hook is made under it, and every return has given back what was taken |
| MasterLocks.StepKeepsInv | app/masterhook_internal.c:59-68 | lock owners and depths are what the threads' stacks of hooks say, after any step of any thread |
| MasterLocks.TableHolderNeverWaits | app/masterhook_internal.c:43 | whoever holds the table lock waits for no lock |
| MasterLocks.NoDeadlock | app/masterhook_internal.c:43 | in every reachable state no threads wait for each other in a circle, and an idle thread holds nothing |
| MasterLocks.Progress | app/masterhook_internal.c:95-134 | while some hook is running, some thread can take a step |
| Modes.NumberReads | app/backend/outputtopology.cpp:453 | a printed number reads back if it is an int and is refused otherwise |
| Modes.ModeSplits | app/backend/outputtopology.cpp:450 | a printed mode splits into its two numbers |
| Modes.VirtualModeSizeMeaning | app/backend/outputtopology.cpp:122-129 | a mode has a valid size if and only if it is one of the twelve qualified ones, and is then the text of that size |
| MacDisplays.MacDisplayModeSizeExact | app/backend/outputtopology.cpp:448-457 | the accepted texts are exactly the printed even sizes from 2 to 8192 |
| MacDisplays.NoProblemIffMatches | app/backend/outputtopology.cpp:469-510 | nothing is reported wrong exactly when the displays meet a condition that ignores their order |
| MacDisplays.ResolveMacClientDisplayMode | app/backend/outputtopology.cpp:469-510 | the loop yields the canvas's mode and scale if and only if that condition holds, and otherwise the first problem, no mode and scale 1; what the condition is, is `MacDisplays.MatchesExactly` |
| MacDisplays.ApartExactly | app/backend/outputtopology.cpp:477-484 | two displays are refused as not side by side if and only if some column belongs to both or no row does, so touching displays are not |
| MacDisplays.MatchesExactly | app/backend/outputtopology.cpp:469-510 | displays match if and only if there are one or two, apart, showing even sizes from 2 to 8192 that are once or twice their desktop size, the same for both, together at most 8192 wide; that factor is the scale, and the canvas is what they show side by side |
| MacDisplays.RequestExactly | app/backend/outputtopology.cpp:459-467 | a request is made if and only if the mode is the text of its even size from 2 to 8192, the scale 1 or 2 and the encoding one of the two named |
| MacDisplays.OrderIrrelevant | app/backend/outputtopology.cpp:469-510 | the match, its mode and its scale do not depend on the order of two displays |
| MacDisplays.MatchMeaning | app/backend/outputtopology.cpp:459-467 | the mode reads back as the sum of widths and the largest height, the scale divides both and leaves the points, and the request is not empty for either encoding |
| Topology.PrintParse | app/backend/outputtopology.cpp:337-381 | what either parser family accepts is printed so that it is accepted again, unchanged |
| Topology.AcceptedExactly | app/backend/outputtopology.cpp:153-335 | a topology comes out of the parser if and only if it is well-formed, a condition stated without the parser |
| Topology.FixedPrintsBack | app/backend/outputtopology.cpp:38-89 | a fixed capture is accepted in one spelling only: printing gives back the very object that was read |
| Topology.LayoutLaw | app/backend/outputtopology.cpp:196-263 | the printed layout with its allowed kinds and modes is read back |
| Topology.OutputsLaw | app/backend/outputtopology.cpp:276-324 | the printed outputs are read back in order |
| Topology.Print | app/backend/outputtopology.cpp:337-381 | the loop over outputs builds the printed description |
| Topology.FromJson | app/backend/outputtopology.cpp:153-335 | the parser's loops and checks give the specified topology or the specified error, and a refused description leaves the destination as it was; which descriptions are accepted, and as what, is `TopologyReference.AcceptedAsDescribed` |
| Topology.ParseFixedCapture | app/backend/outputtopology.cpp:38-89 | likewise for the fixed family, with `TopologyReference.FixedExactly` |
| TopologyReference.FixedExactly | app/backend/outputtopology.cpp:26-89 | a fixed capture is accepted if and only if it has just the four members, the five of the capture, the four bounds and, for each of the two modes, the twelve of its encoding profile, with the values and ranges written out; every field of the topology is then given, the fixed ones by their values |
| TopologyReference.FlagsExactly | app/backend/outputtopology.cpp:165-190 | the feature flags pass if and only if bits 0, 1, 2, 5 to 10, 14 and 15 are set and bit 19 is not, in arithmetic on any int |
| TopologyReference.LayoutExactly | app/backend/outputtopology.cpp:196-263 | a layout is accepted if and only if its members are the kind, the allowed kinds that go with its startup kind, as many of the twelve modes as its kind needs, and a positive count |
| TopologyReference.OutputsExactly | app/backend/outputtopology.cpp:276-324 | a list of outputs is accepted if and only if each has the members, place in the desktop and provenance listed, in order and no id twice |
| TopologyReference.HostExactly | app/backend/outputtopology.cpp:153-335 | a host's description is accepted as a topology if and only if its members are the topology's fields and meet the conditions listed |
| TopologyReference.AcceptedAsDescribed | app/backend/outputtopology.cpp:153-335 | the parser accepts exactly the descriptions of the two families, and as exactly the topologies they describe |
| Topology.AcceptedOutputs | app/backend/outputtopology.cpp:276-332 | ids are unique, virtual outputs are the virtual modes one for one and in order, and a source rectangle is inside the desktop if and only if its sums do not overflow |
| Topology.OutsideSourceAccepted | app/backend/outputtopology.cpp:308-311 | an accepted description whose output lies outside its desktop |
| Topology.DualLayoutAgrees | app/backend/outputtopology.cpp:414-440 | a matching dual layout has a desktop of exactly the canvas size computed from the modes whenever that is valid, which it is if and only if the desktop is at most 8192 wide |
| Topology.SingleLayoutAgrees | app/backend/outputtopology.cpp:131-137 | a matching single layout has its output of exactly the canvas size, which is always valid |
| TopologyReference.MatchesExactly | app/backend/outputtopology.cpp:414-440 | an accepted description meets a request if and only if kind and modes are those asked for and, for two outputs, these fill the desktop from left to right; for a physical or single layout kind and modes are enough |
| TopologyReference.CanvasExactly | app/backend/outputtopology.cpp:131-151 | the canvas of one qualified mode is its size, of two the sum of widths up to 8192 and the larger height |
| Topology.DualLayoutsExist | app/backend/outputtopology.cpp:142-150 | for each qualified mode there is an accepted, matching dual host, and its canvas is valid if and only if the mode is at most 4096 wide |
| Topology.AcceptedIsSupported | app/backend/outputtopology.cpp:393-412 | an accepted description is one discovery would fetch, of the platform it says; its policy is known, and bookmarks may ask exactly for the valid kinds (physical only if it starts so) or for the client's layout |
| TopologyReference.PlatformExactly | app/backend/outputtopology.cpp:17-24 | the platform is 2 for version 13 with the flags 0x380071, 1 for version 13 with bits 0 to 2 and without bit 19, and otherwise 0, when nothing is fetched |
| TopologyReference.AllowedExactly | app/backend/outputtopology.cpp:400-412 | bookmarks may ask exactly for the kinds an accepted description lists, and for the client's layout |
| HostStore.EnumeratedHosts | app/backend/computermanager.cpp:383-387 | the items written for a host map give back that map |
| HostStore.CrashAt | app/backend/computermanager.cpp:375-406 | what a restart finds after each number of store steps of a flush, also when hosts change between its two loops and a backup was left over |
| HostStore.CrashSafeExactly | app/backend/computermanager.cpp:375-406 | one crash after any step restores the old or the new hosts, if and only if the primary array alone gives one of the two |
| HostStore.CleanStoreIsSafe | app/backend/computermanager.cpp:375-406 | with no backup left over, a flush is safe against one crash |
| HostStore.FlushEnds | app/backend/computermanager.cpp:391-405 | a completed flush leaves no backup and exactly the hosts written, app lists included |
| HostStore.TwoCrashesLoseHosts | app/backend/computermanager.cpp:261-268 | for every non-empty host list two crashes exist that leave nothing |
| HostStore.CrashLosesApps | app/backend/nvcomputer.cpp:256-263 | from the moment the backup array is complete to its removal a crash brings back hosts without app lists; no step puts one into the backup |
| HostStore.Flush | app/backend/computermanager.cpp:375-406 | the two loops, the second over hosts that may have changed meanwhile, perform exactly the store steps the crash results speak of, and leave the later hosts |
| HostStore.RestoreHosts | app/backend/computermanager.cpp:259-277 | a restart reads the backup if it holds hosts, else the primary array |
| HostFlusher.StepKeepsInv | app/backend/computermanager.cpp:345-408 | what the flush thread has written is current but for hosts touched since the latest save, or another flush is due |
| HostFlusher.SavedIsFlushed | app/backend/computermanager.cpp:345-419 | in every interleaving, an idle flusher with a clear flag, or one that stopped, has flushed the hosts as of the latest saveHosts |
| HostFlusher.FlushCompletes | app/backend/computermanager.cpp:346-407 | from any state after a save the flusher, left alone, becomes idle with a clear flag in a number of steps fixed by the hosts, and a restart then finds what was saved |
| HostCrashes.CrashAnywhere | app/backend/computermanager.cpp:259-277 | what a restart finds in every reachable state: what the primary array held as the flusher woke while the backup array is not complete, and from then on the hosts as it woke, hence those of the latest saveHosts, but for hosts touched since |
| HostCrashes.CrashFindsOldOrNew | app/backend/computermanager.cpp:345-408 | with no backup left over at the start, a crash in any state of any interleaving finds what it would have found as the flusher last woke, or the hosts of that moment but for those moved since |
| HostCrashes.BackupHasNoApps | app/backend/computermanager.cpp:383-387 | in every interleaving, a restart that takes the hosts from the backup finds none with an app list |
| HostSaves.StepKeepsInv | app/backend/computermanager.cpp:558-569 | which hosts the last primary array holds otherwise than recorded is known exactly, at every step of every thread |
| HostSaves.SavedHostKept | app/backend/computermanager.cpp:558-569 | in every interleaving, with no flush due a host saved after its last change is as a restart finds it, if and only if it was written as it was recorded when the flusher woke |
| HostSaves.SavedHostLost | app/backend/computermanager.cpp:362-372 | from any store and for any host there is a run after which the host is saved, no flush is due, and a restart finds another version of it |
| Polling.RunKeepsInv | app/backend/computermanager.cpp:457-514 | through any run the reference count is starts minus stops, entries match the known hosts, and the threads without an entry and the stale uuids are those the run's edits and adds have made |
| Polling.PollingFollowsCount | app/backend/computermanager.cpp:851-876 | with as many stops as starts no entry has a running thread, and the threads still running are those cut off by edits; with more starts, before quitting, every known host has an entry with a running thread, and the hosts polled are exactly the known ones if and only if no edit cut off a thread and no uuid is stale |
| Polling.StepOrphans | app/backend/computermanager.h:136-207 | no action but an edit loses a running thread, and none finds one again |
| Polling.AddKeepsOwnPolled | app/backend/computermanager.cpp:962-984 | adding by hand keeps every host polled under its own uuid if and only if the address is already somebody's or nobody has the new uuid |
| Polling.AddKeepsHosts | app/backend/computermanager.cpp:962-984 | and, polled or not, it keeps every host in the map if and only if the same holds; otherwise the host that had the uuid leaves it |
| Polling.EditTouchesOthers | app/backend/computermanager.cpp:1053-1093 | editing a bookmark leaves all other hosts and entries alone if and only if the edit is refused or changes no address, or the new uuid is its own, or no other host has it |
| Polling.EditStores | app/backend/nvcomputer.cpp:78-88 | a bookmark that moves is the same host object under the uuid of its new address, at that address and bound to no server |
| Polling.EditChangesExactly | app/backend/computermanager.cpp:1053-1093 | an edit changes anything if and only if it is of a bookmark and no host, itself included, is at the address |
| Polling.EditedBookmarkForgets | app/backend/nvcomputer.cpp:78-88 | from any state and through any actions elsewhere, a moved bookmark stands for no server that answers, until the first answer that reaches it; from then on it stands for that one alone |
| Polling.KnownServerFirst | app/backend/computermanager.cpp:1282-1294 | the answer of a server known under its own uuid is folded into that host alone, any other answer only into a bookmark bound to it or at its address |
| Polling.AddStores | app/backend/nvcomputer.cpp:45-68 | a bookmark added by hand is one more host, at its address and bound to no server |
| Polling.AddChangesExactly | app/backend/computermanager.cpp:962-984 | adding by hand adds if and only if no known host is at the address |
| Polling.ServerTakesAddress | app/backend/computermanager.cpp:1280-1337 | a server found at an address keeps it: a bookmark added there changes nothing, and one for any other address is as free as before |
| Polling.FoldTakesAddress | app/backend/computermanager.cpp:1280-1337 | so does a server's answer folded into a known host; one without an address leaves the host's own |
| Polling.StepCarries | app/backend/computermanager.h:136-207 | threads running or awaited stay with their entry, and move with it, through every action but a deletion and an edit onto the entry |
| Polling.TakenUuidReached | app/backend/computermanager.cpp:1066-1075 | a run from no hosts at all in which an edit passes the address check although its uuid is taken; after the last stop a thread still runs |
| Polling.StaleUuidReached | app/backend/computermanager.cpp:964-984 | the same for adding, after which the new host is not polled and the old one is not known |
| Polling.ComputerManager.StartPollingAll | app/backend/computermanager.cpp:457-489 | the loop over known hosts starts each once |
| Polling.ComputerManager.StopPollingAsync | app/backend/computermanager.cpp:851-876 | the last stop interrupts every entry |
| Polling.ComputerManager.Add | app/backend/computermanager.cpp:962-984 | the scan for the address, and the assignment when nobody has it |
| Polling.ComputerManager.AddFound | app/backend/computermanager.cpp:1329-1334 | a server no known host stands for is added and polled |
| Polling.ComputerManager.Delete | app/backend/computermanager.cpp:598-618 | host and entry leave together and the entry's thread is stopped |
| Polling.ComputerManager.Edit | app/backend/computermanager.cpp:1053-1093 | the refusals, and the entry that moves with its host, interrupted and started again; what is then stored of the host is `Polling.EditStores` |

## Left out

- BitCodes.UeLaw: values above 65534, where the shift in `bs_write_u` is undefined; the domain is a precondition.
- BitCodes.SeLaw: likewise outside -32767..32767. The sum in the reader at code number 2^31 - 1, an overflow in C, is modelled as wrapping.
- SpsCodec.H264Stream.WriteSeqParameterSet: assumes the fields sent are in the range of their codes, as the shifts of the writer demand.
- SpsCodec.H264Stream.ReadSeqParameterSet: groups of fields of the C structures are values held in the fields of one class; the three parallel CPB tables are one table of rows and the 4x4 and 8x8 scaling lists one table of twelve. Aliasing between structures is not captured.
- SpsFixup.WriteBuffer: assumes that the received set, once changed, can be coded: no code number above 65534 and no negative cycle count. Both can be received, and the writer's shift or loop is then undefined in C.
- SpsFixup.ShortSetsFit: a sufficient size. Whether a payload of 30 bytes or more fits depends on its bytes, by the condition of `SpsFixup.WriteBuffer`; that there are ones of 30 to 60 bytes that do not is not shown.
- NalUnit.WriteNalUnit: other NAL unit types than a sequence parameter set fail, as in the code; buffers are given, not allocated.
- MasterHook.Ownership: hooks one at a time and kernel calls successful, Qt's descriptor not closed by a hook; the code has no recovery when reopening after a master drop fails.
- MasterHook.Hooks.Close: saving and restoring the CRTC state, the disable switch, `dlsym` and `fstat` are not modelled; whether a path is Qt's card is an input.
- MasterLocks.NoDeadlock: the locks of the real driver and of libc are not modelled.
- MasterLocks.ProgramsConsistent: the real open and close, dup, and taking, dropping and asking for master are assumed not to enter a hook; the open hook makes such calls under the table lock, which is not recursive.
- Modes.NumberReads: blanks around a number, which the code's integer parser also accepts; both callers compare with the printed or the qualified text, so such text is refused anyway.
- Topology.FromJson: JSON as text, infinities and rounding; numbers outside `int` are refused, where the C++ conversion is undefined. Overflowing sums are modelled as wrapping.
- MacDisplays.ResolveMacClientDisplayMode: display coordinates are unbounded integers.
- HostStore.CrashSafeExactly: the settings file's own format and syncing; each store call is one step.
- HostStore.CrashAt: attributes of a host are one value, so a crash inside one host's entry counts as before or after it; the array has no size then in either case.
- HostFlusher.SavedIsFlushed: the destructor's wake-up, which signals without holding the mutex; that the thread is scheduled at all.
- HostSaves.SavedHostKept: the moment between saveHost's comparison and its request, in which the flusher can only flush more than is modelled.
- Polling.TakenUuidReached: the digest in a bookmark's uuid is taken as injective and apart from servers' uuids.
- Polling.ComputerManager.Delete: deletion of a host object that is in the map no more, which a stale list in the user interface might ask for; the entry is destroyed in the same step.
- Polling.ComputerManager.Edit: editing a host object that is in the map no more, which the same stale list might ask for.
- Polling.ComputerManager.AddFound: the earlier lookup under the read lock, after which another thread may add the host; the lookup under the write lock is modelled.
- Polling.PollingFollowsCount: reaping and awaiting of interrupted threads, and the mDNS browser.
- `resolveClientDisplayLayout`: a sort of at most two displays and the checks that `MacDisplays` also has.
- HTTP, TLS and XML, sockets, discovery, relay wake, authentication, logging, the user interface, command-line parsing and the window-system probes.
