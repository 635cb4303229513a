# Verified models of a Sega Saturn static recompiler's runner

The runner carries out, on the host, what a Saturn's hardware did: it schedules two
processors line by line, streams sectors off a disc image, plays CD audio and
sampled sound, runs a 68000, draws, and smooths what it draws between frames. This
project models the parts of it whose correctness no finite number of runs can
settle, and proves what they are for. Nothing of the runner is executed.

Each part is modelled in the form its source has. Code that updates fields or arrays
is a class or a method with loops, proved against a specification function on its
abstract state (`Model()`); what the source promises is then proved about that
function, for every input, every run or every reachable state.

- **Geometry** (`Geometry*.dfy`). A linear motion of a quad is accepted if and only
  if every instant of it is safe, a statement over all real times decided by the
  minima of a few quadratics. Hash-bucket matching equals exhaustive matching and is
  one to one. The weld (union-find with path halving, a run scan over sorted edges,
  a sweep with an early break) does what a declarative reference over contacts
  says: each connected surface is put back or kept as a whole, no shared edge opens,
  nor a touching one whose ends come in the same order, the audit tool's exit test
  always passes, and a second weld changes nothing. What a viewer sees of it is proved of corners alone: which faces go back,
  and which corners stay together, whichever way round the faces are given.
- **CD block** (`Cd*.dfy`). The bounded selector walk equals the endless one. The
  24 partitions, kept in parallel arrays, refine sequences of disc sectors under any
  interleaving of drive ticks and host commands, and no sector of a play comes in
  before its time. CD audio passes through a byte ring with back-pressure exactly
  once and in order, repeats included, with the tick of every sector in regular
  operation and the exact condition under which sectors keep the distance they should.
- **Settings file** (`Settings*.dfy`). Saving into any text and loading gives the
  normalized settings; foreign lines survive; every key ends on one line; saving is
  idempotent and the last save wins. Settings in their ranges come back as they were,
  and the names and lines of a file are spelled out.
- **68000** (`M68k*.dfy`). ADDX, SUBX, ABCD and SBCD chains are exact at any width,
  the decimal ones also on numbers in memory, and the sixteen branch conditions
  compare the whole numbers. Interrupts, exceptions and RTE nest transparently in
  both privilege modes, and each handler starts where its vector says, shielded from
  its own level. MOVEM round-trips, the address register included.
- **Scheduler, timers, divider** (`Bus*.dfy`). Field timing does not depend on the
  slice size; the free-running timer's fast path is its tick loop, with the exact
  condition under which slicing cannot be observed; division is exact unless it
  overflows, and the two division units agree except in one exact case.
- **Sound slot** (`SoundSlot.dfy`). The 16-bit one's-complement counter plays the
  loop it should, in all four modes.
- **PNG writer** (`Png*.dfy`). The table-driven CRC is the bitwise one, and a reader
  written from the format's documents gets the picture back.
- **Disc layout** (`DiscLayout.dfy`). Disc addresses and stored sectors of a
  multi-file image correspond one to one; for one file, the exact conditions under
  which they do.

`dafny verify dfyconfig.toml` checks the whole project.

## Where the code is not what it is meant to be

- The comment at `runner/include/geometry_interp.h:248-250` says that faces one
  coordinate apart keep that adjacency. The ends of an edge are put in order face by
  face (203-205), so a boundary a pixel from upright can run one way for one face and
  the other way for its neighbour; such sides are not compared, and the boundary can
  open: by six units in `GeometryTilt.TiltedBoundaryOpens`. `GeometryCorners.NearEdgesCount`
  says exactly which near sides count, `NearCornersStay` what holds of those.
- A play by frame address takes a frame below 150 for a block number and starts 150
  frames further on (`runner/src/cdblock.c:1213-1215`, `CdBlock.FramePlayStands`).
- The comment at `runner/src/cdblock.c:562-563` says an audio sector is handed over
  once per 1/75 s. The tick that does it runs once a field (`runner/src/bus.c:2192-2195`),
  which is longer than a sector time, so the drive falls behind and catches up:
  whatever is mixed in between, the fifth tick of a play from an empty queue hands
  over two sectors at once, given six sectors in its range with audio on each
  (`CdFields.SectorsBunchUp`). `CdFields.FieldSchedule` has the tick of every sector in
  such operation; in general `CdPace.TickCount` says exactly when a tick sends one
  sector and `CdPace.SpacedIff` exactly when a run keeps the distance. What every run
  keeps is `CdPace.AudioWindows` and `CdAudio.AudioNeverEarly`.
- The drive clock of the data side stands still between plays, so the first tick of
  the next play can bring in sixteen sectors at once (`CdDrivePace.IdleDriveBursts`),
  where `runner/src/cdblock.c:483` says one per drive period; `CdDrivePace.DataTickCount`
  says exactly how many a tick brings in, `CdDrivePace.DataSpacedIff` exactly when a
  run keeps the distance.
- For one file whose pregaps are not stored, the lookup compares disc addresses with
  file positions: later sectors can be read from the wrong place
  (`DiscLayout.SingleFileExact` has the condition), and an address inside a pregap
  reads a sector of an earlier track unless the pregaps so far exceed it
  (`DiscLayout.SingleFilePregap`); `SingleFileFolds` has one of each. The comment at
  `recompiler/src/disc.c:423-424` calls this case known good.
- With CCLRA set, the free-running timer loses the phase of its prescaler at a
  compare match, so slicing a span can change it (`BusSlices.ClearLosesPhase`); the
  exact condition is `BusSlices.AdvanceAddsIff`.
- The selector reset with flag 0x20, part of the reset the BIOS makes, disconnects the
  drive, and the next tick of a data play looks up a partition that does not exist
  (`CdStream.DisconnectedPlayIsUnsafe`); `CdStream.SafeExactly` says which runs avoid it.
- A setting with only white space behind its `=` is read as 0, so that a file with
  carriage returns sets what it leaves empty (`SettingsText.BlankReadsZero`), with a C
  library whose `strtol` reports no error where it finds no number.
- Dividing a non-negative 32-bit number by zero with the overflow interrupt enabled
  fills one low bit of the quotient where the 64-bit unit fills three; that is the
  only disagreement (`BusDivider.UnitsAgree`).
- A picture whose data stream does not fit a chunk's 32-bit length is written cut
  short, before its final block, and does not decode (`PngFormat.PngRoundTrip`, with
  one such picture in `TallPictureIsUnreadable`).
- A sound slot that loops over the one sample at address 0 plays the next one instead
  (`SoundSlot.LoneFirstSample`), and one whose loop ends at 0xFFFF never comes to its
  end, except backwards (`SoundSlot.LastAddressNeverLoops`). `SoundSlot.CounterPlaysTheLoop`
  holds of the segments without these two ends.

## Model

| member | source | states |
|---|---|---|
| `GeometryMotion.QuadraticMinDecides` | runner/include/geometry_interp.h:50-58 | the computed minimum of a quadratic is at least a bound exactly when the quadratic is, at every instant of [0, 1] |
| `GeometryMotion.EdgeMinDecides` | runner/include/geometry_interp.h:94-97 | the edge test holds exactly when the squared length of the moving edge is at least 1e-6 at every instant |
| `GeometryMotion.TurnMinDecides` | runner/include/geometry_interp.h:59-67 | the corner test holds exactly when the moving corner never turns the wrong way by more than 1e-6 |
| `GeometryMotion.AreaMinDecides` | runner/include/geometry_interp.h:83-92 | the area test holds exactly when the signed area of the moving quad stays at least 1e-6 |
| `GeometryMotion.QuadsValidDecidesMotion` | runner/include/geometry_interp.h:68-103 | a pair is accepted if and only if it keeps its coincident corners and the quad is safe, with one orientation, at every instant of the motion |
| `GeometryMotion.QuadsValidMeans` | runner/include/geometry_interp.h:68-103 | the same corner by corner: the same corners stand together at both ends, at least three sides have a length, and at every instant the area, every such side and every turn keep their bounds |
| `GeometryMotion.NativeAreaIsArea` | runner/include/geometry_interp.h:29-33 | the integer area is that of the face |
| `GeometryMotion.SameMeans` | runner/include/geometry_interp.h:34-40 | two faces are the same exactly when both may be matched, they differ in nothing compared but their place, and their areas have one sign |
| `GeometryOps.MatchingIsSymmetric` | runner/include/geometry_interp.h:34-45 | identity and distance do not depend on which frame is asked |
| `GeometryOps.DistanceIsZero` | runner/include/geometry_interp.h:41-45 | the distance is zero exactly for equal positions |
| `GeometryOps.DistanceMoves` | runner/include/geometry_interp.h:41-45 | moving any one of the eight coordinates changes it by the squares of that coordinate alone |
| `GeometryMatch.GeometryNearest` | runner/include/geometry_interp.h:104-114 | the exhaustive search returns the unique clear nearest candidate, or none |
| `GeometryMatch.SummaryDecides` | runner/include/geometry_interp.h:124-132 | a choice that has considered every candidate, in any order, picks what the exhaustive search picks |
| `GeometryMatch.FillBuckets` | runner/include/geometry_interp.h:144-150 | each bucket chain links exactly the eligible operations of that bucket, latest first, whatever the hash |
| `GeometryMatch.WalkBucket` | runner/include/geometry_interp.h:151-159 | walking one chain considers every operation that could match, for both directions of the choice |
| `GeometryMatch.MatchIsOneToOne` | runner/include/geometry_interp.h:161-166 | no current face has two accepted partners and no previous face serves twice |
| `GeometryMatch.Interpolate` | runner/include/geometry_interp.h:133-175 | every output face is the blend of its one accepted partner, or the untouched current face; the result counts the blended ones; with and without the scratch memory |
| `GeometryMatch.BlendedFaceIsSafe` | runner/include/geometry_interp.h:161-173 | a blended face is a safe instant of the motion, turned like the current face, with its coincident corners together |
| `GeometryUnion.ConnectedIffPath` | runner/include/geometry_interp.h:176-179 | two faces belong to one surface exactly when a path of contacts joins them |
| `GeometryUnion.Root` | runner/include/geometry_interp.h:187-189 | climbing with path halving ends, at the root of the face, and changes no root |
| `GeometryUnion.Join` | runner/include/geometry_interp.h:190-192 | joining two faces makes their surfaces one and leaves every other surface alone |
| `GeometryEdges.RecordedEdges` | runner/include/geometry_interp.h:193-207 | the list holds each edge of each admitted face once, its ends in order |
| `GeometryEdges.SortEdges` | runner/include/geometry_interp.h:208-209 | the list is sorted and lists the same edges |
| `GeometryWeld.RunDecides` | runner/include/geometry_interp.h:236-247 | the one test made for a run of equal edges decides for each of them whether it is ambiguous |
| `GeometryWeld.HoldShared` | runner/include/geometry_interp.h:236-247 | a pass joins all faces of each shared edge and holds those of every ambiguous one, and no others |
| `GeometryWeld.BreakSkipsNothing` | runner/include/geometry_interp.h:251-252 | once the first coordinate is more than one apart no later edge can be adjacent |
| `GeometryWeld.SweepAdjacent` | runner/include/geometry_interp.h:248-268 | the sweep with its early break finds exactly the adjacent pairs an all-pairs scan finds |
| `GeometryWeld.SpreadHeld` | runner/include/geometry_interp.h:284-284 | a root is held exactly when some face of its surface is |
| `GeometryWeld.Weld` | runner/include/geometry_interp.h:221-295 | each face ends as the reference weld says: put back when its surface holds a held face, else kept with its verified seams; the result counts the corners that moved |
| `GeometryAudit.SharedEdgesStayTogether` | runner/include/geometry_interp.h:236-247 | two faces that share a current edge are drawn with it within 0.01 |
| `GeometryAudit.NoCrackAlongTouchingEdges` | runner/include/geometry_interp.h:248-268 | two edges of different faces within one unit in all coordinates end within 1.01 |
| `GeometryAudit.RevertsIffFrozen` | runner/include/geometry_interp.h:284-292 | a face is put back exactly when some face of its surface is held, and is otherwise wholly in its old place |
| `GeometryAudit.SurfaceMovesAsOne` | runner/include/geometry_interp.h:176-179 | connected faces are put back together or not at all |
| `GeometryCorners.MeetingCornersStay` | runner/include/geometry_interp.h:193-247 | from the corners alone: where two neighbouring corners of a face stand where two of another stand, in either order, they are drawn there within 0.01 |
| `GeometryCorners.NearCornersStay` | runner/include/geometry_interp.h:248-268 | two sides within one unit are drawn within 1.01, provided their ends come in the same order |
| `GeometryCorners.NearEdgesCount` | runner/include/geometry_interp.h:203-205 | and are taken for neighbours at all exactly when they do, or are near crosswise too |
| `GeometryTilt.TiltedBoundaryOpens` | runner/include/geometry_interp.h:248-268 | otherwise such a boundary can open: of two convex faces side by side, one a pixel from upright, neither is held and they are drawn six units apart |
| `GeometryReverts.RevertsIffReached` | runner/include/geometry_interp.h:176-292 | from the corners alone: a face goes back to what was submitted exactly when a chain of touching faces leads to one that has no safe motion or would come apart from a side it belongs to |
| `GeometryReverts.SeamsAre` | runner/include/geometry_interp.h:260-267 | the seams of a moving face are its sides beside another face's that are drawn beside it |
| `GeometryReverts.ChangedIsPutBack` | runner/include/geometry_interp.h:287-289 | the result counts the corners that are put back somewhere else |
| `GeometryAudit.WeldPassesAudit` | tools/audit_geometry_history.c:37-77 | after every weld the audit counts no crack, no deformed face, no reversed winding and no unsafe path |
| `GeometryCorners.CracksAreCorners` | tools/audit_geometry_history.c:37-77 | for any shape, the audit counts no crack exactly when all corners that meet as submitted are drawn together |
| `GeometrySettled.WeldIsIdempotent` | runner/include/geometry_interp.h:221-295 | welding a welded frame changes nothing |
| `CdSelector.RouteSector` | runner/src/cdblock.c:801-818 | the bounded walk from the connection |
| `CdSelector.FirstPassIsEarly` | runner/src/cdblock.c:797-800 | on the endless walk, cyclic or not, the first filter that passes is met within 24 hops |
| `CdSelector.RouteIsComplete` | runner/src/cdblock.c:797-818 | 24 hops deliver exactly what following the fail outputs for ever delivers |
| `CdSelector.FirstPassIsUnique` | runner/src/cdblock.c:801-818 | the delivering filter is determined |
| `CdSelector.ResetDeliversToOwnPartition` | runner/src/cdblock.c:756-773 | an unconfigured selector delivers every sector to the partition of its connection |
| `CdSelector.ResetModePassesAll` | runner/src/cdblock.c:1445-1463 | a mode reset lets every sector pass and leaves the wiring |
| `CdSelector.RangeModeSelectsRange` | runner/src/cdblock.c:1412-1420 | a range filter passes exactly its range; its 24-bit fields cannot wrap |
| `CdSelector.FullResetIsPowerOn` | runner/src/cdblock.c:2115-2135 | a reset with every flag restores the power-on filters; the drive's connection it takes away, so that nothing is delivered, where at power-on everything goes to partition 0 |
| `CdSelector.FileCondition` | runner/src/cdblock.c:784-784 | mode bit 0 alone passes exactly the sectors of the file |
| `CdSelector.ChannelCondition` | runner/src/cdblock.c:785-785 | bit 1 those of the channel |
| `CdSelector.SubmodeCondition` | runner/src/cdblock.c:786-787 | bit 2 those whose masked submode has the value |
| `CdSelector.CodingCondition` | runner/src/cdblock.c:788-789 | bit 3 likewise for the coding information |
| `CdSelector.ConditionsCombine` | runner/src/cdblock.c:784-789 | several bits pass what each of them passes |
| `CdSelector.InverseFails` | runner/src/cdblock.c:790-790 | bit 4 passes exactly what they do not |
| `CdSelector.ConditionsStored` | runner/src/cdblock.c:1422-1443 | command 0x42 takes channel, masks, file and values from the bytes of its words |
| `CdSelector.ModeStored` | runner/src/cdblock.c:1445-1463 | command 0x44 keeps mode bits 0 to 4 and 6 |
| `CdSelector.OutputsAreSet` | runner/src/cdblock.c:1465-1479 | command 0x46 sets the outputs its two bits name |
| `CdSelector.ResetByFlag` | runner/src/cdblock.c:2104-2135 | what each flag of the reset does to a filter |
| `CdStream.PlayStreamsInOrder` | runner/src/cdblock.c:473-553 | from a PlayDisc on, under any interleaving of ticks, transfers, deletions, discards and selector changes in which no tick finds a data play disconnected: every frame address from the start to the head came in once and in order and went where the selector in force said, nothing past the end; each partition holds in order what it was given less what was taken, nothing lost or doubled |
| `CdStream.SteadyPlayRoutesAsSet` | runner/src/cdblock.c:535-549 | unless the host reprograms the selector, every sector of a play went where the selector of its start says |
| `CdStream.ReprogrammedPlayRoutes` | runner/src/cdblock.c:535-549 | a selector programmed in the middle of a play routes every sector from then on |
| `CdStream.SliceIs` | runner/src/cdblock.c:1519-1530 | a command takes its slice from its offset, as far as the partition goes |
| `CdStream.DeletedLeaves` | runner/src/cdblock.c:1614-1629 | a deletion takes that slice out, closes the gap and leaves the rest alone |
| `CdStream.ConnectedIsSafe` | runner/src/cdblock.c:473-475 | while the host names a filter whenever it programs the connection, no tick finds a data play disconnected |
| `CdStream.DisconnectedPlayIsUnsafe` | runner/src/cdblock.c:2123-2127 | after a full selector reset the first tick of a data play looks up a partition that does not exist; naming one in between prevents it |
| `CdStream.SafeExactly` | runner/src/cdblock.c:473-475 | for every run: no tick looks up a partition that does not exist if and only if the last connection programmed before each tick of a data play that is still on names one |
| `CdStream.TokensAreDue` | runner/src/cdblock.c:483-492 | at most 16 sectors a tick, exactly those whose drive period has come |
| `CdStream.DataNeverEarly` | runner/src/cdblock.c:477-493 | however the ticks are spaced and whatever the host does, the k-th sector of a data play never comes in before k drive periods from its first, or from the time an earlier play has left |
| `CdDrivePace.DataTickCount` | runner/src/cdblock.c:483-549 | a tick brings in k sectors or more exactly when the k-th is due by the drive clock, k is at most 16, and neither the range nor room nor a bad sector stops the first k |
| `CdDrivePace.IdleDriveBursts` | runner/src/cdblock.c:485-492 | the drive clock stands still between plays: fifteen periods after it was last due the first tick of a new play brings in sixteen sectors at one machine time |
| `CdDrivePace.DataSpacedIff` | runner/src/cdblock.c:477-493 | for every run: its sectors are a drive period apart if and only if each tick brings in none, or one only and a period after the last |
| `CdStream.DeleteKeeps` | runner/src/cdblock.c:1607-1632 | a deletion takes a slice and keeps all of that |
| `CdBlock.CdDrive.constructor` | runner/src/cdblock.c:764-773 | empty partitions, a reset selector |
| `CdBlock.CdDrive.Store` | runner/src/cdblock.c:545-548 | a stored sector goes to the end of its partition, in all four parallel arrays |
| `CdBlock.CdDrive.Remove` | runner/src/cdblock.c:1618-1629 | the two moves cut the same slice out of the data and the address array, so every slot still holds the disc sector it names |
| `CdBlock.CdDrive.StreamSector` | runner/src/cdblock.c:497-549 | one round of the streaming loop refines one step of the stream |
| `CdBlock.CdDrive.CountDue` | runner/src/cdblock.c:483-492 | the loop over the drive clock counts the sectors due and moves the clock past them |
| `CdBlock.CdDrive.Tick` | runner/src/cdblock.c:473-553 | a tick streams the sectors due; CSCT rises exactly when there are any, PEND exactly when the commanded range has run out |
| `CdBlock.CdDrive.Resume` | runner/src/cdblock.c:1145-1168 | the all-ones command carries on with the range if it has not run out |
| `CdBlock.TrackPlayIsTheTrack` | runner/src/cdblock.c:1194-1216 | a play by track number starts at the track's first sector, never runs into a later track, and ends where the next one starts, or after 0xFFFFFF sectors when there is none |
| `CdBlock.FramePlayStands` | runner/src/cdblock.c:1194-1216 | a play by frame address, with numbers: the head stands at the frame and the play ends that many frames on; one of a frame below 150 starts 150 too far on |
| `CdBlock.UnknownTrackStands` | runner/src/cdblock.c:1211-1213 | a track number the disc does not have is taken for a frame address |
| `CdBlock.FramePlayStreams` | runner/src/cdblock.c:473-553 | the frames that come in from it under any run: consecutive from the first, no more than asked for, and all of them unless the play is still on or a sector is bad |
| `CdBlock.CdDrive.PlayDisc` | runner/src/cdblock.c:1159-1284 | the range of a play in the frame address, track and all-ones forms, and whether the head streams data or audio |
| `CdBlock.CdDrive.GetSectorData` | runner/src/cdblock.c:1508-1545 | the transfer buffer holds the disc bytes of the named slice, clamped to what is there |
| `CdBlock.CdDrive.DeleteSectorData` | runner/src/cdblock.c:1607-1632 | the named slice is deleted, clamped to what is there |
| `CdBlock.CdDrive.GetThenDelete` | runner/src/cdblock.c:1508-1605 | what is handed over is what is then deleted |
| `CdBlock.CdDrive.SetFilterRange` | runner/src/cdblock.c:1412-1420 | command 0x40 sets one filter's range and no other filter |
| `CdBlock.CdDrive.SetFilterConditions` | runner/src/cdblock.c:1422-1443 | command 0x42 likewise its subheader conditions |
| `CdBlock.CdDrive.SetFilterMode` | runner/src/cdblock.c:1445-1463 | command 0x44 likewise its mode, resetting its conditions on request |
| `CdBlock.CdDrive.SetFilterConnection` | runner/src/cdblock.c:1465-1479 | command 0x46 likewise its outputs, each on request |
| `CdBlock.CdDrive.SetDeviceConnection` | runner/src/cdblock.c:2067-2079 | command 0x30 names the filter the drive feeds, the first if there is no such filter |
| `CdBlock.CdDrive.ResetSelector` | runner/src/cdblock.c:2081-2142 | command 0x48 empties one partition, or what its flags say, loses nothing unaccounted, and disconnects the drive when asked |
| `CdBlock.CdDrive.ReadDtr` | runner/src/cdblock.c:648-677 | one word of the transfer, zero when it is dry, EHST as its last word leaves |
| `CdBlock.HostReadsDiscSectors` | runner/src/cdblock.c:648-677 | reading the register word by word gives the bytes of the named disc sectors in order |
| `CdBlock.HostReadsZeros` | runner/src/cdblock.c:658-669 | and then zeros |
| `CdPlayback.SoundRing.PushSector` | runner/src/scsp.c:592-634 | the ring takes the sector behind the waiting bytes or refuses it whole, and says which |
| `CdPlayback.SoundRing.TakeFrame` | runner/src/scsp.c:661-673 | the oldest waiting frame leaves the ring, or nothing and the ring waits to fill again |
| `CdPlayback.AudioDrive.Play` | runner/src/cdblock.c:1239-1268 | an audio play is set up with its range and repeat count |
| `CdPlayback.AudioDrive.FeedSector` | runner/src/cdblock.c:596-646 | one round of the feeding loop: repeat, end, refusal or acceptance |
| `CdPlayback.AudioDrive.TickAudio` | runner/src/cdblock.c:572-648 | the tick refines the feeding machine; PEND rises exactly when the play stops |
| `CdPlayback.AudioDrive.MixFrame` | runner/src/scsp.c:661-673 | one output sample of the mixer |
| `CdAudio.Push` | runner/src/scsp.c:592-634 | the fill level is 3 exactly when the sector was refused, and then neither the bytes nor the ready latch changed |
| `CdAudio.AudioPlaysInOrder` | runner/src/cdblock.c:572-648 | for any play from a stopped drive under any interleaving of ticks and samples: the k-th sector sent is the k-th of the range played over and over, at most repeat + 1 times; what was heard and what still waits is exactly what waited before and the sectors sent |
| `CdAudio.SinglePlay` | runner/src/cdblock.c:572-648 | without repeats: each sector once, the frames heard are a prefix, and heard plus held is 588 a sector |
| `CdAudio.SilentUntilPrimed` | runner/src/scsp.c:629-632 | a queue that is not ready is silent until four sectors wait in it |
| `CdAudio.UnderrunPauses` | runner/src/scsp.c:661-673 | and so is one that has run empty |
| `CdAudio.FramesAreSamples` | runner/src/scsp.c:662-667 | the frames heard are the signed samples of the sector, low byte first, left before right |
| `CdAudio.AudioNeverEarly` | runner/src/cdblock.c:585-591 | while the clock runs, the k-th sector is never sent before k sector times after the first tick |
| `CdPace.TickCount` | runner/src/cdblock.c:585-646 | while the clock runs, a tick sends a sector exactly when one is due, there is a next one and the queue has room; it sends just one exactly when the following one is not due yet, the queue is two thirds full, or there is no following sector |
| `CdPace.FullQueueWaits` | runner/src/cdblock.c:632-641 | a tick that finds the queue full changes nothing and puts the drive off by one sector time |
| `CdPace.SpacedIff` | runner/src/cdblock.c:562-573 | for every run with the clock running: its sectors are a sector time apart if and only if each tick sends nothing, or is stopped after one sector and comes a sector time after the last |
| `CdPace.AudioWindows` | runner/src/cdblock.c:585-643 | for every play while the clock runs: no sector goes out before it is due, nor sector k before k - j sector times after sector j was due |
| `CdFields.FieldSchedule` | runner/src/cdblock.c:572-648 | ticked once a field, a play from an empty queue has sent exactly the sectors whose time has come, sector k by the first tick at or after its time, for any number of fields while the samples mixed keep the queue below high water and the range and its audio last |
| `CdFields.SteadyMixing` | runner/src/cdblock.c:585-646 | 738 samples mixed a field keep the queue below high water for ever |
| `CdFields.FourFieldsSpaced` | runner/src/cdblock.c:562-573 | such a play keeps its sectors a sector time apart if and only if it has run for four fields at most |
| `CdFields.SectorsBunchUp` | runner/src/cdblock.c:562-573 | with any number of samples mixed after each tick, the fifth tick of a play from an empty queue hands over two sectors at one machine time, given six sectors in the range with audio on each |
| `SettingsText.LinesOfJoin` | runner/src/runtime_settings.c:150-164 | writing lines with their newlines and scanning them gives the lines back |
| `SettingsText.DecimalReadsBack` | runner/src/runtime_settings.c:107-115 | a written number reads back as itself |
| `SettingsText.BlankReadsZero` | runner/src/runtime_settings.c:107-111 | a value of nothing but white space, before a comment or not, is read as 0; only an empty one is not read |
| `SettingsText.NumberReads` | runner/src/runtime_settings.c:107-115 | white space, a sign, digits, white space and a comment read as that number if an int can hold it |
| `SettingsRoundTrip.KeyLineMeans` | runner/src/runtime_settings.c:123-127 | a written key line sets that key in its section |
| `SettingsRoundTrip.BlankValueSetsZero` | runner/src/runtime_settings.c:104-115 | a known key with white space behind it, a carriage return included, is set to 0 |
| `SettingsRoundTrip.SaveThenLoad` | runner/src/runtime_settings.c:96-170 | for every text and every settings value, loading what was saved gives the normalized settings |
| `SettingsRoundTrip.ValidSettingsComeBack` | runner/src/runtime_settings.c:96-170 | settings in their ranges come back as they were |
| `SettingsRoundTrip.SettingsComeBack` | runner/src/runtime_settings.c:32-42 | any others come back field by field as the nearest value in range, a truth value as 0 exactly for 0 |
| `SettingsStable.SaveOverSave` | runner/src/runtime_settings.c:136-170 | the last save wins and leaves no trace of an earlier one |
| `SettingsStable.SavingAgainChangesNothing` | runner/src/runtime_settings.c:136-170 | saving twice is saving once |
| `SettingsStable.OtherLinesSurvive` | runner/src/runtime_settings.c:149-170 | lines that set no known key survive byte for byte and in order; only missing section headers are added |
| `SettingsStable.EachKeyOnce` | runner/src/runtime_settings.c:149-170 | each known key ends on exactly one line of its section, whatever was there before |
| `SettingsMeaning.FreshFile` | runner/src/runtime_settings.c:166-170 | an empty file becomes the two sections with the eleven names in order, interpolation holding the rate or 0 |
| `SettingsMeaning.EmptyLoads` | runner/src/runtime_settings.c:28-31 | an empty file loads the eleven defaults |
| `SettingsMeaning.TypedKey` | runner/src/runtime_settings.c:49-68 | a key of the section being read, in either case and with white space around it, has what follows the equals sign as its value |
| `SettingsMeaning.TypedHeader` | runner/src/runtime_settings.c:53-60 | a header in either case opens its section, any other name closes the one open |
| `SettingsMeaning.SilentLine` | runner/src/runtime_settings.c:52-52 | blank lines and comments say nothing |
| `SettingsMeaning.BomIsSkipped` | runner/src/runtime_settings.c:50-50 | nor does a byte order mark |
| `SettingsMeaning.ValueLoads` | runner/src/runtime_settings.c:104-117 | what a number behind a key sets, and that anything else sets nothing |
| `SettingsMeaning.OldRateLoads` | runner/src/runtime_settings.c:114-120 | an interpolation rate of an old file becomes the target rate |
| `SettingsMeaning.NewRateLoads` | runner/src/runtime_settings.c:114-120 | unless a target rate was given before, here 75 |
| `SettingsCode.ScanLine` | runner/src/runtime_settings.c:49-68 | the scan of a line finds its key, its section and its value |
| `SettingsCode.LoadSettings` | runner/src/runtime_settings.c:96-122 | the loop over the text is the loader specified line by line |
| `SettingsCode.FinishSection` | runner/src/runtime_settings.c:128-135 | the keys a section still lacks, in order, and their bits |
| `SettingsCode.WriteLine` | runner/src/runtime_settings.c:152-163 | what becomes of one line of the old text |
| `SettingsCode.SaveSettings` | runner/src/runtime_settings.c:136-170 | the bytes written are those of the rewriter specified on lines |
| `M68kAlu.AddChainExact` | runner/src/m68k.c:996-1018 | ADDX over any number of digits: the exact sum modulo the width, carry, overflow, sticky zero and sign of the whole numbers |
| `M68kAlu.SubChainDifference` | runner/src/m68k.c:996-1018 | SUBX over any number of digits: the exact difference and borrow |
| `M68kAlu.SubChainFlags` | runner/src/m68k.c:208-227 | the flags of the chain are those of one subtraction of the whole numbers |
| `M68kAlu.SubChainCompares` | runner/src/m68k.c:239-261 | after the chain each of the sixteen conditions decides its unsigned or signed comparison of the whole numbers |
| `M68kAlu.CompareDecides` | runner/src/m68k.c:229-261 | compare-and-branch on one operand decides the same questions, X untouched |
| `M68kAlu.PlainSumExact` | runner/src/m68k.c:188-207 | ADD without X: the exact sum, carry, zero, sign and signed overflow |
| `M68kAlu.PlainDifferenceExact` | runner/src/m68k.c:208-227 | SUB without X likewise |
| `M68kAlu.BranchCodes` | runner/src/m68k.c:239-261 | what the condition codes 0 to 9 and 12 to 15 ask after a compare, by number |
| `M68kAlu.SignCodes` | runner/src/m68k.c:239-261 | codes 10 and 11 |
| `M68kAlu.PlaceValue` | runner/src/m68k.c:996-1018 | the digits of a chain count 1, m, m squared |
| `M68kCpu.Cpu.CondTrue` | runner/src/m68k.c:239-261 | the condition a branch code names, on the current flags |
| `M68kDecimal.AbcdIsBase100` | runner/src/m68k.c:1095-1118 | on decimal bytes the ABCD chain is the base-100 chain |
| `M68kDecimal.AbcdChainExact` | runner/src/m68k.c:1095-1118 | ABCD over any number of bytes adds the decimal numbers exactly |
| `M68kDecimal.SbcdChainExact` | runner/src/m68k.c:940-963 | SBCD likewise subtracts them, borrowing exactly when the result is negative |
| `M68kDecimal.AnyBytesAdd` | runner/src/m68k.c:1095-1118 | bytes with digits above 9 are added exactly too while the digits of a place make no more than 25; N and V stay |
| `M68kDecimal.AnyBytesSubtract` | runner/src/m68k.c:940-963 | and subtracted while they make no less than -10 |
| `M68kPacked.DecimalRunIsChain` | runner/src/m68k.c:940-963 | ABCD and SBCD with predecrement, n times over: the chain over the n bytes below the two addresses, both registers n lower, no other byte of memory changed |
| `M68kPacked.MemoryNumbersExact` | runner/src/m68k.c:1095-1118 | so packed decimal numbers in sound RAM are added and subtracted exactly, overlap of the operands included where it spares the source |
| `M68kPacked.RegisterDigitsExact` | runner/src/m68k.c:1095-1118 | the register form works on the low bytes and changes nothing else |
| `M68kCpu.CodedSumIsSum` | runner/src/m68k.c:188-207 | the bit tests on the 64-bit sum are carry, sign and signed overflow |
| `M68kCpu.CodedDifferenceIsDifference` | runner/src/m68k.c:208-227 | the bit tests on the 64-bit difference are borrow, sign and signed overflow |
| `M68kCpu.Cpu.DoAdd` | runner/src/m68k.c:188-207 | result and flags of ADD and ADDX in each size |
| `M68kCpu.Cpu.DoSub` | runner/src/m68k.c:208-227 | result and flags of SUB and SUBX in each size |
| `M68kCpu.Cpu.DoCmp` | runner/src/m68k.c:229-235 | the flags of a subtraction with X kept |
| `M68kCpu.Cpu.Abcd` | runner/src/m68k.c:1095-1118 | decimal add between registers, the upper bytes kept, and in memory with predecrement |
| `M68kCpu.Cpu.Sbcd` | runner/src/m68k.c:940-963 | decimal subtract likewise |
| `M68kState.SrRoundTrip` | runner/src/m68k.c:28-38 | all sixteen bits of the status register survive being pushed and popped |
| `M68kState.StatusBits` | runner/src/m68k.c:28-38 | which bit of the status word is which |
| `M68kState.WriteThenRead` | runner/src/m68k_bus.c:30-77 | a word written to sound RAM reads back, at its address and at every mirror of it |
| `M68kState.WordIsBytes` | runner/src/m68k_bus.c:30-50 | words and long words of sound RAM are their bytes, highest first |
| `M68kState.MemoryMap` | runner/src/m68k_bus.c:14-56 | 512 KB repeat below 0x100000 on a 24-bit bus |
| `M68kState.WordMap` | runner/src/m68k_bus.c:32-77 | words above it read zero and are not written |
| `M68kNest.EntryFrame` | runner/src/m68k.c:270-291 | what entering a handler leaves on its stack, and that nothing else in memory changed |
| `M68kNest.InterruptStarts` | runner/src/m68k.c:311-333 | an accepted interrupt starts the handler whose address stood at four times its vector, or at 4 * (24 + level), with the mask at its level, trace off and in supervisor mode |
| `M68kNest.InterruptWaits` | runner/src/m68k.c:311-318 | any other waits, and a halted machine forgets it |
| `M68kNest.HandlerIsShielded` | runner/src/m68k.c:315-318 | so no handler is interrupted by its level or a lower one, 7 excepted, until the mask is lowered |
| `M68kNest.ExceptionStarts` | runner/src/m68k.c:270-291 | an exception starts the handler at four times its vector and leaves the mask; one inside another halts the machine |
| `M68kNest.UserReturnTraps` | runner/src/m68k.c:792-798 | RTE in user mode starts the handler of vector 8 |
| `M68kNest.ReturnUndoesEntry` | runner/src/m68k.c:792-798 | RTE from an intact frame restores program counter, status and both stack pointers, in either mode |
| `M68kNest.RunKeepsFrames` | runner/src/m68k.c:265-291 | however deep the nesting, the frames below stay intact |
| `M68kNest.NestedHandlerRestores` | runner/src/m68k.c:311-333 | every accepted interrupt or exception of a properly nested run comes back to the context it left |
| `M68kNest.TidyNests` | runner/src/m68k.c:265-333 | code that puts the stacks back and spares the frames nests properly, whatever it does else |
| `M68kNest.NestingIsTransparent` | runner/src/m68k.c:265-333 | interrupts, exceptions and returns nested any way leave the machine where it began |
| `M68kCpu.Cpu.SetSr` | runner/src/m68k.c:28-38 | a mode change swaps the stack pointers |
| `M68kCpu.Cpu.Raise` | runner/src/m68k.c:270-291 | an exception, or the halt of a double fault |
| `M68kCpu.Cpu.CheckIrq` | runner/src/m68k.c:311-333 | an interrupt above the mask, or level 7, is taken |
| `M68kCpu.Cpu.Rte` | runner/src/m68k.c:792-798 | return from exception, or the privilege violation |
| `M68kMovem.MovemRoundTrip` | runner/src/m68k.c:350-391 | storing to -(An) and loading from (An)+ with the list reversed restores every listed register and An itself, listed or not; words come back sign-extended |
| `M68kMovem.MovemBlockRoundTrip` | runner/src/m68k.c:350-391 | storing upwards and loading from the same address restores the list |
| `M68kMovem.MovemPlainRoundTrip` | runner/src/m68k.c:350-391 | the same as the instruction runs it |
| `M68kMovem.MovemLayout` | runner/src/m68k.c:350-391 | the list is kept from the lowest address on, D0 to D7 before A0 to A7, in steps of four or two bytes |
| `M68kMovem.MovemDownLayout` | runner/src/m68k.c:350-391 | storing downwards as well |
| `M68kMovem.WordKeepsItsSign` | runner/src/m68k.c:350-391 | a word comes back as the same signed number |
| `M68kCpu.Cpu.DoMovem` | runner/src/m68k.c:350-391 | the register loops, in every mode |
| `BusField.FullField` | runner/src/bus.c:2122-2228 | a field from the boundary takes exactly 263 lines of 1820 clocks, with its events at their exact clocks |
| `BusField.FieldTimetable` | runner/src/bus.c:2020-2228 | the clock of each of the 266 video events of a field, with numbers |
| `BusField.FieldReachesBoundary` | runner/src/bus.c:2122-2228 | from any line and latch state a field ends, at V-Blank-IN |
| `BusField.EveryFieldOnce` | runner/src/bus.c:2147-2222 | any number of fields: each edge once a field, none twice across a call boundary |
| `BusField.TimersPerField` | runner/src/bus.c:1483-1510 | Timer 0 fires once in a full field exactly when its compare value is at most 263; Timer 1 on every line or, in line mode, once for 1 to 263 |
| `BusField.TimerClocks` | runner/src/bus.c:1483-1510 | and at which clock each fires |
| `BusField.TimersOff` | runner/src/bus.c:1491-1503 | with the timer off nothing fires and the counter stays at 0 |
| `BusField.CounterInStep` | runner/src/bus.c:1491-1507 | one field with the timer on brings the line counter into step |
| `BusField.Timer0EveryField` | runner/src/bus.c:1483-1510 | so once a field for any number of fields |
| `BusScheduler.Machine.constructor` | runner/src/bus.c:2122-2149 | power-on: line 0, nothing raised |
| `BusScheduler.Machine.Slice` | runner/src/bus.c:2043-2057 | a slice never steps over the H-Blank edge or the field change |
| `BusScheduler.Machine.RunLine` | runner/src/bus.c:2020-2120 | for every quantum a line is 1820 clocks with H-Blank at 1456 and, on line 0, the field change at 128 |
| `BusScheduler.Machine.TimerVBlankOut` | runner/src/bus.c:1483-1495 | the line counter is reset and compared |
| `BusScheduler.Machine.TimerHBlank` | runner/src/bus.c:1497-1510 | one line on the counter, and both timers |
| `BusScheduler.Machine.RunField` | runner/src/bus.c:2122-2228 | the field does what the line-by-line field does, for every quantum, unless the master halts |
| `BusTimer.FastPathIsLoop` | runner/src/bus.c:1612-1621 | where the fast path is taken, counting tick by tick gives the same timer |
| `BusTimer.TicksCount` | runner/src/bus.c:1626-1640 | n counts at once: each flag set exactly when its value was reached, overflow when the counter wrapped |
| `BusTimer.CyclesPerCount` | runner/src/bus.c:1568-1578 | the clock bits choose 8, 32 or 128 cycles a count, or none |
| `BusTimer.PendingMeans` | runner/src/bus.c:1559-1566 | an interrupt is pending exactly when a flag is set with its enable bit |
| `BusTimer.AdvanceAdds` | runner/src/bus.c:1598-1641 | with CCLRA clear, two slices equal one span if and only if the 32-bit prescaler wraps in a slice whenever it wraps in the span, or the counts so lost would have set no further flag |
| `BusTimer.SlicesDoNotMatter` | runner/src/bus.c:1598-1641 | the same for any way of cutting the span |
| `BusSlices.ClearLosesPhase` | runner/src/bus.c:1633-1636 | with CCLRA set it can fail: concrete slices |
| `BusSlices.TicksEnd` | runner/src/bus.c:1626-1640 | n counts at once in both modes: where the counter stands, which flags are set and what the prescaler keeps |
| `BusSlices.AdvanceAddsIff` | runner/src/bus.c:1598-1641 | exactly when two slices equal one span, for every pair of lengths in both modes, from the registers before the first |
| `BusTimer.FreeRunningTimer.AdvanceTimer` | runner/src/bus.c:1598-1641 | the method with its fast path is the tick loop |
| `BusDivider.QuotientDivides` | runner/src/bus.c:352-353 | the truncating quotient and remainder divide |
| `BusDivider.DividesUnique` | runner/src/bus.c:352-353 | and are the only pair that does |
| `BusDivider.ExactUnlessOverflow` | runner/src/bus.c:378-424 | OVF exactly when the divisor is zero or the quotient has no place; else quotient and remainder are exact; saturation to the quotient's sign |
| `BusDivider.NoOverflowIsTheQuotient` | runner/src/bus.c:378-424 | the same for whatever pair divides, without naming the operators |
| `BusDivider.UnitsAgree` | runner/src/bus.c:341-424 | the 32-bit unit equals the 64-bit unit on the sign-extended dividend except for zero dividing a non-negative number with the interrupt enabled |
| `BusDivider.OverflowLeavesThreeSteps` | runner/src/bus.c:407-424 | what an overflow leaves, on operands of each sign |
| `BusDivider.DivisionUnit.Calc32` | runner/src/bus.c:341-376 | the seven registers after a 32-bit division |
| `BusDivider.DivisionUnit.Divide` | runner/src/bus.c:386-404 | the special cases together are representability |
| `BusDivider.DivisionUnit.Calc64` | runner/src/bus.c:378-425 | the seven registers after a 64-bit division |
| `SoundSlot.CounterPlaysTheLoop` | runner/src/scsp.c:822-868 | from key-on, after any number of steps, the 16-bit counter fetches exactly the index that is due: off, forward, reverse or alternating |
| `SoundSlot.StepStands` | runner/src/scsp.c:825-867 | one step of the complemented counter is one step of the index |
| `SoundSlot.LoneFirstSample` | runner/src/scsp.c:828-840 | but a loop of the one sample at 0 plays the one at 1 |
| `SoundSlot.LastAddressNeverLoops` | runner/src/scsp.c:842-848 | and a loop that ends at 0xFFFF is never taken, except backwards |
| `SoundSlot.SampleCounter.KeyOn` | runner/src/scsp.c:160-168 | a key-on puts the slot where the loop is played from |
| `SoundSlot.SampleCounter.Step` | runner/src/scsp.c:825-867 | the counter step with its wrap-around |
| `SoundSlot.SampleCounter.AdvancePhase` | runner/src/scsp.c:822-868 | the whole part of the phase is stepped, a stopped slot stays |
| `PngCrc.CrcInit` | runner/src/png.c:16-25 | each table entry is its byte shifted eight times |
| `PngCrc.TableStep` | runner/src/png.c:27-32 | one table step is taking the byte's eight bits one by one |
| `PngCrc.CrcBuffer` | runner/src/png.c:27-32 | the table-driven loop is the bitwise CRC |
| `PngCrc.CrcConcat` | runner/src/png.c:49-50 | a CRC carried from the tag into the data is the CRC of both |
| `PngFormat.KnownCrc` | runner/src/png.c:49-52 | the CRC of one letter |
| `PngFormat.BlocksSize` | runner/src/png.c:88-88 | the allocation formula is the exact size |
| `PngFormat.InflateBlocks` | runner/src/png.c:92-101 | a decoder of RFC 1951 section 3.2.4 returns the bytes from the blocks written |
| `PngFormat.ZlibRoundTrip` | runner/src/png.c:87-102 | a decoder of RFC 1950 accepts the stream, check value included, and returns the scanlines; the buffer is exactly filled |
| `PngFormat.KnownAdler` | runner/src/png.c:82-85 | the Adler-32 of three letters |
| `PngFormat.AdlerWraps` | runner/src/png.c:82-85 | its sums are taken modulo 65521 |
| `PngFormat.ChunkRoundTrip` | runner/src/png.c:40-53 | a reader that checks the CRC gets the tag and the data back |
| `PngFormat.ScanlinesRoundTrip` | runner/src/png.c:72-81 | unfiltering the scanlines gives the colours |
| `PngFormat.HighestFirst` | runner/src/png.c:34-38 | numbers go highest byte first, and a pixel is alpha, red, green, blue from the top |
| `PngFormat.PngRoundTrip` | runner/src/png.c:55-108 | a reader of the file gets the size and the colour of every pixel if and only if the size of the data stream fits the chunk's 32-bit length |
| `PngFormat.TallPictureIsUnreadable` | runner/src/png.c:104-104 | concrete: a picture one pixel wide and 2^30 high does not decode |
| `PngWriter.Filtered` | runner/src/png.c:69-81 | the scanlines of the picture |
| `PngWriter.Checked` | runner/src/png.c:82-85 | the running sums are Adler-32 of RFC 1950 section 8.2 |
| `PngWriter.Compressed` | runner/src/png.c:87-102 | the stream, in a buffer of exactly the size worked out |
| `PngWriter.WriteChunk` | runner/src/png.c:40-53 | a chunk as the format has it |
| `PngWriter.PngWrite` | runner/src/png.c:55-108 | the file, and exactly when it decodes to the picture |
| `DiscLayout.StartsNeverDecrease` | recompiler/src/disc.c:291-325 | track starts never decrease |
| `DiscLayout.TracksFollow` | recompiler/src/disc.c:291-325 | with a file for each track, each starts behind its pregap where the one before it ends |
| `DiscLayout.FileExtent` | recompiler/src/disc.c:291-325 | in general a file takes its sectors, of its first track's size or 2352 bytes, behind the pregap of a sole track |
| `DiscLayout.OneToOne` | recompiler/src/disc.c:406-441 | an address reads a sector exactly when the sector is stored from the first INDEX 01 on and the address is its own |
| `DiscLayout.SeveralFilesExact` | recompiler/src/disc.c:406-471 | so a read of an image of several files |
| `DiscLayout.PregapUnreadable` | recompiler/src/disc.c:312-316 | no address of an unstored pregap can be read |
| `DiscLayout.TrackFor` | recompiler/src/disc.c:406-414 | the latest start not after the address |
| `DiscLayout.SingleFileExact` | recompiler/src/disc.c:434-439 | one file with unstored pregaps: a stored sector is read at its own address exactly when no later track, by its INDEX, starts by then with a pregap |
| `DiscLayout.SingleFilePregap` | recompiler/src/disc.c:406-439 | an address of such a pregap is refused exactly when the pregaps of the tracks starting by it exceed it; otherwise it reads a sector of an earlier track |
| `DiscLayout.SingleFileStored` | recompiler/src/disc.c:432-439 | a file that stores its pregaps is read as it lies |
| `DiscLayout.SoleTrackExact` | recompiler/src/disc.c:312-316 | so is a file of one track, behind its pregap |
| `DiscLayout.SoleFileExact` | recompiler/src/disc.c:406-471 | as a read of such an image |
| `DiscLayout.SingleFileFolds` | recompiler/src/disc.c:406-471 | concrete reads: a sector from the wrong place, and a sector of the first track at a pregap address |
| `DiscLayout.Disc.Layout` | recompiler/src/disc.c:291-325 | the tracks after the running layout, and the total |
| `DiscLayout.Disc.FindTrack` | recompiler/src/disc.c:406-414 | the scan for the track |
| `DiscLayout.Disc.Locate` | recompiler/src/disc.c:406-471 | where a read goes, in an image of one file or of several, with its bounds check |

## Left out

- Launcher, overlay, Vulkan and diagnostics code, `runner/src/boot.c`, environment switches, logging and counters.
- The SH-2 interpreter, VDP1, VDP2, SMPC, the SCSP's DSP, envelopes and LFOs: the scheduler sees the processors as two functions, the registers they leave at each line and when the master halts.
- Geometry: floats are reals, so rounding and comparisons of not-a-number values are not modelled; `qsort` is some sorting; the texture hash and the frame clock at `runner/include/geometry_interp.h:20-28` and `298-306` are not modelled. The material hash is any function of the compared fields.
- `GeometryMatch.Interpolate`: takes native coordinates whose distances times three fit 64 bits, as 16-bit screen coordinates do.
- CD block: 2352-byte transfers and sector-length commands, the selector's read-back commands, SeekDisc and the commands that change the read speed, the synchronous drive, authentication and boot delays, position reports, and the wrap of 32-bit frame addresses.
- `CdBlock.CdDrive.Tick`: takes a data play to be connected; what the source reads past the end of its array of partition sizes is not part of this model.
- `CdStream.PlayStreamsInOrder`: covers the runs up to such a tick, for the same reason.
- `CdBlock.CdDrive.PlayDisc`: the asynchronous drive; data and audio plays are modelled by two classes that each hold the drive fields they use.
- `CdAudio.AudioNeverEarly`: like its companions in `CdPace` and `CdFields`, for a running clock only, as the source paces only then.
- Settings: file access, the temporary file and its renaming, the size limit and the platform's path handling. Characters stand for bytes; a missing file is an empty text.
- 68000: instruction decoding, cycle counts and the other instructions. The SCSP register window is not part of this model: addresses outside sound RAM read zero and ignore writes.
- `M68kDecimal.AbcdChainExact`: on decimal digits, as the instruction is defined; the step itself is modelled for every byte.
- `M68kNest.NestingIsTransparent`: needs every frame to lie in sound RAM and the stack not to run into its own frames.
- Free-running timer: input capture and register access. A span is one that fits the 32-bit argument of the source.
- Division: the register mirror and the cycle the result appears in. Signed shifts and sums that overflow are taken as two's complement.
- Sound slot: pitch, modulation, the fetched sample and changes to the loop registers while a slot plays.
- PNG: file access and failed allocations; pictures of 2^31 pixels and more, which the source's index cannot number.
- Disc layout: parsing the cue sheet, sector-size detection, MP3 tracks, mode detection and the file system. Addresses are unbounded integers; a disc has fewer than a million sectors.
