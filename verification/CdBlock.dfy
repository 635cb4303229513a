// The CD block's data side: 24 partitions kept in parallel arrays, the paced
// streaming loop, the host commands that read, delete and discard sectors, and
// those that program the selector.
module CdBlock {
  import opened CdSelector
  import opened CdStream
  import opened Words

  const ST_PAUSE := 0x01
  const ST_PLAY := 0x03
  const ST_SEEK := 0x04

  datatype Flag = CMOK | DRDY | CSCT | BFUL | PEND | EHST | EFLS | ESEL

  const XFER_SECTORS := 1

  // The bytes of the sectors at these frame addresses, end to end.
  function Bytes(disc: Disc, fads: seq<nat>): seq<U8> {
    if fads == [] then [] else
    Bytes(disc, fads[..|fads| - 1]) +
    match disc(LbaOf(fads[|fads| - 1]))
      case Unreadable => []
      case Sector(data, _) => data
  }

  // ------------------------------------------------ the range of a play

  // A track's number and its first logical block.
  datatype TrackStart = TrackStart(num: nat, start: nat)

  // The first track with this number, from the i-th on.
  function Numbered(tracks: seq<TrackStart>, tno: nat, i: nat): (k: nat)
    requires i <= |tracks|
    ensures i <= k <= |tracks| && (k < |tracks| ==> tracks[k].num == tno)
    ensures forall j | i <= j < k :: tracks[j].num != tno
    decreases |tracks| - i
  {
    if i == |tracks| || tracks[i].num == tno then i else Numbered(tracks, tno, i + 1)
  }

  // The first start after `s0` among the first n tracks, or 0.
  function NextStart(tracks: seq<TrackStart>, s0: nat, n: nat): (end: nat)
    requires n <= |tracks|
    ensures end == 0 ==> forall j | 0 <= j < n :: tracks[j].start <= s0
    ensures end != 0 ==> end > s0 && exists j | 0 <= j < n :: tracks[j].start == end
    ensures end != 0 ==> forall j | 0 <= j < n :: tracks[j].start <= s0 || end <= tracks[j].start
    decreases n
  {
    if n == 0 then 0 else
    var end := NextStart(tracks, s0, n - 1);
    var start := tracks[n - 1].start;
    if start > s0 && (end == 0 || start < end) then start else end
  }

  datatype PlayRange = PlayRange(lba: nat, want: nat)

  // A range of no length, or of one over 24 bits, counts as one sector.
  function Wanted(n: nat): (w: nat)
    ensures w > 0
  {
    if n == 0 || n > 0xFF_FFFF then 1 else n
  }

  function ToLba(fad: nat): nat { if fad >= FAD_BASE then fad - FAD_BASE else fad }

  // What the two 24-bit fields of command 0x10 name: bit 23 of the position
  // tells a frame address from a track in bits 15-8.
  function RangeOf(tracks: seq<TrackStart>, position: nat, count: nat): (r: PlayRange)
    ensures r.want > 0
  {
    var start, n := position % 0x80_0000, Wanted(count % 0x80_0000);
    var i := Numbered(tracks, start / 0x100 % 0x100, 0);
    if position >= 0x80_0000 || i == |tracks| then PlayRange(ToLba(start), n)
    else
      var s0 := tracks[i].start;
      var end := NextStart(tracks, s0, |tracks|);
      PlayRange(s0, Wanted(if end > s0 then end - s0 else 0xFF_FFFF))
  }

  // A play of a track starts where the track starts, never runs into a later
  // track, and ends where the next one starts unless that is too far away.
  lemma TrackPlayIsTheTrack(tracks: seq<TrackStart>, position: nat, count: nat, k: nat)
    requires position < 0x80_0000 && k < |tracks| && tracks[k].num == position / 0x100 % 0x100
    requires forall j | 0 <= j < k :: tracks[j].num != tracks[k].num
    ensures var r := RangeOf(tracks, position, count);
            && r.lba == tracks[k].start
            && (forall j | 0 <= j < |tracks| :: tracks[j].start > r.lba ==> r.lba + r.want <= tracks[j].start)
            && ((forall j | 0 <= j < |tracks| :: tracks[j].start <= r.lba) ==> r.want == 0xFF_FFFF)
            && (forall j | 0 <= j < |tracks| ::
                  r.lba < tracks[j].start <= r.lba + 0xFF_FFFF ==>
                    exists m | 0 <= m < |tracks| :: tracks[m].start == r.lba + r.want)
  {
    assert position % 0x80_0000 == position;
    assert Numbered(tracks, position / 0x100 % 0x100, 0) == k;
  }

  // The drive after a data play of a decoded range.
  function PlayedRange(d: Drive, tracks: seq<TrackStart>, position: nat, count: nat): (r: Drive)
    requires Ready(d)
    ensures Ready(r)
  {
    var r := RangeOf(tracks, position, count);
    Played(d, r.lba, r.want)
  }

  // Frame f and n sectors by number: the head goes to frame f and the play ends
  // at f + n; no sectors asked for is one. A frame below 150 is taken for a block,
  // 150 frames further on.
  lemma FramePlayStands(d: Drive, tracks: seq<TrackStart>, f: nat, n: nat)
    requires Ready(d) && f < 0x80_0000 && n < 0x80_0000
    ensures var p := PlayedRange(d, tracks, 0x80_0000 + f, n);
            && p.playing && !p.cddaPlay
            && p.fad == (if f >= 150 then f else f + 150) && p.playEnd == p.fad + (if n > 0 then n else 1)
  {
  }

  lemma FrameRange(tracks: seq<TrackStart>, position: nat, count: nat)
    requires 0x80_0096 <= position < 0x100_0000 && 0 < count < 0x80_0000
    ensures RangeOf(tracks, position, count) == PlayRange(position - 0x80_0096, count)
  {
  }

  // A track number that the disc does not have: the position is a frame after all.
  lemma UnknownTrackStands(d: Drive, tracks: seq<TrackStart>, f: nat, n: nat)
    requires Ready(d) && f < 0x80_0000 && n < 0x80_0000
    requires forall j | 0 <= j < |tracks| :: tracks[j].num != f / 256 % 256
    ensures PlayedRange(d, tracks, f, n) == PlayedRange(d, tracks, 0x80_0000 + f, n)
  {
    assert (0x80_0000 + f) % 0x80_0000 == f;
  }

  // Frame f has come in, from block f - 150.
  predicate Came(disc: Disc, a: Arrival, f: nat) { a.fad == f && f >= 150 && disc(f - 150).Sector? }

  // The frames that come in from such a play, under any run: f, f + 1 and so on, n
  // at most, and all n unless the play is still on or a sector cannot be read.
  lemma FramePlayStreams(disc: Disc, d: Drive, tracks: seq<TrackStart>, f: nat, n: nat, steps: seq<Step>)
    requires Ready(d) && 150 <= f < 0x80_0000 && 0 < n < 0x80_0000
    requires Safe(disc, PlayedRange(d, tracks, 0x80_0000 + f, n), steps)
    ensures var r := Run(disc, PlayedRange(d, tracks, 0x80_0000 + f, n), steps);
            && |r.log| <= n && (forall k | 0 <= k < |r.log| :: Came(disc, r.log[k], f + k))
            && (r.playing || |r.log| == n || disc(f + |r.log| - 150).Unreadable?)
  {
    hide Run, Safe, RangeOf, Played, Came;
    FrameRange(tracks, 0x80_0000 + f, n);
    PlayStreamsInOrder(disc, d, f - 150, n, steps);
    FramesCame(disc, Run(disc, Played(d, f - 150, n), steps), d.contents, f, n);
  }

  lemma FramesCame(disc: Disc, r: Drive, before: seq<seq<nat>>, f: nat, n: nat)
    requires Ready(r) && |before| == NUM_PARTS && f >= 150 && PlayInvariant(disc, r, before, f, f + n)
    ensures |r.log| <= n && forall k | 0 <= k < |r.log| :: Came(disc, r.log[k], f + k)
    ensures r.playing || |r.log| == n || disc(f + |r.log| - 150).Unreadable?
  {
    hide Route, Conserved;
    forall k | 0 <= k < |r.log|
      ensures Came(disc, r.log[k], f + k)
    {
      assert r.log[k].fad == f + k && disc(LbaOf(f + k)).Sector?;
    }
  }

  class CdDrive {
    const disc: Disc
    const tracks: seq<TrackStart>
    const isAudio: nat -> bool

    const part: array2<Sector>
    const partFad: array2<nat>
    const partSectors: array<nat>
    const partBytes: array<nat>
    var filters: Filters
    var conn: nat
    var fad: nat
    var playing: bool
    var cddaPlay: bool
    var playEnd: nat
    var eflsAtEnd: bool
    var readSpeed: nat
    var driveNext: nat
    var status: int
    var hirq: set<Flag>
    var xfer: seq<U8>
    var xferPos: nat
    var xferType: int

    ghost var log: seq<Arrival>
    ghost var taken: seq<seq<nat>>

    ghost predicate Shaped() {
      && part.Length0 == partFad.Length0 == NUM_PARTS && part.Length1 == partFad.Length1 == PART_SECTORS
      && partSectors.Length == partBytes.Length == NUM_PARTS && partSectors != partBytes
    }

    // A slot in use holds the disc sector that its frame address names.
    ghost predicate SlotOk(p: nat, i: nat)
      requires Shaped() && p < NUM_PARTS && i < PART_SECTORS
      reads part, partFad
    {
      var read := disc(LbaOf(partFad[p, i]));
      read.Sector? && part[p, i] == read.data
    }

    ghost predicate Stored()
      reads part, partFad, partSectors, partBytes
    {
      && Shaped()
      && (forall p | 0 <= p < NUM_PARTS :: partSectors[p] <= PART_SECTORS && partBytes[p] == 2048 * partSectors[p])
      && (forall p, i | 0 <= p < NUM_PARTS && 0 <= i < partSectors[p] :: SlotOk(p, i))
    }

    ghost predicate Valid()
      reads this, part, partFad, partSectors, partBytes
    {
      Stored() && |taken| == NUM_PARTS
    }

    ghost function Row(p: nat): (r: seq<nat>)
      requires Shaped() && p < NUM_PARTS && partSectors[p] <= PART_SECTORS
      reads partFad, partSectors
      ensures |r| == partSectors[p] && forall i | 0 <= i < |r| :: r[i] == partFad[p, i]
    {
      seq(partSectors[p], i requires 0 <= i < PART_SECTORS && Shaped() reads partFad => partFad[p, i])
    }

    ghost function Contents(): (r: seq<seq<nat>>)
      requires Stored()
      reads part, partFad, partSectors, partBytes
      ensures |r| == NUM_PARTS && forall p | 0 <= p < NUM_PARTS :: r[p] == Row(p)
    {
      seq(NUM_PARTS, p requires 0 <= p < NUM_PARTS && Stored() reads part, partFad, partSectors, partBytes => Row(p))
    }

    // The abstract state of the drive.
    ghost function Model(): (d: Drive)
      requires Valid()
      reads this, part, partFad, partSectors, partBytes
      ensures Ready(d)
    {
      Drive(Contents(), fad, playing, cddaPlay, playEnd, conn, filters, driveNext, readSpeed, log, taken)
    }

    // `cdb_init`
    constructor (disc: Disc, tracks: seq<TrackStart>, isAudio: nat -> bool)
      ensures Valid() && Contents() == seq(NUM_PARTS, p => [])
      ensures this.disc == disc && this.tracks == tracks && this.isAudio == isAudio && filters == POWER_ON && !playing
      ensures fresh(part) && fresh(partFad) && fresh(partSectors) && fresh(partBytes)
    {
      this.disc, this.tracks, this.isAudio := disc, tracks, isAudio;
      part := new Sector[NUM_PARTS, PART_SECTORS];
      partFad := new nat[NUM_PARTS, PART_SECTORS];
      partSectors := new nat[NUM_PARTS](_ => 0);
      partBytes := new nat[NUM_PARTS](_ => 0);
      filters, conn := POWER_ON, 0;
      fad, playing, cddaPlay, playEnd, eflsAtEnd := 0xFFFFFF, false, false, 0, false;
      readSpeed, driveNext, status, hirq := 1, 0, ST_PAUSE, {};
      xfer, xferPos, xferType := [], 0, 0;
      log, taken := [], seq(NUM_PARTS, p => []);
    }

    // A data sector lands in partition p.
    method Store(p: nat, data: Sector, f: nat)
      requires Stored() && p < NUM_PARTS && partSectors[p] < PART_SECTORS
      requires disc(LbaOf(f)).Sector? && disc(LbaOf(f)).data == data
      modifies part, partFad, partSectors, partBytes
      ensures Stored() && Contents() == old(Contents())[p := old(Contents()[p]) + [f]]
    {
      ghost var before := Contents();
      var n := partSectors[p];
      part[p, n] := data;
      partFad[p, n] := f;
      partSectors[p] := n + 1;
      partBytes[p] := partBytes[p] + 2048;
      forall q, i | 0 <= q < NUM_PARTS && 0 <= i < partSectors[q]
        ensures SlotOk(q, i)
      {
        assert (q == p && i == n) || old(SlotOk(q, i));
      }
      forall q | 0 <= q < NUM_PARTS
        ensures Row(q) == if q == p then before[p] + [f] else before[q]
      {
      }
    }

    // The two `memmove`s of a deletion.
    method MoveDown(p: nat, off: nat, cnt: nat)
      requires Stored() && p < NUM_PARTS && off + cnt <= partSectors[p]
      modifies part, partFad
      ensures forall q, i | 0 <= q < NUM_PARTS && 0 <= i < PART_SECTORS ::
                var from := if q == p && off <= i < partSectors[p] - cnt then i + cnt else i;
                part[q, i] == old(part[q, from]) && partFad[q, i] == old(partFad[q, from])
    {
      var n := partSectors[p];
      forall i | off <= i < n - cnt {
        part[p, i] := part[p, i + cnt];
      }
      forall i | off <= i < n - cnt {
        partFad[p, i] := partFad[p, i + cnt];
      }
    }

    // Sectors [off, off + cnt) of partition p are cut out, the rest moves down.
    method Remove(p: nat, off: nat, cnt: nat)
      requires Stored() && p < NUM_PARTS && off + cnt <= partSectors[p]
      modifies part, partFad, partSectors, partBytes
      ensures Stored()
      ensures Contents() == old(Contents())[p := old(Contents()[p])[..off] + old(Contents()[p])[off + cnt..]]
    {
      ghost var before := Contents();
      var n := partSectors[p];
      MoveDown(p, off, cnt);
      partSectors[p] := n - cnt;
      partBytes[p] := 2048 * (n - cnt);
      forall q, i | 0 <= q < NUM_PARTS && 0 <= i < partSectors[q]
        ensures SlotOk(q, i)
      {
        assert old(SlotOk(q, if q == p && i >= off then i + cnt else i));
      }
      forall q | 0 <= q < NUM_PARTS
        ensures Row(q) == if q == p then before[p][..off] + before[p][off + cnt..] else before[q]
      {
      }
    }

    method Raise(flags: set<Flag>)
      requires Valid()
      modifies `hirq
      ensures Valid() && Model() == old(Model()) && hirq == old(hirq) + flags
    {
      hide Stored, Contents;
      hirq := hirq + flags;
    }

    method Pause()
      requires Valid()
      modifies `playing, `playEnd, `status
      ensures Valid() && Model() == old(Model()).(playing := false, playEnd := 0) && status == ST_PAUSE
    {
      hide Stored, Row, Contents;
      playing := false;
      playEnd := 0;
      status := ST_PAUSE;
    }

    // The commanded range has run out.
    method EndOfRange()
      requires Valid()
      modifies `playing, `playEnd, `status, `eflsAtEnd, `hirq
      ensures Valid() && Model() == old(Model()).(playing := false, playEnd := 0)
      ensures status == ST_PAUSE && hirq == old(hirq) + {PEND, EFLS}
    {
      hide Stored, Row, Contents;
      Pause();
      if eflsAtEnd {
        eflsAtEnd := false;
        Raise({EFLS});
      }
      Raise({PEND, EFLS});
    }

    // The head moves on, past a sector that went to `dest`.
    method Advance(dest: int, clk: nat)
      requires Valid()
      modifies `log, `fad
      ensures Valid()
      ensures Model() == old(Model()).(fad := old(fad) + 1,
                                       log := old(log) + [Arrival(old(fad), dest, filters, conn, clk)])
    {
      hide Stored, Row;
      log := log + [Arrival(fad, dest, filters, conn, clk)];
      fad := fad + 1;
    }

    method Land(dest: nat, data: Sector, clk: nat)
      requires Valid() && dest < NUM_PARTS && partSectors[dest] < PART_SECTORS
      requires disc(LbaOf(fad)).Sector? && disc(LbaOf(fad)).data == data
      modifies `log, `fad, part, partFad, partSectors, partBytes
      ensures Valid()
      ensures Model() == old(Model()).(
                contents := old(Contents())[dest := old(Contents()[dest]) + [old(fad)]],
                fad := old(fad) + 1, log := old(log) + [Arrival(old(fad), dest, filters, conn, clk)])
    {
      hide SlotOk, Row;
      Store(dest, data, fad);
      Advance(dest, clk);
    }

    // One pass of the streaming loop, at the partition the room test looks at.
    method StreamSector(p: nat, clk: nat) returns (p': nat, done: bool)
      requires Valid() && p < NUM_PARTS
      modifies this, part, partFad, partSectors, partBytes
      ensures Valid() && p' < NUM_PARTS
      ensures Turn(Model(), p', done) == StreamOne(disc, Turn(old(Model()), p, false), clk)
      ensures !done ==> playEnd == old(playEnd)
      ensures playEnd == old(playEnd) || (playEnd == 0 && status == ST_PAUSE)
      ensures hirq == old(hirq) + if playEnd != old(playEnd) then {PEND, EFLS} else {}
    {
      ContentsSizes();
      hide Stored, Route;
      if playEnd != 0 && fad >= playEnd {
        EndOfRange();
        return p, true;
      }
      if partSectors[p] >= PART_SECTORS {
        return p, true;
      }
      var read := disc(LbaOf(fad));
      if read.Unreadable? {
        playing := false;
        return p, true;
      }
      var dest := RouteSector(filters, conn, read.sub, fad);
      RouteInRange(filters, conn, read.sub, fad);
      if dest < 0 {
        Advance(dest, clk);
        return p, false;
      }
      if partSectors[dest] >= PART_SECTORS {
        return dest, true;
      }
      Land(dest, read.data, clk);
      return dest, false;
    }

    lemma ContentsSizes()
      requires Stored()
      ensures Shaped()
      ensures forall p | 0 <= p < NUM_PARTS :: |Contents()[p]| == partSectors[p] <= PART_SECTORS
    {
    }

    lemma TokensUnfold(first: nat, per: nat, clk: nat, n: nat)
      ensures n == 0 || first > clk ==> Tokens(first, per, clk, n) == 0
      ensures n > 0 && first <= clk ==> Tokens(first, per, clk, n) == 1 + Tokens(first + per, per, clk, n - 1)
    {
    }

    method SetDriveNext(next: nat)
      requires Valid()
      modifies `driveNext
      ensures Valid() && driveNext == next && Model() == old(Model()).(driveNext := next)
    {
      hide Stored, Row, Contents;
      driveNext := next;
    }

    // How many sectors the drive may deliver by machine time `clk`.
    method CountDue(clk: nat) returns (quota: nat)
      requires Valid()
      modifies `driveNext
      ensures Valid() && quota == Quota(old(Model()), clk) && Model() == Charged(old(Model()), clk)
    {
      hide Stored, Row, Contents, Due, Tokens;
      ghost var start := Model();
      assert start.driveNext == driveNext && start.readSpeed == readSpeed;
      var per := SECTOR_CYCLES / (if readSpeed == 0 then 2 else readSpeed);
      assert per == Period(start);
      hide Model, Valid, Period;
      SetDriveNext(if driveNext == 0 then clk else driveNext);
      ghost var first := driveNext;
      quota := 0;
      DueNext(first, per, 0);
      while driveNext <= clk && quota < SECTORS_PER_TICK
        invariant quota <= SECTORS_PER_TICK && driveNext == Due(first, per, quota)
        invariant Tokens(first, per, clk, SECTORS_PER_TICK) ==
                  quota + Tokens(driveNext, per, clk, SECTORS_PER_TICK - quota)
        invariant Valid() && Model() == start.(driveNext := driveNext)
        decreases SECTORS_PER_TICK - quota
      {
        DueNext(first, per, quota);
        TokensUnfold(driveNext, per, clk, SECTORS_PER_TICK - quota);
        SetDriveNext(driveNext + per);
        quota := quota + 1;
      }
      TokensUnfold(driveNext, per, clk, SECTORS_PER_TICK - quota);
    }

    lemma StreamUnfolds(t: Turn, clk: nat, n: nat)
      requires Ready(t.drive) && t.p < NUM_PARTS
      ensures n == 0 || t.done ==> Stream(disc, t, clk, n) == t
      ensures n > 0 && !t.done ==> Stream(disc, t, clk, n) == Stream(disc, StreamOne(disc, t, clk), clk, n - 1)
    {
    }

    method StreamQuota(clk: nat, n: nat) returns (p: nat)
      requires Valid() && conn < NUM_PARTS
      modifies this, part, partFad, partSectors, partBytes
      ensures Valid() && p < NUM_PARTS
      ensures Model() == Stream(disc, Turn(old(Model()), old(conn), false), clk, n).drive
      ensures playEnd == old(playEnd) || (playEnd == 0 && status == ST_PAUSE)
      ensures hirq == old(hirq) + if playEnd != old(playEnd) then {PEND, EFLS} else {}
    {
      hide Stored, StreamOne, Stream, Contents;
      p := conn;
      var done, i: nat := false, 0;
      while i < n && !done
        invariant Valid() && p < NUM_PARTS && i <= n
        invariant Stream(disc, Turn(old(Model()), old(conn), false), clk, n) ==
                  Stream(disc, Turn(Model(), p, done), clk, n - i)
        invariant !done ==> playEnd == old(playEnd)
        invariant playEnd == old(playEnd) || (playEnd == 0 && status == ST_PAUSE)
        invariant hirq == old(hirq) + if playEnd != old(playEnd) then {PEND, EFLS} else {}
      {
        StreamUnfolds(Turn(Model(), p, done), clk, n - i);
        p, done := StreamSector(p, clk);
        i := i + 1;
      }
      StreamUnfolds(Turn(Model(), p, done), clk, n - i);
    }

    // The streaming part of `cdb_tick`.
    method Tick(clk: nat)
      requires Valid() && TickSafe(Model())
      modifies this, part, partFad, partSectors, partBytes
      ensures Valid() && Model() == Ticked(disc, old(Model()), clk)
      ensures playEnd == old(playEnd) || (playEnd == 0 && status == ST_PAUSE)
      ensures PEND in hirq <==> PEND in old(hirq) || playEnd != old(playEnd)
      ensures CSCT in hirq <==> CSCT in old(hirq) || (Streams(old(Model())) && Quota(old(Model()), clk) > 0)
    {
      ContentsSizes();
      hide Stored, StreamOne, Stream, Contents, Quota;
      if !playing || cddaPlay || partSectors[conn] >= PART_SECTORS {
        return;
      }
      assert Streams(Model());
      ghost var turn := Turn(Charged(Model(), clk), conn, false);
      hide Model, Valid;
      var n := CountDue(clk);
      StreamUnfolds(turn, clk, 0);
      if n == 0 {
        return;
      }
      var p := StreamQuota(clk, n);
      Raise({CSCT});
      if PartitionFull(p) {
        Raise({BFUL});
      }
    }

    predicate PartitionFull(p: nat)
      requires Valid() && p < NUM_PARTS
      reads this, part, partFad, partSectors, partBytes
    {
      partSectors[p] >= PART_SECTORS
    }

    // --------------------------------------------------- host commands

    static predicate KeepsPlaying(position: nat, count: nat, repeatMode: nat) {
      position == 0xFF_FFFF && count == 0xFF_FFFF && repeatMode == 0xFF
    }

    // All ones: carry on with the current range, if it has not run out.
    method Resume()
      requires Valid()
      modifies `playing, `cddaPlay, `status, `hirq
      ensures Valid() && hirq == old(hirq) + {CMOK}
      ensures Model() == if playEnd != 0 && fad < playEnd
                         then old(Model()).(playing := true, cddaPlay := isAudio(LbaOf(fad))) else old(Model())
    {
      hide Stored, Contents;
      if playEnd != 0 && fad < playEnd {
        playing := true;
        cddaPlay := isAudio(LbaOf(fad));
        status := ST_PLAY;
      }
      hirq := hirq + {CMOK};
    }

    // The head goes to the start of a new range.
    method SetRange(lba: nat, want: nat)
      requires Valid()
      modifies `fad, `playing, `cddaPlay, `playEnd, `status
      ensures Valid() && status == if isAudio(lba) then ST_PLAY else ST_SEEK
      ensures Model() == old(Model()).(fad := lba + FAD_BASE, playing := true, cddaPlay := isAudio(lba),
                                       playEnd := lba + FAD_BASE + want)
    {
      hide Stored, Row, SlotOk, Contents;
      fad := lba + FAD_BASE;
      playing := true;
      playEnd := lba + FAD_BASE + want;
      cddaPlay := isAudio(lba);
      status := if isAudio(lba) then ST_PLAY else ST_SEEK;
    }

    ghost method StartLog()
      requires Valid()
      modifies `log, `taken
      ensures Valid() && Model() == old(Model()).(log := [], taken := NoneTaken())
    {
      hide Stored, Contents;
      log, taken := [], NoneTaken();
    }

    method FindNumber(tno: nat) returns (found: nat)
      ensures found == Numbered(tracks, tno, 0)
    {
      found := 0;
      while found < |tracks| && tracks[found].num != tno
        invariant found <= |tracks| && Numbered(tracks, tno, 0) == Numbered(tracks, tno, found)
      {
        found := found + 1;
      }
    }

    method FindNextStart(s0: nat) returns (end: nat)
      ensures end == NextStart(tracks, s0, |tracks|)
    {
      end := 0;
      for i := 0 to |tracks|
        invariant end == NextStart(tracks, s0, i)
      {
        if tracks[i].start > s0 && (end == 0 || tracks[i].start < end) {
          end := tracks[i].start;
        }
      }
    }

    method DecodeRange(position: nat, count: nat) returns (lba: nat, want: nat)
      ensures PlayRange(lba, want) == RangeOf(tracks, position, count)
    {
      lba, want := position % 0x80_0000, count % 0x80_0000;
      if position < 0x80_0000 {
        var found := FindNumber(lba / 0x100 % 0x100);
        if found < |tracks| {
          var s0 := tracks[found].start;
          var end := FindNextStart(s0);
          lba := s0;
          want := if end > s0 then end - s0 else 0xFF_FFFF;
        } else if lba >= FAD_BASE {
          lba := lba - FAD_BASE;
        }
      } else if lba >= FAD_BASE {
        lba := lba - FAD_BASE;
      }
      if want == 0 || want > 0xFF_FFFF {
        want := 1;
      }
    }

    // Command 0x10 on the asynchronous drive.
    method PlayDisc(position: nat, count: nat, repeatMode: nat)
      requires Valid() && position < 0x100_0000
      modifies `fad, `playing, `cddaPlay, `playEnd, `status, `hirq, `log, `taken
      ensures Valid() && hirq == old(hirq) + {CMOK}
      ensures position >= 0x80_0096 && 0 < count < 0x80_0000 ==>
                fad == position - 0x80_0000 && playEnd == fad + count && playing
      ensures position == count == 0xFF_FFFF && repeatMode == 0xFF ==>
                Model() == if old(playEnd != 0 && fad < playEnd)
                           then old(Model()).(playing := true, cddaPlay := isAudio(LbaOf(old(fad)))) else old(Model())
      ensures !(position == count == 0xFF_FFFF && repeatMode == 0xFF) ==>
                var r := RangeOf(tracks, position, count);
                if isAudio(r.lba) then
                  Model() == old(Model()).(fad := r.lba + 150, playing := true, cddaPlay := true,
                                           playEnd := r.lba + 150 + r.want) && status == 0x03
                else Model() == Played(old(Model()), r.lba, r.want) && status == 0x04
    {
      if position >= 0x80_0096 && 0 < count < 0x80_0000 {
        FrameRange(tracks, position, count);
      }
      assert count < 0x80_0000 ==> !KeepsPlaying(position, count, repeatMode);
      hide Stored, Contents, RangeOf, Model, Valid;
      if KeepsPlaying(position, count, repeatMode) {
        Resume();
        return;
      }
      var lba, want := DecodeRange(position, count);
      SetRange(lba, want);
      if !isAudio(lba) {
        StartLog();
      }
      Raise({CMOK});
    }

    // Which partition CR3 names.
    static function PartitionNumber(cr3: nat): (p: nat)
      ensures p < NUM_PARTS
    {
      if cr3 / 256 < NUM_PARTS then cr3 / 256 else 0
    }

    static function SectorCount(cr4: nat): nat { if cr4 == 0 then 1 else cr4 }

    lemma StageNothing(p: nat, off: nat)
      requires Stored() && p < NUM_PARTS && off <= partSectors[p]
      ensures Bytes(disc, Row(p)[off..off]) == []
    {
    }

    lemma StageNext(p: nat, off: nat, i: nat)
      requires Stored() && p < NUM_PARTS && off + i < partSectors[p]
      ensures Bytes(disc, Row(p)[off..off + i + 1]) == Bytes(disc, Row(p)[off..off + i]) + part[p, off + i]
    {
      assert SlotOk(p, off + i);
      var fads := Row(p)[off..off + i + 1];
      assert fads[..i] == Row(p)[off..off + i] && fads[i] == partFad[p, off + i];
    }

    // `memcpy` of the sectors into the transfer buffer.
    method Stage(p: nat, off: nat, cnt: nat)
      requires Valid() && p < NUM_PARTS && off + cnt <= partSectors[p]
      modifies `xfer, `xferPos, `xferType
      ensures Valid() && Model() == old(Model())
      ensures xfer == Bytes(disc, Row(p)[off..off + cnt]) && xferPos == 0 && xferType == XFER_SECTORS
    {
      ContentsSizes();
      hide Contents, Row, Bytes, Stored;
      StageNothing(p, off);
      var bytes := [];
      for i := 0 to cnt
        invariant bytes == Bytes(disc, Row(p)[off..off + i])
      {
        StageNext(p, off, i);
        bytes := bytes + part[p, off + i];
      }
      xfer := bytes;
      xferPos := 0;
      xferType := XFER_SECTORS;
    }

    // The slice that 0x61 and 0x63 work on, clamped to what is there.
    method ClampSlice(p: nat, off: nat, cnt: nat) returns (off': nat, cnt': nat)
      requires Valid() && p < NUM_PARTS
      ensures off' == ClampOffset(Model(), p, off) && cnt' == ClampCount(Model(), p, off, cnt)
      ensures off' + cnt' <= partSectors[p] && |Contents()[p]| == partSectors[p]
    {
      ContentsSizes();
      hide Stored, Contents;
      off', cnt' := off, cnt;
      if off' > partSectors[p] {
        off' := partSectors[p];
      }
      if off' + cnt' > partSectors[p] {
        cnt' := partSectors[p] - off';
      }
    }

    // Command 0x61: the host is handed the disc bytes of the sectors it named.
    method GetSectorData(cr2: nat, cr3: nat, cr4: nat)
      requires Valid()
      modifies `xfer, `xferPos, `xferType, `hirq
      ensures Valid() && Model() == old(Model()) && hirq == old(hirq) + {CMOK, DRDY}
      ensures var p, n := if cr3 / 0x100 < 24 then cr3 / 0x100 else 0, if cr4 == 0 then 1 else cr4;
              xfer == Bytes(disc, Slice(Model(), p, cr2, n))
      ensures xferPos == 0 && xferType == XFER_SECTORS
    {
      ContentsRow(PartitionNumber(cr3));
      hide Stored, Bytes, Row, Contents, ClampOffset, ClampCount;
      var p := PartitionNumber(cr3);
      var off, cnt := ClampSlice(p, cr2, SectorCount(cr4));
      Stage(p, off, cnt);
      Raise({CMOK, DRDY});
    }

    lemma ContentsRow(p: nat)
      requires Stored() && p < NUM_PARTS
      ensures Contents()[p] == Row(p)
    {
    }

    // The deletion both 0x62 and 0x63 make.
    method Take(p: nat, off: nat, cnt: nat)
      requires Valid() && p < NUM_PARTS && off + cnt <= partSectors[p]
      modifies `taken, part, partFad, partSectors, partBytes
      ensures Valid()
      ensures var c := old(Contents()[p]);
              Model() == old(Model()).(contents := old(Contents())[p := c[..off] + c[off + cnt..]],
                                       taken := old(taken)[p := old(taken)[p] + c[off..off + cnt]])
    {
      ContentsSizes();
      ghost var gone := Contents()[p][off..off + cnt];
      hide SlotOk, Row;
      Remove(p, off, cnt);
      taken := taken[p := taken[p] + gone];
    }

    // Nothing is moved when nothing is to go.
    method Cut(p: nat, off: nat, cnt: nat)
      requires Valid() && p < NUM_PARTS && off + cnt <= partSectors[p]
      modifies `taken, part, partFad, partSectors, partBytes
      ensures Valid()
      ensures var c := old(Contents()[p]);
              Model() == old(Model()).(contents := old(Contents())[p := c[..off] + c[off + cnt..]],
                                       taken := old(taken)[p := old(taken)[p] + c[off..off + cnt]])
    {
      ContentsSizes();
      hide Stored, Row, Contents;
      TakeNothing(Contents(), p, off);
      if cnt > 0 {
        Take(p, off, cnt);
      }
    }

    // Command 0x62.
    method DeleteSectorData(cr2: nat, cr3: nat, cr4: nat)
      requires Valid()
      modifies `taken, `hirq, part, partFad, partSectors, partBytes
      ensures Valid() && hirq == old(hirq) + {CMOK, EHST}
      ensures var p, n := if cr3 / 0x100 < 24 then cr3 / 0x100 else 0, if cr4 == 0 then 1 else cr4;
              Model() == Deleted(old(Model()), p, cr2, n)
    {
      ContentsSizes();
      hide Stored, Row, Contents;
      var p, off, cnt := PartitionNumber(cr3), cr2, SectorCount(cr4);
      if off > partSectors[p] {
        off := partSectors[p];
      }
      if cnt > partSectors[p] - off {
        cnt := partSectors[p] - off;
      }
      Cut(p, off, cnt);
      Raise({CMOK, EHST});
    }

    lemma TakeNothing(c: seq<seq<nat>>, p: nat, off: nat)
      requires p < |c| && p < |taken| && off <= |c[p]|
      ensures c[p := c[p][..off] + c[p][off..]] == c
      ensures taken[p := taken[p] + c[p][off..off]] == taken
    {
      assert c[p][..off] + c[p][off..] == c[p];
      assert taken[p] + c[p][off..off] == taken[p];
    }

    lemma DeletedIs(m: Drive, p: nat, off: nat, cnt: nat)
      requires Ready(m) && p < NUM_PARTS
      ensures var c, o, n := m.contents[p], ClampOffset(m, p, off), ClampCount(m, p, off, cnt);
              && Slice(m, p, off, cnt) == c[o..o + n]
              && Deleted(m, p, off, cnt) == m.(contents := m.contents[p := c[..o] + c[o + n..]],
                                               taken := m.taken[p := m.taken[p] + c[o..o + n]])
    {
      hide ClampOffset, ClampCount;
    }

    // Command 0x63: what 0x61 hands over, and then its deletion.
    method GetThenDelete(cr2: nat, cr3: nat, cr4: nat)
      requires Valid()
      modifies `taken, `xfer, `xferPos, `xferType, `hirq, part, partFad, partSectors, partBytes
      ensures Valid() && hirq == old(hirq) + {CMOK, DRDY}
      ensures var p, n := if cr3 / 0x100 < 24 then cr3 / 0x100 else 0, if cr4 == 0 then 1 else cr4;
              xfer == Bytes(disc, Slice(old(Model()), p, cr2, n))
      ensures xferPos == 0 && xferType == XFER_SECTORS
      ensures var p, n := if cr3 / 0x100 < 24 then cr3 / 0x100 else 0, if cr4 == 0 then 1 else cr4;
              Model() == Deleted(old(Model()), p, cr2, n)
    {
      ContentsRow(PartitionNumber(cr3));
      hide Stored, Row, Contents, Bytes, ClampOffset, ClampCount, Deleted, Slice;
      var p := PartitionNumber(cr3);
      ghost var m := Model();
      DeletedIs(m, p, cr2, SectorCount(cr4));
      var off, cnt := ClampSlice(p, cr2, SectorCount(cr4));
      hide Model;
      Stage(p, off, cnt);
      Raise({CMOK, DRDY});
      Cut(p, off, cnt);
    }

    // ---------------------------------------------- selector commands

    // What a command makes of the filter it names, if there is such a filter.
    function Programmed(i: nat, make: Filter -> Filter): (fs: Filters)
      reads `filters
      ensures forall k | 0 <= k < NUM_FILTERS :: fs[k] == if k == i then make(filters[k]) else filters[k]
    {
      if i < NUM_FILTERS then filters[i := make(filters[i])] else filters
    }

    method SetFilter(i: nat, f: Filter)
      requires Valid() && i < NUM_FILTERS
      modifies `filters
      ensures Valid() && Model() == old(Model()).(filters := old(filters)[i := f])
    {
      hide Stored, Contents;
      filters := filters[i := f];
    }

    // Commands 0x40, 0x42, 0x44 and 0x46.
    method SetFilterRange(cr1: nat, cr2: nat, cr3: nat, cr4: nat)
      requires Valid() && cr2 < 0x1_0000 && cr4 < 0x1_0000
      modifies `filters, `hirq
      ensures Valid() && hirq == old(hirq) + {CMOK, ESEL}
      ensures Model() == old(Model()).(
                filters := old(Programmed(cr3 / 0x100, f => Ranged(f, Field24(cr1, cr2), Field24(cr3, cr4)))))
    {
      hide Stored, Contents, Conditioned, Moded, Wired, LowByte;
      var i := cr3 / 0x100;
      if i < NUM_FILTERS {
        SetFilter(i, Ranged(filters[i], Field24(cr1, cr2), Field24(cr3, cr4)));
      }
      Raise({CMOK, ESEL});
    }

    method SetFilterConditions(cr1: nat, cr2: nat, cr3: nat, cr4: nat)
      requires Valid()
      modifies `filters, `hirq
      ensures Valid() && hirq == old(hirq) + {CMOK, ESEL}
      ensures Model() == old(Model()).(
                filters := old(Programmed(cr3 / 0x100, f => Conditioned(f, cr1, cr2, cr3, cr4))))
    {
      hide Stored, Contents, Conditioned, Moded, Wired, LowByte;
      var i := cr3 / 0x100;
      if i < NUM_FILTERS {
        SetFilter(i, Conditioned(filters[i], cr1, cr2, cr3, cr4));
      }
      Raise({CMOK, ESEL});
    }

    method SetFilterMode(cr1: nat, cr3: nat)
      requires Valid()
      modifies `filters, `hirq
      ensures Valid() && hirq == old(hirq) + {CMOK, ESEL}
      ensures Model() == old(Model()).(
                filters := old(Programmed(cr3 / 0x100, f => Moded(f, cr3 / 0x100, LowByte(cr1)))))
    {
      hide Stored, Contents, Conditioned, Moded, Wired, LowByte;
      var i := cr3 / 0x100;
      if i < NUM_FILTERS {
        SetFilter(i, Moded(filters[i], cr3 / 0x100, LowByte(cr1)));
      }
      Raise({CMOK, ESEL});
    }

    method SetFilterConnection(cr1: nat, cr2: nat, cr3: nat)
      requires Valid()
      modifies `filters, `hirq
      ensures Valid() && hirq == old(hirq) + {CMOK, ESEL}
      ensures Model() == old(Model()).(
                filters := old(Programmed(cr3 / 0x100, f => Wired(f, LowByte(cr1), cr2 / 0x100, cr2 % 0x100))))
    {
      hide Stored, Contents, Conditioned, Moded, Wired, LowByte;
      var i := cr3 / 0x100;
      if i < NUM_FILTERS {
        SetFilter(i, Wired(filters[i], LowByte(cr1), cr2 / 0x100, cr2 % 0x100));
      }
      Raise({CMOK, ESEL});
    }

    // Command 0x30.
    method SetDeviceConnection(cr3: nat)
      requires Valid()
      modifies `conn, `hirq
      ensures Valid() && hirq == old(hirq) + {CMOK, ESEL}
      ensures Model() == old(Model()).(conn := if cr3 / 0x100 < 24 then cr3 / 0x100 else 0)
    {
      hide Stored, Contents;
      conn := cr3 / 0x100;
      if conn >= NUM_PARTS {
        conn := 0;
      }
      hirq := hirq + {CMOK, ESEL};
    }

    // A partition is emptied by its count.
    method Forget(p: nat)
      requires Stored() && p < NUM_PARTS
      modifies partSectors, partBytes
      ensures Stored() && Contents() == old(Contents())[p := []]
    {
      ghost var before := Contents();
      partSectors[p] := 0;
      partBytes[p] := 0;
      forall q, i | 0 <= q < NUM_PARTS && 0 <= i < partSectors[q]
        ensures SlotOk(q, i)
      {
        assert old(SlotOk(q, i));
      }
      forall q | 0 <= q < NUM_PARTS
        ensures Row(q) == if q == p then [] else before[q]
      {
      }
    }

    method DiscardPartition(p: nat)
      requires Valid() && p < NUM_PARTS
      modifies `taken, partSectors, partBytes
      ensures Valid() && Model() == Deleted(old(Model()), p, 0, PART_SECTORS)
    {
      ContentsSizes();
      hide SlotOk, Row;
      ghost var gone := Contents()[p];
      Forget(p);
      taken := taken[p := taken[p] + gone];
      assert gone[..0] + gone[|gone|..] == [] && gone[0..|gone|] == gone;
    }

    method DiscardEverything()
      requires Valid()
      modifies `taken, partSectors, partBytes
      ensures Valid() && Model() == Emptied(old(Model()))
    {
      ContentsSizes();
      ghost var before, out := Contents(), taken;
      ForgetAll();
      taken := seq(NUM_PARTS, p requires 0 <= p < |out| && p < |before| => out[p] + before[p]);
    }

    method ForgetAll()
      requires Stored()
      modifies partSectors, partBytes
      ensures Stored() && Contents() == NoneTaken()
    {
      hide Stored, Contents;
      for i := 0 to NUM_PARTS
        invariant Stored() && forall p | 0 <= p < i :: Contents()[p] == []
      {
        Forget(i);
      }
      assert Contents() == NoneTaken();
    }

    // Flag 0x20 takes the filter inputs away, the drive's own connection too.
    method ResetAllFilters(flags: bv8)
      requires Valid()
      modifies `filters, `conn
      ensures Valid()
      ensures Model() == old(Model()).(filters := ResetAll(old(filters), flags),
                                       conn := if flags & 0x20 != 0 then 0xFF else old(conn))
    {
      hide Stored, Contents, Reset;
      filters := ResetAll(filters, flags);
      if flags & 0x20 != 0 {
        conn := DISCONNECTED;
      }
    }

    // Command 0x48: one partition alone, or what the flags say.
    method ResetSelector(cr1: nat, cr3: nat)
      requires Valid()
      modifies `filters, `conn, `hirq, `taken, partSectors, partBytes
      ensures Valid() && hirq == old(hirq) + {CMOK, ESEL}
      ensures var flags := LowByte(cr1);
              Model() ==
              if flags == 0 then Deleted(old(Model()), if cr3 / 0x100 < 24 then cr3 / 0x100 else 0, 0, 512)
              else
                var d := if flags & 0x04 != 0 then Emptied(old(Model())) else old(Model());
                d.(filters := ResetAll(old(filters), flags),
                   conn := if flags & 0x20 != 0 then 0xFF else old(conn))
    {
      hide Stored, Contents, Reset, LowByte, Deleted, Emptied, ResetAll;
      var flags := LowByte(cr1);
      if flags == 0 {
        DiscardPartition(PartitionNumber(cr3));
      } else {
        if flags & 0x04 != 0 {
          DiscardEverything();
        }
        ResetAllFilters(flags);
      }
      Raise({CMOK, ESEL});
    }

    // --------------------------------------------------- data transfer

    // One read of the data transfer register.
    method ReadDtr() returns (word: int)
      requires Valid()
      modifies `xferPos, `hirq
      ensures Valid() && Model() == old(Model())
      ensures word == DtrWord(xfer, old(xferPos)) && xferPos == DtrNext(xfer, old(xferPos))
      ensures var at := old(xferPos);
              word == if at + 1 < |xfer| then 256 * xfer[at] as int + xfer[at + 1] as int else 0
      ensures hirq == old(hirq) +
                if old(xferPos) + 1 < |xfer| <= old(xferPos) + 2 && xferType == XFER_SECTORS then {EHST} else {}
    {
      hide Stored, Contents;
      if xferPos + 1 >= |xfer| {
        xferPos := |xfer|;
        return 0;
      }
      word := Word(xfer[xferPos], xfer[xferPos + 1]);
      xferPos := xferPos + 2;
      if xferPos >= |xfer| && xferType == XFER_SECTORS {
        hirq := hirq + {EHST};
      }
    }
  }

  function Word(high: int, low: int): int { high * 256 + low }

  function DtrWord(xfer: seq<U8>, pos: nat): int {
    if pos + 1 >= |xfer| then 0 else Word(xfer[pos], xfer[pos + 1])
  }

  function DtrNext(xfer: seq<U8>, pos: nat): nat {
    if pos + 1 >= |xfer| then |xfer| else pos + 2
  }

  // What n reads from position pos return.
  function DtrWords(xfer: seq<U8>, pos: nat, n: nat): (r: seq<int>)
    ensures |r| == n
    decreases n
  {
    if n == 0 then [] else [DtrWord(xfer, pos)] + DtrWords(xfer, DtrNext(xfer, pos), n - 1)
  }

  lemma {:induction false} DtrWordAt(xfer: seq<U8>, pos: nat, n: nat, k: nat)
    requires |xfer| % 2 == 0 && pos % 2 == 0 && k < n
    ensures DtrWords(xfer, pos, n)[k] ==
            if pos + 2 * k < |xfer| then Word(xfer[pos + 2 * k], xfer[pos + 2 * k + 1]) else 0
    decreases n
  {
    if k > 0 {
      DtrWordAt(xfer, DtrNext(xfer, pos), n - 1, k - 1);
    }
  }

  lemma {:induction false} BytesAreWhole(disc: Disc, fads: seq<nat>)
    requires forall i | 0 <= i < |fads| :: disc(LbaOf(fads[i])).Sector?
    ensures |Bytes(disc, fads)| == 2048 * |fads|
  {
    if fads != [] {
      BytesAreWhole(disc, fads[..|fads| - 1]);
    }
  }

  lemma {:induction false} ByteOfSector(disc: Disc, fads: seq<nat>, i: nat, b: nat)
    requires forall i | 0 <= i < |fads| :: disc(LbaOf(fads[i])).Sector?
    requires i < |fads| && b < 2048
    ensures |Bytes(disc, fads)| == 2048 * |fads|
    ensures Bytes(disc, fads)[2048 * i + b] == disc(LbaOf(fads[i])).data[b]
  {
    BytesAreWhole(disc, fads);
    var m := |fads| - 1;
    BytesAreWhole(disc, fads[..m]);
    if i < m {
      ByteOfSector(disc, fads[..m], i, b);
    }
  }

  // Reading the transfer register word by word gives the bytes of the named
  // disc sectors, high byte first,
  lemma HostReadsDiscSectors(disc: Disc, fads: seq<nat>, n: nat, i: nat, w: nat)
    requires forall i | 0 <= i < |fads| :: disc(LbaOf(fads[i])).Sector?
    requires i < |fads| && w < 1024 && 1024 * i + w < n
    ensures var read := disc(if fads[i] >= 150 then fads[i] - 150 else 0);
            read.Sector? && DtrWords(Bytes(disc, fads), 0, n)[1024 * i + w] ==
                            256 * read.data[2 * w] as int + read.data[2 * w + 1] as int
  {
    hide Bytes, DtrWords;
    BytesAreWhole(disc, fads);
    ByteOfSector(disc, fads, i, 2 * w);
    ByteOfSector(disc, fads, i, 2 * w + 1);
    DtrWordAt(Bytes(disc, fads), 0, n, 1024 * i + w);
  }

  // and zeros once they have run out.
  lemma HostReadsZeros(disc: Disc, fads: seq<nat>, n: nat, k: nat)
    requires forall i | 0 <= i < |fads| :: disc(LbaOf(fads[i])).Sector?
    requires 1024 * |fads| <= k < n
    ensures DtrWords(Bytes(disc, fads), 0, n)[k] == 0
  {
    hide Bytes, DtrWords, DtrWord;
    BytesAreWhole(disc, fads);
    ZerosAfter(Bytes(disc, fads), 1024 * |fads|, n, k);
  }

  lemma ZerosAfter(xfer: seq<U8>, words: nat, n: nat, k: nat)
    requires |xfer| == 2 * words && words <= k < n
    ensures DtrWords(xfer, 0, n)[k] == 0
  {
    hide DtrWords;
    assert |xfer| % 2 == 0;
    DtrWordAt(xfer, 0, n, k);
  }
}
