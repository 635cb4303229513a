// Where the tracks of a multi-file disc image sit on the disc, and which stored
// sector each disc address reaches.
module DiscLayout {
  import opened Multiples
  import opened Options

  const RAW_SECTOR: nat := 2352

  // `start` is the cue sheet's INDEX 01 before the layout, the disc address
  // after it; `fileLba` is the sector inside the file.
  datatype Track = Track(file: nat, sectorSize: nat, start: nat, pregap: nat, fileLba: nat)

  // ------------------------------------------------------ tracks of a file

  function Count(tracks: seq<Track>, f: nat): (n: nat)
    ensures n <= |tracks|
    ensures (exists i | 0 <= i < |tracks| :: tracks[i].file == f) ==> n > 0
    decreases |tracks|
  {
    if tracks == [] then 0 else
    var n := |tracks| - 1;
    Count(tracks[..n], f) + if tracks[n].file == f then 1 else 0
  }

  // The first track of a file.
  function First(tracks: seq<Track>, f: nat): (i: nat)
    requires Count(tracks, f) > 0
    ensures i < |tracks| && tracks[i].file == f && forall j | 0 <= j < i :: tracks[j].file != f
    decreases |tracks|
  {
    var n := |tracks| - 1;
    if Count(tracks[..n], f) > 0 then First(tracks[..n], f) else n
  }

  function SectorSize(tracks: seq<Track>, f: nat): (n: nat)
    requires Count(tracks, f) > 0
    ensures n > 0
  {
    var ss := tracks[First(tracks, f)].sectorSize;
    if ss == 0 then RAW_SECTOR else ss
  }

  function Sectors(tracks: seq<Track>, sizes: seq<nat>, f: nat): nat
    requires f < |sizes| && Count(tracks, f) > 0
  {
    sizes[f] / SectorSize(tracks, f)
  }

  // The pregap in front of a file that holds one track.
  function Lead(tracks: seq<Track>, f: nat): nat
    requires Count(tracks, f) > 0
  {
    if Count(tracks, f) == 1 then tracks[First(tracks, f)].pregap else 0
  }

  // The disc position behind the first f files.
  function Running(tracks: seq<Track>, sizes: seq<nat>, f: nat): nat
    requires f <= |sizes|
    decreases f
  {
    if f == 0 then 0
    else if Count(tracks, f - 1) == 0 then Running(tracks, sizes, f - 1)
    else Running(tracks, sizes, f - 1) + Lead(tracks, f - 1) + Sectors(tracks, sizes, f - 1)
  }

  // The disc address of a file's first sector.
  function Base(tracks: seq<Track>, sizes: seq<nat>, f: nat): nat
    requires f < |sizes| && Count(tracks, f) > 0
  {
    Running(tracks, sizes, f) + Lead(tracks, f)
  }

  predicate InFiles(tracks: seq<Track>, sizes: seq<nat>) {
    forall i | 0 <= i < |tracks| :: tracks[i].file < |sizes|
  }

  // A track after the layout.
  function Placed(tracks: seq<Track>, sizes: seq<nat>, i: nat): Track
    requires i < |tracks| && InFiles(tracks, sizes)
  {
    var t := tracks[i];
    var base := Base(tracks, sizes, t.file);
    if Count(tracks, t.file) == 1 then t.(fileLba := 0, start := base)
    else t.(fileLba := t.start, start := t.start + base)
  }

  function LaidOut(tracks: seq<Track>, sizes: seq<nat>): (r: seq<Track>)
    requires InFiles(tracks, sizes)
    ensures |r| == |tracks| && forall i | 0 <= i < |r| :: r[i] == Placed(tracks, sizes, i)
  {
    seq(|tracks|, i requires 0 <= i < |tracks| && InFiles(tracks, sizes) => Placed(tracks, sizes, i))
  }

  // Files in cue order, none empty, one sector size each, and indexes that
  // increase inside a shared file.
  predicate WellFormed(tracks: seq<Track>, sizes: seq<nat>) {
    && InFiles(tracks, sizes)
    && (forall i, j | 0 <= i < j < |tracks| :: tracks[i].file <= tracks[j].file)
    && (forall i | 0 <= i < |tracks| :: tracks[i].sectorSize == SectorSize(tracks, tracks[i].file))
    && (forall i | 0 <= i < |tracks| :: Indexed(tracks, sizes, i) < Sectors(tracks, sizes, tracks[i].file))
    && (forall i, j | 0 <= i < j < |tracks| && tracks[i].file == tracks[j].file :: tracks[i].start < tracks[j].start)
  }

  // The sector of its file a track starts at.
  function Indexed(tracks: seq<Track>, sizes: seq<nat>, i: nat): nat
    requires i < |tracks| && InFiles(tracks, sizes)
  {
    Placed(tracks, sizes, i).fileLba
  }

  // ----------------------------------------------------------- addresses

  // `disc_track_for_lba`: the latest start not after the address, the last of equals.
  function TrackFor(laid: seq<Track>, lba: nat): (r: Option<nat>)
    ensures r.None? ==> forall i | 0 <= i < |laid| :: laid[i].start > lba
    ensures r.Some? ==> r.value < |laid| && laid[r.value].start <= lba
    ensures r.Some? ==> forall i | 0 <= i < |laid| && laid[i].start <= lba ::
                          laid[i].start < laid[r.value].start || (laid[i].start == laid[r.value].start && i <= r.value)
    decreases |laid|
  {
    if laid == [] then None
    else
      var n := |laid| - 1;
      var best := TrackFor(laid[..n], lba);
      if laid[n].start <= lba && (best.None? || laid[n].start >= laid[best.value].start) then Some(n) else best
  }

  // `resolve_file_lba` for several files, and the bounds check of a read: the
  // file and the sector in it.
  function Located(laid: seq<Track>, sizes: seq<nat>, lba: nat): Option<(nat, nat)>
    requires InFiles(laid, sizes)
  {
    match TrackFor(laid, lba)
    case None => None
    case Some(i) =>
      var t := laid[i];
      var sector := t.fileLba + (lba - t.start);
      if sector * t.sectorSize + t.sectorSize > sizes[t.file] then None else Some((t.file, sector))
  }

  // The sectors an image stores from the first INDEX 01 of a file on.
  predicate Stored(tracks: seq<Track>, sizes: seq<nat>, f: nat, k: nat)
    requires InFiles(tracks, sizes)
  {
    exists i | 0 <= i < |tracks| && tracks[i].file == f ::
      Indexed(tracks, sizes, i) <= k < Sectors(tracks, sizes, f)
  }

  lemma WholeSectors(size: nat, ss: nat, k: nat)
    requires ss > 0
    ensures k * ss + ss <= size <==> k < size / ss
  {
    var q := size / ss;
    assert size == q * ss + size % ss;
    assert (k + 1) * ss == k * ss + ss;
    if k < q {
      TimesGrows(k + 1, q, ss);
    } else {
      TimesGrows(q + 1, k + 1, ss);
      assert (q + 1) * ss == q * ss + ss;
    }
  }

  lemma {:induction false} RunningGrows(tracks: seq<Track>, sizes: seq<nat>, f: nat, g: nat)
    requires f < g <= |sizes|
    ensures Running(tracks, sizes, f) <= Running(tracks, sizes, f + 1) <= Running(tracks, sizes, g)
    ensures Count(tracks, f) > 0 ==>
              Running(tracks, sizes, f + 1) == Base(tracks, sizes, f) + Sectors(tracks, sizes, f)
    decreases g
  {
    hide Count, First, Sectors, Lead;
    if f + 1 < g {
      RunningGrows(tracks, sizes, f, g - 1);
    }
  }

  // What an address that can be read reaches, and no other address does.
  lemma LocatedIsStored(tracks: seq<Track>, sizes: seq<nat>, lba: nat)
    requires WellFormed(tracks, sizes) && Located(LaidOut(tracks, sizes), sizes, lba).Some?
    ensures var (f, k) := Located(LaidOut(tracks, sizes), sizes, lba).value;
            f < |sizes| && Count(tracks, f) > 0 && Stored(tracks, sizes, f, k) && lba == Base(tracks, sizes, f) + k
  {
    hide Count, First, Running, SectorSize, Lead;
    var laid := LaidOut(tracks, sizes);
    var i := TrackFor(laid, lba).value;
    var t := laid[i];
    var sector := t.fileLba + (lba - t.start);
    WholeSectors(sizes[t.file], t.sectorSize, sector);
    assert Indexed(tracks, sizes, i) <= sector < Sectors(tracks, sizes, t.file);
  }

  lemma StartInFile(tracks: seq<Track>, sizes: seq<nat>, i: nat)
    requires WellFormed(tracks, sizes) && i < |tracks|
    ensures var f, p := tracks[i].file, Placed(tracks, sizes, i);
            && p.start == Base(tracks, sizes, f) + p.fileLba
            && Running(tracks, sizes, f) <= p.start < Running(tracks, sizes, f + 1)
  {
    hide Count, First, Running, SectorSize, Lead, Sectors;
    RunningGrows(tracks, sizes, tracks[i].file, tracks[i].file + 1);
    assert Indexed(tracks, sizes, i) == Placed(tracks, sizes, i).fileLba;
  }

  // Every stored sector is reached, by its file's base and its place.
  lemma StoredIsLocated(tracks: seq<Track>, sizes: seq<nat>, f: nat, k: nat)
    requires WellFormed(tracks, sizes) && Stored(tracks, sizes, f, k)
    ensures f < |sizes| && Count(tracks, f) > 0
    ensures Located(LaidOut(tracks, sizes), sizes, Base(tracks, sizes, f) + k) == Some((f, k))
  {
    hide First, Running, SectorSize, Lead, Sectors, Base, Placed, Count, Located, TrackFor;
    var i :| 0 <= i < |tracks| && tracks[i].file == f && Indexed(tracks, sizes, i) <= k < Sectors(tracks, sizes, f);
    var laid, lba := LaidOut(tracks, sizes), Base(tracks, sizes, f) + k;
    StartInFile(tracks, sizes, i);
    assert laid[i].start <= lba;
    var j := TrackFor(laid, lba).value;
    SameFile(tracks, sizes, f, k, i, j);
    ReadsSector(tracks, sizes, lba, f, k, j);
  }

  lemma ReadsSector(tracks: seq<Track>, sizes: seq<nat>, lba: nat, f: nat, k: nat, j: nat)
    requires WellFormed(tracks, sizes) && f < |sizes| && Count(tracks, f) > 0 && k < Sectors(tracks, sizes, f)
    requires TrackFor(LaidOut(tracks, sizes), lba) == Some(j) && tracks[j].file == f
    requires lba == Base(tracks, sizes, f) + k
    requires Placed(tracks, sizes, j).start == Base(tracks, sizes, f) + Indexed(tracks, sizes, j)
    ensures Located(LaidOut(tracks, sizes), sizes, lba) == Some((f, k))
  {
    hide First, Running, SectorSize, Lead, Base, Count, TrackFor;
    WholeSectors(sizes[f], tracks[j].sectorSize, k);
  }

  // The track that answers for a stored sector's address is one of its file.
  lemma SameFile(tracks: seq<Track>, sizes: seq<nat>, f: nat, k: nat, i: nat, j: nat)
    requires WellFormed(tracks, sizes) && i < |tracks| && j < |tracks| && tracks[i].file == f
    requires Indexed(tracks, sizes, i) <= k < Sectors(tracks, sizes, f)
    requires Placed(tracks, sizes, j).start <= Base(tracks, sizes, f) + k
    requires Placed(tracks, sizes, i).start <= Placed(tracks, sizes, j).start
    ensures tracks[j].file == f && Placed(tracks, sizes, j).start == Base(tracks, sizes, f) + Indexed(tracks, sizes, j)
  {
    hide First, Running, SectorSize, Lead, Count, Base, Sectors, Placed;
    StartInFile(tracks, sizes, i);
    StartInFile(tracks, sizes, j);
    RunningGrows(tracks, sizes, f, f + 1);
    if tracks[j].file > f {
      RunningGrows(tracks, sizes, f, tracks[j].file);
    } else if tracks[j].file < f {
      RunningGrows(tracks, sizes, tracks[j].file, f);
    }
  }

  // Disc addresses and stored sectors correspond one to one: a sector is read at
  // an address exactly when it is stored and the address is its own.
  lemma OneToOne(tracks: seq<Track>, sizes: seq<nat>, lba: nat, f: nat, k: nat)
    requires WellFormed(tracks, sizes)
    ensures Located(LaidOut(tracks, sizes), sizes, lba) == Some((f, k)) <==>
            Stored(tracks, sizes, f, k) && f < |sizes| && Count(tracks, f) > 0 && lba == Base(tracks, sizes, f) + k
  {
    hide Located, Stored, LaidOut, Count, Base;
    if Located(LaidOut(tracks, sizes), sizes, lba) == Some((f, k)) {
      LocatedIsStored(tracks, sizes, lba);
    }
    if Stored(tracks, sizes, f, k) {
      StoredIsLocated(tracks, sizes, f, k);
    }
  }

  // No address of a pregap that is not stored can be read.
  lemma PregapUnreadable(tracks: seq<Track>, sizes: seq<nat>, f: nat, lba: nat)
    requires WellFormed(tracks, sizes) && f < |sizes| && Count(tracks, f) > 0
    requires Running(tracks, sizes, f) <= lba < Base(tracks, sizes, f)
    ensures Located(LaidOut(tracks, sizes), sizes, lba) == None
  {
    hide Located, LaidOut, Count, Running, First, Lead;
    var r := Located(LaidOut(tracks, sizes), sizes, lba);
    if r.Some? {
      LocatedIsStored(tracks, sizes, lba);
      var (g, k) := r.value;
      RunningGrows(tracks, sizes, g, g + 1);
      RunningGrows(tracks, sizes, f, f + 1);
      if g < f {
        RunningGrows(tracks, sizes, g, f);
      } else if g > f {
        RunningGrows(tracks, sizes, f, g);
      }
      assert false;
    }
  }

  // The track starts never decrease.
  lemma StartsNeverDecrease(tracks: seq<Track>, sizes: seq<nat>, i: nat, j: nat)
    requires WellFormed(tracks, sizes) && i < j < |tracks|
    ensures LaidOut(tracks, sizes)[i].start <= LaidOut(tracks, sizes)[j].start
  {
    hide First, Running, SectorSize, Lead, Sectors;
    StartInFile(tracks, sizes, i);
    StartInFile(tracks, sizes, j);
    if tracks[i].file < tracks[j].file {
      RunningGrows(tracks, sizes, tracks[i].file, tracks[j].file);
    }
  }

  // ---------------------------------------------- one file for the whole disc

  // `pregap_before`: the pregaps of the tracks that start by an address.
  function PregapBefore(tracks: seq<Track>, lba: nat): nat
    decreases |tracks|
  {
    if tracks == [] || tracks[0].start > lba then 0 else tracks[0].pregap + PregapBefore(tracks[1..], lba)
  }

  // `resolve_file_lba` for one file: the sector in it, by whether the file
  // stores the pregaps.
  function ResolvedSingle(tracks: seq<Track>, stored: bool, lba: nat): Option<nat> {
    if stored then Some(lba)
    else if PregapBefore(tracks, lba) > lba then None else Some(lba - PregapBefore(tracks, lba))
  }

  predicate Fits(t: Track, size: nat, k: nat) { k * t.sectorSize + t.sectorSize <= size }

  // A read of an address in an image of one file: the sector it reaches.
  function LocatedSingle(laid: seq<Track>, size: nat, stored: bool, lba: nat): Option<nat> {
    match TrackFor(laid, lba)
    case None => None
    case Some(i) =>
      match ResolvedSingle(laid, stored, lba)
      case None => None
      case Some(k) => if Fits(laid[i], size, k) then Some(k) else None
  }

  function Pregaps(tracks: seq<Track>): nat
    decreases |tracks|
  {
    if tracks == [] then 0 else tracks[0].pregap + Pregaps(tracks[1..])
  }

  predicate Ascending(tracks: seq<Track>) {
    forall i, j | 0 <= i < j < |tracks| :: tracks[i].start <= tracks[j].start
  }

  lemma {:induction false} PregapSplits(tracks: seq<Track>, i: nat, lba: nat)
    requires i <= |tracks| && forall j | 0 <= j < i :: tracks[j].start <= lba
    ensures PregapBefore(tracks, lba) == Pregaps(tracks[..i]) + PregapBefore(tracks[i..], lba)
    decreases i
  {
    if i == 0 {
      assert tracks[0..] == tracks;
    } else {
      PregapSplits(tracks[1..], i - 1, lba);
      assert tracks[..i][1..] == tracks[1..][..i - 1] && tracks[1..][i - 1..] == tracks[i..];
    }
  }

  lemma PregapsOver(tracks: seq<Track>, n: nat, lba: nat)
    requires n <= |tracks| && (forall j | 0 <= j < n :: tracks[j].start <= lba)
    requires forall j | n <= j < |tracks| :: tracks[j].start > lba
    ensures PregapBefore(tracks, lba) == Pregaps(tracks[..n])
  {
    PregapSplits(tracks, n, lba);
    assert n < |tracks| ==> tracks[n..][0] == tracks[n];
  }

  lemma {:induction false} PregapsMonotone(tracks: seq<Track>, i: nat, j: nat)
    requires i <= j <= |tracks|
    ensures Pregaps(tracks[..i]) <= Pregaps(tracks[..j])
    decreases i
  {
    if i > 0 {
      PregapsMonotone(tracks[1..], i - 1, j - 1);
      assert tracks[..i][1..] == tracks[1..][..i - 1] && tracks[..j][1..] == tracks[1..][..j - 1];
    }
  }

  // The tracks that start by an address declare no pregap.
  lemma {:induction false} NoPregapBefore(tracks: seq<Track>, lba: nat)
    requires Ascending(tracks)
    ensures PregapBefore(tracks, lba) == 0 <==>
            forall j | 0 <= j < |tracks| :: tracks[j].start <= lba ==> tracks[j].pregap == 0
    decreases |tracks|
  {
    if tracks != [] && tracks[0].start <= lba {
      NoPregapBefore(tracks[1..], lba);
      assert forall j | 1 <= j < |tracks| :: tracks[j] == tracks[1..][j - 1];
    }
  }

  // The laid-out tracks of one file: INDEX 01 is still the place in the file,
  // the tracks are in order and share a sector size.
  predicate OneFile(laid: seq<Track>) {
    && Ascending(laid)
    && forall i, j | 0 <= i < |laid| && 0 <= j < |laid| :: laid[i].sectorSize == laid[j].sectorSize > 0
  }

  lemma OneFileLayout(tracks: seq<Track>, size: nat)
    requires |tracks| > 0 && forall i | 0 <= i < |tracks| :: tracks[i].file == 0
    ensures var laid := LaidOut(tracks, [size]);
            if |tracks| == 1 then laid == [tracks[0].(fileLba := 0, start := tracks[0].pregap)]
            else forall i | 0 <= i < |tracks| :: laid[i] == tracks[i].(fileLba := tracks[i].start)
  {
    CountAll(tracks);
  }

  lemma {:induction false} CountAll(tracks: seq<Track>)
    requires forall i | 0 <= i < |tracks| :: tracks[i].file == 0
    ensures Count(tracks, 0) == |tracks|
    decreases |tracks|
  {
    if tracks != [] {
      CountAll(tracks[..|tracks| - 1]);
    }
  }

  // From the start of any track on, a read goes where the pregaps say.
  lemma ReadsResolved(laid: seq<Track>, size: nat, stored: bool, i: nat, lba: nat)
    requires i < |laid| && OneFile(laid) && laid[i].start <= lba
    ensures var r := ResolvedSingle(laid, stored, lba);
            LocatedSingle(laid, size, stored, lba) ==
            if r.Some? && Fits(laid[i], size, r.value) then r else None
  {
    hide ResolvedSingle;
    var j := TrackFor(laid, lba);
    assert j.Some? && laid[j.value].sectorSize == laid[i].sectorSize;
  }

  // The disc address of sector k of track i of a file that stores no pregaps:
  // those up to that track come before it.
  function SingleAddress(tracks: seq<Track>, i: nat, k: nat): nat
    requires i < |tracks|
  {
    k + Pregaps(tracks[..i + 1])
  }

  // A stored sector is read at its own address if and only if no later track,
  // by its INDEX, starts by that address with a pregap.
  lemma SingleFileExact(laid: seq<Track>, size: nat, i: nat, k: nat)
    requires i < |laid| && OneFile(laid) && laid[i].start <= k
    requires k * laid[i].sectorSize + laid[i].sectorSize <= size
    ensures var lba := SingleAddress(laid, i, k);
            LocatedSingle(laid, size, false, lba) == Some(k) <==>
            !exists j | i < j < |laid| :: laid[j].start <= lba && laid[j].pregap > 0
  {
    assert Fits(laid[i], size, k);
    hide Fits, TrackFor, LocatedSingle, Pregaps, PregapBefore;
    var lba, rest := SingleAddress(laid, i, k), laid[i + 1..];
    ReadsResolved(laid, size, false, i, lba);
    PregapSplits(laid, i + 1, lba);
    LaterPregaps(laid, i, lba);
  }

  // What the tracks after track i add is nothing if none that starts by the
  // address has a pregap.
  lemma LaterPregaps(laid: seq<Track>, i: nat, lba: nat)
    requires i < |laid| && Ascending(laid)
    ensures PregapBefore(laid[i + 1..], lba) == 0 <==>
            !exists j | i < j < |laid| :: laid[j].start <= lba && laid[j].pregap > 0
  {
    hide PregapBefore;
    var rest := laid[i + 1..];
    NoPregapBefore(rest, lba);
    assert forall j | i < j < |laid| :: laid[j] == rest[j - i - 1];
    assert forall j | 0 <= j < |rest| :: rest[j] == laid[j + i + 1];
  }

  // An address of track i's own pregap, which the file does not store, is
  // refused if and only if the pregaps of the n tracks that start by it exceed
  // it; otherwise it reads a sector of an earlier track.
  lemma SingleFilePregap(laid: seq<Track>, size: nat, i: nat, lba: nat, n: nat)
    requires i < |laid| && OneFile(laid) && laid[i].start * laid[i].sectorSize <= size
    requires laid[i].start + Pregaps(laid[..i]) <= lba < laid[i].start + Pregaps(laid[..i + 1])
    requires n <= |laid| && (forall j | 0 <= j < n :: laid[j].start <= lba)
    requires forall j | n <= j < |laid| :: laid[j].start > lba
    ensures var r := LocatedSingle(laid, size, false, lba);
            (r.None? <==> Pregaps(laid[..n]) > lba) && (r.Some? ==> r.value < laid[i].start)
  {
    hide TrackFor, LocatedSingle, Pregaps, PregapBefore;
    ReadsResolved(laid, size, false, i, lba);
    PregapsOver(laid, n, lba);
    PregapsMonotone(laid, i + 1, n);
    if Pregaps(laid[..n]) <= lba {
      var k, ss := lba - Pregaps(laid[..n]), laid[i].sectorSize;
      TimesGrows(k + 1, laid[i].start, ss);
      assert (k + 1) * ss == k * ss + ss;
    }
  }

  // A file that stores its pregaps is read as it lies, from the first INDEX 01 on.
  lemma SingleFileStored(laid: seq<Track>, size: nat, lba: nat, k: nat)
    requires laid != [] && OneFile(laid)
    ensures LocatedSingle(laid, size, true, lba) == Some(k) <==>
            k == lba && laid[0].start <= lba && k * laid[0].sectorSize + laid[0].sectorSize <= size
  {
    if laid[0].start <= lba {
      ReadsResolved(laid, size, true, 0, lba);
    }
  }

  // So is a file of one track, behind its pregap.
  lemma SoleTrackExact(t: Track, size: nat, lba: nat, k: nat)
    requires t.file == 0
    ensures LocatedSingle(LaidOut([t], [size]), size, false, lba) == Some(k) <==>
            lba == t.pregap + k && k * t.sectorSize + t.sectorSize <= size
  {
    OneFileLayout([t], size);
    var u := t.(fileLba := 0, start := t.pregap);
    assert TrackFor([u], lba) == if u.start <= lba then Some(0) else None by {
      assert [u][..0] == [];
    }
    assert PregapBefore([u], lba) == if u.start <= lba then u.pregap else 0 by {
      assert [u][1..] == [];
    }
  }

  // Three tracks, the last two behind pregaps of 150 that are not stored.
  function TwoPregaps(): (t: seq<Track>)
    ensures OneFile(t) && |t| == 3 && t[0] == Track(0, 2352, 0, 0, 0)
  {
    [Track(0, 2352, 0, 0, 0), Track(0, 2352, 1000, 150, 1000), Track(0, 2352, 2000, 150, 2000)]
  }

  lemma TwoPregapSums()
    ensures var t := TwoPregaps();
            && PregapBefore(t, 2149) == 300 && PregapBefore(t, 1000) == 150 && PregapBefore(t, 850) == 0
            && Pregaps(t[..2]) == 150
  {
    var b, c := Track(0, 2352, 1000, 150, 1000), Track(0, 2352, 2000, 150, 2000);
    var t := TwoPregaps();
    assert t[1..] == [b, c] && [b, c][1..] == [c] && [c][1..] == [];
    assert PregapBefore([c], 2149) == 150 && PregapBefore([c], 1000) == 0;
    assert t[..2] == [t[0], b] && [t[0], b][1..] == [b] && [b][1..] == [];
    assert Pregaps([b]) == 150;
  }

  // Both failures occur: the last sector of the second track is read from 150
  // sectors earlier, and an address inside the first unstored pregap reads a
  // sector of the first track.
  lemma SingleFileFolds()
    ensures var t := TwoPregaps();
            && SingleAddress(t, 1, 1999) == 2149 && LocatedSingle(t, 7056000, false, 2149) == Some(1849)
            && LocatedSingle(t, 7056000, false, 1000) == Some(850) == LocatedSingle(t, 7056000, false, 850)
  {
    hide PregapBefore, Pregaps, TrackFor, LocatedSingle, TwoPregaps, OneFile;
    TwoPregapSums();
    ReadsResolved(TwoPregaps(), 7056000, false, 0, 2149);
    ReadsResolved(TwoPregaps(), 7056000, false, 0, 1000);
    ReadsResolved(TwoPregaps(), 7056000, false, 0, 850);
  }

  // `resolve_file_lba` and the bounds check of a read, for any image.
  function Lookup(laid: seq<Track>, sizes: seq<nat>, stored: bool, lba: nat): Option<(nat, nat)>
    requires InFiles(laid, sizes)
  {
    if |sizes| > 1 then Located(laid, sizes, lba)
    else if sizes == [] then None
    else
      match LocatedSingle(laid, sizes[0], stored, lba)
      case None => None
      case Some(k) => Some((0, k))
  }

  // ------------------------------------------------------- as it is run

  lemma {:induction false} CountNext(tracks: seq<Track>, f: nat, i: nat)
    requires i < |tracks|
    ensures Count(tracks[..i + 1], f) == Count(tracks[..i], f) + if tracks[i].file == f then 1 else 0
  {
    assert tracks[..i + 1][..i] == tracks[..i];
  }

  lemma {:induction false} CountMonotone(tracks: seq<Track>, f: nat, i: nat)
    requires i <= |tracks|
    ensures Count(tracks[..i], f) <= Count(tracks, f)
    decreases |tracks| - i
  {
    if i == |tracks| {
      assert tracks[..i] == tracks;
    } else {
      CountNext(tracks, f, i);
      CountMonotone(tracks, f, i + 1);
    }
  }

  // A file that holds one track: it is the first.
  lemma SoleTrack(tracks: seq<Track>, f: nat, i: nat)
    requires i < |tracks| && tracks[i].file == f && Count(tracks, f) == 1
    ensures i == First(tracks, f)
  {
    var first := First(tracks, f);
    var before := tracks[..i];
    assert first < i ==> before[first].file == f;
    CountMonotone(tracks, f, i + 1);
    CountNext(tracks, f, i);
  }

  class Disc {
    const tracks: array<Track>
    const sizes: seq<nat>
    const pregapInFile: bool

    constructor (tracks: array<Track>, sizes: seq<nat>, pregapInFile: bool)
      ensures this.tracks == tracks && this.sizes == sizes && this.pregapInFile == pregapInFile
    {
      this.tracks, this.sizes, this.pregapInFile := tracks, sizes, pregapInFile;
    }

    // The first track of a file and how many it has.
    method Survey(f: nat) returns (first: int, count: nat)
      ensures count == Count(tracks[..], f)
      ensures if count == 0 then first == -1 else first == First(tracks[..], f)
    {
      first, count := -1, 0;
      ghost var all := tracks[..];
      for i := 0 to tracks.Length
        invariant count == Count(all[..i], f)
        invariant first == -1 <==> count == 0
        invariant first == -1 ==> forall j | 0 <= j < i :: all[j].file != f
        invariant first != -1 ==> 0 <= first < i && all[first].file == f
        invariant first != -1 ==> forall j | 0 <= j < first :: all[j].file != f
      {
        CountNext(all, f, i);
        if tracks[i].file == f {
          if first < 0 {
            first := i;
          }
          count := count + 1;
        }
      }
      assert all[..tracks.Length] == all;
    }

    // The tracks with the first k files laid out, and file k up to track i.
    ghost predicate Partly(was: seq<Track>, k: nat, i: nat)
      requires InFiles(was, sizes)
      reads tracks
    {
      && tracks.Length == |was|
      && forall j | 0 <= j < |was| :: tracks[j] ==
           if was[j].file < k || (was[j].file == k && j < i) then Placed(was, sizes, j) else was[j]
    }

    // The tracks of one file.
    method PlaceFile(f: nat, count: nat, running: nat, ghost was: seq<Track>) returns (base: nat)
      requires InFiles(was, sizes) && Partly(was, f, 0) && f < |sizes|
      requires count == Count(was, f) > 0 && running == Running(was, sizes, f)
      modifies tracks
      ensures Partly(was, f, |was|) && base == Base(was, sizes, f)
    {
      hide Count, Running, First;
      base := running;
      for i := 0 to tracks.Length
        invariant Partly(was, f, i)
        invariant base == running + if count == 1 && First(was, f) < i then Lead(was, f) else 0
      {
        if tracks[i].file == f {
          if count == 1 {
            SoleTrack(was, f, i);
            base := base + tracks[i].pregap;
            tracks[i] := tracks[i].(fileLba := 0, start := base);
          } else {
            tracks[i] := tracks[i].(fileLba := tracks[i].start, start := tracks[i].start + base);
          }
        }
      }
    }

    // `layout_tracks`
    method Layout() returns (total: nat)
      requires InFiles(tracks[..], sizes)
      modifies tracks
      ensures tracks[..] == LaidOut(old(tracks[..]), sizes)
      ensures total == Running(old(tracks[..]), sizes, |sizes|)
    {
      hide Count, First, Placed;
      ghost var was := tracks[..];
      total := 0;
      for f := 0 to |sizes|
        invariant Partly(was, f, 0) && total == Running(was, sizes, f)
      {
        FilesKept(was, f);
        var first, count := Survey(f);
        if count > 0 {
          var ss := if tracks[first].sectorSize != 0 then tracks[first].sectorSize else RAW_SECTOR;
          var base := PlaceFile(f, count, total, was);
          total := base + sizes[f] / ss;
        } else {
          NoTracks(was, f);
        }
      }
    }

    lemma NoTracks(was: seq<Track>, f: nat)
      requires Count(was, f) == 0
      ensures forall j | 0 <= j < |was| :: was[j].file != f
    {
    }

    // Laying out moves no track to another file.
    lemma FilesKept(was: seq<Track>, f: nat)
      requires InFiles(was, sizes) && Partly(was, f, 0)
      ensures Count(tracks[..], f) == Count(was, f)
      ensures Count(was, f) > 0 ==>
                First(tracks[..], f) == First(was, f) &&
                tracks[First(was, f)].sectorSize == was[First(was, f)].sectorSize
    {
      hide Running, Lead;
      SameCount(tracks[..], was, f);
    }

    lemma {:induction false} SameCount(s: seq<Track>, was: seq<Track>, f: nat)
      requires |s| == |was| && forall j | 0 <= j < |was| :: s[j].file == was[j].file
      ensures Count(s, f) == Count(was, f)
      decreases |s|
    {
      if s != [] {
        SameCount(s[..|s| - 1], was[..|s| - 1], f);
      }
    }

    method FindTrack(lba: nat) returns (best: Option<nat>)
      ensures best == TrackFor(tracks[..], lba)
    {
      best := None;
      ghost var all := tracks[..];
      for i := 0 to tracks.Length
        invariant best == TrackFor(all[..i], lba)
      {
        assert all[..i + 1][..i] == all[..i];
        if tracks[i].start <= lba && (best.None? || tracks[i].start >= tracks[best.value].start) {
          best := Some(i);
        }
      }
      assert all[..tracks.Length] == all;
    }

    // `pregap_before`
    method SumPregaps(lba: nat) returns (sum: nat)
      ensures sum == PregapBefore(tracks[..], lba)
    {
      sum := 0;
      ghost var all := tracks[..];
      for i := 0 to tracks.Length
        invariant PregapBefore(all, lba) == sum + PregapBefore(all[i..], lba)
      {
        assert all[i..][1..] == all[i + 1..];
        if tracks[i].start > lba {
          return;
        }
        sum := sum + tracks[i].pregap;
      }
    }

    // The place of an address in track t's file.
    method Resolve(t: Track, lba: nat) returns (k: Option<nat>)
      requires t.start <= lba
      ensures k == if |sizes| > 1 then Some(t.fileLba + (lba - t.start))
                   else ResolvedSingle(tracks[..], pregapInFile, lba)
    {
      if |sizes| > 1 {
        return Some(t.fileLba + (lba - t.start));
      }
      if !pregapInFile {
        var g := SumPregaps(lba);
        return if g > lba then None else Some(lba - g);
      }
      k := Some(lba);
    }

    // Where a read of an address goes.
    method Locate(lba: nat) returns (r: Option<(nat, nat)>)
      requires InFiles(tracks[..], sizes)
      ensures r == Lookup(tracks[..], sizes, pregapInFile, lba)
    {
      hide TrackFor, PregapBefore;
      var best := FindTrack(lba);
      if best.None? {
        return None;
      }
      var t := tracks[best.value];
      var k := Resolve(t, lba);
      if k.None? || k.value * t.sectorSize + t.sectorSize > sizes[t.file] {
        return None;
      }
      r := Some((t.file, k.value));
    }
  }

  // ----------------------------------------------- one file for each track

  // Track i is alone in the i-th file.
  predicate FileEach(tracks: seq<Track>, sizes: seq<nat>) {
    && |tracks| == |sizes|
    && forall i | 0 <= i < |tracks| :: tracks[i].file == i && tracks[i].sectorSize > 0
  }

  lemma {:induction false} CountEach(tracks: seq<Track>, f: nat)
    requires forall i | 0 <= i < |tracks| :: tracks[i].file == i
    ensures Count(tracks, f) == if f < |tracks| then 1 else 0
    decreases |tracks|
  {
    if tracks != [] {
      CountEach(tracks[..|tracks| - 1], f);
    }
  }

  lemma FirstEach(tracks: seq<Track>, f: nat)
    requires (forall i | 0 <= i < |tracks| :: tracks[i].file == i) && f < |tracks|
    ensures Count(tracks, f) == 1 && First(tracks, f) == f
  {
    CountEach(tracks, f);
  }

  // With a file for each track the tracks follow one another: each starts at the
  // top of its file, behind its pregap, where the one before it ends.
  lemma TracksFollow(tracks: seq<Track>, sizes: seq<nat>, i: nat)
    requires FileEach(tracks, sizes) && i < |tracks|
    ensures var laid := LaidOut(tracks, sizes);
            && laid[i] == tracks[i].(start := laid[i].start, fileLba := 0)
            && laid[i].start ==
               (if i == 0 then 0 else laid[i - 1].start + sizes[i - 1] / tracks[i - 1].sectorSize) + tracks[i].pregap
  {
    hide First;
    FirstEach(tracks, i);
    if i > 0 {
      FirstEach(tracks, i - 1);
    }
  }

  lemma {:induction false} CountNone(tracks: seq<Track>, f: nat)
    requires forall j | 0 <= j < |tracks| :: tracks[j].file != f
    ensures Count(tracks, f) == 0
    decreases |tracks|
  {
    if tracks != [] {
      CountNone(tracks[..|tracks| - 1], f);
    }
  }

  lemma {:induction false} CountSome(tracks: seq<Track>, f: nat, i: nat)
    requires i < |tracks| && tracks[i].file == f
    ensures (forall j | 0 <= j < |tracks| && j != i :: tracks[j].file != f) ==> Count(tracks, f) == 1
    ensures (exists j | 0 <= j < |tracks| && j != i :: tracks[j].file == f) ==> Count(tracks, f) > 1
    decreases |tracks|
  {
    var n := |tracks| - 1;
    var front := tracks[..n];
    if i < n {
      CountSome(front, f, i);
      assert forall j | 0 <= j < n :: front[j] == tracks[j];
    } else if forall j | 0 <= j < n :: tracks[j].file != f {
      CountNone(front, f);
    } else {
      assert exists j | 0 <= j < |front| :: front[j].file == f;
    }
  }

  // The room a file takes: its sectors, of the size its first track gives or else
  // 2352 bytes, behind the pregap of its track if it has only one.
  lemma FileExtent(tracks: seq<Track>, sizes: seq<nat>, f: nat, i: nat)
    requires f < |sizes| && i < |tracks| && tracks[i].file == f && forall j | 0 <= j < i :: tracks[j].file != f
    ensures Count(tracks, f) > 0
    ensures var size := if tracks[i].sectorSize == 0 then 2352 else tracks[i].sectorSize;
            Running(tracks, sizes, f + 1) == Base(tracks, sizes, f) + sizes[f] / size
    ensures Base(tracks, sizes, f) == Running(tracks, sizes, f) +
            if forall j | i < j < |tracks| :: tracks[j].file != f then tracks[i].pregap else 0
  {
    CountSome(tracks, f, i);
    assert First(tracks, f) == i;
  }

  // What a read finds on an image of several files,
  lemma SeveralFilesExact(tracks: seq<Track>, sizes: seq<nat>, stored: bool, lba: nat, f: nat, k: nat)
    requires WellFormed(tracks, sizes) && |sizes| >= 2
    ensures Lookup(LaidOut(tracks, sizes), sizes, stored, lba) == Some((f, k)) <==>
            Stored(tracks, sizes, f, k) && f < |sizes| && Count(tracks, f) > 0 && lba == Base(tracks, sizes, f) + k
  {
    hide Located, Stored, Base, Count;
    OneToOne(tracks, sizes, lba, f, k);
  }

  // and on an image of one file and one track.
  lemma SoleFileExact(t: Track, size: nat, lba: nat, f: nat, k: nat)
    requires t.file == 0
    ensures Lookup(LaidOut([t], [size]), [size], false, lba) == Some((f, k)) <==>
            f == 0 && lba == t.pregap + k && k * t.sectorSize + t.sectorSize <= size
  {
    hide LocatedSingle;
    SoleTrackExact(t, size, lba, k);
  }
}
