// What a PNG reader makes of a file: chunks, the zlib frame, stored deflate
// blocks and unfiltered scanlines, with the writer's layout beside it.
module PngFormat {
  import opened Options
  import opened PngCrc
  import opened Words

  // -------------------------------------------------------- big-endian words

  function Be32(v: nat): (b: seq<U8>)
    requires v < 0x1_0000_0000
    ensures |b| == 4
  {
    [v / 0x100_0000, v / 0x1_0000 % 0x100, v / 0x100 % 0x100, v % 0x100]
  }

  function Word(f: seq<U8>, at: nat): (v: nat)
    requires at + 4 <= |f|
    ensures v < 0x1_0000_0000
  {
    f[at] as int * 0x100_0000 + f[at + 1] as int * 0x1_0000 + f[at + 2] as int * 0x100 + f[at + 3] as int
  }

  lemma WordOfBe32(f: seq<U8>, at: nat, v: nat)
    requires v < 0x1_0000_0000 && at + 4 <= |f| && f[at..at + 4] == Be32(v)
    ensures Word(f, at) == v
  {
    var b := f[at..at + 4];
    assert f[at] == b[0] && f[at + 1] == b[1] && f[at + 2] == b[2] && f[at + 3] == b[3];
    FourBytes(v);
  }

  lemma FourBytes(v: nat)
    ensures v == v / 0x100_0000 * 0x100_0000 + v / 0x1_0000 % 0x100 * 0x1_0000 + v / 0x100 % 0x100 * 0x100 + v % 0x100
  {
    var a := v / 0x100;
    var b := a / 0x100;
    assert v == a * 0x100 + v % 0x100 && a == b * 0x100 + a % 0x100 && b == b / 0x100 * 0x100 + b % 0x100;
    assert v / 0x1_0000 == b && v / 0x100_0000 == b / 0x100;
  }

  // ---------------------------------------------------------------- Adler-32

  const ADLER_BASE: nat := 65521

  // RFC 1950 section 8.2: s1 is one more than the sum of the bytes, s2 the sum of
  // all the values s1 takes.
  function S1(d: seq<U8>): nat
    decreases |d|
  {
    if d == [] then 1 else S1(d[..|d| - 1]) + d[|d| - 1] as int
  }

  function S2(d: seq<U8>): nat
    decreases |d|
  {
    if d == [] then 0 else S2(d[..|d| - 1]) + S1(d)
  }

  function Adler(d: seq<U8>): (v: nat)
    ensures v < 0x1_0000_0000
  {
    S2(d) % ADLER_BASE * 0x1_0000 + S1(d) % ADLER_BASE
  }

  // ---------------------------------------------------- stored deflate blocks

  const MAX_STORED: nat := 65535

  // What a decoder holds: the bytes so far and where the next block starts.
  datatype Inflated = Inflated(data: seq<U8>, end: nat)

  // RFC 1951 section 3.2.4: a header byte with BFINAL and BTYPE 00, LEN and its
  // complement, LEN bytes; up to and including the final block.
  function Inflate(z: seq<U8>, pos: nat): (r: Option<Inflated>)
    requires pos <= |z|
    decreases |z| - pos
  {
    if pos + 5 > |z| || z[pos] / 2 % 4 != 0 then None
    else
      var len: int := z[pos + 1] as int + 0x100 * z[pos + 2] as int;
      var body := pos + 5;
      if z[pos + 3] as int != 0xFF - z[pos + 1] as int || z[pos + 4] as int != 0xFF - z[pos + 2] as int
         || body + len > |z| then None
      else if z[pos] % 2 == 1 then Some(Inflated(z[body..body + len], body + len))
      else
        match Inflate(z, body + len)
        case None => None
        case Some(rest) => Some(Inflated(z[body..body + len] + rest.data, rest.end))
  }

  // RFC 1950 section 2.2: method and flags, the deflate data, the check value.
  function Unzipped(z: seq<U8>): Option<seq<U8>> {
    if |z| < 2 || z[0] % 16 != 8 || z[0] / 16 > 7 || (z[0] as int * 0x100 + z[1] as int) % 31 != 0
       || z[1] / 32 % 2 != 0 then None
    else
      match Inflate(z, 2)
      case None => None
      case Some(r) =>
        if r.end + 4 == |z| && Word(z, r.end) == Adler(r.data) then Some(r.data) else None
  }

  function BlockSize(n: nat): nat { if n > MAX_STORED then MAX_STORED else n }

  // One block's five bytes.
  function BlockHeader(n: nat, last: bool): (b: seq<U8>)
    requires n <= MAX_STORED
    ensures |b| == 5
  {
    [if last then 1 else 0, n % 0x100, n / 0x100, 0xFF - n % 0x100, 0xFF - n / 0x100]
  }

  function Blocks(raw: seq<U8>): (b: seq<U8>)
    decreases |raw|
  {
    if raw == [] then [] else
    var n := BlockSize(|raw|);
    BlockHeader(n, n == |raw|) + raw[..n] + Blocks(raw[n..])
  }

  function Zlib(raw: seq<U8>): seq<U8> { [0x78, 0x01] + Blocks(raw) + Be32(Adler(raw)) }

  // The size the writer allocates.
  function ZlibSize(n: nat): nat { 2 + (n + 65534) / 65535 * 5 + n + 4 }

  lemma {:induction false} BlocksSize(raw: seq<U8>)
    ensures |Blocks(raw)| == (|raw| + 65534) / 65535 * 5 + |raw|
    decreases |raw|
  {
    if raw != [] {
      BlocksSize(raw[BlockSize(|raw|)..]);
    }
  }

  lemma {:induction false} InflateBlocks(z: seq<U8>, pos: nat, raw: seq<U8>)
    requires raw != [] && pos + |Blocks(raw)| <= |z| && z[pos..pos + |Blocks(raw)|] == Blocks(raw)
    ensures Inflate(z, pos) == Some(Inflated(raw, pos + |Blocks(raw)|))
    decreases |raw|
  {
    hide Inflate, BlockHeader;
    var n := BlockSize(|raw|);
    var h, rest := BlockHeader(n, n == |raw|), Blocks(raw[n..]);
    var b := z[pos..pos + |Blocks(raw)|];
    assert b == h + raw[..n] + rest;
    SubSlice(z, pos, |b|, 0, 5);
    SubSlice(z, pos, |b|, 5, 5 + n);
    assert b[0..5] == h && b[5..5 + n] == raw[..n];
    InflateOne(z, pos, n, n == |raw|);
    if n < |raw| {
      SubSlice(z, pos, |b|, 5 + n, |b|);
      assert b[5 + n..|b|] == rest;
      InflateBlocks(z, pos + 5 + n, raw[n..]);
      assert raw[..n] + raw[n..] == raw;
    } else {
      assert raw[..n] == raw && rest == [];
    }
  }

  lemma SubSlice(z: seq<U8>, pos: nat, n: nat, i: nat, j: nat)
    requires i <= j <= n && pos + n <= |z|
    ensures z[pos..pos + n][i..j] == z[pos + i..pos + j]
  {
    var part := z[pos..pos + n];
    forall k | 0 <= k < j - i
      ensures part[i..j][k] == z[pos + i..pos + j][k]
    {
      assert part[i + k] == z[pos + (i + k)];
    }
  }

  // One block read back.
  lemma InflateOne(z: seq<U8>, pos: nat, n: nat, last: bool)
    requires n <= MAX_STORED && pos + 5 + n <= |z| && z[pos..pos + 5] == BlockHeader(n, last)
    ensures Inflate(z, pos) ==
            var body := z[pos + 5..pos + 5 + n];
            if last then Some(Inflated(body, pos + 5 + n))
            else
              match Inflate(z, pos + 5 + n)
              case None => None
              case Some(r) => Some(Inflated(body + r.data, r.end))
  {
    var h := BlockHeader(n, last);
    assert z[pos] == h[0] && z[pos + 1] == h[1] && z[pos + 2] == h[2] && z[pos + 3] == h[3] && z[pos + 4] == h[4];
  }

  // The zlib stream fills its buffer exactly and decodes to the scanlines.
  lemma ZlibRoundTrip(raw: seq<U8>)
    requires raw != []
    ensures |Zlib(raw)| == ZlibSize(|raw|) && Unzipped(Zlib(raw)) == Some(raw)
    ensures Zlib(raw)[..2] == [0x78, 0x01]
  {
    hide Adler, Inflate, Blocks;
    var z, b := Zlib(raw), Blocks(raw);
    BlocksSize(raw);
    assert z[2..2 + |b|] == b;
    InflateBlocks(z, 2, raw);
    assert z[2 + |b|..2 + |b| + 4] == Be32(Adler(raw));
    WordOfBe32(z, 2 + |b|, Adler(raw));
  }

  // A stream that breaks off inside the stored blocks has no final block.
  lemma {:induction false} InflateCut(z: seq<U8>, pos: nat, raw: seq<U8>)
    requires raw != [] && pos <= |z| < pos + |Blocks(raw)| && z[pos..] == Blocks(raw)[..|z| - pos]
    ensures Inflate(z, pos) == None
    decreases |raw|
  {
    hide BlockHeader, Inflate;
    var n := BlockSize(|raw|);
    var h, rest, left := BlockHeader(n, n == |raw|), Blocks(raw[n..]), z[pos..];
    assert Blocks(raw) == h + raw[..n] + rest;
    if |left| >= 5 {
      assert z[pos..pos + 5] == left[..5] == Blocks(raw)[..5] == h;
    }
    if |left| < 5 + n {
      CutBlock(z, pos, n, n == |raw|);
    } else {
      assert z[pos + 5 + n..] == left[5 + n..];
      assert left[5 + n..] == rest[..|left| - 5 - n];
      InflateOne(z, pos, n, n == |raw|);
      InflateCut(z, pos + 5 + n, raw[n..]);
    }
  }

  lemma CutBlock(z: seq<U8>, pos: nat, n: nat, last: bool)
    requires n <= MAX_STORED && pos <= |z| < pos + 5 + n
    requires |z| >= pos + 5 ==> z[pos..pos + 5] == BlockHeader(n, last)
    ensures Inflate(z, pos) == None
  {
    if |z| >= pos + 5 {
      var h := BlockHeader(n, last);
      assert z[pos + 1] == h[1] && z[pos + 2] == h[2];
    }
  }

  // --------------------------------------------------------------- chunks

  const CRC_START: bv32 := 0xFFFF_FFFF

  type Tag = t: seq<U8> | |t| == 4 witness [0, 0, 0, 0]

  function CrcValue(bytes: seq<U8>): (v: nat)
    ensures v < 0x1_0000_0000
  {
    Complemented(Crc(CRC_START, bytes))
  }

  function Complemented(c: bv32): (v: nat)
    ensures v < 0x1_0000_0000
  {
    Xor(c, 0xFFFF_FFFF) as nat
  }

  // RFC 2083 section 3.2: length, type, data, and the CRC of type and data.
  function Chunk(tag: Tag, data: seq<U8>): (c: seq<U8>)
    requires |data| < 0x1_0000_0000
    ensures |c| == |data| + 12
  {
    Be32(|data|) + tag + data + Be32(CrcValue(tag + data))
  }

  datatype ChunkRead = ChunkRead(tag: Tag, data: seq<U8>, next: nat)

  function ReadChunk(f: seq<U8>, pos: nat): Option<ChunkRead> {
    if pos + 12 > |f| then None
    else
      var n := Word(f, pos);
      if pos + 12 + n > |f| || Word(f, pos + 8 + n) != CrcValue(f[pos + 4..pos + 8 + n]) then None
      else Some(ChunkRead(f[pos + 4..pos + 8], f[pos + 8..pos + 8 + n], pos + 12 + n))
  }

  lemma ChunkRoundTrip(f: seq<U8>, pos: nat, tag: Tag, data: seq<U8>)
    requires |data| < 0x1_0000_0000 && pos + 12 + |data| <= |f|
    requires f[pos..pos + 12 + |data|] == Chunk(tag, data)
    ensures ReadChunk(f, pos) == Some(ChunkRead(tag, data, pos + 12 + |data|))
  {
    hide CrcValue, Be32, Word;
    var n := |data|;
    var c := Chunk(tag, data);
    var w := Be32(CrcValue(tag + data));
    SubSlice(f, pos, |c|, 0, 4);
    SubSlice(f, pos, |c|, 4, 8);
    SubSlice(f, pos, |c|, 8, 8 + n);
    SubSlice(f, pos, |c|, 4, 8 + n);
    SubSlice(f, pos, |c|, 8 + n, 12 + n);
    assert c[0..4] == Be32(n) && c[4..8] == tag && c[8..8 + n] == data && c[8 + n..12 + n] == w;
    assert c[4..8 + n] == tag + data;
    WordOfBe32(f, pos, n);
    WordOfBe32(f, pos + 8 + n, CrcValue(tag + data));
  }

  // ------------------------------------------------------------ scanlines

  type Argb = x: int | 0 <= x < 0x1_0000_0000

  datatype Rgb = Rgb(red: U8, green: U8, blue: U8)

  function RgbOf(p: Argb): Rgb { Rgb(p / 0x1_0000 % 0x100, p / 0x100 % 0x100, p % 0x100) }

  function Triple(p: Argb): (b: seq<U8>)
    ensures |b| == 3
  {
    [p / 0x1_0000 % 0x100, p / 0x100 % 0x100, p % 0x100]
  }

  function Triples(row: seq<Argb>): (b: seq<U8>)
    ensures |b| == 3 * |row|
    decreases |row|
  {
    if row == [] then [] else Triple(row[0]) + Triples(row[1..])
  }

  // h rows of w pixels, each behind a filter byte of zero.
  function Scanlines(argb: seq<Argb>, w: nat, h: nat): (b: seq<U8>)
    requires |argb| == h * w
    ensures |b| == h * (1 + 3 * w)
    decreases h
  {
    if h == 0 then []
    else
      RowsSplit(h, w);
      [0] + Triples(argb[..w]) + Scanlines(argb[w..], w, h - 1)
  }

  lemma RowsSplit(h: nat, w: nat)
    requires h > 0
    ensures h * w == w + (h - 1) * w && h * (1 + 3 * w) == 1 + 3 * w + (h - 1) * (1 + 3 * w) && (h - 1) * w >= 0
  {
  }

  // RFC 2083 section 6.2: filter type 0 leaves the bytes of a row as they are.
  function RowPixels(row: seq<U8>): (r: seq<Rgb>)
    requires |row| % 3 == 0
    decreases |row|
  {
    if row == [] then [] else [Rgb(row[0], row[1], row[2])] + RowPixels(row[3..])
  }

  function Unfiltered(raw: seq<U8>, w: nat, h: nat): Option<seq<Rgb>>
    decreases h
  {
    if h == 0 then if raw == [] then Some([]) else None
    else if |raw| < 1 + 3 * w || raw[0] != 0 then None
    else
      match Unfiltered(raw[1 + 3 * w..], w, h - 1)
      case None => None
      case Some(rest) => Some(RowPixels(raw[1..1 + 3 * w]) + rest)
  }

  function Colours(argb: seq<Argb>): (r: seq<Rgb>)
    ensures |r| == |argb|
  {
    seq(|argb|, i requires 0 <= i < |argb| => RgbOf(argb[i]))
  }

  lemma {:induction false} RowRoundTrip(row: seq<Argb>)
    ensures RowPixels(Triples(row)) == Colours(row)
    decreases |row|
  {
    if row != [] {
      var t := Triples(row);
      assert t[..3] == Triple(row[0]) && t[3..] == Triples(row[1..]);
      assert t[0] == t[..3][0] && t[1] == t[..3][1] && t[2] == t[..3][2];
      RowRoundTrip(row[1..]);
    }
  }

  lemma {:induction false} ScanlinesRoundTrip(argb: seq<Argb>, w: nat, h: nat)
    requires |argb| == h * w
    ensures Unfiltered(Scanlines(argb, w, h), w, h) == Some(Colours(argb))
    decreases h
  {
    hide Triples, RowPixels;
    if h > 0 {
      RowsSplit(h, w);
      var raw := Scanlines(argb, w, h);
      var row := Triples(argb[..w]);
      assert raw[1..1 + 3 * w] == row && raw[1 + 3 * w..] == Scanlines(argb[w..], w, h - 1);
      RowRoundTrip(argb[..w]);
      ScanlinesRoundTrip(argb[w..], w, h - 1);
      assert Colours(argb) == Colours(argb[..w]) + Colours(argb[w..]);
    }
  }

  // ------------------------------------------------------------ the file

  const SIGNATURE: seq<U8> := [137, 80, 78, 71, 13, 10, 26, 10]
  const IHDR: Tag := [73, 72, 68, 82]
  const IDAT: Tag := [73, 68, 65, 84]
  const IEND: Tag := [73, 69, 78, 68]

  // Eight bits a sample, truecolour, deflate, adaptive filtering, not interlaced.
  const FORMAT: seq<U8> := [8, 2, 0, 0, 0]

  function Header(w: nat, h: nat): (b: seq<U8>)
    requires w < 0x1_0000_0000 && h < 0x1_0000_0000
    ensures |b| == 13
  {
    Be32(w) + Be32(h) + FORMAT
  }

  // A picture whose pixels an int can number.
  predicate Picture(argb: seq<Argb>, w: nat, h: nat) {
    1 <= w < 0x8000_0000 && 1 <= h < 0x8000_0000 && |argb| == h * w < 0x8000_0000
  }

  // What goes into the data chunk: as much as its 32-bit length says.
  function Payload(z: seq<U8>): (p: seq<U8>)
    ensures |p| < 0x1_0000_0000
  {
    z[..|z| % 0x1_0000_0000]
  }

  function PngFile(argb: seq<Argb>, w: nat, h: nat): seq<U8>
    requires Picture(argb, w, h)
  {
    SIGNATURE + Chunk(IHDR, Header(w, h)) + Chunk(IDAT, Payload(Zlib(Scanlines(argb, w, h)))) + Chunk(IEND, [])
  }

  datatype Image = Image(width: nat, height: nat, pixels: seq<Rgb>)

  // A reader of such files.
  function Decoded(f: seq<U8>): Option<Image> {
    if |f| < 8 || f[..8] != [0x89, 0x50, 0x4E, 0x47, 0x0D, 0x0A, 0x1A, 0x0A] then None
    else
      match ReadChunk(f, 8)
      case None => None
      case Some(head) =>
        if head.tag != [0x49, 0x48, 0x44, 0x52] || |head.data| != 13 || head.data[8..] != [8, 2, 0, 0, 0] then None
        else
          var w, h := Word(head.data, 0), Word(head.data, 4);
          match ReadChunk(f, head.next)
          case None => None
          case Some(body) =>
            if body.tag != [0x49, 0x44, 0x41, 0x54]
               || ReadChunk(f, body.next) != Some(ChunkRead([0x49, 0x45, 0x4E, 0x44], [], |f|)) then None
            else
              match Unzipped(body.data)
              case None => None
              case Some(raw) =>
                match Unfiltered(raw, w, h)
                case None => None
                case Some(pixels) => Some(Image(w, h, pixels))
  }

  lemma HeaderRoundTrip(w: nat, h: nat)
    requires w < 0x1_0000_0000 && h < 0x1_0000_0000
    ensures var d := Header(w, h); Word(d, 0) == w && Word(d, 4) == h && d[8..] == FORMAT
  {
    hide Be32, Word;
    var d := Header(w, h);
    assert d[0..4] == Be32(w) && d[4..8] == Be32(h);
    WordOfBe32(d, 0, w);
    WordOfBe32(d, 4, h);
  }

  // The chunks of the file, read back.
  lemma FileChunks(argb: seq<Argb>, w: nat, h: nat)
    requires Picture(argb, w, h)
    ensures var raw := Scanlines(argb, w, h);
            Decoded(PngFile(argb, w, h)) ==
            match Unzipped(Payload(Zlib(raw)))
            case None => None
            case Some(read) =>
              match Unfiltered(read, w, h)
              case None => None
              case Some(pixels) => Some(Image(w, h, pixels))
  {
    hide Chunk, Zlib, Scanlines, Header, Unzipped, Unfiltered, ReadChunk, Word, Payload;
    HeaderRoundTrip(w, h);
    var data := Payload(Zlib(Scanlines(argb, w, h)));
    var c1, c2, c3 := Chunk(IHDR, Header(w, h)), Chunk(IDAT, data), Chunk(IEND, []);
    var f := PngFile(argb, w, h);
    assert f == SIGNATURE + c1 + c2 + c3;
    assert f[8..8 + |c1|] == c1 && f[8 + |c1|..8 + |c1| + |c2|] == c2 && f[8 + |c1| + |c2|..|f|] == c3;
    ChunkRoundTrip(f, 8, IHDR, Header(w, h));
    ChunkRoundTrip(f, 8 + |c1|, IDAT, data);
    ChunkRoundTrip(f, 8 + |c1| + |c2|, IEND, []);
    assert f[..8] == SIGNATURE;
  }

  lemma CutIsUnreadable(raw: seq<U8>)
    requires raw != [] && ZlibSize(|raw|) >= 0x1_0000_0000
    ensures Unzipped(Payload(Zlib(raw))) == None
  {
    hide Blocks, Inflate, Adler;
    ZlibRoundTrip(raw);
    BlocksSize(raw);
    var z, p := Zlib(raw), Payload(Zlib(raw));
    assert |p| + 0x1_0000_0000 <= |z|;
    if |p| >= 2 {
      assert p[2..] == z[2..|p|] == Blocks(raw)[..|p| - 2];
      InflateCut(p, 2, raw);
    }
  }

  // What is written can be read, the size and the colours of every pixel, if
  // and only if the data chunk's length holds the size of its stream.
  lemma PngRoundTrip(argb: seq<Argb>, w: nat, h: nat)
    requires Picture(argb, w, h)
    ensures Decoded(PngFile(argb, w, h)) ==
            if ZlibSize(h * (1 + 3 * w)) < 0x1_0000_0000 then Some(Image(w, h, Colours(argb))) else None
  {
    hide Zlib, Scanlines, Unzipped, Unfiltered, Colours, ZlibSize, Decoded, PngFile;
    var raw := Scanlines(argb, w, h);
    RowsSplit(h, w);
    FileChunks(argb, w, h);
    ZlibRoundTrip(raw);
    if ZlibSize(|raw|) < 0x1_0000_0000 {
      assert Payload(Zlib(raw)) == Zlib(raw);
      ScanlinesRoundTrip(argb, w, h);
    } else {
      CutIsUnreadable(raw);
    }
  }

  // Such a picture: one pixel wide and 2^30 high, its scanlines take 2^32 bytes.
  lemma TallPictureIsUnreadable()
    ensures var argb: seq<Argb> := seq(0x4000_0000, i => 0);
            Picture(argb, 1, 0x4000_0000) && Decoded(PngFile(argb, 1, 0x4000_0000)) == None
  {
    hide Decoded, PngFile;
    PngRoundTrip(seq(0x4000_0000, i => 0), 1, 0x4000_0000);
  }

  // --------------------------------------------------- known check values

  lemma AdlerStep(d: seq<U8>, b: U8, s1: nat, s2: nat)
    requires S1(d) == s1 && S2(d) == s2
    ensures S1(d + [b]) == s1 + b as int && S2(d + [b]) == s1 + b as int + s2
  {
    assert (d + [b])[..|d|] == d;
  }

  // Of three letters, as every implementation has it.
  lemma KnownAdler()
    ensures Adler([0x61, 0x62, 0x63]) == 0x024D_0127
  {
    AdlerStep([], 0x61, 1, 0);
    assert [] + [0x61] == [0x61];
    AdlerStep([0x61], 0x62, 98, 98);
    assert [0x61] + [0x62] == [0x61, 0x62];
    AdlerStep([0x61, 0x62], 0x63, 196, 294);
    assert [0x61, 0x62] + [0x63] == [0x61, 0x62, 0x63];
  }

  // The largest sums wrap at 65521.
  lemma AdlerWraps(d: seq<U8>)
    ensures Adler(d) / 0x1_0000 == S2(d) % 65521 && Adler(d) % 0x1_0000 == S1(d) % 65521
  {
  }

  // The CRC of one letter.
  lemma KnownCrc()
    ensures CrcValue([0x61]) == 0xE8B7_BE43
  {
    KnownRegister();
    hide TakeBits;
    assert [0x61][..0] == [];
    assert Crc(CRC_START, [0x61]) == 0x174841BC;
  }

  // Numbers go highest byte first, and a pixel is alpha, red, green and blue from
  // the top, of which the alpha is dropped.
  lemma HighestFirst(a: U8, b: U8, c: U8, d: U8)
    ensures var v: int := 0x100_0000 * a as int + 0x1_0000 * b as int + 0x100 * c as int + d as int;
            Be32(v) == [a, b, c, d] && RgbOf(v) == Rgb(b, c, d)
  {
    var v: int := 0x100_0000 * a as int + 0x1_0000 * b as int + 0x100 * c as int + d as int;
    assert v / 0x100 == 0x1_0000 * a as int + 0x100 * b as int + c as int;
    assert v / 0x1_0000 == 0x100 * a as int + b as int && v / 0x100_0000 == a as int;
    LowByteIs(v / 0x1_0000, a as int, b as int);
    LowByteIs(v / 0x100, 0x100 * a as int + b as int, c as int);
    LowByteIs(v, 0x1_0000 * a as int + 0x100 * b as int + c as int, d as int);
  }

  lemma LowByteIs(v: nat, high: nat, low: nat)
    requires v == 0x100 * high + low && low < 0x100
    ensures v % 0x100 == low
  {
  }
}
