// The writer: the raw scanlines, the zlib stream and the chunks, each filled in
// byte by byte.
module PngWriter {
  import opened PngCrc
  import opened Words
  import opened Options
  import opened PngFormat

  method PutByte(z: array<U8>, pos: nat, v: U8)
    requires pos < z.Length
    modifies z
    ensures z[..pos + 1] == old(z[..pos]) + [v]
  {
    z[pos] := v;
  }

  // `memcpy`
  method PutBytes(z: array<U8>, pos: nat, src: seq<U8>)
    requires pos + |src| <= z.Length
    modifies z
    ensures z[..pos + |src|] == old(z[..pos]) + src
  {
    forall i | 0 <= i < |src| {
      z[pos + i] := src[i];
    }
  }

  // One pixel's three bytes.
  method PutPixel(raw: array<U8>, pos: nat, p: Argb)
    requires pos + 3 <= raw.Length
    modifies raw
    ensures raw[..pos + 3] == old(raw[..pos]) + Triple(p)
  {
    PutByte(raw, pos, p / 0x1_0000 % 0x100);
    PutByte(raw, pos + 1, p / 0x100 % 0x100);
    PutByte(raw, pos + 2, p % 0x100);
  }

  // A row of the picture behind its filter byte; its first pixel is `at`.
  method PutRow(raw: array<U8>, start: nat, argb: seq<Argb>, w: nat, at: nat)
    requires start + 1 + 3 * w <= raw.Length && at + w <= |argb|
    modifies raw
    ensures raw[..start + 1 + 3 * w] == old(raw[..start]) + [0] + Triples(argb[at..at + w])
  {
    hide Triples;
    var row := argb[at..at + w];
    PutByte(raw, start, 0);
    var pos := start + 1;
    ghost var before := raw[..pos];
    assert before + Triples(row[0..]) == before + Triples(row) by {
      assert row[0..] == row;
    }
    for x := 0 to w
      invariant pos == start + 1 + 3 * x
      invariant raw[..pos] + Triples(row[x..]) == before + Triples(row)
    {
      TriplesNext(row, x);
      ghost var head := raw[..pos];
      PutPixel(raw, pos, argb[at + x]);
      assert head + (Triple(row[x]) + Triples(row[x + 1..])) == (head + Triple(row[x])) + Triples(row[x + 1..]);
      pos := pos + 3;
    }
    TriplesNone(row[w..]);
    assert raw[..pos] + [] == raw[..pos];
  }

  lemma TriplesNext(row: seq<Argb>, x: nat)
    requires x < |row|
    ensures Triples(row[x..]) == Triple(row[x]) + Triples(row[x + 1..])
  {
    assert row[x..][1..] == row[x + 1..];
  }

  lemma TriplesNone(row: seq<Argb>)
    requires row == []
    ensures Triples(row) == []
  {
  }

  // What is left of the picture from pixel `at` on, and its scanlines.
  predicate RowsLeft(argb: seq<Argb>, at: nat, w: nat, left: nat) { at <= |argb| && |argb| - at == left * w }

  function ScanlinesLeft(argb: seq<Argb>, at: nat, w: nat, left: nat): seq<U8>
    requires RowsLeft(argb, at, w, left)
  {
    Scanlines(argb[at..], w, left)
  }

  lemma AllLeft(argb: seq<Argb>, w: nat, h: nat)
    requires |argb| == h * w
    ensures RowsLeft(argb, 0, w, h) && ScanlinesLeft(argb, 0, w, h) == Scanlines(argb, w, h)
  {
    assert argb[0..] == argb;
  }

  lemma ScanlinesNext(argb: seq<Argb>, at: nat, w: nat, left: nat)
    requires RowsLeft(argb, at, w, left) && left > 0
    ensures at + w <= |argb| && RowsLeft(argb, at + w, w, left - 1)
    ensures ScanlinesLeft(argb, at, w, left) ==
            [0] + Triples(argb[at..at + w]) + ScanlinesLeft(argb, at + w, w, left - 1)
  {
    RowsSplit(left, w);
    assert argb[at..][..w] == argb[at..at + w] && argb[at..][w..] == argb[at + w..];
  }

  lemma NoneLeft(argb: seq<Argb>, at: nat, w: nat)
    requires RowsLeft(argb, at, w, 0)
    ensures ScanlinesLeft(argb, at, w, 0) == []
  {
  }

  // Every row, one behind the other.
  method PutRows(raw: array<U8>, argb: seq<Argb>, w: nat, h: nat)
    requires RowsLeft(argb, 0, w, h) && raw.Length == |ScanlinesLeft(argb, 0, w, h)|
    modifies raw
    ensures raw[..] == ScanlinesLeft(argb, 0, w, h)
  {
    hide RowsLeft, ScanlinesLeft, Triples;
    ghost var all := ScanlinesLeft(argb, 0, w, h);
    var pos: nat, at: nat, left: nat := 0, 0, h;
    while left > 0
      invariant pos <= raw.Length && RowsLeft(argb, at, w, left)
      invariant raw[..pos] + ScanlinesLeft(argb, at, w, left) == all
    {
      ScanlinesNext(argb, at, w, left);
      ghost var head, row, rest := raw[..pos], Triples(argb[at..at + w]), ScanlinesLeft(argb, at + w, w, left - 1);
      assert |all| == pos + 1 + 3 * w + |rest|;
      PutRow(raw, pos, argb, w, at);
      assert head + ([0] + row + rest) == (head + [0] + row) + rest;
      pos := pos + 1 + 3 * w;
      at := at + w;
      left := left - 1;
    }
    NoneLeft(argb, at, w);
    assert raw[..pos] + [] == raw[..pos] && raw[..pos] == raw[..];
  }

  // The raw scanlines.
  method Filtered(argb: seq<Argb>, w: nat, h: nat) returns (raw: array<U8>)
    requires |argb| == h * w
    ensures fresh(raw) && raw[..] == Scanlines(argb, w, h)
  {
    hide Scanlines, RowsLeft, ScanlinesLeft;
    AllLeft(argb, w, h);
    raw := new U8[h * (1 + 3 * w)](_ => 0);
    PutRows(raw, argb, w, h);
  }

  // The running check value.
  method Checked(raw: seq<U8>) returns (check: nat)
    ensures check == Adler(raw)
  {
    var a, b := 1, 0;
    assert raw[..0] == [];
    for i := 0 to |raw|
      invariant a == S1(raw[..i]) % ADLER_BASE && b == S2(raw[..i]) % ADLER_BASE
    {
      assert raw[..i + 1][..i] == raw[..i];
      ModAdds(S1(raw[..i]), raw[i]);
      a := (a + raw[i] as int) % ADLER_BASE;
      ModAdds(S2(raw[..i]), S1(raw[..i + 1]));
      b := (b + a) % ADLER_BASE;
    }
    assert raw[..|raw|] == raw;
    check := b * 0x1_0000 + a;
  }

  lemma ModAdds(x: nat, y: nat)
    ensures (x % ADLER_BASE + y) % ADLER_BASE == (x + y) % ADLER_BASE
    ensures (x % ADLER_BASE + y % ADLER_BASE) % ADLER_BASE == (x + y) % ADLER_BASE
  {
  }

  // One block's header and body.
  method PutBlock(z: array<U8>, pos: nat, raw: seq<U8>, off: nat, n: nat)
    requires n <= MAX_STORED && off + n <= |raw| && pos + 5 + n <= z.Length
    modifies z
    ensures z[..pos + 5 + n] == old(z[..pos]) + BlockHeader(n, off + n == |raw|) + raw[off..off + n]
  {
    PutByte(z, pos, if off + n >= |raw| then 1 else 0);
    PutByte(z, pos + 1, n % 0x100);
    PutByte(z, pos + 2, n / 0x100);
    PutByte(z, pos + 3, 0xFF - n % 0x100);
    PutByte(z, pos + 4, 0xFF - n / 0x100);
    PutBytes(z, pos + 5, raw[off..off + n]);
  }

  lemma BlocksNext(raw: seq<U8>, off: nat)
    requires off < |raw|
    ensures var n := BlockSize(|raw| - off);
            Blocks(raw[off..]) == BlockHeader(n, off + n == |raw|) + raw[off..off + n] + Blocks(raw[off + n..])
  {
    var n := BlockSize(|raw| - off);
    assert raw[off..][..n] == raw[off..off + n] && raw[off..][n..] == raw[off + n..];
  }

  // The stored blocks, from position 2 on.
  method PutBlocks(z: array<U8>, raw: seq<U8>) returns (pos: nat)
    requires 2 + |Blocks(raw)| <= z.Length
    modifies z
    ensures pos == 2 + |Blocks(raw)| && z[..pos] == old(z[..2]) + Blocks(raw)
  {
    hide Blocks, BlockHeader;
    ghost var all := z[..2] + Blocks(raw);
    var off := 0;
    pos := 2;
    assert raw[0..] == raw;
    while off < |raw|
      invariant off <= |raw| && 0 <= pos <= z.Length && z[..pos] + Blocks(raw[off..]) == all
      decreases |raw| - off
    {
      BlocksNext(raw, off);
      var n := BlockSize(|raw| - off);
      ghost var head, h, rest := z[..pos], BlockHeader(n, off + n == |raw|), Blocks(raw[off + n..]);
      assert |all| == pos + 5 + n + |rest|;
      PutBlock(z, pos, raw, off, n);
      assert head + (h + raw[off..off + n] + rest) == (head + h + raw[off..off + n]) + rest;
      pos := pos + 5 + n;
      off := off + n;
    }
    BlocksNone(raw[off..]);
    assert z[..pos] + [] == z[..pos];
  }

  // The zlib stream, in a buffer of exactly the size worked out beforehand.
  method Compressed(raw: seq<U8>, check: nat) returns (z: array<U8>)
    requires check == Adler(raw)
    ensures fresh(z) && z.Length == ZlibSize(|raw|) && z[..] == Zlib(raw)
  {
    hide Blocks, Adler;
    BlocksSize(raw);
    z := new U8[ZlibSize(|raw|)](_ => 0);
    PutByte(z, 0, 0x78);
    PutByte(z, 1, 0x01);
    var pos := PutBlocks(z, raw);
    PutBytes(z, pos, Be32(check));
    assert z[..pos + 4] == z[..];
  }

  lemma BlocksNone(raw: seq<U8>)
    requires raw == []
    ensures Blocks(raw) == []
  {
  }

  // `chunk`: the CRC register is carried from the tag into the data.
  method WriteChunk(table: array<bv32>, out: seq<U8>, tag: Tag, data: seq<U8>) returns (out': seq<U8>)
    requires IsTable(table) && |data| < 0x1_0000_0000
    ensures out' == out + Chunk(tag, data)
  {
    hide Crc, Complemented, Be32, IsTable;
    var c := CrcBuffer(table, tag, CRC_START);
    if |data| > 0 {
      CrcConcat(CRC_START, tag, data);
      c := CrcBuffer(table, data, c);
    } else {
      assert tag + data == tag;
    }
    out' := out + Be32(|data|) + tag + data + Be32(Complemented(c));
    assert out' == out + (Be32(|data|) + tag + data + Be32(Complemented(c)));
  }

  // `png_write`: the file's bytes.
  method PngWrite(argb: seq<Argb>, w: nat, h: nat) returns (file: seq<U8>)
    requires Picture(argb, w, h)
    ensures file == PngFile(argb, w, h)
    ensures Decoded(file) ==
            if ZlibSize(h * (1 + 3 * w)) < 0x1_0000_0000 then Some(Image(w, h, Colours(argb))) else None
  {
    hide Chunk, Zlib, Scanlines, Decoded, Colours, IsTable, Adler, ZlibSize;
    PngRoundTrip(argb, w, h);
    var table := new bv32[256](_ => 0);
    CrcInit(table);
    file := WriteChunk(table, SIGNATURE, IHDR, Header(w, h));
    var raw := Filtered(argb, w, h);
    var check := Checked(raw[..]);
    var z := Compressed(raw[..], check);
    file := WriteChunk(table, file, IDAT, z[..z.Length % 0x1_0000_0000]);
    assert z[..z.Length % 0x1_0000_0000] == Payload(z[..]);
    file := WriteChunk(table, file, IEND, []);
  }
}
