/** A PNG file, read and written: its chunks (section 3.2 of RFC 2083), its rows, its pixels. */
module PngFiles {
  import opened Optional
  import opened PngFilters

  type Bytes = seq<Byte>

  const SIGNATURE: Bytes := [0x89, 0x50, 0x4e, 0x47, 0x0d, 0x0a, 0x1a, 0x0a]
  const IHDR: Bytes := [0x49, 0x48, 0x44, 0x52]
  const IDAT: Bytes := [0x49, 0x44, 0x41, 0x54]
  const IEND: Bytes := [0x49, 0x45, 0x4e, 0x44]
  const WORD := 0x1_0000_0000

  datatype Header = Header(width: nat, height: nat, depth: Byte, colour: Byte, interlace: Byte)

  datatype Chunk = Chunk(kind: Bytes, body: Bytes)

  datatype Image = Image(width: nat, height: nat, data: Bytes)

  /** zlib, and the checksum it makes. */
  type Inflate = Bytes -> Option<Bytes>
  type Checksum = Bytes -> nat

  // Numbers and pieces.

  function Word(n: nat): (w: Bytes)
    requires n < WORD
    ensures |w| == 4
  {
    [n / 256 / 256 / 256, n / 256 / 256 % 256, n / 256 % 256, n % 256]
  }

  function Number(w: Bytes): (n: nat)
    requires |w| == 4
    ensures n < WORD
  {
    ((w[0] as int * 256 + w[1] as int) * 256 + w[2] as int) * 256 + w[3] as int
  }

  lemma NumberWord(n: nat)
    requires n < WORD
    ensures Number(Word(n)) == n
  {
    var a := n / 256;
    var b := a / 256;
    assert n == a * 256 + n % 256 && a == b * 256 + a % 256 && b == b / 256 * 256 + b % 256;
  }

  function Zeros(n: nat): (z: Bytes)
    ensures |z| == n && forall i :: 0 <= i < n ==> z[i] == 0
  {
    seq(n, i requires 0 <= i < n => 0)
  }

  /** data[from:to], as Python slices: no further than the data goes. */
  function Slice(data: Bytes, from: nat, to: nat): Bytes
    requires from <= to
  {
    var f, t := if from < |data| then from else |data|, if to < |data| then to else |data|;
    data[f..t]
  }

  // Chunks.

  function Serialized(c: Chunk, crc: Checksum): Bytes
    requires |c.body| < WORD
  {
    Word(|c.body|) + c.kind + c.body + Word(crc(c.kind + c.body) % WORD)
  }

  function HeaderIn(body: Bytes): Option<Header> {
    if |body| != 13 then None
    else Some(Header(Number(body[..4]), Number(body[4..8]), body[8], body[9], body[12]))
  }

  datatype Found = Found(header: Option<Header>, idat: Bytes)

  /** The chunks from `at`: the header, and the compressed data joined; none for a file that breaks off. */
  function Scan(data: Bytes, at: nat, found: Found): Option<Found>
    decreases if at <= |data| then |data| - at else 0
  {
    if at >= |data| then Some(found)
    else if |data| - at < 8 then None
    else
      var length, kind := Number(data[at..at + 4]), data[at + 4..at + 8];
      var body := Slice(data, at + 8, at + 8 + length);
      if kind == IHDR then
        if HeaderIn(body).None? then None else Scan(data, at + 12 + length, found.(header := HeaderIn(body)))
      else if kind == IDAT then Scan(data, at + 12 + length, found.(idat := found.idat + body))
      else if kind == IEND then Some(found)
      else Scan(data, at + 12 + length, found)
  }

  method ReadChunks(data: Bytes) returns (found: Option<Found>)
    ensures found == Scan(data, 8, Found(None, []))
  {
    hide Scan, Slice, Number, HeaderIn;
    var at, header, idat := 8, None, [];
    while at < |data|
      invariant Scan(data, at, Found(header, idat)) == Scan(data, 8, Found(None, []))
      decreases |data| - at
    {
      ScanNext(data, at, Found(header, idat));
      if |data| - at < 8 { return None; }
      var length, kind := Number(data[at..at + 4]), data[at + 4..at + 8];
      var body := Slice(data, at + 8, at + 8 + length);
      if kind == IHDR {
        header := HeaderIn(body);
        if header.None? { return None; }
      } else if kind == IDAT {
        idat := idat + body;
      } else if kind == IEND {
        return Some(Found(header, idat));
      }
      at := at + 12 + length;
    }
    ScanPast(data, at, Found(header, idat));
    return Some(Found(header, idat));
  }

  lemma {:induction false} ScanPast(data: Bytes, at: nat, found: Found)
    requires at >= |data|
    ensures Scan(data, at, found) == Some(found)
  {
  }

  lemma ScanNext(data: Bytes, at: nat, found: Found)
    requires at < |data|
    ensures |data| - at < 8 ==> Scan(data, at, found) == None
    ensures |data| - at >= 8 ==>
      var length, kind := Number(data[at..at + 4]), data[at + 4..at + 8];
      var body := Slice(data, at + 8, at + 8 + length);
      Scan(data, at, found) ==
        if kind == IHDR then if HeaderIn(body).None? then None
          else Scan(data, at + 12 + length, found.(header := HeaderIn(body)))
        else if kind == IDAT then Scan(data, at + 12 + length, found.(idat := found.idat + body))
        else if kind == IEND then Some(found)
        else Scan(data, at + 12 + length, found)
  {
  }

  // Rows.

  /** A row from its line; one that breaks off is an error, unless its filter looks at nothing past its end. */
  function RowIn(kind: Byte, line: Bytes, previous: Bytes, bpp: nat): Option<Bytes>
    requires |line| <= |previous| && bpp > 0
  {
    if |line| == |previous| then Some(Unfilter(kind, line, previous, bpp, |line|))
    else if 2 <= kind <= 4 || (kind == 1 && bpp < |previous|) then None
    else Some(line)
  }

  /** The pixels of `n` rows, from the bytes left of the data inflated; an error where they have run out. */
  function RowsIn(raw: Bytes, stride: nat, bpp: nat, n: nat, previous: Bytes): Option<Bytes>
    requires |previous| == stride && bpp > 0
    decreases n
  {
    if n == 0 then Some([])
    else if raw == [] then None
    else
      var row := RowIn(raw[0], Slice(raw, 1, 1 + stride), previous, bpp);
      if row.None? then None
      else if |row.value| < stride then if n == 1 then row else None
      else
        var rest := RowsIn(raw[1 + stride..], stride, bpp, n - 1, row.value);
        if rest.None? then None else Some(row.value + rest.value)
  }

  method ReadRows(raw: Bytes, stride: nat, height: nat, bpp: nat) returns (pixels: Option<Bytes>)
    requires bpp > 0
    ensures pixels == RowsIn(raw, stride, bpp, height, Zeros(stride))
  {
    hide RowsIn;
    var rows: Bytes := [];
    var previous := Zeros(stride);
    var start: nat, y: nat := 0, 0;
    assert raw[start..] == raw;
    RowsSoFar(raw, stride, bpp, height, previous);
    while y < height
      invariant 0 <= y <= height && start <= |raw| && |previous| == stride
      invariant RowsIn(raw, stride, bpp, height, Zeros(stride)) ==
        After(rows, RowsIn(raw[start..], stride, bpp, height - y, previous))
    {
      RowsNext(raw, stride, bpp, height - y, previous, start);
      if start >= |raw| { return None; }
      var kind := raw[start];
      var bytes := Slice(raw, start + 1, start + 1 + stride);
      if |bytes| < stride {
        if 2 <= kind <= 4 || (kind == 1 && bpp < stride) || y + 1 < height { return None; }
        return Some(rows + bytes);
      }
      var row := ReadRow(kind, bytes, previous, bpp);
      AfterMore(rows, row, RowsIn(raw[start + 1 + stride..], stride, bpp, height - y - 1, row));
      rows := rows + row;
      previous := row;
      start := start + 1 + stride;
      y := y + 1;
    }
    NoRows(raw[start..], stride, bpp, previous);
    assert rows + [] == rows;
    return Some(rows);
  }

  method ReadRow(kind: Byte, bytes: Bytes, previous: Bytes, bpp: nat) returns (row: Bytes)
    requires bpp > 0 && |bytes| == |previous|
    ensures row == Unfilter(kind, bytes, previous, bpp, |bytes|)
  {
    var line := new Byte[|bytes|](i requires 0 <= i < |bytes| => bytes[i]);
    assert line[..] == bytes;
    UnfilterInPlace(kind, line, previous, bpp);
    row := line[..];
  }

  function After(rows: Bytes, rest: Option<Bytes>): Option<Bytes> {
    if rest.None? then None else Some(rows + rest.value)
  }

  lemma AfterMore(rows: Bytes, row: Bytes, rest: Option<Bytes>)
    ensures After(rows, After(row, rest)) == After(rows + row, rest)
  {
    if rest.Some? { assert rows + (row + rest.value) == rows + row + rest.value; }
  }

  lemma {:induction false} RowsSoFar(raw: Bytes, stride: nat, bpp: nat, n: nat, previous: Bytes)
    requires |previous| == stride && bpp > 0
    ensures After([], RowsIn(raw, stride, bpp, n, previous)) == RowsIn(raw, stride, bpp, n, previous)
  {
    hide RowsIn;
    var rest := RowsIn(raw, stride, bpp, n, previous);
    if rest.Some? { assert [] + rest.value == rest.value; }
  }

  lemma {:induction false} NoRows(raw: Bytes, stride: nat, bpp: nat, previous: Bytes)
    requires |previous| == stride && bpp > 0
    ensures RowsIn(raw, stride, bpp, 0, previous) == Some([])
  {
  }

  lemma {:induction false} RowsNext(raw: Bytes, stride: nat, bpp: nat, n: nat, previous: Bytes, start: nat)
    requires |previous| == stride && bpp > 0 && n > 0 && start <= |raw|
    ensures start == |raw| ==> RowsIn(raw[start..], stride, bpp, n, previous) == None
    ensures start < |raw| ==>
      var bytes := Slice(raw, start + 1, start + 1 + stride);
      |bytes| <= stride && (|bytes| == stride ==> start + 1 + stride <= |raw|) &&
      RowsIn(raw[start..], stride, bpp, n, previous) ==
        if |bytes| < stride then
          if 2 <= raw[start] <= 4 || (raw[start] == 1 && bpp < stride) || n > 1 then None else Some(bytes)
        else
          var row := Unfilter(raw[start], bytes, previous, bpp, |bytes|);
          After(row, RowsIn(raw[start + 1 + stride..], stride, bpp, n - 1, row))
  {
    if start < |raw| {
      var bytes := Slice(raw, start + 1, start + 1 + stride);
      assert raw[start..][0] == raw[start] && Slice(raw[start..], 1, 1 + stride) == bytes;
      if |bytes| == stride { assert raw[start..][1 + stride..] == raw[start + 1 + stride..]; }
    }
  }

  // Pixels.

  /** data[from::step], as Python slices. */
  function Every(data: Bytes, from: nat, step: nat): (plane: Bytes)
    requires from < step
  {
    if |data| <= from then [] else [data[from]] + Every(data[if step < |data| then step else |data|..], from, step)
  }

  /** Three planes as pixels; an error if one is not the image's size. */
  function Pixels(red: Bytes, green: Bytes, blue: Bytes, n: nat): Option<Bytes> {
    if |red| == n && |green| == n && |blue| == n
    then Some(seq(3 * n,
         i requires 0 <= i < 3 * n => if i % 3 == 0 then red[i / 3]
         else if i % 3 == 1 then green[i / 3] else blue[i / 3]))
    else None
  }

  /** The pixels as red, green and blue; composited over nothing. */
  function Rgb(pixels: Bytes, channels: nat, n: nat): Option<Bytes> {
    if channels == 3 then Some(pixels)
    else if channels == 4 then Pixels(Every(pixels, 0, 4), Every(pixels, 1, 4), Every(pixels, 2, 4), n)
    else if channels == 1 then Pixels(pixels, pixels, pixels, n)
    else var grey := Every(pixels, 0, 2); Pixels(grey, grey, grey, n)
  }

  /** How many bytes a pixel is, by its colour type; 0 for one not read. */
  function Channels(colour: Byte): nat {
    if colour == 0 then 1 else if colour == 2 then 3 else if colour == 4 then 2 else if colour == 6 then 4 else 0
  }

  function Stride(h: Header): nat { h.width * Channels(h.colour) }

  predicate Readable(h: Header) { h.depth == 8 && Channels(h.colour) != 0 && h.interlace == 0 }

  function ImageOf(h: Header, pixels: Bytes): Option<Image> {
    var rgb := Rgb(pixels, Channels(h.colour), h.width * h.height);
    if rgb.None? then None else Some(Image(h.width, h.height, rgb.value))
  }

  function ImageIn(h: Header, raw: Bytes): Option<Image>
    requires Readable(h)
  {
    var pixels := RowsIn(raw, Stride(h), Channels(h.colour), h.height, Zeros(Stride(h)));
    if pixels.None? then None else ImageOf(h, pixels.value)
  }

  /** read_png, where an error is none. */
  method ReadPng(data: Bytes, inflate: Inflate) returns (image: Option<Image>)
    ensures image == Read(data, inflate)
  {
    hide Slice, Scan, RowsIn, Rgb, Zeros;
    if Slice(data, 0, 8) != SIGNATURE { return None; }
    var found := ReadChunks(data);
    if found.None? || found.value.header.None? { return None; }
    var h := found.value.header.value;
    if !Readable(h) { return None; }
    var raw := inflate(found.value.idat);
    if raw.None? { return None; }
    var pixels := ReadRows(raw.value, Stride(h), h.height, Channels(h.colour));
    if pixels.None? { return None; }
    var rgb := Rgb(pixels.value, Channels(h.colour), h.width * h.height);
    if rgb.None? { return None; }
    return Some(Image(h.width, h.height, rgb.value));
  }

  function Read(data: Bytes, inflate: Inflate): Option<Image> {
    if Slice(data, 0, 8) != SIGNATURE then None
    else
      match Scan(data, 8, Found(None, []))
      case None => None
      case Some(found) =>
        if found.header.None? || !Readable(found.header.value) || inflate(found.idat).None? then None
        else ImageIn(found.header.value, inflate(found.idat).value)
  }

  // Whatever wrote it: any filters, any split of the compressed data, any other chunks.

  /** A chunk before the end: a header is one. */
  predicate Plain(c: Chunk) {
    |c.kind| == 4 && c.kind != IEND && |c.body| < WORD && (c.kind == IHDR ==> |c.body| == 13)
  }

  predicate AllPlain(chunks: seq<Chunk>) { forall i :: 0 <= i < |chunks| ==> Plain(chunks[i]) }

  function All(chunks: seq<Chunk>, crc: Checksum): Bytes
    requires AllPlain(chunks)
  {
    if chunks == [] then [] else Serialized(chunks[0], crc) + All(chunks[1..], crc)
  }

  /** What a chunk before the end adds. */
  function Adds(found: Found, c: Chunk): Found {
    if c.kind == IHDR then found.(header := HeaderIn(c.body))
    else if c.kind == IDAT then found.(idat := found.idat + c.body)
    else found
  }

  function FoundIn(chunks: seq<Chunk>, found: Found): Found {
    if chunks == [] then found else FoundIn(chunks[1..], Adds(found, chunks[0]))
  }

  /** A chunk where it is in a file. */
  lemma ChunkAt(data: Bytes, before: Bytes, c: Chunk, rest: Bytes, crc: Checksum)
    requires |c.kind| == 4 && |c.body| < WORD && data == before + Serialized(c, crc) + rest
    ensures var at := |before|;
            at + 12 + |c.body| <= |data| && |Serialized(c, crc)| == 12 + |c.body| &&
              data[at..at + 4] == Word(|c.body|) &&
            Number(data[at..at + 4]) == |c.body| && data[at + 4..at + 8] == c.kind &&
              Slice(data, at + 8, at + 8 + |c.body|) == c.body
  {
    var at, tail := |before|, Word(crc(c.kind + c.body) % WORD);
    NumberWord(|c.body|);
    assert data == before + (Word(|c.body|) + (c.kind + (c.body + (tail + rest))));
    assert data[at..at + 4] == Word(|c.body|);
    assert data[at + 4..at + 8] == c.kind;
    assert data[at + 8..at + 8 + |c.body|] == c.body;
  }

  lemma {:induction false} ScanChunks(data: Bytes, before: Bytes, chunks: seq<Chunk>, rest: Bytes, crc: Checksum,
      found: Found)
    requires AllPlain(chunks)
    requires data == before + All(chunks, crc) + rest
    ensures Scan(data, |before|, found) == Scan(data, |before| + |All(chunks, crc)|, FoundIn(chunks, found))
    decreases |chunks|
  {
    hide Scan, Serialized, Slice, Number;
    if chunks != [] {
      var c, more := chunks[0], All(chunks[1..], crc);
      assert data == before + Serialized(c, crc) + (more + rest);
      ChunkAt(data, before, c, more + rest, crc);
      assert data == before + Serialized(c, crc) + more + rest;
      ScanChunks(data, before + Serialized(c, crc), chunks[1..], rest, crc, Adds(found, c));
      ScanOne(data, |before|, c, found);
    } else {
      assert All(chunks, crc) == [];
    }
  }

  lemma ScanOne(data: Bytes, at: nat, c: Chunk, found: Found)
    requires Plain(c) && at + 12 + |c.body| <= |data| && Number(data[at..at + 4]) == |c.body| &&
      data[at + 4..at + 8] == c.kind
    requires Slice(data, at + 8, at + 8 + |c.body|) == c.body
    ensures Scan(data, at, found) == Scan(data, at + 12 + |c.body|, Adds(found, c))
  {
  }

  lemma {:induction false} ScanFile(chunks: seq<Chunk>, end: Chunk, rest: Bytes, crc: Checksum)
    requires AllPlain(chunks) && end.kind == IEND && |end.body| < WORD
    ensures var data := SIGNATURE + All(chunks, crc) + Serialized(end, crc) + rest;
            Scan(data, 8, Found(None, [])) == Some(FoundIn(chunks, Found(None, []))) && Slice(data, 0, 8) == SIGNATURE
  {
    hide Scan, All, FoundIn, Serialized, Slice;
    var data := SIGNATURE + All(chunks, crc) + Serialized(end, crc) + rest;
    assert data == SIGNATURE + All(chunks, crc) + (Serialized(end, crc) + rest);
    ScanChunks(data, SIGNATURE, chunks, Serialized(end, crc) + rest, crc, Found(None, []));
    ChunkAt(data, SIGNATURE + All(chunks, crc), end, rest, crc);
    ScanEnd(data, |SIGNATURE| + |All(chunks, crc)|, FoundIn(chunks, Found(None, [])));
    assert data == SIGNATURE + (All(chunks, crc) + Serialized(end, crc) + rest);
    SliceStart(SIGNATURE, All(chunks, crc) + Serialized(end, crc) + rest);
  }

  lemma {:induction false} ScanEnd(data: Bytes, at: nat, found: Found)
    requires at + 8 <= |data| && data[at + 4..at + 8] == IEND
    ensures Scan(data, at, found) == Some(found)
  {
  }

  lemma SliceStart(a: Bytes, b: Bytes)
    ensures Slice(a + b, 0, |a|) == a
  {
  }

  /** Rows filtered, each by its own filter, and put after each other. */
  function Encoded(kinds: Bytes, rows: seq<Bytes>, previous: Bytes, bpp: nat): Bytes
    requires |kinds| == |rows| && bpp > 0 && forall row :: row in rows ==> |row| == |previous|
  {
    if rows == [] then []
    else [kinds[0]] + Filter(kinds[0], rows[0], previous, bpp) + Encoded(kinds[1..], rows[1..], rows[0], bpp)
  }

  function Join(rows: seq<Bytes>): Bytes { if rows == [] then [] else rows[0] + Join(rows[1..]) }

  lemma {:induction false} EncodedRead(kinds: Bytes, rows: seq<Bytes>, previous: Bytes, bpp: nat, tail: Bytes)
    requires |kinds| == |rows| && bpp > 0 && forall row :: row in rows ==> |row| == |previous|
    ensures RowsIn(Encoded(kinds, rows, previous, bpp) + tail, |previous|, bpp, |rows|, previous) == Some(Join(rows))
    decreases |rows|
  {
    hide RowsIn;
    NoRows(tail, |previous|, bpp, previous);
    if rows != [] {
      EncodedRead(kinds[1..], rows[1..], rows[0], bpp, tail);
      EncodedRow(kinds, rows, previous, bpp, tail);
    } else {
      assert Encoded(kinds, rows, previous, bpp) + tail == tail;
    }
  }

  lemma {:induction false} EncodedRow(kinds: Bytes, rows: seq<Bytes>, previous: Bytes, bpp: nat, tail: Bytes)
    requires |kinds| == |rows| > 0 && bpp > 0 && forall row :: row in rows ==> |row| == |previous|
    requires RowsIn(Encoded(kinds[1..], rows[1..], rows[0], bpp) + tail, |previous|, bpp, |rows| - 1, rows[0]) ==
      Some(Join(rows[1..]))
    ensures RowsIn(Encoded(kinds, rows, previous, bpp) + tail, |previous|, bpp, |rows|, previous) == Some(Join(rows))
  {
    hide RowsIn, Filter, Unfilter, Encoded, Slice, Join;
    var line, more := Filter(kinds[0], rows[0], previous, bpp), Encoded(kinds[1..], rows[1..], rows[0], bpp);
    EncodedCons(kinds, rows, previous, bpp, tail);
    CutAt(kinds[0], line, more + tail);
    RowsNext([kinds[0]] + line + (more + tail), |previous|, bpp, |rows|, previous, 0);
    UnfilterFilter(kinds[0], rows[0], previous, bpp, |rows[0]|);
    assert rows[0][..|rows[0]|] == rows[0];
  }

  lemma {:induction false} EncodedCons(kinds: Bytes, rows: seq<Bytes>, previous: Bytes, bpp: nat, tail: Bytes)
    requires |kinds| == |rows| > 0 && bpp > 0 && forall row :: row in rows ==> |row| == |previous|
    ensures Encoded(kinds, rows, previous, bpp) + tail ==
              [kinds[0]] + Filter(kinds[0], rows[0], previous, bpp) +
                (Encoded(kinds[1..], rows[1..], rows[0], bpp) + tail)
    ensures Join(rows) == rows[0] + Join(rows[1..])
  {
    hide Filter;
  }

  lemma CutAt(kind: Byte, line: Bytes, rest: Bytes)
    ensures var raw := [kind] + line + rest;
            raw != [] && raw[0] == kind && raw[0..] == raw && Slice(raw, 1, 1 + |line|) == line &&
              raw[1 + |line|..] == rest
  {
    var raw := [kind] + line + rest;
    assert raw[1..1 + |line|] == line;
  }

  /** A file's chunks before its end hold a header and, inflated, its rows filtered; more may follow them. */
  ghost predicate Holds(chunks: seq<Chunk>, h: Header, kinds: Bytes, rows: seq<Bytes>, tail: Bytes, inflate: Inflate) {
    Readable(h) && |kinds| == |rows| == h.height && (forall row :: row in rows ==> |row| == Stride(h)) &&
      AllPlain(chunks) &&
    FoundIn(chunks, Found(None, [])).header == Some(h) &&
    inflate(FoundIn(chunks, Found(None, [])).idat) ==
      Some(Encoded(kinds, rows, Zeros(Stride(h)), Channels(h.colour)) + tail)
  }

  function FileOf(chunks: seq<Chunk>, end: Chunk, rest: Bytes, crc: Checksum): Bytes
    requires AllPlain(chunks) && |end.body| < WORD
  {
    SIGNATURE + All(chunks, crc) + Serialized(end, crc) + rest
  }

  /** A PNG is read as the image it is of, however it was written. */
  lemma {:induction false} AnyEncodingRead(
      h: Header, kinds: Bytes, rows: seq<Bytes>, tail: Bytes, chunks: seq<Chunk>, end: Chunk, rest: Bytes,
      crc: Checksum, inflate: Inflate)
    requires Holds(chunks, h, kinds, rows, tail, inflate) && end.kind == IEND && |end.body| < WORD
    ensures Read(FileOf(chunks, end, rest, crc), inflate) == ImageOf(h, Join(rows))
  {
    hide Scan, FoundIn, Encoded, RowsIn, Slice, Serialized, All, Rgb, Zeros;
    ScanFile(chunks, end, rest, crc);
    EncodedRead(kinds, rows, Zeros(Stride(h)), Channels(h.colour), tail);
  }

  /** The k-th pixel's c-th byte. */
  function ByteOf(data: Bytes, channels: nat, k: nat, c: nat): Byte
    requires channels * k + c < |data|
  {
    data[channels * k + c]
  }

  /** The image of a header's size whose bytes are those: by pixel and channel, each colour type's own. */
  predicate ShownAs(image: Image, h: Header, bytes: Bytes)
    requires Readable(h)
  {
    image.width == h.width && image.height == h.height && |image.data| == 3 * (h.width * h.height) &&
    |bytes| == Channels(h.colour) * (h.width * h.height) &&
    forall k: nat, c: nat :: k < h.width * h.height && c < 3 ==>
      ByteOf(image.data, 3, k, c) ==
        if h.colour == 6 then bytes[4 * k + c]
        else if h.colour == 2 then bytes[3 * k + c]
        else if h.colour == 4 then bytes[2 * k]
        else bytes[k]
  }

  lemma {:induction false} EveryAt(data: Bytes, from: nat, step: nat, n: nat)
    requires (step == 2 || step == 4) && from < step && |data| == step * n
    ensures |Every(data, from, step)| == n
    ensures forall k :: 0 <= k < n ==> Every(data, from, step)[k] == data[step * k + from]
    decreases n
  {
    hide Every;
    EveryNext(data, from, step);
    if n > 0 {
      var rest := data[step..];
      StepsOn(step, from, n, n);
      EveryAt(rest, from, step, n - 1);
      forall k | 0 <= k < n ensures Every(data, from, step)[k] == data[step * k + from] {
        StepsOn(step, from, k, n);
        if k > 0 { assert Every(rest, from, step)[k - 1] == rest[step * (k - 1) + from]; }
      }
    }
  }

  lemma {:induction false} EveryNext(data: Bytes, from: nat, step: nat)
    requires from < step && (|data| == 0 || step <= |data|)
    ensures Every(data, from, step) ==
            if |data| == 0 then [] else [data[from]] + Every(data[step..], from, step)
  {
  }

  lemma StepsOn(step: nat, from: nat, k: nat, n: nat)
    requires (step == 2 || step == 4) && from < step && k <= n
    ensures k < n ==> step * k + from < step * n
    ensures k > 0 ==> step * (k - 1) + step == step * k
  {
    assert if step == 2 then step * k == 2 * k else step * k == 4 * k;
    assert if step == 2 then step * n == 2 * n else step * n == 4 * n;
  }

  /** Whole rows of any colour type are shown as the pixels they hold. */
  lemma WholeRowsShown(h: Header, bytes: Bytes)
    requires Readable(h) && |bytes| == Channels(h.colour) * (h.width * h.height)
    ensures ImageOf(h, bytes).Some? && ShownAs(ImageOf(h, bytes).value, h, bytes)
  {
    hide Every, Pixels;
    var n := h.width * h.height;
    if h.colour == 6 {
      EveryAt(bytes, 0, 4, n);
      EveryAt(bytes, 1, 4, n);
      EveryAt(bytes, 2, 4, n);
      PixelsAt(Every(bytes, 0, 4), Every(bytes, 1, 4), Every(bytes, 2, 4), n);
    } else if h.colour == 4 {
      EveryAt(bytes, 0, 2, n);
      PixelsAt(Every(bytes, 0, 2), Every(bytes, 0, 2), Every(bytes, 0, 2), n);
    } else if h.colour == 0 {
      PixelsAt(bytes, bytes, bytes, n);
    }
  }

  lemma PixelsAt(red: Bytes, green: Bytes, blue: Bytes, n: nat)
    requires |red| == |green| == |blue| == n
    ensures var pixels := Pixels(red, green, blue, n);
            pixels.Some? && |pixels.value| == 3 * n &&
            forall k: nat, c: nat :: k < n && c < 3 ==>
              ByteOf(pixels.value, 3, k, c) == if c == 0 then red[k] else if c == 1 then green[k] else blue[k]
  {
    var pixels := Pixels(red, green, blue, n).value;
    forall k: nat, c: nat | k < n && c < 3
      ensures ByteOf(pixels, 3, k, c) == if c == 0 then red[k] else if c == 1 then green[k] else blue[k]
    {
      assert (3 * k + c) / 3 == k && (3 * k + c) % 3 == c;
    }
  }

  lemma {:induction false} JoinLong(rows: seq<Bytes>, stride: nat)
    requires forall row :: row in rows ==> |row| == stride
    ensures |Join(rows)| == Area(stride, |rows|)
  {
    if rows != [] { JoinLong(rows[1..], stride); }
  }

  /** So an image is read pixel by pixel as its rows have it. */
  lemma {:induction false} EveryPixelRead(
      h: Header, kinds: Bytes, rows: seq<Bytes>, tail: Bytes, chunks: seq<Chunk>, end: Chunk, rest: Bytes,
      crc: Checksum, inflate: Inflate)
    requires Holds(chunks, h, kinds, rows, tail, inflate) && end.kind == IEND && |end.body| < WORD
    ensures var image := Read(FileOf(chunks, end, rest, crc), inflate);
            image.Some? && ShownAs(image.value, h, Join(rows))
  {
    hide ImageOf, Read, FoundIn, FileOf, Encoded, ShownAs;
    AnyEncodingRead(h, kinds, rows, tail, chunks, end, rest, crc, inflate);
    JoinLong(rows, Stride(h));
    AreaIs(Stride(h), h.height);
    RowsTimes(h.width, Channels(h.colour), h.height);
    WholeRowsShown(h, Join(rows));
  }

  lemma RowsTimes(width: nat, channels: nat, height: nat)
    ensures width * channels * height == channels * (width * height)
  {
  }

  /** One file byte by byte, one pixel wide and two high: the second row filtered by the one above. */
  lemma KnownFile(inflate: Inflate)
    requires inflate([7, 9]) == Some([0, 10, 20, 30, 2, 1, 2, 3])
    ensures var file := [0x89, 0x50, 0x4e, 0x47, 0x0d, 0x0a, 0x1a, 0x0a] +
              ([0, 0, 0, 13] + [0x49, 0x48, 0x44, 0x52] + [0, 0, 0, 1, 0, 0, 0, 2, 8, 2, 0, 0, 0] + [0, 0, 0, 0]) +
              ([0, 0, 0, 2] + [0x49, 0x44, 0x41, 0x54] + [7, 9] + [0, 0, 0, 0]) +
              ([0, 0, 0, 0] + [0x49, 0x45, 0x4e, 0x44] + [] + [0, 0, 0, 0]);
            Read(file, inflate) == Some(Image(1, 2, [10, 20, 30, 11, 22, 33]))
  {
    hide Read, FoundIn, Encoded, Join, HeaderIn, Serialized, All, Zeros, ImageOf, Holds;
    var h, crc := Header(1, 2, 8, 2, 0), (bytes: Bytes) => 0;
    var head, body, end := Chunk(IHDR, [0, 0, 0, 1, 0, 0, 0, 2, 8, 2, 0, 0, 0]), Chunk(IDAT, [7, 9]), Chunk(IEND, []);
    var rows := [[10, 20, 30], [11, 22, 33]];
    KnownHeader();
    TwoFound(h, head, body);
    TwoChunks(head, body, crc);
    TwoRows(rows);
    KnownChunk([0, 0, 0, 13], head, crc, 0);
    KnownChunk([0, 0, 0, 2], body, crc, 0);
    KnownChunk([0, 0, 0, 0], end, crc, 0);
    KnownHolds(h, rows, [head, body], inflate);
    AnyEncodingRead(h, [0, 2], rows, [], [head, body], end, [], crc, inflate);
    KnownImage(h, [10, 20, 30, 11, 22, 33]);
    FileWhole(SIGNATURE, Serialized(head, crc), Serialized(body, crc), Serialized(end, crc));
  }

  lemma {:induction false} KnownHolds(h: Header, rows: seq<Bytes>, chunks: seq<Chunk>, inflate: Inflate)
    requires h == Header(1, 2, 8, 2, 0) && rows == [[10, 20, 30], [11, 22, 33]] && AllPlain(chunks)
    requires FoundIn(chunks, Found(None, [])) == Found(Some(h), [7, 9])
    requires inflate([7, 9]) == Some([0, 10, 20, 30, 2, 1, 2, 3])
    ensures Holds(chunks, h, [0, 2], rows, [], inflate)
  {
    hide FoundIn, Encoded, Join;
    TwoRows(rows);
  }

  lemma KnownHeader()
    ensures HeaderIn([0, 0, 0, 1, 0, 0, 0, 2, 8, 2, 0, 0, 0]) == Some(Header(1, 2, 8, 2, 0))
  {
    var body := [0, 0, 0, 1, 0, 0, 0, 2, 8, 2, 0, 0, 0];
    assert body[..4] == [0, 0, 0, 1] && body[4..8] == [0, 0, 0, 2];
  }

  lemma KnownChunk(length: Bytes, c: Chunk, crc: Checksum, sum: Byte)
    requires |length| == 4 && length[..3] == [0, 0, 0] && length[3] == |c.body| && |c.kind| == 4
    requires crc(c.kind + c.body) == sum as nat
    ensures Serialized(c, crc) == (length + c.kind) + c.body + [0, 0, 0, sum]
  {
    assert length == [0, 0, 0] + [|c.body|];
    assert Word(|c.body|) == length && Word(sum as nat) == [0, 0, 0, sum];
  }

  lemma KnownImage(h: Header, bytes: Bytes)
    requires h.colour == 2
    ensures ImageOf(h, bytes) == Some(Image(h.width, h.height, bytes))
  {
  }

  lemma FileWhole(a: Bytes, b: Bytes, c: Bytes, d: Bytes)
    ensures a + (b + c) + d + [] == a + b + c + d
  {
  }

  lemma {:induction false} TwoRows(rows: seq<Bytes>)
    requires rows == [[10, 20, 30], [11, 22, 33]]
    ensures Encoded([0, 2], rows, Zeros(3), 3) + [] == [0, 10, 20, 30, 2, 1, 2, 3]
    ensures Join(rows) == [10, 20, 30, 11, 22, 33]
  {
    assert rows[1..] == [[11, 22, 33]] && rows[1..][1..] == [] && [0, 2][1..] == [2];
    assert Filter(0, rows[0], Zeros(3), 3) == [10, 20, 30];
    assert Filter(2, rows[1], rows[0], 3) == [1, 2, 3];
    assert Encoded([2], rows[1..], rows[0], 3) == [2, 1, 2, 3];
    assert Join(rows[1..]) == [11, 22, 33];
  }

  // Writing.

  type Deflate = Bytes -> Bytes

  /** The rows of an image, each unfiltered. */
  function RawOf(data: Bytes, stride: nat, height: nat): Bytes
    decreases height
  {
    if height == 0 then []
    else [0] + Slice(data, 0, stride) + RawOf(Slice(data, stride, stride + |data|), stride, height - 1)
  }

  function HeaderBody(width: nat, height: nat): Bytes
    requires width < WORD && height < WORD
  {
    Word(width) + Word(height) + [8, 2, 0, 0, 0]
  }

  /** write_png; none where a number does not fit its 32 bits. */
  function Write(image: Image, deflate: Deflate, crc: Checksum): Option<Bytes> {
    var raw := deflate(RawOf(image.data, image.width * 3, image.height));
    if image.width >= WORD || image.height >= WORD || |raw| >= WORD then None
    else Some(SIGNATURE + Serialized(Chunk(IHDR, HeaderBody(image.width, image.height)), crc) +
         Serialized(Chunk(IDAT, raw), crc) +
              Serialized(Chunk(IEND, []), crc))
  }

  /** And one file written, byte by byte. */
  lemma KnownWritten(deflate: Deflate, crc: Checksum)
    requires deflate([0, 10, 20, 30] + [0, 11, 22, 33]) == [7, 9]
    requires crc([0x49, 0x48, 0x44, 0x52] + [0, 0, 0, 1, 0, 0, 0, 2, 8, 2, 0, 0, 0]) == 4
    requires crc([0x49, 0x44, 0x41, 0x54] + [7, 9]) == 5 && crc([0x49, 0x45, 0x4e, 0x44] + []) == 6
    ensures Write(Image(1, 2, [10, 20, 30, 11, 22, 33]), deflate, crc) ==
            Some([0x89, 0x50, 0x4e, 0x47, 0x0d, 0x0a, 0x1a, 0x0a] +
                 ([0, 0, 0, 13] + [0x49, 0x48, 0x44, 0x52] + [0, 0, 0, 1, 0, 0, 0, 2, 8, 2, 0, 0, 0] + [0, 0, 0, 4]) +
                 ([0, 0, 0, 2] + [0x49, 0x44, 0x41, 0x54] + [7, 9] + [0, 0, 0, 5]) +
                 ([0, 0, 0, 0] + [0x49, 0x45, 0x4e, 0x44] + [] + [0, 0, 0, 6]))
  {
    hide Serialized, RawOf;
    KnownRaw();
    assert HeaderBody(1, 2) == [0, 0, 0, 1, 0, 0, 0, 2, 8, 2, 0, 0, 0];
    KnownChunk([0, 0, 0, 13], Chunk(IHDR, HeaderBody(1, 2)), crc, 4);
    KnownChunk([0, 0, 0, 2], Chunk(IDAT, [7, 9]), crc, 5);
    KnownChunk([0, 0, 0, 0], Chunk(IEND, []), crc, 6);
  }

  lemma {:induction false} KnownRaw()
    ensures RawOf([10, 20, 30, 11, 22, 33], 3, 2) == [0, 10, 20, 30] + [0, 11, 22, 33]
  {
    var data := [10, 20, 30, 11, 22, 33];
    assert Slice(data, 0, 3) == [10, 20, 30] && Slice(data, 3, 9) == [11, 22, 33];
    assert Slice([11, 22, 33], 0, 3) == [11, 22, 33];
    assert RawOf([11, 22, 33], 3, 1) == [0, 11, 22, 33] + RawOf(Slice([11, 22, 33], 3, 6), 3, 0);
  }

  function RowsOf(data: Bytes, stride: nat, height: nat): (rows: seq<Bytes>)
    requires |data| == Area(stride, height)
    ensures |rows| == height && forall row :: row in rows ==> |row| == stride
  {
    if height == 0 then [] else [data[..stride]] + RowsOf(data[stride..], stride, height - 1)
  }

  function Area(stride: nat, height: nat): nat { if height == 0 then 0 else stride + Area(stride, height - 1) }

  lemma {:induction false} AreaIs(stride: nat, height: nat)
    ensures Area(stride, height) == stride * height
  {
    if height > 0 { AreaIs(stride, height - 1); }
  }

  lemma {:induction false} RowsJoin(data: Bytes, stride: nat, height: nat)
    requires |data| == Area(stride, height)
    ensures Join(RowsOf(data, stride, height)) == data
  {
    if height > 0 {
      RowsJoin(data[stride..], stride, height - 1);
      assert RowsOf(data, stride, height)[1..] == RowsOf(data[stride..], stride, height - 1);
      assert data[..stride] + data[stride..] == data;
    }
  }

  lemma NoFilter(row: Bytes, previous: Bytes, bpp: nat)
    requires |row| == |previous| && bpp > 0
    ensures Filter(0, row, previous, bpp) == row
  {
  }

  lemma {:induction false} RawEncoded(data: Bytes, stride: nat, height: nat, previous: Bytes, bpp: nat)
    requires |data| == Area(stride, height) && |previous| == stride && bpp > 0
    ensures RawOf(data, stride, height) == Encoded(Zeros(height), RowsOf(data, stride, height), previous, bpp)
    decreases height
  {
    hide Encoded, RawOf, RowsOf, Filter;
    if height == 0 {
      RawNone(data, stride, previous, bpp);
    } else {
      RawEncoded(data[stride..], stride, height - 1, data[..stride], bpp);
      RawRow(data, stride, height, previous, bpp);
    }
  }

  lemma {:induction false} RawNone(data: Bytes, stride: nat, previous: Bytes, bpp: nat)
    requires |data| == 0 && |previous| == stride && bpp > 0
    ensures RawOf(data, stride, 0) == [] == Encoded(Zeros(0), RowsOf(data, stride, 0), previous, bpp)
  {
  }

  lemma RawRow(data: Bytes, stride: nat, height: nat, previous: Bytes, bpp: nat)
    requires |data| == Area(stride, height) && |previous| == stride && bpp > 0 && height > 0
    ensures RawOf(data, stride, height) == [0] + data[..stride] + RawOf(data[stride..], stride, height - 1)
    ensures Encoded(Zeros(height), RowsOf(data, stride, height), previous, bpp) ==
              [0] + data[..stride] +
                Encoded(Zeros(height - 1), RowsOf(data[stride..], stride, height - 1), data[..stride], bpp)
  {
    hide Filter;
    var rows := RowsOf(data, stride, height);
    NoFilter(rows[0], previous, bpp);
    assert rows[1..] == RowsOf(data[stride..], stride, height - 1) && Zeros(height)[1..] == Zeros(height - 1);
    assert Slice(data, 0, stride) == data[..stride] && Slice(data, stride, stride + |data|) == data[stride..];
  }

  lemma HeaderRead(width: nat, height: nat)
    requires width < WORD && height < WORD
    ensures HeaderIn(HeaderBody(width, height)) == Some(Header(width, height, 8, 2, 0))
  {
    var body := HeaderBody(width, height);
    NumberWord(width);
    NumberWord(height);
    assert body[..4] == Word(width) && body[4..8] == Word(height);
  }

  /** What is written is read back: zlib undoing itself, and the image's data as long as its size says. */
  lemma RoundTrip(image: Image, deflate: Deflate, inflate: Inflate, crc: Checksum)
    requires |image.data| == 3 * image.width * image.height && Write(image, deflate, crc).Some?
    requires forall x :: inflate(deflate(x)) == Some(x)
    ensures Read(Write(image, deflate, crc).value, inflate) == Some(image)
  {
    hide Read, Encoded, RowsOf, Join, Serialized, HeaderBody, Zeros, RawOf, Area;
    var stride, h := image.width * 3, Header(image.width, image.height, 8, 2, 0);
    AreaIs(stride, image.height);
    Threefold(image.width, image.height);
    var rows, raw := RowsOf(image.data, stride, image.height), RawOf(image.data, stride, image.height);
    RawEncoded(image.data, stride, image.height, Zeros(stride), 3);
    RowsJoin(image.data, stride, image.height);
    WrittenRead(h, rows, raw, deflate(raw), inflate, crc);
  }

  lemma Threefold(width: nat, height: nat)
    ensures width * 3 * height == 3 * width * height
  {
  }

  lemma {:induction false} WrittenRead(
    h: Header, rows: seq<Bytes>, raw: Bytes, idat: Bytes, inflate: Inflate, crc: Checksum)
    requires h.width < WORD && h.height < WORD && |idat| < WORD && h == Header(h.width, h.height, 8, 2, 0)
    requires |rows| == h.height && forall row :: row in rows ==> |row| == Stride(h)
    requires raw == Encoded(Zeros(h.height), rows, Zeros(Stride(h)), 3) && inflate(idat) == Some(raw)
    ensures Read(SIGNATURE + Serialized(Chunk(IHDR, HeaderBody(h.width, h.height)), crc) +
      Serialized(Chunk(IDAT, idat), crc) +
                 Serialized(Chunk(IEND, []), crc), inflate) == Some(Image(h.width, h.height, Join(rows)))
  {
    hide Read, Encoded, Serialized, Join, HeaderBody, HeaderIn, FoundIn, All, Zeros, Word;
    var head, body, end := Chunk(IHDR, HeaderBody(h.width, h.height)), Chunk(IDAT, idat), Chunk(IEND, []);
    HeaderRead(h.width, h.height);
    HeaderLong(h.width, h.height);
    TwoFound(h, head, body);
    assert raw + [] == raw;
    AnyEncodingRead(h, Zeros(h.height), rows, [], [head, body], end, [], crc, inflate);
    TwoChunks(head, body, crc);
    assert SIGNATURE + (Serialized(head, crc) + Serialized(body, crc)) + Serialized(end, crc) + [] ==
           SIGNATURE + Serialized(head, crc) + Serialized(body, crc) + Serialized(end, crc);
  }

  lemma HeaderLong(width: nat, height: nat)
    requires width < WORD && height < WORD
    ensures |HeaderBody(width, height)| == 13
  {
  }

  lemma TwoFound(h: Header, head: Chunk, body: Chunk)
    requires head.kind == IHDR && body.kind == IDAT && HeaderIn(head.body) == Some(h)
    ensures FoundIn([head, body], Found(None, [])) == Found(Some(h), body.body)
  {
    assert [head, body][1..] == [body] && [body][1..] == [];
    assert FoundIn([body], Found(Some(h), [])) == Found(Some(h), [] + body.body);
  }

  lemma TwoChunks(head: Chunk, body: Chunk, crc: Checksum)
    requires Plain(head) && Plain(body)
    ensures All([head, body], crc) == Serialized(head, crc) + Serialized(body, crc)
  {
    assert [head, body][1..] == [body] && [body][1..] == [];
    assert All([body], crc) == Serialized(body, crc);
  }

  // Data that breaks off.

  lemma {:induction false} RowsLength(raw: Bytes, stride: nat, bpp: nat, n: nat, previous: Bytes)
    requires |previous| == stride && bpp > 0 && RowsIn(raw, stride, bpp, n, previous).Some?
    ensures var pixels := RowsIn(raw, stride, bpp, n, previous).value;
            |pixels| <= Area(stride, n) && (|pixels| == Area(stride, n) <==> |raw| >= Area(stride + 1, n))
    decreases n
  {
    if n > 0 {
      var row := RowIn(raw[0], Slice(raw, 1, 1 + stride), previous, bpp).value;
      if |row| == stride {
        RowsLength(raw[1 + stride..], stride, bpp, n - 1, row);
      } else {
        assert Area(stride, 1) == stride && Area(stride + 1, 1) == stride + 1;
      }
    }
  }

  /** An RGB image read has all its bytes exactly when the data inflated has every row. */
  lemma WholeExactly(h: Header, raw: Bytes)
    requires Readable(h) && h.colour == 2 && ImageIn(h, raw).Some?
    ensures |ImageIn(h, raw).value.data| == 3 * h.width * h.height <==> |raw| >= (3 * h.width + 1) * h.height
  {
    RowsLength(raw, Stride(h), 3, h.height, Zeros(Stride(h)));
    AreaIs(Stride(h), h.height);
    AreaIs(Stride(h) + 1, h.height);
    assert Stride(h) * h.height == 3 * h.width * h.height;
    assert (Stride(h) + 1) * h.height == (3 * h.width + 1) * h.height;
  }

  /** And data that breaks off is read without an error: here, a row of which there is only the filter. */
  lemma BrokenRead(width: nat)
    requires width > 0
    ensures ImageIn(Header(width, 1, 8, 2, 0), [0]) == Some(Image(width, 1, []))
  {
    var stride := width * 3;
    assert Slice([0], 1, 1 + stride) == [];
    assert RowsIn([0], stride, 3, 1, Zeros(stride)) == Some([]);
  }
}
