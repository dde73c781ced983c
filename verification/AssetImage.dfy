/**
 The asset image as the build packs it and reads it back.
 */
module AssetImage {
  import opened Wrappers
  import opened AssetFormat

  datatype File = File(name: Bytes, data: Bytes)

  datatype PackError = NoGifs | NoFont | NotGif | NotSquare96 | NameTooLong | TooLarge

  const GIF87A: Bytes := [0x47, 0x49, 0x46, 0x38, 0x37, 0x61]
  const GIF89A: Bytes := [0x47, 0x49, 0x46, 0x38, 0x39, 0x61]

  /** What is wrong with a GIF, if anything. */
  function GifFault(data: Bytes): Option<PackError> {
    if |data| < 10 || (data[..6] != GIF87A && data[..6] != GIF89A) then Some(NotGif)
    else if Get16(data, 6) != 96 || Get16(data, 8) != 96 then Some(NotSquare96)
    else None
  }

  /** The fault of the first faulty GIF. */
  function FirstFault(gifs: seq<File>): Option<PackError> {
    if gifs == [] then None
    else if FirstFault(gifs[..|gifs| - 1]).Some? then FirstFault(gifs[..|gifs| - 1])
    else GifFault(gifs[|gifs| - 1].data)
  }

  lemma {:induction false} NoFaultMeansAllGood(gifs: seq<File>)
    ensures FirstFault(gifs).None? <==> forall i | 0 <= i < |gifs| :: GifFault(gifs[i].data).None?
    decreases |gifs|
  {
    hide GifFault;
    if gifs != [] {
      NoFaultMeansAllGood(gifs[..|gifs| - 1]);
    }
  }

  function GifAsset(f: File): Asset { Asset(f.name, f.data, 96, 96) }

  function GifAssets(gifs: seq<File>): (r: seq<Asset>)
    ensures |r| == |gifs| && forall i | 0 <= i < |gifs| :: r[i] == GifAsset(gifs[i])
  {
    if gifs == [] then [] else GifAssets(gifs[..|gifs| - 1]) + [GifAsset(gifs[|gifs| - 1])]
  }

  /** All that is packed: the GIFs in their order, then the font, which has no size in pixels. */
  function Packed(gifs: seq<File>, font: File): (r: seq<Asset>)
    ensures |r| == |gifs| + 1
  {
    GifAssets(gifs) + [Asset(font.name, font.data, 0, 0)]
  }

  /** The outcome of packing. No name is ever refused for its length: a long one is cut. */
  function PackOutcome(gifs: seq<File>, font: File): Result<Bytes, PackError> {
    var assets := Packed(gifs, font);
    if gifs == [] then Err(NoGifs)
    else if font.data == [] then Err(NoFont)
    else if FirstFault(gifs).Some? then Err(FirstFault(gifs).value)
    else if |Combined(assets)| >= TWO32 then Err(TooLarge)
    else Ok(Image(assets))
  }

  // ----- Packing

  method PackGifs(gifs: seq<File>) returns (r: Result<seq<Row>, PackError>, merged: Bytes)
    ensures FirstFault(gifs).Some? ==> r == Err(FirstFault(gifs).value)
    ensures FirstFault(gifs).None? ==> r == Ok(Rows(GifAssets(gifs))) && merged == Merge(GifAssets(gifs))
  {
    merged := [];
    var rows: seq<Row> := [];
    assert gifs[..0] == [] && FirstFault([]).None? && Rows(GifAssets([])) == [] && Merge(GifAssets([])) == [];
    hide GifFault, FirstFault, Rows, Merge, GifAssets;
    for i := 0 to |gifs|
      invariant FirstFault(gifs[..i]).None?
      invariant rows == Rows(GifAssets(gifs[..i])) && merged == Merge(GifAssets(gifs[..i]))
    {
      GifStep(gifs, i);
      var f := gifs[i];
      if GifFault(f.data).Some? {
        FaultStays(gifs, i + 1);
        return Err(GifFault(f.data).value), merged;
      }
      rows := rows + [Row(f.name, |merged|, |f.data|, 96, 96)];
      merged := merged + MAGIC + f.data;
    }
    assert gifs[..|gifs|] == gifs;
    r := Ok(rows);
  }

  lemma GifStep(gifs: seq<File>, i: nat)
    requires i < |gifs| && FirstFault(gifs[..i]).None?
    ensures FirstFault(gifs[..i + 1]) == GifFault(gifs[i].data)
    ensures var a := GifAssets(gifs[..i]); var b := GifAssets(gifs[..i + 1]);
            && Rows(b) == Rows(a) + [Row(gifs[i].name, |Merge(a)|, |gifs[i].data|, 96, 96)]
            && Merge(b) == Merge(a) + MAGIC + gifs[i].data
  {
    hide GifFault;
    assert gifs[..i + 1][..i] == gifs[..i];
    assert GifAssets(gifs[..i + 1])[..i] == GifAssets(gifs[..i]);
  }

  lemma {:induction false} FaultStays(gifs: seq<File>, n: nat)
    requires n <= |gifs| && FirstFault(gifs[..n]).Some?
    ensures FirstFault(gifs) == FirstFault(gifs[..n])
    decreases |gifs|
  {
    hide GifFault;
    if n == |gifs| {
      assert gifs[..n] == gifs;
    } else {
      var before := gifs[..|gifs| - 1];
      assert before[..n] == gifs[..n];
      FaultStays(before, n);
    }
  }

  /** Whether a row's numbers fit their fields. */
  predicate Fits(r: Row) { r.offset < TWO32 && r.size < TWO32 }

  /** One entry of the table; its name is cut or padded, so that the refusal of a long one is never given. */
  method PackRow(row: Row) returns (r: Result<Bytes, PackError>)
    requires row.width < TWO16 && row.height < TWO16
    ensures r == if Fits(row) then Ok(EntryBytes(row)) else Err(TooLarge)
  {
    hide Le16, Le32, Fixed;
    var fixed := Fixed(row.name);
    if |fixed| != MAX_NAME { return Err(NameTooLong); }
    if row.size >= TWO32 || row.offset >= TWO32 { return Err(TooLarge); }
    r := Ok(fixed + Le32(row.size) + Le32(row.offset) + Le16(row.width) + Le16(row.height));
  }

  method PackTable(rows: seq<Row>) returns (r: Result<Bytes, PackError>)
    requires forall i | 0 <= i < |rows| :: rows[i].width < TWO16 && rows[i].height < TWO16
    ensures r == if forall i | 0 <= i < |rows| :: Fits(rows[i]) then Ok(Table(rows)) else Err(TooLarge)
  {
    hide Table, EntryBytes, Fits;
    var table: Bytes := [];
    TableEnds(rows);
    for i := 0 to |rows|
      invariant table == Table(rows[..i]) && forall k | 0 <= k < i :: Fits(rows[k])
    {
      var entry := PackRow(rows[i]);
      if entry.Err? { return Err(entry.error); }
      TableNext(rows, i);
      table := table + entry.value;
    }
    r := Ok(table);
  }

  lemma TableEnds(rows: seq<Row>)
    ensures Table(rows[..0]) == [] && rows[..|rows|] == rows
  {
  }

  lemma TableNext(rows: seq<Row>, i: nat)
    requires i < |rows|
    ensures Table(rows[..i + 1]) == Table(rows[..i]) + EntryBytes(rows[i])
  {
    hide EntryBytes;
    assert rows[..i + 1][..i] == rows[..i];
  }

  method PackAssets(gifs: seq<File>, font: File) returns (r: Result<Bytes, PackError>, count: nat)
    ensures r == PackOutcome(gifs, font)
    ensures r.Ok? ==> count == |gifs| + 1
  {
    hide FirstFault;
    count := 0;
    if gifs == [] { return Err(NoGifs), 0; }
    if font.data == [] { return Err(NoFont), 0; }
    var rows, merged := PackGifs(gifs);
    if rows.Err? { return Err(rows.error), 0; }
    ghost var assets := Packed(gifs, font);
    PackedRows(gifs, font);
    hide Rows, Merge;
    var all := rows.value + [Row(font.name, |merged|, |font.data|, 0, 0)];
    merged := merged + MAGIC + font.data;
    RowsSmall(assets);
    var table := PackTable(all);
    if table.Err? {
      OversizeRow(assets);
      return Err(table.error), 0;
    }
    var combined := table.value + merged;
    if |combined| >= TWO32 { return Err(TooLarge), 0; }
    assert combined == Combined(assets);
    r := Ok(Le32(|all|) + Le32(Sum(combined) % TWO16) + Le32(|combined|) + combined);
    count := |all|;
  }

  lemma PackedRows(gifs: seq<File>, font: File)
    ensures var a := GifAssets(gifs); var all := Packed(gifs, font);
            && Rows(all) == Rows(a) + [Row(font.name, |Merge(a)|, |font.data|, 0, 0)]
            && Merge(all) == Merge(a) + MAGIC + font.data
  {
    assert Packed(gifs, font)[..|gifs|] == GifAssets(gifs);
  }

  /** Pixel sizes that fit their fields. */
  predicate SmallSizes(assets: seq<Asset>) {
    forall i | 0 <= i < |assets| :: assets[i].width < TWO16 && assets[i].height < TWO16
  }

  lemma RowsSmall(assets: seq<Asset>)
    requires SmallSizes(assets)
    ensures forall i | 0 <= i < |assets| :: Rows(assets)[i].width < TWO16 && Rows(assets)[i].height < TWO16
  {
    forall i | 0 <= i < |assets| ensures Rows(assets)[i].width < TWO16 && Rows(assets)[i].height < TWO16 {
      RowAt(assets, i);
    }
  }

  /** A number that does not fit its field means data that does not fit the image. */
  lemma OversizeRow(assets: seq<Asset>)
    requires exists i | 0 <= i < |assets| :: !Fits(Rows(assets)[i])
    ensures |Combined(assets)| >= TWO32
  {
    var i :| 0 <= i < |assets| && !Fits(Rows(assets)[i]);
    RowAt(assets, i);
    DataAt(assets, i);
  }

  lemma FittingRow(assets: seq<Asset>, i: nat)
    requires |Combined(assets)| < TWO32 && i < |assets|
    ensures Fits(Rows(assets)[i])
  {
    RowAt(assets, i);
    DataAt(assets, i);
  }

  // ----- Reading back

  function NameAt(c: Bytes, i: nat): Bytes
    requires ENTRY_BYTES * (i + 1) <= |c|
  {
    Text(c[ENTRY_BYTES * i..ENTRY_BYTES * i + MAX_NAME])
  }

  function SizeAt(c: Bytes, i: nat): nat
    requires ENTRY_BYTES * (i + 1) <= |c|
  {
    Get32(c, ENTRY_BYTES * i + 32)
  }

  function OffsetAt(c: Bytes, i: nat): nat
    requires ENTRY_BYTES * (i + 1) <= |c|
  {
    Get32(c, ENTRY_BYTES * i + 36)
  }

  /** The files on disk: the GIF directory by name, and the font. */
  datatype Disk = Disk(gifs: map<Bytes, Bytes>, font: File)

  function Content(d: Disk, name: Bytes): Option<Bytes> {
    if name == d.font.name then Some(d.font.data) else if name in d.gifs then Some(d.gifs[name]) else None
  }

  /** Entry `i` of `n` lies inside the data, starts with the magic and holds what the disk has under its name. */
  predicate EntryVerified(c: Bytes, n: nat, i: nat, d: Disk)
    requires i < n && ENTRY_BYTES * n <= |c|
  {
    var start, size := ENTRY_BYTES * n + OffsetAt(c, i), SizeAt(c, i);
    && start + 2 + size <= |c|
    && c[start..start + 2] == MAGIC
    && Content(d, NameAt(c, i)) == Some(c[start + 2..start + 2 + size])
  }

  predicate EntriesVerified(c: Bytes, n: nat, d: Disk)
    requires ENTRY_BYTES * n <= |c|
  {
    EntriesUpTo(c, n, n, d)
  }

  /** The first `m` of `n` entries are verified and have names of their own. */
  predicate EntriesUpTo(c: Bytes, n: nat, m: nat, d: Disk)
    requires m <= n && ENTRY_BYTES * n <= |c|
  {
    && (forall i | 0 <= i < m :: EntryVerified(c, n, i, d))
    && (forall i, j | 0 <= i < j < m :: NameAt(c, i) != NameAt(c, j))
  }

  /** What it means for an image to hold exactly the expected files. */
  predicate Verified(image: Bytes, expected: nat, d: Disk) {
    && |image| >= HEADER_BYTES && Get32(image, 0) == expected && HEADER_BYTES + Get32(image, 8) <= |image|
    && var c := image[HEADER_BYTES..HEADER_BYTES + Get32(image, 8)];
    && Sum(c) % TWO16 == Get32(image, 4) && ENTRY_BYTES * expected <= |c|
    && EntriesVerified(c, expected, d)
  }

  datatype VerifyError =
    | TooShort | WrongCount | BadLength | BadChecksum | BadTable
    | Duplicate | OutOfRange | NoMagic | Unknown | Differs

  method VerifyEntries(c: Bytes, n: nat, d: Disk) returns (r: Option<VerifyError>)
    requires ENTRY_BYTES * n <= |c|
    ensures r.None? <==> EntriesVerified(c, n, d)
  {
    var seen: set<Bytes> := {};
    assert EntriesUpTo(c, n, 0, d) && Names(c, n, 0) == {};
    hide EntriesUpTo, EntryVerified, Names, NameAt;
    for i := 0 to n
      invariant seen == Names(c, n, i) && |seen| == i && EntriesUpTo(c, n, i, d)
    {
      EntriesNext(c, n, i, d);
      var name := NameAt(c, i);
      if name in seen {
        EntriesFail(c, n, i + 1, d);
        return Some(Duplicate);
      }
      seen := seen + {name};
      var fault := VerifyEntry(c, n, i, d);
      if fault.Some? {
        EntriesFail(c, n, i + 1, d);
        return fault;
      }
    }
    if |seen| != n { return Some(WrongCount); }
    r := None;
  }

  /** The names of the first `m` entries. */
  function Names(c: Bytes, n: nat, m: nat): set<Bytes>
    requires m <= n && ENTRY_BYTES * n <= |c|
  {
    set i | 0 <= i < m :: NameAt(c, i)
  }

  lemma EntriesNext(c: Bytes, n: nat, i: nat, d: Disk)
    requires i < n && ENTRY_BYTES * n <= |c| && EntriesUpTo(c, n, i, d)
    ensures EntriesUpTo(c, n, i + 1, d) <==> EntryVerified(c, n, i, d) && NameAt(c, i) !in Names(c, n, i)
    ensures Names(c, n, i + 1) == Names(c, n, i) + {NameAt(c, i)}
  {
    hide EntryVerified, NameAt;
    if NameAt(c, i) in Names(c, n, i) {
      var k :| 0 <= k < i && NameAt(c, k) == NameAt(c, i);
    }
  }

  lemma EntriesFail(c: Bytes, n: nat, m: nat, d: Disk)
    requires m <= n && ENTRY_BYTES * n <= |c| && !EntriesUpTo(c, n, m, d)
    ensures !EntriesVerified(c, n, d)
  {
    hide EntryVerified, NameAt;
  }

  method VerifyEntry(c: Bytes, n: nat, i: nat, d: Disk) returns (r: Option<VerifyError>)
    requires i < n && ENTRY_BYTES * n <= |c|
    ensures r.None? <==> EntryVerified(c, n, i, d)
  {
    hide Get32, Text;
    var name, size := NameAt(c, i), SizeAt(c, i);
    var start := ENTRY_BYTES * n + OffsetAt(c, i);
    if start + 2 + size > |c| { return Some(OutOfRange); }
    if c[start..start + 2] != MAGIC { return Some(NoMagic); }
    var disk: Bytes;
    if name == d.font.name {
      disk := d.font.data;
    } else {
      if name !in d.gifs { return Some(Unknown); }
      disk := d.gifs[name];
    }
    if disk != c[start + 2..start + 2 + size] { return Some(Differs); }
    r := None;
  }

  method VerifyImage(image: Bytes, expected: nat, d: Disk) returns (r: Option<VerifyError>)
    ensures r.None? <==> Verified(image, expected, d)
  {
    hide EntriesVerified, Sum;
    if |image| < HEADER_BYTES { return Some(TooShort); }
    var total, checksum, len := Get32(image, 0), Get32(image, 4), Get32(image, 8);
    if total != expected { return Some(WrongCount); }
    if len > |image| - HEADER_BYTES { return Some(BadLength); }
    var c := image[HEADER_BYTES..HEADER_BYTES + len];
    if Sum(c) % TWO16 != checksum { return Some(BadChecksum); }
    if |c| < total * ENTRY_BYTES { return Some(BadTable); }
    r := VerifyEntries(c, total, d);
  }

  // ----- What is packed is what is read back

  /** Distinct, NUL-free names that fit their field. */
  predicate GoodNames(assets: seq<Asset>) {
    && (forall i | 0 <= i < |assets| :: |assets[i].name| <= MAX_NAME && 0 !in assets[i].name)
    && (forall i, j | 0 <= i < j < |assets| :: assets[i].name != assets[j].name)
  }

  /** The disk holds every packed file under its name. */
  predicate OnDisk(assets: seq<Asset>, d: Disk) {
    forall i | 0 <= i < |assets| :: Content(d, assets[i].name) == Some(assets[i].data)
  }

  /** The fields of an entry, read from a sequence that holds its bytes at `at`. */
  lemma FieldsAt(c: Bytes, at: nat, r: Row)
    requires at + ENTRY_BYTES <= |c| && c[at..at + ENTRY_BYTES] == EntryBytes(r) && Fits(r)
    requires r.width < TWO16 && r.height < TWO16
    ensures c[at..at + MAX_NAME] == Fixed(r.name)
    ensures Get32(c, at + 32) == r.size && Get32(c, at + 36) == r.offset
    ensures Get16(c, at + 40) == r.width && Get16(c, at + 42) == r.height
  {
    hide Get32, Get16, Le32, Le16, Fixed;
    var e := EntryBytes(r);
    assert c[at..at + 32] == e[..32] && c[at + 32..at + 36] == e[32..36] && c[at + 36..at + 40] == e[36..40];
    assert c[at + 40..at + 42] == e[40..42] && c[at + 42..at + 44] == e[42..44];
    assert e[..32] == Fixed(r.name) && e[32..36] == Le32(r.size) && e[36..40] == Le32(r.offset);
    assert e[40..42] == Le16(r.width) && e[42..44] == Le16(r.height);
    Le32RoundTrip(r.size, c, at + 32);
    Le32RoundTrip(r.offset, c, at + 36);
    Le16RoundTrip(r.width, c, at + 40);
    Le16RoundTrip(r.height, c, at + 42);
  }

  /** Entry `i` of the packed data names file `i` and points at its bytes. */
  lemma PackedEntry(assets: seq<Asset>, i: nat)
    requires i < |assets| && |Combined(assets)| < TWO32 && GoodNames(assets) && SmallSizes(assets)
    ensures var c := Combined(assets); var n := |assets|;
            && ENTRY_BYTES * n <= |c| && NameAt(c, i) == assets[i].name
            && var start := ENTRY_BYTES * n + OffsetAt(c, i);
            && SizeAt(c, i) == |assets[i].data| && start + 2 + |assets[i].data| <= |c|
            && c[start..start + 2] == MAGIC && c[start + 2..start + 2 + |assets[i].data|] == assets[i].data
            && Get16(c, ENTRY_BYTES * i + 40) == assets[i].width && Get16(c, ENTRY_BYTES * i + 42) == assets[i].height
  {
    hide Rows, Table, Merge, EntryBytes, Get32, Get16, Text, Fixed;
    var c, t, m := Combined(assets), Table(Rows(assets)), Merge(assets);
    var r := Rows(assets)[i];
    RowAt(assets, i);
    FittingRow(assets, i);
    EntryAt(Rows(assets), i);
    DataAt(assets, i);
    assert c[ENTRY_BYTES * i..ENTRY_BYTES * i + ENTRY_BYTES] == t[ENTRY_BYTES * i..ENTRY_BYTES * (i + 1)];
    FieldsAt(c, ENTRY_BYTES * i, r);
    NameRoundTrip(r.name);
    assert c[|t| + r.offset..|t| + r.offset + 2] == m[r.offset..r.offset + 2];
    assert c[|t| + r.offset + 2..|t| + r.offset + 2 + r.size] == m[r.offset + 2..r.offset + 2 + r.size];
  }

  lemma PackedEntries(assets: seq<Asset>, d: Disk)
    requires |Combined(assets)| < TWO32 && GoodNames(assets) && SmallSizes(assets) && OnDisk(assets, d)
    ensures ENTRY_BYTES * |assets| <= |Combined(assets)| && EntriesVerified(Combined(assets), |assets|, d)
  {
    var c, n := Combined(assets), |assets|;
    hide Combined, NameAt, SizeAt, OffsetAt, Content, EntryVerified;
    assert ENTRY_BYTES * n <= |c| by { CombinedLength(assets); }
    forall i | 0 <= i < n ensures EntryVerified(c, n, i, d) && NameAt(c, i) == assets[i].name {
      PackedEntry(assets, i);
      IsVerified(c, n, i, d, assets[i]);
    }
  }

  lemma CombinedLength(assets: seq<Asset>)
    ensures ENTRY_BYTES * |assets| <= |Combined(assets)|
  {
  }

  lemma IsVerified(c: Bytes, n: nat, i: nat, d: Disk, a: Asset)
    requires i < n && ENTRY_BYTES * n <= |c| && NameAt(c, i) == a.name && Content(d, a.name) == Some(a.data)
    requires SizeAt(c, i) == |a.data|
    requires var start := ENTRY_BYTES * n + OffsetAt(c, i);
             start + 2 + |a.data| <= |c| && c[start..start + 2] == MAGIC && c[start + 2..start + 2 + |a.data|] == a.data
    ensures EntryVerified(c, n, i, d)
  {
    hide NameAt, SizeAt, OffsetAt, Content;
  }

  /** The header of a packed image, followed by anything. */
  lemma PackedHeader(assets: seq<Asset>, rest: Bytes)
    requires |Combined(assets)| < TWO32
    ensures var p := Image(assets) + rest; var c := Combined(assets);
            && |p| == HEADER_BYTES + |c| + |rest| && Get32(p, 0) == |assets| && Get32(p, 4) == Sum(c) % TWO16
            && Get32(p, 8) == |c| && p[HEADER_BYTES..HEADER_BYTES + |c|] == c
  {
    var c := Combined(assets);
    CombinedLength(assets);
    hide Combined, Get32, Le32, Sum;
    var p := Image(assets) + rest;
    assert p[0..4] == Le32(|assets|) && p[4..8] == Le32(Sum(c) % TWO16) && p[8..12] == Le32(|c|);
    Le32RoundTrip(|assets|, p, 0);
    Le32RoundTrip(Sum(c) % TWO16, p, 4);
    Le32RoundTrip(|c|, p, 8);
  }

  lemma PackedImage(gifs: seq<File>, font: File)
    requires PackOutcome(gifs, font).Ok?
    ensures var assets := Packed(gifs, font);
            PackOutcome(gifs, font).value == Image(assets) && |Combined(assets)| < TWO32 && SmallSizes(assets)
  {
    hide Image, Combined, FirstFault;
  }

  /** Every image that is packed from files with distinct, NUL-free names of at most 32 bytes is verified. */
  lemma PackedIsVerified(gifs: seq<File>, font: File, d: Disk)
    requires PackOutcome(gifs, font).Ok? && GoodNames(Packed(gifs, font)) && OnDisk(Packed(gifs, font), d)
    ensures Verified(PackOutcome(gifs, font).value, |gifs| + 1, d)
  {
    var assets := Packed(gifs, font);
    PackedImage(gifs, font);
    hide PackOutcome, Combined, Sum, EntriesVerified, Get32, GoodNames, SmallSizes, OnDisk, FirstFault, Packed, Image;
    PackedHeader(assets, []);
    assert Image(assets) + [] == Image(assets);
    PackedEntries(assets, d);
  }

  // ----- Names that are too long

  /** The disk holds the packed files and nothing else, under distinct names without NUL. */
  predicate ExactlyOnDisk(assets: seq<Asset>, d: Disk) {
    && (forall i | 0 <= i < |assets| :: 0 !in assets[i].name)
    && (forall i, j | 0 <= i < j < |assets| :: assets[i].name != assets[j].name)
    && OnDisk(assets, d)
    && (forall name | name in d.gifs :: exists i | 0 <= i < |assets| :: assets[i].name == name)
    && (exists i | 0 <= i < |assets| :: assets[i].name == d.font.name)
  }

  /** The name recorded for a file: its first 32 bytes. */
  lemma RecordedName(assets: seq<Asset>, i: nat)
    requires i < |assets| && |Combined(assets)| < TWO32 && SmallSizes(assets) && 0 !in assets[i].name
    ensures ENTRY_BYTES * (i + 1) <= |Combined(assets)|
    ensures NameAt(Combined(assets), i) == if |assets[i].name| <= MAX_NAME then assets[i].name else assets[i].name[..MAX_NAME]
  {
    hide Rows, Table, Merge, EntryBytes, Get32, Get16, Text;
    var c, t := Combined(assets), Table(Rows(assets));
    var name := assets[i].name;
    RowAt(assets, i);
    FittingRow(assets, i);
    EntryAt(Rows(assets), i);
    assert c[ENTRY_BYTES * i..ENTRY_BYTES * i + ENTRY_BYTES] == t[ENTRY_BYTES * i..ENTRY_BYTES * (i + 1)];
    FieldsAt(c, ENTRY_BYTES * i, Rows(assets)[i]);
    if |name| <= MAX_NAME {
      NameRoundTrip(name);
    } else {
      assert Fixed(name)[..MAX_NAME] == name[..MAX_NAME];
      TextUnique(Fixed(name), MAX_NAME);
    }
  }

  /** A cut name is either nobody's on disk or another packed file's, and both are refused. */
  lemma LongNameRefused(assets: seq<Asset>, d: Disk, i: nat)
    requires i < |assets| && |assets[i].name| > MAX_NAME
    requires |Combined(assets)| < TWO32 && SmallSizes(assets) && ExactlyOnDisk(assets, d)
    ensures ENTRY_BYTES * |assets| <= |Combined(assets)| && !EntriesVerified(Combined(assets), |assets|, d)
  {
    var c, n := Combined(assets), |assets|;
    CombinedLength(assets);
    hide Combined, NameAt, SizeAt, OffsetAt;
    RecordedName(assets, i);
    var cut := assets[i].name[..MAX_NAME];
    if Content(d, cut).None? {
      assert !EntryVerified(c, n, i, d);
    } else {
      var j :| 0 <= j < n && assets[j].name == cut;
      RecordedName(assets, j);
      assert NameAt(c, j) == NameAt(c, i) && j != i;
    }
  }

  lemma LongNameImageRefused(assets: seq<Asset>, d: Disk, i: nat)
    requires i < |assets| && |assets[i].name| > MAX_NAME
    requires |Combined(assets)| < TWO32 && SmallSizes(assets) && ExactlyOnDisk(assets, d)
    ensures !Verified(Image(assets), |assets|, d)
  {
    hide Combined, Sum, EntriesVerified, Get32, SmallSizes, ExactlyOnDisk, Image;
    LongNameRefused(assets, d, i);
    PackedHeader(assets, []);
    assert Image(assets) + [] == Image(assets);
  }

  /**
   When the disk holds exactly the packed files, under distinct names without NUL, the packed image is
   verified if and only if no name is longer than 32 bytes. The packer itself refuses no name.
   */
  lemma VerifiedIffNamesFit(gifs: seq<File>, font: File, d: Disk)
    requires PackOutcome(gifs, font).Ok? && ExactlyOnDisk(Packed(gifs, font), d)
    ensures Verified(PackOutcome(gifs, font).value, |gifs| + 1, d)
            <==> forall i | 0 <= i < |Packed(gifs, font)| :: |Packed(gifs, font)[i].name| <= MAX_NAME
  {
    var assets := Packed(gifs, font);
    PackedImage(gifs, font);
    hide Combined, Verified, SmallSizes, Packed, Image, PackOutcome, Content;
    if i :| 0 <= i < |assets| && |assets[i].name| > MAX_NAME {
      hide ExactlyOnDisk;
      LongNameImageRefused(assets, d, i);
    } else {
      PackedIsVerified(gifs, font, d);
    }
  }

  // ----- What is packed

  /** A GIF of either version, 96 by 96 pixels, byte by byte. */
  predicate IsGif96(data: Bytes) {
    && |data| >= 10 && data[0] == 0x47 && data[1] == 0x49 && data[2] == 0x46 && data[3] == 0x38
    && (data[4] == 0x37 || data[4] == 0x39) && data[5] == 0x61
    && data[6] == 96 && data[7] == 0 && data[8] == 96 && data[9] == 0
  }

  lemma GoodGif(data: Bytes)
    ensures GifFault(data).None? <==> IsGif96(data)
  {
    if |data| >= 10 {
      var h := data[..6];
      assert h[0] == data[0] && h[1] == data[1] && h[2] == data[2] && h[3] == data[3] && h[4] == data[4] && h[5] == data[5];
      assert h == GIF87A <==> h[0] == 0x47 && h[1] == 0x49 && h[2] == 0x46 && h[3] == 0x38 && h[4] == 0x37 && h[5] == 0x61;
      assert h == GIF89A <==> h[0] == 0x47 && h[1] == 0x49 && h[2] == 0x46 && h[3] == 0x38 && h[4] == 0x39 && h[5] == 0x61;
    }
  }

  /** Packing succeeds if and only if there are GIFs, each 96 by 96, a font that is not empty, and less than 4 GiB in all. */
  lemma PacksIff(gifs: seq<File>, font: File)
    ensures PackOutcome(gifs, font).Ok? <==>
              && gifs != [] && font.data != [] && (forall i | 0 <= i < |gifs| :: IsGif96(gifs[i].data))
              && |Combined(Packed(gifs, font))| < 0x1_0000_0000
  {
    NoFaultMeansAllGood(gifs);
    forall i | 0 <= i < |gifs| ensures GifFault(gifs[i].data).None? <==> IsGif96(gifs[i].data) {
      GoodGif(gifs[i].data);
    }
    hide GifFault, IsGif96, FirstFault, Combined, Packed;
  }
}
