/**
 The device's reader of the asset partition. Its sizes and offsets are 32 bits wide.
 */
module AssetDevice {
  import opened Wrappers
  import opened AssetFormat
  import opened AssetImage

  const MAX_FILES: nat := 13

  /** Addition as the device does it. */
  function Add32(a: nat, b: nat): nat { (a + b) % TWO32 }

  function FilesOf(p: Bytes): nat requires |p| >= HEADER_BYTES { Get32(p, 0) }
  function LengthOf(p: Bytes): nat requires |p| >= HEADER_BYTES { Get32(p, 8) }

  /** The part of the partition that the header declares. */
  function DataOf(p: Bytes): Bytes
    requires |p| >= HEADER_BYTES && HEADER_BYTES + LengthOf(p) <= |p|
  {
    p[HEADER_BYTES..HEADER_BYTES + LengthOf(p)]
  }

  /** A partition whose table can be read. */
  predicate TableReadable(p: Bytes) {
    && HEADER_BYTES <= |p| < TWO32 && LengthOf(p) <= |p| - HEADER_BYTES
    && FilesOf(p) <= MAX_FILES && ENTRY_BYTES * FilesOf(p) <= LengthOf(p)
  }

  /** Where entry `i` starts, counted from the start of the partition. */
  function StartOf(p: Bytes, i: nat): nat
    requires TableReadable(p) && i < FilesOf(p)
  {
    Add32(HEADER_BYTES + ENTRY_BYTES * FilesOf(p), OffsetAt(DataOf(p), i))
  }

  /** The device's bounds check, in 32-bit arithmetic. */
  predicate InBounds(p: Bytes, i: nat)
    requires TableReadable(p) && i < FilesOf(p)
  {
    var start := StartOf(p, i);
    Add32(Add32(start, 2), SizeAt(DataOf(p), i)) <= HEADER_BYTES + LengthOf(p) && Add32(start, 2) >= HEADER_BYTES
  }

  predicate Accepted(p: Bytes) {
    && TableReadable(p)
    && (forall i | 0 <= i < FilesOf(p) :: InBounds(p, i))
    && Sum(DataOf(p)) % TWO16 == Get32(p, 4) % TWO16
  }

  // ----- Names

  function Ascii(s: string): Bytes {
    if s == "" then [] else [(s[0] as int) % 256] + Ascii(s[1..])
  }

  /** The controlled ids; none contains a path separator or two dots. */
  const CONTROLLED: seq<string> := ["boot", "connecting", "error", "happy", "idle", "idle_eyes", "listening",
                                    "provisioning", "sleepy", "speaking", "thinking", "dizzy"]

  /** "font_noto_sans_common_14_1.bin" */
  const FONT_NAME: Bytes := [
    0x66, 0x6f, 0x6e, 0x74, 0x5f, 0x6e, 0x6f, 0x74, 0x6f, 0x5f, 0x73, 0x61, 0x6e, 0x73, 0x5f,
    0x63, 0x6f, 0x6d, 0x6d, 0x6f, 0x6e, 0x5f, 0x31, 0x34, 0x5f, 0x31, 0x2e, 0x62, 0x69, 0x6e
  ]

  function FilenameFor(id: string): Bytes { Ascii(id + ".gif") }

  // ----- The reader

  datatype InitResult = InitOk | NoPartition | HeaderOutside | LengthRefused | TableRefused | EntryRefused | ChecksumRefused

  datatype LoadResult =
    | Loaded(bytes: Bytes) | NotControlled | NotInitialized | OutOfBounds | MagicMissing | NotFound | OutsidePartition

  /** What loading entry `i` gives. A read past the partition is no defined result. */
  function LoadEntry(p: Bytes, i: nat): LoadResult
    requires TableReadable(p) && i < FilesOf(p)
  {
    var start, size := StartOf(p, i), SizeAt(DataOf(p), i);
    if !InBounds(p, i) then OutOfBounds
    else if start + 2 + size > |p| then OutsidePartition
    else if p[start..start + 2] != MAGIC then MagicMissing
    else Loaded(p[start + 2..start + 2 + size])
  }

  /** A font's entry has no size in pixels and is not empty. */
  predicate FontEntry(p: Bytes, i: nat)
    requires TableReadable(p) && i < FilesOf(p)
  {
    var c := DataOf(p);
    Get16(c, ENTRY_BYTES * i + 40) == 0 && Get16(c, ENTRY_BYTES * i + 42) == 0 && SizeAt(c, i) > 0
  }

  /** The first entry with a name, from entry `i` on. */
  function FirstNamed(p: Bytes, name: Bytes, i: nat): (r: Option<nat>)
    requires TableReadable(p) && i <= FilesOf(p)
    ensures r.None? ==> forall k | i <= k < FilesOf(p) :: NameAt(DataOf(p), k) != name
    ensures r.Some? ==> i <= r.value < FilesOf(p) && NameAt(DataOf(p), r.value) == name
    ensures r.Some? ==> forall k | i <= k < r.value :: NameAt(DataOf(p), k) != name
    decreases FilesOf(p) - i
  {
    if i == FilesOf(p) then None
    else if NameAt(DataOf(p), i) == name then Some(i)
    else FirstNamed(p, name, i + 1)
  }

  function LoadOutcome(p: Bytes, name: Bytes): LoadResult
    requires TableReadable(p)
  {
    match FirstNamed(p, name, 0)
    case None => NotFound
    case Some(i) => LoadEntry(p, i)
  }

  function FontOutcome(p: Bytes): LoadResult
    requires TableReadable(p)
  {
    match FirstNamed(p, FONT_NAME, 0)
    case None => NotFound
    case Some(i) => if FontEntry(p, i) then LoadEntry(p, i) else OutOfBounds
  }

  class EmojiAssets {
    var root: Bytes
    var initialized: bool

    ghost predicate Valid() reads this { initialized ==> Accepted(root) }

    constructor ()
      ensures !initialized && Valid()
    {
      root, initialized := [], false;
    }

    method Initialize(partition: Option<Bytes>) returns (r: InitResult)
      requires Valid() && (partition.Some? ==> |partition.value| < TWO32)
      modifies this
      ensures Valid()
      ensures r.InitOk? <==> partition.Some? && Accepted(partition.value)
      ensures r.HeaderOutside? <==> partition.Some? && |partition.value| < HEADER_BYTES
      ensures r.InitOk? ==> initialized && root == partition.value
      ensures !r.InitOk? ==> initialized == old(initialized) && root == old(root)
    {
      hide Get32, Sum, InBounds;
      if partition.None? { return NoPartition; }
      var p := partition.value;
      if |p| < HEADER_BYTES { return HeaderOutside; }
      var files, checksum, len := Get32(p, 0), Get32(p, 4), Get32(p, 8);
      if len > |p| - HEADER_BYTES { return LengthRefused; }
      if files > MAX_FILES || ENTRY_BYTES * files > len { return TableRefused; }
      for i := 0 to files
        invariant forall k | 0 <= k < i :: InBounds(p, k)
      {
        if !InBounds(p, i) { return EntryRefused; }
      }
      var calculated := CalculateChecksum(p[HEADER_BYTES..HEADER_BYTES + len]);
      if calculated != checksum % TWO16 { return ChecksumRefused; }
      root, initialized := p, true;
      r := InitOk;
    }

    method Load(id: string) returns (r: LoadResult)
      requires Valid()
      ensures r == if id !in CONTROLLED then NotControlled else if !initialized then NotInitialized
                   else LoadOutcome(root, FilenameFor(id))
    {
      hide NameAt, LoadEntry;
      if id !in CONTROLLED { return NotControlled; }
      if !initialized { return NotInitialized; }
      var files, name := Get32(root, 0), FilenameFor(id);
      var i := 0;
      while i < files
        invariant i <= files && FirstNamed(root, name, 0) == FirstNamed(root, name, i)
      {
        if NameAt(DataOf(root), i) == name { return LoadEntry(root, i); }
        i := i + 1;
      }
      r := NotFound;
    }

    method LoadCommonTextFont() returns (r: LoadResult)
      requires Valid()
      ensures r == if !initialized then NotInitialized else FontOutcome(root)
    {
      hide NameAt, LoadEntry, FontEntry;
      if !initialized { return NotInitialized; }
      var files := Get32(root, 0);
      var i := 0;
      while i < files
        invariant i <= files && FirstNamed(root, FONT_NAME, 0) == FirstNamed(root, FONT_NAME, i)
      {
        if NameAt(DataOf(root), i) == FONT_NAME {
          return if FontEntry(root, i) then LoadEntry(root, i) else OutOfBounds;
        }
        i := i + 1;
      }
      r := NotFound;
    }
  }

  // ----- When a read leaves the partition

  /**
   Exactly when the bounds check lets a read leave the partition: when the end of the entry, counted without
   wrap-around, does not fit 32 bits.
   */
  lemma OutsideIff(p: Bytes, i: nat)
    requires TableReadable(p) && i < FilesOf(p) && InBounds(p, i)
    ensures LoadEntry(p, i) == OutsidePartition <==> StartOf(p, i) + 2 + SizeAt(DataOf(p), i) >= TWO32
  {
    hide OffsetAt, SizeAt, Get32;
    var start, size := StartOf(p, i), SizeAt(DataOf(p), i);
    SizeFits(DataOf(p), i);
    if start + 2 + size < TWO32 {
      assert Add32(Add32(start, 2), size) == start + 2 + size;
    }
  }

  lemma SizeFits(c: Bytes, i: nat)
    requires ENTRY_BYTES * (i + 1) <= |c|
    ensures SizeAt(c, i) < TWO32
  {
  }

  /** On a partition that was accepted, for any name: the first entry with it decides, by the same condition. */
  lemma LoadLeavesIff(p: Bytes, name: Bytes)
    requires Accepted(p)
    ensures LoadOutcome(p, name) == OutsidePartition <==>
              var i := FirstNamed(p, name, 0);
              i.Some? && StartOf(p, i.value) + 2 + SizeAt(DataOf(p), i.value) >= TWO32
  {
    var i := FirstNamed(p, name, 0);
    if i.Some? {
      OutsideIff(p, i.value);
    }
    hide LoadEntry, StartOf, SizeAt, FirstNamed, InBounds;
  }

  /** One entry whose data would start 100 bytes below 4 GiB and be 150 bytes long. */
  function WrappingRow(name: Bytes): Row { Row(name, TWO32 - 156, 150, 0, 0) }

  /** A partition with just that entry. */
  function WrappingImage(name: Bytes): Bytes {
    var c := EntryBytes(WrappingRow(name));
    Le32(1) + Le32(Sum(c) % TWO16) + Le32(|c|) + c
  }

  lemma WrappingHeader(name: Bytes)
    ensures var p := WrappingImage(name); var c := EntryBytes(WrappingRow(name));
            && |p| == 56 && FilesOf(p) == 1 && LengthOf(p) == 44 && Get32(p, 4) == Sum(c) % TWO16
            && DataOf(p) == c
  {
    var p := WrappingImage(name);
    var c := EntryBytes(WrappingRow(name));
    hide Get32, Le32, Sum, EntryBytes;
    assert p[0..4] == Le32(1) && p[4..8] == Le32(Sum(c) % TWO16) && p[8..12] == Le32(|c|) && p[12..56] == c;
    Le32RoundTrip(1, p, 0);
    Le32RoundTrip(Sum(c) % TWO16, p, 4);
    Le32RoundTrip(|c|, p, 8);
  }

  lemma WrappingFields(name: Bytes)
    requires |name| <= MAX_NAME && 0 !in name
    ensures var c := EntryBytes(WrappingRow(name));
            NameAt(c, 0) == name && OffsetAt(c, 0) == TWO32 - 156 && SizeAt(c, 0) == 150
  {
    var c := EntryBytes(WrappingRow(name));
    assert c[0..ENTRY_BYTES] == c;
    FieldsAt(c, 0, WrappingRow(name));
    NameRoundTrip(name);
    hide Get32, EntryBytes, Text, Fixed;
  }

  /** For every name there is a partition that the device accepts and from which loading that name reads outside it. */
  lemma AcceptedReadsOutside(name: Bytes)
    requires |name| <= MAX_NAME && 0 !in name
    ensures Accepted(WrappingImage(name)) && LoadOutcome(WrappingImage(name), name) == OutsidePartition
  {
    var p := WrappingImage(name);
    WrappingHeader(name);
    WrappingFields(name);
    hide WrappingImage, EntryBytes, NameAt, OffsetAt, SizeAt, Sum, FilesOf, LengthOf, DataOf;
    assert TableReadable(p);
    WrappingBounds(p);
    assert Accepted(p);
    assert FirstNamed(p, name, 0) == Some(0);
    hide InBounds, StartOf, Accepted, LoadOutcome;
    LoadLeavesIff(p, name);
  }

  lemma WrappingBounds(p: Bytes)
    requires TableReadable(p) && FilesOf(p) == 1 && LengthOf(p) == 44
    requires OffsetAt(DataOf(p), 0) == TWO32 - 156 && SizeAt(DataOf(p), 0) == 150
    ensures StartOf(p, 0) == TWO32 - 100 && InBounds(p, 0)
  {
    hide OffsetAt, SizeAt, FilesOf, LengthOf, DataOf;
  }

  // ----- What the build verified is what the device loads

  /** Bounds that hold without wrap-around are what the device computes. */
  lemma NoWrap(p: Bytes, i: nat)
    requires TableReadable(p) && i < FilesOf(p)
    requires ENTRY_BYTES * FilesOf(p) + OffsetAt(DataOf(p), i) + 2 + SizeAt(DataOf(p), i) <= LengthOf(p)
    ensures InBounds(p, i) && StartOf(p, i) == HEADER_BYTES + ENTRY_BYTES * FilesOf(p) + OffsetAt(DataOf(p), i)
  {
    hide OffsetAt, SizeAt;
  }

  lemma VerifiedReadable(image: Bytes, n: nat, d: Disk, rest: Bytes)
    requires Verified(image, n, d) && n <= MAX_FILES && |image + rest| < TWO32
    ensures var p := image + rest;
            && TableReadable(p) && FilesOf(p) == n && EntriesVerified(DataOf(p), n, d)
            && Sum(DataOf(p)) % TWO16 == Get32(p, 4) % TWO16
  {
    hide EntriesVerified, Sum;
    var p := image + rest;
    assert p[0..|image|] == image;
    GetInside(p, 0, image, 0);
    GetInside(p, 0, image, 4);
    GetInside(p, 0, image, 8);
    hide Get32;
    assert DataOf(p) == image[HEADER_BYTES..HEADER_BYTES + Get32(image, 8)];
  }

  lemma VerifiedEntryLoads(p: Bytes, n: nat, d: Disk, i: nat)
    requires TableReadable(p) && FilesOf(p) == n && i < n && EntryVerified(DataOf(p), n, i, d)
    ensures InBounds(p, i) && Content(d, NameAt(DataOf(p), i)).Some?
    ensures LoadEntry(p, i) == Loaded(Content(d, NameAt(DataOf(p), i)).value)
  {
    NoWrap(p, i);
    hide NameAt, OffsetAt, SizeAt, Content, InBounds, StartOf;
    var c := DataOf(p);
    var start, size := ENTRY_BYTES * n + OffsetAt(c, i), SizeAt(c, i);
    SliceOfSlice(p, HEADER_BYTES, HEADER_BYTES + LengthOf(p), start, start + 2);
    SliceOfSlice(p, HEADER_BYTES, HEADER_BYTES + LengthOf(p), start + 2, start + 2 + size);
  }

  lemma SliceOfSlice(p: Bytes, a: nat, b: nat, i: nat, j: nat)
    requires a <= b <= |p| && i <= j <= b - a
    ensures p[a..b][i..j] == p[a + i..a + j]
  {
    var x, y := p[a..b][i..j], p[a + i..a + j];
    assert |x| == |y| && forall k | 0 <= k < |x| :: x[k] == p[a + i + k] == y[k];
  }

  /**
   An image of at most 13 files that passes verification is accepted by the device from a partition of less
   than 4 GiB, whatever follows it there; and a name is loaded exactly when the image has it, as the disk's bytes.
   */
  lemma VerifiedLoads(image: Bytes, n: nat, d: Disk, rest: Bytes, name: Bytes)
    requires Verified(image, n, d) && n <= MAX_FILES && |image + rest| < TWO32
    ensures var p := image + rest;
            && Accepted(p)
            && (LoadOutcome(p, name) != NotFound ==>
                  Content(d, name).Some? && LoadOutcome(p, name) == Loaded(Content(d, name).value))
            && (LoadOutcome(p, name) == NotFound <==> forall i | 0 <= i < n :: NameAt(DataOf(p), i) != name)
  {
    var p := image + rest;
    VerifiedReadable(image, n, d, rest);
    hide Verified, NameAt, EntryVerified, LoadEntry, InBounds, Content, Sum, TableReadable;
    forall i | 0 <= i < n
      ensures InBounds(p, i) && Content(d, NameAt(DataOf(p), i)).Some?
      ensures LoadEntry(p, i) == Loaded(Content(d, NameAt(DataOf(p), i)).value)
    {
      VerifiedEntryLoads(p, n, d, i);
    }
  }

  function NameSet(assets: seq<Asset>): set<Bytes> { set i | 0 <= i < |assets| :: assets[i].name }

  /** The data of the first asset with a name. */
  function DataNamed(assets: seq<Asset>, name: Bytes): Bytes
    requires name in NameSet(assets)
  {
    if assets[0].name == name then assets[0].data
    else
      assert exists i | 0 <= i < |assets[1..]| :: assets[1..][i].name == name by {
        var i :| 0 <= i < |assets| && assets[i].name == name;
        assert assets[1..][i - 1].name == name;
      }
      DataNamed(assets[1..], name)
  }

  /** A disk that holds just the given files. */
  function DiskOf(assets: seq<Asset>, font: File): Disk {
    Disk(map name | name in NameSet(assets) :: DataNamed(assets, name), font)
  }

  lemma {:induction false} DataNamedAt(assets: seq<Asset>, i: nat)
    requires i < |assets| && forall j, k | 0 <= j < k < |assets| :: assets[j].name != assets[k].name
    ensures assets[i].name in NameSet(assets) && DataNamed(assets, assets[i].name) == assets[i].data
    decreases |assets|
  {
    if i > 0 {
      assert assets[0].name != assets[i].name;
      DataNamedAt(assets[1..], i - 1);
    }
  }

  lemma DiskHolds(gifs: seq<File>, font: File)
    requires GoodNames(Packed(gifs, font))
    ensures var assets := Packed(gifs, font); OnDisk(assets, DiskOf(assets, font))
  {
    var assets := Packed(gifs, font);
    forall i | 0 <= i < |assets| ensures Content(DiskOf(assets, font), assets[i].name) == Some(assets[i].data) {
      DataNamedAt(assets, i);
      DataNamedAt(assets, |gifs|);
    }
  }

  /** Entry `i` of a packed image is named after file `i`, in the partition too. */
  lemma PackedNameAt(assets: seq<Asset>, i: nat, rest: Bytes)
    requires i < |assets| && |Combined(assets)| < TWO32 && GoodNames(assets) && SmallSizes(assets)
    ensures var p := Image(assets) + rest;
            |p| >= HEADER_BYTES && HEADER_BYTES + LengthOf(p) <= |p| && DataOf(p) == Combined(assets)
            && ENTRY_BYTES * |assets| <= |DataOf(p)| && NameAt(DataOf(p), i) == assets[i].name
  {
    hide Get32, Combined, NameAt, Image, SizeAt, OffsetAt;
    PackedHeader(assets, rest);
    PackedEntry(assets, i);
  }

  /**
   The whole way from the files to the device: what is packed from at most 13 files with distinct, NUL-free names
   of at most 32 bytes is accepted, and loading a packed file's name gives exactly that file's bytes.
   */
  lemma PackedLoads(gifs: seq<File>, font: File, rest: Bytes, i: nat)
    requires PackOutcome(gifs, font).Ok? && GoodNames(Packed(gifs, font)) && i <= |gifs| < MAX_FILES
    requires |PackOutcome(gifs, font).value + rest| < TWO32
    ensures var p := PackOutcome(gifs, font).value + rest; var a := Packed(gifs, font)[i];
            Accepted(p) && LoadOutcome(p, a.name) == Loaded(a.data)
  {
    var assets := Packed(gifs, font);
    var d := DiskOf(assets, font);
    DiskHolds(gifs, font);
    assert Content(d, assets[i].name) == Some(assets[i].data);
    PackedImage(gifs, font);
    hide *;
    PackedIsVerified(gifs, font, d);
    VerifiedLoads(Image(assets), |assets|, d, rest, assets[i].name);
    PackedNameAt(assets, i, rest);
  }

  /** The packed font's entry meets the extra conditions on fonts. */
  lemma PackedFontEntry(assets: seq<Asset>, n: nat, rest: Bytes)
    requires n < |assets| && |Combined(assets)| < TWO32 && GoodNames(assets) && SmallSizes(assets)
    requires assets[n].data != [] && assets[n].width == 0 && assets[n].height == 0
    requires TableReadable(Image(assets) + rest)
    ensures FilesOf(Image(assets) + rest) == |assets| && FontEntry(Image(assets) + rest, n)
  {
    hide Image, Combined, GoodNames, SmallSizes, NameAt, Get32, Get16;
    PackedHeader(assets, rest);
    PackedEntry(assets, n);
  }

  /** When only entry `n` has the font's name and it is a font's entry, the font is loaded like any file. */
  lemma FontFound(p: Bytes, n: nat)
    requires TableReadable(p) && n < FilesOf(p) && FontEntry(p, n) && NameAt(DataOf(p), n) == FONT_NAME
    requires forall i | 0 <= i < n :: NameAt(DataOf(p), i) != FONT_NAME
    ensures FontOutcome(p) == LoadOutcome(p, FONT_NAME)
  {
    hide TableReadable, NameAt, LoadEntry, FontEntry, FilesOf, DataOf;
  }

  /** The font is loaded with exactly its bytes when it was packed under the name the device looks for. */
  lemma PackedFontLoads(gifs: seq<File>, font: File, rest: Bytes)
    requires PackOutcome(gifs, font).Ok? && GoodNames(Packed(gifs, font)) && |gifs| < MAX_FILES
    requires |PackOutcome(gifs, font).value + rest| < TWO32 && font.name == FONT_NAME
    ensures var p := PackOutcome(gifs, font).value + rest;
            Accepted(p) && FontOutcome(p) == Loaded(font.data)
  {
    var assets, n := Packed(gifs, font), |gifs|;
    assert assets[n] == Asset(font.name, font.data, 0, 0) && font.data != [];
    assert forall i | 0 <= i < n :: assets[i].name != assets[n].name;
    PackedImage(gifs, font);
    PackedLoads(gifs, font, rest, n);
    hide PackOutcome, Packed, Image, Combined, GoodNames, SmallSizes, NameAt, LoadOutcome, FontOutcome, FontEntry, Sum;
    PackedFontEntry(assets, n, rest);
    var p := Image(assets) + rest;
    forall i | 0 <= i <= n ensures NameAt(DataOf(p), i) == assets[i].name {
      PackedNameAt(assets, i, rest);
    }
    FontFound(p, n);
  }

  // ----- From a controlled id to the packed file

  /** The ids an asset may be asked for, one by one. */
  lemma ControlledExactly(id: string)
    ensures id in CONTROLLED <==>
              || id == "boot" || id == "connecting" || id == "error" || id == "happy" || id == "idle" || id == "idle_eyes"
              || id == "listening" || id == "provisioning" || id == "sleepy" || id == "speaking" || id == "thinking"
              || id == "dizzy"
  {
  }

  lemma {:induction false} AsciiExact(s: string)
    ensures |Ascii(s)| == |s| && forall i | 0 <= i < |s| :: s[i] < 256 as char ==> Ascii(s)[i] == s[i] as int
    decreases |s|
  {
    if s != "" {
      AsciiExact(s[1..]);
      assert forall i | 1 <= i < |s| :: s[i] == s[1..][i - 1];
    }
  }

  /** The bytes of `<id>.gif`. */
  predicate NamedAfter(name: Bytes, id: string) {
    && |name| == |id| + 4 && (forall i | 0 <= i < |id| :: name[i] == id[i] as int)
    && name[|id|..] == [0x2e, 0x67, 0x69, 0x66]
  }

  lemma FilenameExact(id: string)
    requires forall i | 0 <= i < |id| :: id[i] < 128 as char
    ensures NamedAfter(FilenameFor(id), id)
  {
    var s := id + ".gif";
    AsciiExact(s);
    hide Ascii;
    var name := FilenameFor(id);
    assert s[|id|] == '.' && s[|id| + 1] == 'g' && s[|id| + 2] == 'i' && s[|id| + 3] == 'f';
    assert forall i | 0 <= i < |id| :: s[i] == id[i];
    assert name[|id|..] == [name[|id|], name[|id| + 1], name[|id| + 2], name[|id| + 3]];
  }

  lemma ControlledAreAscii(id: string)
    requires id in CONTROLLED
    ensures forall i | 0 <= i < |id| :: id[i] < 128 as char
  {
  }

  lemma SameName(a: Bytes, b: Bytes, id: string)
    requires NamedAfter(a, id) && NamedAfter(b, id)
    ensures a == b
  {
    assert a == a[..|id|] + a[|id|..] && b == b[..|id|] + b[|id|..];
    assert a[..|id|] == b[..|id|];
  }

  /**
   For every controlled id: when a file named `<id>.gif` is among those packed, what the device loads for the id is that
   file's bytes.
   */
  lemma ControlledLoads(gifs: seq<File>, font: File, rest: Bytes, id: string, i: nat)
    requires PackOutcome(gifs, font).Ok? && GoodNames(Packed(gifs, font)) && |gifs| < MAX_FILES
    requires |PackOutcome(gifs, font).value + rest| < TWO32
    requires id in CONTROLLED && i < |gifs| && NamedAfter(gifs[i].name, id)
    ensures var p := PackOutcome(gifs, font).value + rest;
            Accepted(p) && LoadOutcome(p, FilenameFor(id)) == Loaded(gifs[i].data)
  {
    ControlledAreAscii(id);
    FilenameExact(id);
    SameName(FilenameFor(id), gifs[i].name, id);
    assert Packed(gifs, font)[i] == GifAsset(gifs[i]);
    hide FilenameFor, NamedAfter, CONTROLLED, PackOutcome, Packed, LoadOutcome, Accepted, GoodNames;
    PackedLoads(gifs, font, rest, i);
  }

  // ----- What the device refuses

  /** A partition of more than 13 files is refused, and so is one in which any single byte of the data was changed. */
  lemma CorruptByteRefused(p: Bytes, i: nat, b: Byte)
    requires Accepted(p) && HEADER_BYTES <= i < HEADER_BYTES + LengthOf(p) && b != p[i]
    ensures FilesOf(p) <= 13 && !Accepted(p[i := b])
  {
    var q := p[i := b];
    HeaderStays(p, i, b);
    hide Get32;
    if LengthOf(q) == LengthOf(p) && TableReadable(q) {
      var c, k := DataOf(p), i - HEADER_BYTES;
      assert DataOf(q) == c[k := b];
      SumChanges(c, k, b);
      ByteMod(Sum(c), c[k], b);
    }
  }

  lemma HeaderStays(p: Bytes, i: nat, b: Byte)
    requires HEADER_BYTES <= i < |p|
    ensures forall at: nat | at <= 8 :: Get32(p[i := b], at) == Get32(p, at)
  {
  }

  lemma {:induction false} SumChanges(c: Bytes, k: nat, b: Byte)
    requires k < |c|
    ensures Sum(c[k := b]) == Sum(c) - c[k] + b
    decreases |c|
  {
    var n := |c| - 1;
    if k < n {
      SumChanges(c[..n], k, b);
      assert c[k := b][..n] == c[..n][k := b];
    } else {
      assert c[k := b][..n] == c[..n];
    }
  }

  lemma ByteMod(sum: int, a: Byte, b: Byte)
    requires a != b
    ensures (sum - a + b) % TWO16 != sum % TWO16
  {
  }
}
