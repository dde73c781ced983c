/**
 The asset image's bytes: little-endian numbers, the checksum, the file table and the data behind it.
 */
module AssetFormat {
  import opened Wrappers

  const HEADER_BYTES: nat := 12
  const ENTRY_BYTES: nat := 44
  const MAX_NAME: nat := 32
  const MAGIC: seq<Byte> := [0x5a, 0x5a]
  const TWO16: nat := 0x1_0000
  const TWO32: nat := 0x1_0000_0000

  // ----- Numbers

  function Le16(v: nat): (r: seq<Byte>)
    ensures |r| == 2
  {
    [v % 256, v / 256 % 256]
  }

  function Le32(v: nat): (r: seq<Byte>)
    ensures |r| == 4
  {
    [v % 256, v / 256 % 256, v / 65536 % 256, v / 16777216 % 256]
  }

  function Get16(b: seq<Byte>, at: nat): (v: nat)
    requires at + 2 <= |b|
    ensures v < TWO16
  {
    var lo: int, hi: int := b[at], b[at + 1];
    lo + 256 * hi
  }

  function Get32(b: seq<Byte>, at: nat): (v: nat)
    requires at + 4 <= |b|
    ensures v < TWO32
  {
    var b0: int, b1: int, b2: int, b3: int := b[at], b[at + 1], b[at + 2], b[at + 3];
    b0 + 256 * b1 + 65536 * b2 + 16777216 * b3
  }

  lemma Le16RoundTrip(v: nat, b: seq<Byte>, at: nat)
    requires v < TWO16 && at + 2 <= |b| && b[at..at + 2] == Le16(v)
    ensures Get16(b, at) == v
  {
    assert b[at] == b[at..at + 2][0] && b[at + 1] == b[at..at + 2][1];
  }

  lemma Le32RoundTrip(v: nat, b: seq<Byte>, at: nat)
    requires v < TWO32 && at + 4 <= |b| && b[at..at + 4] == Le32(v)
    ensures Get32(b, at) == v
  {
    var d := b[at..at + 4];
    assert b[at] == d[0] && b[at + 1] == d[1] && b[at + 2] == d[2] && b[at + 3] == d[3];
    assert v / 65536 == v / 256 / 256 && v / 16777216 == v / 65536 / 256;
  }

  /** Numbers read alike from a part and from the whole. */
  lemma GetInside(b: seq<Byte>, from: nat, part: seq<Byte>, at: nat)
    requires from + |part| <= |b| && b[from..from + |part|] == part
    ensures at + 4 <= |part| ==> Get32(b, from + at) == Get32(part, at)
    ensures at + 2 <= |part| ==> Get16(b, from + at) == Get16(part, at)
  {
    assert forall k | 0 <= k < |part| :: part[k] == b[from + k];
  }

  // ----- Checksum

  function Sum(b: seq<Byte>): nat {
    if b == [] then 0 else Sum(b[..|b| - 1]) + b[|b| - 1]
  }

  /** The device's 16-bit checksum, kept in a 32-bit register, is the sum taken modulo 2^16. */
  method CalculateChecksum(data: seq<Byte>) returns (c: nat)
    ensures c == Sum(data) % TWO16
  {
    hide Sum;
    SumEmpty();
    var checksum: nat := 0;
    for i := 0 to |data|
      invariant checksum == Sum(data[..i]) % TWO32
    {
      SumNext(data, i);
      checksum := (checksum + data[i]) % TWO32;
    }
    assert data[..|data|] == data;
    c := checksum % TWO16;
    NarrowSum(Sum(data));
  }

  lemma SumEmpty()
    ensures Sum([]) == 0
  {
  }

  lemma SumNext(data: seq<Byte>, i: nat)
    requires i < |data|
    ensures Sum(data[..i + 1]) == Sum(data[..i]) + data[i]
  {
    assert data[..i + 1][..i] == data[..i];
  }

  lemma NarrowSum(x: nat)
    ensures x % TWO32 % TWO16 == x % TWO16
  {
  }

  // ----- The file table and the data

  /** A file as it is packed; a font has no size in pixels. */
  datatype Asset = Asset(name: seq<Byte>, data: seq<Byte>, width: nat, height: nat)

  datatype Row = Row(name: seq<Byte>, offset: nat, size: nat, width: nat, height: nat)

  function Fixed(name: seq<Byte>): (r: seq<Byte>)
    ensures |r| == MAX_NAME
  {
    if |name| >= MAX_NAME then name[..MAX_NAME] else name + seq(MAX_NAME - |name|, _ => 0)
  }

  /** A name field's text: up to its first NUL. */
  function Text(field: seq<Byte>): (r: seq<Byte>)
    ensures |r| <= |field| && r == field[..|r|] && 0 !in r
    ensures |r| < |field| ==> field[|r|] == 0
  {
    if field == [] || field[0] == 0 then [] else [field[0]] + Text(field[1..])
  }

  lemma TextUnique(field: seq<Byte>, n: nat)
    requires n <= |field| && 0 !in field[..n] && (n < |field| ==> field[n] == 0)
    ensures Text(field) == field[..n]
  {
    var t := Text(field);
    assert forall k | 0 <= k < n :: field[..n][k] == field[k];
    assert forall k | 0 <= k < |t| :: t[k] == field[k] != 0;
    assert |t| == n;
  }

  /** A NUL-free name that fits its field is read back as it was written. */
  lemma NameRoundTrip(name: seq<Byte>)
    requires |name| <= MAX_NAME && 0 !in name
    ensures Text(Fixed(name)) == name
  {
    assert Fixed(name)[..|name|] == name;
    TextUnique(Fixed(name), |name|);
  }

  function EntryBytes(r: Row): (e: seq<Byte>)
    ensures |e| == ENTRY_BYTES
  {
    Fixed(r.name) + Le32(r.size) + Le32(r.offset) + Le16(r.width) + Le16(r.height)
  }

  function Merge(assets: seq<Asset>): seq<Byte> {
    if assets == [] then [] else Merge(assets[..|assets| - 1]) + MAGIC + assets[|assets| - 1].data
  }

  function RowOf(before: seq<Asset>, a: Asset): Row { Row(a.name, |Merge(before)|, |a.data|, a.width, a.height) }

  function Rows(assets: seq<Asset>): (r: seq<Row>)
    ensures |r| == |assets|
  {
    if assets == [] then []
    else var before := assets[..|assets| - 1]; Rows(before) + [RowOf(before, assets[|assets| - 1])]
  }

  function Table(rows: seq<Row>): (t: seq<Byte>)
    ensures |t| == ENTRY_BYTES * |rows|
  {
    if rows == [] then [] else Table(rows[..|rows| - 1]) + EntryBytes(rows[|rows| - 1])
  }

  function Combined(assets: seq<Asset>): seq<Byte> { Table(Rows(assets)) + Merge(assets) }

  function Image(assets: seq<Asset>): seq<Byte> {
    var c := Combined(assets);
    Le32(|assets|) + Le32(Sum(c) % TWO16) + Le32(|c|) + c
  }

  // ----- Where things lie

  lemma {:induction false} RowAt(assets: seq<Asset>, i: nat)
    requires i < |assets|
    ensures Rows(assets)[i] == RowOf(assets[..i], assets[i])
    decreases |assets|
  {
    if i < |assets| - 1 {
      var before := assets[..|assets| - 1];
      RowAt(before, i);
      assert before[..i] == assets[..i] && before[i] == assets[i];
    }
  }

  lemma {:induction false} EntryAt(rows: seq<Row>, i: nat)
    requires i < |rows|
    ensures ENTRY_BYTES * (i + 1) <= |Table(rows)|
    ensures Table(rows)[ENTRY_BYTES * i..ENTRY_BYTES * (i + 1)] == EntryBytes(rows[i])
    decreases |rows|
  {
    hide EntryBytes;
    var before := rows[..|rows| - 1];
    if i < |rows| - 1 {
      EntryAt(before, i);
      assert Table(rows)[ENTRY_BYTES * i..ENTRY_BYTES * (i + 1)] == Table(before)[ENTRY_BYTES * i..ENTRY_BYTES * (i + 1)];
    }
  }

  lemma PrefixSlices(a: seq<Byte>, b: seq<Byte>, c: seq<Byte>, at: nat, n: nat)
    requires at + 2 + n <= |a|
    ensures (a + b + c)[at..at + 2] == a[at..at + 2] && (a + b + c)[at + 2..at + 2 + n] == a[at + 2..at + 2 + n]
  {
  }

  lemma LastSlices(a: seq<Byte>, b: seq<Byte>, c: seq<Byte>)
    requires |b| == 2
    ensures (a + b + c)[|a|..|a| + 2] == b && (a + b + c)[|a| + 2..|a| + 2 + |c|] == c
  {
  }

  lemma {:induction false} DataAt(assets: seq<Asset>, i: nat)
    requires i < |assets|
    ensures var at := |Merge(assets[..i])|; var n := |assets[i].data|;
            && at + 2 + n <= |Merge(assets)|
            && Merge(assets)[at..at + 2] == MAGIC && Merge(assets)[at + 2..at + 2 + n] == assets[i].data
    decreases |assets|
  {
    var before := assets[..|assets| - 1];
    var m := Merge(assets);
    var at, n := |Merge(assets[..i])|, |assets[i].data|;
    if i < |assets| - 1 {
      DataAt(before, i);
      assert before[..i] == assets[..i] && before[i] == assets[i];
      PrefixSlices(Merge(before), MAGIC, assets[|assets| - 1].data, at, n);
      hide Merge;
    } else {
      assert assets[..i] == before;
      LastSlices(Merge(before), MAGIC, assets[i].data);
      hide Merge;
    }
  }
}
