/**
 What verification at build time and acceptance on the device guarantee: no file of the disk is missing, and what is
 loaded lies between the magic and the end of the data.
 */
module AssetComplete {
  import opened Wrappers
  import opened AssetFormat
  import opened AssetImage
  import opened AssetDevice

  // ----- A verified image has every file

  predicate Distinct(c: Bytes, n: nat, m: nat)
    requires m <= n && ENTRY_BYTES * n <= |c|
  {
    forall i, j | 0 <= i < j < m :: NameAt(c, i) != NameAt(c, j)
  }

  lemma NamesNext(c: Bytes, n: nat, m: nat)
    requires m < n && ENTRY_BYTES * n <= |c| && Distinct(c, n, m + 1)
    ensures Distinct(c, n, m) && NameAt(c, m) !in Names(c, n, m) && Names(c, n, m + 1) == Names(c, n, m) + {NameAt(c, m)}
  {
    hide NameAt;
  }

  lemma {:induction false} NamesCounted(c: Bytes, n: nat, m: nat)
    requires m <= n && ENTRY_BYTES * n <= |c| && Distinct(c, n, m)
    ensures |Names(c, n, m)| == m
    decreases m
  {
    hide Names, NameAt, Distinct;
    if m == 0 {
      NoNames(c, n);
    } else {
      NamesNext(c, n, m - 1);
      NamesCounted(c, n, m - 1);
    }
  }

  lemma NoNames(c: Bytes, n: nat)
    requires ENTRY_BYTES * n <= |c|
    ensures Names(c, n, 0) == {}
  {
  }

  lemma SubsetOfSameSize<T>(a: set<T>, b: set<T>)
    requires a <= b && |a| == |b|
    ensures a == b
  {
    if x :| x in b && x !in a {
      assert a <= b - {x};
      SubsetCardinality(a, b - {x});
    }
  }

  lemma {:induction false} SubsetCardinality<T>(a: set<T>, b: set<T>)
    requires a <= b
    ensures |a| <= |b|
    decreases a
  {
    if x :| x in a {
      SubsetCardinality(a - {x}, b - {x});
    }
  }

  /** The names of the files on disk. */
  function FileNames(d: Disk): set<Bytes> { d.gifs.Keys + {d.font.name} }

  /** Entries that are verified, as many as there are files, are the files: each of them once. */
  lemma EntriesComplete(c: Bytes, n: nat, d: Disk)
    requires ENTRY_BYTES * n <= |c| && EntriesVerified(c, n, d) && n == |FileNames(d)|
    ensures Names(c, n, n) == FileNames(d)
  {
    forall i | 0 <= i < n ensures NameAt(c, i) in FileNames(d) {
      assert EntryVerified(c, n, i, d);
    }
    hide NameAt, EntryVerified;
    assert Distinct(c, n, n);
    NamesCounted(c, n, n);
    SubsetOfSameSize(Names(c, n, n), FileNames(d));
  }

  /**
   An image verified for as many files as the disk has is complete: on a partition of less than 4 GiB that starts with
   it, the device loads every file of the disk as its own bytes, and finds nothing else.
   */
  lemma VerifiedIsComplete(image: Bytes, d: Disk, rest: Bytes, name: Bytes)
    requires Verified(image, |FileNames(d)|, d) && |FileNames(d)| <= MAX_FILES && |image + rest| < TWO32
    ensures
      var p := image + rest;
      && Accepted(p)
      && (name == d.font.name ==> LoadOutcome(p, name) == Loaded(d.font.data))
      && (name != d.font.name && name in d.gifs ==> LoadOutcome(p, name) == Loaded(d.gifs[name]))
      && (name != d.font.name && name !in d.gifs ==> LoadOutcome(p, name) == NotFound)
  {
    var p, n := image + rest, |FileNames(d)|;
    VerifiedReadable(image, n, d, rest);
    VerifiedLoads(image, n, d, rest, name);
    hide Verified, Accepted, LoadOutcome, NameAt, EntriesVerified;
    EntriesComplete(DataOf(p), n, d);
    assert name in FileNames(d) <==> exists i | 0 <= i < n :: NameAt(DataOf(p), i) == name;
  }

  // ----- What the device accepts and loads, without 32-bit arithmetic

  /** The exact end of entry `i`, counted from the start of the partition. */
  function EndOf(p: Bytes, i: nat): nat
    requires TableReadable(p) && i < FilesOf(p)
  {
    12 + 44 * Get32(p, 0) + OffsetAt(DataOf(p), i) + 2 + SizeAt(DataOf(p), i)
  }

  lemma AddsExactly(a: nat, b: nat)
    requires a + b < TWO32
    ensures Add32(a, b) == a + b
  {
  }

  lemma InBoundsExactly(p: Bytes, i: nat)
    requires TableReadable(p) && i < FilesOf(p) && EndOf(p, i) < TWO32
    ensures InBounds(p, i) <==> EndOf(p, i) <= 12 + Get32(p, 8)
    ensures StartOf(p, i) == EndOf(p, i) - 2 - SizeAt(DataOf(p), i)
  {
    hide OffsetAt, SizeAt, Get32, Add32;
    var size := SizeAt(DataOf(p), i);
    var start := EndOf(p, i) - 2 - size;
    AddsExactly(HEADER_BYTES + ENTRY_BYTES * FilesOf(p), OffsetAt(DataOf(p), i));
    AddsExactly(start, 2);
    AddsExactly(start + 2, size);
  }

  /**
   A partition in which no entry's end wraps is accepted if and only if it has a header, at most 13 files, a table inside
   the declared length, every entry inside it too, and the declared checksum.
   */
  lemma AcceptedExactly(p: Bytes)
    requires |p| < TWO32 && (TableReadable(p) ==> forall i | 0 <= i < FilesOf(p) :: EndOf(p, i) < TWO32)
    ensures Accepted(p) <==>
              && 12 <= |p| && 12 + Get32(p, 8) <= |p| && Get32(p, 0) <= 13 && 44 * Get32(p, 0) <= Get32(p, 8)
              && TableReadable(p) && (forall i: nat | i < Get32(p, 0) :: EndOf(p, i) <= 12 + Get32(p, 8))
              && Sum(p[12..12 + Get32(p, 8)]) % 65536 == Get32(p, 4) % 65536
  {
    if TableReadable(p) {
      forall i | 0 <= i < FilesOf(p) ensures InBounds(p, i) <==> EndOf(p, i) <= 12 + Get32(p, 8) {
        InBoundsExactly(p, i);
      }
      hide Get32, Sum, EndOf, InBounds;
    }
  }

  /**
   An entry of an accepted partition whose end does not wrap is loaded if and only if two Z stand before its data, and
   then as its own bytes; without them it is refused for the missing magic.
   */
  lemma LoadedExactly(p: Bytes, i: nat)
    requires Accepted(p) && i < FilesOf(p) && EndOf(p, i) < TWO32
    ensures
      var end, size := EndOf(p, i), SizeAt(DataOf(p), i);
      && size + 2 <= end <= |p|
      && LoadEntry(p, i) == (if p[end - size - 2] == 0x5a && p[end - size - 1] == 0x5a then Loaded(p[end - size..end])
                             else MagicMissing)
  {
    InBoundsExactly(p, i);
    var end, size := EndOf(p, i), SizeAt(DataOf(p), i);
    hide Get32, SizeAt, OffsetAt, Sum;
    var start := StartOf(p, i);
    hide StartOf, InBounds, EndOf;
    assert p[start..start + 2] == [p[start], p[start + 1]];
  }

  /** The font is loaded only from an entry without a size in pixels and with data, and then like any entry. */
  lemma FontExactly(p: Bytes, i: nat)
    requires Accepted(p) && FirstNamed(p, FONT_NAME, 0) == Some(i)
    ensures
      var c := DataOf(p);
      FontOutcome(p) == if Get16(c, 44 * i + 40) != 0 || Get16(c, 44 * i + 42) != 0 || Get32(c, 44 * i + 32) == 0
                        then OutOfBounds else LoadEntry(p, i)
  {
    hide Get32, Get16, LoadEntry, InBounds, FirstNamed;
  }
}
