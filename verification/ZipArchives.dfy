/**
 ZIP archives as PKWARE APPNOTE sections 4.3.12 and 4.3.14 to 4.3.16 lay them out, and the proof that the
 preflight reads back what such an archive says.
 */
module ZipArchives {
  import opened Outcomes
  import opened Octets
  import opened Zip

  // ---------------------------------------------------------------- little-endian fields

  datatype Part = Part(value: nat, width: nat)

  function Pow256(width: nat): nat {
    if width == 0 then 1 else 256 * Pow256(width - 1)
  }

  /** A number in `width` bytes, the least significant first. */
  function LittleEndian(n: nat, width: nat): (b: Bytes)
    ensures |b| == width
  {
    if width == 0 then [] else [n % 256] + LittleEndian(n / 256, width - 1)
  }

  function Written(parts: seq<Part>): Bytes {
    if parts == [] then []
    else Written(parts[..|parts| - 1]) + LittleEndian(parts[|parts| - 1].value, parts[|parts| - 1].width)
  }

  predicate Fit(parts: seq<Part>) {
    forall k :: 0 <= k < |parts| ==> parts[k].value < Pow256(parts[k].width)
  }

  /** Where the k-th part begins. */
  function Offset(parts: seq<Part>, k: nat): nat
    requires k <= |parts|
  {
    if k == 0 then 0 else Offset(parts, k - 1) + parts[k - 1].width
  }

  lemma {:induction false} FieldOfLittleEndian(before: Bytes, n: nat, width: nat, after: Bytes)
    requires n < Pow256(width)
    ensures Field(before + LittleEndian(n, width) + after, |before|, width) == n
    decreases width
  {
    if width > 0 {
      var s := before + LittleEndian(n, width) + after;
      var next := before + [n % 256];
      assert s == next + LittleEndian(n / 256, width - 1) + after;
      FieldOfLittleEndian(next, n / 256, width - 1, after);
      assert s[|before|] == n % 256;
    }
  }

  lemma {:induction false} WrittenLength(parts: seq<Part>, k: nat)
    requires k <= |parts|
    ensures |Written(parts[..k])| == Offset(parts, k)
  {
    if k > 0 {
      WrittenLength(parts, k - 1);
      assert parts[..k][..k - 1] == parts[..k - 1];
    }
  }

  lemma {:induction false} WrittenPrefix(parts: seq<Part>, k: nat)
    requires k <= |parts|
    ensures Written(parts[..k]) <= Written(parts)
    decreases |parts|
  {
    if k < |parts| {
      var front := parts[..|parts| - 1];
      WrittenPrefix(front, k);
      assert front[..k] == parts[..k];
    } else {
      assert parts[..k] == parts;
    }
  }

  lemma WrittenAround(parts: seq<Part>, k: nat) returns (rest: Bytes)
    requires k < |parts|
    ensures Written(parts) == Written(parts[..k]) + LittleEndian(parts[k].value, parts[k].width) + rest
  {
    hide LittleEndian;
    WrittenPrefix(parts, k + 1);
    assert parts[..k + 1][..k] == parts[..k];
    rest := Written(parts)[|Written(parts[..k + 1])|..];
  }

  /** Reading the k-th part gives the value written there. */
  lemma FieldOfWritten(before: Bytes, parts: seq<Part>, k: nat, after: Bytes)
    requires Fit(parts) && k < |parts|
    ensures |before| + Offset(parts, k) + parts[k].width <= |before + Written(parts) + after|
    ensures Field(before + Written(parts) + after, |before| + Offset(parts, k), parts[k].width) == parts[k].value
  {
    hide Written, Field, LittleEndian, Offset;
    WrittenLength(parts, k);
    var rest := WrittenAround(parts, k);
    var front, mine := Written(parts[..k]), LittleEndian(parts[k].value, parts[k].width);
    assert before + Written(parts) + after == (before + front) + mine + (rest + after);
    FieldOfLittleEndian(before + front, parts[k].value, parts[k].width, rest + after);
  }

  // ---------------------------------------------------------------- end records

  /** The end of central directory record, section 4.3.16. */
  datatype End = End(
    disk: nat, directoryDisk: nat, diskEntries: nat, entries: nat, size: nat, offset: nat, comment: Bytes)

  function EndParts(e: End): seq<Part> {
    [Part(e.disk, 2), Part(e.directoryDisk, 2), Part(e.diskEntries, 2), Part(e.entries, 2), Part(e.size, 4),
     Part(e.offset, 4), Part(|e.comment|, 2)]
  }

  function EndBytes(e: End): Bytes {
    [0x50, 0x4B, 0x05, 0x06] + Written(EndParts(e)) + e.comment
  }

  /** Every value has room in its field. */
  predicate IsEnd(e: End) {
    && e.disk <= 0xFFFF && e.directoryDisk <= 0xFFFF && e.diskEntries <= 0xFFFF && e.entries <= 0xFFFF
    && e.size <= 0xFFFF_FFFF && e.offset <= 0xFFFF_FFFF && |e.comment| <= 0xFFFF
  }

  lemma Powers()
    ensures Pow256(2) == 0x1_0000 && Pow256(4) == 0x1_0000_0000 && Pow256(8) == 0x1_0000_0000_0000_0000
  {
    assert Pow256(1) == 256;
    assert Pow256(3) == 0x100_0000;
    assert Pow256(5) == 0x100_0000_0000 && Pow256(6) == 0x1_0000_0000_0000 && Pow256(7) == 0x100_0000_0000_0000;
  }

  lemma EndPartsFit(e: End)
    requires IsEnd(e)
    ensures Fit(EndParts(e)) && |Written(EndParts(e))| == 18 && |EndBytes(e)| == 22 + |e.comment|
    ensures var p := EndParts(e);
            && Offset(p, 0) == 0 && Offset(p, 1) == 2 && Offset(p, 2) == 4 && Offset(p, 3) == 6 && Offset(p, 4) == 8
            && Offset(p, 5) == 12 && Offset(p, 6) == 16
  {
    hide Written, Pow256;
    Powers();
    var p := EndParts(e);
    assert Offset(p, 1) == 2 && Offset(p, 2) == 4 && Offset(p, 3) == 6;
    assert Offset(p, 4) == 8 && Offset(p, 5) == 12 && Offset(p, 6) == 16;
    WrittenLength(p, 7);
    assert p[..7] == p;
  }

  /** The fields of an end record behind `before`, read back. */
  lemma EndFields(before: Bytes, e: End)
    requires IsEnd(e)
    ensures var file, end := before + EndBytes(e), |before|;
            && |file| == end + 22 + |e.comment|
            && Field(file, end + 4, 2) == e.disk && Field(file, end + 6, 2) == e.directoryDisk
            && Field(file, end + 8, 2) == e.diskEntries && Field(file, end + 10, 2) == e.entries
            && Field(file, end + 12, 4) == e.size && Field(file, end + 16, 4) == e.offset
            && Field(file, end + 20, 2) == |e.comment|
  {
    var file, p := before + EndBytes(e), EndParts(e);
    var front := before + [0x50, 0x4B, 0x05, 0x06];
    assert file == front + Written(p) + e.comment;
    hide Field, Written, Fit, Offset, EndBytes;
    EndPartsFit(e);
    FieldOfWritten(front, p, 0, e.comment);
    FieldOfWritten(front, p, 1, e.comment);
    FieldOfWritten(front, p, 2, e.comment);
    FieldOfWritten(front, p, 3, e.comment);
    FieldOfWritten(front, p, 4, e.comment);
    FieldOfWritten(front, p, 5, e.comment);
    FieldOfWritten(front, p, 6, e.comment);
  }

  /** The bytes in front of an end record are, or might be taken for, a ZIP64 locator. */
  predicate LooksLocated(before: Bytes) {
    |before| >= 20 && before[|before| - 20..|before| - 16] == [0x50, 0x4B, 0x06, 0x07]
  }

  lemma LocatorIsLookedFor(before: Bytes, after: Bytes)
    ensures HasLocator(before + after, |before|) <==> LooksLocated(before)
  {
    var file := before + after;
    if |before| >= 20 { assert file[|before| - 20..|before| - 16] == before[|before| - 20..|before| - 16]; }
  }

  /** What an end record without a locator says, or why it is refused: every case. */
  function Told(before: Bytes, e: End): Result<Metadata> {
    if e.disk != 0 || e.directoryDisk != 0 then Err(ValueError)
    else if e.diskEntries == 0xFFFF || e.entries == 0xFFFF || e.size == 0xFFFF_FFFF || e.offset == 0xFFFF_FFFF
    then Err(ValueError)
    else if e.diskEntries != e.entries then Err(ValueError)
    else if e.offset + e.size > |before| then Err(ValueError)
    else Ok(Metadata(e.entries, e.size, e.offset, |before| - e.size))
  }

  lemma DirectoryOfEnd(before: Bytes, e: End)
    requires IsEnd(e) && !LooksLocated(before)
    ensures |before| + EOCD_SIZE <= |before + EndBytes(e)|
    ensures Directory(before + EndBytes(e), |before|) == Told(before, e)
  {
    hide Field, EndBytes, LooksLocated, HasLocator;
    EndFields(before, e);
    LocatorIsLookedFor(before, EndBytes(e));
  }

  // ---------------------------------------------------------------- ZIP64

  /** The ZIP64 end of central directory record and its locator, sections 4.3.14 and 4.3.15. */
  datatype End64 = End64(
    recordSize: nat, madeBy: nat, needed: nat, disk: nat, directoryDisk: nat, diskEntries: nat, entries: nat, size: nat,
    offset: nat, locatorDisk: nat, recordOffset: nat, disks: nat)

  function RecordParts(z: End64): seq<Part> {
    [Part(z.recordSize, 8), Part(z.madeBy, 2), Part(z.needed, 2), Part(z.disk, 4), Part(z.directoryDisk, 4),
     Part(z.diskEntries, 8), Part(z.entries, 8), Part(z.size, 8), Part(z.offset, 8)]
  }

  function LocatorParts(z: End64): seq<Part> {
    [Part(z.locatorDisk, 4), Part(z.recordOffset, 8), Part(z.disks, 4)]
  }

  function Record64(z: End64): Bytes {
    [0x50, 0x4B, 0x06, 0x06] + Written(RecordParts(z))
  }

  function Locator64(z: End64): Bytes {
    [0x50, 0x4B, 0x06, 0x07] + Written(LocatorParts(z))
  }

  predicate IsEnd64(z: End64) {
    Fit(RecordParts(z)) && Fit(LocatorParts(z))
  }

  lemma RecordOffsets(z: End64)
    ensures |Record64(z)| == 56 && |Locator64(z)| == 20
    ensures var p := RecordParts(z);
            && Offset(p, 0) == 0 && Offset(p, 3) == 12 && Offset(p, 4) == 16 && Offset(p, 5) == 20 && Offset(p, 6) == 28
            && Offset(p, 7) == 36 && Offset(p, 8) == 44
    ensures var p := LocatorParts(z); Offset(p, 0) == 0 && Offset(p, 1) == 4 && Offset(p, 2) == 12
  {
    hide Written;
    var p, q := RecordParts(z), LocatorParts(z);
    assert Offset(p, 1) == 8 && Offset(p, 2) == 10 && Offset(p, 3) == 12;
    assert Offset(p, 4) == 16 && Offset(p, 5) == 20 && Offset(p, 6) == 28;
    assert Offset(p, 7) == 36 && Offset(p, 8) == 44 && Offset(p, 9) == 52;
    assert Offset(q, 1) == 4 && Offset(q, 2) == 12 && Offset(q, 3) == 16;
    WrittenLength(p, 9);
    WrittenLength(q, 3);
    assert p[..9] == p && q[..3] == q;
  }

  lemma RecordFields(before: Bytes, z: End64, after: Bytes)
    requires IsEnd64(z)
    ensures var file, at := before + Record64(z) + after, |before|;
            && |file| == at + 56 + |after| && SignatureAt(file, at, EOCD64_SIGNATURE)
            && Field(file, at + 4, 8) == z.recordSize && Field(file, at + 16, 4) == z.disk
            && Field(file, at + 20, 4) == z.directoryDisk && Field(file, at + 24, 8) == z.diskEntries
            && Field(file, at + 32, 8) == z.entries && Field(file, at + 40, 8) == z.size
            && Field(file, at + 48, 8) == z.offset
  {
    var file, p := before + Record64(z) + after, RecordParts(z);
    var front := before + [0x50, 0x4B, 0x06, 0x06];
    assert file == front + Written(p) + after;
    assert file[|before|..|before| + 4] == [0x50, 0x4B, 0x06, 0x06];
    hide Field, Written, Fit, Offset, Record64;
    RecordOffsets(z);
    FieldOfWritten(front, p, 0, after);
    FieldOfWritten(front, p, 3, after);
    FieldOfWritten(front, p, 4, after);
    FieldOfWritten(front, p, 5, after);
    FieldOfWritten(front, p, 6, after);
    FieldOfWritten(front, p, 7, after);
    FieldOfWritten(front, p, 8, after);
  }

  lemma LocatorFields(before: Bytes, z: End64, after: Bytes)
    requires IsEnd64(z)
    ensures var file, at := before + Locator64(z) + after, |before|;
            && |file| == at + 20 + |after| && SignatureAt(file, at, LOCATOR_SIGNATURE)
            && Field(file, at + 4, 4) == z.locatorDisk && Field(file, at + 8, 8) == z.recordOffset
            && Field(file, at + 16, 4) == z.disks
  {
    var file, p := before + Locator64(z) + after, LocatorParts(z);
    var front := before + [0x50, 0x4B, 0x06, 0x07];
    assert file == front + Written(p) + after;
    assert file[|before|..|before| + 4] == [0x50, 0x4B, 0x06, 0x07];
    hide Field, Written, Fit, Offset, Locator64;
    RecordOffsets(z);
    FieldOfWritten(front, p, 0, after);
    FieldOfWritten(front, p, 1, after);
    FieldOfWritten(front, p, 2, after);
  }

  /** The standard end record agrees with the ZIP64 one, field by field, unless it leaves the field to it. */
  predicate EndsAgree(e: End, z: End64) {
    && (e.diskEntries == 0xFFFF || e.diskEntries == z.diskEntries) && (e.entries == 0xFFFF || e.entries == z.entries)
    && (e.size == 0xFFFF_FFFF || e.size == z.size) && (e.offset == 0xFFFF_FFFF || e.offset == z.offset)
  }

  /** What a ZIP64 record says, or why it is refused: every case. */
  function Told64(before: Bytes, z: End64, e: End): Result<Metadata> {
    if e.disk != 0 || e.directoryDisk != 0 then Err(ValueError)
    else if z.locatorDisk != 0 || z.disks != 1 then Err(ValueError)
    else if z.recordSize != 44 || z.disk != 0 || z.directoryDisk != 0 || z.diskEntries != z.entries then Err(ValueError)
    else if z.recordOffset > |before| || !EndsAgree(e, z) then Err(ValueError)
    else if z.offset + z.size > z.recordOffset then Err(ValueError)
    else Ok(Metadata(z.entries, z.size, z.offset, |before| - z.size))
  }

  lemma DirectoryOfEnd64(before: Bytes, z: End64, e: End)
    requires IsEnd64(z) && IsEnd(e)
    ensures var front := before + Record64(z) + Locator64(z);
            && |front| + EOCD_SIZE <= |front + EndBytes(e)|
            && Directory(front + EndBytes(e), |front|) == Told64(before, z, e)
  {
    hide Field, EndBytes, Record64, Locator64, IsEnd64, IsEnd, SignatureAt;
    RecordOffsets(z);
    var end, record, locator := EndBytes(e), Record64(z), Locator64(z);
    var front := before + record + locator;
    EndFields(front, e);
    RecordFields(before, z, locator + end);
    LocatorFields(before + record, z, end);
    assert front + end == before + record + (locator + end) == (before + record) + locator + end;
  }

  // ---------------------------------------------------------------- whole archives

  /** The end record that begins behind `before` is the unambiguous one of the file. */
  ghost predicate IsTheEnd(before: Bytes, e: End) {
    var file := before + EndBytes(e);
    Scanned(file) <= |before| && Unambiguous(file[Scanned(file)..], |before| - Scanned(file))
  }

  lemma EndIsScanned(before: Bytes, e: End)
    requires IsEnd(e)
    ensures Scanned(before + EndBytes(e)) <= |before|
  {
    EndPartsFit(e);
  }

  lemma TheEndIsRead(before: Bytes, e: End)
    requires IsEnd(e) && IsTheEnd(before, e)
    ensures |before| + EOCD_SIZE <= |before + EndBytes(e)|
    ensures MetadataOf(before + EndBytes(e)) == Directory(before + EndBytes(e), |before|)
  {
    hide Directory, EndBytes;
    EndFields(before, e);
  }

  /** It is if the signature of an end record stands nowhere else in the file. */
  lemma OnlySignatureIsTheEnd(before: Bytes, e: End)
    requires IsEnd(e) && forall j: nat :: IsCandidate(before + EndBytes(e), j) ==> j == |before|
    ensures IsTheEnd(before, e)
  {
    EndIsScanned(before, e);
    EndFields(before, e);
    var file := before + EndBytes(e);
    var start := Scanned(file);
    var tail, i := file[start..], |before| - start;
    forall j: nat | IsCandidate(tail, j) ensures j == i {
      assert file[start + j..start + j + 4] == tail[j..j + 4];
      assert IsCandidate(file, start + j);
    }
    assert tail[i..i + 4] == file[|before|..|before| + 4] == [0x50, 0x4B, 0x05, 0x06];
    FieldOfSuffix(file, start, |before| + 20, 2);
  }

  lemma {:induction false} FieldOfSuffix(s: Bytes, start: nat, i: nat, width: nat)
    requires start <= i && i + width <= |s|
    ensures Field(s[start..], i - start, width) == Field(s, i, width)
    decreases width
  {
    if width > 0 { FieldOfSuffix(s, start, i + 1, width - 1); }
  }

  /** An archive: local entries, the directory, and an end record that describes it. */
  function Archive(entries: Bytes, directory: Bytes, count: nat, comment: Bytes): Bytes {
    entries + directory + EndBytes(End(0, 0, count, count, |directory|, |entries|, comment))
  }

  /** The preflight finds the directory of an archive where it was written, with the number of entries written. */
  lemma ArchiveIsRead(entries: Bytes, directory: Bytes, count: nat, comment: Bytes)
    requires count < 0xFFFF && |directory| < 0xFFFF_FFFF && |entries| < 0xFFFF_FFFF && |comment| <= 0xFFFF
    requires !LooksLocated(entries + directory)
    requires IsTheEnd(entries + directory, End(0, 0, count, count, |directory|, |entries|, comment))
    ensures MetadataOf(Archive(entries, directory, count, comment)) ==
            Ok(Metadata(count, |directory|, |entries|, |entries|))
  {
    hide Directory, EndBytes, MetadataOf, LooksLocated, IsTheEnd;
    var e := End(0, 0, count, count, |directory|, |entries|, comment);
    TheEndIsRead(entries + directory, e);
    DirectoryOfEnd(entries + directory, e);
  }

  /** The same archive with a ZIP64 record: the standard end record may leave any field to it. */
  function Archive64(entries: Bytes, directory: Bytes, count: nat, e: End): Bytes {
    var z := Honest64(entries, directory, count);
    entries + directory + Record64(z) + Locator64(z) + EndBytes(e)
  }

  function Honest64(entries: Bytes, directory: Bytes, count: nat): End64 {
    End64(44, 45, 45, 0, 0, count, count, |directory|, |entries|, 0, |entries| + |directory|, 1)
  }

  lemma Archive64IsRead(entries: Bytes, directory: Bytes, count: nat, e: End)
    requires IsEnd(e) && e.disk == 0 && e.directoryDisk == 0 && EndsAgree(e, Honest64(entries, directory, count))
    requires count < 0x1_0000_0000_0000_0000 && |entries| + |directory| < 0x1_0000_0000_0000_0000
    requires var z := Honest64(entries, directory, count); IsTheEnd(entries + directory + Record64(z) + Locator64(z), e)
    ensures MetadataOf(Archive64(entries, directory, count, e)) ==
            Ok(Metadata(count, |directory|, |entries|, |entries|))
  {
    hide Directory, EndBytes, MetadataOf, Record64, Locator64, IsTheEnd, Pow256, EndsAgree;
    var z := Honest64(entries, directory, count);
    Powers();
    TheEndIsRead(entries + directory + Record64(z) + Locator64(z), e);
    DirectoryOfEnd64(entries + directory, z, e);
  }

  // ---------------------------------------------------------------- directory records

  /** A central directory header, section 4.3.12: 24 and 12 fixed bytes around the lengths of three variable parts. */
  function Header(fixed: Bytes, name: Bytes, extra: Bytes, comment: Bytes, more: Bytes): Bytes {
    [0x50, 0x4B, 0x01, 0x02] + fixed + Written([Part(|name|, 2), Part(|extra|, 2), Part(|comment|, 2)]) + more
    + (name + extra + comment)
  }

  lemma HeaderIsRecord(fixed: Bytes, name: Bytes, extra: Bytes, comment: Bytes, more: Bytes)
    requires |fixed| == 24 && |more| == 12 && |name| <= 0xFFFF && |extra| <= 0xFFFF && |comment| <= 0xFFFF
    ensures IsRecord(Header(fixed, name, extra, comment, more))
  {
    var p := [Part(|name|, 2), Part(|extra|, 2), Part(|comment|, 2)];
    var front, tail := [0x50, 0x4B, 0x01, 0x02] + fixed, more + (name + extra + comment);
    var r := Header(fixed, name, extra, comment, more);
    assert r == front + Written(p) + tail;
    assert r[0..4] == [0x50, 0x4B, 0x01, 0x02];
    hide Field, Written;
    Powers();
    assert Offset(p, 1) == 2 && Offset(p, 2) == 4 && Offset(p, 3) == 6;
    WrittenLength(p, 3);
    assert p[..3] == p;
    FieldOfWritten(front, p, 0, tail);
    FieldOfWritten(front, p, 1, tail);
    FieldOfWritten(front, p, 2, tail);
  }

  /** The count over an archive's own directory is the number of its headers, or stops right behind the limit. */
  lemma ArchiveIsCounted(entries: Bytes, headers: seq<Bytes>, comment: Bytes, stopAfter: nat)
    requires AreRecords(headers)
    ensures var file := Archive(entries, Concat(headers), |headers|, comment);
            && |entries| + |Concat(headers)| <= |file|
            && Count(file[|entries|..|entries| + |Concat(headers)|], 0, stopAfter) ==
               if |headers| <= stopAfter then Ok((|headers|, false)) else Ok((stopAfter + 1, true))
  {
    hide EndBytes, Concat, Count;
    CountOfRecords(headers, 0, stopAfter);
    var file := Archive(entries, Concat(headers), |headers|, comment);
    assert file[|entries|..|entries| + |Concat(headers)|] == Concat(headers);
  }
}
