/**
 The bounded ZIP preflight: which end record is selected, where the central directory must lie, and
 how many entries it holds (PKWARE APPNOTE sections 4.3.12 and 4.3.16).
 */
module Zip {
  import opened Outcomes
  import opened Octets

  const EOCD_SIGNATURE: Bytes := [0x50, 0x4B, 5, 6]
  const LOCATOR_SIGNATURE: Bytes := [0x50, 0x4B, 6, 7]
  const EOCD64_SIGNATURE: Bytes := [0x50, 0x4B, 6, 6]
  const HEADER_SIGNATURE: Bytes := [0x50, 0x4B, 1, 2]
  const EOCD_SIZE := 22
  const LOCATOR_SIZE := 20
  const EOCD64_SIZE := 56
  const HEADER_SIZE := 46
  const MAX_COMMENT := 65535

  /** A little-endian field of `width` bytes at `i`. */
  function Field(s: Bytes, i: nat, width: nat): nat
    requires i + width <= |s|
    decreases width
  {
    if width == 0 then 0 else s[i] + 256 * Field(s, i + 1, width - 1)
  }

  predicate SignatureAt(s: Bytes, i: nat, signature: Bytes) {
    i + |signature| <= |s| && s[i..i + |signature|] == signature
  }

  // ---------------------------------------------------------------- selecting the end record

  predicate IsCandidate(tail: Bytes, i: nat) {
    SignatureAt(tail, i, EOCD_SIGNATURE)
  }

  /** The end record at `i`, with its comment, reaches exactly the end of the file. */
  predicate ReachesEnd(tail: Bytes, i: nat) {
    IsCandidate(tail, i) && i + EOCD_SIZE <= |tail| && i + EOCD_SIZE + Field(tail, i + 20, 2) == |tail|
  }

  /** The only record that reaches the end of the file, with no signature behind it. */
  ghost predicate Unambiguous(tail: Bytes, i: nat) {
    && ReachesEnd(tail, i)
    && (forall j: nat :: ReachesEnd(tail, j) ==> j == i)
    && (forall j: nat :: IsCandidate(tail, j) ==> j <= i)
  }

  /** `tail.find(signature, from)`, or the length of the tail when there is none. */
  method FindCandidate(tail: Bytes, from: nat) returns (at: nat)
    ensures at <= |tail| || at == from
    ensures at < |tail| ==> at >= from && IsCandidate(tail, at)
    ensures forall j: nat :: from <= j < at ==> !IsCandidate(tail, j)
  {
    at := from;
    while at < |tail| && !IsCandidate(tail, at)
      invariant from <= at
      invariant at <= |tail| || at == from
      invariant forall j: nat :: from <= j < at ==> !IsCandidate(tail, j)
    {
      at := at + 1;
    }
  }

  /** `tail.rfind(signature)`, negative when there is none. */
  method FindLastCandidate(tail: Bytes) returns (at: int)
    ensures at < 0 ==> forall j: nat :: !IsCandidate(tail, j)
    ensures at >= 0 ==> IsCandidate(tail, at) && forall j: nat :: IsCandidate(tail, j) ==> j <= at
  {
    at := |tail|;
    while at >= 0 && !IsCandidate(tail, at)
      invariant -1 <= at
      invariant forall j: nat :: j > at ==> !IsCandidate(tail, j)
      decreases at + 1
    {
      at := at - 1;
    }
  }

  /** An accepted end record is unambiguous, and an unambiguous end record is accepted. */
  method SelectEndRecord(tail: Bytes) returns (r: Result<nat>)
    ensures r.Ok? ==> Unambiguous(tail, r.value)
    ensures r.Err? ==> r.error == ValueError && forall i: nat :: !Unambiguous(tail, i)
  {
    hide Field, SignatureAt;
    var index := FindLastCandidate(tail);
    if index < 0 || index + EOCD_SIZE > |tail| { return Err(ValueError); }
    if index + EOCD_SIZE + Field(tail, index + 20, 2) != |tail| { return Err(ValueError); }
    var earlier := FindCandidate(tail, 0);
    while earlier < index
      invariant earlier <= |tail|
      invariant earlier < |tail| ==> IsCandidate(tail, earlier)
      invariant forall j: nat :: j < earlier ==> !ReachesEnd(tail, j) || j >= index
      decreases index - earlier
    {
      if earlier + EOCD_SIZE <= |tail| && earlier + EOCD_SIZE + Field(tail, earlier + 20, 2) == |tail| {
        assert ReachesEnd(tail, earlier) && ReachesEnd(tail, index);
        return Err(ValueError);
      }
      earlier := FindCandidate(tail, earlier + 1);
    }
    return Ok(index);
  }

  // ---------------------------------------------------------------- locating the directory

  datatype Metadata = Metadata(entries: nat, size: nat, offset: nat, physicalOffset: nat)

  predicate HasLocator(file: Bytes, end: nat) {
    LOCATOR_SIZE <= end <= |file| && SignatureAt(file, end - LOCATOR_SIZE, LOCATOR_SIGNATURE)
  }

  /** The standard field is absent (its sentinel) or equals the extended one. */
  predicate Agrees(standard: nat, sentinel: nat, extended: nat) {
    standard == sentinel || standard == extended
  }

  /** The directory described by the ZIP64 record in front of the locator in front of `end`. */
  function Directory64(file: Bytes, end: nat): Result<Metadata>
    requires end + EOCD_SIZE <= |file| && HasLocator(file, end)
  {
    var locator := end - LOCATOR_SIZE;
    if Field(file, locator + 4, 4) != 0 || Field(file, locator + 16, 4) != 1 then Err(ValueError)
    else if locator < EOCD64_SIZE then Err(ValueError)
    else
      var record := locator - EOCD64_SIZE;
      var reported := Field(file, locator + 8, 8);
      var entries, size, offset :=
        Field(file, record + 32, 8), Field(file, record + 40, 8), Field(file, record + 48, 8);
      if !SignatureAt(file, record, EOCD64_SIGNATURE) || Field(file, record + 4, 8) != 44
         || Field(file, record + 16, 4) != 0 || Field(file, record + 20, 4) != 0
         || Field(file, record + 24, 8) != entries
      then Err(ValueError)
      else if reported > record then Err(ValueError)
      else if !(&& Agrees(Field(file, end + 8, 2), 0xFFFF, entries) && Agrees(Field(file, end + 10, 2), 0xFFFF, entries)
                && Agrees(Field(file, end + 12, 4), 0xFFFFFFFF, size)
                && Agrees(Field(file, end + 16, 4), 0xFFFFFFFF, offset))
      then Err(ValueError)
      else if offset + size > reported || size > record then Err(ValueError)
      else Ok(Metadata(entries, size, offset, record - size))
  }

  /** The directory described by the end record at `end` alone. */
  function Directory32(file: Bytes, end: nat): Result<Metadata>
    requires end + EOCD_SIZE <= |file|
  {
    var entries, size, offset := Field(file, end + 10, 2), Field(file, end + 12, 4), Field(file, end + 16, 4);
    if Field(file, end + 8, 2) == 0xFFFF || entries == 0xFFFF || size == 0xFFFFFFFF || offset == 0xFFFFFFFF
    then Err(ValueError)
    else if Field(file, end + 8, 2) != entries then Err(ValueError)
    else if offset + size > end then Err(ValueError)
    else Ok(Metadata(entries, size, offset, end - size))
  }

  function Directory(file: Bytes, end: nat): Result<Metadata>
    requires end + EOCD_SIZE <= |file|
  {
    if Field(file, end + 4, 2) != 0 || Field(file, end + 6, 2) != 0 then Err(ValueError)
    else if HasLocator(file, end) then Directory64(file, end)
    else Directory32(file, end)
  }

  /** An accepted directory ends exactly where its end records begin, at or behind its declared offset. */
  lemma DirectoryIsInFrontOfItsEnd(file: Bytes, end: nat)
    requires end + EOCD_SIZE <= |file| && Directory(file, end).Ok?
    ensures var m := Directory(file, end).value;
            && m.offset <= m.physicalOffset
            && m.physicalOffset + m.size == (if HasLocator(file, end) then end - LOCATOR_SIZE - EOCD64_SIZE else end)
  {
  }

  /** What the unambiguous end record of a file says about its directory. */
  ghost function MetadataOf(file: Bytes): Result<Metadata> {
    var tail := file[Scanned(file)..];
    if i: nat :| Unambiguous(tail, i) then Directory(file, Scanned(file) + i) else Err(ValueError)
  }

  /** `_zip_directory_metadata`. */
  method ReadMetadata(file: Bytes) returns (r: Result<Metadata>)
    ensures r == MetadataOf(file)
    ensures forall i: nat :: Unambiguous(file[Scanned(file)..], i) ==> r == Directory(file, Scanned(file) + i)
    ensures r.Ok? ==> exists i: nat ::
              && Unambiguous(file[Scanned(file)..], i)
              && r.value.offset <= r.value.physicalOffset <= r.value.physicalOffset + r.value.size <= Scanned(file) + i
  {
    hide Directory, Field, SignatureAt, IsCandidate;
    var start := Scanned(file);
    var selected := SelectEndRecord(file[start..]);
    if selected.Err? { return Err(selected.error); }
    r := Directory(file, start + selected.value);
    if r.Ok? { DirectoryIsInFrontOfItsEnd(file, start + selected.value); }
  }

  /** Where the scanned tail begins: far enough back for the longest comment. */
  function Scanned(file: Bytes): (start: nat)
    ensures start <= |file|
  {
    if |file| <= EOCD_SIZE + MAX_COMMENT then 0 else |file| - EOCD_SIZE - MAX_COMMENT
  }

  // ---------------------------------------------------------------- counting the entries

  /** One central-directory record: a header and the three variable parts it declares. */
  predicate IsRecord(r: Bytes) {
    |r| >= HEADER_SIZE && SignatureAt(r, 0, HEADER_SIGNATURE) && |r| == RecordSize(r)
  }

  function RecordSize(s: Bytes): (n: nat)
    requires |s| >= HEADER_SIZE
    ensures n >= HEADER_SIZE
  {
    HEADER_SIZE + (Field(s, 28, 2) + Field(s, 30, 2) + Field(s, 32, 2))
  }

  ghost predicate AreRecords(rs: seq<Bytes>) {
    forall i :: 0 <= i < |rs| ==> IsRecord(rs[i])
  }

  function Concat(rs: seq<Bytes>): Bytes {
    if rs == [] then [] else rs[0] + Concat(rs[1..])
  }

  /** The streaming count over the bytes of a directory. */
  function Count(dir: Bytes, count: nat, stopAfter: nat): Result<(nat, bool)>
    decreases |dir|
  {
    if dir == [] then Ok((count, false))
    else if |dir| < HEADER_SIZE || !SignatureAt(dir, 0, HEADER_SIGNATURE) || RecordSize(dir) > |dir|
    then Err(ValueError)
    else if count + 1 > stopAfter then Ok((count + 1, true))
    else Count(dir[RecordSize(dir)..], count + 1, stopAfter)
  }

  lemma FieldOfPrefix(s: Bytes, more: Bytes, i: nat, width: nat)
    requires i + width <= |s|
    ensures Field(s + more, i, width) == Field(s, i, width)
    decreases width
  {
    if width > 0 { FieldOfPrefix(s, more, i + 1, width - 1); }
  }

  lemma RecordInFront(r: Bytes, more: Bytes)
    requires |r| >= HEADER_SIZE
    ensures SignatureAt(r + more, 0, HEADER_SIGNATURE) == SignatureAt(r, 0, HEADER_SIGNATURE)
    ensures RecordSize(r + more) == RecordSize(r)
  {
    assert (r + more)[0..4] == r[0..4];
    FieldOfPrefix(r, more, 28, 2);
    FieldOfPrefix(r, more, 30, 2);
    FieldOfPrefix(r, more, 32, 2);
  }

  /** A directory of n records is counted exactly, or the count stops right behind the limit. */
  lemma {:induction false} CountOfRecords(rs: seq<Bytes>, count: nat, stopAfter: nat)
    requires AreRecords(rs) && count <= stopAfter
    ensures Count(Concat(rs), count, stopAfter) ==
            if count + |rs| <= stopAfter then Ok((count + |rs|, false)) else Ok((stopAfter + 1, true))
    decreases |rs|
  {
    hide Field, SignatureAt, RecordSize;
    if rs != [] {
      var dir := Concat(rs);
      RecordInFront(rs[0], Concat(rs[1..]));
      assert dir[RecordSize(dir)..] == Concat(rs[1..]);
      if count + 1 <= stopAfter { CountOfRecords(rs[1..], count + 1, stopAfter); }
    }
  }

  lemma FirstRecord(dir: Bytes)
    requires |dir| >= HEADER_SIZE && SignatureAt(dir, 0, HEADER_SIGNATURE) && RecordSize(dir) <= |dir|
    ensures IsRecord(dir[..RecordSize(dir)])
  {
    var r := dir[..RecordSize(dir)];
    assert dir == r + dir[RecordSize(dir)..];
    RecordInFront(r, dir[RecordSize(dir)..]);
  }

  /** Conversely, a returned count is the number of records the directory begins with, and of all if it did not stop. */
  lemma {:induction false} CountIsOfRecords(dir: Bytes, count: nat, stopAfter: nat) returns (rs: seq<Bytes>)
    requires count <= stopAfter && Count(dir, count, stopAfter).Ok?
    ensures AreRecords(rs)
    ensures var (n, stopped) := Count(dir, count, stopAfter).value;
            && n == count + |rs|
            && (if stopped then n == stopAfter + 1 && Concat(rs) <= dir else n <= stopAfter && Concat(rs) == dir)
    decreases |dir|
  {
    hide Field, SignatureAt, RecordSize;
    if dir == [] {
      rs := [];
    } else {
      var size := RecordSize(dir);
      FirstRecord(dir);
      if count + 1 > stopAfter {
        rs := [dir[..size]];
        assert rs[1..] == [] && Concat(rs) == dir[..size];
      } else {
        var rest := CountIsOfRecords(dir[size..], count + 1, stopAfter);
        rs := [dir[..size]] + rest;
        assert rs[1..] == rest && Concat(rs) == dir[..size] + Concat(rest);
        assert dir == dir[..size] + dir[size..];
      }
    }
  }

  /** `_count_zip_directory_entries`: reading from the file, never past the declared directory. */
  method CountEntries(file: Bytes, m: Metadata, stopAfter: nat) returns (r: Result<(nat, bool)>)
    ensures m.physicalOffset + m.size <= |file| ==>
            r == Count(file[m.physicalOffset..m.physicalOffset + m.size], 0, stopAfter)
  {
    hide Field, SignatureAt, RecordSize;
    ghost var inside := m.physicalOffset + m.size <= |file|;
    ghost var dir := if inside then file[m.physicalOffset..m.physicalOffset + m.size] else [];
    var position: nat, remaining: nat, count: nat := m.physicalOffset, m.size, 0;
    while remaining > 0
      invariant position + remaining == m.physicalOffset + m.size
      invariant inside ==> Count(dir, 0, stopAfter) == Count(file[position..position + remaining], count, stopAfter)
      decreases remaining
    {
      if remaining < HEADER_SIZE { return Err(ValueError); }
      if position + HEADER_SIZE > |file| { return Err(ValueError); }
      var header := file[position..position + HEADER_SIZE];
      ghost var rest := if inside then file[position + HEADER_SIZE..position + remaining] else [];
      assert inside ==> file[position..position + remaining] == header + rest;
      RecordInFront(header, rest);
      if !SignatureAt(header, 0, HEADER_SIGNATURE) { return Err(ValueError); }
      var size := RecordSize(header);
      if size > remaining { return Err(ValueError); }
      count := count + 1;
      if count > stopAfter { return Ok((count, true)); }
      assert inside ==> file[position..position + remaining][size..] == file[position + size..position + remaining];
      position, remaining := position + size, remaining - size;
    }
    return Ok((count, false));
  }
}
