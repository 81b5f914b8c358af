/**
 The hash-chained audit log: appending, the usage counters its triggers keep, AUTOINCREMENT
 numbering, deletion behind its back, and verification.
 */
module Audit {
  import opened Outcomes
  import opened Octets

  /** A JSON value. No event carries a fraction. */
  datatype Json = Null | Bool(bool) | Number(int) | Text(string) | Array(seq<Json>) | Object(map<string, Json>)

  /** The object an event is encoded as, and the object a stored text decodes to. */
  type Payload = map<string, Json>

  /** A SHA-256 digest in hexadecimal, idealised: there is a distinct value for every chained input. */
  datatype Digest = Genesis | Sha256(previous: Digest, text: string)

  const DIGEST_LENGTH := 64

  /** The hash, the canonical JSON encoder, its decoder and the UTF-8 size of a text. */
  datatype Codec = Codec(
    hash: (Digest, string) -> Digest, encode: Payload -> string, decode: string -> Option<Payload>, size: string -> nat)

  const MAX_BATCH_EVENTS := 10_000
  const MAX_EVENT_BYTES := 16 * 1024
  const MAX_BATCH_BYTES := 64 * 1024 * 1024

  /** Decoding inverts encoding. */
  ghost predicate Sound(c: Codec) {
    forall x :: c.decode(c.encode(x)) == Some(x)
  }

  /** No two chained inputs collide, and none hashes to the genesis value. */
  ghost predicate CollisionFree(c: Codec) {
    && (forall p, e, p', e' :: c.hash(p, e) == c.hash(p', e') ==> p == p' && e == e')
    && (forall p, e :: c.hash(p, e) != Genesis)
  }

  /** The assumption can be met: chaining the inputs themselves never collides. */
  lemma CollisionFreeHashExists(c: Codec)
    ensures CollisionFree(c.(hash := (p, e) => Sha256(p, e)))
  {
  }

  /** An `AuditLog` object: how it signs, its quotas, and whether it may write. */
  datatype Config = Config(sign: Option<Digest -> Bytes>, maxEvents: nat, maxBytes: nat, readOnly: bool)

  ghost predicate SignsEd25519(cfg: Config) {
    cfg.sign.Some? ==> forall h :: |cfg.sign.value(h)| == 64
  }

  datatype Row = Row(sequence: nat, event: string, previous: Digest, hash: Digest, signature: Option<Bytes>)
  datatype Usage = Usage(count: nat, bytes: nat)

  /** The rows in sequence order, the AUTOINCREMENT high-water mark and the usage row. */
  datatype Store = Store(rows: seq<Row>, last: nat, usage: Option<Usage>)

  const EMPTY := Store([], 0, Some(Usage(0, 0)))

  function TailSequence(rows: seq<Row>): nat {
    if rows == [] then 0 else rows[|rows| - 1].sequence
  }

  function TailHash(rows: seq<Row>): Digest {
    if rows == [] then Genesis else rows[|rows| - 1].hash
  }

  function RowBytes(c: Codec, row: Row): nat {
    c.size(row.event) + DIGEST_LENGTH + DIGEST_LENGTH + (if row.signature.Some? then |row.signature.value| else 0)
  }

  function TotalBytes(c: Codec, rows: seq<Row>): nat {
    if rows == [] then 0 else TotalBytes(c, rows[..|rows| - 1]) + RowBytes(c, rows[|rows| - 1])
  }

  // ---------------------------------------------------------------- inserting and deleting

  function Max(a: nat, b: nat): nat { if a < b then b else a }

  function Signature(cfg: Config, hash: Digest): Option<Bytes> {
    if cfg.sign.Some? then Some(cfg.sign.value(hash)) else None
  }

  predicate Stored(rows: seq<Row>, hash: Digest) {
    exists i :: 0 <= i < |rows| && rows[i].hash == hash
  }

  /** INSERT with its trigger; the UNIQUE constraint refuses a hash that is already stored. */
  function Insert(c: Codec, cfg: Config, st: Store, text: string, previous: Digest): Option<Store> {
    var hash := c.hash(previous, text);
    if Stored(st.rows, hash) then None
    else
      var sequence := Max(st.last, TailSequence(st.rows)) + 1;
      var row := Row(sequence, text, previous, hash, Signature(cfg, hash));
      var usage := if st.usage.None? then None
                   else Some(Usage(st.usage.value.count + 1, st.usage.value.bytes + RowBytes(c, row)));
      Some(Store(st.rows + [row], sequence, usage))
  }

  function InsertAll(c: Codec, cfg: Config, st: Store, texts: seq<string>, previous: Digest): Option<Store>
    decreases |texts|
  {
    if texts == [] then Some(st)
    else
      var next :- Insert(c, cfg, st, texts[0], previous);
      InsertAll(c, cfg, next, texts[1..], c.hash(previous, texts[0]))
  }

  function Minus(a: nat, b: nat): nat { if a < b then 0 else a - b }

  /** DELETE of the i-th row with its trigger. */
  function Delete(c: Codec, st: Store, i: nat): Store {
    if i >= |st.rows| then st
    else
      var usage := if st.usage.None? then None
                   else Some(Usage(Minus(st.usage.value.count, 1),
                                   Minus(st.usage.value.bytes, RowBytes(c, st.rows[i]))));
      st.(rows := st.rows[..i] + st.rows[i + 1..], usage := usage)
  }

  /** Another row has this hash. */
  predicate TakenElsewhere(rows: seq<Row>, i: nat, hash: Digest) {
    exists j :: 0 <= j < |rows| && j != i && rows[j].hash == hash
  }

  /** UPDATE of everything but the number of the i-th row, with its trigger; the UNIQUE constraint may refuse it. */
  function Edit(c: Codec, st: Store, i: nat, like: Row): Store {
    if i >= |st.rows| || TakenElsewhere(st.rows, i, like.hash) then st
    else
      var row := like.(sequence := st.rows[i].sequence);
      var usage := if st.usage.None? then None
                   else Some(st.usage.value.(
                     bytes := Minus(st.usage.value.bytes + RowBytes(c, row), RowBytes(c, st.rows[i]))));
      st.(rows := st.rows[i := row], usage := usage)
  }

  // ---------------------------------------------------------------- appending

  function Sizes(c: Codec, events: seq<Option<Payload>>): nat
    requires forall i :: 0 <= i < |events| ==> events[i].Some?
  {
    if events == [] then 0
    else Sizes(c, events[..|events| - 1]) + c.size(c.encode(events[|events| - 1].value))
  }

  /** Every event is valid metadata, and the batch is within the count and size limits. */
  predicate Prepared(c: Codec, events: seq<Option<Payload>>) {
    && |events| <= MAX_BATCH_EVENTS
    && (forall i :: 0 <= i < |events| ==> events[i].Some? && c.size(c.encode(events[i].value)) <= MAX_EVENT_BYTES)
    && Sizes(c, events) <= MAX_BATCH_BYTES
  }

  function Texts(c: Codec, events: seq<Option<Payload>>): seq<string>
    requires forall i :: 0 <= i < |events| ==> events[i].Some?
  {
    seq(|events|, i requires 0 <= i < |events| => c.encode(events[i].value))
  }

  /** The rows a batch is expected to become, behind a row with hash `previous` and number `sequence`. */
  function ChainRows(c: Codec, cfg: Config, texts: seq<string>, previous: Digest, sequence: nat): seq<Row> {
    if texts == [] then []
    else
      var hash := c.hash(previous, texts[0]);
      [Row(sequence + 1, texts[0], previous, hash, Signature(cfg, hash))] +
      ChainRows(c, cfg, texts[1..], hash, sequence + 1)
  }

  function AdditionalBytes(c: Codec, cfg: Config, texts: seq<string>): nat {
    if texts == [] then 0
    else c.size(texts[0]) + 128 + (if cfg.sign.Some? then 64 else 0) + AdditionalBytes(c, cfg, texts[1..])
  }

  function RowsAfter(rows: seq<Row>, sequence: nat): seq<Row> {
    if rows == [] then []
    else RowsAfter(rows[..|rows| - 1], sequence) +
         (if rows[|rows| - 1].sequence > sequence then [rows[|rows| - 1]] else [])
  }

  predicate WithinQuotas(cfg: Config, usage: Usage, events: nat, bytes: nat) {
    usage.count + events <= cfg.maxEvents && usage.bytes + bytes <= cfg.maxBytes
  }

  /** The transaction of `append_many`, for a batch that passed its checks. */
  function Commit(c: Codec, cfg: Config, st: Store, texts: seq<string>): Result<(Store, seq<Row>)> {
    var initial := TailSequence(st.rows);
    var bytes := AdditionalBytes(c, cfg, texts);
    if st.usage.None? || st.usage.value.count != initial then Err(IntegrityError)
    else if !WithinQuotas(cfg, st.usage.value, |texts|, bytes) then Err(IntegrityError)
    else
      var inserted := InsertAll(c, cfg, st, texts, TailHash(st.rows));
      var expected := ChainRows(c, cfg, texts, TailHash(st.rows), initial);
      if inserted.None? then Err(IntegrityError)
      else if RowsAfter(inserted.value.rows, initial) != expected then Err(IntegrityError)
      else if inserted.value.usage != Some(Usage(initial + |texts|, st.usage.value.bytes + bytes))
      then Err(IntegrityError)
      else Ok((inserted.value, expected))
  }

  /** `append_many`: the new store and the records it returns. */
  function Append(c: Codec, cfg: Config, st: Store, events: seq<Option<Payload>>): Result<(Store, seq<Row>)> {
    if cfg.readOnly then Err(IntegrityError)
    else if !Prepared(c, events) then Err(ValueError)
    else if events == [] then Ok((st, []))
    else Commit(c, cfg, st, Texts(c, events))
  }

  // ---------------------------------------------------------------- verifying

  /** A trusted key, as the signature check it performs. */
  type Trusted = Option<(Digest, Bytes) -> bool>

  function VerifyFrom(c: Codec, rows: seq<Row>, trusted: Trusted, previous: Digest, expected: nat): Result<nat> {
    if rows == [] then Ok(0)
    else
      var row := rows[0];
      if row.sequence != expected then Err(IntegrityError)
      else if c.decode(row.event).None? || row.previous != previous then Err(IntegrityError)
      else
        var hash := c.hash(previous, c.encode(c.decode(row.event).value));
        if row.hash != hash then Err(IntegrityError)
        else if trusted.Some? && (row.signature.None? || !trusted.value(hash, row.signature.value))
        then Err(IntegrityError)
        else
          var count :- VerifyFrom(c, rows[1..], trusted, hash, expected + 1);
          Ok(count + 1)
  }

  /** The row at index `i` continues the chain. */
  ghost predicate Links(c: Codec, rows: seq<Row>, trusted: Trusted, i: nat)
    requires i < |rows|
  {
    && rows[i].sequence == i + 1
    && rows[i].previous == TailHash(rows[..i])
    && c.decode(rows[i].event).Some?
    && rows[i].hash == c.hash(rows[i].previous, c.encode(c.decode(rows[i].event).value))
    && (trusted.Some? ==> rows[i].signature.Some? && trusted.value(rows[i].hash, rows[i].signature.value))
  }

  ghost predicate Verifies(c: Codec, rows: seq<Row>, trusted: Trusted) {
    forall i :: 0 <= i < |rows| ==> Links(c, rows, trusted, i)
  }

  lemma {:induction false} VerifyFromIsVerifies(c: Codec, rows: seq<Row>, trusted: Trusted, n: nat)
    requires n <= |rows| && forall i :: 0 <= i < n ==> Links(c, rows, trusted, i)
    ensures VerifyFrom(c, rows[n..], trusted, TailHash(rows[..n]), n + 1) ==
            if Verifies(c, rows, trusted) then Ok(|rows| - n) else Err(IntegrityError)
    decreases |rows| - n
  {
    if n < |rows| {
      assert rows[n..][0] == rows[n] && rows[n..][1..] == rows[n + 1..];
      if Links(c, rows, trusted, n) {
        assert TailHash(rows[..n + 1]) == rows[n].hash;
        VerifyFromIsVerifies(c, rows, trusted, n + 1);
      }
    } else {
      assert rows[n..] == [];
    }
  }

  /** `verify` accepts exactly the gapless chains, and then returns the number of events. */
  lemma VerifyIsExact(c: Codec, rows: seq<Row>, trusted: Trusted)
    ensures VerifyFrom(c, rows, trusted, Genesis, 1) ==
            if Verifies(c, rows, trusted) then Ok(|rows|) else Err(IntegrityError)
  {
    VerifyFromIsVerifies(c, rows, trusted, 0);
    assert rows[0..] == rows;
  }

  // ---------------------------------------------------------------- logs that only grew

  predicate Canonical(c: Codec, text: string) {
    c.decode(text).Some? && c.encode(c.decode(text).value) == text
  }

  /** What a log looks like that only `append_many` has touched. */
  ghost predicate Intact(c: Codec, st: Store) {
    && Verifies(c, st.rows, None)
    && (forall i :: 0 <= i < |st.rows| ==> Canonical(c, st.rows[i].event))
    && st.last == |st.rows|
    && st.usage == Some(Usage(|st.rows|, TotalBytes(c, st.rows)))
  }

  lemma {:induction false} HashesAreDistinct(c: Codec, rows: seq<Row>, i: nat, j: nat)
    requires CollisionFree(c) && Verifies(c, rows, None) && i < j < |rows|
    ensures rows[i].hash != rows[j].hash
  {
    assert Links(c, rows, None, i) && Links(c, rows, None, j - 1) && Links(c, rows, None, j);
    if rows[i].hash == rows[j].hash {
      assert TailHash(rows[..j]) == rows[j - 1].hash;
      if i > 0 {
        assert TailHash(rows[..i]) == rows[i - 1].hash;
        HashesAreDistinct(c, rows, i - 1, j - 1);
      }
    }
  }

  function NextRow(c: Codec, cfg: Config, st: Store, text: string): Row {
    var hash := c.hash(TailHash(st.rows), text);
    Row(|st.rows| + 1, text, TailHash(st.rows), hash, Signature(cfg, hash))
  }

  lemma ExtendedChainVerifies(c: Codec, cfg: Config, st: Store, text: string)
    requires Intact(c, st) && Canonical(c, text)
    ensures Verifies(c, st.rows + [NextRow(c, cfg, st, text)], None)
  {
    var rows := st.rows + [NextRow(c, cfg, st, text)];
    forall i | 0 <= i < |rows| ensures Links(c, rows, None, i) {
      assert rows[..i] == st.rows[..i];
      if i < |st.rows| { assert Links(c, st.rows, None, i); } else { assert st.rows[..i] == st.rows; }
    }
  }

  lemma NextHashIsNew(c: Codec, cfg: Config, st: Store, text: string)
    requires CollisionFree(c) && Intact(c, st) && Canonical(c, text)
    ensures !Stored(st.rows, c.hash(TailHash(st.rows), text))
  {
    var row := NextRow(c, cfg, st, text);
    var rows := st.rows + [row];
    ExtendedChainVerifies(c, cfg, st, text);
    forall i | 0 <= i < |st.rows| ensures st.rows[i].hash != row.hash {
      HashesAreDistinct(c, rows, i, |st.rows|);
      assert rows[i] == st.rows[i] && rows[|st.rows|] == row;
    }
  }

  lemma NextRowSize(c: Codec, cfg: Config, st: Store, text: string)
    requires SignsEd25519(cfg) && Intact(c, st)
    ensures RowBytes(c, NextRow(c, cfg, st, text)) == c.size(text) + 128 + (if cfg.sign.Some? then 64 else 0)
    ensures TotalBytes(c, st.rows + [NextRow(c, cfg, st, text)]) ==
            TotalBytes(c, st.rows) + RowBytes(c, NextRow(c, cfg, st, text))
  {
    var rows := st.rows + [NextRow(c, cfg, st, text)];
    assert rows[..|rows| - 1] == st.rows;
  }

  /** Inserting behind the tail of an intact log always succeeds and leaves it intact. */
  lemma InsertKeepsIntact(c: Codec, cfg: Config, st: Store, text: string)
    requires Sound(c) && CollisionFree(c) && SignsEd25519(cfg) && Intact(c, st) && Canonical(c, text)
    ensures var next := Insert(c, cfg, st, text, TailHash(st.rows));
            && next.Some? && Intact(c, next.value)
            && next.value.rows == st.rows + [NextRow(c, cfg, st, text)]
            && next.value.usage.value.bytes ==
               st.usage.value.bytes + c.size(text) + 128 + (if cfg.sign.Some? then 64 else 0)
  {
    NextHashIsNew(c, cfg, st, text);
    NextRowSize(c, cfg, st, text);
    ExtendedChainVerifies(c, cfg, st, text);
    IntactTail(c, st);
    hide TotalBytes, RowBytes, Verifies, Stored, Canonical;
    var rows := st.rows + [NextRow(c, cfg, st, text)];
    assert Insert(c, cfg, st, text, TailHash(st.rows)).value.rows == rows;
    forall i | 0 <= i < |rows| ensures Canonical(c, rows[i].event) {
      if i < |st.rows| { assert rows[i] == st.rows[i]; }
    }
  }

  lemma IntactTail(c: Codec, st: Store)
    requires Intact(c, st)
    ensures TailSequence(st.rows) == |st.rows|
    ensures forall i :: 0 <= i < |st.rows| ==> st.rows[i].sequence == i + 1
  {
    forall i | 0 <= i < |st.rows| ensures st.rows[i].sequence == i + 1 {
      assert Links(c, st.rows, None, i);
    }
  }

  lemma NextRowIsChained(c: Codec, cfg: Config, st: Store, texts: seq<string>)
    requires texts != []
    ensures var row := NextRow(c, cfg, st, texts[0]);
            && row.hash == c.hash(TailHash(st.rows), texts[0])
            && ChainRows(c, cfg, texts, TailHash(st.rows), |st.rows|) ==
               [row] + ChainRows(c, cfg, texts[1..], row.hash, |st.rows| + 1)
  {
  }

  lemma {:induction false} InsertAllKeepsIntact(c: Codec, cfg: Config, st: Store, texts: seq<string>)
    requires Sound(c) && CollisionFree(c) && SignsEd25519(cfg) && Intact(c, st)
    requires forall i :: 0 <= i < |texts| ==> Canonical(c, texts[i])
    ensures var all := InsertAll(c, cfg, st, texts, TailHash(st.rows));
            && all.Some? && Intact(c, all.value)
            && all.value.rows == st.rows + ChainRows(c, cfg, texts, TailHash(st.rows), |st.rows|)
            && all.value.usage.value.bytes == st.usage.value.bytes + AdditionalBytes(c, cfg, texts)
    decreases |texts|
  {
    hide Insert, Intact, Canonical, NextRow;
    if texts == [] {
      assert st.rows + [] == st.rows;
    } else {
      InsertKeepsIntact(c, cfg, st, texts[0]);
      var next := Insert(c, cfg, st, texts[0], TailHash(st.rows)).value;
      InsertAllKeepsIntact(c, cfg, next, texts[1..]);
      var row := NextRow(c, cfg, st, texts[0]);
      NextRowIsChained(c, cfg, st, texts);
      assert TailHash(next.rows) == row.hash && |next.rows| == |st.rows| + 1;
      assert st.rows + [row] + ChainRows(c, cfg, texts[1..], row.hash, |st.rows| + 1) ==
             st.rows + ([row] + ChainRows(c, cfg, texts[1..], row.hash, |st.rows| + 1));
    }
  }

  lemma {:induction false} NoRowsAfter(rows: seq<Row>, n: nat)
    requires forall i :: 0 <= i < |rows| ==> rows[i].sequence <= n
    ensures RowsAfter(rows, n) == []
    decreases |rows|
  {
    if rows != [] { NoRowsAfter(rows[..|rows| - 1], n); }
  }

  lemma {:induction false} RowsAfterTail(rows: seq<Row>, more: seq<Row>, n: nat)
    requires forall i :: 0 <= i < |rows| ==> rows[i].sequence <= n
    requires forall i :: 0 <= i < |more| ==> more[i].sequence > n
    ensures RowsAfter(rows + more, n) == more
    decreases |more|
  {
    var all := rows + more;
    if more == [] {
      assert all == rows;
      NoRowsAfter(rows, n);
    } else {
      var m := |more| - 1;
      assert all[..|all| - 1] == rows + more[..m] && all[|all| - 1] == more[m];
      RowsAfterTail(rows, more[..m], n);
      assert more[..m] + [more[m]] == more;
    }
  }

  lemma {:induction false} ChainRowsAreNumbered(c: Codec, cfg: Config, texts: seq<string>, previous: Digest, n: nat)
    ensures var rows := ChainRows(c, cfg, texts, previous, n);
            |rows| == |texts| && forall i :: 0 <= i < |rows| ==> rows[i].sequence == n + 1 + i
    decreases |texts|
  {
    if texts != [] { ChainRowsAreNumbered(c, cfg, texts[1..], c.hash(previous, texts[0]), n + 1); }
  }

  lemma CommitOnIntactLog(c: Codec, cfg: Config, st: Store, texts: seq<string>)
    requires Sound(c) && CollisionFree(c) && SignsEd25519(cfg) && Intact(c, st)
    requires forall i :: 0 <= i < |texts| ==> Canonical(c, texts[i])
    ensures Commit(c, cfg, st, texts).Ok? <==>
            WithinQuotas(cfg, st.usage.value, |texts|, AdditionalBytes(c, cfg, texts))
    ensures Commit(c, cfg, st, texts).Ok? ==>
            var (after, records) := Commit(c, cfg, st, texts).value;
            && Intact(c, after)
            && records == ChainRows(c, cfg, texts, TailHash(st.rows), |st.rows|)
            && after.rows == st.rows + records
            && after.usage == Some(Usage(|st.rows| + |texts|, st.usage.value.bytes + AdditionalBytes(c, cfg, texts)))
  {
    hide Insert, InsertAll, ChainRows, RowsAfter, AdditionalBytes, TotalBytes, Verifies, Canonical, WithinQuotas;
    IntactTail(c, st);
    InsertAllKeepsIntact(c, cfg, st, texts);
    ChainRowsAreNumbered(c, cfg, texts, TailHash(st.rows), |st.rows|);
    RowsAfterTail(st.rows, ChainRows(c, cfg, texts, TailHash(st.rows), |st.rows|), |st.rows|);
  }

  lemma TextsAreCanonical(c: Codec, events: seq<Option<Payload>>)
    requires Sound(c) && forall i :: 0 <= i < |events| ==> events[i].Some?
    ensures forall i :: 0 <= i < |events| ==> Canonical(c, Texts(c, events)[i])
  {
  }

  /**
   On an intact log an append succeeds exactly when the object may write, the batch is within its
   limits and the quotas allow it: none of its own postcondition checks, nor the UNIQUE constraint,
   can ever fail. The log stays intact and gains exactly the chained rows.
   */
  lemma AppendOnIntactLog(c: Codec, cfg: Config, st: Store, events: seq<Option<Payload>>)
    requires Sound(c) && CollisionFree(c) && SignsEd25519(cfg) && Intact(c, st)
    ensures Append(c, cfg, st, events).Ok? <==>
            && !cfg.readOnly && Prepared(c, events)
            && (events == [] || WithinQuotas(cfg, st.usage.value, |events|, AdditionalBytes(c, cfg, Texts(c, events))))
    ensures Append(c, cfg, st, events).Ok? ==>
            var (after, records) := Append(c, cfg, st, events).value;
            && Intact(c, after)
            && records == ChainRows(c, cfg, Texts(c, events), TailHash(st.rows), |st.rows|)
            && after.rows == st.rows + records
            && after.usage == Some(Usage(
                 |st.rows| + |events|, st.usage.value.bytes + AdditionalBytes(c, cfg, Texts(c, events))))
  {
    hide Commit, Prepared, Verifies, Canonical, TotalBytes;
    if !cfg.readOnly && Prepared(c, events) {
      AllSome(c, events);
      var texts := Texts(c, events);
      if events == [] {
        assert texts == [];
      } else {
        TextsAreCanonical(c, events);
        CommitOnIntactLog(c, cfg, st, texts);
      }
    }
  }

  lemma AllSome(c: Codec, events: seq<Option<Payload>>)
    requires Prepared(c, events)
    ensures forall i :: 0 <= i < |events| ==> events[i].Some?
  {
  }

  // ---------------------------------------------------------------- splitting a batch

  /** The hash behind which the next row is chained. */
  function ChainEnd(c: Codec, texts: seq<string>, previous: Digest): Digest {
    if texts == [] then previous else ChainEnd(c, texts[1..], c.hash(previous, texts[0]))
  }

  lemma {:induction false} ChainRowsSplit(c: Codec, cfg: Config,
      a: seq<string>, b: seq<string>, previous: Digest, n: nat)
    ensures ChainRows(c, cfg, a + b, previous, n) ==
            ChainRows(c, cfg, a, previous, n) + ChainRows(c, cfg, b, ChainEnd(c, a, previous), n + |a|)
    decreases |a|
  {
    if a == [] {
      assert a + b == b;
    } else {
      assert (a + b)[0] == a[0] && (a + b)[1..] == a[1..] + b;
      ChainRowsSplit(c, cfg, a[1..], b, c.hash(previous, a[0]), n + 1);
    }
  }

  lemma {:induction false} ChainEndIsTailHash(c: Codec, cfg: Config, rows: seq<Row>, texts: seq<string>, n: nat)
    ensures TailHash(rows + ChainRows(c, cfg, texts, TailHash(rows), n)) == ChainEnd(c, texts, TailHash(rows))
    decreases |texts|
  {
    if texts == [] {
      assert rows + [] == rows;
    } else {
      var hash := c.hash(TailHash(rows), texts[0]);
      var row := Row(n + 1, texts[0], TailHash(rows), hash, Signature(cfg, hash));
      ChainEndIsTailHash(c, cfg, rows + [row], texts[1..], n + 1);
      assert rows + [row] + ChainRows(c, cfg, texts[1..], hash, n + 1) ==
             rows + ([row] + ChainRows(c, cfg, texts[1..], hash, n + 1));
    }
  }

  lemma RowsSplit(c: Codec, cfg: Config, a: seq<string>, b: seq<string>, rows: seq<Row>)
    ensures var first := rows + ChainRows(c, cfg, a, TailHash(rows), |rows|);
            first + ChainRows(c, cfg, b, TailHash(first), |first|) ==
            rows + ChainRows(c, cfg, a + b, TailHash(rows), |rows|)
  {
    ChainRowsSplit(c, cfg, a, b, TailHash(rows), |rows|);
    ChainEndIsTailHash(c, cfg, rows, a, |rows|);
    ChainRowsAreNumbered(c, cfg, a, TailHash(rows), |rows|);
    hide ChainRows, ChainEnd;
  }

  lemma RowsDetermineIntactStore(c: Codec, a: Store, b: Store)
    requires Intact(c, a) && Intact(c, b) && a.rows == b.rows
    ensures a == b
  {
  }

  lemma {:induction false} AdditionalBytesSplit(c: Codec, cfg: Config, a: seq<string>, b: seq<string>)
    ensures AdditionalBytes(c, cfg, a + b) == AdditionalBytes(c, cfg, a) + AdditionalBytes(c, cfg, b)
    decreases |a|
  {
    if a == [] {
      assert a + b == b;
    } else {
      assert (a + b)[0] == a[0] && (a + b)[1..] == a[1..] + b;
      AdditionalBytesSplit(c, cfg, a[1..], b);
    }
  }

  lemma {:induction false} SizesSplit(c: Codec, a: seq<Option<Payload>>, b: seq<Option<Payload>>)
    requires forall i :: 0 <= i < |a| ==> a[i].Some?
    requires forall i :: 0 <= i < |b| ==> b[i].Some?
    ensures Sizes(c, a + b) == Sizes(c, a) + Sizes(c, b)
    decreases |b|
  {
    if b == [] {
      assert a + b == a;
    } else {
      assert (a + b)[..|a + b| - 1] == a + b[..|b| - 1];
      SizesSplit(c, a, b[..|b| - 1]);
    }
  }

  /** If the joint batch is prepared, so is each half. */
  lemma PreparedSplit(c: Codec, a: seq<Option<Payload>>, b: seq<Option<Payload>>)
    requires Prepared(c, a + b)
    ensures Prepared(c, a) && Prepared(c, b) && Texts(c, a + b) == Texts(c, a) + Texts(c, b)
  {
    assert forall i :: 0 <= i < |a| ==> a[i] == (a + b)[i];
    assert forall i :: 0 <= i < |b| ==> b[i] == (a + b)[|a| + i];
    SizesSplit(c, a, b);
  }

  /**
   A batch that fits the batch limits is the two appends of its halves: it succeeds exactly when
   both succeed in turn, and leaves the same rows, numbers and counters.
   */
  lemma BatchIsItsHalves(c: Codec, cfg: Config, st: Store, a: seq<Option<Payload>>, b: seq<Option<Payload>>)
    requires Sound(c) && CollisionFree(c) && SignsEd25519(cfg) && Intact(c, st) && Prepared(c, a + b)
    ensures var first := Append(c, cfg, st, a);
            && (Append(c, cfg, st, a + b).Ok? <==> first.Ok? && Append(c, cfg, first.value.0, b).Ok?)
            && (Append(c, cfg, st, a + b).Ok? ==>
                  Append(c, cfg, st, a + b).value.0 == Append(c, cfg, first.value.0, b).value.0)
  {
    PreparedSplit(c, a, b);
    AdditionalBytesSplit(c, cfg, Texts(c, a), Texts(c, b));
    IntactCount(c, st);
    AppendOnIntactLog(c, cfg, st, a + b);
    AppendOnIntactLog(c, cfg, st, a);
    hide Append, Intact, Sound, CollisionFree, SignsEd25519, ChainRows, AdditionalBytes, Texts, Prepared;
    var first := Append(c, cfg, st, a);
    if first.Ok? {
      var mid := first.value.0;
      AppendOnIntactLog(c, cfg, mid, b);
      RowsSplit(c, cfg, Texts(c, a), Texts(c, b), st.rows);
      if Append(c, cfg, st, a + b).Ok? && Append(c, cfg, mid, b).Ok? {
        RowsDetermineIntactStore(c, Append(c, cfg, st, a + b).value.0, Append(c, cfg, mid, b).value.0);
      }
      if a == [] { EmptyAppend(c, cfg, st); assert a + b == b; }
      if b == [] { assert a + b == a; }
    }
  }

  lemma IntactCount(c: Codec, st: Store)
    requires Intact(c, st)
    ensures st.usage.Some? && st.usage.value.count == |st.rows|
  {
  }

  lemma EmptyAppend(c: Codec, cfg: Config, st: Store)
    requires !cfg.readOnly
    ensures Append(c, cfg, st, []) == Ok((st, []))
  {
  }

  // ---------------------------------------------------------------- the final hash pins the log

  /**
   Two verifying logs with the same final hash hold the same events, numbers and hashes. (Their
   signatures and the spelling of their JSON are not covered by the chain.)
   */
  lemma {:induction false} FinalHashPinsTheLog(c: Codec, a: seq<Row>, b: seq<Row>)
    requires Sound(c) && CollisionFree(c) && Verifies(c, a, None) && Verifies(c, b, None) && TailHash(a) == TailHash(b)
    ensures |a| == |b|
    ensures forall i :: 0 <= i < |a| ==>
              && a[i].sequence == b[i].sequence && a[i].previous == b[i].previous && a[i].hash == b[i].hash
              && c.decode(a[i].event) == c.decode(b[i].event)
    decreases |a| + |b|
  {
    if a == [] && b != [] {
      TailIsNotGenesis(c, b);
    } else if a != [] && b == [] {
      TailIsNotGenesis(c, a);
    } else if a != [] {
      var m, n := |a| - 1, |b| - 1;
      assert Links(c, a, None, m) && Links(c, b, None, n);
      PrefixVerifies(c, a);
      PrefixVerifies(c, b);
      FinalHashPinsTheLog(c, a[..m], b[..n]);
      assert c.encode(c.decode(a[m].event).value) == c.encode(c.decode(b[n].event).value);
      forall i | 0 <= i < m
        ensures a[i].sequence == b[i].sequence && a[i].previous == b[i].previous && a[i].hash == b[i].hash
        ensures c.decode(a[i].event) == c.decode(b[i].event)
      {
        assert a[i] == a[..m][i] && b[i] == b[..n][i];
      }
    }
  }

  lemma TailIsNotGenesis(c: Codec, rows: seq<Row>)
    requires CollisionFree(c) && Verifies(c, rows, None) && rows != []
    ensures TailHash(rows) != Genesis
  {
    assert Links(c, rows, None, |rows| - 1);
  }

  lemma PrefixVerifies(c: Codec, rows: seq<Row>)
    requires rows != [] && Verifies(c, rows, None)
    ensures Verifies(c, rows[..|rows| - 1], None)
  {
    var front := rows[..|rows| - 1];
    forall i | 0 <= i < |front| ensures Links(c, front, None, i) {
      assert Links(c, rows, None, i) && front[..i] == rows[..i];
    }
  }

  /**
   A verifying log with the final hash of a log that only appends touched equals it, signatures
   aside, exactly when every event in it is spelled canonically.
   */
  lemma FinalHashPinsCanonicalLogs(c: Codec, rows: seq<Row>, st: Store)
    requires Sound(c) && CollisionFree(c) && Verifies(c, rows, None)
    requires Intact(c, st) && TailHash(rows) == TailHash(st.rows)
    ensures |rows| == |st.rows|
    ensures (forall i :: 0 <= i < |rows| ==> rows[i].(signature := None) == st.rows[i].(signature := None)) <==>
            (forall i :: 0 <= i < |rows| ==> Canonical(c, rows[i].event))
  {
    FinalHashPinsTheLog(c, rows, st.rows);
    forall i | 0 <= i < |rows| ensures rows[i].event == st.rows[i].event <==> Canonical(c, rows[i].event) {
      assert Canonical(c, st.rows[i].event);
    }
    if forall i :: 0 <= i < |rows| ==> rows[i].(signature := None) == st.rows[i].(signature := None) {
      forall i | 0 <= i < |rows| ensures Canonical(c, rows[i].event) {
        assert rows[i].(signature := None) == st.rows[i].(signature := None);
      }
    }
  }

  /** The spelling is not pinned: respelling an event's JSON leaves a verifying log with the same hash. */
  lemma RespellingIsNotDetected(c: Codec, x: Payload, text: string)
    requires Sound(c) && c.decode(text) == Some(x) && text != c.encode(x)
    ensures var hash := c.hash(Genesis, c.encode(x));
            var honest, respelled := [Row(1, c.encode(x), Genesis, hash, None)], [Row(1, text, Genesis, hash, None)];
            && Verifies(c, honest, None) && Verifies(c, respelled, None)
            && TailHash(honest) == TailHash(respelled) && honest != respelled
  {
    var hash := c.hash(Genesis, c.encode(x));
    var honest, respelled := [Row(1, c.encode(x), Genesis, hash, None)], [Row(1, text, Genesis, hash, None)];
    assert honest[..0] == [] && respelled[..0] == [];
    assert honest[0] != respelled[0];
  }

  // ---------------------------------------------------------------- deletions

  /** Numbers ascend, never exceed the high-water mark, and the usage row counts the rows. */
  ghost predicate Ordered(st: Store) {
    && (forall i :: 0 <= i < |st.rows| ==> 1 <= st.rows[i].sequence <= st.last)
    && (forall i, j :: 0 <= i < j < |st.rows| ==> st.rows[i].sequence < st.rows[j].sequence)
    && st.usage.Some? && st.usage.value.count == |st.rows| <= st.last
  }

  /** A row is missing. */
  ghost predicate Tampered(st: Store) {
    Ordered(st) && |st.rows| < st.last
  }

  lemma TailWithinMark(st: Store)
    requires Ordered(st)
    ensures TailSequence(st.rows) <= st.last
  {
  }

  lemma InsertKeepsOrdered(c: Codec, cfg: Config, st: Store, text: string, previous: Digest)
    requires Ordered(st) && Insert(c, cfg, st, text, previous).Some?
    ensures var next := Insert(c, cfg, st, text, previous).value;
            && Ordered(next) && next.last == st.last + 1 && |next.rows| == |st.rows| + 1
            && next.rows[..|st.rows|] == st.rows && next.rows[|st.rows|].sequence == st.last + 1
  {
    TailWithinMark(st);
  }

  lemma {:induction false} InsertAllKeepsOrdered(c: Codec, cfg: Config, st: Store, texts: seq<string>, previous: Digest)
    requires Ordered(st) && InsertAll(c, cfg, st, texts, previous).Some?
    ensures var all := InsertAll(c, cfg, st, texts, previous).value;
            && Ordered(all) && all.last == st.last + |texts| && |all.rows| == |st.rows| + |texts|
            && all.rows[..|st.rows|] == st.rows
            && (texts != [] ==> all.rows[|st.rows|].sequence == st.last + 1)
    decreases |texts|
  {
    if texts == [] {
      assert st.rows[..|st.rows|] == st.rows;
    } else {
      InsertKeepsOrdered(c, cfg, st, texts[0], previous);
      var next := Insert(c, cfg, st, texts[0], previous).value;
      InsertAllKeepsOrdered(c, cfg, next, texts[1..], c.hash(previous, texts[0]));
      var all := InsertAll(c, cfg, st, texts, previous).value;
      assert all.rows[..|next.rows|][..|st.rows|] == all.rows[..|st.rows|];
      assert all.rows[..|next.rows|][|st.rows|] == all.rows[|st.rows|];
    }
  }

  /** Deletions behind the back of a log whose row count matches its last number only leave a gapless prefix. */
  lemma {:induction false} CountMatchesTailOnlyWhenGapless(rows: seq<Row>, i: nat)
    requires forall i, j :: 0 <= i < j < |rows| ==> rows[i].sequence < rows[j].sequence
    requires forall i :: 0 <= i < |rows| ==> 1 <= rows[i].sequence
    requires TailSequence(rows) == |rows| && i < |rows|
    ensures rows[i].sequence == i + 1
    decreases |rows| - i
  {
    AtLeastIndex(rows, i);
    if i + 1 < |rows| { CountMatchesTailOnlyWhenGapless(rows, i + 1); }
  }

  lemma {:induction false} AtLeastIndex(rows: seq<Row>, i: nat)
    requires forall i, j :: 0 <= i < j < |rows| ==> rows[i].sequence < rows[j].sequence
    requires forall i :: 0 <= i < |rows| ==> 1 <= rows[i].sequence
    requires i < |rows|
    ensures rows[i].sequence >= i + 1
  {
    if i > 0 { AtLeastIndex(rows, i - 1); }
  }

  lemma LaterRowsAreLarger(st: Store, n: nat, i: nat)
    requires Ordered(st) && n <= i < |st.rows|
    ensures st.rows[i].sequence > TailSequence(st.rows[..n])
  {
    if n > 0 { assert st.rows[..n][n - 1] == st.rows[n - 1]; }
  }

  lemma TailIsLargest(st: Store, i: nat)
    requires Ordered(st) && i < |st.rows|
    ensures st.rows[i].sequence <= TailSequence(st.rows)
  {
    if i < |st.rows| - 1 { assert st.rows[i].sequence < st.rows[|st.rows| - 1].sequence; }
  }

  lemma NewRowsComeLast(c: Codec, cfg: Config, st: Store, texts: seq<string>, previous: Digest)
    requires Ordered(st) && InsertAll(c, cfg, st, texts, previous).Some? && texts != []
    ensures var after := RowsAfter(InsertAll(c, cfg, st, texts, previous).value.rows, TailSequence(st.rows));
            after != [] && after[0].sequence == st.last + 1
  {
    InsertAllKeepsOrdered(c, cfg, st, texts, previous);
    hide InsertAll, RowsAfter;
    var all := InsertAll(c, cfg, st, texts, previous).value;
    var n, more := |st.rows|, all.rows[|st.rows|..];
    assert all.rows == st.rows + more && more[0] == all.rows[n];
    hide Ordered;
    forall i | 0 <= i < n ensures st.rows[i].sequence <= TailSequence(st.rows) { TailIsLargest(st, i); }
    forall i | 0 <= i < |more| ensures more[i].sequence > TailSequence(st.rows) {
      LaterRowsAreLarger(all, n, n + i);
    }
    RowsAfterTail(st.rows, more, TailSequence(st.rows));
  }

  /** Every non-empty append to a log with a missing row is refused: by the count, or by the numbering. */
  lemma AppendOnTamperedLog(c: Codec, cfg: Config, st: Store, events: seq<Option<Payload>>)
    requires Tampered(st) && events != []
    ensures Append(c, cfg, st, events).Err?
  {
    hide InsertAll, RowsAfter, ChainRows, AdditionalBytes, Sizes;
    if Append(c, cfg, st, events).Ok? {
      var texts := Texts(c, events);
      ChainRowsAreNumbered(c, cfg, texts, TailHash(st.rows), TailSequence(st.rows));
      NewRowsComeLast(c, cfg, st, texts, TailHash(st.rows));
    }
  }

  /** `EditRow` rewrites the i-th row to be like `row`, but for its number. */
  datatype LogOp = AppendBatch(cfg: Config, events: seq<Option<Payload>>)
    | DeleteRow(i: nat) | EditRow(i: nat, row: Row)

  function ApplyOp(c: Codec, st: Store, op: LogOp): Store {
    match op
    case AppendBatch(cfg, events) => if Append(c, cfg, st, events).Ok? then Append(c, cfg, st, events).value.0 else st
    case DeleteRow(i) => Delete(c, st, i)
    case EditRow(i, row) => Edit(c, st, i, row)
  }

  lemma DeleteKeepsOrdered(c: Codec, st: Store, i: nat)
    requires Ordered(st)
    ensures Ordered(Delete(c, st, i)) && (Tampered(st) || i < |st.rows| ==> Tampered(Delete(c, st, i)))
  {
    if i < |st.rows| {
      var rows := Delete(c, st, i).rows;
      assert forall j :: 0 <= j < |rows| ==> rows[j] == st.rows[if j < i then j else j + 1];
    }
  }

  lemma EditKeepsOrdered(c: Codec, st: Store, i: nat, row: Row)
    requires Ordered(st)
    ensures Ordered(Edit(c, st, i, row)) && (Tampered(st) ==> Tampered(Edit(c, st, i, row)))
  {
    hide RowBytes, TakenElsewhere;
    var rows := Edit(c, st, i, row).rows;
    assert |rows| == |st.rows| && forall j :: 0 <= j < |rows| ==> rows[j].sequence == st.rows[j].sequence;
  }

  lemma AppendKeepsOrdered(c: Codec, cfg: Config, st: Store, events: seq<Option<Payload>>)
    requires Ordered(st) && Append(c, cfg, st, events).Ok?
    ensures Ordered(Append(c, cfg, st, events).value.0)
    ensures Tampered(st) ==> Append(c, cfg, st, events).value.0 == st
  {
    if events != [] {
      AppendIsInsertAll(c, cfg, st, events);
      hide Append, InsertAll, Ordered;
      if Tampered(st) { AppendOnTamperedLog(c, cfg, st, events); }
      InsertAllKeepsOrdered(c, cfg, st, Texts(c, events), TailHash(st.rows));
    }
  }

  lemma OpKeepsOrdered(c: Codec, st: Store, op: LogOp)
    requires Ordered(st)
    ensures Ordered(ApplyOp(c, st, op))
    ensures Tampered(st) || (op.DeleteRow? && op.i < |st.rows|) ==> Tampered(ApplyOp(c, st, op))
  {
    hide Ordered, Append, Delete, Edit;
    match op {
      case AppendBatch(cfg, events) =>
        if Append(c, cfg, st, events).Ok? { AppendKeepsOrdered(c, cfg, st, events); }
      case DeleteRow(i) => DeleteKeepsOrdered(c, st, i);
      case EditRow(i, row) => EditKeepsOrdered(c, st, i, row);
    }
  }

  /** A history of a log file: appends by any writers, and deletions and edits behind their backs. */
  datatype History = History(states: seq<Store>, ops: seq<LogOp>)

  ghost predicate IsHistory(c: Codec, h: History) {
    && |h.states| == |h.ops| + 1 && h.states[0] == EMPTY
    && forall i :: 0 <= i < |h.ops| ==> h.states[i + 1] == ApplyOp(c, h.states[i], h.ops[i])
  }

  lemma {:induction false} HistoryIsOrdered(c: Codec, h: History, i: nat)
    requires IsHistory(c, h) && i < |h.states|
    ensures Ordered(h.states[i])
  {
    hide ApplyOp;
    if i > 0 {
      HistoryIsOrdered(c, h, i - 1);
      OpKeepsOrdered(c, h.states[i - 1], h.ops[i - 1]);
      assert h.states[i] == ApplyOp(c, h.states[i - 1], h.ops[i - 1]);
    }
  }

  lemma {:induction false} TamperedForever(c: Codec, h: History, n: nat, i: nat)
    requires IsHistory(c, h) && n < i < |h.states|
    requires h.ops[n].DeleteRow? && h.ops[n].i < |h.states[n].rows|
    ensures Tampered(h.states[i])
    decreases i
  {
    hide ApplyOp;
    HistoryIsOrdered(c, h, i - 1);
    if i - 1 > n { TamperedForever(c, h, n, i - 1); }
    OpKeepsOrdered(c, h.states[i - 1], h.ops[i - 1]);
    assert h.states[i] == ApplyOp(c, h.states[i - 1], h.ops[i - 1]);
  }

  /**
   Once any deletion has removed a row, every later non-empty append in the history raises and
   leaves the log unchanged, whoever makes it and whatever else is deleted in between.
   */
  lemma DeletionStopsTheLog(c: Codec, h: History, n: nat, m: nat)
    requires IsHistory(c, h) && n < m < |h.ops|
    requires h.ops[n].DeleteRow? && h.ops[n].i < |h.states[n].rows|
    requires h.ops[m].AppendBatch? && h.ops[m].events != []
    ensures Append(c, h.ops[m].cfg, h.states[m], h.ops[m].events).Err?
    ensures h.states[m + 1] == h.states[m]
  {
    TamperedForever(c, h, n, m);
    AppendOnTamperedLog(c, h.ops[m].cfg, h.states[m], h.ops[m].events);
  }

  /** In a history of appends alone, by writers that sign alike or not, the log is intact throughout. */
  lemma {:induction false} AppendsKeepTheLogIntact(c: Codec, h: History, i: nat)
    requires Sound(c) && CollisionFree(c) && IsHistory(c, h) && i < |h.states|
    requires forall n :: 0 <= n < |h.ops| ==> h.ops[n].AppendBatch? && SignsEd25519(h.ops[n].cfg)
    ensures Intact(c, h.states[i])
  {
    hide Append;
    if i > 0 {
      AppendsKeepTheLogIntact(c, h, i - 1);
      var op := h.ops[i - 1];
      AppendOnIntactLog(c, op.cfg, h.states[i - 1], op.events);
    }
  }

  // ---------------------------------------------------------------- signed logs

  /** The row carries a signature that the trusted key accepts. */
  ghost predicate SignedFor(row: Row, trusted: Trusted) {
    trusted.Some? ==> row.signature.Some? && trusted.value(row.hash, row.signature.value)
  }

  /** The writer signs with the key that `trusted` stands for. */
  ghost predicate SignsFor(cfg: Config, trusted: Trusted) {
    trusted.Some? ==> cfg.sign.Some? && forall h :: trusted.value(h, cfg.sign.value(h))
  }

  lemma {:induction false} ChainRowsAreSigned(c: Codec, cfg: Config,
      texts: seq<string>, previous: Digest, n: nat, trusted: Trusted)
    requires SignsFor(cfg, trusted)
    ensures forall i :: 0 <= i < |ChainRows(c, cfg, texts, previous, n)| ==>
            SignedFor(ChainRows(c, cfg, texts, previous, n)[i], trusted)
    decreases |texts|
  {
    if texts != [] { ChainRowsAreSigned(c, cfg, texts[1..], c.hash(previous, texts[0]), n + 1, trusted); }
  }

  /** Nothing but appends, by writers that sign for the trusted key. */
  ghost predicate AppendsOnly(h: History, trusted: Trusted) {
    forall n :: 0 <= n < |h.ops| ==>
      h.ops[n].AppendBatch? && SignsEd25519(h.ops[n].cfg) && SignsFor(h.ops[n].cfg, trusted)
  }

  lemma {:induction false} AppendsAreSigned(c: Codec, h: History, i: nat, trusted: Trusted)
    requires Sound(c) && CollisionFree(c) && IsHistory(c, h) && i < |h.states|
    requires AppendsOnly(h, trusted)
    ensures forall j :: 0 <= j < |h.states[i].rows| ==> SignedFor(h.states[i].rows[j], trusted)
  {
    hide Append, ChainRows, SignedFor, SignsFor;
    if i > 0 {
      AppendsAreSigned(c, h, i - 1, trusted);
      AppendsKeepTheLogIntact(c, h, i - 1);
      var op, st := h.ops[i - 1], h.states[i - 1];
      AppendOnIntactLog(c, op.cfg, st, op.events);
      if Append(c, op.cfg, st, op.events).Ok? {
        AllSome(c, op.events);
        ChainRowsAreSigned(c, op.cfg, Texts(c, op.events), TailHash(st.rows), |st.rows|, trusted);
      }
    }
  }

  /**
   Every log built by any series of appends verifies with its exact event count; under a trusted
   key too, when every writer signed with it.
   */
  lemma BuiltLogVerifies(c: Codec, h: History, i: nat, trusted: Trusted)
    requires Sound(c) && CollisionFree(c) && IsHistory(c, h) && i < |h.states|
    requires AppendsOnly(h, trusted)
    ensures VerifyFrom(c, h.states[i].rows, trusted, Genesis, 1) == Ok(|h.states[i].rows|)
  {
    AppendsKeepTheLogIntact(c, h, i);
    AppendsAreSigned(c, h, i, trusted);
    var rows := h.states[i].rows;
    forall j | 0 <= j < |rows| ensures Links(c, rows, trusted, j) {
      assert Links(c, rows, None, j) && SignedFor(rows[j], trusted);
    }
    VerifyIsExact(c, rows, trusted);
  }

  // ---------------------------------------------------------------- what verification makes of deletions

  /** An intact log whose rows are signed for the trusted key. */
  ghost predicate Authentic(c: Codec, st: Store, trusted: Trusted) {
    Intact(c, st) && forall i :: 0 <= i < |st.rows| ==> SignedFor(st.rows[i], trusted)
  }

  /** The rows of `st` are rows that `whole` has under the same numbers; if none is missing, they are all of them. */
  ghost predicate Remains(c: Codec, st: Store, whole: Store, trusted: Trusted) {
    && Ordered(st) && Authentic(c, whole, trusted) && st.last == |whole.rows|
    && (forall i :: 0 <= i < |st.rows| ==> st.rows[i] == whole.rows[st.rows[i].sequence - 1])
    && (|st.rows| == st.last ==> st == whole)
  }

  lemma AuthenticRemains(c: Codec, st: Store, trusted: Trusted)
    requires Ordered(st) && Authentic(c, st, trusted)
    ensures Remains(c, st, st, trusted)
  {
    hide Intact, SignedFor, Ordered;
    IntactTail(c, st);
    WholeLogHasAllRows(c, st, trusted);
  }

  lemma AppendKeepsAuthentic(c: Codec, cfg: Config, st: Store, events: seq<Option<Payload>>, trusted: Trusted)
    requires Sound(c) && CollisionFree(c) && SignsEd25519(cfg) && SignsFor(cfg, trusted)
    requires Authentic(c, st, trusted) && Append(c, cfg, st, events).Ok?
    ensures Authentic(c, Append(c, cfg, st, events).value.0, trusted)
  {
    AppendOnIntactLog(c, cfg, st, events);
    hide Append, ChainRows, SignedFor, SignsFor, Intact, Prepared;
    AllSome(c, events);
    ChainRowsAreSigned(c, cfg, Texts(c, events), TailHash(st.rows), |st.rows|, trusted);
  }

  lemma DeleteKeepsRemains(c: Codec, st: Store, i: nat, whole: Store, trusted: Trusted)
    requires Remains(c, st, whole, trusted)
    ensures Remains(c, Delete(c, st, i), whole, trusted)
  {
    hide Intact, SignedFor;
    OpKeepsOrdered(c, st, DeleteRow(i));
    var rows := Delete(c, st, i).rows;
    assert i < |st.rows| ==> forall j :: 0 <= j < |rows| ==> rows[j] == st.rows[if j < i then j else j + 1];
  }

  /** No row is edited, and every writer signs for the trusted key. */
  ghost predicate AppendsAndDeletes(h: History, trusted: Trusted) {
    forall n :: 0 <= n < |h.ops| ==>
      && !h.ops[n].EditRow?
      && (h.ops[n].AppendBatch? ==> SignsEd25519(h.ops[n].cfg) && SignsFor(h.ops[n].cfg, trusted))
  }

  /** In every history of appends and deletions the rows are what deletions left of the log as it once was. */
  lemma {:induction false} HistoryRemains(c: Codec, h: History, i: nat, trusted: Trusted) returns (m: nat)
    requires Sound(c) && CollisionFree(c) && IsHistory(c, h) && i < |h.states|
    requires AppendsAndDeletes(h, trusted)
    ensures m <= i && Remains(c, h.states[i], h.states[m], trusted)
  {
    hide Append, Delete, Authentic, SignsEd25519, SignsFor, Sound, CollisionFree;
    HistoryIsOrdered(c, h, i);
    if i == 0 {
      assert Authentic(c, EMPTY, trusted) by { EmptyIsAuthentic(c, trusted); }
      AuthenticRemains(c, EMPTY, trusted);
      return 0;
    }
    m := HistoryRemains(c, h, i - 1, trusted);
    var st, op := h.states[i - 1], h.ops[i - 1];
    assert h.states[i] == ApplyOp(c, st, op);
    match op {
      case DeleteRow(n) => DeleteKeepsRemains(c, st, n, h.states[m], trusted);
      case AppendBatch(cfg, events) =>
        if Append(c, cfg, st, events).Ok? && events != [] {
          if Tampered(st) { AppendOnTamperedLog(c, cfg, st, events); }
          AppendKeepsAuthentic(c, cfg, st, events, trusted);
          AuthenticRemains(c, h.states[i], trusted);
          m := i;
        } else if events == [] {
          EmptyAppendChangesNothing(c, cfg, st);
        }
    }
  }

  lemma EmptyAppendChangesNothing(c: Codec, cfg: Config, st: Store)
    ensures ApplyOp(c, st, AppendBatch(cfg, [])) == st
  {
  }

  lemma EmptyIsAuthentic(c: Codec, trusted: Trusted)
    ensures Authentic(c, EMPTY, trusted)
  {
  }

  lemma AuthenticVerifies(c: Codec, st: Store, trusted: Trusted, n: nat)
    requires Authentic(c, st, trusted) && n <= |st.rows|
    ensures Verifies(c, st.rows[..n], trusted)
  {
    var rows := st.rows[..n];
    forall j | 0 <= j < n ensures Links(c, rows, trusted, j) {
      assert Links(c, st.rows, None, j) && SignedFor(st.rows[j], trusted) && rows[..j] == st.rows[..j];
    }
  }

  /** Deleting the last row of a whole log leaves a log that verifies. */
  lemma TruncationVerifies(c: Codec, st: Store, trusted: Trusted)
    requires Authentic(c, st, trusted) && st.rows != []
    ensures var rows := Delete(c, st, |st.rows| - 1).rows;
            rows != st.rows && VerifyFrom(c, rows, trusted, Genesis, 1) == Ok(|st.rows| - 1)
  {
    var rows := Delete(c, st, |st.rows| - 1).rows;
    assert rows == st.rows[..|st.rows| - 1];
    hide Authentic, VerifyFrom;
    AuthenticVerifies(c, st, trusted, |st.rows| - 1);
    VerifyIsExact(c, rows, trusted);
  }

  /** Only a truncated log ends in a row whose number is the row count. */
  lemma TruncatedIffCountMatchesTail(c: Codec, st: Store, whole: Store, trusted: Trusted)
    requires Remains(c, st, whole, trusted)
    ensures st.rows <= whole.rows <==> TailSequence(st.rows) == |st.rows|
  {
    IntactTail(c, whole);
    hide Intact, SignedFor;
    if TailSequence(st.rows) == |st.rows| {
      forall j | 0 <= j < |st.rows| ensures st.rows[j] == whole.rows[j] {
        CountMatchesTailOnlyWhenGapless(st.rows, j);
      }
    }
  }

  lemma VerifiesIffTruncated(c: Codec, st: Store, whole: Store, trusted: Trusted)
    requires Remains(c, st, whole, trusted)
    ensures Verifies(c, st.rows, trusted) <==> st.rows <= whole.rows
  {
    TruncatedIffCountMatchesTail(c, st, whole, trusted);
    hide Authentic;
    if st.rows <= whole.rows {
      AuthenticVerifies(c, whole, trusted, |st.rows|);
      assert st.rows == whole.rows[..|st.rows|];
    }
    if Verifies(c, st.rows, trusted) && st.rows != [] {
      assert Links(c, st.rows, trusted, |st.rows| - 1);
    }
  }

  lemma WholeLogHasAllRows(c: Codec, whole: Store, trusted: Trusted)
    requires Authentic(c, whole, trusted)
    ensures |whole.rows| == whole.last
  {
  }

  /**
   In every history of appends and deletions, verification and the append's count check catch the same
   deletions: all but those that truncated the log. `m` is the last moment at which the log was whole.
   */
  lemma DeletionIsDetectedUnlessTruncation(c: Codec, h: History, i: nat, trusted: Trusted) returns (m: nat)
    requires Sound(c) && CollisionFree(c) && IsHistory(c, h) && i < |h.states|
    requires AppendsAndDeletes(h, trusted)
    ensures m <= i && |h.states[m].rows| == h.states[m].last == h.states[i].last
    ensures var rows := h.states[i].rows;
            && VerifyFrom(c, rows, trusted, Genesis, 1) ==
               (if rows <= h.states[m].rows then Ok(|rows|) else Err(IntegrityError))
            && h.states[i].usage.Some?
            && (h.states[i].usage.value.count == TailSequence(rows) <==> rows <= h.states[m].rows)
  {
    m := HistoryRemains(c, h, i, trusted);
    hide IsHistory, Sound, CollisionFree, SignsEd25519, SignsFor, VerifyFrom, Verifies, Authentic;
    TruncatedIffCountMatchesTail(c, h.states[i], h.states[m], trusted);
    VerifiesIffTruncated(c, h.states[i], h.states[m], trusted);
    VerifyIsExact(c, h.states[i].rows, trusted);
    WholeLogHasAllRows(c, h.states[m], trusted);
  }

  // ---------------------------------------------------------------- the counters, whatever happens to the rows

  ghost predicate BytesCounted(c: Codec, st: Store) {
    st.usage.Some? && st.usage.value.bytes == TotalBytes(c, st.rows)
  }

  lemma {:induction false} TotalSplits(c: Codec, a: seq<Row>, b: seq<Row>)
    ensures TotalBytes(c, a + b) == TotalBytes(c, a) + TotalBytes(c, b)
    decreases |b|
  {
    hide RowBytes;
    if b == [] {
      assert a + b == a;
    } else {
      assert (a + b)[..|a + b| - 1] == a + b[..|b| - 1];
      TotalSplits(c, a, b[..|b| - 1]);
    }
  }

  lemma TotalAround(c: Codec, rows: seq<Row>, i: nat)
    requires i < |rows|
    ensures TotalBytes(c, rows) == TotalBytes(c, rows[..i]) + RowBytes(c, rows[i]) + TotalBytes(c, rows[i + 1..])
  {
    hide RowBytes;
    assert rows == rows[..i] + ([rows[i]] + rows[i + 1..]);
    TotalSplits(c, rows[..i], [rows[i]] + rows[i + 1..]);
    TotalSplits(c, [rows[i]], rows[i + 1..]);
    assert [rows[i]][..0] == [];
  }

  lemma {:induction false} InsertAllCountsBytes(c: Codec, cfg: Config, st: Store, texts: seq<string>, previous: Digest)
    requires BytesCounted(c, st) && InsertAll(c, cfg, st, texts, previous).Some?
    ensures BytesCounted(c, InsertAll(c, cfg, st, texts, previous).value)
    decreases |texts|
  {
    hide RowBytes, Stored;
    if texts != [] {
      var next := Insert(c, cfg, st, texts[0], previous).value;
      assert next.rows[..|next.rows| - 1] == st.rows;
      InsertAllCountsBytes(c, cfg, next, texts[1..], c.hash(previous, texts[0]));
    }
  }

  lemma AppendIsInsertAll(c: Codec, cfg: Config, st: Store, events: seq<Option<Payload>>)
    requires events != [] && Append(c, cfg, st, events).Ok?
    ensures forall i :: 0 <= i < |events| ==> events[i].Some?
    ensures InsertAll(c, cfg, st, Texts(c, events), TailHash(st.rows)) == Some(Append(c, cfg, st, events).value.0)
  {
    hide InsertAll, RowsAfter, ChainRows, AdditionalBytes, Sizes;
  }

  lemma OpCountsBytes(c: Codec, st: Store, op: LogOp)
    requires BytesCounted(c, st)
    ensures BytesCounted(c, ApplyOp(c, st, op))
  {
    hide TotalBytes, RowBytes, Append, InsertAll, TakenElsewhere;
    match op {
      case AppendBatch(cfg, events) =>
        if events == [] {
          EmptyAppendChangesNothing(c, cfg, st);
        } else if Append(c, cfg, st, events).Ok? {
          AppendIsInsertAll(c, cfg, st, events);
          InsertAllCountsBytes(c, cfg, st, Texts(c, events), TailHash(st.rows));
        }
      case DeleteRow(i) =>
        if i < |st.rows| {
          TotalAround(c, st.rows, i);
          TotalSplits(c, st.rows[..i], st.rows[i + 1..]);
        }
      case EditRow(i, row) =>
        if i < |st.rows| {
          var edited := st.rows[i := row.(sequence := st.rows[i].sequence)];
          TotalAround(c, st.rows, i);
          TotalAround(c, edited, i);
          assert edited[..i] == st.rows[..i] && edited[i + 1..] == st.rows[i + 1..];
        }
    }
  }

  /** In every history of appends, deletions and edits both counters are exactly those of the rows. */
  lemma {:induction false} CountersAreExact(c: Codec, h: History, i: nat)
    requires IsHistory(c, h) && i < |h.states|
    ensures h.states[i].usage == Some(Usage(|h.states[i].rows|, TotalBytes(c, h.states[i].rows)))
  {
    hide ApplyOp, TotalBytes;
    HistoryIsOrdered(c, h, i);
    BytesAreExact(c, h, i);
  }

  lemma {:induction false} BytesAreExact(c: Codec, h: History, i: nat)
    requires IsHistory(c, h) && i < |h.states|
    ensures BytesCounted(c, h.states[i])
  {
    hide ApplyOp;
    if i > 0 {
      BytesAreExact(c, h, i - 1);
      OpCountsBytes(c, h.states[i - 1], h.ops[i - 1]);
      assert h.states[i] == ApplyOp(c, h.states[i - 1], h.ops[i - 1]);
    }
  }

  lemma {:induction false} ChainRowsSize(c: Codec, cfg: Config, texts: seq<string>, previous: Digest, n: nat)
    requires SignsEd25519(cfg)
    ensures TotalBytes(c, ChainRows(c, cfg, texts, previous, n)) == AdditionalBytes(c, cfg, texts)
    decreases |texts|
  {
    if texts != [] {
      var hash := c.hash(previous, texts[0]);
      var row := Row(n + 1, texts[0], previous, hash, Signature(cfg, hash));
      ChainRowsSize(c, cfg, texts[1..], hash, n + 1);
      TotalSplits(c, [row], ChainRows(c, cfg, texts[1..], hash, n + 1));
      assert [row][..0] == [];
    }
  }

  /**
   On an intact log an append succeeds exactly when the object may write, there are at most 10,000 events of at most
   16 KiB and 64 MiB in all, and the log would stay within its two quotas, counted over its rows.
   */
  lemma AppendSucceedsIff(c: Codec, cfg: Config, st: Store, events: seq<Option<Payload>>)
    requires Sound(c) && CollisionFree(c) && SignsEd25519(cfg) && Intact(c, st)
    requires forall i :: 0 <= i < |events| ==> events[i].Some?
    ensures var rows := st.rows + ChainRows(c, cfg, Texts(c, events), TailHash(st.rows), |st.rows|);
            Append(c, cfg, st, events).Ok? <==>
            && !cfg.readOnly && |events| <= 10_000
            && (forall i :: 0 <= i < |events| ==> c.size(c.encode(events[i].value)) <= 16_384)
            && Sizes(c, events) <= 67_108_864
            && (events != [] ==> |rows| <= cfg.maxEvents && TotalBytes(c, rows) <= cfg.maxBytes)
  {
    AppendOnIntactLog(c, cfg, st, events);
    IntactUsage(c, st);
    hide Append, Intact, Sound, CollisionFree, SignsEd25519, ChainRows, TotalBytes, AdditionalBytes, Sizes;
    var texts := Texts(c, events);
    ChainRowsSize(c, cfg, texts, TailHash(st.rows), |st.rows|);
    ChainRowsAreNumbered(c, cfg, texts, TailHash(st.rows), |st.rows|);
    TotalSplits(c, st.rows, ChainRows(c, cfg, texts, TailHash(st.rows), |st.rows|));
  }

  lemma IntactUsage(c: Codec, st: Store)
    requires Intact(c, st)
    ensures st.usage == Some(Usage(|st.rows|, TotalBytes(c, st.rows)))
  {
  }

  // ---------------------------------------------------------------- what verification makes of an edit

  /** The row says what the other one says, about the same predecessor, and is signed if it has to be. */
  ghost predicate SaysTheSame(c: Codec, row: Row, was: Row, trusted: Trusted) {
    && row.previous == was.previous && row.hash == was.hash && c.decode(row.event) == c.decode(was.event)
    && SignedFor(row, trusted)
  }

  /** The row is a link behind the same predecessor, and signed if it has to be. */
  ghost predicate LinksOn(c: Codec, row: Row, was: Row, trusted: Trusted) {
    && row.previous == was.previous && c.decode(row.event).Some?
    && row.hash == c.hash(row.previous, c.encode(c.decode(row.event).value))
    && SignedFor(row, trusted)
  }

  lemma EditedRowLinks(c: Codec, rows: seq<Row>, trusted: Trusted, i: nat, row: Row)
    requires Verifies(c, rows, trusted) && i < |rows| && row.sequence == rows[i].sequence
    ensures Links(c, rows[i := row], trusted, i) <==> LinksOn(c, row, rows[i], trusted)
  {
    assert Links(c, rows, trusted, i);
    assert rows[i := row][..i] == rows[..i];
  }

  lemma OtherRowsLink(c: Codec, rows: seq<Row>, trusted: Trusted, i: nat, row: Row, j: nat)
    requires Verifies(c, rows, trusted) && i < |rows| && j < |rows| && i != j
    ensures Links(c, rows[i := row], trusted, j) <==> (j == i + 1 ==> row.hash == rows[i].hash)
  {
    var edited := rows[i := row];
    assert Links(c, rows, trusted, j);
    assert j > 0 ==> TailHash(edited[..j]) == edited[j - 1].hash && TailHash(rows[..j]) == rows[j - 1].hash;
  }

  lemma EditVerifiesIff(c: Codec, rows: seq<Row>, trusted: Trusted, i: nat, row: Row)
    requires Sound(c) && CollisionFree(c) && Verifies(c, rows, trusted)
    requires i < |rows| && row.sequence == rows[i].sequence
    ensures Verifies(c, rows[i := row], trusted) <==>
            if i + 1 < |rows| then SaysTheSame(c, row, rows[i], trusted) else LinksOn(c, row, rows[i], trusted)
  {
    var edited := rows[i := row];
    SameMeansLinked(c, rows, trusted, i, row);
    EditedRowLinks(c, rows, trusted, i, row);
    hide Links, SaysTheSame, LinksOn, Sound, CollisionFree;
    if Verifies(c, edited, trusted) {
      assert Links(c, edited, trusted, i);
      if i + 1 < |rows| {
        assert Links(c, edited, trusted, i + 1);
        OtherRowsLink(c, rows, trusted, i, row, i + 1);
      }
    }
    if LinksOn(c, row, rows[i], trusted) && (i + 1 < |rows| ==> row.hash == rows[i].hash) {
      forall j | 0 <= j < |edited| ensures Links(c, edited, trusted, j) {
        if j != i { OtherRowsLink(c, rows, trusted, i, row, j); }
      }
    }
  }

  lemma SameMeansLinked(c: Codec, rows: seq<Row>, trusted: Trusted, i: nat, row: Row)
    requires Sound(c) && CollisionFree(c) && Verifies(c, rows, trusted) && i < |rows|
    ensures SaysTheSame(c, row, rows[i], trusted) <==> LinksOn(c, row, rows[i], trusted) && row.hash == rows[i].hash
  {
    assert Links(c, rows, trusted, i);
    if LinksOn(c, row, rows[i], trusted) && row.hash == rows[i].hash {
      var x, y := c.decode(row.event).value, c.decode(rows[i].event).value;
      assert c.encode(x) == c.encode(y);
      assert c.decode(c.encode(x)) == Some(x) && c.decode(c.encode(y)) == Some(y);
    }
  }

  /**
   Verification notices an edit of one row of a whole log, unless the UNIQUE constraint refused it, or it
   left what the row says as it was, or it rewrote the last row into another link behind its predecessor.
   */
  lemma EditIsDetectedUnlessHarmless(c: Codec, st: Store, trusted: Trusted, i: nat, row: Row)
    requires Sound(c) && CollisionFree(c) && Authentic(c, st, trusted) && i < |st.rows|
    ensures VerifyFrom(c, Edit(c, st, i, row).rows, trusted, Genesis, 1).Ok? <==>
            || TakenElsewhere(st.rows, i, row.hash)
            || (if i + 1 < |st.rows| then SaysTheSame(c, row, st.rows[i], trusted)
                else LinksOn(c, row, st.rows[i], trusted))
  {
    hide Sound, CollisionFree, Intact, Verifies, VerifyFrom, TakenElsewhere;
    AuthenticVerifies(c, st, trusted, |st.rows|);
    assert st.rows[..|st.rows|] == st.rows;
    var rows := Edit(c, st, i, row).rows;
    VerifyIsExact(c, rows, trusted);
    EditVerifiesIff(c, st.rows, trusted, i, row.(sequence := st.rows[i].sequence));
  }

  // ---------------------------------------------------------------- the mutable log

  lemma NoEvents(c: Codec, events: seq<Option<Payload>>)
    ensures Texts(c, events[..0]) == [] && Sizes(c, events[..0]) == 0
  {
  }

  lemma OneMore(c: Codec, events: seq<Option<Payload>>, i: nat)
    requires i < |events| && forall j :: 0 <= j <= i ==> events[j].Some?
    ensures Texts(c, events[..i + 1]) == Texts(c, events[..i]) + [c.encode(events[i].value)]
    ensures Sizes(c, events[..i + 1]) == Sizes(c, events[..i]) + c.size(c.encode(events[i].value))
  {
    assert events[..i + 1][..i] == events[..i];
  }

  /** An event that is no metadata, too large or one too many spoils the batch. */
  lemma Unprepared(c: Codec, events: seq<Option<Payload>>, i: nat)
    requires i < |events|
    requires i >= MAX_BATCH_EVENTS || events[i].None? || c.size(c.encode(events[i].value)) > MAX_EVENT_BYTES
    ensures !Prepared(c, events)
  {
  }

  lemma PreparedAt(c: Codec, events: seq<Option<Payload>>)
    requires |events| <= MAX_BATCH_EVENTS
    requires forall i :: 0 <= i < |events| ==> events[i].Some? && Acceptable(c, events[i])
    requires Sizes(c, events) <= MAX_BATCH_BYTES
    ensures Prepared(c, events)
  {
  }

  predicate Acceptable(c: Codec, event: Option<Payload>) {
    event.Some? && c.size(c.encode(event.value)) <= MAX_EVENT_BYTES
  }

  lemma TooManyBytes(c: Codec, events: seq<Option<Payload>>, n: nat)
    requires n <= |events| && (forall j :: 0 <= j < n ==> events[j].Some?) && Sizes(c, events[..n]) > MAX_BATCH_BYTES
    ensures !Prepared(c, events)
  {
    if Prepared(c, events) {
      assert events == events[..n] + events[n..];
      SizesSplit(c, events[..n], events[n..]);
    }
  }

  lemma InsertAllStep(c: Codec, cfg: Config, st: Store, texts: seq<string>, i: nat, previous: Digest, n: nat)
    requires i < |texts|
    ensures var next, hash := Insert(c, cfg, st, texts[i], previous), c.hash(previous, texts[i]);
            && InsertAll(c, cfg, st, texts[i..], previous) ==
               (if next.Some? then InsertAll(c, cfg, next.value, texts[i + 1..], hash) else None)
            && ChainRows(c, cfg, texts[i..], previous, n) ==
               [Row(n + 1, texts[i], previous, hash, Signature(cfg, hash))] +
               ChainRows(c, cfg, texts[i + 1..], hash, n + 1)
  {
    hide Insert;
    assert texts[i..][0] == texts[i] && texts[i..][1..] == texts[i + 1..];
  }

  lemma InsertAllEnd(c: Codec, cfg: Config, st: Store, texts: seq<string>, previous: Digest, n: nat)
    ensures InsertAll(c, cfg, st, texts[|texts|..], previous) == Some(st)
    ensures ChainRows(c, cfg, texts[|texts|..], previous, n) == []
  {
  }

  class AuditLog {
    const codec: Codec
    const cfg: Config
    var rows: seq<Row>
    var last: nat
    var usage: Option<Usage>

    function Contents(): Store
      reads this
    {
      Store(rows, last, usage)
    }

    constructor (codec: Codec, cfg: Config)
      ensures Contents() == EMPTY && this.codec == codec && this.cfg == cfg
    {
      this.codec, this.cfg := codec, cfg;
      rows, last, usage := [], 0, Some(Usage(0, 0));
    }

    method Prepare(events: seq<Option<Payload>>) returns (r: Result<seq<string>>)
      ensures r == if Prepared(codec, events) then Ok(Texts(codec, events)) else Err(ValueError)
    {
      hide Prepared, Sizes, Texts;
      var texts: seq<string>, total := [], 0;
      NoEvents(codec, events);
      for i := 0 to |events|
        invariant i <= MAX_BATCH_EVENTS
        invariant forall j :: 0 <= j < i ==> Acceptable(codec, events[j])
        invariant texts == Texts(codec, events[..i]) && total == Sizes(codec, events[..i]) <= MAX_BATCH_BYTES
      {
        if i >= MAX_BATCH_EVENTS || events[i].None? {
          Unprepared(codec, events, i);
          return Err(ValueError);
        }
        var encoded := codec.encode(events[i].value);
        var size := codec.size(encoded);
        if size > MAX_EVENT_BYTES {
          Unprepared(codec, events, i);
          return Err(ValueError);
        }
        total := total + size;
        OneMore(codec, events, i);
        if total > MAX_BATCH_BYTES {
          TooManyBytes(codec, events, i + 1);
          return Err(ValueError);
        }
        texts := texts + [encoded];
      }
      assert events[..|events|] == events;
      PreparedAt(codec, events);
      return Ok(texts);
    }

    /** One INSERT and the trigger behind it; false when the UNIQUE constraint refuses the row. */
    method InsertRow(text: string, previous: Digest, hash: Digest) returns (ok: bool)
      requires hash == codec.hash(previous, text)
      modifies this
      ensures Insert(codec, cfg, old(Contents()), text, previous) == if ok then Some(Contents()) else None
      ensures !ok ==> Contents() == old(Contents())
    {
      if Stored(rows, hash) { return false; }
      last := Max(last, TailSequence(rows)) + 1;
      var row := Row(last, text, previous, hash, Signature(cfg, hash));
      rows := rows + [row];
      if usage.Some? { usage := Some(Usage(usage.value.count + 1, usage.value.bytes + RowBytes(codec, row))); }
      return true;
    }

    /** The insertion loop: the rows it stores and the rows it expects to have stored. */
    method InsertBatch(texts: seq<string>, first: Digest, initial: nat) returns (ok: bool, expected: seq<Row>)
      modifies this
      ensures var all := InsertAll(codec, cfg, old(Contents()), texts, first);
              ok == all.Some? && (ok ==> Contents() == all.value)
      ensures ok ==> expected == ChainRows(codec, cfg, texts, first, initial)
    {
      hide InsertAll, ChainRows, Insert;
      var previous := first;
      expected := [];
      assert texts[0..] == texts;
      for i := 0 to |texts|
        invariant InsertAll(codec, cfg, old(Contents()), texts, first) ==
                  InsertAll(codec, cfg, Contents(), texts[i..], previous)
        invariant |expected| == i
        invariant ChainRows(codec, cfg, texts, first, initial) ==
                  expected + ChainRows(codec, cfg, texts[i..], previous, initial + i)
      {
        InsertAllStep(codec, cfg, Contents(), texts, i, previous, initial + i);
        var hash := codec.hash(previous, texts[i]);
        ok := InsertRow(texts[i], previous, hash);
        if !ok { return; }
        expected := expected + [Row(initial + |expected| + 1, texts[i], previous, hash, Signature(cfg, hash))];
        previous := hash;
      }
      InsertAllEnd(codec, cfg, Contents(), texts, previous, initial + |texts|);
      ok := true;
    }

    method AppendMany(events: seq<Option<Payload>>) returns (r: Result<seq<Row>>)
      modifies this
      ensures match Append(codec, cfg, old(Contents()), events)
              case Err(e) => r == Err(e) && Contents() == old(Contents())
              case Ok((after, records)) => r == Ok(records) && Contents() == after
    {
      hide InsertAll, ChainRows, RowsAfter, AdditionalBytes, Prepared;
      if cfg.readOnly { return Err(IntegrityError); }
      var prepared := Prepare(events);
      if prepared.Err? { return Err(prepared.error); }
      AllSome(codec, events);
      var texts := prepared.value;
      if texts == [] { return Ok([]); }
      var initial := TailSequence(rows);
      if usage.None? || usage.value.count != initial { return Err(IntegrityError); }
      var bytes := AdditionalBytes(codec, cfg, texts);
      if !WithinQuotas(cfg, usage.value, |texts|, bytes) { return Err(IntegrityError); }
      var savedRows, savedLast, savedUsage := rows, last, usage;
      var ok, expected := InsertBatch(texts, TailHash(rows), initial);
      if !ok || RowsAfter(rows, initial) != expected ||
         usage != Some(Usage(initial + |texts|, savedUsage.value.bytes + bytes)) {
        rows, last, usage := savedRows, savedLast, savedUsage;
        return Err(IntegrityError);
      }
      return Ok(expected);
    }

    method Verify(trusted: Trusted) returns (r: Result<nat>)
      ensures r == if Verifies(codec, rows, trusted) then Ok(|rows|) else Err(IntegrityError)
    {
      VerifyIsExact(codec, rows, trusted);
      var previous, expected := Genesis, 1;
      for i := 0 to |rows|
        invariant expected == i + 1
        invariant VerifyFrom(codec, rows, trusted, Genesis, 1) ==
                  var rest := VerifyFrom(codec, rows[i..], trusted, previous, expected);
                  if rest.Ok? then Ok(rest.value + i) else rest
      {
        var row := rows[i];
        assert rows[i..][0] == row && rows[i..][1..] == rows[i + 1..];
        if row.sequence != expected { return Err(IntegrityError); }
        var event := codec.decode(row.event);
        if event.None? || row.previous != previous { return Err(IntegrityError); }
        var hash := codec.hash(previous, codec.encode(event.value));
        if row.hash != hash { return Err(IntegrityError); }
        if trusted.Some? && (row.signature.None? || !trusted.value(hash, row.signature.value)) {
          return Err(IntegrityError);
        }
        previous, expected := hash, expected + 1;
      }
      assert rows[|rows|..] == [];
      return Ok(expected - 1);
    }
  }
}
