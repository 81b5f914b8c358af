/**
 The durable delivery ledger. A transaction is one atomic step on the `deliveries` table; tokens,
 attempt ids and clock readings are arguments of the call that draws them.
 */
module Ledger {
  import opened Outcomes
  import opened Clock

  // ---------------------------------------------------------------- rows

  datatype State =
    | Claimed | WriteStarted | BatchWriteStarted | ReplayClaimed | ReplayWriteStarted | Committed
    | Uncertain | BatchUncertain | ReplayUncertain | Quarantined | ReplayQuarantined

  /** The `state` column is TEXT: it can hold something that is no state at all. */
  datatype StateText = Known(state: State) | Unknown(text: string)

  datatype Key = Key(tenant: string, destination: string, transfer: string, id: string)

  /** The part of a transport record the ledger looks at. */
  datatype Record = Record(key: Key, digest: string, plan: string)

  datatype Row = Row(
    digest: string, plan: string, state: StateText, created: string, updated: string,
    reason: Option<string>, token: Option<string>, expiry: Option<string>,
    attempt: Option<string>, contract: Option<string>)

  type Table = map<Key, Row>

  /** A ledger file: whether it has the attempt-id column and the replay-fencing marker, and its rows. */
  datatype Db = Db(attemptColumn: bool, fenced: bool, table: Table)

  const MAX_BATCH_ITEMS := 10_000

  function Lookup(t: Table, k: Key): Option<Row> {
    if k in t then Some(t[k]) else None
  }

  predicate ValidToken(token: string) {
    0 < |token| <= 128
  }

  predicate ValidAttempt(id: string) {
    |id| == 32 && forall i :: 0 <= i < |id| ==> '0' <= id[i] <= '9' || 'a' <= id[i] <= 'f'
  }

  predicate ValidContract(id: string) {
    0 < |id| <= 128 && (forall i :: 0 <= i < |id| ==> ' ' <= id[i] <= '~') && id[0] != ' ' && id[|id| - 1] != ' '
  }

  predicate ValidLease(lease: int) {
    0 < lease <= MAX_CLAIM_DURATION
  }

  // ---------------------------------------------------------------- opening a file

  /** What the replay-fencing conversion does to one row that is older than the marker. */
  function Fence(row: Row, attemptColumn: bool): Row {
    var was := if attemptColumn then row else row.(attempt := None);
    match was.state
    case Known(Claimed) => was.(state := Known(ReplayClaimed))
    case Known(Quarantined) => was.(state := Known(ReplayQuarantined))
    case Known(WriteStarted) => if was.attempt.Some? then was.(state := Known(BatchWriteStarted)) else was
    case Known(Uncertain) => if was.attempt.Some? then was.(state := Known(BatchUncertain)) else was
    case _ => was
  }

  /** `_initialize`: create the table, or convert a file that does not carry the marker yet. */
  function Initialize(file: Option<Db>): Db {
    match file
    case None => Db(true, true, map[])
    case Some(db) =>
      if db.fenced then db.(attemptColumn := true)
      else Db(true, true, map k | k in db.table :: Fence(db.table[k], db.attemptColumn))
  }

  // ---------------------------------------------------------------- claims

  datatype Disposition = New | Recovered | InProgress | AlreadyCommitted | Ambiguous

  datatype ClaimResult = ClaimResult(
    disposition: Disposition, state: State, digest: string,
    token: Option<string>, expiry: Option<string>, attempt: Option<string>)

  datatype Claim = Claim(row: Row, result: ClaimResult)

  /** The checks every read of a stored row makes before trusting it. */
  function ReadState(row: Row): Result<State> {
    if row.state.Unknown? then Err(IntegrityError)
    else if row.attempt.Some? && !ValidAttempt(row.attempt.value) then Err(IntegrityError)
    else if row.state.state in {BatchWriteStarted, BatchUncertain} && row.attempt.None? then Err(IntegrityError)
    else if row.contract.Some? && !ValidContract(row.contract.value) then Err(IntegrityError)
    else Ok(row.state.state)
  }

  function Expiry(row: Row): Option<Utc> {
    var text :- row.expiry;
    var t :- Parse(text);
    Some(t)
  }

  predicate HasLease(row: Row) {
    row.token.Some? && row.token.value != "" && Expiry(row).Some?
  }

  /** The in-memory test: the row's lease is still running. */
  predicate Active(row: Row, now: Utc) {
    HasLease(row) && Before(now, Expiry(row).value)
  }

  /** The SQL test `claim_expires_at > now`. */
  predicate Unexpired(row: Row, now: Utc) {
    row.expiry.Some? && TextBefore(Iso(now), row.expiry.value)
  }

  function ClaimRow(row: Option<Row>, r: Record, token: string, now: Utc, until: Utc): Result<Claim> {
    match row
    case None =>
      Ok(Claim(
        Row(r.digest, r.plan, Known(Claimed), Iso(now), Iso(now), None, Some(token), Some(Iso(until)), None, None),
        ClaimResult(New, Claimed, r.digest, Some(token), Some(Iso(until)), None)))
    case Some(was) =>
      if was.digest != r.digest || was.plan != r.plan then Err(ReplayDetected)
      else
        var state :- ReadState(was);
        if state == Committed then
          Ok(Claim(was, ClaimResult(AlreadyCommitted, state, r.digest, None, None, was.attempt)))
        else if state in {Claimed, ReplayClaimed} && Active(was, now) then
          Ok(Claim(was, ClaimResult(InProgress, state, r.digest, None, Some(Iso(Expiry(was).value)), was.attempt)))
        else if state == Claimed && HasLease(was) then
          Ok(Claim(
            was.(token := Some(token), expiry := Some(Iso(until)), updated := Iso(now), reason := None),
            ClaimResult(Recovered, Claimed, r.digest, Some(token), Some(Iso(until)), was.attempt)))
        else
          Ok(Claim(was, ClaimResult(Ambiguous, state, r.digest, None, None, was.attempt)))
  }

  predicate DistinctKeys(records: seq<Record>) {
    forall i, j :: 0 <= i < j < |records| ==> records[i].key != records[j].key
  }

  /** Claiming the records left to right; the first failure is the outcome. */
  function ClaimFold(t: Table, records: seq<Record>, tokens: seq<string>, now: Utc, until: Utc)
    : Result<(Table, seq<ClaimResult>)>
    requires |tokens| == |records|
  {
    if records == [] then Ok((t, []))
    else
      var n := |records| - 1;
      var (before, results) :- ClaimFold(t, records[..n], tokens[..n], now, until);
      var claim :- ClaimRow(Lookup(before, records[n].key), records[n], tokens[n], now, until);
      Ok((before[records[n].key := claim.row], results + [claim.result]))
  }

  /** `claim_many`. */
  function ClaimMany(t: Table, records: seq<Record>, tokens: seq<string>, lease: int, now: Utc)
    : Result<(Table, seq<ClaimResult>)>
    requires |tokens| == |records|
  {
    if !ValidLease(lease) then Err(ValueError)
    else if records == [] then Ok((t, []))
    else if |records| > MAX_BATCH_ITEMS || !DistinctKeys(records) then Err(ValueError)
    else if Plus(now, lease).None? then Err(OverflowError)
    else
      PlusIsValid(now, lease);
      ClaimFold(t, records, tokens, now, Plus(now, lease).value)
  }

  // ---------------------------------------------------------------- fenced transitions

  datatype Item = Item(record: Record, token: string)

  datatype AttemptChange = Keep | Clear | Assign(id: string)
  datatype ContractChange = Leave | Store(contract: Option<string>)

  /** The arguments of `_transition` and `_transition_many`. */
  datatype Move = Move(
    target: State, expected: State, unexpired: bool, attempt: AttemptChange, contract: ContractChange,
    reason: Option<string>)

  /** The WHERE clause of the guarded UPDATE. */
  predicate Matches(row: Row, item: Item, m: Move, now: Utc) {
    && row.digest == item.record.digest && row.plan == item.record.plan
    && row.state == Known(m.expected) && row.token == Some(item.token)
    && (m.unexpired ==> Unexpired(row, now))
  }

  /** The SET clause of the guarded UPDATE. */
  function Moved(row: Row, m: Move, now: Utc): Row {
    row.(state := Known(m.target), updated := Iso(now), reason := m.reason,
         attempt := match m.attempt { case Keep => row.attempt case Clear => None case Assign(id) => Some(id) },
         contract := match m.contract { case Leave => row.contract case Store(c) => c })
  }

  function ItemKeys(items: seq<Item>): set<Key> {
    set i | 0 <= i < |items| :: items[i].record.key
  }

  predicate Accepted(items: seq<Item>, m: Move) {
    && |items| <= MAX_BATCH_ITEMS
    && (forall i, j :: 0 <= i < j < |items| ==> items[i].record.key != items[j].record.key)
    && (forall i :: 0 <= i < |items| ==> ValidToken(items[i].token))
    && (m.attempt.Assign? ==> ValidAttempt(m.attempt.id))
    && (m.contract.Store? && m.contract.contract.Some? ==> ValidContract(m.contract.contract.value))
  }

  predicate AllMatch(t: Table, items: seq<Item>, m: Move, now: Utc) {
    forall i :: 0 <= i < |items| ==> items[i].record.key in t && Matches(t[items[i].record.key], items[i], m, now)
  }

  function MoveAll(t: Table, items: seq<Item>, m: Move, now: Utc): Table {
    map k | k in t :: if k in ItemKeys(items) then Moved(t[k], m, now) else t[k]
  }

  /** A group of fenced transitions: every row moves, or none does. */
  function Shift(t: Table, items: seq<Item>, m: Move, now: Utc): Result<Table> {
    if items == [] then Ok(t)
    else if !Accepted(items, m) then Err(ValueError)
    else if !AllMatch(t, items, m, now) then Err(IntegrityError)
    else Ok(MoveAll(t, items, m, now))
  }

  // ---------------------------------------------------------------- rearming

  function RearmTarget(expected: State): State {
    if expected == Quarantined then Claimed else ReplayClaimed
  }

  /** `rearm_for_retry`. */
  function Rearm(t: Table, r: Record, expected: State, token: string, lease: int, now: Utc)
    : Result<(Table, ClaimResult)>
  {
    if expected == Committed || !ValidLease(lease) then Err(ValueError)
    else if Plus(now, lease).None? then Err(OverflowError)
    else
      var until := Iso(Plus(now, lease).value);
      if r.key !in t || t[r.key].digest != r.digest || t[r.key].plan != r.plan || t[r.key].state != Known(expected) then
        Err(IntegrityError)
      else
        var was := t[r.key];
        if expected in {Claimed, ReplayClaimed} && Active(was, now) then Err(IntegrityError)
        else
          var _ :- ReadState(was);
          var target := RearmTarget(expected);
          Ok((t[r.key := was.(state := Known(target), updated := Iso(now), token := Some(token),
                              expiry := Some(until))],
              ClaimResult(Recovered, target, r.digest, Some(token), Some(until), was.attempt)))
  }

  // ---------------------------------------------------------------- the public calls

  datatype ScalarCall =
    | StartWrite(contract: Option<string>) | StartReplayWrite
    | MarkCommitted | MarkReplayCommitted
    | MarkUncertain(reason: string) | MarkReplayUncertain(reason: string)
    | MarkQuarantined(reason: string, expected: State)

  datatype BatchCall =
    | StartWriteMany(attempt: string, contract: Option<string>)
    | MarkCommittedMany
    | MarkUncertainMany(reason: string)
    | MarkQuarantinedMany(reason: string, expected: State)

  function ScalarMove(call: ScalarCall): Result<Move> {
    match call
    case StartWrite(c) => Ok(Move(WriteStarted, Claimed, true, Clear, Store(c), None))
    case StartReplayWrite => Ok(Move(ReplayWriteStarted, ReplayClaimed, true, Keep, Leave, None))
    case MarkCommitted => Ok(Move(Committed, WriteStarted, false, Keep, Leave, None))
    case MarkReplayCommitted => Ok(Move(Committed, ReplayWriteStarted, false, Keep, Leave, None))
    case MarkUncertain(why) => Ok(Move(Uncertain, WriteStarted, false, Keep, Leave, Some(why)))
    case MarkReplayUncertain(why) => Ok(Move(ReplayUncertain, ReplayWriteStarted, false, Keep, Leave, Some(why)))
    case MarkQuarantined(why, expected) =>
      if expected !in {Claimed, WriteStarted, ReplayClaimed, ReplayWriteStarted} then Err(ValueError)
      else
        var target := if expected in {ReplayClaimed, ReplayWriteStarted} then ReplayQuarantined else Quarantined;
        Ok(Move(target, expected, expected in {Claimed, ReplayClaimed}, Keep, Leave, Some(why)))
  }

  function BatchMove(call: BatchCall): Result<Move> {
    match call
    case StartWriteMany(id, c) => Ok(Move(BatchWriteStarted, Claimed, true, Assign(id), Store(c), None))
    case MarkCommittedMany => Ok(Move(Committed, BatchWriteStarted, false, Keep, Leave, None))
    case MarkUncertainMany(why) => Ok(Move(BatchUncertain, BatchWriteStarted, false, Keep, Leave, Some(why)))
    case MarkQuarantinedMany(why, expected) =>
      if expected !in {Claimed, BatchWriteStarted} then Err(ValueError)
      else Ok(Move(Quarantined, expected, expected == Claimed, Keep, Leave, Some(why)))
  }

  /** One call of one worker, with the values it draws. */
  datatype Op =
    | Reopen
    | Claims(records: seq<Record>, tokens: seq<string>, lease: int, now: Utc)
    | One(scalar: ScalarCall, item: Item, now: Utc)
    | Many(batch: BatchCall, items: seq<Item>, now: Utc)
    | Rearms(record: Record, expected: State, token: string, lease: int, now: Utc)
  {
    predicate WellFormed() { Claims? ==> |tokens| == |records| }
  }

  datatype Reply = Done | Granted(results: seq<ClaimResult>) | Rearmed(result: ClaimResult) | Failed(error: Error)

  function ShiftDb(db: Db, move: Result<Move>, items: seq<Item>, now: Utc): (Db, Reply) {
    match move
    case Err(e) => (db, Failed(e))
    case Ok(m) =>
      match Shift(db.table, items, m, now)
      case Err(e) => (db, Failed(e))
      case Ok(t) => (db.(table := t), Done)
  }

  /** The effect and the reply of one call: the whole protocol. */
  function Apply(db: Db, op: Op): (Db, Reply)
    requires op.WellFormed()
  {
    match op
    case Reopen => (Initialize(Some(db)), Done)
    case Claims(records, tokens, lease, now) => (
      match ClaimMany(db.table, records, tokens, lease, now)
      case Err(e) => (db, Failed(e))
      case Ok((t, results)) => (db.(table := t), Granted(results)))
    case One(call, item, now) => ShiftDb(db, ScalarMove(call), [item], now)
    case Many(call, items, now) => ShiftDb(db, BatchMove(call), items, now)
    case Rearms(record, expected, token, lease, now) =>
      match Rearm(db.table, record, expected, token, lease, now)
      case Err(e) => (db, Failed(e))
      case Ok((t, result)) => (db.(table := t), Rearmed(result))
  }

  /** The rows `get_batch_attempt` selects. */
  function Members(t: Table, id: string): set<Key> {
    set k | k in t && t[k].attempt == Some(id)
  }

  // ---------------------------------------------------------------- the mutable ledger

  lemma {:induction false} ClaimFoldStops(t: Table, records: seq<Record>, tokens: seq<string>,
      now: Utc, until: Utc, n: nat)
    requires |tokens| == |records| && n <= |records|
    requires ClaimFold(t, records[..n], tokens[..n], now, until).Err?
    ensures ClaimFold(t, records, tokens, now, until) == ClaimFold(t, records[..n], tokens[..n], now, until)
  {
    hide ClaimRow;
    if n < |records| {
      var m := |records| - 1;
      assert records[..m][..n] == records[..n] && tokens[..m][..n] == tokens[..n];
      ClaimFoldStops(t, records[..m], tokens[..m], now, until, n);
    } else {
      assert records[..n] == records && tokens[..n] == tokens;
    }
  }

  lemma ClaimFoldOfNone(t: Table, now: Utc, until: Utc)
    ensures ClaimFold(t, [], [], now, until) == Ok((t, []))
  {
  }

  lemma ClaimFoldStep(t: Table, records: seq<Record>, tokens: seq<string>, now: Utc, until: Utc, i: nat,
                      before: Table, results: seq<ClaimResult>)
    requires |tokens| == |records| && i < |records|
    requires ClaimFold(t, records[..i], tokens[..i], now, until) == Ok((before, results))
    ensures var claim := ClaimRow(Lookup(before, records[i].key), records[i], tokens[i], now, until);
            ClaimFold(t, records[..i + 1], tokens[..i + 1], now, until) ==
            if claim.Err? then Err(claim.error)
            else Ok((before[records[i].key := claim.value.row], results + [claim.value.result]))
  {
    hide ClaimRow;
    assert records[..i + 1][..i] == records[..i] && tokens[..i + 1][..i] == tokens[..i];
  }

  /** A lease taken now is running now. */
  lemma NewLeaseIsActive(now: Utc, lease: int)
    requires ValidLease(lease) && Plus(now, lease).Some?
    ensures forall r: Row ::
            r.token.Some? && r.token.value != "" && r.expiry == Some(Iso(Plus(now, lease).value)) ==> Active(r, now)
  {
    PlusIsLater(now, lease);
    IsoRoundTrip(Plus(now, lease).value);
    hide Iso, Parse, Plus, Before;
  }

  // ---------------------------------------------------------------- ordered listings

  datatype Entry = Entry(key: Key, row: Row)

  predicate InOrder(a: Entry, b: Entry) {
    !TextBefore(b.row.digest, a.row.digest)
  }

  ghost predicate AreRows(t: Table, keys: set<Key>, entries: seq<Entry>) {
    && (forall i :: 0 <= i < |entries| ==>
          entries[i].key in keys && entries[i].key in t && entries[i].row == t[entries[i].key])
    && (forall k :: k in keys ==> exists i :: 0 <= i < |entries| && entries[i].key == k)
  }

  ghost predicate IsListed(entries: seq<Entry>, k: Key) {
    exists i :: 0 <= i < |entries| && entries[i].key == k
  }

  ghost predicate Ascending(entries: seq<Entry>) {
    forall i, j :: 0 <= i < j < |entries| ==> entries[i].key != entries[j].key && InOrder(entries[i], entries[j])
  }

  /** The rows of `keys`, each once, by ascending record digest. */
  ghost predicate Lists(t: Table, keys: set<Key>, entries: seq<Entry>) {
    AreRows(t, keys, entries) && Ascending(entries)
  }

  lemma RowsInserted(t: Table, keys: set<Key>, entries: seq<Entry>, e: Entry, p: nat)
    requires AreRows(t, keys, entries) && e.key in t && e.row == t[e.key] && p <= |entries|
    ensures AreRows(t, keys + {e.key}, entries[..p] + [e] + entries[p..])
  {
    var more := entries[..p] + [e] + entries[p..];
    assert more[p] == e;
    forall k | k in keys + {e.key} ensures exists i :: 0 <= i < |more| && more[i].key == k {
      if k in keys {
        var i :| 0 <= i < |entries| && entries[i].key == k;
        assert more[if i < p then i else i + 1].key == k;
      }
    }
  }

  lemma NewEntryComesBefore(a: Entry, e: Entry, b: Entry)
    requires !InOrder(a, e) && (a == b || InOrder(a, b))
    ensures InOrder(e, b)
  {
    if a == b {
      Asymmetric(e.row.digest, b.row.digest);
    } else {
      TextChain(e.row.digest, a.row.digest, b.row.digest);
      Asymmetric(e.row.digest, b.row.digest);
    }
  }

  lemma AscendingInserted(entries: seq<Entry>, e: Entry, p: nat)
    requires Ascending(entries) && p <= |entries| && forall i :: 0 <= i < |entries| ==> entries[i].key != e.key
    requires forall i :: 0 <= i < p ==> InOrder(entries[i], e)
    requires p < |entries| ==> !InOrder(entries[p], e)
    ensures Ascending(entries[..p] + [e] + entries[p..])
  {
    hide InOrder;
    forall j | p <= j < |entries| ensures InOrder(e, entries[j]) {
      NewEntryComesBefore(entries[p], e, entries[j]);
    }
  }

  /** `SELECT ... ORDER BY record_digest`. */
  method Select(t: Table, keys: set<Key>) returns (entries: seq<Entry>)
    requires keys <= t.Keys
    ensures Lists(t, keys, entries)
  {
    hide AreRows, Ascending, InOrder;
    entries := [];
    var left, listed: set<Key> := keys, {};
    NothingListed(t);
    while left != {}
      invariant left !! listed && left + listed == keys
      invariant Lists(t, listed, entries)
    {
      var k :| k in left;
      var e := Entry(k, t[k]);
      var p := 0;
      while p < |entries| && InOrder(entries[p], e)
        invariant p <= |entries|
        invariant forall i :: 0 <= i < p ==> InOrder(entries[i], e)
      {
        p := p + 1;
      }
      KeysOfRows(t, listed, entries);
      RowsInserted(t, listed, entries, e, p);
      AscendingInserted(entries, e, p);
      entries := entries[..p] + [e] + entries[p..];
      left, listed := left - {k}, listed + {k};
    }
    assert listed == keys;
  }

  lemma KeysOfRows(t: Table, keys: set<Key>, entries: seq<Entry>)
    requires AreRows(t, keys, entries)
    ensures forall i :: 0 <= i < |entries| ==> entries[i].key in keys
    ensures forall k :: IsListed(entries, k) <==> k in keys
  {
  }

  lemma NothingListed(t: Table)
    ensures Lists(t, {}, [])
  {
  }

  class DeliveryLedger {
    var attemptColumn: bool
    var fenced: bool
    var table: Table

    function Contents(): Db
      reads this
    {
      Db(attemptColumn, fenced, table)
    }

    constructor (file: Option<Db>)
      ensures Contents() == Initialize(file) && fenced && attemptColumn
      ensures file.None? ==> table == map[]
      ensures file.Some? ==> table.Keys == file.value.table.Keys && (file.value.fenced ==> table == file.value.table)
      ensures file.Some? && !file.value.fenced ==>
              forall k :: k in table ==> table[k].state !in {Known(Claimed), Known(Quarantined)}
    {
      var db := Initialize(file);
      attemptColumn, fenced, table := db.attemptColumn, db.fenced, db.table;
    }

    method ClaimMany(records: seq<Record>, tokens: seq<string>, lease: int, now: Utc)
      returns (r: Result<seq<ClaimResult>>)
      requires |tokens| == |records|
      modifies this`table
      ensures Apply(old(Contents()), Claims(records, tokens, lease, now)) ==
              (Contents(), if r.Ok? then Granted(r.value) else Failed(r.error))
    {
      hide ClaimRow, ClaimFold, Plus, DaysInMonth;
      if !ValidLease(lease) { return Err(ValueError); }
      if records == [] { return Ok([]); }
      if |records| > MAX_BATCH_ITEMS || !DistinctKeys(records) { return Err(ValueError); }
      var until := Plus(now, lease);
      if until.None? { return Err(OverflowError); }
      PlusIsValid(now, lease);
      var saved := table;
      var results := [];
      ClaimFoldOfNone(saved, now, until.value);
      for i := 0 to |records|
        invariant ClaimFold(saved, records[..i], tokens[..i], now, until.value) == Ok((table, results))
      {
        var claim := ClaimRow(Lookup(table, records[i].key), records[i], tokens[i], now, until.value);
        ClaimFoldStep(saved, records, tokens, now, until.value, i, table, results);
        if claim.Err? {
          ClaimFoldStops(saved, records, tokens, now, until.value, i + 1);
          table := saved;
          return Err(claim.error);
        }
        table := table[records[i].key := claim.value.row];
        results := results + [claim.value.result];
      }
      assert records[..|records|] == records && tokens[..|records|] == tokens;
      return Ok(results);
    }

    method Transition(item: Item, m: Move, now: Utc) returns (r: Result<()>)
      requires !m.attempt.Assign?
      modifies this`table
      ensures match Shift(old(table), [item], m, now)
              case Err(e) => r == Err(e) && table == old(table)
              case Ok(t) => r == Ok(()) && table == t
    {
      if !ValidToken(item.token) { return Err(ValueError); }
      if m.contract.Store? && m.contract.contract.Some? && !ValidContract(m.contract.contract.value) {
        return Err(ValueError);
      }
      var k := item.record.key;
      assert ItemKeys([item]) == {k} by { assert [item][0] == item; }
      if k !in table || !Matches(table[k], item, m, now) {
        assert [item][0] == item;
        return Err(IntegrityError);
      }
      table := table[k := Moved(table[k], m, now)];
      return Ok(());
    }

    method TransitionMany(items: seq<Item>, m: Move, now: Utc) returns (r: Result<()>)
      modifies this`table
      ensures match Shift(old(table), items, m, now)
              case Err(e) => r == Err(e) && table == old(table)
              case Ok(t) => r == Ok(()) && table == t
    {
      if items == [] { return Ok(()); }
      if !Accepted(items, m) { return Err(ValueError); }
      hide Matches, Moved;
      var saved := table;
      for i := 0 to |items|
        invariant AllMatch(saved, items[..i], m, now)
        invariant table == MoveAll(saved, items[..i], m, now)
      {
        var k := items[i].record.key;
        assert k !in ItemKeys(items[..i]);
        if k !in table || !Matches(table[k], items[i], m, now) {
          table := saved;
          return Err(IntegrityError);
        }
        table := table[k := Moved(table[k], m, now)];
        assert ItemKeys(items[..i + 1]) == ItemKeys(items[..i]) + {k} by {
          assert items[..i + 1][i] == items[i];
        }
      }
      assert items[..|items|] == items;
      return Ok(());
    }

    method RearmForRetry(record: Record, expected: State, token: string, lease: int, now: Utc)
      returns (r: Result<ClaimResult>)
      modifies this`table
      ensures Apply(old(Contents()), Rearms(record, expected, token, lease, now)) ==
              (Contents(), if r.Ok? then Rearmed(r.value) else Failed(r.error))
      ensures r.Err? ==> table == old(table)
      ensures r.Ok? ==>
        && record.key in old(table) && record.key in table && table == old(table)[record.key := table[record.key]]
        && var was, row := old(table)[record.key], table[record.key];
           && !(was.state in {Known(Claimed), Known(ReplayClaimed)} && Active(was, now))
           && was.state != Known(Committed)
           && row.token == Some(token) == r.value.token && (token != "" ==> Active(row, now))
           && row.state in {Known(Claimed), Known(ReplayClaimed)}
           && (row.state == Known(Claimed) <==> was.state == Known(Quarantined))
           && row.attempt == was.attempt && row.contract == was.contract
    {
      if expected == Committed || !ValidLease(lease) { return Err(ValueError); }
      var until := Plus(now, lease);
      if until.None? { return Err(OverflowError); }
      var row := Lookup(table, record.key);
      if row.None? || row.value.digest != record.digest || row.value.plan != record.plan ||
         row.value.state != Known(expected) {
        return Err(IntegrityError);
      }
      if expected in {Claimed, ReplayClaimed} && Active(row.value, now) { return Err(IntegrityError); }
      var checked := ReadState(row.value);
      if checked.Err? { return Err(checked.error); }
      var target := RearmTarget(expected);
      NewLeaseIsActive(now, lease);
      table := table[record.key := row.value.(
        state := Known(target), updated := Iso(now), token := Some(token), expiry := Some(Iso(until.value)))];
      return Ok(ClaimResult(Recovered, target, record.digest, Some(token), Some(Iso(until.value)), row.value.attempt));
    }

    /** Every public call, dispatched as the public methods dispatch to the private ones. */
    method Execute(op: Op) returns (reply: Reply)
      requires op.WellFormed()
      modifies this
      ensures (Contents(), reply) == Apply(old(Contents()), op)
    {
      match op {
        case Reopen =>
          var db := Initialize(Some(Contents()));
          attemptColumn, fenced, table := db.attemptColumn, db.fenced, db.table;
          reply := Done;
        case Claims(records, tokens, lease, now) =>
          var r := ClaimMany(records, tokens, lease, now);
          reply := if r.Ok? then Granted(r.value) else Failed(r.error);
        case One(call, item, now) =>
          var move := ScalarMove(call);
          if move.Err? { return Failed(move.error); }
          var r := Transition(item, move.value, now);
          reply := if r.Ok? then Done else Failed(r.error);
        case Many(call, items, now) =>
          var move := BatchMove(call);
          if move.Err? { return Failed(move.error); }
          var r := TransitionMany(items, move.value, now);
          reply := if r.Ok? then Done else Failed(r.error);
        case Rearms(record, expected, token, lease, now) =>
          var r := RearmForRetry(record, expected, token, lease, now);
          reply := if r.Ok? then Rearmed(r.value) else Failed(r.error);
      }
    }

    /** `get_batch_attempt`. */
    method GetBatchAttempt(id: string) returns (r: Result<seq<Entry>>)
      ensures r.Ok? <==> ValidAttempt(id) && |Members(table, id)| <= MAX_BATCH_ITEMS &&
                         forall k :: k in Members(table, id) ==> ReadState(table[k]).Ok?
      ensures r.Ok? ==> Lists(table, Members(table, id), r.value)
      ensures r.Ok? ==> forall k :: IsListed(r.value, k) <==> k in table && table[k].attempt == Some(id)
      ensures r.Err? ==> r.error == if ValidAttempt(id) then IntegrityError else ValueError
    {
      if !ValidAttempt(id) { return Err(ValueError); }
      var members := Members(table, id);
      if |members| > MAX_BATCH_ITEMS { return Err(IntegrityError); }
      if exists k :: k in members && ReadState(table[k]).Err? { return Err(IntegrityError); }
      var entries := Select(table, members);
      KeysOfRows(table, members, entries);
      return Ok(entries);
    }
  }
}
