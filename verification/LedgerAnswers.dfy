/**
 What every public call of the ledger answers and leaves behind, written out call by call: when it succeeds,
 which error it raises otherwise, and what becomes of every column of every row.
 */
module LedgerAnswers {
  import opened Outcomes
  import opened Clock
  import opened Ledger
  import opened LedgerClaims

  // ---------------------------------------------------------------- what a row is like

  /** The identity was used for other content. */
  predicate OtherContent(row: Row, r: Record) {
    row.digest != r.digest || row.plan != r.plan
  }

  /** No code of this version can have written the row. */
  predicate Corrupt(row: Row) {
    || row.state.Unknown?
    || (row.attempt.Some? && !ValidAttempt(row.attempt.value))
    || (row.state in {Known(BatchWriteStarted), Known(BatchUncertain)} && row.attempt.None?)
    || (row.contract.Some? && !ValidContract(row.contract.value))
  }

  /** The row has a token and an expiry that can be read. */
  predicate IsLeased(row: Row) {
    row.token.Some? && row.token.value != "" && row.expiry.Some? && Parse(row.expiry.value).Some?
  }

  /** The expiry is still ahead, in microseconds. */
  predicate LeaseRuns(row: Row, now: Utc) {
    IsLeased(row) && Micros(now) < Micros(Parse(row.expiry.value).value)
  }

  lemma {:induction false} ParsedIsValid(s: string)
    requires Parse(s).Some?
    ensures Valid(Parse(s).value)
  {
  }

  lemma LeaseRunsIsActive(row: Row, now: Utc)
    ensures HasLease(row) <==> IsLeased(row)
    ensures Active(row, now) <==> LeaseRuns(row, now)
  {
    hide Parse, Before, Micros;
    if IsLeased(row) {
      ParsedIsValid(row.expiry.value);
      MicrosOrder(now, Parse(row.expiry.value).value);
    }
  }

  lemma ReadableUnlessCorrupt(row: Row)
    ensures ReadState(row) == if Corrupt(row) then Err(IntegrityError) else Ok(row.state.state)
  {
  }

  // ---------------------------------------------------------------- claims

  predicate WithinLease(lease: int) {
    0 < lease <= 3_600_000_000
  }

  /** The group is well-formed, and its leases end before the calendar does. */
  predicate WithinLimits(records: seq<Record>, lease: int, now: Utc) {
    && WithinLease(lease) && 0 < |records| <= 10_000
    && (forall i, j :: 0 <= i < j < |records| ==> records[i].key != records[j].key)
    && Plus(now, lease).Some?
  }

  /** The row of the record cannot be claimed at all. */
  predicate Refused(t: Table, r: Record) {
    r.key in t && (OtherContent(t[r.key], r) || Corrupt(t[r.key]))
  }

  /** The record is the first of the group that is refused. */
  ghost predicate FirstRefused(t: Table, records: seq<Record>, i: nat) {
    i < |records| && Refused(t, records[i]) && forall j :: 0 <= j < i ==> !Refused(t, records[j])
  }

  /** A new identity is claimed. */
  predicate AnswersNew(r: Record, token: string, now: Utc, until: Utc, row: Row, answer: ClaimResult) {
    && row == Row(r.digest, r.plan, Known(Claimed), Iso(now), Iso(now), None, Some(token), Some(Iso(until)), None, None)
    && answer == ClaimResult(New, Claimed, r.digest, Some(token), Some(Iso(until)), None)
  }

  /** The disposition a row that is there gets. */
  ghost predicate Deserves(was: Row, now: Utc, d: Disposition) {
    && d != New
    && (d == AlreadyCommitted <==> was.state == Known(Committed))
    && (d == InProgress <==> was.state in {Known(Claimed), Known(ReplayClaimed)} && LeaseRuns(was, now))
    && (d == Recovered <==> was.state == Known(Claimed) && IsLeased(was) && !LeaseRuns(was, now))
  }

  /** A row that is there changes only if it is recovered; only a recovered row yields a token. */
  ghost predicate AnswersFound(was: Row, token: string, now: Utc, until: Utc, row: Row, answer: ClaimResult) {
    && Deserves(was, now, answer.disposition)
    && Known(answer.state) == was.state && answer.digest == was.digest && answer.attempt == was.attempt
    && if answer.disposition == Recovered then
         && row == was.(token := Some(token), expiry := Some(Iso(until)), updated := Iso(now), reason := None)
         && answer.token == Some(token) && answer.expiry == Some(Iso(until))
       else
         && row == was && answer.token == None
         && answer.expiry == if answer.disposition == InProgress then Some(Iso(Parse(was.expiry.value).value)) else None
  }

  ghost predicate Answers(
      was: Option<Row>, r: Record, token: string, now: Utc, until: Utc, row: Row, answer: ClaimResult)
  {
    match was
    case None => AnswersNew(r, token, now, until, row, answer)
    case Some(found) => AnswersFound(found, token, now, until, row, answer)
  }

  lemma ClaimRowAnswers(t: Table, r: Record, token: string, now: Utc, until: Utc)
    ensures match ClaimRow(Lookup(t, r.key), r, token, now, until)
            case Err(e) =>
              Refused(t, r) && e == if OtherContent(t[r.key], r) then ReplayDetected else IntegrityError
            case Ok(claim) =>
              !Refused(t, r) && Answers(Lookup(t, r.key), r, token, now, until, claim.row, claim.result)
  {
    if r.key in t {
      hide Parse, Iso, LeaseRuns, Active, Corrupt, ReadState;
      ReadableUnlessCorrupt(t[r.key]);
      LeaseRunsIsActive(t[r.key], now);
      KnownUnlessCorrupt(t[r.key]);
      hide HasLease;
    }
  }

  lemma KnownUnlessCorrupt(row: Row)
    ensures !Corrupt(row) ==> row.state.Known?
    ensures forall now :: LeaseRuns(row, now) ==> IsLeased(row)
  {
  }

  function RefusalOf(t: Table, r: Record): Error
    requires r.key in t
  {
    if OtherContent(t[r.key], r) then ReplayDetected else IntegrityError
  }

  /** What claiming the i-th record alone does, told by its row. */
  lemma ClaimAtAnswers(t: Table, records: seq<Record>, tokens: seq<string>, now: Utc, until: Utc, i: nat)
    requires |tokens| == |records| && i < |records|
    ensures match ClaimAt(t, records, tokens, now, until, i)
            case Err(e) => Refused(t, records[i]) && records[i].key in t && e == RefusalOf(t, records[i])
            case Ok(claim) =>
              && !Refused(t, records[i])
              && Answers(Lookup(t, records[i].key), records[i], tokens[i], now, until, claim.row, claim.result)
  {
    ClaimRowAnswers(t, records[i], tokens[i], now, until);
  }

  lemma WithinLimitsIsAccepted(records: seq<Record>, lease: int, now: Utc)
    requires WithinLimits(records, lease, now)
    ensures ValidLease(lease) && records != [] && |records| <= MAX_BATCH_ITEMS && DistinctKeys(records)
  {
  }

  /**
   `claim_many`, for a group within the limits: it fails if and only if some record reuses an identity for other
   content or meets a corrupt row, with the error of the first such record, and then nothing changes.
   */
  lemma ClaimsRefusedIff(db: Db, records: seq<Record>, tokens: seq<string>, lease: int, now: Utc)
    requires |tokens| == |records| && WithinLimits(records, lease, now)
    ensures var (after, reply) := Apply(db, Claims(records, tokens, lease, now));
            && (reply.Failed? <==> exists i :: 0 <= i < |records| && Refused(db.table, records[i]))
            && (reply.Failed? ==> after == db)
            && (reply.Failed? ==> exists i: nat :: FirstRefused(db.table, records, i) &&
                                                   reply.error == RefusalOf(db.table, records[i]))
  {
    hide ClaimRow, ClaimFold, Plus, Refused, RefusalOf, Answers, WithinLimits;
    WithinLimitsIsAccepted(records, lease, now);
    PlusIsThere(records, lease, now);
    var until: Utc := Plus(now, lease).value;
    var t := db.table;
    ClaimFoldIsParallel(t, records, tokens, now, until);
    forall i | 0 <= i < |records|
      ensures ClaimAt(t, records, tokens, now, until, i).Err? <==> Refused(t, records[i])
      ensures Refused(t, records[i]) ==>
              records[i].key in t && ClaimAt(t, records, tokens, now, until, i) == Err(RefusalOf(t, records[i]))
    {
      ClaimAtAnswers(t, records, tokens, now, until, i);
    }
    hide ClaimAt;
    var fold := ClaimFold(t, records, tokens, now, until);
    if fold.Err? {
      var i :| 0 <= i < |records| && ClaimAt(t, records, tokens, now, until, i) == Err(fold.error) &&
               forall j :: 0 <= j < i ==> ClaimAt(t, records, tokens, now, until, j).Ok?;
      assert FirstRefused(t, records, i);
    }
  }

  lemma PlusIsThere(records: seq<Record>, lease: int, now: Utc)
    requires WithinLimits(records, lease, now)
    ensures ValidLease(lease) && Plus(now, lease).Some? && Valid(Plus(now, lease).value)
  {
    hide Plus;
    PlusIsValid(now, lease);
  }

  /** Every record of a group that is not refused is answered as its row deserves, and no other row changes. */
  lemma ClaimsAnswered(db: Db, records: seq<Record>, tokens: seq<string>, lease: int, now: Utc, until: Utc)
    requires |tokens| == |records| && WithinLimits(records, lease, now) && Plus(now, lease) == Some(until)
    requires forall i :: 0 <= i < |records| ==> !Refused(db.table, records[i])
    ensures var (after, reply) := Apply(db, Claims(records, tokens, lease, now));
            && reply.Granted? && |reply.results| == |records| && after == db.(table := after.table)
            && (forall i :: 0 <= i < |records| ==>
                  && records[i].key in after.table
                  && Answers(Lookup(db.table, records[i].key), records[i], tokens[i], now, until,
                             after.table[records[i].key], reply.results[i]))
            && (forall k :: k !in RecordKeys(records) ==> Lookup(after.table, k) == Lookup(db.table, k))
  {
    hide ClaimRow, ClaimFold, Plus, Refused, RefusalOf, Answers, WithinLimits;
    WithinLimitsIsAccepted(records, lease, now);
    var t := db.table;
    ClaimFoldIsParallel(t, records, tokens, now, until);
    forall i | 0 <= i < |records|
      ensures var claim := ClaimAt(t, records, tokens, now, until, i);
              claim.Ok? && Answers(Lookup(t, records[i].key), records[i], tokens[i], now, until,
                                   claim.value.row, claim.value.result)
    {
      ClaimAtAnswers(t, records, tokens, now, until, i);
    }
  }

  /** Outside the limits nothing is read: no records are no claims, and everything else is an error. */
  lemma ClaimsOutsideLimits(db: Db, records: seq<Record>, tokens: seq<string>, lease: int, now: Utc)
    requires |tokens| == |records| && !WithinLimits(records, lease, now)
    ensures Apply(db, Claims(records, tokens, lease, now)) ==
            if WithinLease(lease) && records == [] then (db, Granted([]))
            else if WithinLease(lease) && |records| <= 10_000 && DistinctKeys(records) then (db, Failed(OverflowError))
            else (db, Failed(ValueError))
  {
    hide Plus, ClaimFold;
  }

  // ---------------------------------------------------------------- start and mark calls

  /** The row of the item has its content, its token and the given state, and its lease runs if it has to. */
  predicate Finds(t: Table, item: Item, state: State, leased: bool, now: Utc) {
    && item.record.key in t
    && var row := t[item.record.key];
       && row.digest == item.record.digest && row.plan == item.record.plan
       && row.state == Known(state) && row.token == Some(item.token)
       && (leased ==> row.expiry.Some? && TextBefore(Iso(now), row.expiry.value))
  }

  /** What a call writes into the columns it may change; a column it leaves alone is None. */
  datatype Effect = Effect(
    state: State, reason: Option<string>, attempt: Option<Option<string>>, contract: Option<Option<string>>)

  function Changed(row: Row, e: Effect, now: Utc): Row {
    Row(row.digest, row.plan, Known(e.state), row.created, Iso(now), e.reason, row.token, row.expiry,
        if e.attempt.Some? then e.attempt.value else row.attempt,
        if e.contract.Some? then e.contract.value else row.contract)
  }

  /** The call does what it says if its arguments are fine and it finds its row; otherwise it changes nothing. */
  predicate Does(db: Db, call: ScalarCall, item: Item, now: Utc, fine: bool, found: State, leased: bool, e: Effect) {
    Apply(db, One(call, item, now)) ==
      if !fine || !(0 < |item.token| <= 128) then (db, Failed(ValueError))
      else if !Finds(db.table, item, found, leased, now) then (db, Failed(IntegrityError))
      else (db.(table := db.table[item.record.key := Changed(db.table[item.record.key], e, now)]), Done)
  }

  predicate FineContract(c: Option<string>) {
    c.Some? ==> ValidContract(c.value)
  }

  lemma SingleShift(t: Table, item: Item, m: Move, now: Utc)
    ensures Shift(t, [item], m, now) ==
            if !Accepted([item], m) then Err(ValueError)
            else if !(item.record.key in t && Matches(t[item.record.key], item, m, now)) then Err(IntegrityError)
            else Ok(t[item.record.key := Moved(t[item.record.key], m, now)])
    ensures Accepted([item], m) <==>
            && ValidToken(item.token) && (m.attempt.Assign? ==> ValidAttempt(m.attempt.id))
            && (m.contract.Store? ==> FineContract(m.contract.contract))
  {
    hide Matches, Moved, ValidAttempt, ValidContract;
    assert [item][0] == item;
    assert ItemKeys([item]) == {item.record.key};
    if item.record.key in t {
      assert MoveAll(t, [item], m, now) == t[item.record.key := Moved(t[item.record.key], m, now)];
    }
  }

  /** Every single call: what it must find, whether the lease must run, and what it leaves. */
  lemma SingleCalls(db: Db, call: ScalarCall, item: Item, now: Utc)
    ensures match call
            case StartWrite(c) =>
              Does(db, call, item, now, FineContract(c), Claimed, true, Effect(WriteStarted, None, Some(None), Some(c)))
            case StartReplayWrite =>
              Does(db, call, item, now, true, ReplayClaimed, true, Effect(ReplayWriteStarted, None, None, None))
            case MarkCommitted =>
              Does(db, call, item, now, true, WriteStarted, false, Effect(Committed, None, None, None))
            case MarkReplayCommitted =>
              Does(db, call, item, now, true, ReplayWriteStarted, false, Effect(Committed, None, None, None))
            case MarkUncertain(why) =>
              Does(db, call, item, now, true, WriteStarted, false, Effect(Uncertain, Some(why), None, None))
            case MarkReplayUncertain(why) =>
              Does(db, call, item, now, true, ReplayWriteStarted, false, Effect(ReplayUncertain, Some(why), None, None))
            case MarkQuarantined(why, Claimed) =>
              Does(db, call, item, now, true, Claimed, true, Effect(Quarantined, Some(why), None, None))
            case MarkQuarantined(why, WriteStarted) =>
              Does(db, call, item, now, true, WriteStarted, false, Effect(Quarantined, Some(why), None, None))
            case MarkQuarantined(why, ReplayClaimed) =>
              Does(db, call, item, now, true, ReplayClaimed, true, Effect(ReplayQuarantined, Some(why), None, None))
            case MarkQuarantined(why, ReplayWriteStarted) =>
              Does(db, call, item, now, true, ReplayWriteStarted, false,
                   Effect(ReplayQuarantined, Some(why), None, None))
            case MarkQuarantined(_, _) =>
              Apply(db, One(call, item, now)) == (db, Failed(ValueError))
  {
    hide Iso, TextBefore, Shift, ValidContract, Accepted;
    if ScalarMove(call).Ok? { SingleShift(db.table, item, ScalarMove(call).value, now); }
  }

  // ---------------------------------------------------------------- calls for a batch

  /** The batch is of a lawful size, names no identity twice and has valid tokens. */
  predicate FineBatch(items: seq<Item>) {
    && |items| <= 10_000
    && (forall i, j :: 0 <= i < j < |items| ==> items[i].record.key != items[j].record.key)
    && (forall i :: 0 <= i < |items| ==> 0 < |items[i].token| <= 128)
  }

  predicate FindsAll(t: Table, items: seq<Item>, state: State, leased: bool, now: Utc) {
    forall i :: 0 <= i < |items| ==> Finds(t, items[i], state, leased, now)
  }

  function ChangedAll(t: Table, items: seq<Item>, e: Effect, now: Utc): Table {
    map k | k in t ::
      if exists i :: 0 <= i < |items| && items[i].record.key == k then Changed(t[k], e, now) else t[k]
  }

  /** All rows of the batch change alike, or nothing does; an empty batch does nothing. */
  predicate DoesAll(
      db: Db, call: BatchCall, items: seq<Item>, now: Utc, fine: bool, found: State, leased: bool, e: Effect)
  {
    Apply(db, Many(call, items, now)) ==
      if items == [] then (db, Done)
      else if !fine || !FineBatch(items) then (db, Failed(ValueError))
      else if !FindsAll(db.table, items, found, leased, now) then (db, Failed(IntegrityError))
      else (db.(table := ChangedAll(db.table, items, e, now)), Done)
  }

  predicate FineAttempt(id: string) {
    |id| == 32 && forall i :: 0 <= i < |id| ==> id[i] in "0123456789abcdef"
  }

  lemma FineAttemptIsValid(id: string)
    ensures FineAttempt(id) <==> ValidAttempt(id)
  {
    assert forall c: char :: c in "0123456789abcdef" <==> '0' <= c <= '9' || 'a' <= c <= 'f';
  }

  function EffectOf(m: Move): Effect {
    Effect(m.target, m.reason,
           match m.attempt { case Keep => None case Clear => Some(None) case Assign(id) => Some(Some(id)) },
           match m.contract { case Leave => None case Store(c) => Some(c) })
  }

  lemma BatchShift(t: Table, items: seq<Item>, m: Move, now: Utc)
    requires items != []
    ensures Accepted(items, m) <==>
            && FineBatch(items) && (m.attempt.Assign? ==> ValidAttempt(m.attempt.id))
            && (m.contract.Store? ==> FineContract(m.contract.contract))
    ensures AllMatch(t, items, m, now) <==> FindsAll(t, items, m.expected, m.unexpired, now)
    ensures MoveAll(t, items, m, now) == ChangedAll(t, items, EffectOf(m), now)
  {
    hide ValidAttempt, ValidContract, Iso, TextBefore;
    forall i | 0 <= i < |items|
      ensures items[i].record.key in t && Matches(t[items[i].record.key], items[i], m, now) <==>
              Finds(t, items[i], m.expected, m.unexpired, now)
    {
    }
    forall row ensures Moved(row, m, now) == Changed(row, EffectOf(m), now) {
    }
  }

  /** Every call for a batch. */
  lemma BatchCalls(db: Db, call: BatchCall, items: seq<Item>, now: Utc)
    ensures match call
            case StartWriteMany(id, c) =>
              DoesAll(db, call, items, now, FineAttempt(id) && FineContract(c), Claimed, true,
                      Effect(BatchWriteStarted, None, Some(Some(id)), Some(c)))
            case MarkCommittedMany =>
              DoesAll(db, call, items, now, true, BatchWriteStarted, false, Effect(Committed, None, None, None))
            case MarkUncertainMany(why) =>
              DoesAll(db, call, items, now, true, BatchWriteStarted, false,
                      Effect(BatchUncertain, Some(why), None, None))
            case MarkQuarantinedMany(why, Claimed) =>
              DoesAll(db, call, items, now, true, Claimed, true, Effect(Quarantined, Some(why), None, None))
            case MarkQuarantinedMany(why, BatchWriteStarted) =>
              DoesAll(db, call, items, now, true, BatchWriteStarted, false, Effect(Quarantined, Some(why), None, None))
            case MarkQuarantinedMany(_, _) =>
              Apply(db, Many(call, items, now)) == (db, Failed(ValueError))
  {
    hide FineBatch, FindsAll, ChangedAll, Accepted, AllMatch, MoveAll, FineAttempt, ValidAttempt, FineContract;
    var move := BatchMove(call);
    if move.Ok? && items != [] { BatchShift(db.table, items, move.value, now); }
    if call.StartWriteMany? { FineAttemptIsValid(call.attempt); }
  }

  // ---------------------------------------------------------------- rearming

  /** Why a rearm is refused, in the order in which the call finds out. */
  function RearmRefusal(t: Table, r: Record, expected: State, lease: int, now: Utc): Option<Error> {
    if expected == Committed || !WithinLease(lease) then Some(ValueError)
    else if Plus(now, lease).None? then Some(OverflowError)
    else if r.key !in t || OtherContent(t[r.key], r) || t[r.key].state != Known(expected) then Some(IntegrityError)
    else if expected in {Claimed, ReplayClaimed} && LeaseRuns(t[r.key], now) then Some(IntegrityError)
    else if Corrupt(t[r.key]) then Some(IntegrityError)
    else None
  }

  /**
   `rearm_for_retry`: refused exactly for a lease out of range, a row with other content or in another state, a
   running lease or a corrupt row; otherwise the row is claimed anew, as a replay unless it was quarantined, and
   keeps its reason, attempt id and contract.
   */
  lemma RearmAnswered(db: Db, r: Record, expected: State, token: string, lease: int, now: Utc)
    ensures var refusal := RearmRefusal(db.table, r, expected, lease, now);
            var (after, reply) := Apply(db, Rearms(r, expected, token, lease, now));
            && (refusal.Some? ==> after == db && reply == Failed(refusal.value))
            && (refusal.None? ==>
                  var target := if expected == Quarantined then Claimed else ReplayClaimed;
                  var was, until := db.table[r.key], Iso(Plus(now, lease).value);
                  && reply == Rearmed(ClaimResult(Recovered, target, r.digest, Some(token), Some(until), was.attempt))
                  && after == db.(table := db.table[r.key := Row(
                       was.digest, was.plan, Known(target), was.created, Iso(now), was.reason, Some(token), Some(until),
                       was.attempt, was.contract)]))
  {
    hide Plus, Iso, Corrupt, ReadState, Active, LeaseRuns;
    if r.key in db.table {
      ReadableUnlessCorrupt(db.table[r.key]);
      LeaseRunsIsActive(db.table[r.key], now);
    }
  }
}
