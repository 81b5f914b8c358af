/**
 Safety of the delivery ledger over whole runs: any number of workers, in any interleaving, with
 any clock readings and with reopening at any point.
 */
module LedgerRuns {
  import opened Outcomes
  import opened Clock
  import opened Ledger
  import opened LedgerClaims

  // ---------------------------------------------------------------- runs

  /** A ledger file is opened and then receives `ops`; `states[i]` is the ledger before `ops[i]`. */
  datatype Run = Run(file: Option<Db>, states: seq<Db>, ops: seq<Op>)

  ghost predicate IsRun(run: Run) {
    && |run.states| == |run.ops| + 1
    && run.states[0] == Initialize(run.file)
    && forall i :: 0 <= i < |run.ops| ==>
         run.ops[i].WellFormed() && run.states[i + 1] == Apply(run.states[i], run.ops[i]).0
  }

  predicate Succeeds(db: Db, op: Op)
    requires op.WellFormed()
  {
    !Apply(db, op).1.Failed?
  }

  /** `op` presents `token` for the identity `k`. */
  ghost predicate Presents(op: Op, k: Key, token: string) {
    match op
    case One(_, item, _) => item.record.key == k && item.token == token
    case Many(_, items, _) => exists i :: 0 <= i < |items| && items[i].record.key == k && items[i].token == token
    case _ => false
  }

  predicate StartsOrdinaryWrite(op: Op) {
    (op.One? && op.scalar.StartWrite?) || (op.Many? && op.batch.StartWriteMany?)
  }

  predicate StartsWrite(op: Op) {
    StartsOrdinaryWrite(op) || (op.One? && op.scalar.StartReplayWrite?)
  }

  /** `op` crosses the write boundary for `k` with `token`. */
  ghost predicate Crosses(db: Db, op: Op, k: Key, token: string)
    requires op.WellFormed()
  {
    Succeeds(db, op) && Presents(op, k, token) && StartsWrite(op)
  }

  ghost predicate Quarantines(db: Db, op: Op, k: Key, token: string)
    requires op.WellFormed()
  {
    && Succeeds(db, op) && Presents(op, k, token)
    && ((op.One? && op.scalar.MarkQuarantined?) || (op.Many? && op.batch.MarkQuarantinedMany?))
  }

  predicate RearmsKey(db: Db, op: Op, k: Key)
    requires op.WellFormed()
  {
    Succeeds(db, op) && op.Rearms? && op.record.key == k
  }

  /** `op` is a claim that hands a token for `k` to its caller. */
  ghost predicate HandsOut(db: Db, op: Op, k: Key)
    requires op.WellFormed()
  {
    var reply := Apply(db, op).1;
    && op.Claims? && reply.Granted? && |reply.results| == |op.records|
    && exists i :: 0 <= i < |op.records| && op.records[i].key == k && reply.results[i].token.Some?
  }

  // ---------------------------------------------------------------- what one step does to one row

  datatype Change =
    | Same
    | Inserted(i: nat, until: Utc)
    | Taken(i: nat, until: Utc)
    | Shifted(item: Item, move: Move)
    | Revived(until: Utc)

  function OpMove(op: Op): Result<Move>
    requires op.One? || op.Many?
  {
    if op.One? then ScalarMove(op.scalar) else BatchMove(op.batch)
  }

  function OpItems(op: Op): seq<Item>
    requires op.One? || op.Many?
  {
    if op.One? then [op.item] else op.items
  }

  /** The step `op` turns the row `was` of identity `k` into `now`, and `c` says how. */
  ghost predicate Explains(op: Op, k: Key, was: Option<Row>, now: Option<Row>, c: Change) {
    match c
    case Same => now == was
    case Inserted(i, until) =>
      && op.Claims? && |op.tokens| == |op.records| && i < |op.records| && op.records[i].key == k
      && was.None? && now.Some?
      && now.value.state == Known(Claimed) && now.value.attempt.None? && now.value.contract.None?
      && now.value.token == Some(op.tokens[i]) && now.value.expiry == Some(Iso(until))
    case Taken(i, until) =>
      && op.Claims? && |op.tokens| == |op.records| && i < |op.records| && op.records[i].key == k
      && was.Some? && was.value.state == Known(Claimed)
      && now == Some(was.value.(token := Some(op.tokens[i]), expiry := Some(Iso(until)),
                                updated := Iso(op.now), reason := None))
    case Shifted(item, m) =>
      && (op.One? || op.Many?) && item in OpItems(op) && item.record.key == k && OpMove(op) == Ok(m)
      && Accepted(OpItems(op), m)
      && was.Some? && Matches(was.value, item, m, op.now) && now == Some(Moved(was.value, m, op.now))
    case Revived(until) =>
      && op.Rearms? && op.record.key == k && op.expected != Committed
      && was.Some? && was.value.state == Known(op.expected) && ReadState(was.value).Ok?
      && now == Some(was.value.(state := Known(RearmTarget(op.expected)), updated := Iso(op.now),
                                token := Some(op.token), expiry := Some(Iso(until))))
  }

  function ClaimChange(claim: Claim, i: nat, until: Utc): Change {
    if claim.result.disposition == New then Inserted(i, until)
    else if claim.result.disposition == Recovered then Taken(i, until)
    else Same
  }

  lemma ClaimExplained(op: Op, was: Option<Row>, i: nat, until: Utc, claim: Claim)
    requires op.Claims? && op.WellFormed() && i < |op.records|
    requires ClaimRow(was, op.records[i], op.tokens[i], op.now, until) == Ok(claim)
    ensures Explains(op, op.records[i].key, was, Some(claim.row), ClaimChange(claim, i, until))
    ensures claim.result.token.Some? ==> ClaimChange(claim, i, until) != Same
  {
  }

  lemma ClaimStepAt(db: Db, op: Op, i: nat) returns (until: Utc, claim: Claim)
    requires op.Claims? && op.WellFormed() && Succeeds(db, op) && i < |op.records|
    ensures DistinctKeys(op.records)
    ensures var results := Apply(db, op).1.results; |results| == |op.records| && claim.result == results[i]
    ensures ClaimRow(Lookup(db.table, op.records[i].key), op.records[i], op.tokens[i], op.now, until) == Ok(claim)
    ensures Lookup(Apply(db, op).0.table, op.records[i].key) == Some(claim.row)
  {
    PlusIsValid(op.now, op.lease);
    until := Plus(op.now, op.lease).value;
    ClaimFoldIsParallel(db.table, op.records, op.tokens, op.now, until);
    claim := ClaimAt(db.table, op.records, op.tokens, op.now, until, i).value;
  }

  lemma ClaimStepElsewhere(db: Db, op: Op, k: Key)
    requires op.Claims? && op.WellFormed() && k !in RecordKeys(op.records)
    ensures Lookup(Apply(db, op).0.table, k) == Lookup(db.table, k)
  {
    if Succeeds(db, op) && op.records != [] {
      PlusIsValid(op.now, op.lease);
      ClaimFoldIsParallel(db.table, op.records, op.tokens, op.now, Plus(op.now, op.lease).value);
    }
  }

  lemma ClaimStep(db: Db, op: Op, k: Key) returns (c: Change)
    requires op.Claims? && op.WellFormed()
    ensures Explains(op, k, Lookup(db.table, k), Lookup(Apply(db, op).0.table, k), c)
    ensures HandsOut(db, op, k) ==> c.Inserted? || c.Taken?
    ensures !c.Shifted? && !c.Revived?
  {
    if Succeeds(db, op) && k in RecordKeys(op.records) {
      var i :| 0 <= i < |op.records| && op.records[i].key == k;
      var until, claim := ClaimStepAt(db, op, i);
      ClaimExplained(op, Lookup(db.table, k), i, until, claim);
      c := ClaimChange(claim, i, until);
    } else {
      if Succeeds(db, op) { ClaimStepElsewhere(db, op, k); }
      c := Same;
    }
  }

  lemma ShiftStep(db: Db, op: Op, k: Key) returns (c: Change)
    requires op.One? || op.Many?
    ensures Explains(op, k, Lookup(db.table, k), Lookup(Apply(db, op).0.table, k), c)
    ensures Succeeds(db, op) && k in ItemKeys(OpItems(op)) ==> c.Shifted?
    ensures c.Shifted? ==> Succeeds(db, op)
  {
    c := Same;
    if Succeeds(db, op) && k in ItemKeys(OpItems(op)) {
      var items := OpItems(op);
      var i :| 0 <= i < |items| && items[i].record.key == k;
      c := Shifted(items[i], OpMove(op).value);
    }
  }

  /** Every step explains what happens to every row. */
  lemma Step(db: Db, op: Op, k: Key) returns (c: Change)
    requires op.WellFormed() && db.fenced
    ensures Explains(op, k, Lookup(db.table, k), Lookup(Apply(db, op).0.table, k), c)
    ensures RearmsKey(db, op, k) ==> c.Revived?
    ensures HandsOut(db, op, k) ==> c.Inserted? || c.Taken?
    ensures (op.One? || op.Many?) && Succeeds(db, op) && k in ItemKeys(OpItems(op)) ==> c.Shifted?
    ensures Apply(db, op).0.fenced
    ensures c.Shifted? || c.Revived? ==> Succeeds(db, op)
  {
    match op {
      case Reopen => c := Same;
      case Claims(_, _, _, _) => c := ClaimStep(db, op, k);
      case One(_, _, _) => c := ShiftStep(db, op, k);
      case Many(_, _, _) => c := ShiftStep(db, op, k);
      case Rearms(record, expected, token, lease, now) =>
        if Succeeds(db, op) && record.key == k {
          PlusIsValid(now, lease);
          c := Revived(Plus(now, lease).value);
        } else {
          c := Same;
        }
    }
  }

  /** The move behind each public call: where it starts, where it ends, and when it records a contract. */
  lemma MoveTable(op: Op, m: Move)
    requires (op.One? || op.Many?) && OpMove(op) == Ok(m)
    ensures m.expected in {Claimed, WriteStarted, BatchWriteStarted, ReplayClaimed, ReplayWriteStarted}
    ensures m.expected == Claimed ==> m.target in {WriteStarted, BatchWriteStarted, Quarantined}
    ensures m.expected == WriteStarted ==> m.target in {Committed, Uncertain, Quarantined}
    ensures m.expected == BatchWriteStarted ==> m.target in {Committed, BatchUncertain, Quarantined}
    ensures m.expected == ReplayClaimed ==> m.target in {ReplayWriteStarted, ReplayQuarantined}
    ensures m.expected == ReplayWriteStarted ==> m.target in {Committed, ReplayUncertain, ReplayQuarantined}
    ensures m.contract.Store? <==> StartsOrdinaryWrite(op)
    ensures StartsOrdinaryWrite(op) ==> m.expected == Claimed && m.unexpired && m.target != Quarantined
    ensures m.attempt.Assign? <==> m.target == BatchWriteStarted
    ensures m.attempt.Clear? <==> m.target == WriteStarted
    ensures m.target in {Quarantined, ReplayQuarantined} <==>
            (op.One? && op.scalar.MarkQuarantined?) || (op.Many? && op.batch.MarkQuarantinedMany?)
  {
  }

  ghost function RowAt(run: Run, i: nat, k: Key): Option<Row>
    requires i < |run.states|
  {
    Lookup(run.states[i].table, k)
  }

  lemma {:induction false} AlwaysFenced(run: Run, i: nat)
    requires IsRun(run) && i < |run.states|
    ensures run.states[i].fenced && run.states[i].attemptColumn
  {
    if i > 0 {
      AlwaysFenced(run, i - 1);
      assert run.states[i] == Apply(run.states[i - 1], run.ops[i - 1]).0;
    }
  }

  lemma RunStep(run: Run, i: nat, k: Key) returns (c: Change)
    requires IsRun(run) && i < |run.ops|
    ensures Explains(run.ops[i], k, RowAt(run, i, k), RowAt(run, i + 1, k), c)
    ensures RearmsKey(run.states[i], run.ops[i], k) ==> c.Revived?
    ensures HandsOut(run.states[i], run.ops[i], k) ==> c.Inserted? || c.Taken?
    ensures c.Shifted? || c.Revived? ==> Succeeds(run.states[i], run.ops[i])
  {
    AlwaysFenced(run, i);
    c := Step(run.states[i], run.ops[i], k);
  }

  // ---------------------------------------------------------------- fenced rows stay fenced

  /** The outcome of an earlier write is, or may be, unknown. */
  predicate Fenced(row: Row) {
    row.state.Known? && row.state.state in
      {Uncertain, BatchUncertain, ReplayClaimed, ReplayWriteStarted, ReplayUncertain, ReplayQuarantined}
  }

  predicate Settled(row: Row) {
    Fenced(row) || row.state == Known(Committed)
  }

  lemma SettledStep(op: Op, k: Key, was: Row, now: Option<Row>, c: Change)
    requires Explains(op, k, Some(was), now, c) && Settled(was)
    ensures now.Some? && Settled(now.value) && now.value.contract == was.contract
    ensures was.state == Known(Committed) ==> now.value == was
    ensures !c.Inserted? && !c.Taken?
  {
    if c.Shifted? { MoveTable(op, c.move); }
  }

  /**
   In every run, from the moment a row is fenced or committed it never leaves those states and its
   idempotency contract never changes; a committed row never changes at all.
   */
  lemma {:induction false} FencedForever(run: Run, i: nat, j: nat, k: Key)
    requires IsRun(run) && i <= j < |run.states|
    requires RowAt(run, i, k).Some? && Settled(RowAt(run, i, k).value)
    ensures RowAt(run, j, k).Some? && Settled(RowAt(run, j, k).value)
    ensures RowAt(run, j, k).value.contract == RowAt(run, i, k).value.contract
    ensures RowAt(run, i, k).value.state == Known(Committed) ==> RowAt(run, j, k) == RowAt(run, i, k)
    decreases j
  {
    hide Apply, Explains, Settled;
    if i < j {
      FencedForever(run, i, j - 1, k);
      var c := RunStep(run, j - 1, k);
      SettledStep(run.ops[j - 1], k, RowAt(run, j - 1, k).value, RowAt(run, j, k), c);
    }
  }

  /** No claim ever returns a token again for a row that was once fenced or committed. */
  lemma FencedRowsAreNeverHandedOut(run: Run, i: nat, n: nat, k: Key)
    requires IsRun(run) && i <= n < |run.ops|
    requires RowAt(run, i, k).Some? && Settled(RowAt(run, i, k).value)
    ensures !HandsOut(run.states[n], run.ops[n], k)
  {
    hide Apply;
    FencedForever(run, i, n, k);
    var c := RunStep(run, n, k);
    SettledStep(run.ops[n], k, RowAt(run, n, k).value, RowAt(run, n + 1, k), c);
  }

  // ---------------------------------------------------------------- crossing the write boundary

  ghost predicate CrossesAt(run: Run, i: nat, k: Key, token: string)
    requires IsRun(run)
  {
    i < |run.ops| && Crosses(run.states[i], run.ops[i], k, token)
  }

  ghost predicate QuarantinesAt(run: Run, i: nat, k: Key, token: string)
    requires IsRun(run)
  {
    i < |run.ops| && Quarantines(run.states[i], run.ops[i], k, token)
  }

  ghost predicate RearmsAt(run: Run, i: nat, k: Key)
    requires IsRun(run)
  {
    i < |run.ops| && RearmsKey(run.states[i], run.ops[i], k)
  }

  /** A call that succeeds found the token it presents in the row, and moved that row. */
  lemma PresentedTokenIsHeld(run: Run, i: nat, k: Key, token: string)
    requires IsRun(run) && i < |run.ops| && Presents(run.ops[i], k, token) && Succeeds(run.states[i], run.ops[i])
    ensures OpMove(run.ops[i]).Ok?
    ensures RowAt(run, i, k).Some?
    ensures var m, row := OpMove(run.ops[i]).value, RowAt(run, i, k).value;
            && row.token == Some(token) && row.state == Known(m.expected)
            && RowAt(run, i + 1, k) == Some(Moved(row, m, run.ops[i].now))
  {
    var items := OpItems(run.ops[i]);
    var n :| 0 <= n < |items| && items[n].record.key == k && items[n].token == token;
    assert k in ItemKeys(items);
  }

  /** At or past the write boundary, or set aside: not available for a write. */
  predicate Spent(row: Row) {
    row.state.Known? && row.state.state !in {Claimed, ReplayClaimed}
  }

  lemma CrossingSpends(run: Run, i: nat, k: Key, token: string)
    requires IsRun(run) && CrossesAt(run, i, k, token)
    ensures RowAt(run, i, k).Some? && !Spent(RowAt(run, i, k).value) && RowAt(run, i, k).value.token == Some(token)
    ensures RowAt(run, i + 1, k).Some? && Spent(RowAt(run, i + 1, k).value)
    ensures RowAt(run, i + 1, k).value.token == Some(token)
    ensures StartsOrdinaryWrite(run.ops[i]) ==>
            && RowAt(run, i, k).value.state == Known(Claimed)
            && RowAt(run, i + 1, k).value.state.state in {WriteStarted, BatchWriteStarted}
  {
    PresentedTokenIsHeld(run, i, k, token);
    MoveTable(run.ops[i], OpMove(run.ops[i]).value);
  }

  lemma SpentStep(op: Op, k: Key, was: Row, now: Option<Row>, c: Change)
    requires Explains(op, k, Some(was), now, c) && Spent(was) && !c.Revived?
    ensures now.Some? && Spent(now.value)
  {
    if c.Shifted? { MoveTable(op, c.move); }
  }

  lemma {:induction false} SpentUntilRearmed(run: Run, i: nat, j: nat, k: Key)
    requires IsRun(run) && i <= j < |run.states|
    requires RowAt(run, i, k).Some? && Spent(RowAt(run, i, k).value)
    requires forall n :: i <= n < j ==> !RearmsAt(run, n, k)
    ensures RowAt(run, j, k).Some? && Spent(RowAt(run, j, k).value)
    decreases j
  {
    hide Apply;
    hide Spent, Explains;
    if i < j {
      SpentUntilRearmed(run, i, j - 1, k);
      var c := RunStep(run, j - 1, k);
      assert !RearmsAt(run, j - 1, k);
      SpentStep(run.ops[j - 1], k, RowAt(run, j - 1, k).value, RowAt(run, j, k), c);
    }
  }

  /** Between any two crossings for one identity there is a successful rearm of that identity. */
  lemma RearmBetweenCrossings(run: Run, i: nat, j: nat, k: Key, first: string, second: string)
    requires IsRun(run) && i < j && CrossesAt(run, i, k, first) && CrossesAt(run, j, k, second)
    ensures exists n :: i < n < j && RearmsAt(run, n, k)
  {
    hide Apply;
    CrossingSpends(run, i, k, first);
    CrossingSpends(run, j, k, second);
    if forall n :: i + 1 <= n < j ==> !RearmsAt(run, n, k) {
      SpentUntilRearmed(run, i + 1, j, k);
      assert false;
    }
  }

  /** Since the ordinary crossing at `i`, the row was quarantined with its own token and then rearmed. */
  ghost predicate ReleasedBetween(run: Run, i: nat, j: nat, k: Key, token: string)
    requires IsRun(run)
  {
    exists m, n :: i < m < n < j && QuarantinesAt(run, m, k, token) && RearmsAt(run, n, k)
  }

  ghost predicate QuarantinedBetween(run: Run, i: nat, j: nat, k: Key, token: string)
    requires IsRun(run)
  {
    exists m :: i < m < j && QuarantinesAt(run, m, k, token)
  }

  /** Where a row can be after an ordinary crossing at `i`. */
  ghost predicate AfterCrossing(run: Run, i: nat, j: nat, k: Key, token: string)
    requires IsRun(run) && j < |run.states|
  {
    && RowAt(run, j, k).Some?
    && var row := RowAt(run, j, k).value;
       || ReleasedBetween(run, i, j, k, token)
       || Settled(row)
       || (row.token == Some(token) && row.state in {Known(WriteStarted), Known(BatchWriteStarted)})
       || (row.token == Some(token) && row.state == Known(Quarantined) && QuarantinedBetween(run, i, j, k, token))
  }

  lemma AfterCrossingStep(run: Run, i: nat, j: nat, k: Key, token: string)
    requires IsRun(run) && i < j < |run.ops| && AfterCrossing(run, i, j, k, token)
    ensures AfterCrossing(run, i, j + 1, k, token)
  {
    hide Apply;
    var row := RowAt(run, j, k).value;
    var c := RunStep(run, j, k);
    if ReleasedBetween(run, i, j, k, token) {
      var m, n :| i < m < n < j && QuarantinesAt(run, m, k, token) && RearmsAt(run, n, k);
      assert ReleasedBetween(run, i, j + 1, k, token);
    } else if Settled(row) {
      SettledStep(run.ops[j], k, row, RowAt(run, j + 1, k), c);
    } else if c.Shifted? {
      MoveTable(run.ops[j], c.move);
      if c.move.target == Quarantined {
        var items := OpItems(run.ops[j]);
        var n :| 0 <= n < |items| && items[n] == c.item;
        assert QuarantinesAt(run, j, k, token);
      }
    } else if c.Revived? && row.state == Known(Quarantined) {
      var m :| i < m < j && QuarantinesAt(run, m, k, token);
      assert RearmsAt(run, j, k);
      assert ReleasedBetween(run, i, j + 1, k, token);
    } else if row.state == Known(Quarantined) {
      var m :| i < m < j && QuarantinesAt(run, m, k, token);
      assert QuarantinedBetween(run, i, j + 1, k, token);
    }
  }

  lemma {:induction false} AfterCrossingHolds(run: Run, i: nat, j: nat, k: Key, token: string)
    requires IsRun(run) && i < j < |run.states| && CrossesAt(run, i, k, token) && StartsOrdinaryWrite(run.ops[i])
    ensures AfterCrossing(run, i, j, k, token)
  {
    hide Apply;
    if j == i + 1 {
      CrossingSpends(run, i, k, token);
    } else {
      AfterCrossingHolds(run, i, j - 1, k, token);
      AfterCrossingStep(run, i, j - 1, k, token);
    }
  }

  /**
   Between two ordinary crossings for one identity there is an explicit quarantine made with the
   first crossing's own token, and after it a successful rearm.
   */
  lemma QuarantineBetweenOrdinaryCrossings(run: Run, i: nat, j: nat, k: Key, first: string, second: string)
    requires IsRun(run) && i < j && CrossesAt(run, i, k, first) && CrossesAt(run, j, k, second)
    requires StartsOrdinaryWrite(run.ops[i]) && StartsOrdinaryWrite(run.ops[j])
    ensures ReleasedBetween(run, i, j, k, first)
  {
    hide Apply;
    AfterCrossingHolds(run, i, j, k, first);
    CrossingSpends(run, j, k, second);
  }

  // ---------------------------------------------------------------- progress

  /** Claimed, then past the write boundary, then settled or set aside. */
  function Stage(row: Row): nat {
    match row.state
    case Known(Claimed) => 0
    case Known(ReplayClaimed) => 0
    case Known(WriteStarted) => 1
    case Known(BatchWriteStarted) => 1
    case Known(ReplayWriteStarted) => 1
    case _ => 2
  }

  /** `op` is a successful start or mark call for `k`. */
  ghost predicate MovesKey(db: Db, op: Op, k: Key)
    requires op.WellFormed()
  {
    (op.One? || op.Many?) && Succeeds(db, op) && k in ItemKeys(OpItems(op))
  }

  /** How many of the steps from `i` up to `j` move the row of `k`. */
  ghost function Moves(run: Run, i: nat, j: nat, k: Key): nat
    requires IsRun(run) && i <= j <= |run.ops|
    decreases j
  {
    if i == j then 0 else Moves(run, i, j - 1, k) + (if MovesKey(run.states[j - 1], run.ops[j - 1], k) then 1 else 0)
  }

  lemma StageStep(db: Db, op: Op, k: Key)
    requires op.WellFormed() && db.fenced && k in db.table && !RearmsKey(db, op, k)
    ensures var after := Apply(db, op).0.table;
            k in after && Stage(after[k]) >= Stage(db.table[k]) + (if MovesKey(db, op, k) then 1 else 0)
  {
    var c := Step(db, op, k);
    hide Apply;
    if c.Shifted? { MoveTable(op, c.move); }
  }

  /**
   Without a rearm every successful start or mark call takes the row a stage further, and there are
   three stages: between two rearms an identity is moved at most twice.
   */
  lemma {:induction false} AtMostTwoMovesPerAttempt(run: Run, i: nat, j: nat, k: Key)
    requires IsRun(run) && i <= j < |run.states| && RowAt(run, i, k).Some?
    requires forall n :: i <= n < j ==> !RearmsAt(run, n, k)
    ensures RowAt(run, j, k).Some?
    ensures Stage(RowAt(run, i, k).value) + Moves(run, i, j, k) <= Stage(RowAt(run, j, k).value) <= 2
    decreases j
  {
    hide Apply, MovesKey, Stage;
    if i < j {
      AtMostTwoMovesPerAttempt(run, i, j - 1, k);
      AlwaysFenced(run, j - 1);
      assert !RearmsAt(run, j - 1, k);
      StageStep(run.states[j - 1], run.ops[j - 1], k);
    }
    ThreeStages(RowAt(run, j, k).value);
  }

  lemma ThreeStages(row: Row)
    ensures Stage(row) <= 2
  {
  }

  // ---------------------------------------------------------------- tokens

  function Issues(op: Op): set<string> {
    match op
    case Claims(_, tokens, _, _) => set t | t in tokens
    case Rearms(_, _, token, _, _) => {token}
    case _ => {}
  }

  ghost predicate Holds(run: Run, i: nat, k: Key, token: string)
    requires i < |run.states|
  {
    RowAt(run, i, k).Some? && RowAt(run, i, k).value.token == Some(token)
  }

  /** `token` was in the file when it was opened, or an earlier call drew it. */
  ghost predicate Seen(run: Run, i: nat, token: string)
    requires |run.states| == |run.ops| + 1
  {
    || (exists k :: Holds(run, 0, k, token))
    || (exists n :: 0 <= n < i && n < |run.ops| && token in Issues(run.ops[n]))
  }

  /** The token generator never repeats itself and never hits a token that the file came with. */
  ghost predicate FreshTokens(run: Run)
    requires |run.states| == |run.ops| + 1
  {
    && (forall k, k', t :: Holds(run, 0, k, t) && Holds(run, 0, k', t) ==> k == k')
    && (forall i, t :: 0 <= i < |run.ops| && t in Issues(run.ops[i]) ==> ValidToken(t) && !Seen(run, i, t))
    && (forall i :: 0 <= i < |run.ops| && run.ops[i].Claims? ==> Distinct(run.ops[i].tokens))
  }

  predicate Distinct(tokens: seq<string>) {
    forall i, j :: 0 <= i < j < |tokens| ==> tokens[i] != tokens[j]
  }

  lemma NewTokenIsIssued(run: Run, i: nat, k: Key, token: string)
    requires IsRun(run) && i < |run.ops| && Holds(run, i + 1, k, token)
    ensures Holds(run, i, k, token) || token in Issues(run.ops[i])
  {
    hide Apply;
    var c := RunStep(run, i, k);
  }

  lemma {:induction false} HeldIsSeen(run: Run, i: nat, k: Key, token: string)
    requires IsRun(run) && i < |run.states| && Holds(run, i, k, token)
    ensures Seen(run, i, token)
  {
    hide Apply;
    if i > 0 {
      NewTokenIsIssued(run, i - 1, k, token);
      if Holds(run, i - 1, k, token) { HeldIsSeen(run, i - 1, k, token); }
    }
  }

  lemma IssuedToOneKey(run: Run, i: nat, k: Key, k': Key, token: string)
    requires IsRun(run) && FreshTokens(run) && i < |run.ops|
    requires Holds(run, i + 1, k, token) && !Holds(run, i, k, token)
    requires Holds(run, i + 1, k', token) && !Holds(run, i, k', token)
    ensures k == k'
  {
    hide Apply;
    var c := RunStep(run, i, k);
    var c' := RunStep(run, i, k');
    if run.ops[i].Claims? {
      assert Distinct(run.ops[i].tokens);
      assert c.i == c'.i;
    }
  }

  /** A token is in at most one row at a time. */
  lemma {:induction false} OneRowPerToken(run: Run, i: nat, k: Key, k': Key, token: string)
    requires IsRun(run) && FreshTokens(run) && i < |run.states|
    requires Holds(run, i, k, token) && Holds(run, i, k', token)
    ensures k == k'
  {
    hide Apply;
    if i > 0 {
      NewTokenIsIssued(run, i - 1, k, token);
      NewTokenIsIssued(run, i - 1, k', token);
      if Holds(run, i - 1, k, token) && Holds(run, i - 1, k', token) {
        OneRowPerToken(run, i - 1, k, k', token);
      } else if Holds(run, i - 1, k, token) {
        HeldIsSeen(run, i - 1, k, token);
      } else if Holds(run, i - 1, k', token) {
        HeldIsSeen(run, i - 1, k', token);
      } else {
        IssuedToOneKey(run, i - 1, k, k', token);
      }
    }
  }

  lemma SeenStays(run: Run, i: nat, j: nat, token: string)
    requires IsRun(run) && i <= j && Seen(run, i, token)
    ensures Seen(run, j, token)
  {
    hide Apply;
  }

  /** A token never moves to another identity, not even later. */
  lemma {:induction false} TokenKeepsItsKey(run: Run, i: nat, j: nat, k: Key, k': Key, token: string)
    requires IsRun(run) && FreshTokens(run) && i <= j < |run.states|
    requires Holds(run, i, k, token) && Holds(run, j, k', token)
    ensures k == k'
    decreases j
  {
    hide Apply;
    if i == j {
      OneRowPerToken(run, i, k, k', token);
    } else {
      NewTokenIsIssued(run, j - 1, k', token);
      HeldIsSeen(run, i, k, token);
      SeenStays(run, i, j - 1, token);
      TokenKeepsItsKey(run, i, j - 1, k, k', token);
    }
  }

  /** A token that was replaced never comes back, in any row. */
  lemma {:induction false} ReplacedTokenIsGone(run: Run, i: nat, m: nat, n: nat, k: Key, k': Key, token: string)
    requires IsRun(run) && FreshTokens(run) && i <= m <= n < |run.states|
    requires Holds(run, i, k, token) && !Holds(run, m, k, token)
    ensures !Holds(run, n, k', token)
    decreases n
  {
    hide Apply;
    if Holds(run, n, k', token) {
      TokenKeepsItsKey(run, i, n, k, k', token);
      if m < n {
        NewTokenIsIssued(run, n - 1, k, token);
        HeldIsSeen(run, i, k, token);
        SeenStays(run, i, n - 1, token);
        ReplacedTokenIsGone(run, i, m, n - 1, k, k, token);
      }
    }
  }

  /** Every call that presents a replaced token, alone or inside a group, fails and changes nothing. */
  lemma StaleTokenIsInert(run: Run, i: nat, m: nat, n: nat, k: Key, k': Key, token: string)
    requires IsRun(run) && FreshTokens(run) && i <= m <= n < |run.ops|
    requires Holds(run, i, k, token) && !Holds(run, m, k, token)
    requires Presents(run.ops[n], k', token)
    ensures Apply(run.states[n], run.ops[n]).1.Failed?
    ensures run.states[n + 1] == run.states[n]
  {
    if Succeeds(run.states[n], run.ops[n]) {
      PresentedTokenIsHeld(run, n, k', token);
      ReplacedTokenIsGone(run, i, m, n, k, k', token);
      assert false;
    }
  }

  lemma RearmReplacesToken(run: Run, i: nat, n: nat, k: Key, token: string)
    requires IsRun(run) && FreshTokens(run) && i <= n && RearmsAt(run, n, k) && Holds(run, i, k, token)
    ensures !Holds(run, n + 1, k, token)
  {
    hide Apply;
    var c := RunStep(run, n, k);
    HeldIsSeen(run, i, k, token);
    SeenStays(run, i, n, token);
    assert run.ops[n].token in Issues(run.ops[n]);
  }

  lemma TokenCrossesOnceInOrder(run: Run, i: nat, j: nat, k: Key, k': Key, token: string)
    requires IsRun(run) && FreshTokens(run) && i < j && CrossesAt(run, i, k, token)
    ensures !CrossesAt(run, j, k', token)
  {
    hide Apply;
    if CrossesAt(run, j, k', token) {
      CrossingSpends(run, i, k, token);
      CrossingSpends(run, j, k', token);
      TokenKeepsItsKey(run, i, j, k, k', token);
      RearmBetweenCrossings(run, i, j, k, token, token);
      var n :| i < n < j && RearmsAt(run, n, k);
      RearmReplacesToken(run, i, n, k, token);
      ReplacedTokenIsGone(run, i, n + 1, j, k, k, token);
    }
  }

  /** A claim token crosses the write boundary at most once, for at most one identity. */
  lemma TokenCrossesOnce(run: Run, i: nat, j: nat, k: Key, k': Key, token: string)
    requires IsRun(run) && FreshTokens(run)
    requires CrossesAt(run, i, k, token) && CrossesAt(run, j, k', token)
    ensures i == j && k == k'
  {
    hide Apply;
    if i < j {
      TokenCrossesOnceInOrder(run, i, j, k, k', token);
    } else if j < i {
      TokenCrossesOnceInOrder(run, j, i, k', k, token);
    } else {
      CrossingSpends(run, i, k, token);
      CrossingSpends(run, j, k', token);
      OneRowPerToken(run, i, k, k', token);
    }
  }

  // ---------------------------------------------------------------- ledgers created by this code

  /** What every row of a ledger created by this code looks like. */
  ghost predicate Sound(row: Row) {
    && row.state.Known?
    && (row.state.state in {BatchWriteStarted, BatchUncertain} ==> row.attempt.Some?)
    && (row.state.state in {WriteStarted, Uncertain} ==> row.attempt.None?)
    && (row.attempt.Some? ==> ValidAttempt(row.attempt.value))
    && (row.contract.Some? ==> ValidContract(row.contract.value))
    && (exists t :: row.token == Some(t) && ValidToken(t))
    && (exists u: Utc :: row.expiry == Some(Iso(u)))
  }

  lemma SoundStep(op: Op, k: Key, was: Option<Row>, now: Option<Row>, c: Change)
    requires Explains(op, k, was, now, c) && now.Some?
    requires was.Some? ==> Sound(was.value)
    requires forall t :: t in Issues(op) ==> ValidToken(t)
    ensures Sound(now.value)
  {
    match c {
      case Same =>
      case Inserted(n, until) =>
        assert op.tokens[n] in Issues(op);
        assert now.value.token == Some(op.tokens[n]) && now.value.expiry == Some(Iso(until));
      case Taken(n, until) =>
        assert op.tokens[n] in Issues(op);
        assert now.value.token == Some(op.tokens[n]) && now.value.expiry == Some(Iso(until));
      case Shifted(_, m) =>
        MoveTable(op, m);
        assert now.value.token == was.value.token && now.value.expiry == was.value.expiry;
      case Revived(until) =>
        assert op.token in Issues(op);
        assert now.value.token == Some(op.token) && now.value.expiry == Some(Iso(until));
    }
  }

  lemma IssuedTokensAreValid(run: Run, i: nat)
    requires IsRun(run) && FreshTokens(run) && i < |run.ops|
    ensures forall t :: t in Issues(run.ops[i]) ==> ValidToken(t)
  {
  }

  /** The ledger was created by this code, or opened from a file whose rows are sound. */
  ghost predicate OpensSound(run: Run) {
    |run.states| > 0 && forall k :: k in run.states[0].table ==> Sound(run.states[0].table[k])
  }

  lemma CreatedLedgerOpensSound(run: Run)
    requires IsRun(run) && run.file.None?
    ensures OpensSound(run)
  {
  }

  lemma {:induction false} RowsAreSound(run: Run, i: nat, k: Key)
    requires IsRun(run) && FreshTokens(run) && OpensSound(run) && i < |run.states| && RowAt(run, i, k).Some?
    ensures Sound(RowAt(run, i, k).value)
  {
    hide Apply;
    if i > 0 {
      var was, now := RowAt(run, i - 1, k), RowAt(run, i, k);
      assert was.Some? ==> Sound(was.value) by {
        if was.Some? { RowsAreSound(run, i - 1, k); }
      }
      assert Sound(now.value) by {
        var c := RunStep(run, i - 1, k);
        IssuedTokensAreValid(run, i - 1);
        SoundStep(run.ops[i - 1], k, was, now, c);
      }
    }
  }

  /** On a sound row the SQL expiry test and the in-memory expiry test agree. */
  lemma ExpiryTestsAgree(row: Row, now: Utc)
    requires Sound(row)
    ensures HasLease(row) && (Unexpired(row, now) <==> Active(row, now))
  {
    var u: Utc :| row.expiry == Some(Iso(u));
    IsoRoundTrip(u);
    IsoOrder(now, u);
  }

  /** A call that would start a write, alone or in a batch, is made on rows whose leases are running. */
  lemma StartNeedsLiveLease(run: Run, i: nat, op: Op, item: Item)
    requires IsRun(run) && FreshTokens(run) && OpensSound(run) && i < |run.states|
    requires StartsWrite(op) && item in OpItems(op) && Succeeds(run.states[i], op)
    ensures item.record.key in run.states[i].table
    ensures var row := run.states[i].table[item.record.key];
            && Active(row, op.now) && ReadState(row).Ok?
            && row.digest == item.record.digest && row.plan == item.record.plan
            && row.state in {Known(Claimed), Known(ReplayClaimed)}
  {
    var db, k, items := run.states[i], item.record.key, OpItems(op);
    var n :| 0 <= n < |items| && items[n] == item;
    assert k in db.table && Matches(db.table[k], item, OpMove(op).value, op.now);
    assert RowAt(run, i, k) == Some(db.table[k]);
    RowsAreSound(run, i, k);
    ExpiryTestsAgree(db.table[k], op.now);
  }

  /**
   Whenever a write could be started, a claim at that instant answers IN_PROGRESS and changes
   nothing: a live lease has one owner.
   */
  lemma LiveLeaseIsInProgress(run: Run, i: nat, op: Op, item: Item, lease: int, token: string)
    requires IsRun(run) && FreshTokens(run) && OpensSound(run) && i < |run.states|
    requires StartsWrite(op) && item in OpItems(op) && Succeeds(run.states[i], op)
    requires ValidLease(lease) && Plus(op.now, lease).Some?
    ensures var (after, reply) := Apply(run.states[i], Claims([item.record], [token], lease, op.now));
            && after == run.states[i]
            && reply.Granted? && |reply.results| == 1
            && reply.results[0].disposition == InProgress && reply.results[0].token.None?
  {
    hide IsRun, FreshTokens, Plus;
    StartNeedsLiveLease(run, i, op, item);
    var db, k, now := run.states[i], item.record.key, op.now;
    PlusIsValid(now, lease);
    var until: Utc := Plus(now, lease).value;
    var claim := ClaimRow(Some(db.table[k]), item.record, token, now, until).value;
    ClaimFoldOfOne(db.table, item.record, token, now, until, claim);
    hide ClaimFold;
    assert db.table[k := db.table[k]] == db.table;
  }

  /** Whenever a write could be started, every rearm at that instant is refused. */
  lemma LiveLeaseCannotBeRearmed(run: Run, i: nat, op: Op, item: Item, lease: int, token: string, expected: State)
    requires IsRun(run) && FreshTokens(run) && OpensSound(run) && i < |run.states|
    requires StartsWrite(op) && item in OpItems(op) && Succeeds(run.states[i], op)
    ensures Apply(run.states[i], Rearms(item.record, expected, token, lease, op.now)).1.Failed?
  {
    StartNeedsLiveLease(run, i, op, item);
  }

  // ---------------------------------------------------------------- batch attempts

  ghost predicate StartsBatch(run: Run, n: nat, id: string)
    requires IsRun(run)
  {
    && n < |run.ops| && run.ops[n].Many? && run.ops[n].batch.StartWriteMany?
    && run.ops[n].batch.attempt == id && Succeeds(run.states[n], run.ops[n])
  }

  /** The attempt-id generator never repeats itself. */
  ghost predicate FreshAttempts(run: Run)
    requires IsRun(run)
  {
    forall m: nat, n: nat, id :: StartsBatch(run, m, id) && StartsBatch(run, n, id) ==> m == n
  }

  ghost predicate Carries(run: Run, i: nat, k: Key, id: string)
    requires i < |run.states|
  {
    RowAt(run, i, k).Some? && RowAt(run, i, k).value.attempt == Some(id)
  }

  /** The group call `n` issued `id`, and `k` is one of its identities. */
  ghost predicate IssuedTo(run: Run, n: nat, id: string, k: Key)
    requires IsRun(run)
  {
    StartsBatch(run, n, id) && |run.ops[n].items| <= MAX_BATCH_ITEMS && k in ItemKeys(run.ops[n].items)
  }

  lemma NewAttemptIsIssued(run: Run, i: nat, k: Key, id: string)
    requires IsRun(run) && i < |run.ops| && Carries(run, i + 1, k, id) && !Carries(run, i, k, id)
    ensures IssuedTo(run, i, id, k)
  {
    hide Apply;
    var c := RunStep(run, i, k);
    MoveTable(run.ops[i], c.move);
    var items := OpItems(run.ops[i]);
    var n :| 0 <= n < |items| && items[n] == c.item;
    assert k in ItemKeys(items);
  }

  lemma {:induction false} AttemptWasIssued(run: Run, i: nat, k: Key, id: string)
    requires IsRun(run) && run.file.None? && i < |run.states| && Carries(run, i, k, id)
    ensures exists n :: 0 <= n < i && IssuedTo(run, n, id, k)
  {
    hide Apply;
    if i > 0 {
      if Carries(run, i - 1, k, id) {
        AttemptWasIssued(run, i - 1, k, id);
      } else {
        NewAttemptIsIssued(run, i - 1, k, id);
      }
    }
  }

  lemma {:induction false} AtMostOneKeyPerItem(items: seq<Item>)
    ensures |ItemKeys(items)| <= |items|
  {
    if items != [] {
      var n := |items| - 1;
      AtMostOneKeyPerItem(items[..n]);
      assert ItemKeys(items) == ItemKeys(items[..n]) + {items[n].record.key} by {
        assert forall i :: 0 <= i < n ==> items[i] == items[..n][i];
      }
    }
  }

  lemma SubsetIsSmaller<T>(a: set<T>, b: set<T>)
    requires a <= b
    ensures |a| <= |b|
  {
    assert b == a + (b - a);
  }

  /**
   The rows that carry an attempt id are rows of the one `start_write_many` call that issued it, so
   `get_batch_attempt` can neither overflow nor meet a corrupt row.
   */
  lemma BatchAttemptIsBounded(run: Run, i: nat, id: string)
    requires IsRun(run) && FreshTokens(run) && FreshAttempts(run) && run.file.None? && i < |run.states|
    ensures forall k :: k in Members(run.states[i].table, id) ==> ReadState(run.states[i].table[k]).Ok?
    ensures |Members(run.states[i].table, id)| <= MAX_BATCH_ITEMS
    ensures forall n: nat :: StartsBatch(run, n, id) ==> Members(run.states[i].table, id) <= ItemKeys(run.ops[n].items)
  {
    hide Apply;
    CreatedLedgerOpensSound(run);
    var t := run.states[i].table;
    var members := Members(t, id);
    forall k | k in members ensures ReadState(t[k]).Ok? {
      assert RowAt(run, i, k) == Some(t[k]);
      RowsAreSound(run, i, k);
    }
    forall k, n: nat | k in members && StartsBatch(run, n, id) ensures k in ItemKeys(run.ops[n].items) {
      assert RowAt(run, i, k) == Some(t[k]);
      AttemptWasIssued(run, i, k, id);
    }
    if members != {} {
      var k :| k in members;
      assert RowAt(run, i, k) == Some(t[k]);
      AttemptWasIssued(run, i, k, id);
      var n :| 0 <= n < i && IssuedTo(run, n, id, k);
      AtMostOneKeyPerItem(run.ops[n].items);
      SubsetIsSmaller(members, ItemKeys(run.ops[n].items));
    }
  }

  /** Right after a batch was started, the rows that carry its attempt id are exactly those of the batch. */
  lemma StartedBatchIsListedWhole(run: Run, n: nat, id: string)
    requires IsRun(run) && FreshTokens(run) && FreshAttempts(run) && run.file.None? && StartsBatch(run, n, id)
    ensures Members(run.states[n + 1].table, id) == ItemKeys(run.ops[n].items)
  {
    BatchAttemptIsBounded(run, n + 1, id);
    var items := run.ops[n].items;
    forall k | k in ItemKeys(items) ensures k in Members(run.states[n + 1].table, id) {
      var i :| 0 <= i < |items| && items[i].record.key == k;
      PresentedTokenIsHeld(run, n, k, items[i].token);
    }
  }

  /** A row keeps its attempt id until the next ordinary write of its identity is started. */
  lemma {:induction false} AttemptIsKept(run: Run, i: nat, j: nat, k: Key, id: string)
    requires IsRun(run) && i <= j < |run.states| && Carries(run, i, k, id)
    requires forall n, token :: i <= n < j && StartsOrdinaryWrite(run.ops[n]) ==> !CrossesAt(run, n, k, token)
    ensures Carries(run, j, k, id)
    decreases j
  {
    hide Apply, Explains;
    if i < j {
      AttemptIsKept(run, i, j - 1, k, id);
      var c := RunStep(run, j - 1, k);
      var op := run.ops[j - 1];
      ShiftCrosses(run, j - 1, k, c);
      AttemptStep(op, k, RowAt(run, j - 1, k).value, RowAt(run, j, k), c);
    }
  }

  lemma ShiftCrosses(run: Run, n: nat, k: Key, c: Change)
    requires IsRun(run) && n < |run.ops| && Explains(run.ops[n], k, RowAt(run, n, k), RowAt(run, n + 1, k), c)
    requires c.Shifted? ==> Succeeds(run.states[n], run.ops[n])
    ensures c.Shifted? && StartsOrdinaryWrite(run.ops[n]) ==> CrossesAt(run, n, k, c.item.token)
  {
    hide Apply;
    if c.Shifted? { PresentsItem(run.ops[n], c.item); }
  }

  lemma AttemptStep(op: Op, k: Key, was: Row, now: Option<Row>, c: Change)
    requires Explains(op, k, Some(was), now, c) && !(c.Shifted? && StartsOrdinaryWrite(op))
    ensures now.Some? && now.value.attempt == was.attempt
  {
    if c.Shifted? { MoveTable(op, c.move); }
  }

  lemma PresentsItem(op: Op, item: Item)
    requires (op.One? || op.Many?) && item in OpItems(op)
    ensures Presents(op, item.record.key, item.token)
  {
    var items := OpItems(op);
    var n :| 0 <= n < |items| && items[n] == item;
  }
}
