/** The one-time replay-fencing conversion of a file written by an earlier version. */
module LedgerMigration {
  import opened Outcomes
  import opened Clock
  import opened Ledger
  import opened LedgerClaims
  import opened LedgerRuns

  /** The conversion touches states only, only of rows it finds, and always towards the fenced side. */
  lemma ConversionIsConservative(db: Db, k: Key)
    requires !db.fenced
    ensures k in Initialize(Some(db)).table <==> k in db.table
    ensures k in db.table ==>
      var was, now := db.table[k], Initialize(Some(db)).table[k];
      && now == was.(state := now.state, attempt := now.attempt)
      && now.attempt == (if db.attemptColumn then was.attempt else None)
      && now.state !in {Known(Claimed), Known(Quarantined)}
      && (was.state in {Known(Claimed), Known(Quarantined)} || Settled(was) ==> Settled(now))
      && (now.state != was.state ==>
            was.state in {Known(Claimed), Known(Quarantined), Known(WriteStarted), Known(Uncertain)})
      && (db.attemptColumn && was.attempt.Some? ==> now.state !in {Known(WriteStarted), Known(Uncertain)})
      && (was.state == Known(Claimed) ==> now.state == Known(ReplayClaimed))
      && (was.state == Known(Quarantined) ==> now.state == Known(ReplayQuarantined))
      && (was.state == Known(WriteStarted) && now.attempt.Some? ==> now.state == Known(BatchWriteStarted))
      && (was.state == Known(Uncertain) && now.attempt.Some? ==> now.state == Known(BatchUncertain))
      && (was.state in {Known(WriteStarted), Known(Uncertain)} && now.attempt.None? ==> now.state == was.state)
  {
  }

  /** The conversion runs at most once: after the first open, opening the file again changes nothing. */
  lemma ReopeningChangesNothing(run: Run, i: nat)
    requires IsRun(run) && i < |run.states|
    ensures Apply(run.states[i], Reopen).0 == run.states[i]
  {
    AlwaysFenced(run, i);
  }

  /** A row the conversion fenced is never handed out by a claim in any later history. */
  lemma ConvertedRowsAreNeverHandedOut(run: Run, n: nat, k: Key)
    requires IsRun(run) && n < |run.ops|
    requires run.file.Some? && !run.file.value.fenced && k in run.file.value.table
    requires run.file.value.table[k].state in {Known(Claimed), Known(Quarantined)}
    ensures !HandsOut(run.states[n], run.ops[n], k)
    ensures RowAt(run, n, k).Some? && Settled(RowAt(run, n, k).value)
  {
    ConversionIsConservative(run.file.value, k);
    FencedForever(run, 0, n, k);
    FencedRowsAreNeverHandedOut(run, 0, n, k);
  }

  /** Readable, with a token and an expiry this code could have written. */
  ghost predicate Presentable(row: Row) {
    && row.state.Known? && Readable(row)
    && (row.state.state in {BatchWriteStarted, BatchUncertain} ==> row.attempt.Some?)
    && (exists t :: row.token == Some(t) && ValidToken(t))
    && (exists u: Utc :: row.expiry == Some(Iso(u)))
  }

  /**
   A converted file opens with sound rows exactly when its rows are presentable: that scalar write
   states carry no attempt id is what the conversion itself brings about.
   */
  lemma ConvertedFileOpensSoundIff(run: Run)
    requires IsRun(run) && run.file.Some? && !run.file.value.fenced
    ensures var db := run.file.value;
            OpensSound(run) <==> forall k :: k in db.table ==> Presentable(AsRead(db.table[k], db.attemptColumn))
  {
    hide Fence, Sound, Presentable;
    var db := run.file.value;
    forall k | k in db.table
      ensures Sound(run.states[0].table[k]) <==> Presentable(AsRead(db.table[k], db.attemptColumn))
    {
      FencedRowIsSoundIff(db.table[k], db.attemptColumn);
    }
  }

  /** A row of a file without the attempt-id column has no attempt id. */
  function AsRead(row: Row, attemptColumn: bool): Row {
    if attemptColumn then row else row.(attempt := None)
  }

  lemma FencedRowIsSoundIff(row: Row, attemptColumn: bool)
    ensures Sound(Fence(row, attemptColumn)) <==> Presentable(AsRead(row, attemptColumn))
  {
    hide Iso, ValidToken, ValidAttempt, ValidContract;
    var was, now := AsRead(row, attemptColumn), Fence(row, attemptColumn);
    assert now == was.(state := now.state);
  }

  // ---------------------------------------------------------------- which old rows can come back

  /**
   The one way back to a claim for a row that is older than the marker: it was past the write
   boundary without a recorded outcome, and its owner still knows its token.
   */
  predicate Releasable(row: Row) {
    && row.state in {Known(WriteStarted), Known(BatchWriteStarted)}
    && row.token.Some? && ValidToken(row.token.value)
    && Readable(row)
  }

  predicate Readable(row: Row) {
    && (row.attempt.Some? ==> ValidAttempt(row.attempt.value))
    && (row.contract.Some? ==> ValidContract(row.contract.value))
  }

  /** Rows no sequence of calls can bring back to a claim. */
  predicate Locked(row: Row) {
    || row.state.Unknown?
    || Settled(row)
    || (row.state in {Known(WriteStarted), Known(BatchWriteStarted)} && !Releasable(row))
    || (row.state == Known(Quarantined) && !Readable(row))
  }

  lemma LockedStep(op: Op, k: Key, was: Row, now: Option<Row>, c: Change)
    requires Explains(op, k, Some(was), now, c) && Locked(was)
    ensures now.Some? && Locked(now.value) && !c.Inserted? && !c.Taken?
  {
    if Settled(was) {
      SettledStep(op, k, was, now, c);
    } else if c.Shifted? {
      MoveTable(op, c.move);
      var items := OpItems(op);
      var n :| 0 <= n < |items| && items[n] == c.item;
      assert ValidToken(items[n].token);
    }
  }

  lemma {:induction false} LockedForever(run: Run, n: nat, k: Key)
    requires IsRun(run) && n < |run.states| && RowAt(run, 0, k).Some? && Locked(RowAt(run, 0, k).value)
    ensures RowAt(run, n, k).Some? && Locked(RowAt(run, n, k).value)
  {
    hide Apply, Locked, Explains;
    if n > 0 {
      LockedForever(run, n - 1, k);
      var c := RunStep(run, n - 1, k);
      LockedStep(run.ops[n - 1], k, RowAt(run, n - 1, k).value, RowAt(run, n, k), c);
    }
  }

  lemma LockedRowsAreNeverHandedOut(run: Run, n: nat, k: Key)
    requires IsRun(run) && n < |run.ops| && RowAt(run, 0, k).Some? && Locked(RowAt(run, 0, k).value)
    ensures !HandsOut(run.states[n], run.ops[n], k)
  {
    hide Apply;
    LockedForever(run, n, k);
    var c := RunStep(run, n, k);
    LockedStep(run.ops[n], k, RowAt(run, n, k).value, RowAt(run, n + 1, k), c);
  }

  const FIRST: Utc := Instant(1, 1, 1, 0, 0, 0, 0)
  const SOON: Utc := Instant(1, 1, 1, 0, 0, 0, 1)
  const LATER: Utc := Instant(1, 1, 1, 0, 0, 1, 0)

  lemma ShortestLease()
    ensures Plus(FIRST, 1) == Some(SOON) && Before(SOON, LATER)
  {
  }

  function ReleaseOp(r: Record, row: Row): (op: Op)
    requires row.token.Some?
    ensures op.WellFormed()
  {
    var item := Item(r, row.token.value);
    if row.state == Known(WriteStarted) then One(MarkQuarantined("released", WriteStarted), item, FIRST)
    else Many(MarkQuarantinedMany("released", BatchWriteStarted), [item], FIRST)
  }

  lemma ReleaseQuarantines(db: Db, r: Record)
    requires r.key in db.table && Releasable(db.table[r.key])
    requires db.table[r.key].digest == r.digest && db.table[r.key].plan == r.plan
    ensures var row := Apply(db, ReleaseOp(r, db.table[r.key])).0.table;
            && r.key in row && row[r.key].digest == r.digest && row[r.key].plan == r.plan
            && row[r.key].state == Known(Quarantined) && Readable(row[r.key])
  {
    var row := db.table[r.key];
    var item := Item(r, row.token.value);
    assert [item][0] == item;
    assert ItemKeys([item]) == {r.key};
    assert OpItems(ReleaseOp(r, row)) == [item];
  }

  lemma RearmMakesItClaimable(db: Db, r: Record, token: string)
    requires r.key in db.table && token != ""
    requires db.table[r.key].digest == r.digest && db.table[r.key].plan == r.plan
    requires db.table[r.key].state == Known(Quarantined) && Readable(db.table[r.key])
    ensures var after := Apply(db, Rearms(r, Quarantined, token, 1, FIRST)).0;
            && r.key in after.table
            && var row := after.table[r.key];
               && row.digest == r.digest && row.plan == r.plan && row.state == Known(Claimed) && Readable(row)
               && HasLease(row) && !Active(row, LATER)
  {
    hide Iso, Parse, Plus;
    ShortestLease();
    IsoRoundTrip(SOON);
    var after := Apply(db, Rearms(r, Quarantined, token, 1, FIRST)).0;
    assert after.table[r.key].expiry == Some(Iso(SOON));
    assert Expiry(after.table[r.key]) == Some(SOON);
  }

  lemma ExpiredClaimIsHandedOut(db: Db, r: Record, token: string)
    requires r.key in db.table
    requires var row := db.table[r.key];
             && row.digest == r.digest && row.plan == r.plan && row.state == Known(Claimed) && Readable(row)
             && HasLease(row) && !Active(row, LATER)
    ensures HandsOut(db, Claims([r], [token], 1, LATER), r.key)
  {
    PlusIsValid(LATER, 1);
    var until: Utc := Plus(LATER, 1).value;
    var claim := ClaimRow(Some(db.table[r.key]), r, token, LATER, until).value;
    ClaimFoldOfOne(db.table, r, token, LATER, until, claim);
    assert [r][0] == r;
  }

  // A file with distinct tokens leaves two new ones to draw.

  predicate ShareToken(db: Db, k: Key, k': Key) {
    k in db.table && k' in db.table && db.table[k].token.Some? && db.table[k].token == db.table[k'].token
  }

  /** No two rows of the file share a token, and there are fewer rows than tokens. */
  ghost predicate LeavesTokens(db: Db) {
    && (forall k, k' :: ShareToken(db, k, k') ==> k == k')
    && |db.table| + 2 <= Pow10(128)
  }

  ghost function TokensIn(t: Table, keys: set<Key>): set<string>
    requires keys <= t.Keys
  {
    set k | k in keys && t[k].token.Some? :: t[k].token.value
  }

  lemma {:induction false} AtMostOneTokenPerRow(t: Table, keys: set<Key>)
    requires keys <= t.Keys
    ensures |TokensIn(t, keys)| <= |keys|
    decreases |keys|
  {
    if keys != {} {
      var k :| k in keys;
      AtMostOneTokenPerRow(t, keys - {k});
      var own := if t[k].token.Some? then {t[k].token.value} else {};
      assert TokensIn(t, keys) == TokensIn(t, keys - {k}) + own;
    }
  }

  /** The first `n` tokens of 128 digits. */
  ghost function Numbered(n: nat): set<string> {
    set i: nat | i < n :: Pad(i, 128)
  }

  lemma {:induction false} NumberedAreDistinct(n: nat)
    requires n <= Pow10(128)
    ensures |Numbered(n)| == n
  {
    hide Pad, Pow10;
    if n > 0 {
      NumberedAreDistinct(n - 1);
      forall i: nat | i < n - 1 ensures Pad(i, 128) != Pad(n - 1, 128) {
        NumberOfPad(i, 128);
        NumberOfPad(n - 1, 128);
      }
      assert Numbered(n) == Numbered(n - 1) + {Pad(n - 1, 128)};
    }
  }

  lemma NewToken(used: set<string>) returns (token: string)
    requires |used| + 1 <= Pow10(128)
    ensures token !in used && ValidToken(token)
  {
    hide Pow10, Pad;
    var all := Numbered(|used| + 1);
    NumberedAreDistinct(|used| + 1);
    if all <= used { SubsetIsSmaller(all, used); }
    token :| token in all && token !in used;
  }

  lemma TwoNewTokens(db: Db) returns (a: string, b: string)
    ensures ValidToken(a)
    ensures LeavesTokens(db) ==> ValidToken(b) && a != b
    ensures LeavesTokens(db) ==> a !in TokensIn(db.table, db.table.Keys) && b !in TokensIn(db.table, db.table.Keys)
  {
    hide Pow10;
    a, b := "again", "recovered";
    if LeavesTokens(db) {
      var used := TokensIn(db.table, db.table.Keys);
      AtMostOneTokenPerRow(db.table, db.table.Keys);
      a := NewToken(used);
      b := NewToken(used + {a});
    }
  }

  lemma OpeningKeepsTokens(db: Db, k: Key, token: string)
    requires Lookup(Initialize(Some(db)).table, k).Some? && Initialize(Some(db)).table[k].token == Some(token)
    ensures k in db.table && db.table[k].token == Some(token) && token in TokensIn(db.table, db.table.Keys)
  {
  }

  lemma NotSeenYet(db: Db, run: Run, i: nat, token: string)
    requires |run.states| == |run.ops| + 1 && run.states[0] == Initialize(Some(db)) && i <= |run.ops|
    requires token !in TokensIn(db.table, db.table.Keys) && forall n :: 0 <= n < i ==> token !in Issues(run.ops[n])
    ensures !Seen(run, i, token)
  {
    hide Initialize, TokensIn;
    forall k ensures !Holds(run, 0, k, token) {
      if Holds(run, 0, k, token) { OpeningKeepsTokens(db, k, token); }
    }
  }

  lemma FileTokensAreDistinct(db: Db, run: Run, k: Key, k': Key, token: string)
    requires LeavesTokens(db) && |run.states| > 0 && run.states[0] == Initialize(Some(db))
    requires Holds(run, 0, k, token) && Holds(run, 0, k', token)
    ensures k == k'
  {
    hide Initialize, TokensIn, Pow10;
    OpeningKeepsTokens(db, k, token);
    OpeningKeepsTokens(db, k', token);
    assert ShareToken(db, k, k');
  }

  lemma DrawsFreshTokens(db: Db, run: Run, a: string, b: string)
    requires LeavesTokens(db) && |run.states| == 4 && run.states[0] == Initialize(Some(db)) && |run.ops| == 3
    requires Issues(run.ops[0]) == {} && run.ops[1].Rearms? && run.ops[1].token == a
    requires run.ops[2].Claims? && run.ops[2].tokens == [b]
    requires (run.ops[0].One? || run.ops[0].Many?) && ValidToken(a) && ValidToken(b) && a != b
    requires a !in TokensIn(db.table, db.table.Keys) && b !in TokensIn(db.table, db.table.Keys)
    ensures FreshTokens(run)
  {
    hide Initialize, TokensIn, Pow10, LeavesTokens, Holds, Seen, Issues, ValidToken;
    assert Issues(run.ops[1]) == {a} && Issues(run.ops[2]) == {b} by { IssuedHere(run.ops[1], run.ops[2], a, b); }
    NotSeenYet(db, run, 1, a);
    NotSeenYet(db, run, 2, b);
    forall k, k', t | Holds(run, 0, k, t) && Holds(run, 0, k', t) ensures k == k' {
      FileTokensAreDistinct(db, run, k, k', t);
    }
    forall i, t | 0 <= i < 3 && t in Issues(run.ops[i]) ensures ValidToken(t) && !Seen(run, i, t) {
      assert (i == 1 && t == a) || (i == 2 && t == b);
    }
  }

  lemma IssuedHere(rearm: Op, claim: Op, a: string, b: string)
    requires rearm.Rearms? && rearm.token == a && claim.Claims? && claim.tokens == [b]
    ensures Issues(rearm) == {a} && Issues(claim) == {b}
  {
  }

  // ---------------------------------------------------------------- the exact condition

  /** Some later history hands the row out, drawing fresh tokens if the file leaves any. */
  ghost predicate EverHandedOut(db: Db, k: Key) {
    exists run, n: nat ::
      && IsRun(run) && run.file == Some(db) && (LeavesTokens(db) ==> FreshTokens(run))
      && n < |run.ops| && HandsOut(run.states[n], run.ops[n], k)
  }

  lemma ThreeStepRun(db: Db, a: Op, b: Op, c: Op) returns (run: Run)
    requires a.WellFormed() && b.WellFormed() && c.WellFormed()
    ensures IsRun(run) && run.file == Some(db) && run.ops == [a, b, c]
    ensures |run.states| == 4 && run.states[0] == Initialize(Some(db))
    ensures run.states[2] == Apply(Apply(Initialize(Some(db)), a).0, b).0
  {
    hide Apply, Initialize;
    var s0 := Initialize(Some(db));
    var s1 := Apply(s0, a).0;
    var s2 := Apply(s1, b).0;
    run := Run(Some(db), [s0, s1, s2, Apply(s2, c).0], [a, b, c]);
  }

  lemma ReleasableRowsCanComeBack(db: Db, k: Key)
    requires k in Initialize(Some(db)).table && Releasable(Initialize(Some(db)).table[k])
    ensures EverHandedOut(db, k)
  {
    hide Apply, Initialize, HandsOut, IsRun, LeavesTokens, FreshTokens, TokensIn;
    var s0 := Initialize(Some(db));
    var row := s0.table[k];
    var r := Record(k, row.digest, row.plan);
    var a, b := TwoNewTokens(db);
    var release, rearm, claim := ReleaseOp(r, row), Rearms(r, Quarantined, a, 1, FIRST), Claims([r], [b], 1, LATER);
    ReleaseQuarantines(s0, r);
    RearmMakesItClaimable(Apply(s0, release).0, r, a);
    ExpiredClaimIsHandedOut(Apply(Apply(s0, release).0, rearm).0, r, b);
    var run := ThreeStepRun(db, release, rearm, claim);
    if LeavesTokens(db) { DrawsFreshTokens(db, run, a, b); }
    assert HandsOut(run.states[2], run.ops[2], k);
  }

  /**
   A row that is older than the marker can be handed out by a claim in some later history exactly
   when its earlier write is still open and its owner can still quarantine it. The rows the
   conversion fenced never can; the rows it only renamed to the batch states can.
   */
  lemma OldRowsHandedOutIff(db: Db, k: Key)
    requires !db.fenced && k in db.table
    ensures EverHandedOut(db, k) <==> Releasable(Initialize(Some(db)).table[k])
  {
    ConversionIsConservative(db, k);
    if Releasable(Initialize(Some(db)).table[k]) {
      ReleasableRowsCanComeBack(db, k);
    } else {
      forall run, n: nat | IsRun(run) && run.file == Some(db) && n < |run.ops|
        ensures !HandsOut(run.states[n], run.ops[n], k)
      {
        assert RowAt(run, 0, k) == Some(Initialize(Some(db)).table[k]);
        LockedRowsAreNeverHandedOut(run, n, k);
      }
    }
  }
}
