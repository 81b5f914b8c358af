/** `claim_many` is all-or-none, and a successful group claim is the claims one by one in any order. */
module LedgerClaims {
  import opened Outcomes
  import opened Clock
  import opened Ledger

  function RecordKeys(records: seq<Record>): set<Key> {
    set i | 0 <= i < |records| :: records[i].key
  }

  /** What claiming the i-th record alone would do to the table the group found. */
  function ClaimAt(t: Table, records: seq<Record>, tokens: seq<string>, now: Utc, until: Utc, i: nat): Result<Claim>
    requires |tokens| == |records| && i < |records|
  {
    ClaimRow(Lookup(t, records[i].key), records[i], tokens[i], now, until)
  }

  /** `after` and `results` are what all the claims do at once to the table `t`. */
  ghost predicate AllClaimed(t: Table, records: seq<Record>, tokens: seq<string>, now: Utc, until: Utc,
                             after: Table, results: seq<ClaimResult>)
    requires |tokens| == |records|
  {
    && |results| == |records|
    && (forall i :: 0 <= i < |records| ==>
          && records[i].key in after
          && ClaimAt(t, records, tokens, now, until, i) == Ok(Claim(after[records[i].key], results[i])))
    && (forall k :: k !in RecordKeys(records) ==> Lookup(after, k) == Lookup(t, k))
  }

  /** `e` is the failure of the first record that fails. */
  ghost predicate FirstFailure(t: Table, records: seq<Record>, tokens: seq<string>, now: Utc, until: Utc, e: Error)
    requires |tokens| == |records|
  {
    exists i :: 0 <= i < |records| && ClaimAt(t, records, tokens, now, until, i) == Err(e) &&
                forall j :: 0 <= j < i ==> ClaimAt(t, records, tokens, now, until, j).Ok?
  }

  lemma LastKey(records: seq<Record>)
    requires records != [] && DistinctKeys(records)
    ensures var n := |records| - 1;
            && RecordKeys(records) == RecordKeys(records[..n]) + {records[n].key}
            && records[n].key !in RecordKeys(records[..n])
  {
    var front := records[..|records| - 1];
    assert forall i :: 0 <= i < |front| ==> records[i] == front[i];
  }

  lemma AllClaimedExtends(t: Table, records: seq<Record>, tokens: seq<string>, now: Utc, until: Utc,
                          before: Table, results: seq<ClaimResult>, claim: Claim)
    requires |tokens| == |records| && records != [] && DistinctKeys(records)
    requires var n := |records| - 1; AllClaimed(t, records[..n], tokens[..n], now, until, before, results)
    requires ClaimAt(t, records, tokens, now, until, |records| - 1) == Ok(claim)
    ensures AllClaimed(t, records, tokens, now, until,
                       before[records[|records| - 1].key := claim.row], results + [claim.result])
  {
    hide ClaimRow;
    var n := |records| - 1;
    LastKey(records);
    forall i | 0 <= i < n
      ensures ClaimAt(t, records, tokens, now, until, i) == Ok(Claim(before[records[i].key], results[i]))
    {
      assert ClaimAt(t, records[..n], tokens[..n], now, until, i) == Ok(Claim(before[records[..n][i].key], results[i]));
    }
  }

  /** The loop of `claim_many` acts on all its records at once: it fails with the first record that fails. */
  lemma {:induction false} ClaimFoldIsParallel(t: Table, records: seq<Record>, tokens: seq<string>,
      now: Utc, until: Utc)
    requires |tokens| == |records| && DistinctKeys(records)
    ensures match ClaimFold(t, records, tokens, now, until)
            case Ok((after, results)) => AllClaimed(t, records, tokens, now, until, after, results)
            case Err(e) => FirstFailure(t, records, tokens, now, until, e)
  {
    hide ClaimRow;
    if records != [] {
      var n := |records| - 1;
      ClaimFoldIsParallel(t, records[..n], tokens[..n], now, until);
      LastKey(records);
      var fold := ClaimFold(t, records[..n], tokens[..n], now, until);
      forall i | 0 <= i < n
        ensures ClaimAt(t, records[..n], tokens[..n], now, until, i) == ClaimAt(t, records, tokens, now, until, i)
      {
      }
      match fold {
        case Err(e) =>
        case Ok((before, results)) =>
          assert Lookup(before, records[n].key) == Lookup(t, records[n].key);
          var claim := ClaimAt(t, records, tokens, now, until, n);
          if claim.Ok? {
            AllClaimedExtends(t, records, tokens, now, until, before, results, claim.value);
          }
      }
    }
  }

  /** One failing record leaves the ledger as it was; a failing record is the only reason to fail past the checks. */
  lemma ClaimManyIsAllOrNone(db: Db, records: seq<Record>, tokens: seq<string>, lease: int, now: Utc)
    requires |tokens| == |records| && records != []
    requires ValidLease(lease) && |records| <= MAX_BATCH_ITEMS && DistinctKeys(records) && Plus(now, lease).Some?
    ensures
      var until: Utc := (PlusIsValid(now, lease); Plus(now, lease).value);
      var (after, reply) := Apply(db, Claims(records, tokens, lease, now));
      && (reply.Failed? <==> exists i :: 0 <= i < |records| && ClaimAt(db.table, records, tokens, now, until, i).Err?)
      && (reply.Failed? ==> after == db)
  {
    hide ClaimRow;
    PlusIsValid(now, lease);
    ClaimFoldIsParallel(db.table, records, tokens, now, Plus(now, lease).value);
  }

  // ---------------------------------------------------------------- any order

  /** `p` lists the indices 0..n-1 in some order and `q` undoes it. */
  ghost predicate Permutes(p: seq<nat>, q: seq<nat>, n: nat) {
    && |p| == |q| == n
    && (forall i :: 0 <= i < n ==> p[i] < n && q[p[i]] == i)
    && (forall i :: 0 <= i < n ==> q[i] < n && p[q[i]] == i)
  }

  ghost function Reorder<T>(s: seq<T>, p: seq<nat>): seq<T>
    requires |p| == |s| && forall i :: 0 <= i < |p| ==> p[i] < |s|
  {
    seq(|p|, i requires 0 <= i < |p| => s[p[i]])
  }

  lemma ReorderedKeys(records: seq<Record>, p: seq<nat>, q: seq<nat>)
    requires DistinctKeys(records) && Permutes(p, q, |records|)
    ensures DistinctKeys(Reorder(records, p)) && RecordKeys(Reorder(records, p)) == RecordKeys(records)
  {
    var moved := Reorder(records, p);
    forall i, j | 0 <= i < j < |moved| ensures moved[i].key != moved[j].key {
      assert q[p[i]] == i && q[p[j]] == j;
    }
    forall i | 0 <= i < |records| ensures records[i].key in RecordKeys(moved) {
      assert moved[q[i]] == records[i];
    }
  }

  lemma ReorderedClaimsSucceed(
      t: Table, records: seq<Record>, tokens: seq<string>, now: Utc, until: Utc, p: seq<nat>, q: seq<nat>,
      after: Table, results: seq<ClaimResult>)
    requires |tokens| == |records| && DistinctKeys(records) && Permutes(p, q, |records|)
    requires AllClaimed(t, records, tokens, now, until, after, results)
    ensures AllClaimed(t, Reorder(records, p), Reorder(tokens, p), now, until, after, Reorder(results, p))
  {
    hide ClaimRow;
    ReorderedKeys(records, p, q);
    var moved, movedTokens := Reorder(records, p), Reorder(tokens, p);
    forall i | 0 <= i < |moved|
      ensures ClaimAt(t, moved, movedTokens, now, until, i) == Ok(Claim(after[moved[i].key], Reorder(results, p)[i]))
    {
      assert ClaimAt(t, records, tokens, now, until, p[i]) == Ok(Claim(after[records[p[i]].key], results[p[i]]));
    }
  }

  /** What all the claims do at once is determined. */
  lemma AllClaimedIsUnique(
      t: Table, records: seq<Record>, tokens: seq<string>, now: Utc, until: Utc,
      a: Table, r: seq<ClaimResult>, b: Table, s: seq<ClaimResult>)
    requires |tokens| == |records|
    requires AllClaimed(t, records, tokens, now, until, a, r) && AllClaimed(t, records, tokens, now, until, b, s)
    ensures a == b && r == s
  {
    hide ClaimRow;
    forall i | 0 <= i < |records| ensures r[i] == s[i] && a[records[i].key] == b[records[i].key] {
      assert ClaimAt(t, records, tokens, now, until, i) == Ok(Claim(a[records[i].key], r[i]));
      assert ClaimAt(t, records, tokens, now, until, i) == Ok(Claim(b[records[i].key], s[i]));
    }
    forall k ensures Lookup(a, k) == Lookup(b, k) {
      if k in RecordKeys(records) {
        var i :| 0 <= i < |records| && records[i].key == k;
      }
    }
    assert forall k :: k in a <==> Lookup(a, k).Some?;
    assert forall k :: k in b <==> Lookup(b, k).Some?;
    forall k | k in a ensures k in b && a[k] == b[k] { assert Lookup(a, k) == Lookup(b, k); }
    forall k | k in b ensures k in a { assert Lookup(a, k) == Lookup(b, k); }
  }

  lemma ClaimFoldIgnoresOrder(
      t: Table, records: seq<Record>, tokens: seq<string>, now: Utc, until: Utc, p: seq<nat>, q: seq<nat>)
    requires |tokens| == |records| && DistinctKeys(records) && Permutes(p, q, |records|)
    requires ClaimFold(t, records, tokens, now, until).Ok?
    ensures DistinctKeys(Reorder(records, p))
    ensures var (after, results) := ClaimFold(t, records, tokens, now, until).value;
            |results| == |records| &&
            ClaimFold(t, Reorder(records, p), Reorder(tokens, p), now, until) == Ok((after, Reorder(results, p)))
  {
    var moved, movedTokens := Reorder(records, p), Reorder(tokens, p);
    ReorderedKeys(records, p, q);
    ClaimFoldIsParallel(t, records, tokens, now, until);
    ClaimFoldIsParallel(t, moved, movedTokens, now, until);
    var (after, results) := ClaimFold(t, records, tokens, now, until).value;
    ReorderedClaimsSucceed(t, records, tokens, now, until, p, q, after, results);
    hide ClaimFold, ClaimRow;
    var fold := ClaimFold(t, moved, movedTokens, now, until);
    assert fold.Ok?;
    AllClaimedIsUnique(t, moved, movedTokens, now, until, after, Reorder(results, p), fold.value.0, fold.value.1);
  }

  /** Calling `claim` for each record in turn, all at one clock reading. */
  function OneByOne(db: Db, records: seq<Record>, tokens: seq<string>, lease: int, now: Utc): (Db, seq<Reply>)
    requires |tokens| == |records|
  {
    if records == [] then (db, [])
    else
      var n := |records| - 1;
      var (before, replies) := OneByOne(db, records[..n], tokens[..n], lease, now);
      var (after, reply) := Apply(before, Claims([records[n]], [tokens[n]], lease, now));
      (after, replies + [reply])
  }

  lemma ClaimFoldOfOne(t: Table, r: Record, token: string, now: Utc, until: Utc, claim: Claim)
    requires ClaimRow(Lookup(t, r.key), r, token, now, until) == Ok(claim)
    ensures ClaimFold(t, [r], [token], now, until) == Ok((t[r.key := claim.row], [claim.result]))
  {
    var none: seq<ClaimResult> := [];
    assert ClaimFold(t, [r][..0], [token][..0], now, until) == Ok((t, none));
    assert none + [claim.result] == [claim.result];
  }

  ghost function Replies(results: seq<ClaimResult>): seq<Reply> {
    seq(|results|, i requires 0 <= i < |results| => Granted([results[i]]))
  }

  lemma {:induction false} OneByOneIsClaimFold(db: Db, records: seq<Record>, tokens: seq<string>,
      lease: int, now: Utc, until: Utc)
    requires |tokens| == |records| && ValidLease(lease) && Plus(now, lease) == Some(until)
    requires ClaimFold(db.table, records, tokens, now, until).Ok?
    ensures var (after, results) := ClaimFold(db.table, records, tokens, now, until).value;
            |results| == |records| &&
            OneByOne(db, records, tokens, lease, now) == (db.(table := after), Replies(results))
  {
    if records == [] {
      assert Replies([]) == [];
    } else {
      var n := |records| - 1;
      OneByOneIsClaimFold(db, records[..n], tokens[..n], lease, now, until);
      var (before, results) := ClaimFold(db.table, records[..n], tokens[..n], now, until).value;
      var claim := ClaimRow(Lookup(before, records[n].key), records[n], tokens[n], now, until).value;
      ClaimFoldOfOne(before, records[n], tokens[n], now, until, claim);
      var single := Claims([records[n]], [tokens[n]], lease, now);
      assert Apply(db.(table := before), single).1 == Granted([claim.result]);
      assert Replies(results + [claim.result]) == Replies(results) + [Granted([claim.result])];
    }
  }

  /** A group claim that succeeds is the single claims, made in any order at the same clock reading. */
  lemma ClaimManyIsOneByOneInAnyOrder(
      db: Db, records: seq<Record>, tokens: seq<string>, lease: int, now: Utc, p: seq<nat>, q: seq<nat>)
    requires |tokens| == |records| && Permutes(p, q, |records|)
    requires Apply(db, Claims(records, tokens, lease, now)).1.Granted?
    ensures var (after, reply) := Apply(db, Claims(records, tokens, lease, now));
            && |reply.results| == |records|
            && OneByOne(db, Reorder(records, p), Reorder(tokens, p), lease, now) ==
               (after, Reorder(Replies(reply.results), p))
  {
    if records != [] {
      PlusIsValid(now, lease);
      var until: Utc := Plus(now, lease).value;
      ClaimFoldIgnoresOrder(db.table, records, tokens, now, until, p, q);
      OneByOneIsClaimFold(db, Reorder(records, p), Reorder(tokens, p), lease, now, until);
      var results := ClaimFold(db.table, records, tokens, now, until).value.1;
      assert Replies(Reorder(results, p)) == Reorder(Replies(results), p);
    }
  }
}
