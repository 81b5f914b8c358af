/**
 The bounded streaming check of a gzip file (RFC 1952 section 2.2): any number of members, zero
 padding behind each, a decompressor that may stop anywhere.
 */
module Gzip {
  import opened Octets

  const CHUNK := 65_536
  const RATIO_MIN_OUTPUT := 1024 * 1024

  datatype Policy = Policy(maxMembers: nat, maxMemberBytes: nat, maxTotalBytes: nat, maxRatio: real)

  datatype Risk = TooManyEntries | MemberTooLarge | TooLarge | HighRatio | Malformed

  /** One call of the decompressor: what it left of its input, how much it wrote, whether the member is over. */
  datatype Inflate<D> = Inflated(state: D, rest: Bytes, emitted: nat, eof: bool) | Broken

  /** All that is assumed of the decompressor: it consumes a prefix and writes at most one chunk. */
  ghost predicate WellBehaved<D(!new)>(step: (D, Bytes) -> Inflate<D>) {
    forall d, input :: step(d, input).Inflated? ==>
      IsSuffix(step(d, input).rest, input) && step(d, input).emitted <= CHUNK
  }

  predicate IsSuffix(rest: Bytes, all: Bytes) {
    |rest| <= |all| && all[|all| - |rest|..] == rest
  }

  /** What is inspected, under which limits, and the decompressor with the state it starts a member in. */
  datatype Job<!D> = Job(file: Bytes, policy: Policy, start: D, step: (D, Bytes) -> Inflate<D>)

  // ---------------------------------------------------------------- chunks of a file

  function Min(a: nat, b: nat): nat { if a < b then a else b }

  /** `handle.read(CHUNK)` at `position`. */
  function Read(file: Bytes, position: nat): Bytes
    requires position <= |file|
  {
    file[position..Min(position + CHUNK, |file|)]
  }

  /** How far it is to the end of the chunk that `here` is in. */
  function ToBorder(here: nat): (n: nat)
    ensures 0 < n <= CHUNK
  {
    CHUNK - here % CHUNK
  }

  function BlockEnd(file: Bytes, here: nat): (end: nat)
    requires here <= |file|
    ensures here <= end <= |file| && (here < |file| ==> here < end)
  {
    Min(here + ToBorder(here), |file|)
  }

  /** The bytes from `here` to the end of its chunk. */
  function Block(file: Bytes, here: nat): Bytes
    requires here <= |file|
  {
    file[here..BlockEnd(file, here)]
  }

  /** Reading goes on chunk by chunk: a place where a chunk begins, or the end of the file. */
  predicate AtBorder(file: Bytes, position: nat) {
    position % CHUNK == 0 || position == |file|
  }

  /** What is pending is the rest of the last chunk read. */
  predicate Buffered(file: Bytes, position: nat, pending: Bytes) {
    && |pending| <= position <= |file| && AtBorder(file, position)
    && (pending != [] ==> position == BlockEnd(file, position - |pending|))
  }

  lemma ReadIsBlock(file: Bytes, position: nat)
    requires position <= |file| && AtBorder(file, position)
    ensures Read(file, position) == Block(file, position)
    ensures Buffered(file, position + |Read(file, position)|, Read(file, position))
  {
    if position < |file| { assert ToBorder(position) == CHUNK; }
  }

  lemma StillBuffered(file: Bytes, position: nat, pending: Bytes, rest: Bytes)
    requires Buffered(file, position, pending) && |rest| <= |pending|
    ensures Buffered(file, position, rest)
  {
    if rest != [] {
      var here, there := position - |pending|, position - |rest|;
      SameChunk(here, there);
    }
  }

  lemma SameChunk(here: nat, there: nat)
    requires here <= there < here + ToBorder(here)
    ensures there + ToBorder(there) == here + ToBorder(here)
  {
    var q := here / CHUNK;
    assert there / CHUNK == q;
  }

  // ---------------------------------------------------------------- sessions of the decompressor

  /** A call that was made and did not fail. */
  datatype Call<D> = Call(before: D, offered: Bytes, after: D, rest: Bytes, emitted: nat, eof: bool)

  function Eaten<D>(c: Call<D>): Bytes {
    if |c.rest| <= |c.offered| then c.offered[..|c.offered| - |c.rest|] else []
  }

  function Consumed<D>(calls: seq<Call<D>>): Bytes {
    if |calls| == 0 then [] else Consumed(calls[..|calls| - 1]) + Eaten(calls[|calls| - 1])
  }

  function Emitted<D>(calls: seq<Call<D>>): nat {
    if |calls| == 0 then 0 else Emitted(calls[..|calls| - 1]) + calls[|calls| - 1].emitted
  }

  /** The state the decompressor is in after the calls. */
  function After<D>(start: D, calls: seq<Call<D>>): D {
    if |calls| == 0 then start else calls[|calls| - 1].after
  }

  predicate Finished<D>(calls: seq<Call<D>>) {
    |calls| > 0 && calls[|calls| - 1].eof
  }

  /** A call that neither reads nor writes, and does not end the member. */
  predicate Idle<D>(c: Call<D>) {
    !c.eof && c.emitted == 0 && Eaten(c) == []
  }

  ghost predicate Busy<D>(calls: seq<Call<D>>) {
    forall j :: 0 <= j < |calls| ==> !Idle(calls[j])
  }

  /** The j-th call is a call of the decompressor, in the state the earlier calls left, on what is to be offered. */
  ghost predicate Continues<D>(job: Job<D>, at: nat, calls: seq<Call<D>>, j: nat)
    requires j < |calls|
  {
    var c, before := calls[j], calls[..j];
    && job.step(c.before, c.offered) == Inflated(c.after, c.rest, c.emitted, c.eof)
    && c.before == After(job.start, before) && Offers(job.file, at, before, c.offered) && !Finished(before)
  }

  /** What is offered after the calls on a member that begins at `at`: the rest of the chunk they have come to. */
  ghost predicate Offers<D>(file: Bytes, at: nat, calls: seq<Call<D>>, offered: Bytes) {
    var here := at + |Consumed(calls)|;
    here < |file| && offered == Block(file, here)
  }

  /** The calls on one member that begins at `at`. */
  ghost predicate Session<D>(job: Job<D>, at: nat, calls: seq<Call<D>>) {
    forall j :: 0 <= j < |calls| ==> Continues(job, at, calls, j)
  }

  // ---------------------------------------------------------------- how a file is taken apart

  /** A completed member, as the calls that decompressed it; or the padding behind one. */
  datatype Segment<D> = Member(calls: seq<Call<D>>) | Padding(zeros: Bytes)

  function Content<D>(s: Segment<D>): Bytes {
    match s case Member(calls) => Consumed(calls) case Padding(zeros) => zeros
  }

  function Flatten<D>(segments: seq<Segment<D>>): Bytes {
    if |segments| == 0 then []
    else Flatten(segments[..|segments| - 1]) + Content(segments[|segments| - 1])
  }

  function Members<D>(segments: seq<Segment<D>>): nat {
    if |segments| == 0 then 0
    else Members(segments[..|segments| - 1]) + (if segments[|segments| - 1].Member? then 1 else 0)
  }

  /** What the decompressor wrote, over all members. */
  function Outputs<D>(segments: seq<Segment<D>>): nat {
    if |segments| == 0 then 0
    else Outputs(segments[..|segments| - 1]) + OutputOf(segments[|segments| - 1])
  }

  function OutputOf<D>(s: Segment<D>): nat {
    if s.Member? then Emitted(s.calls) else 0
  }

  /** What the decompressor read, over all members. */
  function Inputs<D>(segments: seq<Segment<D>>): nat {
    if |segments| == 0 then 0
    else Inputs(segments[..|segments| - 1]) + InputOf(segments[|segments| - 1])
  }

  function InputOf<D>(s: Segment<D>): nat {
    if s.Member? then |Consumed(s.calls)| else 0
  }

  predicate AllZero(b: Bytes) {
    forall i :: 0 <= i < |b| ==> b[i] == 0
  }

  function Ratio(output: nat, input: nat): real {
    output as real / (if input == 0 then 1 else input) as real
  }

  predicate TooDense(output: nat, input: nat, policy: Policy) {
    output >= RATIO_MIN_OUTPUT && Ratio(output, input) > policy.maxRatio
  }

  /** A member or a file is too dense if a megabyte or more came out, and more than the ratio times what went in. */
  lemma DenseMeans(output: nat, input: nat, policy: Policy)
    ensures TooDense(output, input, policy) <==>
            output >= 1_048_576 && output as real > policy.maxRatio * (if input == 0 then 1 else input) as real
  {
    var n := (if input == 0 then 1 else input) as real;
    assert output as real == Ratio(output, input) * n;
    if Ratio(output, input) > policy.maxRatio {
      Scaled(policy.maxRatio, Ratio(output, input), n);
    } else {
      ScaledAtMost(Ratio(output, input), policy.maxRatio, n);
    }
  }

  lemma Scaled(a: real, b: real, n: real)
    requires a < b && n > 0.0
    ensures a * n < b * n
  {
  }

  lemma ScaledAtMost(a: real, b: real, n: real)
    requires a <= b && n > 0.0
    ensures a * n <= b * n
  {
  }

  predicate StartsNonZero(b: Bytes) {
    b != [] && b[0] != 0
  }

  predicate NonZeroAt(file: Bytes, at: nat) {
    at < |file| && file[at] != 0
  }

  /** The calls are a whole member within its limits; behind other segments it does not begin with padding. */
  ghost predicate LawfulMember<D>(job: Job<D>, at: nat, first: bool, calls: seq<Call<D>>) {
    && Session(job, at, calls) && Finished(calls) && Busy(calls)
    && (!first ==> NonZeroAt(job.file, at))
    && Emitted(calls) <= job.policy.maxMemberBytes
    && !TooDense(Emitted(calls), |Consumed(calls)|, job.policy)
  }

  /** All the zeros from `at` on. */
  ghost predicate IsPadding(file: Bytes, at: nat, zeros: Bytes) {
    var end := at + |zeros|;
    zeros != [] && AllZero(zeros) && (end == |file| || NonZeroAt(file, end))
  }

  /** A member is a finished session within the limits; padding is all the zeros behind a member. */
  ghost predicate LawfulAt<D>(job: Job<D>, segments: seq<Segment<D>>, i: nat)
    requires i < |segments|
  {
    var at := |Flatten(segments[..i])|;
    match segments[i]
    case Member(calls) => LawfulMember(job, at, i == 0, calls)
    case Padding(zeros) => IsPadding(job.file, at, zeros) && i > 0 && segments[i - 1].Member?
  }

  ghost predicate Lawful<D>(job: Job<D>, segments: seq<Segment<D>>) {
    forall i :: 0 <= i < |segments| ==> LawfulAt(job, segments, i)
  }

  lemma Appended<D>(segments: seq<Segment<D>>, s: Segment<D>)
    ensures var more := segments + [s];
            && Flatten(more) == Flatten(segments) + Content(s)
            && Members(more) == Members(segments) + (if s.Member? then 1 else 0)
            && Outputs(more) == Outputs(segments) + OutputOf(s)
            && Inputs(more) == Inputs(segments) + InputOf(s)
  {
    assert (segments + [s])[..|segments|] == segments;
  }

  lemma CallAppended<D>(calls: seq<Call<D>>, c: Call<D>, start: D)
    ensures var more := calls + [c];
            && Consumed(more) == Consumed(calls) + Eaten(c)
            && Emitted(more) == Emitted(calls) + c.emitted
            && After(start, more) == c.after && Finished(more) == c.eof
  {
    assert (calls + [c])[..|calls|] == calls;
  }

  lemma LawfulAppended<D>(job: Job<D>, segments: seq<Segment<D>>, s: Segment<D>)
    requires Lawful(job, segments)
    requires s.Member? ==> LawfulMember(job, |Flatten(segments)|, |segments| == 0, s.calls)
    requires s.Padding? ==> IsPadding(job.file, |Flatten(segments)|, s.zeros)
    requires s.Padding? ==> |segments| > 0 && segments[|segments| - 1].Member?
    ensures Lawful(job, segments + [s])
  {
    hide LawfulMember, IsPadding, Flatten;
    var more := segments + [s];
    forall i | 0 <= i < |more| ensures LawfulAt(job, more, i) {
      assert more[..i] == segments[..i];
      if i < |segments| {
        assert LawfulAt(job, segments, i);
      } else {
        assert segments[..i] == segments;
      }
    }
  }

  lemma SessionAppended<D>(job: Job<D>, at: nat, calls: seq<Call<D>>, c: Call<D>)
    requires Session(job, at, calls) && !Finished(calls) && Offers(job.file, at, calls, c.offered)
    requires c.before == After(job.start, calls)
    requires job.step(c.before, c.offered) == Inflated(c.after, c.rest, c.emitted, c.eof)
    ensures Session(job, at, calls + [c])
  {
    hide Offers, After;
    var more := calls + [c];
    assert more[..|calls|] == calls;
    forall j | 0 <= j < |more| ensures Continues(job, at, more, j) {
      if j < |calls| {
        assert Continues(job, at, calls, j);
        assert more[..j] == calls[..j];
      }
    }
  }

  // ---------------------------------------------------------------- reading

  /** `pending.lstrip(b"\x00")`. */
  method StripZeros(b: Bytes) returns (rest: Bytes)
    ensures IsSuffix(rest, b) && AllZero(b[..|b| - |rest|]) && (rest != [] ==> rest[0] != 0)
  {
    var i := 0;
    while i < |b| && b[i] == 0
      invariant 0 <= i <= |b| && AllZero(b[..i])
    {
      i := i + 1;
    }
    rest := b[i..];
  }

  /** Skips the padding behind a member, reading on as far as it goes. */
  method SkipPadding(file: Bytes, position: nat, pending: Bytes, ghost done: Bytes)
    returns (position': nat, pending': Bytes, zeros: Bytes)
    requires position <= |file| && file[..position] == done + pending
    requires Buffered(file, position, pending) && (pending == [] ==> position == |file|)
    ensures position <= position' <= |file| && file[..position'] == done + zeros + pending'
    ensures Buffered(file, position', pending')
    ensures AllZero(zeros) && if pending' == [] then position' == |file| else StartsNonZero(pending')
    ensures |file| - position' + |pending'| == |file| - position + |pending| - |zeros|
  {
    hide Buffered, Block;
    position', pending', zeros := position, pending, [];
    while pending' != []
      invariant position <= position' <= |file| && file[..position'] == done + zeros + pending'
      invariant Buffered(file, position', pending') && AllZero(zeros) && (pending' == [] ==> position' == |file|)
      invariant |file| - position' + |pending'| == |file| - position + |pending| - |zeros|
      decreases |file| - position' + |pending'|
    {
      var rest := StripZeros(pending');
      var stripped := pending'[..|pending'| - |rest|];
      assert pending' == stripped + rest;
      assert done + zeros + pending' == done + (zeros + stripped) + rest;
      StillBuffered(file, position', pending', rest);
      zeros, pending' := zeros + stripped, rest;
      if pending' != [] { break; }
      ReadIsBlock(file, position');
      var chunk := Read(file, position');
      assert file[..position' + |chunk|] == file[..position'] + chunk;
      position', pending' := position' + |chunk|, chunk;
    }
  }

  // ---------------------------------------------------------------- the record of an inspection

  /** The segments that are done and the calls on the member that is not. */
  datatype Trace<D> = Trace(done: seq<Segment<D>>, open: seq<Call<D>>)

  /** The loop variables: how far the file was read, where those bytes have gone, and what came out. */
  datatype Stream = Stream(position: nat, pending: Bytes, consumed: nat, padding: nat,
                           members: nat, totalOutput: nat, memberOutput: nat, memberInput: nat)

  /** Every byte read so far is in a finished segment, in the current member, or pending. */
  ghost predicate Accounted(file: Bytes, position: nat, done: Bytes, current: Bytes, pending: Bytes) {
    position <= |file| && file[..position] == done + current + pending
  }

  /** Every byte read was consumed by a member, was padding, or is pending. */
  predicate Conserved(file: Bytes, st: Stream) {
    st.position <= |file| && st.position == st.consumed + st.padding + |st.pending|
  }

  /**
   The loop variables are the numbers of a genuine record: every done segment is lawful, the open
   calls are a session of the decompressor, and together with the pending bytes they are the bytes read.
   */
  ghost predicate Recorded<D>(job: Job<D>, st: Stream, tr: Trace<D>) {
    && Accounted(job.file, st.position, Flatten(tr.done), Consumed(tr.open), st.pending) && Conserved(job.file, st)
    && Lawful(job, tr.done) && Session(job, |Flatten(tr.done)|, tr.open)
    && (|tr.done| > 0 && |tr.open| > 0 ==> NonZeroAt(job.file, |Flatten(tr.done)|))
    && st.consumed == Inputs(tr.done) + |Consumed(tr.open)| && st.memberInput == |Consumed(tr.open)|
    && st.totalOutput == Outputs(tr.done) + Emitted(tr.open) && st.memberOutput == Emitted(tr.open)
  }

  /** No limit is exceeded so far. */
  ghost predicate Within<D>(policy: Policy, st: Stream, tr: Trace<D>) {
    && st.members == Members(tr.done) <= policy.maxMembers
    && st.totalOutput <= policy.maxTotalBytes && st.memberOutput <= policy.maxMemberBytes
  }

  /** No member is open, and the last segment, if there is one, is a member. */
  ghost predicate Between<D>(file: Bytes, st: Stream, tr: Trace<D>) {
    && |tr.open| == 0 && Buffered(file, st.position, st.pending)
    && (st.members > 0 ==> |tr.done| > 0 && tr.done[|tr.done| - 1].Member?)
    && (st.members == 0 ==> |tr.done| == 0)
  }

  /** A member is open, or about to be, with the decompressor in state `d`. */
  ghost predicate Active<D>(job: Job<D>, st: Stream, tr: Trace<D>, d: D) {
    && st.members < job.policy.maxMembers && d == After(job.start, tr.open) && !Finished(tr.open) && Busy(tr.open)
    && Buffered(job.file, st.position, st.pending) && (|tr.open| == 0 ==> st.pending != [] && Opens(job.file, tr))
  }

  /** Behind the done segments something begins that is no padding. */
  ghost predicate Opens<D>(file: Bytes, tr: Trace<D>) {
    |tr.done| > 0 ==> NonZeroAt(file, |Flatten(tr.done)|)
  }

  predicate IsMagic(b: Bytes) {
    |b| >= 2 && b[0] == 0x1F && b[1] == 0x8B
  }

  /** ID1 and ID2 of RFC 1952 section 2.3.1. */
  lemma MagicIsRfc1952(b: Bytes)
    ensures IsMagic(b) <==> [31, 139] <= b
  {
  }

  /** Everything has been read and belongs to a done segment. */
  ghost predicate AtEnd<D>(file: Bytes, st: Stream, tr: Trace<D>) {
    st.position == |file| && st.pending == [] && |tr.open| == 0
  }

  /** All members allowed are done, and behind them and their padding there is more. */
  ghost predicate IsOver<D>(job: Job<D>, st: Stream, tr: Trace<D>) {
    |tr.open| == 0 && Members(tr.done) == job.policy.maxMembers && st.pending != [] && Opens(job.file, tr)
  }

  /** Why a file is malformed. */
  ghost predicate IsMalformed<D>(job: Job<D>, st: Stream, tr: Trace<D>) {
    // the decompressor fails on the bytes it is offered
    || (Offers(job.file, |Flatten(tr.done)|, tr.open, st.pending) && !Finished(tr.open) && Opens(job.file, tr) &&
        job.step(After(job.start, tr.open), st.pending).Broken?)
    // the file ends inside a member
    || (st.pending == [] && st.position == |job.file| && |tr.open| > 0 && !Finished(tr.open))
    // the decompressor makes no progress
    || (|tr.open| > 0 && Idle(tr.open[|tr.open| - 1]))
    // there is no member at all
    || (AtEnd(job.file, st, tr) && |tr.done| == 0)
    // the last member allowed is followed by something that is neither padding nor a member
    || (IsOver(job, st, tr) && !IsMagic(st.pending) && (|st.pending| < 2 ==> st.position == |job.file|))
  }

  /** What a risk says about the file. */
  ghost predicate Justified<D>(job: Job<D>, st: Stream, tr: Trace<D>, risk: Risk) {
    match risk
    case TooManyEntries => IsOver(job, st, tr) && IsMagic(st.pending)
    case MemberTooLarge => Emitted(tr.open) > job.policy.maxMemberBytes
    case TooLarge => Outputs(tr.done) + Emitted(tr.open) > job.policy.maxTotalBytes
    case HighRatio =>
      || (Finished(tr.open) && TooDense(Emitted(tr.open), |Consumed(tr.open)|, job.policy))
      || (AtEnd(job.file, st, tr) && TooDense(Outputs(tr.done), Inputs(tr.done), job.policy))
    case Malformed => IsMalformed(job, st, tr)
  }

  ghost predicate AllJustified<D>(job: Job<D>, st: Stream, tr: Trace<D>, risks: seq<Risk>) {
    forall i :: 0 <= i < |risks| ==> Justified(job, st, tr, risks[i])
  }

  function Unconsumed(file: Bytes, st: Stream): int {
    |file| - st.position + |st.pending|
  }

  // ---------------------------------------------------------------- the steps of the loop keep the record

  lemma NothingRead<D>(job: Job<D>, st: Stream, tr: Trace<D>)
    requires st == Stream(0, [], 0, 0, 0, 0, 0, 0) && tr == Trace([], [])
    ensures Recorded(job, st, tr) && Within(job.policy, st, tr)
  {
  }

  lemma AccountedAfterRead(file: Bytes, position: nat, done: Bytes, current: Bytes)
    requires Accounted(file, position, done, current, [])
    ensures var chunk := Read(file, position);
            && Accounted(file, position + |chunk|, done, current, chunk)
            && (chunk == [] <==> position == |file|)
  {
    var chunk := Read(file, position);
    assert file[..position + |chunk|] == file[..position] + chunk;
  }

  lemma RecordedAfterRead<D>(job: Job<D>, st: Stream, tr: Trace<D>)
    requires Recorded(job, st, tr) && st.pending == []
    ensures st.position <= |job.file|
    ensures var chunk := Read(job.file, st.position);
            && Recorded(job, st.(position := st.position + |chunk|, pending := chunk), tr)
            && (chunk == [] <==> st.position == |job.file|)
  {
    AccountedAfterRead(job.file, st.position, Flatten(tr.done), Consumed(tr.open));
  }

  /** `c` is a call that can follow the open ones: on the pending bytes, in the state they left. */
  ghost predicate NextCall<D>(job: Job<D>, st: Stream, tr: Trace<D>, c: Call<D>) {
    && job.step(c.before, c.offered) == Inflated(c.after, c.rest, c.emitted, c.eof) && IsSuffix(c.rest, c.offered)
    && c.before == After(job.start, tr.open) && c.offered == st.pending && !Finished(tr.open)
    && Offers(job.file, |Flatten(tr.done)|, tr.open, st.pending) && (|tr.open| == 0 ==> Opens(job.file, tr))
  }

  /** What is pending in an open member is what is to be offered next. */
  lemma PendingIsOffered<D>(job: Job<D>, st: Stream, tr: Trace<D>)
    requires Accounted(job.file, st.position, Flatten(tr.done), Consumed(tr.open), st.pending)
    requires st.pending != [] && Buffered(job.file, st.position, st.pending)
    ensures Offers(job.file, |Flatten(tr.done)|, tr.open, st.pending)
  {
    hide Flatten, Consumed, BlockEnd;
    var here := |Flatten(tr.done)| + |Consumed(tr.open)|;
    assert job.file[here..st.position] == job.file[..st.position][here..];
  }

  lemma AccountedAfterCall<D>(file: Bytes, position: nat, done: Bytes, current: Bytes, c: Call<D>)
    requires Accounted(file, position, done, current, c.offered) && IsSuffix(c.rest, c.offered)
    ensures Accounted(file, position, done, current + Eaten(c), c.rest)
  {
    assert c.offered == Eaten(c) + c.rest;
    assert done + current + (Eaten(c) + c.rest) == done + (current + Eaten(c)) + c.rest;
  }

  /** A successful call on the pending bytes extends the record by that call. */
  lemma RecordedAfterCall<D>(job: Job<D>, st: Stream, tr: Trace<D>, c: Call<D>)
    requires Recorded(job, st, tr) && NextCall(job, st, tr, c)
    ensures Recorded(job, Called(st, c), tr.(open := tr.open + [c]))
    ensures Unconsumed(job.file, Called(st, c)) == Unconsumed(job.file, st) - |Eaten(c)|
  {
    CallAppended(tr.open, c, job.start);
    SessionAppended(job, |Flatten(tr.done)|, tr.open, c);
    AccountedAfterCall(job.file, st.position, Flatten(tr.done), Consumed(tr.open), c);
    hide Flatten, Lawful, Inputs, Outputs, Emitted, Consumed, Session, Offers, Accounted;
  }

  /** The loop variables after a call. */
  function Called<D>(st: Stream, c: Call<D>): Stream {
    var consumed := |Eaten(c)|;
    st.(pending := c.rest, consumed := st.consumed + consumed, memberInput := st.memberInput + consumed,
        memberOutput := st.memberOutput + c.emitted, totalOutput := st.totalOutput + c.emitted)
  }

  lemma RecordedAfterMember<D>(job: Job<D>, st: Stream, tr: Trace<D>)
    requires Recorded(job, st, tr) && LawfulMember(job, |Flatten(tr.done)|, |tr.done| == 0, tr.open)
    ensures var next := Trace(tr.done + [Member(tr.open)], []);
            && Recorded(job, st.(memberOutput := 0, memberInput := 0), next)
            && Members(next.done) == Members(tr.done) + 1
  {
    var s := Member(tr.open);
    Appended(tr.done, s);
    hide LawfulMember, Members;
    LawfulAppended(job, tr.done, s);
    hide Lawful, Flatten, Inputs, Outputs;
    assert Flatten(tr.done) + Consumed(tr.open) + [] + st.pending == Flatten(tr.done) + Consumed(tr.open) + st.pending;
  }

  /** Behind the zeros that were skipped the file ends, or something begins that is no zero. */
  lemma PaddingEnds(file: Bytes, done: Bytes, zeros: Bytes, position: nat, pending: Bytes)
    requires position <= |file| && file[..position] == done + zeros + pending
    requires if pending == [] then position == |file| else StartsNonZero(pending)
    ensures var end := |done| + |zeros|; if pending == [] then end == |file| else NonZeroAt(file, end)
  {
    var end := |done| + |zeros|;
    if pending != [] { assert file[end] == file[..position][end] == pending[0]; }
  }

  /** The padding that was skipped, if there was any, is one more segment. */
  function Padded<D>(done: seq<Segment<D>>, zeros: Bytes): seq<Segment<D>> {
    if zeros == [] then done else done + [Padding(zeros)]
  }

  lemma PaddedIsLawful<D>(job: Job<D>, done: seq<Segment<D>>, zeros: Bytes)
    requires Lawful(job, done) && |done| > 0 && done[|done| - 1].Member?
    requires zeros != [] ==> IsPadding(job.file, |Flatten(done)|, zeros)
    ensures Lawful(job, Padded(done, zeros)) && Flatten(Padded(done, zeros)) == Flatten(done) + zeros
    ensures Members(Padded(done, zeros)) == Members(done) && Outputs(Padded(done, zeros)) == Outputs(done)
    ensures Inputs(Padded(done, zeros)) == Inputs(done)
  {
    var s: Segment<D> := Padding(zeros);
    Appended(done, s);
    hide IsPadding, Lawful;
    if zeros != [] { LawfulAppended(job, done, s); }
  }

  lemma NoCalls<D>(job: Job<D>, at: nat)
    ensures var none: seq<Call<D>> := []; Session(job, at, none) && Consumed(none) == [] && Emitted(none) == 0
  {
  }

  lemma RecordedAfterPadding<D>(job: Job<D>, st: Stream, tr: Trace<D>, st': Stream, zeros: Bytes)
    requires Recorded(job, st, tr) && |tr.open| == 0 && |tr.done| > 0 && tr.done[|tr.done| - 1].Member?
    requires st' == st.(position := st'.position, pending := st'.pending, padding := st.padding + |zeros|)
    requires st'.position <= |job.file| && AllZero(zeros)
    requires job.file[..st'.position] == Flatten(tr.done) + zeros + st'.pending
    requires if st'.pending == [] then st'.position == |job.file| else StartsNonZero(st'.pending)
    ensures var next := Trace(Padded(tr.done, zeros), []);
            && Recorded(job, st', next) && Members(next.done) == Members(tr.done)
            && (st'.pending != [] ==> Opens(job.file, next))
  {
    hide Lawful, Flatten, Inputs, Outputs, Members, Padded, NonZeroAt, AllZero, Session, Consumed, Emitted;
    PaddingEnds(job.file, Flatten(tr.done), zeros, st'.position, st'.pending);
    PaddedIsLawful(job, tr.done, zeros);
    assert tr.open == [];
    NoCalls(job, |Flatten(tr.done)| + |zeros|);
    assert Flatten(tr.done) + zeros + [] + st'.pending == Flatten(tr.done) + zeros + st'.pending;
    assert Flatten(tr.done) + [] + st.pending == Flatten(tr.done) + st.pending;
  }

  // ---------------------------------------------------------------- in front of a member

  /** Reads until the two bytes of a gzip signature are there, or the file ends. */
  method ReadMagic(file: Bytes, position: nat, pending: Bytes, ghost done: Bytes)
    returns (position': nat, pending': Bytes)
    requires position <= |file| && pending != [] && file[..position] == done + pending
    ensures position <= position' <= |file| && pending' != [] && file[..position'] == done + pending'
    ensures position' - |pending'| == position - |pending|
    ensures pending <= pending' && (|pending'| < 2 ==> position' == |file|)
  {
    position', pending' := position, pending;
    while |pending'| < 2
      invariant position <= position' <= |file| && pending' != [] && file[..position'] == done + pending'
      invariant position' - |pending'| == position - |pending| && pending <= pending'
      decreases |file| - position'
    {
      var extra := Read(file, position');
      if extra == [] { break; }
      assert file[..position' + |extra|] == file[..position'] + extra;
      assert done + pending' + extra == done + (pending' + extra);
      pending', position' := pending' + extra, position' + |extra|;
    }
  }

  lemma NextChunk(file: Bytes, position: nat)
    requires Buffered(file, position, [])
    ensures Buffered(file, position + |Read(file, position)|, Read(file, position))
  {
    ReadIsBlock(file, position);
  }

  /** Reads on if nothing is pending, and skips padding unless no member came before. */
  method SeekMember<D>(job: Job<D>, st: Stream, ghost tr: Trace<D>) returns (st': Stream, ghost tr': Trace<D>)
    requires Recorded(job, st, tr) && Within(job.policy, st, tr) && Between(job.file, st, tr)
    ensures Recorded(job, st', tr') && Within(job.policy, st', tr') && |tr'.open| == 0
    ensures |tr'.done| > 0 <==> st.members > 0
    ensures st'.members == st.members && st'.totalOutput == st.totalOutput
    ensures Unconsumed(job.file, st') <= Unconsumed(job.file, st)
    ensures Buffered(job.file, st'.position, st'.pending)
    ensures if st'.pending == [] then st'.position == |job.file| else Opens(job.file, tr')
  {
    hide Lawful, AllZero, Members, Outputs, Inputs, Session, Flatten, Buffered, NonZeroAt;
    st', tr' := st, tr;
    if st.pending == [] {
      RecordedAfterRead(job, st, tr);
      var chunk := Read(job.file, st.position);
      st' := st.(position := st.position + |chunk|, pending := chunk);
      NextChunk(job.file, st.position);
    }
    if st.members > 0 {
      ghost var done := Flatten(tr.done);
      assert done + [] + st'.pending == done + st'.pending;
      var position, pending, zeros := SkipPadding(job.file, st'.position, st'.pending, done);
      ghost var before := st';
      st' := st'.(position := position, pending := pending, padding := st'.padding + |zeros|);
      RecordedAfterPadding(job, before, tr, st', zeros);
      tr' := Trace(Padded(tr.done, zeros), []);
    }
  }

  lemma PendingFollows<D>(job: Job<D>, st: Stream, tr: Trace<D>)
    requires Recorded(job, st, tr) && |tr.open| == 0 && st.pending != []
    ensures |Flatten(tr.done)| < |job.file| && job.file[|Flatten(tr.done)|] == st.pending[0]
  {
    var at := |Flatten(tr.done)|;
    assert job.file[at] == job.file[..st.position][at];
  }

  /** In front of a member: risks, or the end of the file, or a member to open. */
  method Seek<D>(job: Job<D>, st: Stream, ghost tr: Trace<D>)
    returns (risks: seq<Risk>, st': Stream, ghost tr': Trace<D>)
    requires Recorded(job, st, tr) && Within(job.policy, st, tr) && Between(job.file, st, tr)
    ensures Recorded(job, st', tr') && Within(job.policy, st', tr') && AllJustified(job, st', tr', risks)
    ensures Unconsumed(job.file, st') <= Unconsumed(job.file, st)
    ensures st'.members == st.members && st'.totalOutput == st.totalOutput
    ensures |tr'.open| == 0 && (|tr'.done| > 0 <==> st.members > 0)
    ensures risks == [] && st'.pending == [] ==> AtEnd(job.file, st', tr')
    ensures risks == [] && st'.pending != [] ==> Active(job, st', tr', job.start)
    ensures risks == [] || risks == [Malformed] || risks == [TooManyEntries]
    ensures st'.pending != [] ==> Opens(job.file, tr') && (st.members > 0 ==> StartsNonZero(st'.pending))
  {
    hide Lawful, Members, Outputs, Inputs, Session, Flatten, Buffered;
    st', tr' := SeekMember(job, st, tr);
    if st'.pending != [] { PendingFollows(job, st', tr'); }
    risks := [];
    if st'.pending != [] && st.members >= job.policy.maxMembers {
      ghost var done := Flatten(tr'.done);
      assert done + [] + st'.pending == done + st'.pending;
      var position, pending := ReadMagic(job.file, st'.position, st'.pending, done);
      assert done + [] + pending == done + pending;
      st' := st'.(position := position, pending := pending);
      risks := [if IsMagic(pending) then TooManyEntries else Malformed];
    }
  }

  // ---------------------------------------------------------------- inside a member

  /** The two size checks behind every call of the decompressor. */
  function SizeRisks(memberOutput: nat, totalOutput: nat, policy: Policy): (risks: seq<Risk>)
    ensures MemberTooLarge in risks <==> memberOutput > policy.maxMemberBytes
    ensures TooLarge in risks <==> totalOutput > policy.maxTotalBytes
    ensures forall i :: 0 <= i < |risks| ==> risks[i] in {MemberTooLarge, TooLarge}
    ensures risks == [] <==> memberOutput <= policy.maxMemberBytes && totalOutput <= policy.maxTotalBytes
  {
    (if memberOutput > policy.maxMemberBytes then [MemberTooLarge] else []) +
    (if totalOutput > policy.maxTotalBytes then [TooLarge] else [])
  }

  /** The size risks are raised exactly when the member, or all members so far, came out too large. */
  ghost predicate SizesReported<D>(policy: Policy, tr: Trace<D>, risks: seq<Risk>) {
    && (MemberTooLarge in risks <==> Emitted(tr.open) > policy.maxMemberBytes)
    && (TooLarge in risks <==> Outputs(tr.done) + Emitted(tr.open) > policy.maxTotalBytes)
  }

  lemma SizeRisksAreJustified<D>(job: Job<D>, st: Stream, tr: Trace<D>)
    requires Recorded(job, st, tr)
    ensures var risks := SizeRisks(st.memberOutput, st.totalOutput, job.policy);
            AllJustified(job, st, tr, risks) && SizesReported(job.policy, tr, risks)
  {
    hide Lawful, Session, Accounted, Outputs, Emitted, Inputs, Consumed;
    var risks := SizeRisks(st.memberOutput, st.totalOutput, job.policy);
    forall i | 0 <= i < |risks| ensures Justified(job, st, tr, risks[i]) {
      assert risks[i] in risks;
    }
  }

  lemma StepBehaves<D(!new)>(step: (D, Bytes) -> Inflate<D>, d: D, input: Bytes)
    requires WellBehaved(step) && step(d, input).Inflated?
    ensures IsSuffix(step(d, input).rest, input)
  {
  }

  lemma OpenMemberIsLawful<D>(job: Job<D>, st: Stream, tr: Trace<D>)
    requires Recorded(job, st, tr) && Finished(tr.open) && st.memberOutput <= job.policy.maxMemberBytes
    requires !TooDense(st.memberOutput, st.memberInput, job.policy)
    requires Busy(tr.open)
    ensures LawfulMember(job, |Flatten(tr.done)|, |tr.done| == 0, tr.open)
  {
  }

  /** One call more. */
  ghost predicate LongerByOne<D>(calls: seq<Call<D>>, more: seq<Call<D>>) {
    |more| == |calls| + 1 && more[..|calls|] == calls
  }

  /** One call on what is pending: the record with that call, or why there is none. */
  method Inflates<D(!new)>(job: Job<D>, st: Stream, d: D, ghost tr: Trace<D>)
    returns (ok: bool, st': Stream, d': D, eof: bool, idle: bool, ghost tr': Trace<D>)
    requires WellBehaved(job.step) && Recorded(job, st, tr) && Active(job, st, tr, d)
    ensures Recorded(job, st', tr') && tr'.done == tr.done && st'.members == st.members
    ensures !ok ==> IsMalformed(job, st', tr') && tr' == tr
    ensures ok ==>
      && LongerByOne(tr.open, tr'.open) && Finished(tr'.open) == eof && d' == After(job.start, tr'.open)
      && Buffered(job.file, st'.position, st'.pending)
      && Idle(tr'.open[|tr.open|]) == (idle && !eof)
      && Unconsumed(job.file, st') <= Unconsumed(job.file, st) && st'.totalOutput >= st.totalOutput
      && idle == (Unconsumed(job.file, st') == Unconsumed(job.file, st) && st'.totalOutput == st.totalOutput)
  {
    hide Lawful, Members, Outputs, Inputs, Session, Flatten, Accounted, WellBehaved, Read, Consumed, Emitted, Buffered,
         NonZeroAt, Offers;
    ok, st', d', eof, idle, tr' := true, st, d, false, false, tr;
    if st.pending == [] {
      RecordedAfterRead(job, st, tr);
      NextChunk(job.file, st.position);
      var chunk := Read(job.file, st.position);
      if chunk == [] {
        ok := false;
        return;
      }
      st' := st.(position := st.position + |chunk|, pending := chunk);
    }
    PendingIsOffered(job, st', tr);
    var result := job.step(d, st'.pending);
    if result.Broken? {
      ok := false;
      return;
    }
    StepBehaves(job.step, d, st'.pending);
    var c := Call(d, st'.pending, result.state, result.rest, result.emitted, result.eof);
    StillBuffered(job.file, st'.position, st'.pending, c.rest);
    RecordedAfterCall(job, st', tr, c);
    CallAppended(tr.open, c, job.start);
    idle := Eaten(c) == [] && c.emitted == 0;
    st', d', eof, tr' := Called(st', c), result.state, result.eof, tr.(open := tr.open + [c]);
  }

  /** Inside a member: one call of the decompressor and the checks behind it. */
  method Feed<D(!new)>(job: Job<D>, st: Stream, d: D, ghost tr: Trace<D>)
    returns (risks: seq<Risk>, st': Stream, d': D, eof: bool, ghost tr': Trace<D>)
    requires WellBehaved(job.step) && Recorded(job, st, tr) && Within(job.policy, st, tr) && Active(job, st, tr, d)
    ensures Recorded(job, st', tr') && AllJustified(job, st', tr', risks) && SizesReported(job.policy, tr', risks)
    ensures risks == [] ==> Within(job.policy, st', tr')
    ensures Members(tr'.done) <= job.policy.maxMembers
    ensures
      if risks == [] && eof then
        && Between(job.file, st', tr') && st'.members == st.members + 1
        && exists calls :: LongerByOne(tr.open, calls) && tr' == Trace(tr.done + [Member(calls)], [])
      else
        && tr'.done == tr.done && (LongerByOne(tr.open, tr'.open) || (tr' == tr && risks == [Malformed]))
        && (risks == [] ==> Active(job, st', tr', d') && st'.members == st.members)
    ensures risks == [] ==>
      || Unconsumed(job.file, st') < Unconsumed(job.file, st)
      || (Unconsumed(job.file, st') == Unconsumed(job.file, st) && st'.totalOutput > st.totalOutput)
      || (Unconsumed(job.file, st') == Unconsumed(job.file, st) && st'.totalOutput == st.totalOutput && eof)
  {
    hide Lawful, Members, Outputs, Inputs, Session, Flatten, Accounted, WellBehaved, Consumed, Emitted,
         TooDense, SizeRisks, LawfulMember, After, Buffered, NonZeroAt, Idle;
    var ok, idle;
    ok, st', d', eof, idle, tr' := Inflates(job, st, d, tr);
    if !ok {
      risks := [Malformed];
      NoSizeRisk(job, st, tr, risks);
      return;
    }
    ghost var calls := tr'.open;
    risks := SizeRisks(st'.memberOutput, st'.totalOutput, job.policy);
    SizeRisksAreJustified(job, st', tr');
    if risks != [] { return; }
    if eof {
      if TooDense(st'.memberOutput, st'.memberInput, job.policy) {
        return [HighRatio], st'.(members := st.members + 1), d', eof, tr';
      }
      StillBusy(tr.open, calls);
      OpenMemberIsLawful(job, st', tr');
      RecordedAfterMember(job, st', tr');
      tr' := Trace(tr'.done + [Member(calls)], []);
      st' := st'.(members := st.members + 1, memberOutput := 0, memberInput := 0);
      NoSizeRisk(job, st', tr', []);
    } else if idle {
      risks := [Malformed];
    } else {
      StillBusy(tr.open, calls);
    }
  }

  lemma StillBusy<D>(calls: seq<Call<D>>, more: seq<Call<D>>)
    requires Busy(calls) && LongerByOne(calls, more) && !Idle(more[|calls|])
    ensures Busy(more)
  {
    forall j | 0 <= j < |more| ensures !Idle(more[j]) {
      if j < |calls| { assert more[j] == more[..|calls|][j]; }
    }
  }

  lemma NoSizeRisk<D>(job: Job<D>, st: Stream, tr: Trace<D>, risks: seq<Risk>)
    requires Recorded(job, st, tr) && Within(job.policy, st, tr) && MemberTooLarge !in risks && TooLarge !in risks
    ensures SizesReported(job.policy, tr, risks) && 0 <= Unconsumed(job.file, st) && Lawful(job, tr.done)
  {
  }

  lemma WholeFile<D>(job: Job<D>, st: Stream, tr: Trace<D>)
    requires Recorded(job, st, tr) && AtEnd(job.file, st, tr)
    ensures Flatten(tr.done) == job.file && st.totalOutput == Outputs(tr.done) && st.consumed == Inputs(tr.done)
    ensures |tr.done| == 0 ==> IsMalformed(job, st, tr)
  {
    assert job.file[..|job.file|] == job.file;
  }

  // ---------------------------------------------------------------- which files pass

  /** The file is, byte for byte, members and padding within all limits. */
  ghost predicate Passes<D>(job: Job<D>, segments: seq<Segment<D>>) {
    && Flatten(segments) == job.file && Lawful(job, segments)
    && 0 < Members(segments) <= job.policy.maxMembers
    && Outputs(segments) <= job.policy.maxTotalBytes
    && !TooDense(Outputs(segments), Inputs(segments), job.policy)
  }

  /** The calls on a member are determined by where it begins. */
  lemma {:induction false} SessionsAgree<D>(job: Job<D>, at: nat, a: seq<Call<D>>, b: seq<Call<D>>, j: nat)
    requires Session(job, at, a) && Session(job, at, b) && Finished(b) && j <= |a|
    ensures j <= |b| && a[..j] == b[..j]
  {
    hide Consumed, Block, After;
    if j > 0 {
      SessionsAgree(job, at, a, b, j - 1);
      assert Continues(job, at, a, j - 1);
      assert b[..|b|] == b;
      assert Continues(job, at, b, j - 1);
      assert a[..j] == a[..j - 1] + [a[j - 1]] && b[..j] == b[..j - 1] + [b[j - 1]];
    }
  }

  lemma {:induction false} PrefixTotals<D>(segments: seq<Segment<D>>, i: nat)
    requires i <= |segments|
    ensures Flatten(segments[..i]) <= Flatten(segments)
    ensures Members(segments[..i]) <= Members(segments) && Outputs(segments[..i]) <= Outputs(segments)
    decreases |segments|
  {
    if i < |segments| {
      var front := segments[..|segments| - 1];
      PrefixTotals(front, i);
      assert front[..i] == segments[..i];
    } else {
      assert segments[..i] == segments;
    }
  }

  lemma NextTotals<D>(segments: seq<Segment<D>>, i: nat)
    requires i < |segments|
    ensures Flatten(segments[..i + 1]) == Flatten(segments[..i]) + Content(segments[i])
    ensures Members(segments[..i + 1]) == Members(segments[..i]) + (if segments[i].Member? then 1 else 0)
    ensures Outputs(segments[..i + 1]) == Outputs(segments[..i]) + OutputOf(segments[i])
  {
    hide Content, OutputOf;
    assert segments[..i + 1][..i] == segments[..i];
  }

  lemma OneMoreSegment<D>(segments: seq<Segment<D>>, i: nat)
    requires i < |segments|
    ensures Flatten(segments[..i]) + Content(segments[i]) <= Flatten(segments)
    ensures Members(segments[..i]) + (if segments[i].Member? then 1 else 0) <= Members(segments)
    ensures Outputs(segments[..i]) + OutputOf(segments[i]) <= Outputs(segments)
  {
    hide Flatten, Members, Outputs, Content, OutputOf;
    NextTotals(segments, i);
    PrefixTotals(segments, i + 1);
  }

  lemma {:induction false} PrefixEmits<D>(calls: seq<Call<D>>, j: nat)
    requires j <= |calls|
    ensures Emitted(calls[..j]) <= Emitted(calls)
    decreases |calls|
  {
    if j < |calls| {
      var front := calls[..|calls| - 1];
      PrefixEmits(front, j);
      assert front[..j] == calls[..j];
    } else {
      assert calls[..j] == calls;
    }
  }

  lemma LawfulHere<D>(job: Job<D>, segments: seq<Segment<D>>, i: nat)
    requires Lawful(job, segments) && i < |segments|
    ensures LawfulAt(job, segments, i)
  {
  }

  /** The first byte of a segment tells what it is. */
  lemma FirstByte<D>(job: Job<D>, segments: seq<Segment<D>>, i: nat)
    requires Lawful(job, segments) && Flatten(segments) <= job.file && i < |segments|
    ensures var at := |Flatten(segments[..i])|;
            at < |job.file| && (segments[i].Member? <==> i == 0 || job.file[at] != 0)
  {
    hide Flatten, Lawful, Members, Outputs;
    LawfulHere(job, segments, i);
    OneMoreSegment(segments, i);
    var at := |Flatten(segments[..i])|;
    match segments[i] {
      case Member(calls) =>
        assert Continues(job, at, calls, 0);
        assert calls[..0] == [];
      case Padding(zeros) =>
        assert job.file[at] == (Flatten(segments[..i]) + zeros)[at] == zeros[0];
    }
  }

  lemma ZerosThere(file: Bytes, done: Bytes, zeros: Bytes)
    requires AllZero(zeros) && done + zeros <= file
    ensures forall k :: |done| <= k < |done| + |zeros| ==> file[k] == 0
  {
    forall k | |done| <= k < |done| + |zeros| ensures file[k] == 0 {
      assert file[k] == (done + zeros)[k] == zeros[k - |done|];
    }
  }

  lemma PaddingsAgree(file: Bytes, done: Bytes, y: Bytes, z: Bytes)
    requires IsPadding(file, |done|, y) && done + y <= file && IsPadding(file, |done|, z) && done + z <= file
    ensures y == z
  {
    ZerosThere(file, done, y);
    ZerosThere(file, done, z);
    assert file[|done|..|done| + |y|] == (done + y)[|done|..] == y;
    assert file[|done|..|done| + |z|] == (done + z)[|done|..] == z;
  }

  lemma SegmentAgrees<D>(job: Job<D>, a: seq<Segment<D>>, b: seq<Segment<D>>, i: nat)
    requires Lawful(job, a) && Flatten(a) <= job.file && Lawful(job, b) && Flatten(b) <= job.file
    requires i < |a| && i < |b| && a[..i] == b[..i]
    ensures a[i] == b[i]
  {
    hide Lawful, Flatten, Session, IsPadding, Consumed, Emitted, TooDense, Members, Outputs, Finished, Busy;
    FirstByte(job, a, i);
    FirstByte(job, b, i);
    OneMoreSegment(a, i);
    OneMoreSegment(b, i);
    LawfulHere(job, a, i);
    LawfulHere(job, b, i);
    var done := Flatten(a[..i]);
    if a[i].Member? {
      SessionsAgree(job, |done|, a[i].calls, b[i].calls, |a[i].calls|);
      SessionsAgree(job, |done|, b[i].calls, a[i].calls, |b[i].calls|);
    } else {
      PaddingsAgree(job.file, done, a[i].zeros, b[i].zeros);
    }
  }

  /** There is one way to take a file apart. */
  lemma {:induction false} SegmentsAgree<D>(job: Job<D>, a: seq<Segment<D>>, b: seq<Segment<D>>, i: nat)
    requires Lawful(job, a) && Flatten(a) <= job.file && Lawful(job, b) && Flatten(b) == job.file && i <= |a|
    ensures i <= |b| && a[..i] == b[..i]
  {
    hide Lawful, Flatten;
    if i > 0 {
      SegmentsAgree(job, a, b, i - 1);
      FirstByte(job, a, i - 1);
      assert b[..|b|] == b;
      SegmentAgrees(job, a, b, i - 1);
      assert a[..i] == a[..i - 1] + [a[i - 1]] && b[..i] == b[..i - 1] + [b[i - 1]];
    }
  }

  /** The done segments of a record begin every lawful decomposition of the file. */
  lemma DoneIsPrefix<D>(job: Job<D>, st: Stream, tr: Trace<D>, segments: seq<Segment<D>>)
    requires Recorded(job, st, tr) && Passes(job, segments)
    ensures |tr.done| <= |segments| && segments[..|tr.done|] == tr.done && Flatten(tr.done) <= job.file
  {
    hide Lawful, Flatten, Session, Inputs, Outputs, Emitted, TooDense, Members;
    var done := Flatten(tr.done);
    assert done <= job.file[..st.position] <= job.file;
    SegmentsAgree(job, tr.done, segments, |tr.done|);
    assert tr.done[..|tr.done|] == tr.done;
  }

  /** If the file goes on behind the done segments, and not with padding, a lawful decomposition has a member there. */
  lemma NextIsMember<D>(job: Job<D>, st: Stream, tr: Trace<D>, segments: seq<Segment<D>>)
    requires Recorded(job, st, tr) && Passes(job, segments) && |Flatten(tr.done)| < |job.file| && Opens(job.file, tr)
    ensures |tr.done| < |segments| && segments[..|tr.done|] == tr.done && segments[|tr.done|].Member?
    ensures var calls := segments[|tr.done|].calls;
            && LawfulMember(job, |Flatten(tr.done)|, |tr.done| == 0, calls)
            && |tr.open| <= |calls| && calls[..|tr.open|] == tr.open
    ensures Members(tr.done) < Members(segments)
    ensures Outputs(tr.done) + Emitted(segments[|tr.done|].calls) <= Outputs(segments)
  {
    hide Lawful, Flatten, Session, Inputs, Outputs, Emitted, Members, Consumed, Accounted, TooDense, Busy;
    DoneIsPrefix(job, st, tr, segments);
    var n := |tr.done|;
    assert segments[..|segments|] == segments;
    FirstByte(job, segments, n);
    OneMoreSegment(segments, n);
    LawfulHere(job, segments, n);
    SessionsAgree(job, |Flatten(tr.done)|, tr.open, segments[n].calls, |tr.open|);
    assert tr.open[..|tr.open|] == tr.open;
  }

  /** An open member has a first call, so the file goes on behind the done segments. */
  lemma OpenMemberHasBytes<D>(job: Job<D>, st: Stream, tr: Trace<D>)
    requires Recorded(job, st, tr) && (|tr.open| > 0 || st.pending != [])
    ensures |Flatten(tr.done)| < |job.file|
    ensures |tr.open| > 0 ==> Opens(job.file, tr)
  {
    hide Flatten, Lawful, Inputs, Outputs, Emitted;
    if |tr.open| > 0 {
      assert Continues(job, |Flatten(tr.done)|, tr.open, 0);
      assert tr.open[..0] == [];
    }
  }

  /** A file that ends with the done segments has no other decomposition. */
  lemma DoneIsAll<D>(job: Job<D>, st: Stream, tr: Trace<D>, segments: seq<Segment<D>>)
    requires Recorded(job, st, tr) && AtEnd(job.file, st, tr) && Passes(job, segments)
    ensures segments == tr.done
  {
    DoneIsPrefix(job, st, tr, segments);
    WholeFile(job, st, tr);
    if |tr.done| < |segments| { FirstByte(job, segments, |tr.done|); }
    hide Flatten, Lawful;
    assert |tr.done| == |segments| ==> segments[..|tr.done|] == segments;
  }

  lemma OpenSessionPasses<D>(job: Job<D>, st: Stream, tr: Trace<D>, segments: seq<Segment<D>>)
    requires Recorded(job, st, tr) && Passes(job, segments) && |tr.open| > 0
    ensures Emitted(tr.open) <= job.policy.maxMemberBytes
    ensures Outputs(tr.done) + Emitted(tr.open) <= job.policy.maxTotalBytes
    ensures Finished(tr.open) ==> !TooDense(Emitted(tr.open), |Consumed(tr.open)|, job.policy)
    ensures !Idle(tr.open[|tr.open| - 1])
    ensures !Finished(tr.open) ==>
            && |Flatten(tr.done)| + |Consumed(tr.open)| < |job.file|
            && job.step(After(job.start, tr.open), Block(job.file, |Flatten(tr.done)| + |Consumed(tr.open)|)).Inflated?
  {
    hide Recorded, Lawful, Flatten, Consumed, Outputs, Inputs, Emitted, Members, TooDense, Block, Opens;
    OpenMemberHasBytes(job, st, tr);
    NextIsMember(job, st, tr, segments);
    var at, n, calls := |Flatten(tr.done)|, |tr.open|, segments[|tr.done|].calls;
    PrefixEmits(calls, n);
    assert calls[n - 1] == calls[..n][n - 1];
    if n < |calls| {
      assert Continues(job, at, calls, n);
    } else {
      assert calls[..n] == calls;
    }
  }

  /** Between members: the next one, if the file goes on, is one more than is done, and its first call succeeds. */
  lemma NextMemberPasses<D>(job: Job<D>, st: Stream, tr: Trace<D>, segments: seq<Segment<D>>)
    requires Recorded(job, st, tr) && Passes(job, segments) && |tr.open| == 0 && st.pending != [] && Opens(job.file, tr)
    ensures Members(tr.done) < job.policy.maxMembers && |Flatten(tr.done)| < |job.file|
    ensures job.step(job.start, Block(job.file, |Flatten(tr.done)|)).Inflated?
  {
    hide Recorded, Lawful, Flatten, Consumed, Outputs, Inputs, Emitted, Members, TooDense, Block, Opens;
    OpenMemberHasBytes(job, st, tr);
    NextIsMember(job, st, tr, segments);
    FirstCallSucceeds(job, |Flatten(tr.done)|, segments[|tr.done|].calls);
  }

  lemma DonePasses<D>(job: Job<D>, st: Stream, tr: Trace<D>, segments: seq<Segment<D>>)
    requires Recorded(job, st, tr) && Passes(job, segments) && |tr.open| == 0
    ensures Outputs(tr.done) <= job.policy.maxTotalBytes
    ensures AtEnd(job.file, st, tr) ==> |tr.done| > 0 && !TooDense(Outputs(tr.done), Inputs(tr.done), job.policy)
  {
    hide Recorded, Lawful, Flatten, Outputs, Inputs, TooDense, AtEnd;
    DoneIsPrefix(job, st, tr, segments);
    PrefixTotals(segments, |tr.done|);
    if AtEnd(job.file, st, tr) { DoneIsAll(job, st, tr, segments); }
  }

  /** No risk is justified by a file that passes. */
  lemma NoRiskIfPasses<D>(job: Job<D>, st: Stream, tr: Trace<D>, risk: Risk, segments: seq<Segment<D>>)
    requires Recorded(job, st, tr) && Passes(job, segments)
    ensures !Justified(job, st, tr, risk)
  {
    hide Recorded, Passes, Lawful, Flatten, Consumed, Emitted, Outputs, Inputs, Members,
         TooDense, Block, Opens, NonZeroAt;
    PositionIsTotal(job, st, tr);
    if |tr.open| > 0 {
      OpenSessionPasses(job, st, tr, segments);
    } else {
      NothingOpen(tr);
      DonePasses(job, st, tr, segments);
      if st.pending != [] && Opens(job.file, tr) { NextMemberPasses(job, st, tr, segments); }
    }
    BlockIsNotEmpty(job.file);
  }

  lemma PositionIsTotal<D>(job: Job<D>, st: Stream, tr: Trace<D>)
    requires Recorded(job, st, tr)
    ensures st.position == |Flatten(tr.done)| + |Consumed(tr.open)| + |st.pending|
  {
    hide Flatten, Consumed, Lawful, Session;
  }

  lemma BlockIsNotEmpty(file: Bytes)
    ensures forall here: nat :: here < |file| ==> Block(file, here) != []
  {
  }

  lemma NothingOpen<D>(tr: Trace<D>)
    requires |tr.open| == 0
    ensures Emitted(tr.open) == 0 && Consumed(tr.open) == []
  {
  }

  lemma FirstCallSucceeds<D>(job: Job<D>, at: nat, calls: seq<Call<D>>)
    requires Session(job, at, calls) && |calls| > 0
    ensures at < |job.file| && job.step(job.start, Block(job.file, at)).Inflated?
  {
    assert Continues(job, at, calls, 0);
    assert calls[..0] == [];
  }

  lemma RisksMeanNoPass<D(!new)>(job: Job<D>, st: Stream, tr: Trace<D>, risks: seq<Risk>)
    requires Recorded(job, st, tr) && AllJustified(job, st, tr, risks) && risks != []
    ensures forall segments :: !Passes(job, segments)
  {
    hide Recorded, Justified, Passes;
    forall segments ensures !Passes(job, segments) {
      if Passes(job, segments) { NoRiskIfPasses(job, st, tr, risks[0], segments); }
    }
  }

  /**
   The stream loop of `_inspect_gzip`. It terminates for every well-behaved decompressor and every byte
   read is accounted for. It finds no risk exactly when the file is, byte for byte, a sequence of finished
   sessions of the decompressor and of padding, within all limits; every risk is justified by the sessions
   that led to it.
   */
  method Inspect<D(!new)>(job: Job<D>) returns (risks: seq<Risk>, st: Stream, ghost tr: Trace<D>)
    requires WellBehaved(job.step)
    ensures Recorded(job, st, tr) && AllJustified(job, st, tr, risks) && SizesReported(job.policy, tr, risks)
    ensures Members(tr.done) <= job.policy.maxMembers
    ensures risks == [] <==> exists segments :: Passes(job, segments)
    ensures risks == [] ==> AtEnd(job.file, st, tr) && Passes(job, tr.done) && st.members == Members(tr.done)
  {
    hide Lawful, Members, Outputs, Inputs, Accounted, Flatten, WellBehaved, Session, Consumed, Emitted,
         TooDense, Recorded, IsMalformed, Active, SizesReported;
    risks, tr := [], Trace([], []);
    st := Stream(0, [], 0, 0, 0, 0, 0, 0);
    NothingRead(job, st, tr);
    var active, d := false, job.start;
    while true
      invariant Recorded(job, st, tr) && Within(job.policy, st, tr) && 0 <= Unconsumed(job.file, st)
      invariant if active then Active(job, st, tr, d) else Between(job.file, st, tr)
      decreases Unconsumed(job.file, st), job.policy.maxTotalBytes - st.totalOutput, job.policy.maxMembers - st.members
    {
      if !active {
        risks, st, tr := Seek(job, st, tr);
        if risks != [] {
          NoSizeRisk(job, st, tr, risks);
          RisksMeanNoPass(job, st, tr, risks);
          return;
        }
        if st.pending == [] { break; }
        active, d := true, job.start;
      }
      var eof;
      risks, st, d, eof, tr := Feed(job, st, d, tr);
      if risks != [] {
        RisksMeanNoPass(job, st, tr, risks);
        return;
      }
      NoSizeRisk(job, st, tr, risks);
      active := !eof;
    }
    WholeFile(job, st, tr);
    if st.members == 0 {
      risks := [Malformed];
      RisksMeanNoPass(job, st, tr, risks);
    } else if TooDense(st.totalOutput, st.consumed, job.policy) {
      risks := [HighRatio];
      RisksMeanNoPass(job, st, tr, risks);
    }
    NoSizeRisk(job, st, tr, risks);
    assert risks == [] ==> Passes(job, tr.done);
  }
}
