/**
 The one-pass scanners that bound JSON and JSON5 nesting and membership before a parser runs, and
 the proof that they measure the document they scan.
 */
module JsonScan {
  import opened Outcomes

  const BOM := '\U{FEFF}'

  /** `str.isspace()` for one character. */
  predicate IsSpace(c: char) {
    || '\t' <= c <= '\r' || '\U{1C}' <= c <= ' ' || c == '\U{85}' || c == '\U{A0}' || c == '\U{1680}'
    || '\U{2000}' <= c <= '\U{200A}' || c == '\U{2028}' || c == '\U{2029}' || c == '\U{202F}'
    || c == '\U{205F}' || c == '\U{3000}'
  }

  predicate EndsLine(c: char) {
    c == '\r' || c == '\n' || c == '\U{2028}' || c == '\U{2029}'
  }

  predicate IsQuote(c: char) { c == '\'' || c == '"' }
  predicate IsOpen(c: char) { c == '[' || c == '{' }
  predicate IsClose(c: char) { c == ']' || c == '}' }

  predicate Begins(s: string, first: char, second: char) {
    |s| >= 2 && s[0] == first && s[1] == second
  }

  // ---------------------------------------------------------------- the automaton

  datatype Limits = Limits(depth: nat, items: nat)

  datatype Mode = Plain | Quoted(quote: char, escaped: bool) | LineComment | BlockComment

  /** `open[i]` says whether the i-th open container has content since its last comma. */
  datatype Scan = Scan(mode: Mode, rooted: bool, items: nat, open: seq<bool>)

  datatype Move = Stop(depthExceeded: bool, itemsExceeded: bool) | Go(next: Scan)

  const START := Scan(Plain, false, 0, [])

  /** Records that the innermost container has content. */
  function Touch(st: Scan): Scan {
    if st.open == [] then st else st.(open := st.open[|st.open| - 1 := true])
  }

  /** Closes off the innermost member, if it has content. */
  function Count(st: Scan, lim: Limits, open: seq<bool>): Move
    requires st.open != []
  {
    if !st.open[|st.open| - 1] then Go(st.(open := open))
    else if st.items + 1 > lim.items then Stop(false, true)
    else Go(st.(items := st.items + 1, open := open))
  }

  function Structure(c: char, st: Scan, lim: Limits): Move {
    if IsOpen(c) then
      if |st.open| + 1 > lim.depth then Stop(true, false) else Go(Touch(st).(open := Touch(st).open + [false]))
    else if st.open == [] then Go(st)
    else if c == ',' then Count(st, lim, st.open[|st.open| - 1 := false])
    else if IsClose(c) then Count(st, lim, st.open[..|st.open| - 1])
    else if !IsSpace(c) then Go(Touch(st))
    else Go(st)
  }

  function Token(c: char, st: Scan, lim: Limits): Move {
    if IsQuote(c) then
      if !st.rooted then Stop(false, false) else Go(Touch(st).(mode := Quoted(c, false)))
    else if !st.rooted && (IsSpace(c) || c == BOM) then Go(st)
    else if !st.rooted && !IsOpen(c) then Stop(false, false)
    else Structure(c, st.(rooted := true), lim)
  }

  function InString(c: char, quote: char, escaped: bool): Mode {
    if escaped then Quoted(quote, false)
    else if c == '\\' then Quoted(quote, true)
    else if c == quote then Plain
    else Quoted(quote, false)
  }

  /** The two flags the scan of `s` ends with, begun in state `st`. */
  function Run(s: string, st: Scan, lim: Limits): (bool, bool)
    decreases |s|
  {
    if s == "" then (false, false)
    else
      match st.mode
      case LineComment => Run(s[1..], if EndsLine(s[0]) then st.(mode := Plain) else st, lim)
      case BlockComment => if Begins(s, '*', '/') then Run(s[2..], st.(mode := Plain), lim) else Run(s[1..], st, lim)
      case Quoted(quote, escaped) => Run(s[1..], st.(mode := InString(s[0], quote, escaped)), lim)
      case Plain =>
        if Begins(s, '/', '/') then Run(s[2..], st.(mode := LineComment), lim)
        else if Begins(s, '/', '*') then Run(s[2..], st.(mode := BlockComment), lim)
        else
          match Token(s[0], st, lim)
          case Stop(d, i) => (d, i)
          case Go(next) => Run(s[1..], next, lim)
  }

  /** The automaton's mode, read off the loop variables. */
  function ModeOf(lineComment: bool, blockComment: bool, quote: Option<char>, escaped: bool): Mode {
    if lineComment then LineComment
    else if blockComment then BlockComment
    else if quote.Some? then Quoted(quote.value, escaped)
    else Plain
  }

  /** `_json_like_limits_exceeded`. */
  method LimitsExceeded(text: string, maxDepth: nat, maxItems: nat) returns (depthExceeded: bool, itemsExceeded: bool)
    ensures (depthExceeded, itemsExceeded) == Run(text, START, Limits(maxDepth, maxItems))
  {
    ghost var lim := Limits(maxDepth, maxItems);
    var depth, rootStarted, itemCount := 0, false, 0;
    var currentItem: seq<bool> := [];
    var quote: Option<char>, escaped := None, false;
    var lineComment, blockComment := false, false;
    var index := 0;
    while index < |text|
      invariant 0 <= index <= |text|
      invariant depth == |currentItem|
      invariant lineComment || blockComment ==> quote.None? && !(lineComment && blockComment)
      invariant quote.None? ==> !escaped
      invariant Run(text, START, lim) ==
                Run(text[index..], Scan(ModeOf(lineComment, blockComment, quote, escaped),
                                        rootStarted, itemCount, currentItem), lim)
    {
      var c := text[index];
      var pair := index + 1 < |text|;
      assert text[index..][0] == c && text[index..][1..] == text[index + 1..];
      assert pair ==> text[index..][1] == text[index + 1] && text[index..][2..] == text[index + 2..];
      if lineComment {
        if EndsLine(c) { lineComment := false; }
        index := index + 1;
        continue;
      }
      if blockComment {
        if pair && c == '*' && text[index + 1] == '/' {
          blockComment := false;
          index := index + 2;
        } else {
          index := index + 1;
        }
        continue;
      }
      if quote.Some? {
        if escaped {
          escaped := false;
        } else if c == '\\' {
          escaped := true;
        } else if c == quote.value {
          quote := None;
        }
        index := index + 1;
        continue;
      }
      if pair && c == '/' && text[index + 1] == '/' {
        lineComment := true;
        index := index + 2;
        continue;
      }
      if pair && c == '/' && text[index + 1] == '*' {
        blockComment := true;
        index := index + 2;
        continue;
      }
      if IsQuote(c) {
        if !rootStarted { return false, false; }
        if currentItem != [] { currentItem := currentItem[|currentItem| - 1 := true]; }
        quote := Some(c);
        index := index + 1;
        continue;
      }
      if !rootStarted {
        if IsSpace(c) || c == BOM {
          index := index + 1;
          continue;
        }
        if !IsOpen(c) { return false, false; }
        rootStarted := true;
      }
      if IsOpen(c) {
        if currentItem != [] { currentItem := currentItem[|currentItem| - 1 := true]; }
        depth := depth + 1;
        if depth > maxDepth { return true, false; }
        currentItem := currentItem + [false];
      } else if c == ',' && currentItem != [] {
        if currentItem[|currentItem| - 1] {
          itemCount := itemCount + 1;
          if itemCount > maxItems { return false, true; }
        }
        currentItem := currentItem[|currentItem| - 1 := false];
      } else if IsClose(c) && depth != 0 && currentItem != [] {
        var content := currentItem[|currentItem| - 1];
        currentItem := currentItem[..|currentItem| - 1];
        if content {
          itemCount := itemCount + 1;
          if itemCount > maxItems { return false, true; }
        }
        depth := depth - 1;
      } else if currentItem != [] && !IsSpace(c) {
        currentItem := currentItem[|currentItem| - 1 := true];
      }
      index := index + 1;
    }
    return false, false;
  }

  /** `_json_like_nesting_exceeds`. */
  method NestingExceeds(text: string, maxDepth: nat) returns (exceeded: bool)
    ensures exceeded == Run(text, START, Limits(maxDepth, 0x7FFF_FFFF_FFFF_FFFF)).0
  {
    var tooMany;
    exceeded, tooMany := LimitsExceeded(text, maxDepth, 0x7FFF_FFFF_FFFF_FFFF);
  }

  // ---------------------------------------------------------------- documents

  datatype Trivia = Blank(c: char) | Line(text: string, end: char) | Block(text: string)
  type Gap = seq<Trivia>

  datatype Piece = Raw(c: char) | Escaped(c: char)

  /** A number, literal or bare name; or a string with its spelling. */
  datatype Atom = Bare(text: string) | Text(quote: char, pieces: seq<Piece>)

  datatype Kind = Array | Object

  /** A JSON or JSON5 value together with the way it is written. */
  datatype Value = Leaf(atom: Atom) | Container(kind: Kind, body: Body)
  datatype Body = Empty(gap: Gap) | Filled(item: Item, more: More)
  datatype More = End | TrailingComma(gap: Gap) | Next(item: Item, more: More)
  datatype Item = Item(before: Gap, key: Option<Key>, value: Value, after: Gap)
  datatype Key = Key(atom: Atom, beforeColon: Gap, afterColon: Gap)

  /** `closing` is a last line comment that ends with the text instead of a line terminator. */
  datatype Document = Document(lead: Gap, value: Value, trail: Gap, closing: Option<string>)

  function Max(a: nat, b: nat): nat { if a < b then b else a }

  /** How deeply the containers of a value nest. */
  function Depth(v: Value): nat {
    match v
    case Leaf(_) => 0
    case Container(_, Empty(_)) => 1
    case Container(_, Filled(item, more)) => 1 + Max(Depth(item.value), MoreDepth(more))
  }

  function MoreDepth(m: More): nat {
    match m
    case End => 0
    case TrailingComma(_) => 0
    case Next(item, more) => Max(Depth(item.value), MoreDepth(more))
  }

  /** How many elements and members the containers of a value have, over all of them. */
  function Members(v: Value): nat {
    match v
    case Leaf(_) => 0
    case Container(_, Empty(_)) => 0
    case Container(_, Filled(item, more)) => 1 + Members(item.value) + MoreMembers(more)
  }

  function MoreMembers(m: More): nat {
    match m
    case End => 0
    case TrailingComma(_) => 0
    case Next(item, more) => 1 + Members(item.value) + MoreMembers(more)
  }

  // ---------------------------------------------------------------- byte-order marks

  /** U+FEFF is JSON5 white space, but `isspace` does not hold of it. */
  predicate HasMark(g: Gap) {
    exists i :: 0 <= i < |g| && g[i] == Blank(BOM)
  }

  function Mark(g: Gap): nat {
    if HasMark(g) then 1 else 0
  }

  /** How many gaps with no item in them hold a mark: those of empty containers and behind trailing commas. */
  function Marks(v: Value): nat {
    match v
    case Leaf(_) => 0
    case Container(_, Empty(gap)) => Mark(gap)
    case Container(_, Filled(item, more)) => Marks(item.value) + MoreMarks(more)
  }

  function MoreMarks(m: More): nat {
    match m
    case End => 0
    case TrailingComma(gap) => Mark(gap)
    case Next(item, more) => Marks(item.value) + MoreMarks(more)
  }

  /** The number of members the scan counts. */
  function Scanned(v: Value): nat {
    match v
    case Leaf(_) => 0
    case Container(_, Empty(gap)) => Mark(gap)
    case Container(_, Filled(item, more)) => 1 + Scanned(item.value) + MoreScanned(more)
  }

  function MoreScanned(m: More): nat {
    match m
    case End => 0
    case TrailingComma(gap) => Mark(gap)
    case Next(item, more) => 1 + Scanned(item.value) + MoreScanned(more)
  }

  lemma {:induction false} ScannedIsMembersAndMarks(v: Value)
    ensures Scanned(v) == Members(v) + Marks(v)
    decreases v, 1
  {
    match v {
      case Leaf(_) =>
      case Container(_, Empty(_)) =>
      case Container(_, Filled(item, more)) =>
        ScannedIsMembersAndMarks(item.value);
        MoreScannedIsMembersAndMarks(more);
    }
  }

  lemma {:induction false} MoreScannedIsMembersAndMarks(m: More)
    ensures MoreScanned(m) == MoreMembers(m) + MoreMarks(m)
    decreases m, 1
  {
    match m {
      case End =>
      case TrailingComma(_) =>
      case Next(item, more) =>
        ScannedIsMembersAndMarks(item.value);
        MoreScannedIsMembersAndMarks(more);
    }
  }

  // ---------------------------------------------------------------- how documents are written

  function PrintTrivia(t: Trivia): string {
    match t
    case Blank(c) => [c]
    case Line(text, end) => "//" + (text + [end])
    case Block(text) => "/*" + (text + "*/")
  }

  function PrintGap(g: Gap): string {
    if g == [] then "" else PrintTrivia(g[0]) + PrintGap(g[1..])
  }

  function PrintPieces(ps: seq<Piece>): string {
    if ps == [] then ""
    else (match ps[0] case Raw(c) => [c] case Escaped(c) => ['\\', c]) + PrintPieces(ps[1..])
  }

  function PrintAtom(a: Atom): string {
    match a
    case Bare(text) => text
    case Text(q, pieces) => [q] + (PrintPieces(pieces) + [q])
  }

  function OpenOf(k: Kind): char { if k == Array then '[' else '{' }
  function CloseOf(k: Kind): char { if k == Array then ']' else '}' }

  function PrintValue(v: Value): string {
    match v
    case Leaf(a) => PrintAtom(a)
    case Container(k, Empty(gap)) => [OpenOf(k)] + (PrintGap(gap) + [CloseOf(k)])
    case Container(k, Filled(item, more)) => [OpenOf(k)] + (PrintItem(item) + (PrintMore(more) + [CloseOf(k)]))
  }

  function PrintItem(it: Item): string {
    PrintGap(it.before) + (PrintKey(it.key) + (PrintValue(it.value) + PrintGap(it.after)))
  }

  function PrintKey(k: Option<Key>): string {
    match k
    case None => ""
    case Some(Key(atom, before, after)) => PrintAtom(atom) + (PrintGap(before) + (":" + PrintGap(after)))
  }

  function PrintMore(m: More): string {
    match m
    case End => ""
    case TrailingComma(gap) => "," + PrintGap(gap)
    case Next(item, more) => "," + (PrintItem(item) + PrintMore(more))
  }

  function PrintDocument(d: Document): string {
    PrintGap(d.lead) + (PrintValue(d.value) + (PrintGap(d.trail) + PrintClosing(d.closing)))
  }

  function PrintClosing(closing: Option<string>): string {
    if closing.Some? then "//" + closing.value else ""
  }

  // Which writings are legal.

  predicate LegalTrivia(t: Trivia) {
    match t
    case Blank(c) => IsSpace(c) || c == BOM
    case Line(text, end) => IsJsonLineEnd(end) && OneLine(text)
    case Block(text) => forall i :: 0 <= i < |text| - 1 ==> !(text[i] == '*' && text[i + 1] == '/')
  }

  /** White space as ECMA-404 and JSON5 define it: by name, and the space separators of Unicode. */
  predicate IsJsonSpace(c: char) {
    || c in {'\t', '\n', '\U{0B}', '\U{0C}', '\r', ' ', '\U{A0}', '\U{FEFF}', '\U{2028}', '\U{2029}'}
    || c in {'\U{1680}', '\U{202F}', '\U{205F}', '\U{3000}'} || '\U{2000}' <= c <= '\U{200A}'
  }

  /** All of it may stand in a gap. */
  lemma JsonSpaceIsLegal(c: char)
    requires IsJsonSpace(c)
    ensures LegalTrivia(Blank(c))
  {
  }

  /** The line terminators of JSON5. */
  predicate IsJsonLineEnd(c: char) {
    c in {'\n', '\r', '\U{2028}', '\U{2029}'}
  }

  predicate OneLine(text: string) {
    forall i :: 0 <= i < |text| ==> !IsJsonLineEnd(text[i])
  }

  predicate LegalGap(g: Gap) {
    forall i :: 0 <= i < |g| ==> LegalTrivia(g[i])
  }

  predicate IsBare(c: char) {
    !IsSpace(c) && c !in {'"', '\'', '[', ']', '{', '}', ',', '/', BOM}
  }

  predicate LegalAtom(a: Atom) {
    match a
    case Bare(text) => text != "" && forall i :: 0 <= i < |text| ==> IsBare(text[i])
    case Text(q, pieces) =>
      q in {'"', '\''} && forall i :: 0 <= i < |pieces| && pieces[i].Raw? ==> pieces[i].c != q && pieces[i].c != '\\'
  }

  predicate LegalValue(v: Value) {
    match v
    case Leaf(a) => LegalAtom(a)
    case Container(_, Empty(gap)) => LegalGap(gap)
    case Container(_, Filled(item, more)) => LegalItem(item) && LegalMore(more)
  }

  predicate LegalItem(it: Item) {
    LegalGap(it.before) && LegalKey(it.key) && LegalValue(it.value) && LegalGap(it.after)
  }

  predicate LegalKey(k: Option<Key>) {
    k.Some? ==> LegalAtom(k.value.atom) && LegalGap(k.value.beforeColon) && LegalGap(k.value.afterColon)
  }

  predicate LegalMore(m: More) {
    match m
    case End => true
    case TrailingComma(gap) => LegalGap(gap)
    case Next(item, more) => LegalItem(item) && LegalMore(more)
  }

  predicate LegalDocument(d: Document) {
    LegalGap(d.lead) && LegalValue(d.value) && LegalGap(d.trail) && (d.closing.Some? ==> OneLine(d.closing.value))
  }

  // ---------------------------------------------------------------- scanning trivia and atoms

  /** One step of the scan over a character that begins no comment. */
  lemma RunToken(c: char, rest: string, st: Scan, lim: Limits)
    requires st.mode == Plain && c != '/'
    ensures var move := Token(c, st, lim);
            Run([c] + rest, st, lim) ==
            if move.Go? then Run(rest, move.next, lim) else (move.depthExceeded, move.itemsExceeded)
  {
    assert ([c] + rest)[1..] == rest;
  }

  lemma {:induction false} RunLine(text: string, end: char, rest: string, st: Scan, lim: Limits)
    requires st.mode == LineComment && EndsLine(end) && OneLine(text)
    ensures Run(text + [end] + rest, st, lim) == Run(rest, st.(mode := Plain), lim)
  {
    var s := text + [end] + rest;
    if text == "" {
      assert s[1..] == rest;
    } else {
      assert s[1..] == text[1..] + [end] + rest;
      RunLine(text[1..], end, rest, st, lim);
    }
  }

  lemma {:induction false} RunClosing(text: string, st: Scan, lim: Limits)
    requires st.mode == LineComment && OneLine(text)
    ensures Run(text, st, lim) == (false, false)
  {
    if text != "" { RunClosing(text[1..], st, lim); }
  }

  lemma {:induction false} RunBlock(text: string, rest: string, st: Scan, lim: Limits)
    requires st.mode == BlockComment
    requires forall i :: 0 <= i < |text| - 1 ==> !(text[i] == '*' && text[i + 1] == '/')
    ensures Run(text + "*/" + rest, st, lim) == Run(rest, st.(mode := Plain), lim)
  {
    var s := text + "*/" + rest;
    if text == "" {
      assert s[2..] == rest;
    } else {
      assert s[1..] == text[1..] + "*/" + rest;
      assert !Begins(s, '*', '/') by { assert |text| == 1 ==> s[1] == '*'; }
      RunBlock(text[1..], rest, st, lim);
    }
  }

  /** Between tokens; a container is open only behind the root's opening bracket. */
  predicate Resting(st: Scan) {
    st.mode == Plain && (st.open != [] ==> st.rooted)
  }

  lemma RunBlank(c: char, rest: string, st: Scan, lim: Limits)
    requires Resting(st) && (IsSpace(c) || c == BOM)
    ensures Run([c] + rest, st, lim) == Run(rest, if c == BOM then Touch(st) else st, lim)
  {
    RunToken(c, rest, st, lim);
  }

  lemma RunCommentStart(second: char, rest: string, st: Scan, lim: Limits)
    requires st.mode == Plain && (second == '/' || second == '*')
    ensures Run(['/', second] + rest, st, lim) ==
            Run(rest, st.(mode := if second == '/' then LineComment else BlockComment), lim)
  {
    assert (['/', second] + rest)[2..] == rest;
  }

  lemma RunTrivia(t: Trivia, rest: string, st: Scan, lim: Limits)
    requires Resting(st) && LegalTrivia(t)
    ensures Run(PrintTrivia(t) + rest, st, lim) == Run(rest, if t == Blank(BOM) then Touch(st) else st, lim)
  {
    hide Run, Touch;
    match t {
      case Blank(c) => RunBlank(c, rest, st, lim);
      case Line(text, end) =>
        assert PrintTrivia(t) + rest == "//" + (text + [end] + rest);
        RunCommentStart('/', text + [end] + rest, st, lim);
        RunLine(text, end, rest, st.(mode := LineComment), lim);
      case Block(text) =>
        assert PrintTrivia(t) + rest == "/*" + (text + "*/" + rest);
        RunCommentStart('*', text + "*/" + rest, st, lim);
        RunBlock(text, rest, st.(mode := BlockComment), lim);
    }
  }

  /** The state behind a gap: a mark is content of the innermost open container. */
  function Pass(g: Gap, st: Scan): (next: Scan)
    ensures |next.open| == |st.open|
  {
    if HasMark(g) then Touch(st) else st
  }

  lemma PassStep(g: Gap, st: Scan)
    requires g != []
    ensures Pass(g[1..], if g[0] == Blank(BOM) then Touch(st) else st) == Pass(g, st)
  {
    assert g == [g[0]] + g[1..];
    assert Touch(Touch(st)) == Touch(st);
  }

  /** Insignificant text is invisible to the scan, but for a mark inside a container. */
  lemma {:induction false} RunGap(g: Gap, rest: string, st: Scan, lim: Limits)
    requires Resting(st) && LegalGap(g)
    ensures Run(PrintGap(g) + rest, st, lim) == Run(rest, Pass(g, st), lim)
  {
    if g == [] {
      assert PrintGap(g) + rest == rest;
    } else {
      assert PrintGap(g) + rest == PrintTrivia(g[0]) + (PrintGap(g[1..]) + rest);
      RunTrivia(g[0], PrintGap(g[1..]) + rest, st, lim);
      PassStep(g, st);
      var next := if g[0] == Blank(BOM) then Touch(st) else st;
      hide Run, PrintGap, PrintTrivia;
      RunGap(g[1..], rest, next, lim);
    }
  }

  lemma {:induction false} RunPieces(q: char, ps: seq<Piece>, rest: string, st: Scan, lim: Limits)
    requires LegalAtom(Text(q, ps)) && st.mode == Quoted(q, false)
    ensures Run(PrintPieces(ps) + [q] + rest, st, lim) == Run(rest, st.(mode := Plain), lim)
  {
    var s := PrintPieces(ps) + [q] + rest;
    if ps == [] {
      assert s[1..] == rest;
    } else {
      var tail := PrintPieces(ps[1..]) + [q] + rest;
      match ps[0] {
        case Raw(c) => assert s[1..] == tail;
        case Escaped(c) =>
          assert s[0] == '\\' && s[1..][0] == c && s[1..][1..] == tail;
      }
      RunPieces(q, ps[1..], rest, st, lim);
    }
  }

  lemma {:induction false} RunBare(text: string, rest: string, st: Scan, lim: Limits)
    requires st.mode == Plain && st.rooted && st.open != [] && LegalAtom(Bare(text))
    ensures Run(text + rest, st, lim) == Run(rest, Touch(st), lim)
  {
    var s := text + rest;
    assert s[0] == text[0] && s[1..] == text[1..] + rest;
    if |text| == 1 {
      assert text[1..] + rest == rest;
    } else {
      RunBare(text[1..], rest, Touch(st), lim);
      assert Touch(Touch(st)) == Touch(st);
    }
  }

  /** Inside a container an atom is content and nothing else. */
  lemma RunAtom(a: Atom, rest: string, st: Scan, lim: Limits)
    requires st.mode == Plain && st.rooted && st.open != [] && LegalAtom(a)
    ensures Run(PrintAtom(a) + rest, st, lim) == Run(rest, Touch(st), lim)
  {
    match a {
      case Bare(text) => RunBare(text, rest, st, lim);
      case Text(q, ps) =>
        var s := PrintAtom(a) + rest;
        assert s[0] == q && s[1..] == PrintPieces(ps) + [q] + rest;
        RunPieces(q, ps, rest, Touch(st).(mode := Quoted(q, false)), lim);
    }
  }

  lemma RunKey(k: Option<Key>, rest: string, st: Scan, lim: Limits)
    requires st.mode == Plain && st.rooted && st.open != [] && LegalKey(k)
    ensures Run(PrintKey(k) + rest, st, lim) == Run(rest, if k.Some? then Touch(st) else st, lim)
  {
    match k {
      case None => assert PrintKey(k) + rest == rest;
      case Some(Key(atom, before, after)) =>
        var s2 := PrintGap(after) + rest;
        var s1 := PrintGap(before) + (":" + s2);
        assert PrintKey(k) + rest == PrintAtom(atom) + s1;
        hide Run, PrintGap, PrintAtom, HasMark;
        RunAtom(atom, s1, st, lim);
        RunGap(before, ":" + s2, Touch(st), lim);
        RunToken(':', s2, Touch(st), lim);
        assert Touch(Touch(st)) == Touch(st);
        RunGap(after, rest, Touch(st), lim);
    }
  }

  // ---------------------------------------------------------------- scanning values

  /** A scan state between tokens, with no limit exceeded so far. */
  predicate Ready(st: Scan, lim: Limits) {
    Resting(st) && |st.open| <= lim.depth && st.items <= lim.items
  }

  predicate Fits(depth: nat, members: nat, st: Scan, lim: Limits) {
    |st.open| + depth <= lim.depth && st.items + members <= lim.items
  }

  /** The scan stopped with one flag, and the flag tells the truth. */
  predicate Exceeds(r: (bool, bool), depth: nat, members: nat, st: Scan, lim: Limits) {
    r.0 != r.1 && (r.0 ==> |st.open| + depth > lim.depth) && (r.1 ==> st.items + members > lim.items)
  }

  /** Either the text fits, and the scan goes on behind it in state `next`; or the scan stops on it. */
  ghost predicate Measures(s: string, rest: string, depth: nat, members: nat, st: Scan, next: Scan, lim: Limits) {
    && (Fits(depth, members, st, lim) ==> Run(s, st, lim) == Run(rest, next, lim))
    && (!Fits(depth, members, st, lim) ==> Exceeds(Run(s, st, lim), depth, members, st, lim))
  }

  function AfterValue(v: Value, st: Scan): Scan {
    Touch(st).(rooted := true, items := st.items + Scanned(v))
  }

  function Inside(st: Scan): (inside: Scan)
    ensures |inside.open| == |st.open| + 1
  {
    Touch(st).(rooted := true, open := Touch(st).open + [false])
  }

  lemma RunOpen(k: Kind, rest: string, st: Scan, lim: Limits)
    requires Ready(st, lim)
    ensures Run([OpenOf(k)] + rest, st, lim) ==
            if |st.open| + 1 > lim.depth then (true, false) else Run(rest, Inside(st), lim)
  {
    RunToken(OpenOf(k), rest, st, lim);
  }

  lemma RunComma(rest: string, st: Scan, lim: Limits)
    requires Ready(st, lim) && st.open != [] && st.open[|st.open| - 1]
    ensures Run("," + rest, st, lim) ==
            if st.items + 1 > lim.items then (false, true)
            else Run(rest, st.(items := st.items + 1, open := st.open[|st.open| - 1 := false]), lim)
  {
    RunToken(',', rest, st, lim);
  }

  lemma RunClose(k: Kind, rest: string, st: Scan, lim: Limits)
    requires Ready(st, lim) && st.open != []
    ensures var popped := st.(open := st.open[..|st.open| - 1]);
            Run([CloseOf(k)] + rest, st, lim) ==
            if !st.open[|st.open| - 1] then Run(rest, popped, lim)
            else if st.items + 1 > lim.items then (false, true)
            else Run(rest, popped.(items := st.items + 1), lim)
  {
    RunToken(CloseOf(k), rest, st, lim);
  }

  lemma RunEmpty(k: Kind, gap: Gap, rest: string, st: Scan, lim: Limits)
    requires LegalGap(gap) && Ready(st, lim)
    ensures Measures([OpenOf(k)] + (PrintGap(gap) + ([CloseOf(k)] + rest)), rest, 1, Mark(gap), st,
                     AfterValue(Container(k, Empty(gap)), st), lim)
  {
    hide Run, PrintGap;
    var inside, close := Inside(st), [CloseOf(k)] + rest;
    assert inside.open[..|inside.open| - 1] == Touch(st).open;
    assert Pass(gap, inside).open[..|inside.open| - 1] == Touch(st).open;
    hide HasMark;
    RunOpen(k, PrintGap(gap) + close, st, lim);
    if |st.open| + 1 <= lim.depth {
      RunGap(gap, close, inside, lim);
      RunClose(k, rest, Pass(gap, inside), lim);
    }
  }

  /** A container is its opening bracket, its first item, and everything behind that item. */
  lemma RunFilled(k: Kind, item: Item, more: More, tail: string, rest: string, st: Scan, lim: Limits)
    requires Ready(st, lim)
    requires |st.open| + 1 <= lim.depth ==>
      Measures(PrintItem(item) + tail, tail, Depth(item.value), Scanned(item.value),
               Inside(st), AfterItem(item, Inside(st)), lim)
    requires |st.open| + 1 <= lim.depth && Fits(Depth(item.value), Scanned(item.value), Inside(st), lim) ==>
      Measures(tail, rest, MoreDepth(more), 1 + MoreScanned(more), AfterItem(item, Inside(st)),
               AfterMore(more, AfterItem(item, Inside(st))), lim)
    ensures Measures([OpenOf(k)] + (PrintItem(item) + tail), rest,
                     1 + Max(Depth(item.value), MoreDepth(more)), 1 + Scanned(item.value) + MoreScanned(more),
                     st, Touch(st).(rooted := true,
                                    items := st.items + (1 + Scanned(item.value) + MoreScanned(more))), lim)
  {
    hide Run, PrintItem, Depth, Scanned, MoreDepth, MoreScanned;
    RunOpen(k, PrintItem(item) + tail, st, lim);
    assert AfterItem(item, Inside(st)).open[..|st.open|] == Touch(st).open;
  }

  lemma PrintedEmpty(k: Kind, gap: Gap, rest: string)
    ensures PrintValue(Container(k, Empty(gap))) + rest == [OpenOf(k)] + (PrintGap(gap) + ([CloseOf(k)] + rest))
  {
  }

  lemma PrintedFilled(k: Kind, item: Item, more: More, rest: string)
    ensures PrintValue(Container(k, Filled(item, more))) + rest ==
            [OpenOf(k)] + (PrintItem(item) + (PrintMore(more) + ([CloseOf(k)] + rest)))
  {
    hide PrintItem, PrintMore;
  }

  lemma RunLeaf(a: Atom, rest: string, st: Scan, lim: Limits)
    requires LegalAtom(a) && Ready(st, lim) && st.open != []
    ensures Measures(PrintValue(Leaf(a)) + rest, rest, 0, 0, st, AfterValue(Leaf(a), st), lim)
  {
    RunAtom(a, rest, st, lim);
    hide Run, PrintAtom;
  }

  lemma InsideIsReady(item: Item, st: Scan, lim: Limits)
    requires Ready(st, lim) && |st.open| + 1 <= lim.depth
    ensures Ready(Inside(st), lim) && Inside(st).open != []
    ensures Fits(Depth(item.value), Scanned(item.value), Inside(st), lim) ==>
            var next := AfterItem(item, Inside(st));
            Ready(next, lim) && next.open != [] && next.open[|next.open| - 1]
  {
    hide Depth, Scanned;
  }

  lemma {:induction false} RunValue(v: Value, rest: string, st: Scan, lim: Limits)
    requires LegalValue(v) && Ready(st, lim) && (v.Leaf? ==> st.open != [])
    ensures Measures(PrintValue(v) + rest, rest, Depth(v), Scanned(v), st, AfterValue(v, st), lim)
    decreases v, 2
  {
    hide Run, PrintGap, PrintItem, PrintMore, PrintValue, PrintAtom, Measures, Inside, AfterItem, AfterMore,
         Touch, Ready, LegalItem, LegalMore;
    match v {
      case Leaf(a) => RunLeaf(a, rest, st, lim);
      case Container(k, Empty(gap)) =>
        PrintedEmpty(k, gap, rest);
        RunEmpty(k, gap, rest, st, lim);
      case Container(k, Filled(item, more)) =>
        var tail := PrintMore(more) + ([CloseOf(k)] + rest);
        PrintedFilled(k, item, more, rest);
        if |st.open| + 1 <= lim.depth {
          InsideIsReady(item, st, lim);
          RunItem(item, tail, Inside(st), lim);
          if Fits(Depth(item.value), Scanned(item.value), Inside(st), lim) {
            RunMore(more, k, rest, AfterItem(item, Inside(st)), lim);
          }
        }
        RunFilled(k, item, more, tail, rest, st, lim);
    }
  }

  function AfterItem(it: Item, st: Scan): (next: Scan)
    ensures |next.open| == |st.open|
  {
    Touch(st).(items := st.items + Scanned(it.value))
  }

  lemma {:induction false} RunItem(it: Item, rest: string, st: Scan, lim: Limits)
    requires LegalItem(it) && Ready(st, lim) && st.open != []
    ensures Measures(PrintItem(it) + rest, rest, Depth(it.value), Scanned(it.value), st, AfterItem(it, st), lim)
    decreases it, 1
  {
    hide Run, PrintGap, PrintKey, PrintValue, HasMark;
    var s3 := PrintGap(it.after) + rest;
    var s2 := PrintValue(it.value) + s3;
    var s1 := PrintKey(it.key) + s2;
    assert PrintItem(it) + rest == PrintGap(it.before) + s1;
    RunGap(it.before, s1, st, lim);
    var inside := Pass(it.before, st);
    RunKey(it.key, s2, inside, lim);
    var keyed := if it.key.Some? then Touch(inside) else inside;
    assert Touch(Touch(st)) == Touch(st);
    RunValue(it.value, s3, keyed, lim);
    assert AfterValue(it.value, keyed) == AfterItem(it, st);
    RunGap(it.after, rest, AfterItem(it, st), lim);
  }

  function AfterMore(m: More, st: Scan): Scan
    requires st.open != []
  {
    st.(items := st.items + 1 + MoreScanned(m), open := st.open[..|st.open| - 1])
  }

  /** Behind an item: the remaining items and the closing bracket. */
  lemma {:induction false} RunMore(m: More, k: Kind, rest: string, st: Scan, lim: Limits)
    requires LegalMore(m) && Ready(st, lim) && st.open != [] && st.open[|st.open| - 1]
    ensures Measures(PrintMore(m) + ([CloseOf(k)] + rest), rest, MoreDepth(m), 1 + MoreScanned(m),
                     st, AfterMore(m, st), lim)
    decreases m, 1
  {
    hide Run, PrintGap, PrintItem, HasMark;
    var close := [CloseOf(k)] + rest;
    var s := PrintMore(m) + close;
    var counted := st.(items := st.items + 1, open := st.open[|st.open| - 1 := false]);
    assert counted.open[..|st.open| - 1] == st.open[..|st.open| - 1] == Touch(counted).open[..|st.open| - 1];
    match m {
      case End =>
        assert s == close;
        RunClose(k, rest, st, lim);
      case TrailingComma(gap) =>
        assert s == "," + (PrintGap(gap) + close);
        RunComma(PrintGap(gap) + close, st, lim);
        if st.items + 1 <= lim.items {
          RunGap(gap, close, counted, lim);
          RunClose(k, rest, Pass(gap, counted), lim);
        }
      case Next(item, more) =>
        var tail := PrintMore(more) + close;
        assert s == "," + (PrintItem(item) + tail);
        RunComma(PrintItem(item) + tail, st, lim);
        if st.items + 1 <= lim.items {
          RunItem(item, tail, counted, lim);
          if Fits(Depth(item.value), Scanned(item.value), counted, lim) {
            RunMore(more, k, rest, AfterItem(item, counted), lim);
            assert AfterItem(item, counted).open[..|st.open| - 1] == st.open[..|st.open| - 1];
          }
        }
    }
  }

  /** The flags tell whether `depth` and `members` are within the limits; one flag at most is set. */
  predicate Tells(flags: (bool, bool), depth: nat, members: nat, lim: Limits) {
    && (flags == (false, false) <==> depth <= lim.depth && members <= lim.items)
    && !(flags.0 && flags.1)
    && (flags.0 ==> depth > lim.depth)
    && (flags.1 ==> members > lim.items)
  }

  lemma RunTrail(trail: Gap, closing: Option<string>, st: Scan, lim: Limits)
    requires Resting(st) && st.open == [] && LegalGap(trail) && (closing.Some? ==> OneLine(closing.value))
    ensures Run(PrintGap(trail) + PrintClosing(closing), st, lim) == (false, false)
  {
    RunGap(trail, PrintClosing(closing), st, lim);
    if closing.Some? {
      RunCommentStart('/', closing.value, st, lim);
      RunClosing(closing.value, st.(mode := LineComment), lim);
    }
  }

  /**
   For every JSON or JSON5 document, however it is written: the scan passes it exactly when its
   nesting and its members are within the limits, and otherwise sets exactly one flag, a true one.
   It counts one member too many for each gap without an item that holds a byte-order mark.
   */
  lemma ScanMeasuresDocument(d: Document, lim: Limits)
    requires LegalDocument(d)
    ensures Tells(Run(PrintDocument(d), START, lim), Depth(d.value), Members(d.value) + Marks(d.value), lim)
  {
    var tail := PrintGap(d.trail) + PrintClosing(d.closing);
    var s1 := PrintValue(d.value) + tail;
    RunGap(d.lead, s1, START, lim);
    ScannedIsMembersAndMarks(d.value);
    match d.value {
      case Leaf(a) =>
        assert s1[0] == PrintAtom(a)[0];
      case Container(_, _) =>
        RunValue(d.value, tail, START, lim);
        if Fits(Depth(d.value), Scanned(d.value), START, lim) {
          RunTrail(d.trail, d.closing, AfterValue(d.value, START), lim);
        }
    }
  }

  /** The scan measures the document itself, under these limits. */
  ghost predicate IsMeasured(d: Document, lim: Limits) {
    Tells(Run(PrintDocument(d), START, lim), Depth(d.value), Members(d.value), lim)
  }

  /**
   The scan measures a document under all limits exactly when no empty container and no trailing comma
   has a byte-order mark in its gap. Marks anywhere else, before, behind and beside items, are invisible.
   */
  lemma MeasuredExactlyWithoutMarks(d: Document)
    requires LegalDocument(d)
    ensures (forall lim :: IsMeasured(d, lim)) <==> Marks(d.value) == 0
  {
    hide Run, Depth, Members, Marks;
    forall lim ensures Marks(d.value) == 0 ==> IsMeasured(d, lim) {
      ScanMeasuresDocument(d, lim);
    }
    var tight := Limits(Depth(d.value), Members(d.value));
    ScanMeasuresDocument(d, tight);
    assert IsMeasured(d, tight) ==> Marks(d.value) == 0;
  }

  /** A mark turns an empty array into one with a member; beside an item or behind the root it does not count. */
  lemma MarkInsideCounts()
    ensures var empty := Document([], Container(Array, Empty([Blank(BOM)])), [], None);
            LegalDocument(empty) && Members(empty.value) == 0 && !IsMeasured(empty, Limits(1, 0))
    ensures var one := Item([Blank(BOM)], None, Leaf(Bare("1")), []);
            var beside := Document([], Container(Array, Filled(one, End)), [Blank(BOM)], Some("x"));
            LegalDocument(beside) && forall lim :: IsMeasured(beside, lim)
  {
    var gap := [Blank(BOM)];
    assert gap[0] == Blank(BOM);
    var empty := Document([], Container(Array, Empty(gap)), [], None);
    ScanMeasuresDocument(empty, Limits(1, 0));
    hide Run, PrintDocument;
    var one := Item(gap, None, Leaf(Bare("1")), []);
    assert LegalAtom(Bare("1")) && LegalGap(gap) && OneLine("x");
    var filled := Container(Array, Filled(one, End));
    assert LegalItem(one) && LegalMore(End);
    assert LegalValue(filled) && Marks(filled) == 0;
    MeasuredExactlyWithoutMarks(Document([], filled, gap, Some("x")));
  }

  // ---------------------------------------------------------------- prefixes

  lemma SlashSetsNoFlag(st: Scan, lim: Limits)
    ensures Token('/', st, lim).Go? || Token('/', st, lim) == Stop(false, false)
  {
  }

  /** A limit flagged on a prefix of a text is flagged identically on the whole text. */
  lemma {:induction false} FlagsAreStable(s: string, more: string, st: Scan, lim: Limits)
    requires Run(s, st, lim) != (false, false)
    ensures Run(s + more, st, lim) == Run(s, st, lim)
    decreases |s|
  {
    SlashSetsNoFlag(st, lim);
    hide Token, InString;
    assert (s + more)[1..] == s[1..] + more;
    if |s| >= 2 { assert (s + more)[2..] == s[2..] + more; }
    match st.mode {
      case LineComment => FlagsAreStable(s[1..], more, if EndsLine(s[0]) then st.(mode := Plain) else st, lim);
      case BlockComment =>
        if Begins(s, '*', '/') {
          FlagsAreStable(s[2..], more, st.(mode := Plain), lim);
        } else {
          FlagsAreStable(s[1..], more, st, lim);
        }
      case Quoted(q, e) => FlagsAreStable(s[1..], more, st.(mode := InString(s[0], q, e)), lim);
      case Plain =>
        if Begins(s, '/', '/') {
          FlagsAreStable(s[2..], more, st.(mode := LineComment), lim);
        } else if Begins(s, '/', '*') {
          FlagsAreStable(s[2..], more, st.(mode := BlockComment), lim);
        } else if Token(s[0], st, lim).Go? {
          FlagsAreStable(s[1..], more, Token(s[0], st, lim).next, lim);
        }
    }
  }

  // ---------------------------------------------------------------- the second scanner

  function SkipLine(s: string): (rest: string)
    ensures |rest| <= |s|
  {
    if s == "" || EndsLine(s[0]) then s else SkipLine(s[1..])
  }

  function SkipBlock(s: string): (rest: Option<string>)
    ensures rest.Some? ==> |rest.value| < |s|
  {
    if |s| < 2 then None
    else if Begins(s, '*', '/') then Some(s[2..])
    else SkipBlock(s[1..])
  }

  /** The first character that is neither blank nor comment opens a container. */
  function StartsContainer(s: string): bool
    decreases |s|
  {
    if s == "" then false
    else if IsSpace(s[0]) || s[0] == BOM then StartsContainer(s[1..])
    else if Begins(s, '/', '/') then StartsContainer(SkipLine(s[2..]))
    else if Begins(s, '/', '*') then SkipBlock(s[2..]).Some? && StartsContainer(SkipBlock(s[2..]).value)
    else IsOpen(s[0])
  }

  /** The search for the end of a block comment: the first place behind which the comment is over. */
  method FindCommentEnd(text: string, from: nat) returns (at: int)
    requires from <= |text|
    ensures at < 0 ==> SkipBlock(text[from..]).None?
    ensures at >= 0 ==> from <= at && at + 2 <= |text| && SkipBlock(text[from..]) == Some(text[at + 2..])
  {
    at := from;
    while at + 1 < |text|
      invariant from <= at && (at <= |text|)
      invariant SkipBlock(text[from..]) == SkipBlock(text[at..])
    {
      assert text[at..][1..] == text[at + 1..] && text[at..][2..] == text[at + 2..];
      if text[at] == '*' && text[at + 1] == '/' { return; }
      at := at + 1;
    }
    at := -1;
  }

  /** `_starts_json_like_container`. */
  method StartsJsonLikeContainer(text: string) returns (r: bool)
    ensures r == StartsContainer(text)
  {
    var index := 0;
    while index < |text|
      invariant 0 <= index <= |text|
      invariant StartsContainer(text) == StartsContainer(text[index..])
    {
      var c := text[index];
      var pair := index + 1 < |text|;
      var here := text[index..];
      assert here[0] == c && here[1..] == text[index + 1..];
      assert pair ==> here[1] == text[index + 1] && here[2..] == text[index + 2..];
      if IsSpace(c) || c == BOM {
        index := index + 1;
        continue;
      }
      if pair && c == '/' && text[index + 1] == '/' {
        index := index + 2;
        while index < |text| && !EndsLine(text[index])
          invariant index <= |text|
          invariant SkipLine(here[2..]) == SkipLine(text[index..])
        {
          assert text[index..][1..] == text[index + 1..];
          index := index + 1;
        }
        assert SkipLine(text[index..]) == text[index..];
        continue;
      }
      if pair && c == '/' && text[index + 1] == '*' {
        var closing := FindCommentEnd(text, index + 2);
        if closing < 0 { return false; }
        index := closing + 2;
        continue;
      }
      return IsOpen(c);
    }
    return false;
  }

  lemma {:induction false} LineCommentsAgree(s: string, lim: Limits)
    ensures Run(s, START.(mode := LineComment), lim) == Run(SkipLine(s), START, lim)
  {
    if s != "" && !EndsLine(s[0]) { LineCommentsAgree(s[1..], lim); }
  }

  lemma {:induction false} BlockCommentsAgree(s: string, lim: Limits)
    ensures Run(s, START.(mode := BlockComment), lim) ==
            if SkipBlock(s).Some? then Run(SkipBlock(s).value, START, lim) else (false, false)
  {
    if |s| == 1 {
      assert s[1..] == "";
    } else if |s| >= 2 && !Begins(s, '*', '/') {
      BlockCommentsAgree(s[1..], lim);
    }
  }

  /** `_json_like_nesting_exceeds(text, 0)` and `_starts_json_like_container(text)` agree on every text. */
  lemma {:induction false} ScannersAgree(s: string, items: nat)
    ensures StartsContainer(s) == Run(s, START, Limits(0, items)).0
    decreases |s|
  {
    var lim := Limits(0, items);
    if s != "" {
      if IsSpace(s[0]) || s[0] == BOM {
        ScannersAgree(s[1..], items);
      } else if Begins(s, '/', '/') {
        LineCommentsAgree(s[2..], lim);
        ScannersAgree(SkipLine(s[2..]), items);
      } else if Begins(s, '/', '*') {
        BlockCommentsAgree(s[2..], lim);
        if SkipBlock(s[2..]).Some? { ScannersAgree(SkipBlock(s[2..]).value, items); }
      }
    }
  }
}
