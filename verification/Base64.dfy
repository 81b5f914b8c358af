/** The base64url coding of RFC 4648 section 5, with padding, and the decoder's size guard. */
module Base64 {
  import opened Outcomes
  import opened Octets

  function Char(v: nat): char
    requires v < 64
  {
    if v < 26 then ('A' as int + v) as char
    else if v < 52 then ('a' as int + v - 26) as char
    else if v < 62 then ('0' as int + v - 52) as char
    else if v == 62 then '-'
    else '_'
  }

  function Value(c: char): (v: Option<nat>)
    ensures v.Some? ==> v.value < 64
  {
    if 'A' <= c <= 'Z' then Some(c as int - 'A' as int)
    else if 'a' <= c <= 'z' then Some(c as int - 'a' as int + 26)
    else if '0' <= c <= '9' then Some(c as int - '0' as int + 52)
    else if c == '-' then Some(62)
    else if c == '_' then Some(63)
    else None
  }

  lemma ValueOfChar(v: nat)
    requires v < 64
    ensures Value(Char(v)) == Some(v) && Char(v) != '='
  {
  }

  /** `base64.urlsafe_b64encode`. */
  function Encode(b: Bytes): (s: string)
    ensures |s| == (|b| + 2) / 3 * 4
  {
    if b == [] then ""
    else if |b| == 1 then [Char(b[0] / 4), Char(b[0] % 4 * 16), '=', '=']
    else if |b| == 2 then [Char(b[0] / 4), Char(b[0] % 4 * 16 + b[1] / 16), Char(b[1] % 16 * 4), '=']
    else
      [Char(b[0] / 4), Char(b[0] % 4 * 16 + b[1] / 16), Char(b[1] % 16 * 4 + b[2] / 64), Char(b[2] % 64)] +
      Encode(b[3..])
  }

  /** `base64.b64decode(validate=True)` on the url-safe alphabet, for padded text. */
  function Decode(s: string): Option<Bytes> {
    if s == "" then Some([])
    else if |s| < 4 then None
    else
      var a :- Value(s[0]);
      var b :- Value(s[1]);
      if |s| == 4 && s[2] == '=' && s[3] == '=' then Some([a * 4 + b / 16])
      else
        var c :- Value(s[2]);
        if |s| == 4 && s[3] == '=' then Some([a * 4 + b / 16, b % 16 * 16 + c / 4])
        else
          var d :- Value(s[3]);
          var rest :- Decode(s[4..]);
          Some([a * 4 + b / 16, b % 16 * 16 + c / 4, c % 4 * 64 + d] + rest)
  }

  lemma DecodeValues(v: nat, w: nat, x: nat, y: nat, rest: string)
    requires v < 64 && w < 64 && x < 64 && y < 64
    ensures Decode([Char(v), Char(w), Char(x), Char(y)] + rest) ==
            if Decode(rest).Some? then Some([v * 4 + w / 16, w % 16 * 16 + x / 4, x % 4 * 64 + y] + Decode(rest).value)
            else None
  {
    ValueOfChar(v);
    ValueOfChar(w);
    ValueOfChar(x);
    ValueOfChar(y);
    hide Char, Value;
    var s := [Char(v), Char(w), Char(x), Char(y)] + rest;
    assert s[4..] == rest;
  }

  /** Four sextets hold three bytes. */
  lemma Repacked(a: Byte, b: Byte, c: Byte)
    ensures var v, w, x, y := a / 4, a % 4 * 16 + b / 16, b % 16 * 4 + c / 64, c % 64;
            && v < 64 && w < 64 && x < 64 && y < 64
            && v * 4 + w / 16 == a && w % 16 * 16 + x / 4 == b && x % 4 * 64 + y == c
  {
  }

  lemma DecodeGroup(a: Byte, b: Byte, c: Byte, rest: string)
    ensures Decode([Char(a / 4), Char(a % 4 * 16 + b / 16), Char(b % 16 * 4 + c / 64), Char(c % 64)] + rest) ==
            if Decode(rest).Some? then Some([a, b, c] + Decode(rest).value) else None
  {
    hide Decode, Char;
    Repacked(a, b, c);
    DecodeValues(a / 4, a % 4 * 16 + b / 16, b % 16 * 4 + c / 64, c % 64, rest);
  }

  lemma DecodePair(a: Byte, b: Byte)
    ensures Decode([Char(a / 4), Char(a % 4 * 16 + b / 16), Char(b % 16 * 4), '=']) == Some([a, b])
  {
    ValueOfChar(a / 4);
    ValueOfChar(a % 4 * 16 + b / 16);
    ValueOfChar(b % 16 * 4);
    hide Char, Value;
  }

  lemma DecodeSingle(a: Byte)
    ensures Decode([Char(a / 4), Char(a % 4 * 16), '=', '=']) == Some([a])
  {
    ValueOfChar(a / 4);
    ValueOfChar(a % 4 * 16);
    hide Char, Value;
  }

  lemma {:induction false} DecodeEncode(b: Bytes)
    ensures Decode(Encode(b)) == Some(b)
    decreases |b|
  {
    hide Decode, Char;
    if b == [] {
      DecodeNothing();
    } else if |b| == 1 {
      DecodeSingle(b[0]);
      assert b == [b[0]];
    } else if |b| == 2 {
      DecodePair(b[0], b[1]);
      assert b == [b[0], b[1]];
    } else {
      DecodeGroup(b[0], b[1], b[2], Encode(b[3..]));
      DecodeEncode(b[3..]);
      assert b == [b[0], b[1], b[2]] + b[3..];
    }
  }

  lemma DecodeNothing()
    ensures Decode("") == Some([])
  {
  }

  /** `_b64_decode`: a cheap bound on the text first, the exact bound on the bytes after. */
  function DecodeBounded(s: string, maxBytes: nat): Result<Bytes> {
    if |s| > (maxBytes + 2) / 3 * 4 + 8 then Err(ProtocolError)
    else
      var decoded := Decode(s);
      if decoded.None? || |decoded.value| > maxBytes then Err(ProtocolError) else Ok(decoded.value)
  }

  /** The guard is exact on encodings: it refuses those of more than `maxBytes` bytes and no others. */
  lemma GuardIsExact(b: Bytes, maxBytes: nat)
    ensures DecodeBounded(Encode(b), maxBytes) == if |b| <= maxBytes then Ok(b) else Err(ProtocolError)
  {
    hide Encode, Decode;
    DecodeEncode(b);
  }

  // ---------------------------------------------------------------- the coding as RFC 4648 draws it

  /** Table 2 of RFC 4648, in four parts. */
  const UPPER := "ABCDEFGHIJKLMNOPQRSTUVWXYZ"
  const LOWER := "abcdefghijklmnopqrstuvwxyz"
  const DIGITS := "0123456789"
  const ALPHABET := UPPER + LOWER + DIGITS + "-_"

  /** The part is a run of consecutive characters. */
  predicate Consecutive(part: string) {
    forall i :: 0 <= i < |part| ==> part[i] as int == part[0] as int + i
  }

  lemma PartsAreConsecutive()
    ensures Consecutive(UPPER) && Consecutive(LOWER) && Consecutive(DIGITS)
    ensures |UPPER| == 26 && |LOWER| == 26 && |DIGITS| == 10
    ensures UPPER[0] == 'A' && LOWER[0] == 'a' && DIGITS[0] == '0'
  {
  }

  lemma AlphabetIsRfc4648(v: nat)
    requires v < 64
    ensures |ALPHABET| == 64 && Char(v) == ALPHABET[v]
  {
    PartsAreConsecutive();
    hide UPPER, LOWER, DIGITS;
    if v < 26 {
      assert ALPHABET[v] == UPPER[v];
    } else if v < 52 {
      assert ALPHABET[v] == LOWER[v - 26];
    } else if v < 62 {
      assert ALPHABET[v] == DIGITS[v - 52];
    }
  }

  /** The value of four sextets, and of three bytes, the first one being the most significant. */
  function Sextets(a: nat, b: nat, c: nat, d: nat): nat {
    ((a * 64 + b) * 64 + c) * 64 + d
  }

  function Octets24(a: nat, b: nat, c: nat): nat {
    (a * 256 + b) * 256 + c
  }

  lemma SameNumber(a: Byte, b: Byte, c: Byte)
    ensures Sextets(a / 4, a % 4 * 16 + b / 16, b % 16 * 4 + c / 64, c % 64) == Octets24(a, b, c)
  {
  }

  /** Three bytes are written as the four sextets of one 24-bit number; missing bytes count as zero and show as '='. */
  ghost predicate Writes(b: Bytes, v: nat, w: nat, x: nat, y: nat)
    requires b != [] && v < 64 && w < 64 && x < 64 && y < 64 && |ALPHABET| == 64
  {
    && Sextets(v, w, x, y) == Octets24(b[0], if |b| > 1 then b[1] else 0, if |b| > 2 then b[2] else 0)
    && Encode(b) == [ALPHABET[v], ALPHABET[w], if |b| > 1 then ALPHABET[x] else '=',
                     if |b| > 2 then ALPHABET[y] else '='] + Encode(if |b| > 2 then b[3..] else [])
  }

  lemma EncodesBigEndian(b: Bytes) returns (v: nat, w: nat, x: nat, y: nat)
    requires b != []
    ensures v < 64 && w < 64 && x < 64 && y < 64 && |ALPHABET| == 64 && Writes(b, v, w, x, y)
  {
    var b1: Byte, b2: Byte := if |b| > 1 then b[1] else 0, if |b| > 2 then b[2] else 0;
    Repacked(b[0], b1, b2);
    v, w, x, y := b[0] / 4, b[0] % 4 * 16 + b1 / 16, b1 % 16 * 4 + b2 / 64, b2 % 64;
    SameNumber(b[0], b1, b2);
    AlphabetIsRfc4648(v);
    AlphabetIsRfc4648(w);
    AlphabetIsRfc4648(x);
    AlphabetIsRfc4648(y);
    hide Char, ALPHABET, Sextets, Octets24;
  }
}
