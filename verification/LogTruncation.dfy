/** get_logs' size limit: the log is cut to 512 KiB without splitting a UTF-8 character, and its lines are counted. */
module LogTruncation {
  type Byte = b: int | 0 <= b < 256

  type Bytes = seq<Byte>

  const MAX_LOG_BYTES := 512 * 1024

  const NEWLINE: Byte := 10

  // ---------------------------------------------------------------- UTF-8, as in section 4 of RFC 3629

  predicate Tail(b: Bytes, i: nat) {
    i < |b| && 0x80 <= b[i] <= 0xBF
  }

  predicate Second(b: Bytes, lo: int, hi: int) {
    1 < |b| && lo <= b[1] <= hi
  }

  /** The length of the character the bytes begin with, 0 if they begin with none. */
  function CharLength(b: Bytes): (n: nat)
    ensures n <= 4 && n <= |b|
  {
    if b == [] then 0
    else if b[0] <= 0x7F then 1
    else if 0xC2 <= b[0] <= 0xDF then if Tail(b, 1) then 2 else 0
    else if b[0] == 0xE0 then if Second(b, 0xA0, 0xBF) && Tail(b, 2) then 3 else 0
    else if b[0] == 0xED then if Second(b, 0x80, 0x9F) && Tail(b, 2) then 3 else 0
    else if 0xE1 <= b[0] <= 0xEF then if Tail(b, 1) && Tail(b, 2) then 3 else 0
    else if b[0] == 0xF0 then if Second(b, 0x90, 0xBF) && Tail(b, 2) && Tail(b, 3) then 4 else 0
    else if 0xF1 <= b[0] <= 0xF3 then if Tail(b, 1) && Tail(b, 2) && Tail(b, 3) then 4 else 0
    else if b[0] == 0xF4 then if Second(b, 0x80, 0x8F) && Tail(b, 2) && Tail(b, 3) then 4 else 0
    else 0
  }

  predicate Valid(b: Bytes) {
    b == [] || (CharLength(b) > 0 && Valid(b[CharLength(b)..]))
  }

  /** A Unicode character: a code point that is no surrogate. */
  predicate Scalar(c: int) {
    0 <= c < 0xD800 || 0xE000 <= c <= 0x10FFFF
  }

  /** Its bytes: six bits to each byte after the first. */
  function Encoded(c: int): (b: Bytes)
    requires Scalar(c)
  {
    if c < 0x80 then [c]
    else if c < 0x800 then [0xC0 + c / 0x40, 0x80 + c % 0x40]
    else if c < 0x1_0000 then [0xE0 + c / 0x1000, 0x80 + c / 0x40 % 0x40, 0x80 + c % 0x40]
    else [0xF0 + c / 0x4_0000, 0x80 + c / 0x1000 % 0x40, 0x80 + c / 0x40 % 0x40, 0x80 + c % 0x40]
  }

  lemma EncodedIsCharacter(c: int, rest: Bytes)
    requires Scalar(c)
    ensures CharLength(Encoded(c) + rest) == |Encoded(c)|
  {
    var b := Encoded(c) + rest;
    if 0x800 <= c < 0x1_0000 {
      ThreeIsCharacter(c, b);
    } else if 0x1_0000 <= c {
      FourIsCharacter(c, b);
    }
  }

  lemma ThreeIsCharacter(c: int, b: Bytes)
    requires Scalar(c) && 0x800 <= c < 0x1_0000 && |b| >= 3
    requires b[0] == 0xE0 + c / 0x1000 && b[1] == 0x80 + c / 0x40 % 0x40 && b[2] == 0x80 + c % 0x40
    ensures CharLength(b) == 3
  {
    assert b[0] == 0xE0 ==> b[1] >= 0xA0;
    assert b[0] == 0xED ==> b[1] <= 0x9F;
  }

  lemma FourIsCharacter(c: int, b: Bytes)
    requires Scalar(c) && 0x1_0000 <= c && |b| >= 4
    requires b[0] == 0xF0 + c / 0x4_0000 && b[1] == 0x80 + c / 0x1000 % 0x40
    requires b[2] == 0x80 + c / 0x40 % 0x40 && b[3] == 0x80 + c % 0x40
    ensures CharLength(b) == 4
  {
    assert b[0] == 0xF0 ==> b[1] >= 0x90;
    assert b[0] == 0xF4 ==> b[1] <= 0x8F;
  }

  lemma CharacterIsEncoded(b: Bytes) returns (c: int)
    requires CharLength(b) > 0
    ensures Scalar(c) && |Encoded(c)| == CharLength(b) && Encoded(c) == b[..CharLength(b)]
  {
    var n := CharLength(b);
    if n == 1 {
      c := b[0];
    } else if n == 2 {
      c := TwoBytes(b[0] - 0xC0, b[1] - 0x80);
    } else if n == 3 {
      c := ThreeBytes(b[0] - 0xE0, b[1] - 0x80, b[2] - 0x80);
    } else {
      c := FourBytes(b[0] - 0xF0, b[1] - 0x80, b[2] - 0x80, b[3] - 0x80);
    }
  }

  lemma TwoBytes(x: int, y: int) returns (c: int)
    requires 0 <= x < 0x20 && 0 <= y < 0x40
    ensures c == x * 0x40 + y && c / 0x40 == x && c % 0x40 == y
  {
    c := x * 0x40 + y;
  }

  lemma ThreeBytes(x: int, y: int, z: int) returns (c: int)
    requires 0 <= x <= 0xF && 0 <= y < 0x40 && 0 <= z < 0x40
    ensures c == x * 0x1000 + y * 0x40 + z
    ensures c / 0x1000 == x && c / 0x40 % 0x40 == y && c % 0x40 == z
  {
    c := x * 0x1000 + y * 0x40 + z;
    assert c / 0x40 == x * 0x40 + y;
  }

  lemma FourBytes(w: int, x: int, y: int, z: int) returns (c: int)
    requires 0 <= w <= 4 && 0 <= x < 0x40 && 0 <= y < 0x40 && 0 <= z < 0x40
    ensures c == w * 0x4_0000 + x * 0x1000 + y * 0x40 + z
    ensures c / 0x4_0000 == w && c / 0x1000 % 0x40 == x && c / 0x40 % 0x40 == y && c % 0x40 == z
  {
    c := w * 0x4_0000 + x * 0x1000 + y * 0x40 + z;
    assert c / 0x40 == w * 0x1000 + x * 0x40 + y;
    assert c / 0x1000 == w * 0x40 + x;
  }

  function EncodedAll(cs: seq<int>): Bytes
    requires forall c | c in cs :: Scalar(c)
  {
    if cs == [] then [] else Encoded(cs[0]) + EncodedAll(cs[1..])
  }

  /** Bytes are valid exactly if they are the bytes of some characters, one after the other. */
  lemma ValidExactly(b: Bytes)
    ensures Valid(b) <==> exists cs :: (forall c | c in cs :: Scalar(c)) && EncodedAll(cs) == b
  {
    if Valid(b) {
      var cs := Characters(b);
    }
    forall cs | (forall c | c in cs :: Scalar(c)) && EncodedAll(cs) == b ensures Valid(b) {
      EncodedAllValid(cs);
    }
  }

  lemma {:induction false} Characters(b: Bytes) returns (cs: seq<int>)
    requires Valid(b)
    ensures (forall c | c in cs :: Scalar(c)) && EncodedAll(cs) == b
  {
    hide Encoded, CharLength, Scalar;
    if b == [] {
      cs := [];
    } else {
      var n := CharLength(b);
      var c := CharacterIsEncoded(b);
      var rest := Characters(b[n..]);
      cs := [c] + rest;
      assert cs[1..] == rest && b == b[..n] + b[n..];
    }
  }

  lemma {:induction false} EncodedAllValid(cs: seq<int>)
    requires forall c | c in cs :: Scalar(c)
    ensures Valid(EncodedAll(cs))
    decreases |cs|
  {
    hide CharLength, Scalar, Encoded;
    if cs != [] {
      var c, rest := cs[0], EncodedAll(cs[1..]);
      EncodedAllValid(cs[1..]);
      EncodedIsCharacter(c, rest);
      EncodedLength(c);
      assert (Encoded(c) + rest)[|Encoded(c)|..] == rest;
    }
  }

  lemma EncodedLength(c: int)
    requires Scalar(c)
    ensures 1 <= |Encoded(c)| <= 4
  {
  }

  // ---------------------------------------------------------------- cutting

  predicate LongestValidPrefix(p: Bytes, b: Bytes) {
    && p <= b && Valid(p)
    && forall k | |p| < k <= |b| :: !Valid(b[..k])
  }

  /** `stream` is everything the container logged; no more than one byte past the limit is ever read. */
  method ReadLogs(stream: Bytes) returns (logs: Bytes, truncated: bool)
    ensures truncated == (|stream| > 524288)
    ensures !truncated ==> logs == stream
    ensures truncated ==> LongestValidPrefix(logs, stream[..MAX_LOG_BYTES])
  {
    logs := if |stream| > MAX_LOG_BYTES + 1 then stream[..MAX_LOG_BYTES + 1] else stream;
    truncated := |logs| > MAX_LOG_BYTES;
    if truncated {
      logs := logs[..MAX_LOG_BYTES];
      ghost var cut := logs;
      assert cut == stream[..MAX_LOG_BYTES];
      while |logs| > 0 && !Valid(logs)
        invariant logs == cut[..|logs|] && |logs| <= |cut|
        invariant forall k | |logs| < k <= |cut| :: !Valid(cut[..k])
      {
        logs := logs[..|logs| - 1];
      }
    }
  }

  /** A valid text cut anywhere is valid again after giving up at most three bytes. */
  lemma {:induction false} BoundaryNearby(b: Bytes, n: nat) returns (k: nat)
    requires Valid(b) && n <= |b|
    ensures k <= n <= k + 3 && Valid(b[..k])
    decreases n
  {
    var c := CharLength(b);
    if n < c || n == 0 {
      k := 0;
    } else {
      var rest := BoundaryNearby(b[c..], n - c);
      k := c + rest;
      assert b[..k][c..] == b[c..][..rest];
      SameChar(b, k);
    }
  }

  lemma SameChar(b: Bytes, k: nat)
    requires 0 < CharLength(b) <= k <= |b|
    ensures CharLength(b[..k]) == CharLength(b)
  {
  }

  /** From a valid stream at most three bytes go, besides what is past the limit. */
  lemma AtMostThreeBytesDropped(stream: Bytes, logs: Bytes)
    requires Valid(stream) && |stream| > MAX_LOG_BYTES
    requires LongestValidPrefix(logs, stream[..MAX_LOG_BYTES])
    ensures MAX_LOG_BYTES - 3 <= |logs| <= MAX_LOG_BYTES
  {
    var k := BoundaryNearby(stream, MAX_LOG_BYTES);
    assert stream[..MAX_LOG_BYTES][..k] == stream[..k];
  }

  /** Valid up to some point and no character there: no valid prefix reaches past that point. */
  lemma {:induction false} StuckAt(b: Bytes, p: nat, k: nat)
    requires p <= |b| && Valid(b[..p]) && CharLength(b[p..]) == 0 && p < k <= |b|
    ensures !Valid(b[..k])
    decreases p
  {
    if p == 0 {
      assert b[0..] == b;
      NoCharInPrefix(b, k);
    } else {
      var c := CharLength(b[..p]);
      if Valid(b[..k]) {
        assert b[..k][..p] == b[..p];
        SameChar(b[..k], p) by {
          CharOfPrefix(b[..k], p);
        }
        assert b[..p][c..] == b[c..][..p - c] && b[..k][c..] == b[c..][..k - c] && b[c..][p - c..] == b[p..];
        StuckAt(b[c..], p - c, k - c);
      }
    }
  }

  lemma CharOfPrefix(b: Bytes, k: nat)
    requires k <= |b| && CharLength(b[..k]) > 0
    ensures CharLength(b) == CharLength(b[..k])
  {
  }

  lemma NoCharInPrefix(b: Bytes, k: nat)
    requires CharLength(b) == 0 && 0 < k <= |b|
    ensures !Valid(b[..k])
  {
    if CharLength(b[..k]) > 0 {
      CharOfPrefix(b, k);
    }
  }

  /** How far the text is valid, read character by character. */
  function ValidUpTo(b: Bytes): (p: nat)
    ensures p <= |b|
  {
    if CharLength(b) == 0 then 0 else CharLength(b) + ValidUpTo(b[CharLength(b)..])
  }

  /** There a valid text ends, and any other has its first byte that begins no character. */
  lemma {:induction false} ValidUpToExactly(b: Bytes)
    ensures Valid(b[..ValidUpTo(b)])
    ensures ValidUpTo(b) == |b| <==> Valid(b)
    ensures ValidUpTo(b) < |b| ==> CharLength(b[ValidUpTo(b)..]) == 0
  {
    var c, p := CharLength(b), ValidUpTo(b);
    if c == 0 {
      assert b[0..] == b;
    } else {
      ValidUpToExactly(b[c..]);
      SameChar(b, p);
      assert b[..p][c..] == b[c..][..p - c] && b[p..] == b[c..][p - c..];
    }
  }

  /** A log over the limit is cut at its first invalid byte, if that comes before the limit. */
  lemma CutsAtFirstInvalidByte(stream: Bytes, logs: Bytes)
    requires |stream| > MAX_LOG_BYTES && ValidUpTo(stream) <= MAX_LOG_BYTES
    requires LongestValidPrefix(logs, stream[..MAX_LOG_BYTES])
    ensures logs == stream[..ValidUpTo(stream)]
  {
    hide CharLength, Valid, ValidUpTo;
    var cut, p := stream[..MAX_LOG_BYTES], ValidUpTo(stream);
    ValidUpToExactly(stream);
    assert cut[..p] == stream[..p];
    if CharLength(cut[p..]) > 0 {
      assert cut[p..] == stream[p..][..MAX_LOG_BYTES - p];
      CharOfPrefix(stream[p..], MAX_LOG_BYTES - p);
    }
    assert cut[..|logs|] == logs;
    if |logs| > p {
      StuckAt(cut, p, |logs|);
    }
  }

  /** At most three bytes are given up just when everything short of the last three within the limit is valid. */
  lemma DropsAtMostThreeExactly(stream: Bytes, logs: Bytes)
    requires |stream| > MAX_LOG_BYTES
    requires LongestValidPrefix(logs, stream[..MAX_LOG_BYTES])
    ensures |logs| >= MAX_LOG_BYTES - 3 <==> ValidUpTo(stream) >= MAX_LOG_BYTES - 3
  {
    var p := ValidUpTo(stream);
    if p <= MAX_LOG_BYTES {
      CutsAtFirstInvalidByte(stream, logs);
    } else {
      ValidUpToExactly(stream);
      assert stream[..p][..MAX_LOG_BYTES] == stream[..MAX_LOG_BYTES];
      AtMostThreeBytesDropped(stream[..p], logs);
    }
  }

  // ---------------------------------------------------------------- lines

  function Newlines(b: Bytes): nat {
    if b == [] then 0 else (if b[0] == NEWLINE then 1 else 0) + Newlines(b[1..])
  }

  /** The length of the first line, its newline included. */
  function LineLength(b: Bytes): (n: nat)
    requires b != []
    ensures 0 < n <= |b|
    ensures NEWLINE !in b[..n - 1]
    ensures n < |b| ==> b[n - 1] == NEWLINE
  {
    if b[0] == NEWLINE || |b| == 1 then 1
    else
      var n := 1 + LineLength(b[1..]);
      assert b[..n - 1] == [b[0]] + b[1..][..n - 2];
      n
  }

  function Lines(b: Bytes): seq<Bytes> {
    if b == [] then [] else [b[..LineLength(b)]] + Lines(b[LineLength(b)..])
  }

  predicate EndsWithNewline(b: Bytes) {
    b != [] && b[|b| - 1] == 10
  }

  function Join(lines: seq<Bytes>): Bytes {
    if lines == [] then [] else lines[0] + Join(lines[1..])
  }

  /** Each line ends with its only newline, save that the last may have none. */
  predicate AreLines(lines: seq<Bytes>) {
    lines == [] ||
    (&& lines[0] != [] && 10 !in lines[0][..|lines[0]| - 1]
     && (|lines| > 1 ==> EndsWithNewline(lines[0]))
     && AreLines(lines[1..]))
  }

  lemma NoLines()
    ensures Lines([]) == [] && Join([]) == []
  {
  }

  /** The lines are the whole text. */
  lemma {:induction false} LinesAreTheText(b: Bytes)
    ensures Join(Lines(b)) == b && AreLines(Lines(b))
  {
    hide LineLength, Lines, Join;
    if b == [] {
      NoLines();
    } else {
      var n := LineLength(b);
      LinesAreTheText(b[n..]);
      LinesOn(b);
      LineJoins(b, Lines(b), Lines(b[n..]));
    }
  }

  lemma LinesOn(b: Bytes)
    requires b != []
    ensures var n := LineLength(b);
            && Lines(b) == [b[..n]] + Lines(b[n..]) && Lines(b)[1..] == Lines(b[n..])
            && b[..n] != [] && NEWLINE !in b[..n][..n - 1]
            && (Lines(b[n..]) != [] ==> EndsWithNewline(b[..n]))
  {
    assert b[..LineLength(b)][..LineLength(b) - 1] == b[..LineLength(b) - 1];
  }

  lemma LineJoins(b: Bytes, lines: seq<Bytes>, rest: seq<Bytes>)
    requires b != [] && lines != [] && lines[0] == b[..LineLength(b)] && lines[1..] == rest
    requires Join(rest) == b[LineLength(b)..]
    ensures Join(lines) == b
  {
  }

  lemma {:induction false} NewlinesConcat(a: Bytes, b: Bytes)
    ensures Newlines(a + b) == Newlines(a) + Newlines(b)
  {
    if a == [] {
      assert a + b == b;
    } else {
      assert (a + b)[1..] == a[1..] + b;
      NewlinesConcat(a[1..], b);
    }
  }

  lemma {:induction false} NoNewlines(b: Bytes)
    requires NEWLINE !in b
    ensures Newlines(b) == 0
  {
    if b != [] {
      NoNewlines(b[1..]);
    }
  }

  lemma NewlinesOfLine(line: Bytes)
    requires line != [] && NEWLINE !in line[..|line| - 1]
    ensures Newlines(line) == if EndsWithNewline(line) then 1 else 0
  {
    var front, last := line[..|line| - 1], [line[|line| - 1]];
    assert line == front + last && last[1..] == [];
    NewlinesConcat(front, last);
    NoNewlines(front);
  }

  lemma {:induction false} CountOfLines(b: Bytes)
    ensures |Lines(b)| == Newlines(b) + if b != [] && !EndsWithNewline(b) then 1 else 0
  {
    if b == [] {
      NoLines();
    } else {
      hide Newlines, LineLength, Lines, EndsWithNewline;
      CountOfLines(b[LineLength(b)..]);
      LinesOn(b);
      FirstLineCounts(b);
      NoNewlinesInNothing();
    }
  }

  lemma FirstLineCounts(b: Bytes)
    requires b != []
    ensures var n := LineLength(b);
            && (n < |b| ==> EndsWithNewline(b[..n]) && (EndsWithNewline(b[n..]) <==> EndsWithNewline(b)))
            && (n == |b| ==> b[n..] == [])
            && Newlines(b) == Newlines(b[n..]) + if n < |b| || EndsWithNewline(b) then 1 else 0
  {
    hide Newlines, LineLength;
    var n := LineLength(b);
    assert b == b[..n] + b[n..];
    assert b[..n][..n - 1] == b[..n - 1];
    NewlinesConcat(b[..n], b[n..]);
    NewlinesOfLine(b[..n]);
    NoNewlinesInNothing();
    assert n == |b| ==> b[..n] == b;
  }

  lemma NoNewlinesInNothing()
    ensures Newlines([]) == 0 && Lines([]) == []
  {
  }

  /** strings.Count of the newlines, plus a last line without one. */
  method CountLines(logs: Bytes) returns (lines: nat)
    ensures lines == |Lines(logs)|
  {
    lines := Newlines(logs);
    if |logs| > 0 && logs[|logs| - 1] != NEWLINE {
      lines := lines + 1;
    }
    CountOfLines(logs);
  }
}
