/** Line-oriented reading of append-only JSONL files: the newline-aligned tail read of
    `compute.py`, a line-by-line parser over it, and UTF-8 validity of every chunk. */
module JsonlTail {

  newtype byte = x: int | 0 <= x < 0x100
  type Bytes = seq<byte>

  const NEWLINE: byte := 0x0A

  /** Nothing is left after the last newline. */
  predicate Complete(data: Bytes) {
    data == [] || data[|data| - 1] == NEWLINE
  }

  /** One past the last newline (`rfind` plus one), or 0 when there is none. */
  function CompleteLength(data: Bytes): (n: nat)
    ensures n <= |data| && Complete(data[..n])
  {
    if Complete(data) then |data| else CompleteLength(data[..|data| - 1])
  }

  /** No newline lies behind it. */
  lemma {:induction false} CompleteLengthMeans(data: Bytes)
    ensures forall k :: CompleteLength(data) <= k < |data| ==> data[k] != NEWLINE
  {
    if !Complete(data) {
      CompleteLengthMeans(data[..|data| - 1]);
    }
  }

  lemma CompleteLengthIs(data: Bytes, n: nat)
    requires n <= |data| && Complete(data[..n])
    requires forall k :: n <= k < |data| ==> data[k] != NEWLINE
    ensures CompleteLength(data) == n
  {
    CompleteLengthMeans(data);
    var m := CompleteLength(data);
    assert m > 0 ==> data[m - 1] == NEWLINE;
    assert n > 0 ==> data[n - 1] == NEWLINE;
  }

  /** The longest newline-terminated prefix. */
  function CompletePrefix(data: Bytes): Bytes {
    data[..CompleteLength(data)]
  }

  /** `_complete_jsonl_tail`: the complete lines after `start`, and the offset behind them. */
  method CompleteTail(content: Bytes, start: nat) returns (text: Bytes, safeOffset: nat)
    ensures start <= |content| ==> text == CompletePrefix(content[start..])
    ensures start > |content| ==> text == []
    ensures safeOffset == start + |text|
  {
    var data := if start <= |content| then content[start..] else [];
    if data == [] {
      return [], start;
    }
    var end := CompleteLength(data);
    if end == 0 {
      return [], start;
    }
    return data[..end], start + end;
  }

  // ----- Slices -----

  lemma CutOff<T>(s: seq<T>, a: nat, b: nat)
    requires a <= b <= |s|
    ensures s[a..][..b - a] == s[a..b] && s[..b][a..] == s[a..b] && s[..b][..a] == s[..a]
    ensures s[..a] + s[a..b] == s[..b]
  {
  }

  lemma PrefixSlices<T>(s: seq<T>, t: seq<T>, a: nat, b: nat)
    requires s <= t && a <= b <= |s|
    ensures s[..a] == t[..a] && s[..b] == t[..b] && s[a..b] == t[a..b]
  {
  }

  lemma CompleteConcat(a: Bytes, b: Bytes)
    requires Complete(a) && Complete(b)
    ensures Complete(a + b)
  {
  }

  lemma CompleteRest(data: Bytes, n: nat)
    requires Complete(data) && n <= |data|
    ensures Complete(data[n..])
  {
  }

  // ----- Parsing line by line -----

  /** Length of the first line, its newline included. */
  function FirstLine(data: Bytes): (n: nat)
    requires data != []
    ensures 0 < n <= |data| && (data[n - 1] == NEWLINE || n == |data|)
  {
    if data[0] == NEWLINE || |data| == 1 then 1 else 1 + FirstLine(data[1..])
  }

  /** No newline lies before its end. */
  lemma {:induction false} FirstLineMeans(data: Bytes)
    requires data != []
    ensures forall k :: 0 <= k < FirstLine(data) - 1 ==> data[k] != NEWLINE
  {
    if data[0] != NEWLINE && |data| > 1 {
      FirstLineMeans(data[1..]);
      assert forall k :: 1 <= k < |data| ==> data[k] == data[1..][k - 1];
    }
  }

  lemma FirstLineIs(data: Bytes, n: nat)
    requires 0 < n <= |data| && (data[n - 1] == NEWLINE || n == |data|)
    requires forall k :: 0 <= k < n - 1 ==> data[k] != NEWLINE
    ensures FirstLine(data) == n
  {
    FirstLineMeans(data);
    var m := FirstLine(data);
    assert m < |data| ==> data[m - 1] == NEWLINE;
  }

  /** More data behind the first newline does not move it. */
  lemma FirstLineConcat(a: Bytes, b: Bytes)
    requires a != [] && a[FirstLine(a) - 1] == NEWLINE
    ensures var n := FirstLine(a); FirstLine(a + b) == n && (a + b)[..n] == a[..n] && (a + b)[n..] == a[n..] + b
  {
    FirstLineMeans(a);
    FirstLineIs(a + b, FirstLine(a));
  }

  /** A single unfinished line runs on into what follows. */
  lemma FirstLineJoins(a: Bytes, b: Bytes)
    requires a != [] && !Complete(a) && FirstLine(a) == |a| && b != []
    ensures var n := |a| + FirstLine(b); FirstLine(a + b) == n && (a + b)[n..] == b[FirstLine(b)..]
  {
    FirstLineMeans(a);
    FirstLineMeans(b);
    FirstLineIs(a + b, |a| + FirstLine(b));
  }

  /** What a parser of the given version reads out of a file, line after line. */
  function Parse<E>(parser: (nat, Bytes) -> seq<E>, version: nat, data: Bytes): seq<E>
    decreases |data|
  {
    if data == [] then []
    else
      var n := FirstLine(data);
      parser(version, data[..n]) + Parse(parser, version, data[n..])
  }

  /** A single line is what the parser makes of it. */
  lemma ParseOneLine<E>(parser: (nat, Bytes) -> seq<E>, version: nat, line: Bytes)
    requires line != [] && line[|line| - 1] == NEWLINE && forall k :: 0 <= k < |line| - 1 ==> line[k] != NEWLINE
    ensures Parse(parser, version, line) == parser(version, line)
  {
    FirstLineIs(line, |line|);
    assert line[..|line|] == line && line[|line|..] == [];
    assert parser(version, line) + [] == parser(version, line);
  }

  lemma Associative<E>(x: seq<E>, y: seq<E>, z: seq<E>)
    ensures x + (y + z) == (x + y) + z
  {
  }

  lemma ParseFirst<E>(parser: (nat, Bytes) -> seq<E>, version: nat, a: Bytes, b: Bytes)
    requires a != [] && a[FirstLine(a) - 1] == NEWLINE
    ensures Parse(parser, version, a + b) == parser(version, a[..FirstLine(a)]) +
              Parse(parser, version, a[FirstLine(a)..] + b)
  {
    FirstLineConcat(a, b);
  }

  lemma {:induction false} ParseConcat<E>(parser: (nat, Bytes) -> seq<E>, version: nat, a: Bytes, b: Bytes)
    requires Complete(a)
    ensures Parse(parser, version, a + b) == Parse(parser, version, a) + Parse(parser, version, b)
    decreases |a|
  {
    if a == [] {
      assert a + b == b;
    } else {
      var n := FirstLine(a);
      assert a[n - 1] == NEWLINE;
      ParseFirst(parser, version, a, b);
      CompleteRest(a, n);
      ParseConcat(parser, version, a[n..], b);
      Associative(parser(version, a[..n]), Parse(parser, version, a[n..]), Parse(parser, version, b));
    }
  }

  ghost function LineCount(data: Bytes): nat
    decreases |data|
  {
    if data == [] then 0 else 1 + LineCount(data[FirstLine(data)..])
  }

  lemma {:induction false} OnePerLine(parser: (nat, Bytes) -> seq<int>, data: Bytes)
    requires forall line :: |parser(0, line)| == 1
    ensures |Parse(parser, 0, data)| == LineCount(data)
    decreases |data|
  {
    if data != [] {
      OnePerLine(parser, data[FirstLine(data)..]);
    }
  }

  lemma LineCountFrom(data: Bytes, n: nat, rest: Bytes)
    requires data != [] && FirstLine(data) == n && data[n..] == rest
    ensures LineCount(data) == 1 + LineCount(rest)
  {
  }

  /** A single unfinished line and what follows are one line less than apart. */
  lemma JoinedLineCount(a: Bytes, b: Bytes)
    requires a != [] && !Complete(a) && FirstLine(a) == |a| && b != []
    ensures LineCount(a) == 1 && LineCount(a + b) == LineCount(b)
  {
    LineCountFrom(a, |a|, []);
    var m := FirstLine(b);
    var rest := b[m..];
    LineCountFrom(b, m, rest);
    assert FirstLine(a + b) == |a| + m && (a + b)[|a| + m..] == rest by {
      FirstLineJoins(a, b);
    }
    LineCountFrom(a + b, |a| + m, rest);
  }

  lemma NextLineCount(a: Bytes, b: Bytes)
    requires a != [] && a[FirstLine(a) - 1] == NEWLINE
    ensures LineCount(a + b) == 1 + LineCount(a[FirstLine(a)..] + b)
  {
    FirstLineConcat(a, b);
  }

  /** Without the newline, the last line of `a` and the first of `b` are one line. */
  lemma {:induction false} BrokenLineCount(a: Bytes, b: Bytes)
    requires !Complete(a) && b != []
    ensures LineCount(a + b) == LineCount(a) + LineCount(b) - 1
    decreases |a|
  {
    var n := FirstLine(a);
    if n == |a| {
      JoinedLineCount(a, b);
    } else {
      NextLineCount(a, b);
      assert !Complete(a[n..]);
      BrokenLineCount(a[n..], b);
    }
  }

  /** Cutting a file at an offset loses nothing for every line parser exactly when the part
      before the cut is complete (or nothing follows it). */
  lemma CutIsLosslessIff(a: Bytes, b: Bytes)
    ensures (forall parser: (nat, Bytes) -> seq<int>, v ::
              Parse(parser, v, a + b) == Parse(parser, v, a) + Parse(parser, v, b))
            <==> Complete(a) || b == []
  {
    if Complete(a) {
      forall parser: (nat, Bytes) -> seq<int>, v
        ensures Parse(parser, v, a + b) == Parse(parser, v, a) + Parse(parser, v, b)
      {
        ParseConcat(parser, v, a, b);
      }
    } else if b == [] {
      assert a + b == a;
    } else {
      var one := (v: nat, line: Bytes) => [0];
      BrokenLineCount(a, b);
      OnePerLine(one, a);
      OnePerLine(one, b);
      OnePerLine(one, a + b);
      assert Parse(one, 0, a + b) != Parse(one, 0, a) + Parse(one, 0, b);
    }
  }

  // ----- Successive tail reads -----

  /** Reading on from a complete prefix reaches the end of the longest complete prefix. */
  lemma CompleteLengthFrom(data: Bytes, start: nat)
    requires start <= |data| && Complete(data[..start])
    ensures start + CompleteLength(data[start..]) == CompleteLength(data)
  {
    var rest := data[start..];
    var n := start + CompleteLength(rest);
    CutOff(data, start, n);
    CompleteConcat(data[..start], rest[..n - start]);
    CompleteLengthMeans(rest);
    forall k | n <= k < |data| ensures data[k] != NEWLINE {
      assert rest[k - start] != NEWLINE;
    }
    CompleteLengthIs(data, n);
  }

  /** A complete prefix of a file stays below the longest complete prefix as the file grows. */
  lemma CompletePrefixGrows(before: Bytes, after: Bytes)
    requires before <= after
    ensures CompletePrefix(before) <= CompletePrefix(after)
  {
    var n := CompleteLength(before);
    assert after[..n] == before[..n];
    CompleteLengthFrom(after, n);
  }

  ghost predicate Growing(history: seq<Bytes>) {
    forall i :: 0 <= i < |history| - 1 ==> history[i] <= history[i + 1]
  }

  /** The offset stored after reading the tail of each snapshot in turn, from offset 0. */
  ghost function OffsetAfter(history: seq<Bytes>): nat {
    if history == [] then 0
    else
      var start, content := OffsetAfter(history[..|history| - 1]), history[|history| - 1];
      if start <= |content| then start + CompleteLength(content[start..]) else start
  }

  /** The chunks read, one per snapshot. */
  ghost function Chunks(history: seq<Bytes>): seq<Bytes> {
    if history == [] then []
    else
      var init, content := history[..|history| - 1], history[|history| - 1];
      var start := OffsetAfter(init);
      Chunks(init) + [if start <= |content| then CompletePrefix(content[start..]) else []]
  }

  ghost function Concat(chunks: seq<Bytes>): Bytes {
    if chunks == [] then [] else Concat(chunks[..|chunks| - 1]) + chunks[|chunks| - 1]
  }

  lemma ReadStep(init: seq<Bytes>, content: Bytes)
    requires OffsetAfter(init) <= |content| && Complete(content[..OffsetAfter(init)])
    ensures OffsetAfter(init + [content]) == CompleteLength(content)
    ensures Chunks(init + [content]) == Chunks(init) + [CompletePrefix(content[OffsetAfter(init)..])]
    ensures Concat(Chunks(init + [content])) == Concat(Chunks(init)) + CompletePrefix(content[OffsetAfter(init)..])
  {
    var history := init + [content];
    assert history[..|init|] == init;
    CompleteLengthFrom(content, OffsetAfter(init));
    var chunks := Chunks(history);
    assert chunks[..|chunks| - 1] == Chunks(init);
  }

  /** A read that starts at the end of a complete prefix extends it to the longest one. */
  lemma ReadExtends(init: seq<Bytes>, content: Bytes, start: nat)
    requires start == OffsetAfter(init) && start <= |content| && Complete(content[..start])
    requires Concat(Chunks(init)) == content[..start]
    ensures OffsetAfter(init + [content]) == CompleteLength(content)
    ensures Concat(Chunks(init + [content])) == CompletePrefix(content)
  {
    ReadStep(init, content);
    CompleteLengthFrom(content, start);
    CutOff(content, start, CompleteLength(content));
  }

  /** Over any growth history the chunks, in order, are exactly the longest complete prefix of
      the last snapshot: nothing is skipped and nothing is read twice. */
  lemma {:induction false} ChunksPartition(history: seq<Bytes>)
    requires Growing(history) && history != []
    ensures OffsetAfter(history) == CompleteLength(history[|history| - 1])
    ensures Concat(Chunks(history)) == CompletePrefix(history[|history| - 1])
    decreases |history|
  {
    var init, content := history[..|history| - 1], history[|history| - 1];
    assert history == init + [content];
    if init == [] {
      ReadExtends(init, content, 0);
    } else {
      var last := init[|init| - 1];
      assert last == history[|init| - 1] && last <= content;
      ChunksPartition(init);
      assert content[..CompleteLength(last)] == CompletePrefix(last);
      ReadExtends(init, content, CompleteLength(last));
    }
  }

  // ----- UTF-8, section 4 of RFC 3629 -----

  predicate Continuation(b: byte) {
    0x80 <= b <= 0xBF
  }

  /** Length of the character that a first byte announces, or 0 if none starts with it. */
  function LeadLength(b: byte): nat {
    if b <= 0x7F then 1
    else if 0xC2 <= b <= 0xDF then 2
    else if 0xE0 <= b <= 0xEF then 3
    else if 0xF0 <= b <= 0xF4 then 4
    else 0
  }

  /** The bytes of one character: continuation bytes follow, and the second byte rules out overlong
      forms, surrogates and code points beyond the last. */
  predicate IsChar(c: Bytes)
    requires c != []
  {
    && (forall i :: 1 <= i < |c| ==> Continuation(c[i]))
    && (|c| >= 2 ==>
          && (c[0] == 0xE0 ==> c[1] >= 0xA0) && (c[0] == 0xED ==> c[1] <= 0x9F)
          && (c[0] == 0xF0 ==> c[1] >= 0x90) && (c[0] == 0xF4 ==> c[1] <= 0x8F))
  }

  /** Length of the character that `s` starts with, or 0 if it starts with none. */
  function CharLength(s: Bytes): (n: nat)
    ensures n <= |s|
  {
    if s == [] then 0
    else
      var n := LeadLength(s[0]);
      if 0 < n <= |s| && IsChar(s[..n]) then n else 0
  }

  predicate ValidUtf8(s: Bytes) {
    s == [] || (CharLength(s) > 0 && ValidUtf8(s[CharLength(s)..]))
  }

  /** A newline is not inside the first character, so a cut behind it leaves that character whole. */
  lemma FirstCharWhole(s: Bytes, n: nat)
    requires CharLength(s) > 0 && 0 < n <= |s| && s[n - 1] == NEWLINE
    ensures CharLength(s) <= n && CharLength(s[..n]) == CharLength(s)
  {
    var l := LeadLength(s[0]);
    if n > 1 {
      assert n - 1 < l ==> Continuation(s[..l][n - 1]);
    }
    assert s[..n][..l] == s[..l];
  }

  /** A newline never lies inside a character, so a valid file may be cut behind any newline. */
  lemma {:induction false} Utf8Cut(s: Bytes, n: nat)
    requires ValidUtf8(s) && n <= |s| && Complete(s[..n])
    ensures ValidUtf8(s[..n]) && ValidUtf8(s[n..])
    decreases |s|
  {
    if n == 0 {
      assert s[0..] == s;
    } else {
      assert s[n - 1] == s[..n][n - 1];
      FirstCharWhole(s, n);
      var l := CharLength(s);
      CutOff(s, l, n);
      assert s[l..][n - l..] == s[n..];
      CompleteTailOf(s, l, n);
      Utf8Cut(s[l..], n - l);
    }
  }

  lemma CompleteTailOf(s: Bytes, l: nat, n: nat)
    requires l <= n <= |s| && Complete(s[..n])
    ensures Complete(s[l..][..n - l])
  {
    CutOff(s, l, n);
    CompleteRest(s[..n], l);
  }

  /** The stretch between two newline cuts of a valid file is valid. */
  lemma StretchIsUtf8(whole: Bytes, start: nat, end: nat)
    requires ValidUtf8(whole) && start <= end <= |whole| && Complete(whole[..start]) && Complete(whole[..end])
    ensures ValidUtf8(whole[start..end])
  {
    CutOff(whole, start, end);
    Utf8Cut(whole, end);
    Utf8Cut(whole[..end], start);
  }

  /** A chunk is such a stretch of every later content of the file. */
  lemma ChunkIsStretch(whole: Bytes, content: Bytes, start: nat)
    requires content <= whole && start <= |content| && Complete(content[..start])
    ensures var end := CompleteLength(content);
            && start <= end && Complete(whole[..start]) && Complete(whole[..end])
            && CompletePrefix(content[start..]) == whole[start..end]
  {
    CompleteLengthFrom(content, start);
    CutOff(content, start, CompleteLength(content));
    PrefixSlices(content, whole, start, CompleteLength(content));
  }

  /** No chunk splits a character: although a snapshot may catch the file in the middle of one,
      it is enough that the file as finally written is valid UTF-8. */
  lemma {:induction false} ChunksAreUtf8(history: seq<Bytes>, whole: Bytes)
    requires Growing(history) && ValidUtf8(whole) && (history != [] ==> history[|history| - 1] <= whole)
    ensures forall c <- Chunks(history) :: ValidUtf8(c)
    decreases |history|
  {
    if history != [] {
      var init, content := history[..|history| - 1], history[|history| - 1];
      var start := OffsetAfter(init);
      if init != [] {
        var last := init[|init| - 1];
        assert last == history[|history| - 2] && last <= content;
        ChunksPartition(init);
        assert content[..start] == last[..start];
      }
      ChunksAreUtf8(init, whole);
      ChunkIsStretch(whole, content, start);
      StretchIsUtf8(whole, start, CompleteLength(content));
    }
  }
}
