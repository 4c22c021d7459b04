/**
  Cutting a character stream into lines (tools/mcp-terminal-server.js, the `data` listener of stdin).
  The specification splits the whole stream at once; the listener sees it chunk by chunk.
 */
module Framing {

  const NEWLINE := '\n'

  /** The white space and line terminators that `String.prototype.trim` removes. */
  predicate IsSpace(c: char) {
    || c == ' ' || '\U{0009}' <= c <= '\U{000D}' || c == '\U{00A0}' || c == '\U{1680}' || '\U{2000}' <= c <= '\U{200A}'
    || c == '\U{2028}' || c == '\U{2029}' || c == '\U{202F}' || c == '\U{205F}' || c == '\U{3000}' || c == '\U{FEFF}'
  }

  /** `indexOf`, as the length when there is no occurrence. */
  function IndexOf(s: string, c: char): (i: nat)
    ensures i <= |s| && (i < |s| ==> s[i] == c)
    ensures forall j :: 0 <= j < i ==> s[j] != c
  {
    if s == [] || s[0] == c then 0 else 1 + IndexOf(s[1..], c)
  }

  ghost predicate NewlineFree(s: string) {
    forall i :: 0 <= i < |s| ==> s[i] != NEWLINE
  }

  function TrimStart(s: string): string {
    if s != [] && IsSpace(s[0]) then TrimStart(s[1..]) else s
  }

  function TrimEnd(s: string): string {
    if s != [] && IsSpace(s[|s| - 1]) then TrimEnd(s[..|s| - 1]) else s
  }

  function Trim(s: string): string { TrimEnd(TrimStart(s)) }

  ghost predicate AllSpace(s: string) {
    forall i :: 0 <= i < |s| ==> IsSpace(s[i])
  }

  lemma {:induction false} TrimStartMeaning(s: string) returns (before: string)
    ensures s == before + TrimStart(s) && AllSpace(before)
    ensures TrimStart(s) != [] ==> !IsSpace(TrimStart(s)[0])
  {
    if s != [] && IsSpace(s[0]) {
      before := TrimStartMeaning(s[1..]);
      before := [s[0]] + before;
    } else {
      before := [];
    }
  }

  lemma {:induction false} TrimEndMeaning(s: string) returns (after: string)
    ensures s == TrimEnd(s) + after && AllSpace(after)
    ensures TrimEnd(s) != [] ==> !IsSpace(TrimEnd(s)[|TrimEnd(s)| - 1])
  {
    after := [];
    if s != [] && IsSpace(s[|s| - 1]) {
      var front, last := s[..|s| - 1], s[|s| - 1];
      var more := TrimEndMeaning(front);
      assert s == front + [last];
      after := more + [last];
      assert TrimEnd(s) == TrimEnd(front);
    }
  }

  /** Trimming takes white space off both ends, all of it, and nothing else. */
  lemma TrimMeaning(s: string) returns (before: string, after: string)
    ensures s == before + Trim(s) + after && AllSpace(before) && AllSpace(after)
    ensures Trim(s) != [] ==> !IsSpace(Trim(s)[0]) && !IsSpace(Trim(s)[|Trim(s)| - 1])
  {
    before := TrimStartMeaning(s);
    after := TrimEndMeaning(TrimStart(s));
    if Trim(s) != [] {
      assert Trim(s)[0] == TrimStart(s)[0];
    }
  }

  // ---------- splitting ----------

  /** The newline-terminated segments of `s`, without their newlines. */
  function Segments(s: string): seq<string>
    decreases |s|
  {
    var i := IndexOf(s, NEWLINE);
    if i == |s| then [] else [s[..i]] + Segments(s[i + 1..])
  }

  /** What follows the last newline. */
  function Rest(s: string): string
    decreases |s|
  {
    var i := IndexOf(s, NEWLINE);
    if i == |s| then s else Rest(s[i + 1..])
  }

  /** Segments and rest put together again. */
  function Joined(segments: seq<string>, rest: string): string {
    if segments == [] then rest else segments[0] + [NEWLINE] + Joined(segments[1..], rest)
  }

  ghost predicate IsSplit(s: string, segments: seq<string>, rest: string) {
    && Joined(segments, rest) == s && NewlineFree(rest)
    && forall i :: 0 <= i < |segments| ==> NewlineFree(segments[i])
  }

  lemma JoinedCons(head: string, segments: seq<string>, rest: string)
    ensures Joined([head] + segments, rest) == head + [NEWLINE] + Joined(segments, rest)
  {
    assert ([head] + segments)[1..] == segments;
  }

  lemma CutAt(s: string, i: nat)
    requires i < |s| && s[i] == NEWLINE
    ensures s == s[..i] + [NEWLINE] + s[i + 1..]
  {
  }

  lemma CutAtNewline(s: string)
    ensures var i := IndexOf(s, NEWLINE);
            if i == |s| then Segments(s) == [] && Rest(s) == s
            else
              && s == s[..i] + [NEWLINE] + s[i + 1..]
              && Segments(s) == [s[..i]] + Segments(s[i + 1..]) && Rest(s) == Rest(s[i + 1..])
  {
    var i := IndexOf(s, NEWLINE);
    if i < |s| { CutAt(s, i); }
  }

  lemma {:induction false} SplitJoins(s: string)
    ensures Joined(Segments(s), Rest(s)) == s
    decreases |s|
  {
    var i := IndexOf(s, NEWLINE);
    CutAtNewline(s);
    if i < |s| {
      var tail := s[i + 1..];
      SplitJoins(tail);
      JoinedCons(s[..i], Segments(tail), Rest(tail));
    }
  }

  lemma {:induction false} SplitNewlineFree(s: string)
    ensures NewlineFree(Rest(s)) && forall i :: 0 <= i < |Segments(s)| ==> NewlineFree(Segments(s)[i])
    decreases |s|
  {
    var i := IndexOf(s, NEWLINE);
    if i < |s| {
      SplitNewlineFree(s[i + 1..]);
    }
  }

  lemma SplitIsSplit(s: string)
    ensures IsSplit(s, Segments(s), Rest(s))
  {
    SplitJoins(s);
    SplitNewlineFree(s);
  }

  lemma FirstNewline(head: string, tail: string)
    requires NewlineFree(head)
    ensures IndexOf(head + [NEWLINE] + tail, NEWLINE) == |head|
  {
    var s := head + [NEWLINE] + tail;
    assert s[|head|] == NEWLINE;
    assert forall j :: 0 <= j < |head| ==> s[j] == head[j];
  }

  lemma CutFirst(head: string, tail: string)
    requires NewlineFree(head)
    ensures var s := head + [NEWLINE] + tail;
            Segments(s) == [head] + Segments(tail) && Rest(s) == Rest(tail)
  {
    var s := head + [NEWLINE] + tail;
    FirstNewline(head, tail);
    CutAtNewline(s);
    assert s[..|head|] == head && s[|head| + 1..] == tail;
  }

  lemma Associate<T>(a: seq<T>, b: seq<T>, c: seq<T>)
    ensures a + (b + c) == (a + b) + c
  {
  }

  /** There is only one way to cut a stream at its newlines. */
  lemma {:induction false} SplitIsUnique(s: string, segments: seq<string>, rest: string)
    requires IsSplit(s, segments, rest)
    ensures segments == Segments(s) && rest == Rest(s)
    decreases |segments|
  {
    if segments != [] {
      var tail := Joined(segments[1..], rest);
      CutFirst(segments[0], tail);
      SplitIsUnique(tail, segments[1..], rest);
    }
  }

  /** Splitting can be interrupted anywhere and resumed with what was left over. */
  lemma {:induction false} SplitResumes(a: string, b: string)
    ensures Segments(a + b) == Segments(a) + Segments(Rest(a) + b)
    ensures Rest(a + b) == Rest(Rest(a) + b)
    decreases |a|
  {
    var i := IndexOf(a, NEWLINE);
    CutAtNewline(a);
    if i < |a| {
      var head, tail := a[..i], a[i + 1..];
      SplitResumes(tail, b);
      Associate(head + [NEWLINE], tail, b);
      CutFirst(head, tail + b);
      Associate([head], Segments(tail), Segments(Rest(tail) + b));
    }
  }

  // ---------- the lines that are dispatched ----------

  /** A segment as it is dispatched: trimmed, and not at all when nothing remains. */
  function Kept(segment: string): seq<string> {
    var line := Trim(segment);
    if line == [] then [] else [line]
  }

  function Nonblank(segments: seq<string>): seq<string> {
    if segments == [] then [] else Kept(segments[0]) + Nonblank(segments[1..])
  }

  function Lines(s: string): seq<string> { Nonblank(Segments(s)) }

  lemma NonblankCons(segment: string, others: seq<string>)
    ensures Nonblank([segment] + others) == Kept(segment) + Nonblank(others)
  {
    assert ([segment] + others)[1..] == others;
  }

  /** Text without a newline dispatches nothing and is kept; up to the first newline it is one line, trimmed, unless blank. */
  lemma LinesMeaning(head: string, tail: string)
    requires NewlineFree(head)
    ensures Lines(head) == [] && Rest(head) == head
    ensures Lines(head + [NEWLINE] + tail) == (if Trim(head) == "" then [] else [Trim(head)]) + Lines(tail)
    ensures Rest(head + [NEWLINE] + tail) == Rest(tail)
  {
    assert IndexOf(head, NEWLINE) == |head|;
    CutAtNewline(head);
    CutFirst(head, tail);
    NonblankCons(head, Segments(tail));
  }

  /** Taking the first line off. */
  lemma LinesPop(s: string)
    ensures var i := IndexOf(s, NEWLINE);
            if i == |s| then Lines(s) == []
            else Rest(s) == Rest(s[i + 1..]) && Lines(s) == Kept(s[..i]) + Lines(s[i + 1..])
  {
    var i := IndexOf(s, NEWLINE);
    CutAtNewline(s);
    if i < |s| {
      NonblankCons(s[..i], Segments(s[i + 1..]));
    }
  }

  /** `done` are the lines taken off `input` so far, `buffer` is what is left of it. */
  ghost predicate Taken(input: string, done: seq<string>, buffer: string) {
    Rest(input) == Rest(buffer) && Lines(input) == done + Lines(buffer)
  }

  lemma TakenStep(input: string, done: seq<string>, buffer: string)
    requires Taken(input, done, buffer) && IndexOf(buffer, NEWLINE) < |buffer|
    ensures var i := IndexOf(buffer, NEWLINE); Taken(input, done + Kept(buffer[..i]), buffer[i + 1..])
  {
    var i := IndexOf(buffer, NEWLINE);
    LinesPop(buffer);
    Associate(done, Kept(buffer[..i]), Lines(buffer[i + 1..]));
  }

  lemma TakenAll(input: string, done: seq<string>, buffer: string)
    requires Taken(input, done, buffer) && IndexOf(buffer, NEWLINE) == |buffer|
    ensures done == Lines(input) && buffer == Rest(input)
  {
    LinesPop(buffer);
    assert done + [] == done;
  }

  lemma {:induction false} NonblankAppend(a: seq<string>, b: seq<string>)
    ensures Nonblank(a + b) == Nonblank(a) + Nonblank(b)
  {
    if a == [] {
      assert a + b == b;
    } else {
      assert (a + b)[1..] == a[1..] + b;
      NonblankAppend(a[1..], b);
    }
  }

  /** One more chunk: its effect depends only on the buffered rest. */
  lemma LinesResume(stream: string, chunk: string)
    ensures Lines(stream + chunk) == Lines(stream) + Lines(Rest(stream) + chunk)
    ensures Rest(stream + chunk) == Rest(Rest(stream) + chunk)
  {
    SplitResumes(stream, chunk);
    NonblankAppend(Segments(stream), Segments(Rest(stream) + chunk));
  }

  /** The lines there are when the unfinished last one counts too: the dispatched ones and, unless blank, what is left. */
  lemma LinesWithLast(s: string)
    ensures Lines(s + [NEWLINE]) == Lines(s) + Kept(Rest(s))
  {
    LinesResume(s, [NEWLINE]);
    SplitNewlineFree(s);
    assert Rest(s) + [NEWLINE] + [] == Rest(s) + [NEWLINE];
    CutFirst(Rest(s), []);
    NonblankCons(Rest(s), []);
    assert [Rest(s)] + [] == [Rest(s)] && Kept(Rest(s)) + [] == Kept(Rest(s));
  }

  function Concat(chunks: seq<string>): string {
    if chunks == [] then "" else Concat(chunks[..|chunks| - 1]) + chunks[|chunks| - 1]
  }

  /** The listener's view: buffer and lines after each chunk in turn. */
  function Feed(chunks: seq<string>): (string, seq<string>) {
    if chunks == [] then ("", [])
    else
      var (buffer, lines) := Feed(chunks[..|chunks| - 1]);
      var input := buffer + chunks[|chunks| - 1];
      (Rest(input), lines + Lines(input))
  }

  /** Chunking does not matter: the lines are those of the whole stream, the buffer is its last, unfinished one. */
  lemma {:induction false} ChunkingDoesNotMatter(chunks: seq<string>)
    ensures Feed(chunks) == (Rest(Concat(chunks)), Lines(Concat(chunks)))
  {
    if chunks == [] {
      assert IndexOf("", NEWLINE) == 0;
    } else {
      ChunkingDoesNotMatter(chunks[..|chunks| - 1]);
      LinesResume(Concat(chunks[..|chunks| - 1]), chunks[|chunks| - 1]);
    }
  }
}
