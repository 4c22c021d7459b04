/**
  Collecting a child's stdout and stderr under one byte cap (tools/mcp-terminal-server.js,
  `appendOutput`, `clampInteger` and the two listeners of `runCommand`). The listeners see one chunk
  at a time; the specification looks at the whole interleaved stream. Each retained piece is decoded by
  itself; text is a sequence of code points.
 */
module OutputCollector {
  import opened Prelude
  import opened Utf8

  datatype Stream = Out | Err

  datatype Chunk = Chunk(stream: Stream, bytes: seq<byte>)

  datatype Tagged = Tagged(stream: Stream, value: byte)

  const DEFAULT_MAX_OUTPUT_BYTES := 256_000
  const MAX_OUTPUT_BYTES := 1_000_000

  function Distance(a: int, b: int): nat { if a < b then b - a else a - b }

  /** `clampInteger`, of an absent value or a number that need not be whole: the closest integer in range. */
  function ClampInteger(value: Option<real>, default: int, min: int, max: int): (r: Result<int, string>)
    ensures r.Failure? <==> value.Some? && value.value.Floor as real != value.value
    ensures r.Success? && value.Some? && min <= max ==>
              && min <= r.value <= max
              && forall w :: min <= w <= max ==> Distance(r.value, value.value.Floor) <= Distance(w, value.value.Floor)
    ensures value.None? ==> r == Success(default)
  {
    if value.None? then Success(default)
    else if value.value.Floor as real != value.value then Failure("Numeric arguments must be integers")
    else
      var v := value.value.Floor;
      var low := if v < min then min else v;
      Success(if low > max then max else low)
  }

  /** The cap `runCommand` works with, for the `maxOutputBytes` it was given. */
  function OutputCap(value: Option<real>): (r: Result<int, string>)
    ensures value.None? ==> r == Success(256_000)
    ensures r.Failure? <==> value.Some? && value.value.Floor as real != value.value
    ensures r.Success? && value.Some? ==>
              && 1 <= r.value <= 1_000_000
              && forall w :: 1 <= w <= 1_000_000 ==> Distance(r.value, value.value.Floor) <= Distance(w, value.value.Floor)
  {
    ClampInteger(value, DEFAULT_MAX_OUTPUT_BYTES, 1, MAX_OUTPUT_BYTES)
  }

  // ---------- the offline view ----------

  function Tag(c: Chunk): (r: seq<Tagged>)
    ensures |r| == |c.bytes| && forall i :: 0 <= i < |r| ==> r[i] == Tagged(c.stream, c.bytes[i])
  {
    seq(|c.bytes|, (i: nat) requires i < |c.bytes| => Tagged(c.stream, c.bytes[i]))
  }

  /** All bytes in order of arrival, each with the stream it came from. */
  function Interleaved(arrivals: seq<Chunk>): seq<Tagged> {
    if arrivals == [] then [] else Interleaved(arrivals[..|arrivals| - 1]) + Tag(arrivals[|arrivals| - 1])
  }

  /** The first `cap` bytes of it. */
  function Retained(arrivals: seq<Chunk>, cap: nat): seq<Tagged> {
    Interleaved(arrivals)[..Min(|Interleaved(arrivals)|, cap)]
  }

  /** The bytes of one stream, in order. */
  function Project(tagged: seq<Tagged>, stream: Stream): seq<byte> {
    if tagged == [] then []
    else
      var last := tagged[|tagged| - 1];
      Project(tagged[..|tagged| - 1], stream) + if last.stream == stream then [last.value] else []
  }

  /** The part of one more chunk that still fits. */
  function Fitting(arrivals: seq<Chunk>, c: Chunk, cap: nat): seq<byte> {
    c.bytes[..Min(|c.bytes|, cap - |Retained(arrivals, cap)|)]
  }

  /** The text of one stream: its retained pieces, each decoded by itself. */
  function Text(arrivals: seq<Chunk>, stream: Stream, cap: nat): seq<int> {
    if arrivals == [] then []
    else
      var front, last := arrivals[..|arrivals| - 1], arrivals[|arrivals| - 1];
      Text(front, stream, cap) + if last.stream == stream then Decode(Fitting(front, last, cap)) else []
  }

  /** Some chunk did not fit as a whole, or came when the cap was reached already. */
  ghost predicate Overflowed(arrivals: seq<Chunk>, cap: nat) {
    exists k :: 0 <= k < |arrivals| && Overflows(arrivals, k, cap)
  }

  ghost predicate Overflows(arrivals: seq<Chunk>, k: nat, cap: nat)
    requires k < |arrivals|
  {
    var before := |Interleaved(arrivals[..k])|;
    before >= cap || before + |arrivals[k].bytes| > cap
  }

  // ---------- the online code ----------

  datatype Appended = Appended(text: seq<int>, outputBytes: nat, truncated: bool)

  function AppendOutput(currentText: seq<int>, chunk: seq<byte>, currentBytes: nat, maxBytes: nat): Appended {
    if currentBytes >= maxBytes then Appended(currentText, currentBytes, true)
    else
      var availableBytes := maxBytes - currentBytes;
      var next := chunk[..Min(|chunk|, availableBytes)];
      Appended(currentText + Decode(next), currentBytes + |next|, |chunk| > availableBytes)
  }

  class Collector {
    var stdout: seq<int>
    var stderr: seq<int>
    var outputBytes: nat
    var truncated: bool
    const maxOutputBytes: nat
    ghost var arrivals: seq<Chunk>

    /** At every moment the four variables are those of the offline view of what arrived. */
    ghost predicate Valid()
      reads this
    {
      && stdout == Text(arrivals, Out, maxOutputBytes)
      && stderr == Text(arrivals, Err, maxOutputBytes)
      && outputBytes == |Retained(arrivals, maxOutputBytes)| <= maxOutputBytes
      && (truncated <==> Overflowed(arrivals, maxOutputBytes))
    }

    constructor (maxOutputBytes: nat)
      ensures Valid() && arrivals == [] && this.maxOutputBytes == maxOutputBytes
    {
      this.maxOutputBytes := maxOutputBytes;
      stdout, stderr, outputBytes, truncated, arrivals := [], [], 0, false, [];
    }

    method OnStdout(chunk: seq<byte>)
      requires Valid()
      modifies this
      ensures Valid() && arrivals == old(arrivals) + [Chunk(Out, chunk)]
    {
      AppendIsStep(arrivals, Chunk(Out, chunk), maxOutputBytes);
      var result := AppendOutput(stdout, chunk, outputBytes, maxOutputBytes);
      stdout, outputBytes, truncated := result.text, result.outputBytes, truncated || result.truncated;
      arrivals := arrivals + [Chunk(Out, chunk)];
    }

    method OnStderr(chunk: seq<byte>)
      requires Valid()
      modifies this
      ensures Valid() && arrivals == old(arrivals) + [Chunk(Err, chunk)]
    {
      AppendIsStep(arrivals, Chunk(Err, chunk), maxOutputBytes);
      var result := AppendOutput(stderr, chunk, outputBytes, maxOutputBytes);
      stderr, outputBytes, truncated := result.text, result.outputBytes, truncated || result.truncated;
      arrivals := arrivals + [Chunk(Err, chunk)];
    }
  }

  /** The start of `runCommand`: a cap that is not a whole number is refused, any other is brought into range. */
  method StartCollecting(maxOutputBytes: Option<real>) returns (r: Result<Collector, string>)
    ensures r.Failure? <==> OutputCap(maxOutputBytes).Failure?
    ensures r.Success? ==>
              && fresh(r.value) && r.value.Valid() && r.value.arrivals == []
              && r.value.maxOutputBytes == OutputCap(maxOutputBytes).value
  {
    var cap := OutputCap(maxOutputBytes);
    if cap.Failure? {
      return Failure(cap.error);
    }
    var collector := new Collector(cap.value);
    r := Success(collector);
  }

  // ---------- why it works ----------

  lemma {:induction false} ProjectAppend(a: seq<Tagged>, b: seq<Tagged>, stream: Stream)
    ensures Project(a + b, stream) == Project(a, stream) + Project(b, stream)
  {
    if b == [] {
      assert a + b == a;
    } else {
      var n := |b| - 1;
      assert (a + b)[..|a| + n] == a + b[..n];
      ProjectAppend(a, b[..n], stream);
    }
  }

  lemma {:induction false} ProjectTag(c: Chunk, n: nat, stream: Stream)
    requires n <= |c.bytes|
    ensures Project(Tag(c)[..n], stream) == if c.stream == stream then c.bytes[..n] else []
  {
    if n > 0 {
      assert Tag(c)[..n][..n - 1] == Tag(c)[..n - 1];
      ProjectTag(c, n - 1, stream);
      assert c.bytes[..n] == c.bytes[..n - 1] + [c.bytes[n - 1]];
    }
  }

  /** What one more chunk adds to the retained prefix: as much of it as still fits. */
  lemma RetainedStep(arrivals: seq<Chunk>, c: Chunk, cap: nat)
    ensures var kept := Retained(arrivals, cap);
            var room := if |kept| >= cap then 0 else Min(|c.bytes|, cap - |kept|);
            && Retained(arrivals + [c], cap) == kept + Tag(c)[..room]
            && forall stream :: Project(Retained(arrivals + [c], cap), stream) ==
                                Project(kept, stream) + if stream == c.stream then c.bytes[..room] else []
  {
    var kept, all := Retained(arrivals, cap), Interleaved(arrivals);
    var room := if |kept| >= cap then 0 else Min(|c.bytes|, cap - |kept|);
    assert (arrivals + [c])[..|arrivals|] == arrivals;
    assert Interleaved(arrivals + [c]) == all + Tag(c);
    if |all| >= cap {
      assert (all + Tag(c))[..cap] == all[..cap] == kept + Tag(c)[..0];
    } else {
      assert all[..|all|] == all;
      assert (all + Tag(c))[..|all| + room] == all + Tag(c)[..room];
    }
    forall stream
      ensures Project(kept + Tag(c)[..room], stream) ==
              Project(kept, stream) + if stream == c.stream then c.bytes[..room] else []
    {
      ProjectAppend(kept, Tag(c)[..room], stream);
      ProjectTag(c, room, stream);
    }
  }

  lemma OverflowedStep(arrivals: seq<Chunk>, c: Chunk, cap: nat)
    ensures var before := |Interleaved(arrivals)|;
            Overflowed(arrivals + [c], cap) <==> Overflowed(arrivals, cap) || before >= cap || before + |c.bytes| > cap
  {
    var more := arrivals + [c];
    assert more[..|arrivals|] == arrivals;
    forall k | 0 <= k < |arrivals| ensures Overflows(more, k, cap) <==> Overflows(arrivals, k, cap) {
      assert more[..k] == arrivals[..k];
    }
    if Overflowed(arrivals, cap) {
      var k :| 0 <= k < |arrivals| && Overflows(arrivals, k, cap);
      assert Overflows(more, k, cap);
    }
    assert Overflows(more, |arrivals|, cap) <==> |Interleaved(arrivals)| >= cap || |Interleaved(arrivals)| + |c.bytes| > cap;
  }

  /** `appendOutput` on the offline view of all arrivals gives the offline view with one more. */
  lemma AppendIsStep(arrivals: seq<Chunk>, c: Chunk, cap: nat)
    ensures var more, bytes := arrivals + [c], |Retained(arrivals, cap)|;
            var result := AppendOutput(Text(arrivals, c.stream, cap), c.bytes, bytes, cap);
            && Text(more, c.stream, cap) == result.text
            && (forall other :: other != c.stream ==> Text(more, other, cap) == Text(arrivals, other, cap))
            && |Retained(more, cap)| == result.outputBytes <= cap
            && (Overflowed(more, cap) <==> Overflowed(arrivals, cap) || result.truncated)
  {
    var more := arrivals + [c];
    assert more[..|arrivals|] == arrivals;
    RetainedStep(arrivals, c, cap);
    OverflowedStep(arrivals, c, cap);
    forall other | other != c.stream ensures Text(more, other, cap) == Text(arrivals, other, cap) {
      assert Text(arrivals, other, cap) + [] == Text(arrivals, other, cap);
    }
    if |Retained(arrivals, cap)| >= cap {
      assert Fitting(arrivals, c, cap) == [] && Text(arrivals, c.stream, cap) + [] == Text(arrivals, c.stream, cap);
    }
  }

  // ---------- decoding piece by piece ----------

  /** No retained piece of the stream goes on with a character that the bytes retained before it leave unfinished. */
  ghost predicate CleanCuts(arrivals: seq<Chunk>, stream: Stream, cap: nat) {
    arrivals != [] ==>
      var front, last := arrivals[..|arrivals| - 1], arrivals[|arrivals| - 1];
      && CleanCuts(front, stream, cap)
      && (last.stream == stream ==> !SplitsCharacter(Project(Retained(front, cap), stream), Fitting(front, last, cap)))
  }

  /**
    The text of a stream is the decoding of its retained bytes if and only if no character was cut between
    two pieces; once one was, the text stays too long for ever, by one replacement character or more.
   */
  lemma {:induction false} TextFaithfulIff(arrivals: seq<Chunk>, stream: Stream, cap: nat)
    ensures var whole := Decode(Project(Retained(arrivals, cap), stream));
            && (CleanCuts(arrivals, stream, cap) ==> Text(arrivals, stream, cap) == whole)
            && (!CleanCuts(arrivals, stream, cap) ==> |Text(arrivals, stream, cap)| > |whole|)
            && (Text(arrivals, stream, cap) == whole <==> CleanCuts(arrivals, stream, cap))
  {
    if arrivals != [] {
      var front, last := arrivals[..|arrivals| - 1], arrivals[|arrivals| - 1];
      assert front + [last] == arrivals;
      TextFaithfulIff(front, stream, cap);
      RetainedStep(front, last, cap);
      var before, piece := Project(Retained(front, cap), stream), Fitting(front, last, cap);
      CutIsHarmlessIff(before, piece);
      if last.stream != stream {
        assert before + [] == before && Text(front, stream, cap) + [] == Text(front, stream, cap);
      }
    }
  }

  /** A text that was sent as UTF-8 and fits under the cap arrives as it was if and only if no character was cut. */
  lemma WholeTextArrivesIff(arrivals: seq<Chunk>, stream: Stream, cap: nat, text: seq<int>)
    requires |Interleaved(arrivals)| <= cap && forall i :: 0 <= i < |text| ==> IsScalar(text[i])
    requires Project(Interleaved(arrivals), stream) == Encode(text)
    ensures Text(arrivals, stream, cap) == text <==> CleanCuts(arrivals, stream, cap)
  {
    assert Retained(arrivals, cap) == Interleaved(arrivals);
    TextFaithfulIff(arrivals, stream, cap);
    DecodeEncode(text);
  }

  /** One more chunk of the same stream, with room for all of it. */
  lemma PieceFits(arrivals: seq<Chunk>, c: Chunk, cap: nat)
    requires |Retained(arrivals, cap)| + |c.bytes| < cap
    ensures Project(Retained(arrivals + [c], cap), c.stream) == Project(Retained(arrivals, cap), c.stream) + c.bytes
    ensures Text(arrivals + [c], c.stream, cap) == Text(arrivals, c.stream, cap) + Decode(c.bytes)
    ensures |Retained(arrivals + [c], cap)| == |Retained(arrivals, cap)| + |c.bytes|
  {
    RetainedStep(arrivals, c, cap);
    AppendIsStep(arrivals, c, cap);
    assert c.bytes[..|c.bytes|] == c.bytes;
  }

  /** It happens: the two bytes of U+00E9 in two chunks arrive as two replacement characters. */
  lemma CharacterCutInTwo()
    ensures var arrivals := [Chunk(Out, [0xC3])] + [Chunk(Out, [0xA9])];
            && Decode(Project(Retained(arrivals, 10), Out)) == [0xE9]
            && Text(arrivals, Out, 10) == [0xFFFD, 0xFFFD]
  {
    var first, second := Chunk(Out, [0xC3]), Chunk(Out, [0xA9]);
    PieceFits([], first, 10);
    assert [] + [first] == [first];
    PieceFits([first], second, 10);
    SplitCharacter();
    assert [] + first.bytes + second.bytes == [0xC3, 0xA9];
    assert [] + Decode(first.bytes) + Decode(second.bytes) == Decode(first.bytes) + Decode(second.bytes);
  }

  // ---------- the flag ----------

  /**
    When `truncated` is set: more bytes arrived than the cap allows, or exactly as many and the last chunk
    was empty.
   */
  lemma {:induction false} OverflowedIff(arrivals: seq<Chunk>, cap: nat)
    ensures Overflowed(arrivals, cap) <==>
            var total := |Interleaved(arrivals)|;
            total > cap || (arrivals != [] && total == cap && arrivals[|arrivals| - 1].bytes == [])
  {
    if arrivals != [] {
      var n := |arrivals| - 1;
      OverflowedIff(arrivals[..n], cap);
      OverflowedStep(arrivals[..n], arrivals[n], cap);
      assert arrivals[..n] + [arrivals[n]] == arrivals;
    }
  }

  /** `truncated` tells the truth as long as no chunk is empty, and a pipe delivers no empty chunk. */
  lemma TruncatedTellsTruth(arrivals: seq<Chunk>, cap: nat)
    requires forall k :: 0 <= k < |arrivals| ==> arrivals[k].bytes != []
    ensures Overflowed(arrivals, cap) <==> |Interleaved(arrivals)| > cap
  {
    OverflowedIff(arrivals, cap);
  }

  /** An empty chunk arriving at a full buffer would report a truncation that did not happen. */
  lemma EmptyChunkAtCap(arrivals: seq<Chunk>, stream: Stream, cap: nat)
    requires |Interleaved(arrivals)| == cap
    ensures Overflowed(arrivals + [Chunk(stream, [])], cap)
    ensures |Interleaved(arrivals + [Chunk(stream, [])])| == cap
  {
    OverflowedIff(arrivals + [Chunk(stream, [])], cap);
    assert (arrivals + [Chunk(stream, [])])[..|arrivals|] == arrivals;
  }
}
