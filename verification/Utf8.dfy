/**
  Decoding UTF-8 the way Node's buffers do (`toString('utf8')`; RFC 3629, and the decoder of the Encoding
  Standard): a byte automaton that turns every maximal ill-formed part into one replacement character.
  Text is a sequence of code points.
 */
module Utf8 {

  newtype byte = x: int | 0 <= x < 256

  const REPLACEMENT := 0xFFFD

  /** An unfinished sequence: how many bytes are to come, the range of the next one, the bits so far. */
  datatype Pending = Pending(needed: nat, lower: int, upper: int, bits: int) {
    ghost predicate Valid() { needed > 0 ==> 0x80 <= lower && upper <= 0xBF }

    predicate Continues(b: byte) { needed > 0 && lower <= b as int <= upper }
  }

  const IDLE := Pending(0, 0, 0, 0)

  /** The first byte of a sequence. */
  function Lead(b: byte): (r: (Pending, seq<int>))
    ensures r.0.Valid()
    ensures 0x80 <= b as int <= 0xBF ==> r == (IDLE, [REPLACEMENT])
  {
    var v := b as int;
    if v < 0x80 then (IDLE, [v])
    else if 0xC2 <= v <= 0xDF then (Pending(1, 0x80, 0xBF, v - 0xC0), [])
    else if 0xE0 <= v <= 0xEF then
      (Pending(2, if v == 0xE0 then 0xA0 else 0x80, if v == 0xED then 0x9F else 0xBF, v - 0xE0), [])
    else if 0xF0 <= v <= 0xF4 then
      (Pending(3, if v == 0xF0 then 0x90 else 0x80, if v == 0xF4 then 0x8F else 0xBF, v - 0xF0), [])
    else (IDLE, [REPLACEMENT])
  }

  /** One byte: continue, finish or give up the pending sequence; in the last case the byte starts anew. */
  function Step(p: Pending, b: byte): (r: (Pending, seq<int>))
    ensures p.Valid() ==> r.0.Valid()
  {
    if p.needed == 0 then Lead(b)
    else if p.Continues(b) then
      var bits := 64 * p.bits + (b as int - 0x80);
      if p.needed == 1 then (IDLE, [bits]) else (Pending(p.needed - 1, 0x80, 0xBF, bits), [])
    else
      var (q, text) := Lead(b);
      (q, [REPLACEMENT] + text)
  }

  /** The text from here to the end; what is unfinished there is replaced. */
  function Finish(p: Pending, bytes: seq<byte>): seq<int>
    decreases |bytes|
  {
    if bytes == [] then if p.needed > 0 then [REPLACEMENT] else []
    else
      var (q, text) := Step(p, bytes[0]);
      text + Finish(q, bytes[1..])
  }

  function Decode(bytes: seq<byte>): seq<int> { Finish(IDLE, bytes) }

  /** The automaton after `bytes`, and what it has put out by then. */
  function After(p: Pending, bytes: seq<byte>): (r: Pending)
    ensures p.Valid() ==> r.Valid()
    decreases |bytes|
  {
    if bytes == [] then p else After(Step(p, bytes[0]).0, bytes[1..])
  }

  function Emitted(p: Pending, bytes: seq<byte>): seq<int>
    decreases |bytes|
  {
    if bytes == [] then [] else Step(p, bytes[0]).1 + Emitted(Step(p, bytes[0]).0, bytes[1..])
  }

  lemma {:induction false} FinishSplit(p: Pending, a: seq<byte>, b: seq<byte>)
    ensures Finish(p, a + b) == Emitted(p, a) + Finish(After(p, a), b)
    decreases |a|
  {
    if a == [] {
      assert a + b == b;
    } else {
      assert (a + b)[1..] == a[1..] + b;
      FinishSplit(Step(p, a[0]).0, a[1..], b);
    }
  }

  // ---------- cutting a stream in two ----------

  /** The cut falls into a character: the second part goes on with what the first leaves unfinished. */
  predicate SplitsCharacter(a: seq<byte>, b: seq<byte>) {
    b != [] && After(IDLE, a).Continues(b[0])
  }

  /** A continued sequence makes fewer characters than its rest read from scratch. */
  lemma {:induction false} ContinuedIsShorter(p: Pending, b: seq<byte>)
    requires p.Valid() && b != [] && p.Continues(b[0])
    ensures |Finish(p, b)| <= |Decode(b)|
    decreases |b|
  {
    var q, rest := Step(p, b[0]).0, b[1..];
    assert Decode(b) == [REPLACEMENT] + Decode(rest);
    if p.needed > 1 && rest != [] {
      if q.Continues(rest[0]) {
        ContinuedIsShorter(q, rest);
      } else {
        GivenUp(q, rest);
      }
    }
  }

  /** A byte that does not continue leaves one replacement character and starts from scratch. */
  lemma GivenUp(p: Pending, b: seq<byte>)
    requires p.needed > 0 && (b == [] || !p.Continues(b[0]))
    ensures Finish(p, b) == [REPLACEMENT] + Decode(b)
  {
    if b != [] {
      var (q, text) := Lead(b[0]);
      assert [REPLACEMENT] + text + Finish(q, b[1..]) == [REPLACEMENT] + (text + Finish(q, b[1..]));
    }
  }

  /**
    Decoding two parts apart gives the text of the whole if and only if the cut does not fall into a
    character; if it does, the text comes out longer.
   */
  lemma CutIsHarmlessIff(a: seq<byte>, b: seq<byte>)
    ensures |Decode(a + b)| <= |Decode(a)| + |Decode(b)|
    ensures SplitsCharacter(a, b) ==> |Decode(a + b)| < |Decode(a)| + |Decode(b)|
    ensures Decode(a + b) == Decode(a) + Decode(b) <==> !SplitsCharacter(a, b)
  {
    var p := After(IDLE, a);
    FinishSplit(IDLE, a, b);
    FinishSplit(IDLE, a, []);
    assert a + [] == a;
    if p.needed > 0 {
      if SplitsCharacter(a, b) {
        ContinuedIsShorter(p, b);
      } else {
        GivenUp(p, b);
        assert Emitted(IDLE, a) + ([REPLACEMENT] + Decode(b)) == (Emitted(IDLE, a) + [REPLACEMENT]) + Decode(b);
      }
    } else {
      assert Finish(p, b) == Decode(b);
    }
  }

  // ---------- it is UTF-8 ----------

  /** Section 3 of RFC 3629: the code points that have a form, and that form. */
  predicate IsScalar(c: int) { 0 <= c < 0xD800 || 0xE000 <= c <= 0x10FFFF }

  function EncodePoint(c: int): (bytes: seq<byte>)
    requires IsScalar(c)
    ensures bytes != []
  {
    if c < 0x80 then [c as byte]
    else if c < 0x800 then [(0xC0 + c / 64) as byte, (0x80 + c % 64) as byte]
    else if c < 0x10000 then [(0xE0 + c / 4096) as byte, (0x80 + c / 64 % 64) as byte, (0x80 + c % 64) as byte]
    else
      [(0xF0 + c / 262144) as byte, (0x80 + c / 4096 % 64) as byte, (0x80 + c / 64 % 64) as byte, (0x80 + c % 64) as byte]
  }

  function Encode(text: seq<int>): seq<byte>
    requires forall i :: 0 <= i < |text| ==> IsScalar(text[i])
  {
    if text == [] then [] else EncodePoint(text[0]) + Encode(text[1..])
  }

  /** One more byte, with nothing put out yet. */
  lemma OneByteOn(p: Pending, bytes: seq<byte>, q: Pending)
    requires bytes != [] && Step(p, bytes[0]) == (q, [])
    ensures After(p, bytes) == After(q, bytes[1..]) && Emitted(p, bytes) == Emitted(q, bytes[1..])
  {
    assert [] + Emitted(q, bytes[1..]) == Emitted(q, bytes[1..]);
  }

  lemma LastByte(p: Pending, b: byte, c: int)
    requires Step(p, b) == (IDLE, [c])
    ensures After(p, [b]) == IDLE && Emitted(p, [b]) == [c]
  {
    assert [b][1..] == [];
  }

  lemma TwoBytes(c: int)
    requires 0x80 <= c < 0x800
    ensures After(IDLE, EncodePoint(c)) == IDLE && Emitted(IDLE, EncodePoint(c)) == [c]
  {
    var bytes := EncodePoint(c);
    var p := Pending(1, 0x80, 0xBF, c / 64);
    OneByteOn(IDLE, bytes, p);
    assert bytes[1..] == [bytes[1]];
    LastByte(p, bytes[1], c);
  }

  lemma ThreeBytes(c: int)
    requires 0x800 <= c < 0x10000 && IsScalar(c)
    ensures After(IDLE, EncodePoint(c)) == IDLE && Emitted(IDLE, EncodePoint(c)) == [c]
  {
    var bytes := EncodePoint(c);
    assert c / 64 == 64 * (c / 4096) + c / 64 % 64;
    var p, q := Lead(bytes[0]).0, Pending(1, 0x80, 0xBF, c / 64);
    OneByteOn(IDLE, bytes, p);
    OneByteOn(p, bytes[1..], q);
    assert bytes[1..][1..] == [bytes[2]];
    LastByte(q, bytes[2], c);
  }

  lemma FourBytes(c: int)
    requires 0x10000 <= c <= 0x10FFFF
    ensures After(IDLE, EncodePoint(c)) == IDLE && Emitted(IDLE, EncodePoint(c)) == [c]
  {
    var bytes := EncodePoint(c);
    assert c / 4096 == 64 * (c / 262144) + c / 4096 % 64;
    assert c / 64 == 64 * (c / 4096) + c / 64 % 64;
    var p, q, r := Lead(bytes[0]).0, Pending(2, 0x80, 0xBF, c / 4096), Pending(1, 0x80, 0xBF, c / 64);
    OneByteOn(IDLE, bytes, p);
    OneByteOn(p, bytes[1..], q);
    OneByteOn(q, bytes[1..][1..], r);
    assert bytes[1..][1..][1..] == [bytes[3]];
    LastByte(r, bytes[3], c);
  }

  lemma PointRoundTrip(c: int)
    requires IsScalar(c)
    ensures After(IDLE, EncodePoint(c)) == IDLE && Emitted(IDLE, EncodePoint(c)) == [c]
  {
    if c < 0x80 {
      LastByte(IDLE, c as byte, c);
    } else if c < 0x800 {
      TwoBytes(c);
    } else if c < 0x10000 {
      ThreeBytes(c);
    } else {
      FourBytes(c);
    }
  }

  /** Decoding is the inverse of encoding. */
  lemma {:induction false} DecodeEncode(text: seq<int>)
    requires forall i :: 0 <= i < |text| ==> IsScalar(text[i])
    ensures Decode(Encode(text)) == text && After(IDLE, Encode(text)) == IDLE
  {
    if text != [] {
      PointRoundTrip(text[0]);
      DecodeEncode(text[1..]);
      FinishSplit(IDLE, EncodePoint(text[0]), Encode(text[1..]));
      AfterSplit(IDLE, EncodePoint(text[0]), Encode(text[1..]));
    }
  }

  lemma {:induction false} AfterSplit(p: Pending, a: seq<byte>, b: seq<byte>)
    ensures After(p, a + b) == After(After(p, a), b)
    decreases |a|
  {
    if a == [] {
      assert a + b == b;
    } else {
      assert (a + b)[1..] == a[1..] + b;
      AfterSplit(Step(p, a[0]).0, a[1..], b);
    }
  }

  // ---------- and nothing else is ----------

  /** No bytes vanish: what is not a character is replaced. */
  lemma {:induction false} NothingVanishes(p: Pending, bytes: seq<byte>)
    requires bytes != [] || p.needed > 0
    ensures Finish(p, bytes) != []
    decreases |bytes|
  {
    if bytes != [] {
      var (q, text) := Step(p, bytes[0]);
      if text == [] { NothingVanishes(q, bytes[1..]); }
    }
  }

  /** Without a replacement, a pending sequence goes on. */
  lemma MustContinue(p: Pending, bytes: seq<byte>)
    requires p.needed > 0 && REPLACEMENT !in Finish(p, bytes)
    ensures bytes != [] && p.Continues(bytes[0])
  {
    if bytes == [] || !p.Continues(bytes[0]) { GivenUp(p, bytes); }
  }

  lemma TwoByteForm(b0: byte, b1: byte)
    requires 0xC2 <= b0 as int <= 0xDF && 0x80 <= b1 as int <= 0xBF
    ensures var c := 64 * (b0 as int - 0xC0) + (b1 as int - 0x80);
            0x80 <= c < 0x800 && EncodePoint(c) == [b0, b1]
  {
  }

  lemma ThreeByteForm(b0: byte, b1: byte, b2: byte)
    requires 0xE0 <= b0 as int <= 0xEF && Lead(b0).0.Continues(b1) && 0x80 <= b2 as int <= 0xBF
    ensures var c := 64 * (64 * (b0 as int - 0xE0) + (b1 as int - 0x80)) + (b2 as int - 0x80);
            0x800 <= c < 0x10000 && IsScalar(c) && EncodePoint(c) == [b0, b1, b2]
  {
    var x, y, z := b0 as int - 0xE0, b1 as int - 0x80, b2 as int - 0x80;
    var c := 64 * (64 * x + y) + z;
    assert c / 64 == 64 * x + y && c / 4096 == x;
  }

  lemma FourByteForm(b0: byte, b1: byte, b2: byte, b3: byte)
    requires 0xF0 <= b0 as int <= 0xF4 && Lead(b0).0.Continues(b1)
    requires 0x80 <= b2 as int <= 0xBF && 0x80 <= b3 as int <= 0xBF
    ensures var c := 64 * (64 * (64 * (b0 as int - 0xF0) + (b1 as int - 0x80)) + (b2 as int - 0x80)) + (b3 as int - 0x80);
            0x10000 <= c <= 0x10FFFF && EncodePoint(c) == [b0, b1, b2, b3]
  {
    var w, x, y, z := b0 as int - 0xF0, b1 as int - 0x80, b2 as int - 0x80, b3 as int - 0x80;
    var c := 64 * (64 * (64 * w + x) + y) + z;
    assert c / 64 == 64 * (64 * w + x) + y && c / 4096 == 64 * w + x && c / 262144 == w;
  }

  /** The last byte of a character. */
  lemma LastOfCharacter(p: Pending, bytes: seq<byte>) returns (c: int)
    requires p.needed == 1 && REPLACEMENT !in Finish(p, bytes)
    ensures bytes != [] && p.Continues(bytes[0]) && c == 64 * p.bits + (bytes[0] as int - 0x80)
    ensures Finish(p, bytes) == [c] + Decode(bytes[1..])
  {
    MustContinue(p, bytes);
    c := 64 * p.bits + (bytes[0] as int - 0x80);
  }

  /** One byte of a character that needs more. */
  lemma MoreOfCharacter(p: Pending, bytes: seq<byte>) returns (q: Pending)
    requires p.needed > 1 && REPLACEMENT !in Finish(p, bytes)
    ensures bytes != [] && p.Continues(bytes[0])
    ensures q == Pending(p.needed - 1, 0x80, 0xBF, 64 * p.bits + (bytes[0] as int - 0x80))
    ensures Finish(p, bytes) == Finish(q, bytes[1..])
  {
    MustContinue(p, bytes);
    q := Step(p, bytes[0]).0;
    assert [] + Finish(q, bytes[1..]) == Finish(q, bytes[1..]);
  }

  lemma LeadOfCharacter(bytes: seq<byte>)
    requires bytes != [] && REPLACEMENT !in Decode(bytes) && bytes[0] as int >= 0x80
    ensures Lead(bytes[0]).0.needed > 0 && Decode(bytes) == Finish(Lead(bytes[0]).0, bytes[1..])
  {
    var (p, text) := Lead(bytes[0]);
    assert Decode(bytes) == text + Finish(p, bytes[1..]);
    assert [] + Finish(p, bytes[1..]) == Finish(p, bytes[1..]);
  }

  /** Text without a replacement starts with the character its first bytes are the form of. */
  lemma FirstCharacter(bytes: seq<byte>) returns (c: int, n: nat)
    requires bytes != [] && REPLACEMENT !in Decode(bytes)
    ensures 1 <= n <= |bytes| && IsScalar(c) && bytes[..n] == EncodePoint(c)
    ensures Decode(bytes) == [c] + Decode(bytes[n..])
  {
    var v := bytes[0] as int;
    if v < 0x80 {
      c, n := v, 1;
    } else {
      LeadOfCharacter(bytes);
      var p := Lead(bytes[0]).0;
      if p.needed == 1 {
        c := LastOfCharacter(p, bytes[1..]);
        n := 2;
        TwoByteForm(bytes[0], bytes[1]);
        assert bytes[1..][1..] == bytes[2..];
      } else if p.needed == 2 {
        c := ThreeByteCharacter(bytes);
        n := 3;
      } else {
        c := FourByteCharacter(bytes);
        n := 4;
      }
    }
  }

  lemma ThreeByteCharacter(bytes: seq<byte>) returns (c: int)
    requires bytes != [] && REPLACEMENT !in Finish(Lead(bytes[0]).0, bytes[1..]) && Lead(bytes[0]).0.needed == 2
    ensures |bytes| >= 3 && IsScalar(c) && bytes[..3] == EncodePoint(c)
    ensures Finish(Lead(bytes[0]).0, bytes[1..]) == [c] + Decode(bytes[3..])
  {
    var q := MoreOfCharacter(Lead(bytes[0]).0, bytes[1..]);
    c := LastOfCharacter(q, bytes[1..][1..]);
    assert bytes[1..][1..] == bytes[2..] && bytes[2..][1..] == bytes[3..];
    ThreeByteForm(bytes[0], bytes[1], bytes[2]);
  }

  lemma FourByteCharacter(bytes: seq<byte>) returns (c: int)
    requires bytes != [] && REPLACEMENT !in Finish(Lead(bytes[0]).0, bytes[1..]) && Lead(bytes[0]).0.needed == 3
    ensures |bytes| >= 4 && IsScalar(c) && bytes[..4] == EncodePoint(c)
    ensures Finish(Lead(bytes[0]).0, bytes[1..]) == [c] + Decode(bytes[4..])
  {
    var q := MoreOfCharacter(Lead(bytes[0]).0, bytes[1..]);
    var r := MoreOfCharacter(q, bytes[1..][1..]);
    assert bytes[1..][1..] == bytes[2..] && bytes[2..][1..] == bytes[3..] && bytes[3..][1..] == bytes[4..];
    c := LastOfCharacter(r, bytes[3..]);
    FourByteForm(bytes[0], bytes[1], bytes[2], bytes[3]);
  }

  /**
    The converse: bytes that decode without a replacement are the encoding of what they decode to. So overlong
    forms, surrogates and numbers past U+10FFFF never pass for characters.
   */
  lemma {:induction false} EncodeDecode(bytes: seq<byte>)
    requires REPLACEMENT !in Decode(bytes)
    ensures forall i :: 0 <= i < |Decode(bytes)| ==> IsScalar(Decode(bytes)[i])
    ensures Encode(Decode(bytes)) == bytes
    decreases |bytes|
  {
    if bytes != [] {
      var c, n := FirstCharacter(bytes);
      var rest := bytes[n..];
      assert forall x :: x in Decode(rest) ==> x in Decode(bytes);
      EncodeDecode(rest);
      assert Decode(bytes)[1..] == Decode(rest) && bytes == bytes[..n] + rest;
    }
  }

  /** A character cut in two: the two bytes of U+00E9, apart, become two replacement characters. */
  lemma SplitCharacter()
    ensures SplitsCharacter([0xC3], [0xA9])
    ensures Decode([0xC3, 0xA9]) == [0xE9]
    ensures Decode([0xC3]) + Decode([0xA9]) == [REPLACEMENT, REPLACEMENT]
  {
    PointRoundTrip(0xE9);
    FinishSplit(IDLE, [0xC3, 0xA9], []);
    assert EncodePoint(0xE9) == [0xC3, 0xA9] && [0xC3, 0xA9] + [] == [0xC3 as byte, 0xA9 as byte];
    assert [0xC3 as byte][1..] == [] && [0xA9 as byte][1..] == [];
  }
}
