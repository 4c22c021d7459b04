/**
  Slugs of collections (src/modules/collections/collections.service.ts, `slugify`): a chain of
  replacement passes and the normal form it reaches.
 */
module Slugs {
  import opened Framing

  /** The two passes that need Unicode tables: NFKD and lower-casing. Any functions will do. */
  datatype Unicode = Unicode(nfkd: string -> string, lower: string -> string)

  predicate IsAlphanumeric(c: char) { 'a' <= c <= 'z' || '0' <= c <= '9' }

  predicate IsSlugChar(c: char) { IsAlphanumeric(c) || c == '-' }

  /** Remove combining diacritical marks. */
  function StripMarks(s: string): string {
    if s == [] then [] else (if '\U{0300}' <= s[0] <= '\U{036F}' then [] else [s[0]]) + StripMarks(s[1..])
  }

  /** It looks at every character by itself: a mark goes, anything else stays where it is. */
  lemma {:induction false} StripMarksMeaning(a: string, b: string)
    ensures StripMarks(a + b) == StripMarks(a) + StripMarks(b)
    ensures |a| == 1 ==> StripMarks(a) == if '\U{0300}' <= a[0] <= '\U{036F}' then "" else a
  {
    if a == [] {
      assert a + b == b;
    } else {
      assert (a + b)[1..] == a[1..] + b;
      StripMarksMeaning(a[1..], b);
    }
  }

  /** Remove everything but slug characters and white space. */
  function DropOthers(s: string): string {
    if s == [] then [] else (if IsSlugChar(s[0]) || IsSpace(s[0]) then [s[0]] else []) + DropOthers(s[1..])
  }

  /** Every run of white space becomes one dash. */
  function DashSpaces(s: string): string {
    if s == [] then []
    else if !IsSpace(s[0]) then [s[0]] + DashSpaces(s[1..])
    else if |s| > 1 && IsSpace(s[1]) then DashSpaces(s[1..])
    else ['-'] + DashSpaces(s[1..])
  }

  /** Every run of dashes becomes one dash. */
  function SqueezeDashes(s: string): string {
    if s == [] then []
    else if s[0] == '-' && |s| > 1 && s[1] == '-' then SqueezeDashes(s[1..])
    else [s[0]] + SqueezeDashes(s[1..])
  }

  /** The title after the passes that only remove or fold characters: what the dashes are made from. */
  function SlugText(u: Unicode, value: string): string {
    DropOthers(Trim(u.lower(StripMarks(u.nfkd(value)))))
  }

  function Slugify(u: Unicode, value: string): string {
    SqueezeDashes(DashSpaces(SlugText(u, value)))
  }

  ghost predicate OnlySlugChars(s: string) {
    forall i :: 0 <= i < |s| ==> IsSlugChar(s[i])
  }

  /** The normal form: slug characters only, no two dashes in a row. */
  ghost predicate IsSlug(s: string) {
    OnlySlugChars(s) && forall i :: 0 <= i < |s| ==> !DashPairAt(s, i)
  }

  predicate DashPairAt(s: string, i: nat)
    requires i < |s|
  {
    s[i] == '-' && i + 1 < |s| && s[i + 1] == '-'
  }

  lemma {:induction false} DropOthersMeaning(s: string)
    ensures forall i :: 0 <= i < |DropOthers(s)| ==> IsSlugChar(DropOthers(s)[i]) || IsSpace(DropOthers(s)[i])
  {
    if s != [] { DropOthersMeaning(s[1..]); }
  }

  lemma {:induction false} DashSpacesMeaning(s: string)
    requires forall i :: 0 <= i < |s| ==> IsSlugChar(s[i]) || IsSpace(s[i])
    ensures OnlySlugChars(DashSpaces(s))
  {
    if s != [] { DashSpacesMeaning(s[1..]); }
  }

  lemma {:induction false} SqueezeDashesMeaning(s: string)
    requires OnlySlugChars(s)
    ensures IsSlug(SqueezeDashes(s))
    ensures s != [] ==> SqueezeDashes(s) != [] && SqueezeDashes(s)[0] == s[0]
  {
    if s != [] {
      SqueezeDashesMeaning(s[1..]);
      var tail, r := SqueezeDashes(s[1..]), SqueezeDashes(s);
      if r == [s[0]] + tail {
        forall i | 0 <= i < |r| ensures !DashPairAt(r, i) {
          assert i > 0 ==> !DashPairAt(tail, i - 1);
        }
      }
    }
  }

  /** Whatever the title and the Unicode tables, the result is in normal form: a-z, 0-9 and single dashes. */
  lemma SlugifyGivesSlug(u: Unicode, value: string)
    ensures IsSlug(Slugify(u, value))
    ensures forall c :: c in Slugify(u, value) ==> 'a' <= c <= 'z' || '0' <= c <= '9' || c == '-'
  {
    DropOthersMeaning(Trim(u.lower(StripMarks(u.nfkd(value)))));
    DashSpacesMeaning(SlugText(u, value));
    SqueezeDashesMeaning(DashSpaces(SlugText(u, value)));
  }

  /** Normalisation and lower-casing leave lower-case ASCII as it is. */
  ghost predicate PlainOnAscii(u: Unicode) {
    forall s: string :: OnlySlugChars(s) ==> u.nfkd(s) == s && u.lower(s) == s
  }

  lemma {:induction false} PassesKeepSlugChars(s: string)
    requires OnlySlugChars(s)
    ensures StripMarks(s) == s && DropOthers(s) == s && DashSpaces(s) == s && Trim(s) == s
  {
    if s != [] {
      PassesKeepSlugChars(s[1..]);
      assert s == [s[0]] + s[1..];
      SlugCharsAreNoSpace(s);
    }
  }

  lemma SlugCharsAreNoSpace(s: string)
    requires OnlySlugChars(s)
    ensures Trim(s) == s && forall i :: 0 <= i < |s| ==> !IsSpace(s[i])
  {
    assert TrimStart(s) == s;
  }

  lemma {:induction false} SqueezeKeepsSlug(s: string)
    requires IsSlug(s)
    ensures SqueezeDashes(s) == s
  {
    if s != [] {
      var tail := s[1..];
      assert !DashPairAt(s, 0);
      forall i | 0 <= i < |tail| ensures !DashPairAt(tail, i) {
        assert !DashPairAt(s, i + 1);
      }
      SqueezeKeepsSlug(tail);
      assert s == [s[0]] + tail;
    }
  }

  /** The normal forms are exactly the fixed points, hence slugify is idempotent. */
  lemma SlugsAreFixedPoints(u: Unicode, value: string)
    requires PlainOnAscii(u)
    ensures Slugify(u, value) == value <==> IsSlug(value)
    ensures Slugify(u, Slugify(u, value)) == Slugify(u, value)
  {
    SlugifyGivesSlug(u, value);
    SlugIsFixed(u, Slugify(u, value));
    if IsSlug(value) {
      SlugIsFixed(u, value);
    }
  }

  lemma SlugIsFixed(u: Unicode, s: string)
    requires PlainOnAscii(u) && IsSlug(s)
    ensures Slugify(u, s) == s
  {
    PassesKeepSlugChars(s);
    SqueezeKeepsSlug(s);
  }

  // ---------- the ends of a slug ----------

  function Dashed(c: char): char { if IsSpace(c) then '-' else c }

  lemma {:induction false} DashSpacesStart(s: string)
    requires s != []
    ensures DashSpaces(s) != [] && DashSpaces(s)[0] == Dashed(s[0])
  {
    if |s| > 1 { DashSpacesStart(s[1..]); }
  }

  lemma {:induction false} DashSpacesEnd(s: string)
    requires s != []
    ensures var r := DashSpaces(s); r != [] && r[|r| - 1] == Dashed(s[|s| - 1])
  {
    if |s| > 1 { DashSpacesEnd(s[1..]); }
  }

  lemma {:induction false} SqueezeDashesEnds(s: string)
    requires s != []
    ensures var r := SqueezeDashes(s);
            r != [] && r[0] == s[0] && r[|r| - 1] == s[|s| - 1]
  {
    if |s| > 1 { SqueezeDashesEnds(s[1..]); }
  }

  predicate DashOrSpace(c: char) { c == '-' || IsSpace(c) }

  lemma DashedEnds(text: string)
    ensures var slug := SqueezeDashes(DashSpaces(text));
            && (slug == "" <==> text == "")
            && (slug != "" ==> slug[0] == Dashed(text[0]) && slug[|slug| - 1] == Dashed(text[|text| - 1]))
  {
    if text != [] {
      DashSpacesStart(text);
      DashSpacesEnd(text);
      SqueezeDashesEnds(DashSpaces(text));
    }
  }

  /**
    What the normal form does not promise: a slug is empty exactly if nothing is left of the title, and it
    starts (ends) with a dash exactly if what is left starts (ends) with a dash or white space. The title is
    trimmed before other characters are dropped, so white space can come to stand at the end again.
   */
  lemma SlugEnds(u: Unicode, value: string)
    ensures var text, slug := SlugText(u, value), Slugify(u, value);
            && (slug == "" <==> text == "")
            && (slug != "" ==>
                && (slug[0] == '-' <==> DashOrSpace(text[0]))
                && (slug[|slug| - 1] == '-' <==> DashOrSpace(text[|text| - 1])))
  {
    DashedEnds(SlugText(u, value));
  }

  /** Nothing is left exactly if the folded title has neither slug characters nor inner white space. */
  lemma {:induction false} DropOthersEmptyIff(s: string)
    ensures DropOthers(s) == "" <==> forall i :: 0 <= i < |s| ==> !IsSlugChar(s[i]) && !IsSpace(s[i])
  {
    if s != [] { DropOthersEmptyIff(s[1..]); }
  }

  /** Such slugs exist: "-" is its own slug, as every normal form is. */
  lemma DashIsASlug(u: Unicode)
    requires PlainOnAscii(u)
    ensures Slugify(u, "-") == "-"
  {
    assert !DashPairAt("-", 0);
    SlugIsFixed(u, "-");
  }

  /** And "!" has an empty one, when the tables leave it alone. */
  lemma EmptySlug(u: Unicode)
    requires u.nfkd("!") == "!" && u.lower("!") == "!"
    ensures Slugify(u, "!") == ""
  {
    assert "!"[1..] == "" && StripMarks("!") == "!" && TrimStart("!") == "!";
    DropOthersEmptyIff("!");
    SlugEnds(u, "!");
  }

  // ---------- words ----------

  /** A word: letters and digits only. */
  ghost predicate IsWord(s: string) {
    s != [] && forall i :: 0 <= i < |s| ==> IsAlphanumeric(s[i])
  }

  /** What does to a word's letters nothing, does its work on the rest. */
  lemma {:induction false} DropAfterWord(a: string, b: string)
    requires IsWord(a)
    ensures DropOthers(a + b) == a + DropOthers(b)
  {
    var rest := a[1..];
    assert (a + b)[1..] == rest + b && a == [a[0]] + rest;
    if rest == [] { assert rest + b == b; } else { DropAfterWord(rest, b); }
    assert [a[0]] + (rest + DropOthers(b)) == a + DropOthers(b);
  }

  lemma {:induction false} DashAfterWord(a: string, b: string)
    requires IsWord(a)
    ensures DashSpaces(a + b) == a + DashSpaces(b)
  {
    var rest := a[1..];
    assert (a + b)[1..] == rest + b && a == [a[0]] + rest && IsAlphanumeric(a[0]);
    if rest == [] { assert rest + b == b; } else { DashAfterWord(rest, b); }
    assert [a[0]] + (rest + DashSpaces(b)) == a + DashSpaces(b);
  }

  lemma {:induction false} SqueezeAfterWord(a: string, b: string)
    requires IsWord(a)
    ensures SqueezeDashes(a + b) == a + SqueezeDashes(b)
  {
    var rest := a[1..];
    assert (a + b)[1..] == rest + b && a == [a[0]] + rest && IsAlphanumeric(a[0]);
    if rest == [] { assert rest + b == b; } else { SqueezeAfterWord(rest, b); }
    assert [a[0]] + (rest + SqueezeDashes(b)) == a + SqueezeDashes(b);
  }

  lemma WordsAreTight(a: string, gap: string, b: string)
    requires IsWord(a) && IsWord(b)
    ensures Trim(a + gap + b) == a + gap + b
  {
    var s := a + gap + b;
    assert s[0] == a[0] && s[|s| - 1] == b[|b| - 1] && IsAlphanumeric(a[0]) && IsAlphanumeric(b[|b| - 1]);
    assert TrimStart(s) == s && TrimEnd(s) == s;
  }

  lemma WordSurvives(b: string)
    requires IsWord(b)
    ensures DropOthers(b) == b && DashSpaces(b) == b && SqueezeDashes(b) == b
  {
    assert b + [] == b;
    DropAfterWord(b, []);
    DashAfterWord(b, []);
    SqueezeAfterWord(b, []);
  }

  /** A gap before a word: a space stays, then becomes a dash, and a single dash stays. */
  lemma GapSurvives(b: string)
    requires IsWord(b)
    ensures DropOthers([' '] + b) == [' '] + b && DashSpaces([' '] + b) == ['-'] + b && SqueezeDashes(['-'] + b) == ['-'] + b
  {
    WordSurvives(b);
    assert ([' '] + b)[1..] == b && (['-'] + b)[1..] == b && IsAlphanumeric(b[0]);
  }

  lemma WordsDashed(a: string, b: string)
    requires IsWord(a) && IsWord(b)
    ensures SqueezeDashes(DashSpaces(DropOthers(a + ([' '] + b)))) == a + (['-'] + b)
  {
    GapSurvives(b);
    DropAfterWord(a, [' '] + b);
    DashAfterWord(a, [' '] + b);
    SqueezeAfterWord(a, ['-'] + b);
  }

  /** Two words with a space between, as they are after folding and lower-casing, become the words with a dash between. */
  lemma TwoWords(u: Unicode, value: string, a: string, b: string)
    requires IsWord(a) && IsWord(b) && u.lower(StripMarks(u.nfkd(value))) == a + [' '] + b
    ensures Slugify(u, value) == a + ['-'] + b
  {
    WordsAreTight(a, [' '], b);
    WordsDashed(a, b);
    assert a + [' '] + b == a + ([' '] + b) && a + ['-'] + b == a + (['-'] + b);
  }
}
