/** `generateUsername` and `generateSlug` (src/utils/index.ts). The random
    part, `Math.random().toString(36).slice(2)`, is passed in as `suffix`. */
module Generate {
  import opened Types
  import opened Text

  /** What `Math.random().toString(36).slice(2)` can produce: base-36 digits. */
  predicate Base36(s: string) {
    forall c :: c in s ==> IsLowerAlnum(c)
  }

  /** `generateUsername`: "user-" followed by the random suffix. */
  function GenerateUsername(suffix: string): (r: string)
    ensures StartsWith(r, "user-") && r[5..] == suffix
    ensures Base36(suffix) ==> SlugSafe(r)
  {
    "user-" + suffix
  }

  /** The title part of `generateSlug` as written: lower-cased, trimmed, the
      first regex applied, whitespace runs turned into "-", hyphen runs collapsed. */
  function SlugBase(title: string): (r: string)
    ensures NoSpace(r) && NoDoubleHyphen(r) && NoUpper(r)
  {
    var lowered := Trim(ToLower(title));
    assert NoUpper(lowered);
    CollapseHyphens(SpacesToHyphen(StripAsWritten(lowered)))
  }

  /** `generateSlug` as written: the title part, a hyphen, the random part. */
  function GenerateSlug(title: string, suffix: string): (r: string)
    ensures exists base :: r == base + "-" + suffix && NoSpace(base) && NoDoubleHyphen(base) && NoUpper(base)
  {
    SlugBase(title) + "-" + suffix
  }

  /** Every letter and digit of the lower-cased title reaches the title part,
      in order, and no other letter or digit does. */
  lemma SlugBaseKeepsAlnum(title: string)
    ensures Alnum(SlugBase(title)) == Alnum(ToLower(title))
  {
    var lowered := Trim(ToLower(title));
    TrimKeepsAlnum(ToLower(title));
    StripAsWrittenKeepsAlnum(lowered);
    SpacesToHyphenKeepsAlnum(StripAsWritten(lowered));
    CollapseHyphensKeepsAlnum(SpacesToHyphen(StripAsWritten(lowered)));
  }

  /** The letters and digits of a slug are those of the lower-cased title
      followed by those of the random part. */
  lemma GenerateSlugKeepsAlnum(title: string, suffix: string)
    ensures Alnum(GenerateSlug(title, suffix)) == Alnum(ToLower(title)) + Alnum(suffix)
  {
    SlugBaseKeepsAlnum(title);
    AlnumHyphenJoin(SlugBase(title), suffix);
  }

  /** A word of a title: letters and digits only. */
  predicate IsWord(w: string) {
    w != [] && forall c :: c in w ==> IsLowerAlnum(c)
  }

  /** The words joined with `sep` between each two. */
  function JoinWith(words: seq<string>, sep: string): (r: string)
    requires |words| >= 1 && forall w :: w in words ==> IsWord(w)
    ensures r != [] && IsLowerAlnum(r[0]) && IsLowerAlnum(r[|r| - 1])
    ensures forall c :: c in r ==> IsLowerAlnum(c) || c in sep
  {
    var w := words[0];
    assert w in words;
    assert IsWord(w);
    assert w[0] in w && w[|w| - 1] in w;
    if |words| == 1 then w
    else
      assert forall v :: v in words[1..] ==> v in words;
      var rest := JoinWith(words[1..], sep);
      var r := w + sep + rest;
      assert r[0] == w[0] && r[|r| - 1] == rest[|rest| - 1];
      r
  }

  /** The whitespace step on words separated by single spaces puts a hyphen
      in place of each space. */
  lemma {:induction false} HyphenateWords(words: seq<string>)
    requires |words| >= 1 && forall w :: w in words ==> IsWord(w)
    ensures SpacesToHyphen(JoinWith(words, " ")) == JoinWith(words, "-")
  {
    var w := words[0];
    assert w in words;
    assert NoSpace(w);
    if |words| == 1 {
      SpacesToHyphenNoSpace(w);
    } else {
      assert forall v :: v in words[1..] ==> v in words;
      var rest := JoinWith(words[1..], " ");
      SpacesToHyphenRun(w, " ", rest);
      HyphenateWords(words[1..]);
    }
  }

  /** Words joined by single hyphens have no hyphen run to collapse. */
  lemma {:induction false} CollapseJoinedWords(words: seq<string>)
    requires |words| >= 1 && forall w :: w in words ==> IsWord(w)
    ensures CollapseHyphens(JoinWith(words, "-")) == JoinWith(words, "-")
  {
    var w := words[0];
    assert w in words;
    assert '-' !in w;
    if |words| == 1 {
      assert NoDoubleHyphen(w) by {
        forall i | 0 <= i < |w|
          ensures !DoubleAt(w, i)
        {
          assert w[i] in w;
        }
      }
      CollapseHyphensNoDouble(w);
    } else {
      assert forall v :: v in words[1..] ==> v in words;
      var rest := JoinWith(words[1..], "-");
      CollapseHyphensRun(w, "-", rest);
      CollapseJoinedWords(words[1..]);
    }
  }

  /** A lower-case title of words separated by single spaces, with nothing
      around them, becomes the words joined by hyphens: the slug as the
      design describes it. */
  lemma SlugOfWords(words: seq<string>)
    requires |words| >= 1 && forall w :: w in words ==> IsWord(w)
    ensures SlugBase(JoinWith(words, " ")) == JoinWith(words, "-")
    ensures SlugBaseIntended(JoinWith(words, " ")) == JoinWith(words, "-")
  {
    var title := JoinWith(words, " ");
    WordsTitleUnchanged(words);
    HyphenateWords(words);
    CollapseJoinedWords(words);
  }

  /** Letters and digits separated by spaces, with a letter or digit at
      each end. */
  predicate PlainTitle(title: string) {
    && title != [] && IsLowerAlnum(title[0]) && IsLowerAlnum(title[|title| - 1])
    && forall c :: c in title ==> IsLowerAlnum(c) || c == ' '
  }

  /** Lower-casing, trimming and either first regex leave such a title as it is. */
  lemma WordsTitleUnchanged(words: seq<string>)
    requires |words| >= 1 && forall w :: w in words ==> IsWord(w)
    ensures var title := JoinWith(words, " ");
            Trim(ToLower(title)) == title && StripAsWritten(title) == title
            && StripIntended(title) == title
  {
    var title := JoinWith(words, " ");
    assert PlainTitle(title);
    PlainTitleLowerTrim(title);
    PlainTitleNoMatch(title);
    StripIntendedAllKept(title);
  }

  lemma PlainTitleLowerTrim(title: string)
    requires PlainTitle(title)
    ensures Trim(ToLower(title)) == title
  {
    ToLowerNoUpper(title);
    TrimUnpadded(title);
  }

  lemma PlainTitleNoMatch(title: string)
    requires PlainTitle(title)
    ensures StripAsWritten(title) == title
  {
    forall j | 0 <= j < |title|
      ensures title[j] != '-'
    {
      assert title[j] in title;
    }
    StripAsWrittenNoMatch(title);
  }

  /** `generateSlug` of such a title: the words joined by hyphens, a hyphen
      and the random part. */
  lemma GenerateSlugOfWords(words: seq<string>, suffix: string)
    requires |words| >= 1 && forall w :: w in words ==> IsWord(w)
    ensures GenerateSlug(JoinWith(words, " "), suffix) == JoinWith(words, "-") + "-" + suffix
    ensures GenerateSlugIntended(JoinWith(words, " "), suffix) == JoinWith(words, "-") + "-" + suffix
  {
    SlugOfWords(words);
  }

  /** The first regex of `generateSlug`, `/[^a-z0-9]\s-/g`, only removes a
      non-alphanumeric character when a space and a hyphen follow it, so
      punctuation reaches the slug: "A&B" gives "a&b-" and the suffix. */
  lemma SlugAsWrittenKeepsPunctuation()
    ensures GenerateSlug("A&B", "x") == "a&b-x"
    ensures !SlugSafe(GenerateSlug("A&B", "x"))
  {
    SlugBaseSample();
    SampleJoin();
  }

  lemma SampleJoin()
    ensures "a&b" + "-" + "x" == "a&b-x"
    ensures !SlugSafe("a&b-x")
  {
    assert "a&b-x"[1] == '&' && "a&b-x"[1] in "a&b-x";
  }

  lemma SlugBaseSample()
    ensures SlugBase("A&B") == "a&b"
  {
    LowerTrimSample();
    RegexStepsSample();
  }

  lemma LowerTrimSample()
    ensures Trim(ToLower("A&B")) == "a&b"
  {
    assert ToLower("A&B") == "a&b";
    assert !IsSpace('a') && !IsSpace('b');
    assert LeadingSpace("a&b") == 0;
    assert TrailingSpace("a&b") == 0;
  }

  lemma RegexStepsSample()
    ensures CollapseHyphens(SpacesToHyphen(StripAsWritten("a&b"))) == "a&b"
  {
    assert forall i :: !MatchAt("a&b", i);
    StripAsWrittenNoMatch("a&b");
    assert !IsSpace('a') && !IsSpace('&') && !IsSpace('b');
    SpacesToHyphenNoSpace("a&b");
    assert NoDoubleHyphen("a&b");
    CollapseHyphensNoDouble("a&b");
  }

  /** The title part of `generateSlug` with the character class evidently
      intended, `/[^a-z0-9\s-]/g`. */
  function SlugBaseIntended(title: string): (r: string)
    ensures NoDoubleHyphen(r) && SlugSafe(r)
  {
    var kept := StripIntended(Trim(ToLower(title)));
    var hyphenated := SpacesToHyphen(kept);
    assert SlugSafe(hyphenated);
    CollapseHyphens(hyphenated)
  }

  /** `generateSlug` with the intended character class. */
  function GenerateSlugIntended(title: string, suffix: string): (r: string)
    ensures exists base :: r == base + "-" + suffix && NoDoubleHyphen(base) && SlugSafe(base)
  {
    SlugBaseIntended(title) + "-" + suffix
  }

  /** With the intended class, too, every letter and digit of the
      lower-cased title reaches the title part, in order. */
  lemma SlugBaseIntendedKeepsAlnum(title: string)
    ensures Alnum(SlugBaseIntended(title)) == Alnum(ToLower(title))
  {
    var kept := StripIntended(Trim(ToLower(title)));
    TrimKeepsAlnum(ToLower(title));
    StripIntendedKeepsAlnum(Trim(ToLower(title)));
    SpacesToHyphenKeepsAlnum(kept);
    CollapseHyphensKeepsAlnum(SpacesToHyphen(kept));
  }

  /** With the intended character class every slug is URL-safe: lower-case
      letters, digits and hyphens only. */
  lemma IntendedSlugIsSafe(title: string, suffix: string)
    requires Base36(suffix)
    ensures SlugSafe(GenerateSlugIntended(title, suffix))
  {
    var base := SlugBaseIntended(title);
    assert GenerateSlugIntended(title, suffix) == base + "-" + suffix;
  }
}
