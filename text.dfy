/** The JavaScript string operations the core relies on: `\s` and `trim`,
    `toLowerCase` (ASCII letters), the global regex replacements of
    `generateSlug`, `String.prototype.replace` with a string pattern,
    `startsWith`, `split(" ")` and `parseInt`. */
module Text {
  import opened Types
  import Seqs

  /** JavaScript `\s` (WhiteSpace and LineTerminator), also the set `trim` removes. */
  predicate IsSpace(c: char) {
    c == ' ' || c == '\t' || c == '\n' || c == '\r' || c == '\U{000B}' || c == '\U{000C}'
    || c == '\U{00A0}' || c == '\U{1680}' || ('\U{2000}' <= c <= '\U{200A}')
    || c == '\U{2028}' || c == '\U{2029}' || c == '\U{202F}' || c == '\U{205F}'
    || c == '\U{3000}' || c == '\U{FEFF}'
  }

  predicate IsDigit(c: char) { '0' <= c <= '9' }

  predicate IsLowerAlnum(c: char) { ('a' <= c <= 'z') || IsDigit(c) }

  predicate IsUpperAscii(c: char) { 'A' <= c <= 'Z' }

  predicate NoSpace(s: string) { forall c :: c in s ==> !IsSpace(c) }

  predicate NoUpper(s: string) { forall c :: c in s ==> !IsUpperAscii(c) }

  /** Two hyphens next to each other at `i` and `i + 1`. */
  predicate DoubleAt(s: string, i: int) {
    0 <= i < |s| - 1 && s[i] == '-' && s[i + 1] == '-'
  }

  /** No two hyphens next to each other. */
  predicate NoDoubleHyphen(s: string) {
    forall i :: 0 <= i < |s| ==> !DoubleAt(s, i)
  }

  /** A character put in front keeps a string free of double hyphens unless
      it is a hyphen before a hyphen. */
  lemma NoDoubleHyphenCons(c: char, rest: string)
    requires NoDoubleHyphen(rest) && (c == '-' ==> rest == [] || rest[0] != '-')
    ensures NoDoubleHyphen([c] + rest)
  {
    forall i
      ensures !DoubleAt([c] + rest, i)
    {
      if 0 < i {
        assert !DoubleAt(rest, i - 1);
      }
    }
  }

  lemma NoDoubleHyphenTail(s: string)
    requires NoDoubleHyphen(s) && s != []
    ensures NoDoubleHyphen(s[1..])
    ensures s[0] == '-' ==> s[1..] == [] || s[1..][0] != '-'
  {
    forall i
      ensures !DoubleAt(s[1..], i)
    {
      assert !DoubleAt(s, i + 1);
    }
    assert !DoubleAt(s, 0);
  }

  /** Every character is a lower-case ASCII letter, a digit or a hyphen. */
  predicate SlugSafe(s: string) {
    forall c :: c in s ==> IsLowerAlnum(c) || c == '-'
  }

  function LowerChar(c: char): (d: char)
    ensures !IsUpperAscii(d)
    ensures !IsUpperAscii(c) ==> d == c
    ensures IsSpace(d) <==> IsSpace(c)
  {
    if IsUpperAscii(c) then (c as int + 32) as char else c
  }

  /** `toLowerCase`, on ASCII letters. */
  function ToLower(s: string): (r: string)
    ensures |r| == |s| && NoUpper(r)
    ensures forall i :: 0 <= i < |s| ==> r[i] == LowerChar(s[i])
  {
    seq(|s|, i requires 0 <= i < |s| => LowerChar(s[i]))
  }

  /** Lower-casing a string without upper-case letters changes nothing. */
  lemma ToLowerNoUpper(s: string)
    requires NoUpper(s)
    ensures ToLower(s) == s
  {
    forall i | 0 <= i < |s|
      ensures ToLower(s)[i] == s[i]
    {
      assert s[i] in s;
    }
  }

  /** The number of whitespace characters `s` starts with. */
  function LeadingSpace(s: string): (n: nat)
    ensures n <= |s|
    ensures forall i :: 0 <= i < n ==> IsSpace(s[i])
    ensures n < |s| ==> !IsSpace(s[n])
  {
    if s != [] && IsSpace(s[0]) then
      var m := LeadingSpace(s[1..]);
      assert forall i :: 1 <= i < m + 1 ==> s[i] == s[1..][i - 1];
      m + 1
    else 0
  }

  /** The number of whitespace characters `s` ends with. */
  function TrailingSpace(s: string): (n: nat)
    ensures n <= |s|
    ensures forall i :: |s| - n <= i < |s| ==> IsSpace(s[i])
    ensures n < |s| ==> !IsSpace(s[|s| - 1 - n])
  {
    if s != [] && IsSpace(s[|s| - 1]) then
      var m := TrailingSpace(s[..|s| - 1]);
      assert forall i :: 0 <= i < |s| - 1 ==> s[i] == s[..|s| - 1][i];
      m + 1
    else 0
  }

  function TrimStart(s: string): (r: string)
    ensures r == [] || !IsSpace(r[0])
  {
    s[LeadingSpace(s)..]
  }

  /** `trim()`: drops leading and trailing whitespace, nothing else. */
  function Trim(s: string): (r: string)
    ensures r == [] || (!IsSpace(r[0]) && !IsSpace(r[|r| - 1]))
    ensures exists a, b :: 0 <= a <= b <= |s| && r == s[a..b]
                           && (forall i :: 0 <= i < a ==> IsSpace(s[i]))
                           && (forall i :: b <= i < |s| ==> IsSpace(s[i]))
  {
    var a := LeadingSpace(s);
    var n := TrailingSpace(s[a..]);
    TrimEnds(s, a, n);
    s[a..|s| - n]
  }

  /** A string that neither starts nor ends with whitespace is its own trim. */
  lemma TrimUnpadded(s: string)
    requires s != [] && !IsSpace(s[0]) && !IsSpace(s[|s| - 1])
    ensures Trim(s) == s
  {
    assert LeadingSpace(s) == 0;
    assert s[0..] == s;
    assert TrailingSpace(s) == 0;
  }

  /** Trailing whitespace of a suffix `s[a..]` is trailing whitespace of `s`. */
  lemma TrimEnds(s: string, a: nat, n: nat)
    requires a <= |s| && n <= |s| - a
    requires forall i :: |s| - a - n <= i < |s| - a ==> IsSpace(s[a..][i])
    requires n < |s| - a ==> !IsSpace(s[a..][|s| - a - 1 - n])
    ensures forall i :: |s| - n <= i < |s| ==> IsSpace(s[i])
    ensures n < |s| - a ==> !IsSpace(s[|s| - 1 - n])
  {
    forall i | |s| - n <= i < |s|
      ensures IsSpace(s[i])
    {
      assert s[i] == s[a..][i - a];
    }
  }

  // ---------------------------------------------------------------------------
  // The regex steps of generateSlug

  /** The lower-case letters and digits of `s`, in order: what every step
      of `generateSlug` after `toLowerCase` keeps. */
  function Alnum(s: string): string {
    if s == [] then []
    else (if IsLowerAlnum(s[0]) then [s[0]] else []) + Alnum(s[1..])
  }

  /** `Alnum` is the filter of the letters and digits. */
  lemma {:induction false} AlnumIsFilter(s: string)
    ensures Alnum(s) == Seqs.Filter(s, IsLowerAlnum)
  {
    if s != [] {
      AlnumIsFilter(s[1..]);
    }
  }

  lemma AlnumCons(c: char, rest: string)
    ensures Alnum([c] + rest) == (if IsLowerAlnum(c) then [c] else []) + Alnum(rest)
  {
    assert ([c] + rest)[1..] == rest;
  }

  lemma {:induction false} AlnumConcat(a: string, b: string)
    ensures Alnum(a + b) == Alnum(a) + Alnum(b)
  {
    if a == [] {
      assert a + b == b;
    } else {
      assert (a + b)[1..] == a[1..] + b;
      AlnumConcat(a[1..], b);
      var h := if IsLowerAlnum(a[0]) then [a[0]] else [];
      assert h + Alnum(a[1..]) + Alnum(b) == h + (Alnum(a[1..]) + Alnum(b));
    }
  }

  /** The leading whitespace of `s` removed, as a regex scan past `\s+` does. */
  function DropWhileSpace(s: string): (r: string)
    ensures |r| <= |s| && (r == [] || !IsSpace(r[0]))
    ensures forall c :: c in r ==> c in s
  {
    if s != [] && IsSpace(s[0]) then DropWhileSpace(s[1..]) else s
  }

  function DropWhileHyphen(s: string): (r: string)
    ensures |r| <= |s| && (r == [] || r[0] != '-')
    ensures forall c :: c in r ==> c in s
  {
    if s != [] && s[0] == '-' then DropWhileHyphen(s[1..]) else s
  }

  /** A run of whitespace followed by a non-whitespace start is dropped whole. */
  lemma {:induction false} DropWhileSpaceRun(run: string, t: string)
    requires forall c :: c in run ==> IsSpace(c)
    requires t == [] || !IsSpace(t[0])
    ensures DropWhileSpace(run + t) == t
  {
    if run == [] {
      assert run + t == t;
    } else {
      assert (run + t)[0] == run[0] && run[0] in run;
      assert (run + t)[1..] == run[1..] + t;
      assert forall c :: c in run[1..] ==> c in run;
      DropWhileSpaceRun(run[1..], t);
    }
  }

  lemma {:induction false} DropWhileHyphenRun(run: string, t: string)
    requires forall c :: c in run ==> c == '-'
    requires t == [] || t[0] != '-'
    ensures DropWhileHyphen(run + t) == t
  {
    if run == [] {
      assert run + t == t;
    } else {
      assert (run + t)[0] == run[0] && run[0] in run;
      assert (run + t)[1..] == run[1..] + t;
      assert forall c :: c in run[1..] ==> c in run;
      DropWhileHyphenRun(run[1..], t);
    }
  }

  /** `.replace(/\s+/g, "-")`: every maximal run of whitespace becomes one
      hyphen; letters and digits are kept in order. */
  function SpacesToHyphen(s: string): (r: string)
    ensures NoSpace(r)
    ensures forall c :: c in r ==> c in s || c == '-'
    decreases |s|
  {
    if s == [] then []
    else if IsSpace(s[0]) then "-" + SpacesToHyphen(DropWhileSpace(s[1..]))
    else [s[0]] + SpacesToHyphen(s[1..])
  }

  /** Without whitespace there is nothing to replace. */
  lemma {:induction false} SpacesToHyphenNoSpace(s: string)
    requires NoSpace(s)
    ensures SpacesToHyphen(s) == s
  {
    if s != [] {
      assert forall c :: c in s[1..] ==> c in s;
      SpacesToHyphenNoSpace(s[1..]);
    }
  }

  /** The first whitespace run, whole, becomes one hyphen and the rest is
      read after it. */
  lemma {:induction false} SpacesToHyphenRun(w: string, run: string, t: string)
    requires NoSpace(w) && run != [] && forall c :: c in run ==> IsSpace(c)
    requires t == [] || !IsSpace(t[0])
    ensures SpacesToHyphen(w + run + t) == w + "-" + SpacesToHyphen(t)
  {
    var s := w + run + t;
    if w == [] {
      assert s == run + t && s[0] == run[0] && run[0] in run;
      assert s[1..] == run[1..] + t;
      assert forall c :: c in run[1..] ==> c in run;
      DropWhileSpaceRun(run[1..], t);
      assert SpacesToHyphen(s) == "-" + SpacesToHyphen(t);
    } else {
      assert s[0] == w[0] && w[0] in w;
      assert SpacesToHyphen(s) == [s[0]] + SpacesToHyphen(s[1..]);
      assert s[1..] == w[1..] + run + t;
      assert forall c :: c in w[1..] ==> c in w;
      SpacesToHyphenRun(w[1..], run, t);
    }
  }

  /** `.replace(/-+/g, "-")`: every maximal run of hyphens becomes one;
      letters and digits are kept in order. */
  function CollapseHyphens(s: string): (r: string)
    ensures NoDoubleHyphen(r)
    ensures forall c :: c in r ==> c in s
    ensures r != [] && r[0] == '-' ==> s != [] && s[0] == '-'
    decreases |s|
  {
    if s == [] then []
    else
      if s[0] == '-' then
        var rest := CollapseHyphens(DropWhileHyphen(s[1..]));
        assert forall c :: c in rest ==> c in s by {
          forall c | c in rest ensures c in s {
            assert c in s[1..];
          }
        }
        NoDoubleHyphenCons('-', rest);
        "-" + rest
      else
        var rest := CollapseHyphens(s[1..]);
        assert forall c :: c in rest ==> c in s by {
          forall c | c in rest ensures c in s {
            assert c in s[1..];
          }
        }
        NoDoubleHyphenCons(s[0], rest);
        [s[0]] + rest
  }

  /** Without a double hyphen there is nothing to collapse. */
  lemma {:induction false} CollapseHyphensNoDouble(s: string)
    requires NoDoubleHyphen(s)
    ensures CollapseHyphens(s) == s
  {
    if s != [] {
      NoDoubleHyphenTail(s);
      if s[0] == '-' {
        assert DropWhileHyphen(s[1..]) == s[1..];
      }
      CollapseHyphensNoDouble(s[1..]);
    }
  }

  /** The first hyphen run, whole, becomes one hyphen and the rest is read
      after it. */
  lemma {:induction false} CollapseHyphensRun(w: string, run: string, t: string)
    requires '-' !in w && run != [] && forall c :: c in run ==> c == '-'
    requires t == [] || t[0] != '-'
    ensures CollapseHyphens(w + run + t) == w + "-" + CollapseHyphens(t)
  {
    var s := w + run + t;
    if w == [] {
      assert s == run + t && s[0] == run[0] && run[0] in run;
      assert s[1..] == run[1..] + t;
      assert forall c :: c in run[1..] ==> c in run;
      DropWhileHyphenRun(run[1..], t);
      assert CollapseHyphens(s) == "-" + CollapseHyphens(t);
    } else {
      assert s[0] == w[0] && w[0] in w;
      assert CollapseHyphens(s) == [s[0]] + CollapseHyphens(s[1..]);
      assert s[1..] == w[1..] + run + t;
      CollapseHyphensRun(w[1..], run, t);
    }
  }

  /** Where `/[^a-z0-9]\s-/` matches: a character outside [a-z0-9], a
      whitespace character and a hyphen. */
  predicate MatchAt(s: string, i: int) {
    0 <= i && i + 3 <= |s| && !IsLowerAlnum(s[i]) && IsSpace(s[i + 1]) && s[i + 2] == '-'
  }

  /** `.replace(/[^a-z0-9]\s-/g, "")` exactly as written: removes each
      three-character match, scanning left to right. Only characters outside
      [a-z0-9] go. */
  function StripAsWritten(s: string): (r: string)
    ensures forall c :: c in r ==> c in s
  {
    if MatchAt(s, 0) then
      var rest := StripAsWritten(s[3..]);
      assert forall c :: c in rest ==> c in s by {
        forall c | c in rest ensures c in s { assert c in s[3..]; }
      }
      rest
    else if s == [] then []
    else
      var rest := StripAsWritten(s[1..]);
      assert forall c :: c in rest ==> c in s by {
        forall c | c in rest ensures c in s { assert c in s[1..]; }
      }
      [s[0]] + rest
  }

  /** Without a match the first replace changes nothing. */
  lemma {:induction false} StripAsWrittenNoMatch(s: string)
    requires forall i :: !MatchAt(s, i)
    ensures StripAsWritten(s) == s
  {
    if s != [] {
      assert forall i :: MatchAt(s[1..], i) ==> MatchAt(s, i + 1);
      StripAsWrittenNoMatch(s[1..]);
    }
  }

  /** The leftmost match goes, everything before it stays, and the scan
      goes on after it. */
  lemma {:induction false} StripAsWrittenFirstMatch(s: string, k: nat)
    requires MatchAt(s, k) && forall i :: 0 <= i < k ==> !MatchAt(s, i)
    ensures StripAsWritten(s) == s[..k] + StripAsWritten(s[k + 3..])
  {
    if k > 0 {
      var t := s[1..];
      assert !MatchAt(s, 0);
      assert StripAsWritten(s) == [s[0]] + StripAsWritten(t);
      assert t[k - 1] == s[k] && t[k] == s[k + 1] && t[k + 1] == s[k + 2];
      assert MatchAt(t, k - 1);
      forall i | 0 <= i < k - 1
        ensures !MatchAt(t, i)
      {
        assert !MatchAt(s, i + 1);
        assert t[i] == s[i + 1] && t[i + 1] == s[i + 2] && t[i + 2] == s[i + 3];
      }
      StripAsWrittenFirstMatch(t, k - 1);
      assert t[k + 2..] == s[k + 3..];
      assert [s[0]] + t[..k - 1] == s[..k];
    }
  }

  /** The characters the intended class `/[^a-z0-9\s-]/` does not remove. */
  predicate IntendedKeeps(c: char) {
    IsLowerAlnum(c) || IsSpace(c) || c == '-'
  }

  /** `.replace(/[^a-z0-9\s-]/g, "")`: keeps exactly the lower-case letters,
      digits, whitespace and hyphens, in order. */
  function StripIntended(s: string): (r: string)
    ensures forall c :: c in r <==> c in s && IntendedKeeps(c)
  {
    if s == [] then []
    else
      var rest := StripIntended(s[1..]);
      if IntendedKeeps(s[0]) then
        [s[0]] + rest
      else rest
  }

  /** The intended first replace is the filter of the kept characters. */
  lemma {:induction false} StripIntendedIsFilter(s: string)
    ensures StripIntended(s) == Seqs.Filter(s, IntendedKeeps)
  {
    if s != [] {
      StripIntendedIsFilter(s[1..]);
    }
  }

  /** Nothing the intended class removes, nothing removed. */
  lemma StripIntendedAllKept(s: string)
    requires forall c :: c in s ==> IntendedKeeps(c)
    ensures StripIntended(s) == s
  {
    StripIntendedIsFilter(s);
  }

  /** Joining two strings with a hyphen adds no letter or digit. */
  lemma AlnumHyphenJoin(a: string, b: string)
    ensures Alnum(a + "-" + b) == Alnum(a) + Alnum(b)
  {
    AlnumConcat(a + "-", b);
    AlnumConcat(a, "-");
    assert Alnum("-") == [];
  }

  // What each step keeps: every lower-case letter and digit, in order.

  lemma {:induction false} DropWhileSpaceKeepsAlnum(s: string)
    ensures Alnum(DropWhileSpace(s)) == Alnum(s)
  {
    if s != [] && IsSpace(s[0]) {
      DropWhileSpaceKeepsAlnum(s[1..]);
    }
  }

  lemma {:induction false} DropWhileHyphenKeepsAlnum(s: string)
    ensures Alnum(DropWhileHyphen(s)) == Alnum(s)
  {
    if s != [] && s[0] == '-' {
      DropWhileHyphenKeepsAlnum(s[1..]);
    }
  }

  lemma {:induction false} SpacesToHyphenKeepsAlnum(s: string)
    ensures Alnum(SpacesToHyphen(s)) == Alnum(s)
    decreases |s|
  {
    if s != [] {
      if IsSpace(s[0]) {
        var d := DropWhileSpace(s[1..]);
        DropWhileSpaceKeepsAlnum(s[1..]);
        SpacesToHyphenKeepsAlnum(d);
        AlnumCons('-', SpacesToHyphen(d));
      } else {
        SpacesToHyphenKeepsAlnum(s[1..]);
        AlnumCons(s[0], SpacesToHyphen(s[1..]));
      }
    }
  }

  lemma {:induction false} CollapseHyphensKeepsAlnum(s: string)
    ensures Alnum(CollapseHyphens(s)) == Alnum(s)
    decreases |s|
  {
    if s != [] {
      if s[0] == '-' {
        var d := DropWhileHyphen(s[1..]);
        DropWhileHyphenKeepsAlnum(s[1..]);
        CollapseHyphensKeepsAlnum(d);
        AlnumCons('-', CollapseHyphens(d));
      } else {
        CollapseHyphensKeepsAlnum(s[1..]);
        AlnumCons(s[0], CollapseHyphens(s[1..]));
      }
    }
  }

  lemma {:induction false} StripAsWrittenKeepsAlnum(s: string)
    ensures Alnum(StripAsWritten(s)) == Alnum(s)
  {
    if MatchAt(s, 0) {
      StripAsWrittenKeepsAlnum(s[3..]);
      var t1, t2 := s[1..], s[2..];
      assert t1[0] == s[1] && t1[1..] == t2 && t2[0] == s[2] && t2[1..] == s[3..];
      assert Alnum(s) == Alnum(t1);
      assert Alnum(t1) == Alnum(t2);
      assert Alnum(t2) == Alnum(s[3..]);
    } else if s != [] {
      StripAsWrittenKeepsAlnum(s[1..]);
      AlnumCons(s[0], StripAsWritten(s[1..]));
    }
  }

  lemma {:induction false} StripIntendedKeepsAlnum(s: string)
    ensures Alnum(StripIntended(s)) == Alnum(s)
  {
    if s != [] {
      var rest := StripIntended(s[1..]);
      StripIntendedKeepsAlnum(s[1..]);
      assert Alnum(s) == (if IsLowerAlnum(s[0]) then [s[0]] else []) + Alnum(s[1..]);
      if IntendedKeeps(s[0]) {
        assert StripIntended(s) == [s[0]] + rest;
        AlnumCons(s[0], rest);
      } else {
        assert StripIntended(s) == rest;
        assert !IsLowerAlnum(s[0]);
      }
    }
  }

  /** Trimming removes whitespace only, so no letter or digit. */
  lemma TrimKeepsAlnum(s: string)
    ensures Alnum(Trim(s)) == Alnum(s)
  {
    var a, b :| 0 <= a <= b <= |s| && Trim(s) == s[a..b]
                && (forall i :: 0 <= i < a ==> IsSpace(s[i]))
                && (forall i :: b <= i < |s| ==> IsSpace(s[i]));
    assert forall i :: 0 <= i < a ==> s[..a][i] == s[i];
    NoAlnumInSpaces(s[..a]);
    assert forall i :: 0 <= i < |s| - b ==> s[b..][i] == s[b + i];
    NoAlnumInSpaces(s[b..]);
    AlnumMiddle(s, a, b);
  }

  /** Cutting off ends without letters or digits keeps every letter and digit. */
  lemma AlnumMiddle(s: string, a: int, b: int)
    requires 0 <= a <= b <= |s|
    requires Alnum(s[..a]) == [] && Alnum(s[b..]) == []
    ensures Alnum(s[a..b]) == Alnum(s)
  {
    var pre, mid, post := s[..a], s[a..b], s[b..];
    assert s == pre + mid + post;
    AlnumConcat(pre + mid, post);
    AlnumConcat(pre, mid);
  }

  lemma {:induction false} NoAlnumInSpaces(s: string)
    requires forall i :: 0 <= i < |s| ==> IsSpace(s[i])
    ensures Alnum(s) == []
  {
    if s != [] {
      NoAlnumInSpaces(s[1..]);
    }
  }

  // ---------------------------------------------------------------------------
  // String.prototype methods used by the middlewares

  predicate StartsWith(s: string, prefix: string) {
    |prefix| <= |s| && s[..|prefix|] == prefix
  }

  /** Whether `pat` occurs in `s` at position `i`. */
  predicate OccursAt(s: string, pat: string, i: int) {
    0 <= i && i + |pat| <= |s| && s[i..i + |pat|] == pat
  }

  /** `s.indexOf(pat, k)`: the first position at or after `k` where `pat` occurs. */
  function IndexOf(s: string, pat: string, k: nat): (r: Option<nat>)
    ensures r.None? ==> forall i :: k <= i ==> !OccursAt(s, pat, i)
    ensures r.Some? ==> k <= r.value && OccursAt(s, pat, r.value)
                        && forall j :: k <= j < r.value ==> !OccursAt(s, pat, j)
    decreases |s| - k
  {
    if k + |pat| > |s| then None
    else if s[k..k + |pat|] == pat then Some(k)
    else IndexOf(s, pat, k + 1)
  }

  /** `s.replace(pat, "")` with a string pattern: removes the first
      occurrence of `pat`, if any. */
  function ReplaceFirst(s: string, pat: string): (r: string)
    ensures (forall i :: !OccursAt(s, pat, i)) ==> r == s
    ensures forall i :: OccursAt(s, pat, i) && (forall j :: 0 <= j < i ==> !OccursAt(s, pat, j))
                        ==> r == s[..i] + s[i + |pat|..]
  {
    match IndexOf(s, pat, 0)
    case None => s
    case Some(i) => s[..i] + s[i + |pat|..]
  }

  /** The characters up to the first space. */
  function UntilSpace(s: string): (r: string)
    ensures |r| <= |s| && r == s[..|r|] && ' ' !in r
    ensures |r| < |s| ==> s[|r|] == ' '
  {
    if s == [] || s[0] == ' ' then [] else [s[0]] + UntilSpace(s[1..])
  }

  /** `s.split(" ")[1]` for a string that contains a space: the characters
      between the first and the second space. */
  function SecondField(s: string): (r: string)
    requires ' ' in s
    ensures ' ' !in r
    ensures exists i :: 0 <= i < |s| && s[i] == ' ' && ' ' !in s[..i] && r == UntilSpace(s[i + 1..])
  {
    var first := UntilSpace(s);
    assert |first| < |s|;
    UntilSpace(s[|first| + 1..])
  }

  // ---------------------------------------------------------------------------
  // Integers in query strings

  function DigitValue(c: char): int { if IsDigit(c) then c as int - '0' as int else 0 }

  predicate AllDigits(s: string) { forall i :: 0 <= i < |s| ==> IsDigit(s[i]) }

  /** The value of a run of decimal digits. */
  function DecimalValue(s: string): (v: nat)
  {
    if s == [] then 0 else DecimalValue(s[..|s| - 1]) * 10 + (DigitValue(s[|s| - 1]) as nat)
  }

  predicate IsHexDigit(c: char) { IsDigit(c) || ('a' <= c <= 'f') || ('A' <= c <= 'F') }

  function HexDigitValue(c: char): nat {
    if IsDigit(c) then (c as int - '0' as int) as nat
    else if 'a' <= c <= 'f' then (c as int - 'a' as int + 10) as nat
    else if 'A' <= c <= 'F' then (c as int - 'A' as int + 10) as nat
    else 0
  }

  function HexValue(s: string): nat {
    if s == [] then 0 else HexValue(s[..|s| - 1]) * 16 + HexDigitValue(s[|s| - 1])
  }

  /** The longest prefix of decimal digits. */
  function DigitPrefix(s: string): (r: string)
    ensures |r| <= |s| && r == s[..|r|] && AllDigits(r)
    ensures |r| < |s| ==> !IsDigit(s[|r|])
  {
    if s != [] && IsDigit(s[0]) then [s[0]] + DigitPrefix(s[1..]) else []
  }

  function HexPrefix(s: string): (r: string)
    ensures |r| <= |s| && r == s[..|r|]
  {
    if s != [] && IsHexDigit(s[0]) then [s[0]] + HexPrefix(s[1..]) else []
  }

  /** `parseInt(s)` with no radix; `None` stands for `NaN`. Leading
      whitespace and a sign are skipped and a `0x` prefix selects hexadecimal. */
  function ParseInt(s: string): (r: Option<int>)
  {
    var t := TrimStart(s);
    var negative := t != [] && t[0] == '-';
    var body := if t != [] && (t[0] == '-' || t[0] == '+') then t[1..] else t;
    var sign := if negative then -1 else 1;
    if |body| >= 2 && body[0] == '0' && (body[1] == 'x' || body[1] == 'X') then
      var h := HexPrefix(body[2..]);
      if h == [] then None else Some(sign * HexValue(h))
    else
      var d := DigitPrefix(body);
      if d == [] then None else Some(sign * DecimalValue(d))
  }

  /** What the validator's `isInt` accepts: `^[-+]?[0-9]+$`. */
  predicate IsIntString(s: string) {
    s != [] && (if s[0] == '-' || s[0] == '+' then s[1..] != [] && AllDigits(s[1..]) else AllDigits(s))
  }

  /** The number such a string denotes. */
  function IntStringValue(s: string): int
    requires IsIntString(s)
  {
    if s[0] == '-' then -(DecimalValue(s[1..]) as int)
    else if s[0] == '+' then DecimalValue(s[1..])
    else DecimalValue(s)
  }

  lemma {:induction false} DigitPrefixOfDigits(s: string)
    requires AllDigits(s)
    ensures DigitPrefix(s) == s
  {
    if s != [] {
      DigitPrefixOfDigits(s[1..]);
    }
  }

  /** `parseInt` reads a string the validator accepted as the number it denotes. */
  lemma ParseIntOfIntString(s: string)
    requires IsIntString(s)
    ensures ParseInt(s) == Some(IntStringValue(s))
  {
    assert TrimStart(s) == s;
    var body := if s[0] == '-' || s[0] == '+' then s[1..] else s;
    assert AllDigits(body) && body != [];
    DigitPrefixOfDigits(body);
  }

}
