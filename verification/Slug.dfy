/** Workspace slugs: the generator loop against its declarative form. */
module Slug {

  predicate IsLowerAlnum(c: char) {
    'a' <= c <= 'z' || '0' <= c <= '9'
  }

  predicate IsAlnum(c: char) {
    IsLowerAlnum(c) || 'A' <= c <= 'Z'
  }

  function ToLower(c: char): char {
    if 'A' <= c <= 'Z' then c + 32 as char else c
  }

  function LowerAll(s: string): string {
    seq(|s|, i requires 0 <= i < |s| => ToLower(s[i]))
  }

  /** Length of the alphanumeric run at the front. */
  function RunLength(s: string): (n: nat)
    ensures n <= |s|
    ensures forall i :: 0 <= i < n ==> IsAlnum(s[i])
    ensures n < |s| ==> !IsAlnum(s[n])
  {
    if s == [] || !IsAlnum(s[0]) then 0 else 1 + RunLength(s[1..])
  }

  /** The maximal alphanumeric runs, lower-cased, left to right. */
  function Words(s: string): seq<string>
    decreases |s|
  {
    if s == [] then []
    else if !IsAlnum(s[0]) then Words(s[1..])
    else
      var n := RunLength(s);
      [LowerAll(s[..n])] + Words(s[n..])
  }

  function Hyphenate(words: seq<string>): string {
    if words == [] then ""
    else if |words| == 1 then words[0]
    else words[0] + "-" + Hyphenate(words[1..])
  }

  /** What GenerateSlug means: the words joined by single hyphens, or a default when there are none. */
  function SlugOf(name: string): string {
    if Words(name) == [] then "workspace" else Hyphenate(Words(name))
  }

  // ---------------------------------------------------------------- reading one more character

  predicate EndsInWord(s: string) {
    s != [] && IsAlnum(s[|s| - 1])
  }

  lemma {:induction false} RunLengthSnoc(s: string, c: char)
    ensures RunLength(s + [c]) == if RunLength(s) == |s| && IsAlnum(c) then |s| + 1 else RunLength(s)
  {
    if s != [] && IsAlnum(s[0]) {
      RunLengthSnoc(s[1..], c);
      assert (s + [c])[1..] == s[1..] + [c];
    }
  }

  function Extend(words: seq<string>, c: char): seq<string>
    requires words != []
  {
    words[..|words| - 1] + [words[|words| - 1] + [c]]
  }

  lemma WordsOfRunThen(s: string)
    requires s != [] && IsAlnum(s[0])
    ensures Words(s) == [LowerAll(s[..RunLength(s)])] + Words(s[RunLength(s)..])
  {
  }

  /** The words after reading `c` on top of `s`. */
  function WordsPlus(s: string, c: char): seq<string>
    requires EndsInWord(s) ==> Words(s) != []
  {
    if !IsAlnum(c) then Words(s)
    else if EndsInWord(s) then Extend(Words(s), ToLower(c))
    else Words(s) + [[ToLower(c)]]
  }

  /** Reading a character keeps the words, extends the last one, or opens a new one. */
  lemma {:induction false} WordsSnoc(s: string, c: char)
    ensures EndsInWord(s) ==> Words(s) != []
    ensures Words(s + [c]) == WordsPlus(s, c)
    decreases |s|
  {
    var t := s + [c];
    if s == [] {
      assert t == [c];
      SingleCharacter(c);
    } else if !IsAlnum(s[0]) {
      WordsSnoc(s[1..], c);
      assert t[1..] == s[1..] + [c];
    } else {
      var n := RunLength(s);
      RunLengthSnoc(s, c);
      WordsOfRunThen(s);
      WordsOfRunThen(t);
      if n < |s| {
        WordsSnoc(s[n..], c);
        assert t[n..] == s[n..] + [c] && t[..n] == s[..n];
        WordsPlusCons(LowerAll(s[..n]), s, s[n..], c);
      } else {
        WordsSnocInRun(s, c);
      }
    }
  }

  lemma WordsPlusCons(w: string, s: string, rest: string, c: char)
    requires EndsInWord(rest) ==> Words(rest) != []
    requires Words(s) == [w] + Words(rest) && EndsInWord(s) == EndsInWord(rest)
    ensures WordsPlus(s, c) == [w] + WordsPlus(rest, c)
  {
    if IsAlnum(c) && EndsInWord(rest) {
      assert Extend([w] + Words(rest), ToLower(c)) == [w] + Extend(Words(rest), ToLower(c));
    }
  }

  lemma {:induction false} WholeRun(s: string)
    requires s != [] && RunLength(s) == |s|
    ensures EndsInWord(s) && Words(s) == [LowerAll(s)]
  {
    WordsOfRunThen(s);
    assert s[..|s|] == s && s[|s|..] == [];
  }

  lemma LowerAllSnoc(s: string, c: char)
    ensures LowerAll(s + [c]) == LowerAll(s) + [ToLower(c)]
  {
  }

  lemma SingleCharacter(c: char)
    ensures Words([c]) == if IsAlnum(c) then [[ToLower(c)]] else []
  {
    assert [c][1..] == [];
    if IsAlnum(c) {
      WholeRun([c]);
      assert LowerAll([c]) == [ToLower(c)];
    }
  }

  lemma WordsSnocInRun(s: string, c: char)
    requires s != [] && RunLength(s) == |s|
    ensures EndsInWord(s) && Words(s) != []
    ensures Words(s + [c]) == WordsPlus(s, c)
  {
    WholeRun(s);
    RunLengthSnoc(s, c);
    if IsAlnum(c) {
      WholeRun(s + [c]);
      LowerAllSnoc(s, c);
    } else {
      WordsOfRunThen(s + [c]);
      assert (s + [c])[..|s|] == s && (s + [c])[|s|..] == [c];
      SingleCharacter(c);
    }
  }

  lemma {:induction false} HyphenateSnoc(words: seq<string>, w: string)
    ensures Hyphenate(words + [w]) == if words == [] then w else Hyphenate(words) + "-" + w
  {
    if |words| > 0 {
      HyphenateSnoc(words[1..], w);
      assert (words + [w])[1..] == words[1..] + [w];
      if |words| > 1 {
        assert Hyphenate(words + [w]) == words[0] + "-" + (Hyphenate(words[1..]) + "-" + w);
      }
    }
  }

  lemma HyphenateExtend(words: seq<string>, c: char)
    requires words != []
    ensures Hyphenate(Extend(words, c)) == Hyphenate(words) + [c]
  {
    var init, last := words[..|words| - 1], words[|words| - 1];
    assert words == init + [last];
    HyphenateSnoc(init, last);
    HyphenateSnoc(init, last + [c]);
  }

  // ---------------------------------------------------------------- what slugs look like

  predicate IsWord(w: string) {
    w != "" && forall i :: 0 <= i < |w| ==> IsLowerAlnum(w[i])
  }

  /** The validation pattern: lower-case letters, digits and hyphens, with no hyphen at either end. */
  predicate MatchesSlugPattern(s: string) {
    && s != ""
    && (forall i :: 0 <= i < |s| ==> IsLowerAlnum(s[i]) || s[i] == '-')
    && IsLowerAlnum(s[0])
    && IsLowerAlnum(s[|s| - 1])
  }

  ghost predicate NoDoubleHyphen(s: string) {
    forall i, j :: 0 <= i < j < |s| && j == i + 1 ==> s[i] != '-' || s[j] != '-'
  }

  lemma {:induction false} WordsAreWords(s: string)
    ensures forall i :: 0 <= i < |Words(s)| ==> IsWord(Words(s)[i])
    decreases |s|
  {
    if s != [] {
      if !IsAlnum(s[0]) {
        WordsAreWords(s[1..]);
      } else {
        WordsAreWords(s[RunLength(s)..]);
      }
    }
  }

  lemma {:induction false} HyphenatedWordsMatch(words: seq<string>)
    requires words != [] && forall i :: 0 <= i < |words| ==> IsWord(words[i])
    ensures MatchesSlugPattern(Hyphenate(words)) && NoDoubleHyphen(Hyphenate(words))
  {
    if |words| > 1 {
      var rest := Hyphenate(words[1..]);
      HyphenatedWordsMatch(words[1..]);
      var s := words[0] + "-" + rest;
      forall i | 0 <= i < |s|
        ensures IsLowerAlnum(s[i]) || s[i] == '-'
        ensures i > |words[0]| ==> s[i] == rest[i - |words[0]| - 1]
      {
      }
    }
  }

  lemma SlugMatchesPattern(name: string)
    ensures MatchesSlugPattern(SlugOf(name)) && NoDoubleHyphen(SlugOf(name))
  {
    WordsAreWords(name);
    if Words(name) != [] {
      HyphenatedWordsMatch(Words(name));
    }
  }

  lemma {:induction false} RunOfWord(w: string, rest: string)
    requires IsWord(w) && (rest == "" || !IsAlnum(rest[0]))
    ensures RunLength(w + rest) == |w| && LowerAll(w) == w
  {
    if |w| > 1 {
      assert IsWord(w[1..]);
      RunOfWord(w[1..], rest);
      assert (w + rest)[1..] == w[1..] + rest;
    } else {
      assert (w + rest)[1..] == rest;
    }
  }

  /** Such a string opens with its first word, which the reading leaves as it is. */
  lemma FirstWord(s: string)
    requires MatchesSlugPattern(s)
    ensures var n := RunLength(s);
            n > 0 && LowerAll(s[..n]) == s[..n] && Words(s) == [s[..n]] + Words(s[n..])
  {
    var n := RunLength(s);
    assert IsWord(s[..n]);
    RunOfWord(s[..n], "");
    WordsOfRunThen(s);
  }

  /** A string that matches the pattern and has no double hyphen is the join of its own words. */
  lemma {:induction false} CleanIsJoinOfWords(s: string)
    requires MatchesSlugPattern(s) && NoDoubleHyphen(s)
    ensures Words(s) != [] && Hyphenate(Words(s)) == s
    decreases |s|
  {
    var n := RunLength(s);
    FirstWord(s);
    if n == |s| {
      assert s[..n] == s && s[n..] == [];
    } else {
      AfterHyphen(s, n);
      CleanIsJoinOfWords(s[n + 1..]);
      WordsPastHyphen(s, n);
      JoinBack(s, n, Words(s[n + 1..]));
    }
  }

  lemma WordsPastHyphen(s: string, n: nat)
    requires n < |s| && s[n] == '-'
    ensures Words(s[n..]) == Words(s[n + 1..])
  {
    assert s[n..][1..] == s[n + 1..];
  }

  lemma JoinBack(s: string, n: nat, words: seq<string>)
    requires n < |s| && s[n] == '-' && words != [] && Hyphenate(words) == s[n + 1..]
    ensures Hyphenate([s[..n]] + words) == s
  {
    JoinStep(s[..n], words);
    assert s == s[..n] + "-" + s[n + 1..];
  }

  lemma JoinStep(w: string, words: seq<string>)
    requires words != []
    ensures Hyphenate([w] + words) == w + "-" + Hyphenate(words)
  {
    assert ([w] + words)[1..] == words;
  }

  lemma AfterHyphen(s: string, n: nat)
    requires MatchesSlugPattern(s) && NoDoubleHyphen(s) && n < |s| && !IsAlnum(s[n])
    ensures s[n] == '-' && MatchesSlugPattern(s[n + 1..]) && NoDoubleHyphen(s[n + 1..])
  {
    var rest := s[n + 1..];
    assert s[n] == '-' && n + 1 < |s| && s[n + 1] != '-';
    assert rest[|rest| - 1] == s[|s| - 1] && rest[0] == s[n + 1];
  }

  /** The generator leaves a string alone exactly when it is already a clean slug. */
  lemma FixedPointIff(s: string)
    ensures SlugOf(s) == s <==> MatchesSlugPattern(s) && NoDoubleHyphen(s)
  {
    SlugMatchesPattern(s);
    if MatchesSlugPattern(s) && NoDoubleHyphen(s) {
      CleanIsJoinOfWords(s);
    }
  }

  lemma SlugIsIdempotent(name: string)
    ensures SlugOf(SlugOf(name)) == SlugOf(name)
  {
    SlugMatchesPattern(name);
    FixedPointIff(SlugOf(name));
  }

  datatype SlugError = SlugRequired | SlugTooLong | SlugInvalid | SlugAccepted

  /** The slug part of Workspace.Validate. */
  function ValidateSlug(s: string): SlugError {
    if s == "" then SlugRequired
    else if |s| > 63 then SlugTooLong
    else if !MatchesSlugPattern(s) then SlugInvalid
    else SlugAccepted
  }

  function Alnums(s: string): nat {
    if s == [] then 0 else (if IsAlnum(s[0]) then 1 else 0) + Alnums(s[1..])
  }

  function TotalLength(words: seq<string>): nat {
    if words == [] then 0 else |words[0]| + TotalLength(words[1..])
  }

  lemma {:induction false} AlnumsPastRun(s: string)
    ensures Alnums(s) == RunLength(s) + Alnums(s[RunLength(s)..])
  {
    if s != [] && IsAlnum(s[0]) {
      AlnumsPastRun(s[1..]);
      assert s[1..][RunLength(s[1..])..] == s[RunLength(s)..];
    } else {
      assert s[0..] == s;
    }
  }

  /** The words hold the name's alphanumerics, and there is something else between any two of them. */
  lemma {:induction false} WordsOfName(s: string)
    ensures TotalLength(Words(s)) == Alnums(s)
    ensures Alnums(s) + |Words(s)| <= |s| + 1
    decreases |s|
  {
    if s != [] {
      if !IsAlnum(s[0]) {
        WordsOfName(s[1..]);
      } else {
        var n := RunLength(s);
        AlnumsPastRun(s);
        WordsOfRunThen(s);
        WordsOfName(s[n..]);
        assert ([LowerAll(s[..n])] + Words(s[n..]))[1..] == Words(s[n..]);
        if n < |s| {
          WordsOfName(s[n..][1..]);
        }
      }
    }
  }

  lemma {:induction false} HyphenatedLength(words: seq<string>)
    requires words != []
    ensures |Hyphenate(words)| == TotalLength(words) + |words| - 1
  {
    if |words| > 1 {
      HyphenatedLength(words[1..]);
    }
  }

  /**
    A generated slug is refused exactly when the name's alphanumerics and the hyphens between its words come to more
    than 63.
   */
  lemma GeneratedSlugAcceptedIff(name: string)
    ensures ValidateSlug(SlugOf(name)) == SlugAccepted <==> Alnums(name) + |Words(name)| - 1 <= 63
    ensures ValidateSlug(SlugOf(name)) != SlugAccepted ==> ValidateSlug(SlugOf(name)) == SlugTooLong
    ensures |name| <= 63 ==> ValidateSlug(SlugOf(name)) == SlugAccepted
  {
    SlugMatchesPattern(name);
    WordsOfName(name);
    if Words(name) != [] {
      HyphenatedLength(Words(name));
    }
  }

  /** Such a name exists among the valid ones (at most 100 characters). */
  lemma LongNameMakesRefusedSlug()
    ensures exists name: string :: 0 < |name| <= 100 && ValidateSlug(SlugOf(name)) == SlugTooLong
  {
    var name := seq(64, _ => 'a');
    FixedPointIff(name);
    assert SlugOf(name) == name;
    assert ValidateSlug(SlugOf(name)) == SlugTooLong;
  }

  // ---------------------------------------------------------------- slugs by their names

  /** What is left of a character: a letter in lower case, a digit as it is, nothing of anything else. */
  function Letter(c: char): string {
    if 'a' <= c <= 'z' || '0' <= c <= '9' then [c]
    else if 'A' <= c <= 'Z' then [(c as int + 32) as char]
    else ""
  }

  function Letters(s: string): string {
    if s == "" then "" else Letter(s[0]) + Letters(s[1..])
  }

  lemma LowerHead(s: string, n: nat)
    requires n < |s| && IsAlnum(s[0])
    ensures LowerAll(s[..n + 1]) == Letter(s[0]) + LowerAll(s[1..][..n])
  {
  }

  lemma {:induction false} LettersOfRun(s: string)
    ensures Letters(s) == LowerAll(s[..RunLength(s)]) + Letters(s[RunLength(s)..])
  {
    if s != "" && IsAlnum(s[0]) {
      var rest, n := s[1..], RunLength(s[1..]);
      LettersOfRun(rest);
      LowerHead(s, n);
      assert rest[n..] == s[n + 1..];
      Regroup(Letter(s[0]), LowerAll(rest[..n]), Letters(rest[n..]));
    } else {
      assert s[..0] == "" && s[0..] == s;
    }
  }

  lemma Regroup(a: string, b: string, c: string)
    ensures a + (b + c) == (a + b) + c
  {
  }

  lemma {:induction false} NoWordsIff(s: string)
    ensures Words(s) == [] <==> Letters(s) == ""
    decreases |s|
  {
    if s != "" {
      if IsAlnum(s[0]) {
        LettersOfRun(s);
      } else {
        NoWordsIff(s[1..]);
      }
    }
  }

  /** A name of letters and digits only becomes these in lower case. */
  lemma {:induction false} PlainName(s: string)
    requires s != ""
    requires forall i :: 0 <= i < |s| ==> 'a' <= s[i] <= 'z' || 'A' <= s[i] <= 'Z' || '0' <= s[i] <= '9'
    ensures SlugOf(s) == Letters(s)
  {
    PlainRun(s);
    WholeRun(s);
    LettersOfRun(s);
    assert s[..|s|] == s && s[|s|..] == "";
  }

  lemma {:induction false} PlainRun(s: string)
    requires forall i :: 0 <= i < |s| ==> 'a' <= s[i] <= 'z' || 'A' <= s[i] <= 'Z' || '0' <= s[i] <= '9'
    ensures RunLength(s) == |s|
  {
    if s != "" {
      PlainRun(s[1..]);
    }
  }

  /** Any other character separates: the words are those before it and those after it. */
  lemma {:induction false} WordsApart(x: string, c: char, y: string)
    requires Letter(c) == ""
    ensures Words(x + [c] + y) == Words(x) + Words(y)
    decreases |y|
  {
    if y == "" {
      assert x + [c] + y == x + [c];
      WordsSnoc(x, c);
    } else {
      var init, d := y[..|y| - 1], y[|y| - 1];
      WordsApart(x, c, init);
      WordsSnoc(x + [c] + init, d);
      WordsSnoc(init, d);
      assert y == init + [d] && x + [c] + y == (x + [c] + init) + [d];
      assert EndsInWord(x + [c] + init) == EndsInWord(init);
      PlusAfter(Words(x), init, d, x + [c] + init);
    }
  }

  lemma PlusAfter(before: seq<string>, s: string, d: char, whole: string)
    requires (EndsInWord(s) ==> Words(s) != []) && EndsInWord(whole) == EndsInWord(s)
    requires Words(whole) == before + Words(s)
    ensures WordsPlus(whole, d) == before + WordsPlus(s, d)
  {
    if IsAlnum(d) && EndsInWord(s) {
      assert Extend(before + Words(s), ToLower(d)) == before + Extend(Words(s), ToLower(d));
    }
  }

  lemma {:induction false} HyphenateBoth(a: seq<string>, b: seq<string>)
    requires a != [] && b != []
    ensures Hyphenate(a + b) == Hyphenate(a) + "-" + Hyphenate(b)
  {
    assert (a + b)[1..] == a[1..] + b;
    if |a| > 1 {
      HyphenateBoth(a[1..], b);
      assert Hyphenate(a + b) == a[0] + "-" + (Hyphenate(a[1..]) + "-" + Hyphenate(b));
    }
  }

  /**
    Together with PlainName this says what every slug is: a separator between two parts that have letters or digits
    becomes one hyphen, next to a part that has none it is dropped, and a name without any is "workspace".
   */
  lemma {:induction false} SeparatedName(x: string, c: char, y: string)
    requires Letter(c) == ""
    ensures Letters(x) == "" ==> SlugOf(x) == "workspace" && SlugOf(x + [c] + y) == SlugOf(y)
    ensures Letters(y) == "" ==> SlugOf(x + [c] + y) == SlugOf(x)
    ensures Letters(x) != "" && Letters(y) != "" ==> SlugOf(x + [c] + y) == SlugOf(x) + "-" + SlugOf(y)
  {
    WordsApart(x, c, y);
    NoWordsIff(x);
    NoWordsIff(y);
    assert [] + Words(y) == Words(y) && Words(x) + [] == Words(x);
    if Letters(x) != "" && Letters(y) != "" {
      HyphenateBoth(Words(x), Words(y));
    }
  }

  lemma {:induction false} SameRun(a: string, b: string)
    requires |a| == |b| && forall i :: 0 <= i < |a| ==> a[i] == b[i] || (Letter(a[i]) == Letter(b[i]) != "")
    ensures RunLength(a) == RunLength(b)
  {
    if a != "" {
      SameRun(a[1..], b[1..]);
    }
  }

  lemma {:induction false} SameWords(a: string, b: string)
    requires |a| == |b| && forall i :: 0 <= i < |a| ==> a[i] == b[i] || (Letter(a[i]) == Letter(b[i]) != "")
    ensures Words(a) == Words(b)
    decreases |a|
  {
    if a != "" {
      var n := RunLength(a);
      SameRun(a, b);
      if n == 0 {
        SameWords(a[1..], b[1..]);
      } else {
        SameWords(a[n..], b[n..]);
        assert LowerAll(a[..n]) == LowerAll(b[..n]);
      }
    }
  }

  /** Names that differ in the case of letters only have the same slug. */
  lemma {:induction false} CaseDoesNotMatter(a: string, b: string)
    requires |a| == |b|
    requires forall i :: 0 <= i < |a| ==>
               || a[i] == b[i]
               || ('A' <= a[i] <= 'Z' && a[i] as int + 32 == b[i] as int)
               || ('A' <= b[i] <= 'Z' && b[i] as int + 32 == a[i] as int)
    ensures SlugOf(a) == SlugOf(b)
  {
    SameWords(a, b);
  }

  // ---------------------------------------------------------------- the loop

  /** What the buffer holds after a prefix: its words, and a hyphen once something else has followed them. */
  ghost function Buffer(prefix: string): string {
    Hyphenate(Words(prefix)) + if Words(prefix) != [] && !EndsInWord(prefix) then "-" else ""
  }

  lemma BufferFacts(prefix: string)
    ensures EndsInWord(prefix) ==> Words(prefix) != []
    ensures Buffer(prefix) == "" <==> Words(prefix) == []
  {
    if prefix != [] {
      WordsSnoc(prefix[..|prefix| - 1], prefix[|prefix| - 1]);
      assert prefix == prefix[..|prefix| - 1] + [prefix[|prefix| - 1]];
    }
    BufferEndsClean(prefix);
  }

  lemma BufferSnocOther(prefix: string, c: char)
    requires !IsAlnum(c)
    ensures Buffer(prefix + [c]) == Buffer(prefix) + if EndsInWord(prefix) then "-" else ""
  {
    WordsSnoc(prefix, c);
    assert !EndsInWord(prefix + [c]);
  }

  lemma BufferSnocAlnum(prefix: string, c: char)
    requires IsAlnum(c)
    ensures Buffer(prefix + [c]) == Buffer(prefix) + [ToLower(c)]
  {
    WordsSnoc(prefix, c);
    var words := Words(prefix);
    assert EndsInWord(prefix + [c]);
    if EndsInWord(prefix) {
      HyphenateExtend(words, ToLower(c));
    } else {
      HyphenateSnoc(words, [ToLower(c)]);
    }
  }

  method GenerateSlug(name: string) returns (result: string)
    ensures result == SlugOf(name)
  {
    var slug: string := "";
    var prevHyphen := false;
    for i := 0 to |name|
      invariant slug == Buffer(name[..i])
      invariant prevHyphen <==> slug != "" && !EndsInWord(name[..i])
      invariant slug == "" ==> !EndsInWord(name[..i])
    {
      var r := name[i];
      BufferFacts(name[..i]);
      if IsAlnum(r) {
        BufferSnocAlnum(name[..i], r);
      } else {
        BufferSnocOther(name[..i], r);
      }
      assert name[..i + 1] == name[..i] + [r];
      if 'a' <= r <= 'z' {
        slug := slug + [r];
        prevHyphen := false;
      } else if 'A' <= r <= 'Z' {
        slug := slug + [r + 32 as char];
        prevHyphen := false;
      } else if '0' <= r <= '9' {
        slug := slug + [r];
        prevHyphen := false;
      } else if !prevHyphen && |slug| > 0 {
        slug := slug + "-";
        prevHyphen := true;
      }
    }
    assert name[..|name|] == name;
    BufferEndsClean(name);
    while |slug| > 0 && slug[|slug| - 1] == '-'
      invariant slug == Hyphenate(Words(name)) || slug == Hyphenate(Words(name)) + "-"
      decreases |slug|
    {
      slug := slug[..|slug| - 1];
    }
    if |slug| == 0 {
      return "workspace";
    }
    return slug;
  }

  lemma BufferEndsClean(name: string)
    ensures var h := Hyphenate(Words(name));
            && (h == "" <==> Words(name) == [])
            && (h != "" ==> h[|h| - 1] != '-')
  {
    WordsAreWords(name);
    if Words(name) != [] {
      HyphenatedWordsMatch(Words(name));
    }
  }
}
