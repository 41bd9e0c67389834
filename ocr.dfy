/** Reading a patient identifier and a birth date from recognised text:
    candidates are collected line by line with fixed patterns, scored by
    format, and the best one is chosen; a confidence figure summarises the
    outcome. The current year is a parameter. */
module Ocr {
  import opened Common
  import opened Ranking
  import opened Patterns
  import opened Calendar

  // ---------------------------------------------------------------------------
  // candidates

  /** `text.split('\n').map(line => line.trim()).filter(line => line.length > 0)`. */
  function Lines(text: string): (lines: seq<string>)
    ensures forall k :: 0 <= k < |lines| ==> lines[k] != "" && Trimmed(lines[k])
  {
    var trimmed := Map(Split(text, '\n'), TrimEach());
    forall k | 0 <= k < |trimmed| ensures Trimmed(trimmed[k]) {
      TrimShape(Split(text, '\n')[k]);
    }
    FilterSpec(trimmed, IsNonEmpty());
    Filter(trimmed, IsNonEmpty())
  }

  const IdKeyword: Regex := Or(Word("patient"), Or(Word("pat"), Or(Word("id"), Or(Word("nummer"), Word("nr")))))

  const DateKeyword: Regex := Or(Word("geb"), Or(Word("geboren"), Or(Word("birth"), Word("dob"))))

  /** `[\s:]*` */
  const Gap: Regex := Rep(Cls(SpaceOrColon), 0, None)

  /** Three digit groups with a date separator between them. */
  function DateText(lo0: nat, hi0: nat, lo1: nat, hi1: nat, lo2: nat, hi2: nat): Regex {
    Cat(Between(Digit, lo0, hi0), Cat(Cls(DateSep), Cat(Between(Digit, lo1, hi1), Cat(Cls(DateSep), Between(Digit, lo2, hi2)))))
  }

  /** The four patient-identifier patterns, in the order they are tried: a
      keyword followed by 6 to 12 letters or digits (case-insensitive, first
      match only), 2 or 3 capitals and 6 to 9 digits, 8 to 12 digits, and
      a capital with 7 to 10 digits. */
  const IdPatterns: seq<Pattern> := [
    Pattern(Cat(Cat(IdKeyword, Gap), Grp(Between(AnyCaseAlnum, 6, 12))), false),
    Pattern(Grp(Cat(Between(Upper, 2, 3), Between(Digit, 6, 9))), true),
    Pattern(Grp(Between(Digit, 8, 12)), true),
    Pattern(Grp(Cat(Cls(Upper), Between(Digit, 7, 10))), true)
  ]

  /** The four birth-date patterns: a keyword followed by a date (first
      match only), then day-month-year, two digits each, and
      year-month-day. */
  const DatePatterns: seq<Pattern> := [
    Pattern(Cat(Cat(DateKeyword, Gap), Grp(DateText(1, 2, 1, 2, 2, 4))), false),
    Pattern(Grp(DateText(1, 2, 1, 2, 4, 4)), true),
    Pattern(Grp(DateText(2, 2, 2, 2, 2, 2)), true),
    Pattern(Grp(DateText(4, 4, 1, 2, 1, 2)), true)
  ]

  /** What one line contributes: each pattern's matches in turn. */
  function LineCandidates(line: string, pats: seq<Pattern>): (c: seq<string>)
    ensures forall m :: m in c ==> SubstringOf(m, line)
    decreases |pats|
  {
    if pats == [] then [] else LineCandidates(line, pats[..|pats| - 1]) + Matched(pats[|pats| - 1], line)
  }

  /** The candidates of all lines, line by line. */
  function Candidates(lines: seq<string>, pats: seq<Pattern>): (c: seq<string>)
    ensures forall m :: m in c ==> exists k :: 0 <= k < |lines| && SubstringOf(m, lines[k])
    decreases |lines|
  {
    if lines == [] then []
    else
      var init := lines[..|lines| - 1];
      var c := Candidates(init, pats) + LineCandidates(lines[|lines| - 1], pats);
      assert forall k :: 0 <= k < |init| ==> init[k] == lines[k];
      c
  }

  /** The loops of `extractPatientInfo` that push every match, line by
      line. */
  method CollectCandidates(lines: seq<string>, pats: seq<Pattern>) returns (found: seq<string>)
    ensures found == Candidates(lines, pats)
  {
    found := [];
    var i := 0;
    while i < |lines|
      invariant 0 <= i <= |lines|
      invariant found == Candidates(lines[..i], pats)
    {
      var ms := CollectLine(lines[i], pats);
      CandidatesStep(lines, i, pats);
      found := found + ms;
      i := i + 1;
    }
    assert lines[..|lines|] == lines;
  }

  /** The inner loop: the matches of each pattern on one line. */
  method CollectLine(line: string, pats: seq<Pattern>) returns (found: seq<string>)
    ensures found == LineCandidates(line, pats)
  {
    found := [];
    var j := 0;
    while j < |pats|
      invariant 0 <= j <= |pats|
      invariant found == LineCandidates(line, pats[..j])
    {
      LineCandidatesStep(line, pats, j);
      found := found + Matched(pats[j], line);
      j := j + 1;
    }
    assert pats[..|pats|] == pats;
  }

  lemma LineCandidatesStep(line: string, pats: seq<Pattern>, j: nat)
    requires j < |pats|
    ensures LineCandidates(line, pats[..j + 1]) == LineCandidates(line, pats[..j]) + Matched(pats[j], line)
  {
    assert pats[..j + 1][..j] == pats[..j];
  }

  lemma CandidatesStep(lines: seq<string>, i: nat, pats: seq<Pattern>)
    requires i < |lines|
    ensures Candidates(lines[..i + 1], pats) == Candidates(lines[..i], pats) + LineCandidates(lines[i], pats)
  {
    assert lines[..i + 1][..i] == lines[..i];
  }

  // ---------------------------------------------------------------------------
  // patient identifiers

  predicate AllUpper(s: string) {
    forall i :: 0 <= i < |s| ==> IsUpper(s[i])
  }

  /** The anchored test `^[A-Z]{lo,hi}[0-9]{dlo,dhi}$`. */
  predicate LettersThenDigits(id: string, lo: nat, hi: nat, dlo: nat, dhi: nat) {
    exists k :: lo <= k <= hi && k <= |id| && AllUpper(id[..k]) && AllDigits(id[k..]) && dlo <= |id| - k <= dhi
  }

  /** Capitals and digits never overlap, so the letters end at one place. */
  lemma SplitPointUnique(id: string, k1: nat, k2: nat)
    requires k1 <= |id| && AllUpper(id[..k1]) && AllDigits(id[k1..])
    requires k2 <= |id| && AllUpper(id[..k2]) && AllDigits(id[k2..])
    ensures k1 == k2
  {
    SplitPointIsLeading(id, k1);
    SplitPointIsLeading(id, k2);
  }

  /** Where the capitals end: every character before is a capital, and the
      one there, if any, is not. */
  lemma SplitPointIsLeading(id: string, k: nat)
    requires k <= |id| && AllUpper(id[..k]) && AllDigits(id[k..])
    ensures forall j :: 0 <= j < k ==> IsUpper(id[j])
    ensures k < |id| ==> !IsUpper(id[k])
  {
    assert forall j :: 0 <= j < k ==> id[..k][j] == id[j];
    assert k < |id| ==> id[k..][0] == id[k];
  }

  /** The three format rules exclude each other, and each needs 8 to 12
      characters. */
  lemma IdShapesExclusive(id: string)
    ensures LettersThenDigits(id, 2, 3, 6, 9) ==> 8 <= |id| <= 12 && !LettersThenDigits(id, 0, 0, 8, 12) && !LettersThenDigits(id, 1, 1, 7, 10)
    ensures LettersThenDigits(id, 0, 0, 8, 12) ==> 8 <= |id| <= 12 && !LettersThenDigits(id, 1, 1, 7, 10)
    ensures LettersThenDigits(id, 1, 1, 7, 10) ==> 8 <= |id| <= 11
  {
    forall k1: nat, k2: nat | k1 <= |id| && AllUpper(id[..k1]) && AllDigits(id[k1..]) && k2 <= |id| && AllUpper(id[..k2]) && AllDigits(id[k2..])
      ensures k1 == k2
    {
      SplitPointUnique(id, k1, k2);
    }
  }

  /** `scorePatientId`: +3 for 6 to 12 characters, +2 more for 8 to 10, +5
      for capitals then digits, +4 for digits only, +3 for one capital then
      digits, -2 for exactly four digits and -2 for thirteen digits or more.
      The score is positive exactly for a length from 6 to 12, it is at most
      10, and 10 needs the capitals-then-digits form with 8 to 10
      characters. */
  function ScorePatientId(id: string): (score: int)
    ensures -2 <= score <= 10
    ensures score > 0 <==> 6 <= |id| <= 12
    ensures score == 10 <==> 8 <= |id| <= 10 && LettersThenDigits(id, 2, 3, 6, 9)
  {
    IdShapesExclusive(id);
    (if 6 <= |id| <= 12 then 3 else 0) +
    (if 8 <= |id| <= 10 then 2 else 0) +
    (if LettersThenDigits(id, 2, 3, 6, 9) then 5 else 0) +
    (if LettersThenDigits(id, 0, 0, 8, 12) then 4 else 0) +
    (if LettersThenDigits(id, 1, 1, 7, 10) then 3 else 0) -
    (if LettersThenDigits(id, 0, 0, 4, 4) then 2 else 0) -
    (if AllDigits(id) && |id| >= 13 then 2 else 0)
  }

  // ---------------------------------------------------------------------------
  // choosing the best candidate

  /** `[...new Set(s)]`: the distinct values in order of first occurrence. */
  function Dedupe(s: seq<string>): (d: seq<string>)
    ensures forall x :: x in d <==> x in s
    ensures Distinct(d)
    decreases |s|
  {
    if s == [] then []
    else
      var init := s[..|s| - 1];
      var p := Dedupe(init);
      var x := s[|s| - 1];
      assert s == init + [x];
      if x in p then p else p + [x]
  }

  /** Removing duplicates from a prefix gives a prefix of the result. */
  lemma {:induction false} DedupePrefix(s: seq<string>, n: nat)
    requires n <= |s|
    ensures Dedupe(s[..n]) <= Dedupe(s)
    decreases |s|
  {
    if n < |s| {
      var init := s[..|s| - 1];
      DedupePrefix(init, n);
      assert init[..n] == s[..n];
    } else {
      assert s[..n] == s;
    }
  }

  lemma {:induction false} FirstIndexOf(s: seq<string>, x: string) returns (k: nat)
    requires x in s
    ensures k < |s| && s[k] == x && x !in s[..k]
    decreases |s|
  {
    if s[0] == x {
      k := 0;
    } else {
      var k' := FirstIndexOf(s[1..], x);
      k := k' + 1;
      assert s[..k] == [s[0]] + s[1..][..k'];
    }
  }

  /** The comparator `(a, b) => b.score - a.score`, as a sort key. */
  function ScoreKey(f: string -> int): string -> Key {
    (x: string) => (-f(x), 0)
  }

  /** After removing duplicates and sorting by descending score, the first
      value is a candidate with the highest score of all. */
  lemma TopIsMax(possible: seq<string>, f: string -> int)
    requires possible != []
    ensures var top := Sort(Dedupe(possible), ScoreKey(f))[0];
            top in possible && forall x :: x in possible ==> f(x) <= f(top)
  {
    var uniq := Dedupe(possible);
    assert possible[0] in uniq;
    var key := ScoreKey(f);
    var top := Sort(uniq, key)[0];
    SortFirst(uniq, key);
    SortMembers(uniq, key);
    forall x | x in possible ensures f(x) <= f(top) {
      var i :| 0 <= i < |uniq| && uniq[i] == x;
      assert KeyLe(key(top), key(uniq[i]));
    }
  }

  /** No candidate before the first occurrence of that value reaches its
      score: ties go to the earliest candidate. */
  lemma TopIsFirst(possible: seq<string>, f: string -> int)
    requires possible != []
    ensures var top := Sort(Dedupe(possible), ScoreKey(f))[0];
            exists i :: 0 <= i < |possible| && possible[i] == top && forall j :: 0 <= j < i ==> f(possible[j]) < f(top)
  {
    var uniq := Dedupe(possible);
    assert possible[0] in uniq;
    var key := ScoreKey(f);
    var top := Sort(uniq, key)[0];
    SortFirst(uniq, key);
    SortMembers(uniq, key);
    assert top in possible;
    var i :| 0 <= i < |uniq| && uniq[i] == top && key(uniq[i]) == key(top) &&
             forall j :: 0 <= j < i ==> key(uniq[j]) != key(uniq[i]);
    var k := FirstIndexOf(possible, top);
    DedupeBefore(possible, k, i);
    forall j | 0 <= j < k ensures f(possible[j]) < f(top) {
      ScoreBelowTop(uniq, f, i, possible[j]);
    }
  }

  /** A value listed before the first value of the highest score scores
      less. */
  lemma ScoreBelowTop(uniq: seq<string>, f: string -> int, i: nat, x: string)
    requires i < |uniq| && x in uniq[..i]
    requires forall j :: 0 <= j < i ==> ScoreKey(f)(uniq[j]) != ScoreKey(f)(uniq[i])
    requires forall l :: 0 <= l < |uniq| ==> KeyLe(ScoreKey(f)(uniq[i]), ScoreKey(f)(uniq[l]))
    ensures f(x) < f(uniq[i])
  {
    var j :| 0 <= j < i && uniq[..i][j] == x;
    assert uniq[j] == x;
    assert KeyLe(ScoreKey(f)(uniq[i]), ScoreKey(f)(uniq[j]));
  }

  /** The values before the first occurrence of a value come before it after
      removing duplicates. */
  lemma DedupeBefore(possible: seq<string>, k: nat, i: nat)
    requires k < |possible| && possible[k] !in possible[..k]
    requires i < |Dedupe(possible)| && Dedupe(possible)[i] == possible[k]
    ensures forall j :: 0 <= j < k ==> possible[j] in Dedupe(possible)[..i]
  {
    var uniq := Dedupe(possible);
    DedupePrefix(possible, k);
    var pre := Dedupe(possible[..k]);
    assert possible[k] !in pre;
    assert forall j :: 0 <= j < |pre| ==> uniq[j] == pre[j];
    assert |pre| <= i;
    assert pre <= uniq[..i];
    forall j | 0 <= j < k ensures possible[j] in uniq[..i] {
      assert possible[j] in possible[..k];
      assert possible[j] in pre;
    }
  }

  function IdScore(): string -> int {
    (id: string) => ScorePatientId(id)
  }

  /** `selectBestPatientId`: none for no candidates; otherwise the first
      candidate with the highest score, provided that score is positive. */
  function SelectBestPatientId(possibleIds: seq<string>): (r: Option<string>)
    ensures possibleIds == [] ==> r.None?
    ensures r.Some? ==> r.value in possibleIds && ScorePatientId(r.value) > 0 &&
                        forall x :: x in possibleIds ==> ScorePatientId(x) <= ScorePatientId(r.value)
    ensures r.Some? ==> exists i :: 0 <= i < |possibleIds| && possibleIds[i] == r.value &&
                          forall j :: 0 <= j < i ==> ScorePatientId(possibleIds[j]) < ScorePatientId(r.value)
    ensures r.None? && possibleIds != [] ==> forall x :: x in possibleIds ==> ScorePatientId(x) <= 0
  {
    if possibleIds == [] then None
    else
      var top := Sort(Dedupe(possibleIds), ScoreKey(IdScore()))[0];
      TopIsMax(possibleIds, IdScore());
      TopIsFirst(possibleIds, IdScore());
      if ScorePatientId(top) > 0 then Some(top) else None
  }

  /** An identifier is chosen exactly when some candidate has 6 to 12
      characters. */
  lemma PatientIdFoundIff(possibleIds: seq<string>)
    ensures SelectBestPatientId(possibleIds).Some? <==> exists x :: x in possibleIds && 6 <= |x| <= 12
  {
    if exists x :: x in possibleIds && 6 <= |x| <= 12 {
      var x :| x in possibleIds && 6 <= |x| <= 12;
      assert ScorePatientId(x) > 0;
    }
  }

  // ---------------------------------------------------------------------------
  // birth dates

  /** The digit groups of a date text: the pieces between the separators
      `-`, `/` and `.`. */
  function Fields(s: string): (f: seq<string>)
    ensures |f| >= 1
    decreases |s|
  {
    if s == [] then [""]
    else
      var rest := Fields(s[1..]);
      if IsDateSep(s[0]) then [""] + rest else [[s[0]] + rest[0]] + rest[1..]
  }

  predicate NoSep(s: string) {
    forall i :: 0 <= i < |s| ==> !IsDateSep(s[i])
  }

  /** Text without a separator joins the first group. */
  lemma {:induction false} FieldsPrefix(p: string, s: string)
    requires NoSep(p)
    ensures Fields(p + s) == [p + Fields(s)[0]] + Fields(s)[1..]
    decreases |p|
  {
    if p == [] {
      assert p + s == s;
      assert p + Fields(s)[0] == Fields(s)[0];
      assert [Fields(s)[0]] + Fields(s)[1..] == Fields(s);
    } else {
      assert (p + s)[1..] == p[1..] + s;
      assert (p + s)[0] == p[0] && !IsDateSep(p[0]);
      FieldsPrefix(p[1..], s);
      var rest := Fields(p[1..] + s);
      assert Fields(p + s) == [[p[0]] + rest[0]] + rest[1..];
      assert rest[0] == p[1..] + Fields(s)[0];
      assert rest[1..] == Fields(s)[1..];
      assert [p[0]] + (p[1..] + Fields(s)[0]) == p + Fields(s)[0];
    }
  }

  /** `dd`, a separator, `mm`, a separator and `yy` split back into the
      three groups. */
  lemma FieldsOfDate(g0: string, c1: char, g1: string, c2: char, g2: string)
    requires AllDigits(g0) && AllDigits(g1) && AllDigits(g2) && IsDateSep(c1) && IsDateSep(c2)
    ensures Fields(g0 + [c1] + g1 + [c2] + g2) == [g0, g1, g2]
  {
    var t0 := [c1] + (g1 + ([c2] + g2));
    FieldsOfTail(c1, g1, c2, g2);
    FieldsDigitsThen(g0, t0);
    assert g0 + "" == g0;
    DateTextSplit(g0, c1, g1, c2, g2);
  }

  lemma DateTextSplit(g0: string, c1: char, g1: string, c2: char, g2: string)
    ensures g0 + [c1] + g1 + [c2] + g2 == g0 + ([c1] + (g1 + ([c2] + g2)))
  {
  }

  lemma FieldsOfTail(c1: char, g1: string, c2: char, g2: string)
    requires AllDigits(g1) && AllDigits(g2) && IsDateSep(c1) && IsDateSep(c2)
    ensures Fields([c1] + (g1 + ([c2] + g2))) == ["", g1, g2]
  {
    var t2 := [c2] + g2;
    FieldsSep(c2, g2);
    FieldsDigits(g2);
    var t1 := g1 + t2;
    FieldsDigitsThen(g1, t2);
    assert g1 + "" == g1;
    FieldsSep(c1, t1);
  }

  lemma FieldsSep(c: char, s: string)
    requires IsDateSep(c)
    ensures Fields([c] + s) == [""] + Fields(s)
  {
    assert ([c] + s)[1..] == s;
  }

  lemma FieldsDigitsThen(g: string, s: string)
    requires AllDigits(g)
    ensures Fields(g + s) == [g + Fields(s)[0]] + Fields(s)[1..]
  {
    assert forall i :: 0 <= i < |g| ==> IsDigit(g[i]);
    FieldsPrefix(g, s);
  }

  lemma FieldsDigits(g: string)
    requires AllDigits(g)
    ensures Fields(g) == [g]
  {
    FieldsDigitsThen(g, "");
    assert g + "" == g;
    assert Fields("") == [""];
  }

  /** The anchored test `^([0-9]{lo0,hi0})[-\/\.]([0-9]{lo1,hi1})[-\/\.]([0-9]{lo2,hi2})$`;
      since digits and separators never overlap, its groups are the
      fields. */
  predicate DateShape(s: string, lo0: nat, hi0: nat, lo1: nat, hi1: nat, lo2: nat, hi2: nat) {
    var f := Fields(s);
    |f| == 3 && AllDigits(f[0]) && AllDigits(f[1]) && AllDigits(f[2]) &&
    lo0 <= |f[0]| <= hi0 && lo1 <= |f[1]| <= hi1 && lo2 <= |f[2]| <= hi2
  }

  /** The formats `parseBirthDate` tries: day-month-year with a four-digit
      year, year-month-day, and day-month-year with two digits each. */
  predicate MatchesFormat(s: string, i: nat)
    requires i < 3
  {
    if i == 0 then DateShape(s, 1, 2, 1, 2, 4, 4)
    else if i == 1 then DateShape(s, 4, 4, 1, 2, 1, 2)
    else DateShape(s, 2, 2, 2, 2, 2, 2)
  }

  /** No text has two of the formats. */
  lemma FormatsExclusive(s: string, i: nat, j: nat)
    requires i < 3 && j < 3 && MatchesFormat(s, i) && MatchesFormat(s, j)
    ensures i == j
  {
  }

  /** Years 00 to 30 are 2000 to 2030, the rest 1931 to 1999. */
  function TwoDigitYear(yy: nat): (y: nat)
    requires yy < 100
    ensures 2000 <= y <= 2030 || 1931 <= y <= 1999
    ensures y % 100 == yy
  {
    yy + if yy <= 30 then 2000 else 1900
  }

  /** The date of year, month (from 0) and day, when that day exists and
      the year is from 100 on: what survives the round trip through
      `new Date`. */
  function CheckedDate(n: (nat, int, nat)): (d: Option<CalendarDate>)
    ensures d.Some? <==> n.0 >= 100 && IsValid(CalendarDate(n.0, n.1, n.2))
    ensures d.Some? ==> d.value == CalendarDate(n.0, n.1, n.2)
  {
    var date := CalendarDate(n.0, n.1, n.2);
    if date.year >= 100 && IsValid(date) then Some(date) else None
  }

  /** The day, month (from 0) and year format `i` reads from its fields. */
  function DateNumbers(f: seq<string>, i: nat): (r: (nat, int, nat))
    requires i < 3 && |f| == 3 && AllDigits(f[0]) && AllDigits(f[1]) && AllDigits(f[2])
    requires i == 2 ==> |f[2]| == 2
  {
    if i == 0 then (DigitsValue(f[2]), DigitsValue(f[1]) - 1, DigitsValue(f[0]))
    else if i == 1 then (DigitsValue(f[0]), DigitsValue(f[1]) - 1, DigitsValue(f[2]))
    else
      TwoDigitsBelow100(f[2]);
      (TwoDigitYear(DigitsValue(f[2])), DigitsValue(f[1]) - 1, DigitsValue(f[0]))
  }

  lemma TwoDigitsBelow100(s: string)
    requires AllDigits(s) && |s| == 2
    ensures DigitsValue(s) < 100
  {
    var a := s[..1];
    assert a[..0] == [];
    assert DigitsValue(a) == DigitValue(s[0]) <= 9;
    assert s[..|s| - 1] == a;
    assert DigitValue(s[1]) <= 9;
  }

  /** One turn of the loop: the date format `i` gives when the text has
      that format and the numbers survive the round trip through `Date`. */
  function Candidate(s: string, i: nat): (r: Option<CalendarDate>)
    requires i < 3
    ensures r.Some? ==> MatchesFormat(s, i) && IsValid(r.value) && r.value.year >= 100
  {
    if !MatchesFormat(s, i) then None
    else
      var n := DateNumbers(Fields(s), i);
      RoundTripsIff(n.0, n.1, n.2);
      if RoundTrips(n.0, n.1, n.2) then Some(CalendarDate(n.0, n.1, n.2)) else None
  }

  /** The formats from `i` on, the first that gives a date. */
  function TryFormats(s: string, i: nat): (r: Option<CalendarDate>)
    requires i <= 3
    ensures r.Some? ==> IsValid(r.value) && r.value.year >= 100
    decreases 3 - i
  {
    if i == 3 then None
    else
      var c := Candidate(s, i);
      if c.Some? then c else TryFormats(s, i + 1)
  }

  /** The date `parseBirthDate` returns, if any. */
  function BirthDateOf(s: string): (r: Option<CalendarDate>)
    ensures r.Some? ==> IsValid(r.value) && r.value.year >= 100
  {
    TryFormats(s, 0)
  }

  /** `parseBirthDate`: the loop over the formats, returning the first
      date that reads back as it was built. */
  method ParseBirthDate(s: string) returns (r: Option<CalendarDate>)
    ensures r == BirthDateOf(s)
  {
    var i := 0;
    while i < 3
      invariant 0 <= i <= 3
      invariant TryFormats(s, i) == BirthDateOf(s)
    {
      var c := Candidate(s, i);
      if c.Some? {
        return c;
      }
      i := i + 1;
    }
    return None;
  }

  /** Since the formats exclude each other, only the format the text has
      matters, and a text of none of them gives no date. */
  lemma BirthDateOfFormat(s: string, i: nat)
    requires i < 3 && MatchesFormat(s, i)
    ensures BirthDateOf(s) == Candidate(s, i)
  {
    forall j | j < 3 && j != i ensures Candidate(s, j).None? {
      if MatchesFormat(s, j) {
        FormatsExclusive(s, i, j);
      }
    }
  }

  lemma BirthDateOfNoFormat(s: string)
    requires forall i :: 0 <= i < 3 ==> !MatchesFormat(s, i)
    ensures BirthDateOf(s).None?
  {
  }

  /** The date of a text with format `i`: its numbers, when they name an
      existing day of a year from 100 on. */
  lemma BirthDateOfFields(s: string, i: nat)
    requires i < 3 && MatchesFormat(s, i)
    ensures var n := DateNumbers(Fields(s), i);
            var date := CalendarDate(n.0, n.1, n.2);
            BirthDateOf(s) == if date.year >= 100 && IsValid(date) then Some(date) else None
  {
    BirthDateOfFormat(s, i);
    var n := DateNumbers(Fields(s), i);
    RoundTripsIff(n.0, n.1, n.2);
  }

  /** Day-month-year with a four-digit year reads as that day, when it
      exists and the year is from 100 on. */
  lemma ParseDayMonthYear(dd: string, c1: char, mm: string, c2: char, yyyy: string)
    requires AllDigits(dd) && AllDigits(mm) && AllDigits(yyyy) && IsDateSep(c1) && IsDateSep(c2)
    requires 1 <= |dd| <= 2 && 1 <= |mm| <= 2 && |yyyy| == 4
    ensures BirthDateOf(dd + [c1] + mm + [c2] + yyyy) == CheckedDate(DateNumbers([dd, mm, yyyy], 0))
  {
    var s := dd + [c1] + mm + [c2] + yyyy;
    FieldsOfDate(dd, c1, mm, c2, yyyy);
    assert MatchesFormat(s, 0);
    DateOfFields(s, 0, dd, mm, yyyy);
  }

  /** Year-month-day reads as that day under the same conditions. */
  lemma ParseYearMonthDay(yyyy: string, c1: char, mm: string, c2: char, dd: string)
    requires AllDigits(dd) && AllDigits(mm) && AllDigits(yyyy) && IsDateSep(c1) && IsDateSep(c2)
    requires 1 <= |dd| <= 2 && 1 <= |mm| <= 2 && |yyyy| == 4
    ensures BirthDateOf(yyyy + [c1] + mm + [c2] + dd) == CheckedDate(DateNumbers([yyyy, mm, dd], 1))
  {
    var s := yyyy + [c1] + mm + [c2] + dd;
    FieldsOfDate(yyyy, c1, mm, c2, dd);
    assert MatchesFormat(s, 1);
    DateOfFields(s, 1, yyyy, mm, dd);
  }

  /** Two digits each: the year pivots at 30, and the day is read when it
      exists. */
  lemma ParseTwoDigitYear(dd: string, c1: char, mm: string, c2: char, yy: string)
    requires AllDigits(dd) && AllDigits(mm) && AllDigits(yy) && IsDateSep(c1) && IsDateSep(c2)
    requires |dd| == 2 && |mm| == 2 && |yy| == 2
    ensures DigitsValue(yy) < 100
    ensures BirthDateOf(dd + [c1] + mm + [c2] + yy) == CheckedDate(DateNumbers([dd, mm, yy], 2))
  {
    var s := dd + [c1] + mm + [c2] + yy;
    TwoDigitsBelow100(yy);
    FieldsOfDate(dd, c1, mm, c2, yy);
    assert MatchesFormat(s, 2);
    DateOfFields(s, 2, dd, mm, yy);
  }

  /** The date of a text whose fields are known. */
  lemma DateOfFields(s: string, i: nat, f0: string, f1: string, f2: string)
    requires i < 3 && Fields(s) == [f0, f1, f2] && MatchesFormat(s, i)
    ensures BirthDateOf(s) == CheckedDate(DateNumbers([f0, f1, f2], i))
  {
    BirthDateOfFields(s, i);
  }

  /** `scoreBirthDate` in `currentYear`: 0 without a date; otherwise +5 for
      an age from 0 to 120, +2 more from 18 to 100, +3 for the
      day-month-year form with a four-digit year and +2 more when day and
      month have two digits. */
  function ScoreBirthDate(s: string, currentYear: int): (score: int)
    ensures BirthDateOf(s).None? ==> score == 0
    ensures 0 <= score <= 12
    ensures score > 0 <==> BirthDateOf(s).Some? &&
                           (0 <= currentYear - BirthDateOf(s).value.year <= 120 || MatchesFormat(s, 0))
  {
    var parsed := BirthDateOf(s);
    if parsed.None? then 0
    else
      var age := currentYear - parsed.value.year;
      (if 0 <= age <= 120 then 5 else 0) +
      (if 18 <= age <= 100 then 2 else 0) +
      (if DateShape(s, 1, 2, 1, 2, 4, 4) then 3 else 0) +
      (if DateShape(s, 2, 2, 2, 2, 4, 4) then 2 else 0)
  }

  function DateScore(currentYear: int): string -> int {
    (s: string) => ScoreBirthDate(s, currentYear)
  }

  /** The `find` condition: a positive score and a date. */
  function Usable(currentYear: int): string -> bool {
    (s: string) => ScoreBirthDate(s, currentYear) > 0 && BirthDateOf(s).Some?
  }

  /** `selectBestBirthDate`: none for no candidates; otherwise, after
      sorting by descending score, the first with a positive score and a
      date. That is the first candidate with the highest score, if that
      score is positive. */
  function SelectBestBirthDate(possibleDates: seq<string>, currentYear: int): (r: Option<string>)
    ensures possibleDates == [] ==> r.None?
    ensures r.Some? ==> r.value in possibleDates && BirthDateOf(r.value).Some? && ScoreBirthDate(r.value, currentYear) > 0 &&
                        forall x :: x in possibleDates ==> ScoreBirthDate(x, currentYear) <= ScoreBirthDate(r.value, currentYear)
    ensures r.Some? ==> exists i :: 0 <= i < |possibleDates| && possibleDates[i] == r.value &&
                          forall j :: 0 <= j < i ==> ScoreBirthDate(possibleDates[j], currentYear) < ScoreBirthDate(r.value, currentYear)
    ensures r.None? && possibleDates != [] ==> forall x :: x in possibleDates ==> ScoreBirthDate(x, currentYear) <= 0
  {
    if possibleDates == [] then None
    else
      var sorted := Sort(Dedupe(possibleDates), ScoreKey(DateScore(currentYear)));
      var good := Filter(sorted, Usable(currentYear));
      TopIsMax(possibleDates, DateScore(currentYear));
      TopIsFirst(possibleDates, DateScore(currentYear));
      SortedWithin(possibleDates, DateScore(currentYear));
      FindUsable(sorted, currentYear);
      if good == [] then None else Some(good[0])
  }

  /** The sorted candidates are candidates, so none scores above the first. */
  lemma SortedWithin(possible: seq<string>, f: string -> int)
    requires possible != []
    ensures var sorted := Sort(Dedupe(possible), ScoreKey(f));
            forall k :: 0 <= k < |sorted| ==> f(sorted[k]) <= f(sorted[0])
  {
    var sorted := Sort(Dedupe(possible), ScoreKey(f));
    TopIsMax(possible, f);
    SortMembers(Dedupe(possible), ScoreKey(f));
    assert forall k :: 0 <= k < |sorted| ==> sorted[k] in possible;
  }

  /** The `find` takes the first sorted candidate when its score is
      positive, and finds nothing otherwise. */
  lemma FindUsable(sorted: seq<string>, currentYear: int)
    requires sorted != []
    requires forall k :: 0 <= k < |sorted| ==> ScoreBirthDate(sorted[k], currentYear) <= ScoreBirthDate(sorted[0], currentYear)
    ensures ScoreBirthDate(sorted[0], currentYear) > 0 ==>
              Filter(sorted, Usable(currentYear)) != [] && Filter(sorted, Usable(currentYear))[0] == sorted[0]
    ensures ScoreBirthDate(sorted[0], currentYear) <= 0 ==> Filter(sorted, Usable(currentYear)) == []
  {
    if ScoreBirthDate(sorted[0], currentYear) > 0 {
      FirstOfFilter(sorted, Usable(currentYear));
    } else {
      FilterNone(sorted, Usable(currentYear));
    }
  }

  // ---------------------------------------------------------------------------
  // the extraction and its confidence

  datatype ExtractedData = ExtractedData(patientId: Option<string>, birthDate: Option<string>,
                                         possibleIds: seq<string>, possibleDates: seq<string>,
                                         rawLines: seq<string>)

  /** `extractPatientInfo(text)` in `currentYear`. */
  method ExtractPatientInfo(text: string, currentYear: int) returns (data: ExtractedData)
    ensures data.rawLines == Lines(text)
    ensures data.possibleIds == Candidates(data.rawLines, IdPatterns)
    ensures data.possibleDates == Candidates(data.rawLines, DatePatterns)
    ensures data.patientId == SelectBestPatientId(data.possibleIds)
    ensures data.birthDate == SelectBestBirthDate(data.possibleDates, currentYear)
    ensures data.patientId.None? || data.patientId.value in data.possibleIds
    ensures data.birthDate.None? || data.birthDate.value in data.possibleDates
  {
    var lines := Lines(text);
    var ids := CollectCandidates(lines, IdPatterns);
    var dates := CollectCandidates(lines, DatePatterns);
    data := ExtractedData(SelectBestPatientId(ids), SelectBestBirthDate(dates, currentYear), ids, dates, lines);
  }

  /** A value JavaScript treats as true: present and not empty. */
  predicate Found(v: Option<string>) {
    v.Some? && v.value != ""
  }

  /** `calculateConfidence`: +50 per field found, +10 per candidate list with
      more than one entry, -10 per list with more than five, clamped to
      [0, 100]. Both fields give 100, one gives 50 to 70 and none at most
      20. */
  function CalculateConfidence(data: ExtractedData): (c: int)
    ensures 0 <= c <= 100
    ensures Found(data.patientId) && Found(data.birthDate) ==> c == 100
    ensures Found(data.patientId) != Found(data.birthDate) ==> 50 <= c <= 70
    ensures !Found(data.patientId) && !Found(data.birthDate) ==> c <= 20
  {
    var confidence :=
      (if Found(data.patientId) then 50 else 0) +
      (if Found(data.birthDate) then 50 else 0) +
      (if |data.possibleIds| > 1 then 10 else 0) +
      (if |data.possibleDates| > 1 then 10 else 0) -
      (if |data.possibleIds| > 5 then 10 else 0) -
      (if |data.possibleDates| > 5 then 10 else 0);
    Max(0, Min(100, confidence))
  }
}
