/** The values the vocabulary service keeps and the rules it applies to
    them, as functions of its in-memory indexes: how `loadData` indexes the
    stored rows, which correction `processTranscription` picks for each
    original and what applying the corrections in turn does to a text, how
    near-miss terms are ranked, and what `getStatistics` reports. */
module VocabularyRules {
  import opened Common
  import opened OrderedMaps
  import opened Ranking
  import opened Dexie
  import opened Levenshtein
  import opened WordMatch

  /** Times are milliseconds since the epoch. */
  datatype TermData = TermData(term: string, category: string, frequency: int, corrections: int,
                               createdAt: int, lastUsed: Option<int>)

  datatype CorrectionData = CorrectionData(original: string, corrected: string, frequency: int,
                                           createdAt: int, context: string)

  datatype CategoryData = CategoryData(name: string, description: string, color: string)

  /** The three object stores of the vocabulary database. */
  datatype Database = Database(terms: Table<TermData>, corrections: Table<CorrectionData>,
                               categories: Table<CategoryData>)
  {
    ghost predicate Valid() {
      terms.Valid() && corrections.Valid() && categories.Valid()
    }
  }

  type TermIndex = OrderedMap<string, Row<TermData>>
  type CorrectionIndex = OrderedMap<string, seq<Row<CorrectionData>>>
  type CategoryIndex = OrderedMap<string, Row<CategoryData>>

  // ---------------------------------------------------------------------------
  // Seed data

  const DefaultCategories: seq<CategoryData> := [
    CategoryData("Cardiologie Algemeen", "Algemene cardiologische termen", "bg-red-100 text-red-800"),
    CategoryData("Procedures", "Medische procedures en interventies", "bg-blue-100 text-blue-800"),
    CategoryData("Medicatie", "Geneesmiddelen en dosering", "bg-green-100 text-green-800"),
    CategoryData("Anatomie", "Anatomische structuren", "bg-purple-100 text-purple-800"),
    CategoryData("Diagnostiek", "Diagnostische termen en bevindingen", "bg-orange-100 text-orange-800"),
    CategoryData("Persoonlijk", "Persoonlijke toevoegingen", "bg-gray-100 text-gray-800")
  ]

  /** The seed terms as (term, category); all start with frequency 0. */
  const DefaultTerms: seq<(string, string)> := [
    ("echocardiogram", "Cardiologie Algemeen"),
    ("electrocardiogram", "Cardiologie Algemeen"),
    ("hartkatheterisatie", "Cardiologie Algemeen"),
    ("coronairangiografie", "Cardiologie Algemeen"),
    ("myocardinfarct", "Cardiologie Algemeen"),
    ("angina pectoris", "Cardiologie Algemeen"),
    ("atriumfibrilleren", "Cardiologie Algemeen"),
    ("hartfalen", "Cardiologie Algemeen"),
    ("hypertensie", "Cardiologie Algemeen"),
    ("bradycardie", "Cardiologie Algemeen"),
    ("tachycardie", "Cardiologie Algemeen"),
    ("percutane coronaire interventie", "Procedures"),
    ("ballondilatatie", "Procedures"),
    ("stentplaatsing", "Procedures"),
    ("pacemaker implantatie", "Procedures"),
    ("cardioversie", "Procedures"),
    ("ablatie", "Procedures"),
    ("bypassoperatie", "Procedures"),
    ("klepvervanging", "Procedures"),
    ("acetylsalicylzuur", "Medicatie"),
    ("clopidogrel", "Medicatie"),
    ("atorvastatine", "Medicatie"),
    ("metoprolol", "Medicatie"),
    ("lisinopril", "Medicatie"),
    ("furosemide", "Medicatie"),
    ("warfarine", "Medicatie"),
    ("digoxine", "Medicatie"),
    ("linker ventrikel", "Anatomie"),
    ("rechter ventrikel", "Anatomie"),
    ("linker atrium", "Anatomie"),
    ("rechter atrium", "Anatomie"),
    ("aortaklep", "Anatomie"),
    ("mitraalklep", "Anatomie"),
    ("tricuspidaalklep", "Anatomie"),
    ("pulmonaalklep", "Anatomie"),
    ("coronairarterie", "Anatomie"),
    ("circumflexarterie", "Anatomie"),
    ("systolische functie", "Diagnostiek"),
    ("diastolische functie", "Diagnostiek"),
    ("ejectiefractie", "Diagnostiek"),
    ("wandbewegingsstoornis", "Diagnostiek"),
    ("klepinsufficiëntie", "Diagnostiek"),
    ("klepstenose", "Diagnostiek"),
    ("pericardeffusie", "Diagnostiek"),
    ("troponine", "Diagnostiek")
  ]

  /** The seed lists of `initialize`: the default categories and the
      default terms as (term, category). */
  datatype Seed = Seed(categories: seq<CategoryData>, terms: seq<(string, string)>)

  /** The seed rows written on first start: no corrections yet, created
      now, never used. */
  function SeedTerms(terms: seq<(string, string)>, now: int): (rows: seq<TermData>)
    ensures |rows| == |terms|
    ensures forall i :: 0 <= i < |rows| ==>
              rows[i] == TermData(terms[i].0, terms[i].1, 0, 0, now, None)
  {
    seq(|terms|, i requires 0 <= i < |terms| => TermData(terms[i].0, terms[i].1, 0, 0, now, None))
  }

  /** `initialize` seeds a store only when it is empty. */
  function Seeded(db: Database, seed: Seed, now: int): (r: Database)
    requires db.Valid()
    ensures r.Valid()
    ensures db.categories.Count() == 0 ==> r.categories == db.categories.BulkAdd(seed.categories)
    ensures db.categories.Count() != 0 ==> r.categories == db.categories
    ensures db.terms.Count() == 0 ==> r.terms == db.terms.BulkAdd(SeedTerms(seed.terms, now))
    ensures db.terms.Count() != 0 ==> r.terms == db.terms
    ensures r.corrections == db.corrections
  {
    var cats := if db.categories.Count() == 0 then db.categories.BulkAdd(seed.categories) else db.categories;
    var terms := if db.terms.Count() == 0 then db.terms.BulkAdd(SeedTerms(seed.terms, now)) else db.terms;
    Database(terms, db.corrections, cats)
  }

  /** Several seed terms are more than one word. */
  lemma SeedHasMultiWordTerm()
    ensures DefaultTerms[5].0 == "angina pectoris" && ' ' in DefaultTerms[5].0
  {
    assert DefaultTerms[5].0[6] == ' ';
  }

  // ---------------------------------------------------------------------------
  // loadData: the in-memory indexes as functions of the stored rows

  /** Terms keyed by their lower-cased text; a later row with the same key
      replaces an earlier one. */
  function IndexTerms(rows: seq<Row<TermData>>): (m: TermIndex)
    ensures m.Valid()
    decreases |rows|
  {
    if rows == [] then Empty()
    else
      var r := rows[|rows| - 1];
      IndexTerms(rows[..|rows| - 1]).Set(ToLower(r.data.term), r)
  }

  /** Corrections grouped by their lower-cased original, groups in order
      of first appearance and each group in row order. */
  function GroupCorrections(rows: seq<Row<CorrectionData>>): (m: CorrectionIndex)
    ensures m.Valid()
    decreases |rows|
  {
    if rows == [] then Empty()
    else
      var r := rows[|rows| - 1];
      var m := GroupCorrections(rows[..|rows| - 1]);
      var key := ToLower(r.data.original);
      if m.Has(key) then m.Set(key, m.Get(key) + [r]) else m.Set(key, [r])
  }

  /** Categories keyed by their name. */
  function IndexCategories(rows: seq<Row<CategoryData>>): (m: CategoryIndex)
    ensures m.Valid()
    decreases |rows|
  {
    if rows == [] then Empty()
    else
      var r := rows[|rows| - 1];
      IndexCategories(rows[..|rows| - 1]).Set(r.data.name, r)
  }

  /** The index of `rows` is the index of all but the last row, with the
      last row set under its key. */
  lemma IndexTermsLast(rows: seq<Row<TermData>>)
    requires rows != []
    ensures var n := |rows| - 1;
            IndexTerms(rows).entries == IndexTerms(rows[..n]).entries[ToLower(rows[n].data.term) := rows[n]]
  {
  }

  /** Every term row is reachable under its lower-cased text. */
  lemma {:induction false} IndexTermsCovers(rows: seq<Row<TermData>>)
    ensures forall i :: 0 <= i < |rows| ==> ToLower(rows[i].data.term) in IndexTerms(rows).entries
    decreases |rows|
  {
    if rows != [] {
      var n := |rows| - 1;
      IndexTermsCovers(rows[..n]);
      IndexTermsLast(rows);
      CoversStep(rows, rows[..n], IndexTerms(rows[..n]).entries, IndexTerms(rows).entries);
    }
  }

  lemma CoversStep(rows: seq<Row<TermData>>, init: seq<Row<TermData>>,
                   before: map<string, Row<TermData>>, after: map<string, Row<TermData>>)
    requires rows != [] && init == rows[..|rows| - 1]
    requires forall i :: 0 <= i < |init| ==> ToLower(init[i].data.term) in before
    requires after == before[ToLower(rows[|rows| - 1].data.term) := rows[|rows| - 1]]
    ensures forall i :: 0 <= i < |rows| ==> ToLower(rows[i].data.term) in after
  {
    var n := |rows| - 1;
    forall i | 0 <= i < n ensures ToLower(rows[i].data.term) in after {
      assert rows[i] == init[i];
    }
  }

  /** Every key holds a row stored under that key, the last such row. */
  lemma {:induction false} IndexTermsLastWins(rows: seq<Row<TermData>>, k: string) returns (i: nat)
    requires k in IndexTerms(rows).entries
    ensures i < |rows| && IndexTerms(rows).entries[k] == rows[i] && ToLower(rows[i].data.term) == k
    ensures forall j :: i < j < |rows| ==> ToLower(rows[j].data.term) != k
    decreases |rows|
  {
    var n := |rows| - 1;
    IndexTermsLast(rows);
    if ToLower(rows[n].data.term) == k {
      i := n;
    } else {
      var init := rows[..n];
      assert k in IndexTerms(init).entries;
      i := IndexTermsLastWins(init, k);
      assert rows[i] == init[i];
      NoLaterKey(rows, init, i, k);
    }
  }

  lemma NoLaterKey(rows: seq<Row<TermData>>, init: seq<Row<TermData>>, i: nat, k: string)
    requires rows != [] && init == rows[..|rows| - 1] && ToLower(rows[|rows| - 1].data.term) != k
    requires forall j :: i < j < |init| ==> ToLower(init[j].data.term) != k
    ensures forall j :: i < j < |rows| ==> ToLower(rows[j].data.term) != k
  {
    var n := |rows| - 1;
    forall j | i < j < |rows| ensures ToLower(rows[j].data.term) != k {
      if j < n {
        assert rows[j] == init[j];
      }
    }
  }

  lemma IndexTermsSpec(rows: seq<Row<TermData>>)
    ensures forall i :: 0 <= i < |rows| ==> ToLower(rows[i].data.term) in IndexTerms(rows).entries
    ensures forall k :: k in IndexTerms(rows).entries ==>
              ToLower(IndexTerms(rows).entries[k].data.term) == k && IndexTerms(rows).entries[k] in rows
  {
    IndexTermsCovers(rows);
    forall k | k in IndexTerms(rows).entries
      ensures ToLower(IndexTerms(rows).entries[k].data.term) == k && IndexTerms(rows).entries[k] in rows
    {
      var i := IndexTermsLastWins(rows, k);
    }
  }

  function OriginalIs(k: string): Row<CorrectionData> -> bool {
    (r: Row<CorrectionData>) => ToLower(r.data.original) == k
  }

  /** Each group holds exactly the rows whose lower-cased original is its
      key, in row order, so every correction sits in one group only: the
      group of its own lower-cased original. No group is empty. */
  lemma {:induction false} GroupCorrectionsSpec(rows: seq<Row<CorrectionData>>)
    ensures forall i :: 0 <= i < |rows| ==> ToLower(rows[i].data.original) in GroupCorrections(rows).entries
    ensures forall k :: k in GroupCorrections(rows).entries ==>
              GroupCorrections(rows).entries[k] == Filter(rows, OriginalIs(k)) &&
              GroupCorrections(rows).entries[k] != []
    decreases |rows|
  {
    if rows != [] {
      var n := |rows| - 1;
      var init := rows[..n];
      var r := rows[n];
      assert rows == init + [r];
      GroupCorrectionsSpec(init);
      var m := GroupCorrections(init);
      var key := ToLower(r.data.original);
      forall i | 0 <= i < |rows| ensures ToLower(rows[i].data.original) in GroupCorrections(rows).entries {
        if i < n {
          assert rows[i] == init[i];
        }
      }
      forall k | k in GroupCorrections(rows).entries
        ensures GroupCorrections(rows).entries[k] == Filter(rows, OriginalIs(k))
        ensures GroupCorrections(rows).entries[k] != []
      {
        FilterAppend(init, r, OriginalIs(k));
        if k == key && !m.Has(key) {
          forall i | 0 <= i < |init| ensures !OriginalIs(k)(init[i]) {
            assert ToLower(init[i].data.original) in m.entries;
          }
          FilterNone(init, OriginalIs(k));
        }
      }
    }
  }

  function GroupSizes(keys: seq<string>, groups: map<string, seq<Row<CorrectionData>>>): nat
    decreases |keys|
  {
    if keys == [] then 0
    else (if keys[0] in groups then |groups[keys[0]]| else 0) + GroupSizes(keys[1..], groups)
  }

  /** The number of corrections held in memory, summed over the groups. */
  function TotalCorrections(m: CorrectionIndex): nat {
    GroupSizes(m.keys, m.entries)
  }

  lemma {:induction false} GroupSizesUpdate(keys: seq<string>, groups: map<string, seq<Row<CorrectionData>>>,
                                            k: string, g: seq<Row<CorrectionData>>)
    requires forall i, j :: 0 <= i < j < |keys| ==> keys[i] != keys[j]
    requires k in keys && k in groups
    ensures GroupSizes(keys, groups[k := g]) + |groups[k]| == GroupSizes(keys, groups) + |g|
    decreases |keys|
  {
    if keys[0] != k {
      GroupSizesUpdate(keys[1..], groups, k, g);
    } else {
      assert k !in keys[1..];
      GroupSizesFrame(keys[1..], groups, groups[k := g]);
    }
  }

  lemma {:induction false} GroupSizesFrame(keys: seq<string>, a: map<string, seq<Row<CorrectionData>>>,
                                           b: map<string, seq<Row<CorrectionData>>>)
    requires forall i :: 0 <= i < |keys| ==> (keys[i] in a <==> keys[i] in b) && (keys[i] in a ==> a[keys[i]] == b[keys[i]])
    ensures GroupSizes(keys, a) == GroupSizes(keys, b)
    decreases |keys|
  {
    if keys != [] {
      GroupSizesFrame(keys[1..], a, b);
    }
  }

  lemma {:induction false} GroupSizesAppend(keys: seq<string>, groups: map<string, seq<Row<CorrectionData>>>, k: string)
    requires k in groups
    ensures GroupSizes(keys + [k], groups) == GroupSizes(keys, groups) + |groups[k]|
    decreases |keys|
  {
    if keys == [] {
      assert [k][1..] == [];
    } else {
      assert (keys + [k])[1..] == keys[1..] + [k];
      GroupSizesAppend(keys[1..], groups, k);
    }
  }

  /** After loading, the groups hold as many corrections as the store. */
  lemma {:induction false} TotalCorrectionsAfterLoad(rows: seq<Row<CorrectionData>>)
    ensures TotalCorrections(GroupCorrections(rows)) == |rows|
    decreases |rows|
  {
    if rows != [] {
      var n := |rows| - 1;
      var r := rows[n];
      var m := GroupCorrections(rows[..n]);
      var key := ToLower(r.data.original);
      TotalCorrectionsAfterLoad(rows[..n]);
      GroupStep(m, key, r);
    }
  }

  /** Adding one row to a group, new or existing, adds one to the total. */
  lemma GroupStep(m: CorrectionIndex, key: string, r: Row<CorrectionData>)
    requires m.Valid()
    ensures TotalCorrections(if m.Has(key) then m.Set(key, m.Get(key) + [r]) else m.Set(key, [r])) ==
            TotalCorrections(m) + 1
  {
    if m.Has(key) {
      GroupSizesUpdate(m.keys, m.entries, key, m.Get(key) + [r]);
    } else {
      GroupSizesFrame(m.keys, m.entries, m.entries[key := [r]]);
      GroupSizesAppend(m.keys, m.entries[key := [r]], key);
    }
  }

  // ---------------------------------------------------------------------------
  // processTranscription

  /** The `reduce` that picks a group's correction: the running choice is
      kept only while its frequency is strictly higher. */
  function MostFrequent(g: seq<Row<CorrectionData>>): Row<CorrectionData>
    requires g != []
    decreases |g|
  {
    if |g| == 1 then g[0]
    else
      var prev := MostFrequent(g[..|g| - 1]);
      var cur := g[|g| - 1];
      if prev.data.frequency > cur.data.frequency then prev else cur
  }

  /** The chosen correction has the highest frequency of its group, and on
      a tie it is the last of those with that frequency. */
  lemma {:induction false} MostFrequentSpec(g: seq<Row<CorrectionData>>) returns (i: nat)
    requires g != []
    ensures i < |g| && g[i] == MostFrequent(g)
    ensures forall j :: 0 <= j < |g| ==> g[j].data.frequency <= g[i].data.frequency
    ensures forall j :: i < j < |g| ==> g[j].data.frequency < g[i].data.frequency
    decreases |g|
  {
    if |g| == 1 {
      i := 0;
    } else {
      var n := |g| - 1;
      var init := g[..n];
      var i0 := MostFrequentSpec(init);
      assert forall j :: 0 <= j < n ==> g[j] == init[j];
      if init[i0].data.frequency > g[n].data.frequency {
        i := i0;
      } else {
        i := n;
      }
    }
  }

  /** A learned correction as `processTranscription` applies it. */
  datatype Rule = Rule(original: string, corrected: string, frequency: int)

  datatype AppliedCorrection = AppliedCorrection(original: string, corrected: string, confidence: real)

  ghost predicate GroupsNonEmpty(m: CorrectionIndex) {
    forall k :: k in m.entries ==> m.entries[k] != []
  }

  /** One rule per group, in the map's order: the group's key and its most
      frequent correction. */
  function Rules(m: CorrectionIndex): (rules: seq<Rule>)
    requires m.Valid() && GroupsNonEmpty(m)
    ensures |rules| == |m.keys|
    ensures forall i :: 0 <= i < |rules| ==>
              rules[i] == Rule(m.keys[i], MostFrequent(m.entries[m.keys[i]]).data.corrected,
                               MostFrequent(m.entries[m.keys[i]]).data.frequency)
  {
    seq(|m.keys|, i requires 0 <= i < |m.keys| && m.Valid() && GroupsNonEmpty(m) =>
      var c := MostFrequent(m.entries[m.keys[i]]);
      Rule(m.keys[i], c.data.corrected, c.data.frequency))
  }

  /** `Math.min(frequency / 10, 1)`. */
  function Confidence(frequency: int): (c: real)
    ensures c <= 1.0
    ensures frequency >= 0 ==> 0.0 <= c
    ensures 10 <= frequency ==> c == 1.0
  {
    if frequency as real / 10.0 <= 1.0 then frequency as real / 10.0 else 1.0
  }

  datatype Applied = Applied(text: string, applied: seq<AppliedCorrection>)

  /** One turn of the loop: when the original occurs as a whole word, every
      occurrence is replaced and the correction is reported. */
  function ApplyRule(state: Applied, rule: Rule): (r: Applied)
    ensures !Matches(state.text, rule.original) ==> r == state
    ensures Matches(state.text, rule.original) ==>
              r.applied == state.applied + [AppliedCorrection(rule.original, rule.corrected, Confidence(rule.frequency))]
  {
    if Matches(state.text, rule.original) then
      Applied(ReplaceAll(state.text, rule.original, rule.corrected),
              state.applied + [AppliedCorrection(rule.original, rule.corrected, Confidence(rule.frequency))])
    else state
  }

  /** The rules applied in order, each to the text the previous ones left. */
  function ApplyRules(text: string, rules: seq<Rule>): Applied
    decreases |rules|
  {
    if rules == [] then Applied(text, [])
    else ApplyRule(ApplyRules(text, rules[..|rules| - 1]), rules[|rules| - 1])
  }

  /** The text rule `k` sees: what the rules before it made of the input. */
  function TextBefore(text: string, rules: seq<Rule>, k: nat): string
    requires k <= |rules|
  {
    ApplyRules(text, rules[..k]).text
  }

  function Originals(a: seq<AppliedCorrection>): seq<string> {
    Map(a, (c: AppliedCorrection) => c.original)
  }

  /** Rule `k` reported `c`: its original occurred as a whole word in the
      text it saw. */
  predicate ReportedAt(text: string, rules: seq<Rule>, k: nat, c: AppliedCorrection)
    requires k < |rules|
  {
    Matches(TextBefore(text, rules, k), rules[k].original) &&
    c == AppliedCorrection(rules[k].original, rules[k].corrected, Confidence(rules[k].frequency))
  }

  /** The reported corrections are exactly the rules, in order, whose
      original occurred as a whole word in the text as it stood when their
      turn came. */
  lemma {:induction false} AppliedExactly(text: string, rules: seq<Rule>)
    ensures |ApplyRules(text, rules).applied| <= |rules|
    ensures forall c :: c in ApplyRules(text, rules).applied <==> exists k :: 0 <= k < |rules| && ReportedAt(text, rules, k, c)
  {
    AppliedBound(text, rules);
    forall c ensures c in ApplyRules(text, rules).applied <==> exists k :: 0 <= k < |rules| && ReportedAt(text, rules, k, c) {
      AppliedAt(text, rules, c);
    }
  }

  lemma {:induction false} AppliedBound(text: string, rules: seq<Rule>)
    ensures |ApplyRules(text, rules).applied| <= |rules|
    decreases |rules|
  {
    if rules != [] {
      AppliedBound(text, rules[..|rules| - 1]);
    }
  }

  /** Later rules do not change what an earlier rule saw. */
  lemma ReportedAtPrefix(text: string, rules: seq<Rule>, k: nat, c: AppliedCorrection)
    requires k < |rules| - 1
    ensures ReportedAt(text, rules, k, c) == ReportedAt(text, rules[..|rules| - 1], k, c)
  {
    assert rules[..|rules| - 1][..k] == rules[..k];
  }

  lemma {:induction false} AppliedAt(text: string, rules: seq<Rule>, c: AppliedCorrection)
    ensures c in ApplyRules(text, rules).applied <==> exists k :: 0 <= k < |rules| && ReportedAt(text, rules, k, c)
    decreases |rules|
  {
    if rules != [] {
      var n := |rules| - 1;
      var init := rules[..n];
      AppliedAt(text, init, c);
      var prev := ApplyRules(text, init);
      assert ApplyRules(text, rules) == ApplyRule(prev, rules[n]);
      assert rules[..n] == init;
      assert TextBefore(text, rules, n) == prev.text;
      if c in ApplyRules(text, rules).applied {
        if c in prev.applied {
          var k :| 0 <= k < |init| && ReportedAt(text, init, k, c);
          ReportedAtPrefix(text, rules, k, c);
        } else {
          assert ReportedAt(text, rules, n, c);
        }
      }
      if exists k :: 0 <= k < |rules| && ReportedAt(text, rules, k, c) {
        var k :| 0 <= k < |rules| && ReportedAt(text, rules, k, c);
        if k < n {
          ReportedAtPrefix(text, rules, k, c);
        }
      }
    }
  }

  /** Rules run in order, so a later rule sees what an earlier one wrote:
      with "a" corrected to "b" and then "b" to "c", the text "a" ends up
      as "c". */
  lemma LaterRuleSeesEarlier()
    ensures ApplyRules("a", [Rule("a", "b", 1), Rule("b", "c", 1)]).text == "c"
  {
    var rules := [Rule("a", "b", 1), Rule("b", "c", 1)];
    assert rules[..1] == [Rule("a", "b", 1)];
    assert [Rule("a", "b", 1)][..0] == [];
    SingleLetter('a', 'b');
    assert ApplyRules("a", rules[..1]).text == "b";
    SingleLetter('b', 'c');
  }

  /** Applying the corrections is not idempotent: with "b" corrected to "c"
      and then "a" to "b", one pass turns "a" into "b" and a second pass
      turns that into "c". */
  lemma ApplyRulesNotIdempotent()
    ensures ApplyRules("a", [Rule("b", "c", 1), Rule("a", "b", 1)]).text == "b"
    ensures ApplyRules("b", [Rule("b", "c", 1), Rule("a", "b", 1)]).text == "c"
  {
    var rules := [Rule("b", "c", 1), Rule("a", "b", 1)];
    assert rules[..1] == [Rule("b", "c", 1)];
    assert [Rule("b", "c", 1)][..0] == [];
    SingleLetter('a', 'b');
    SingleLetter('b', 'c');
    OtherLetter('b', 'a');
    OtherLetter('a', 'b');
    OtherLetter('c', 'a');
  }

  /** A one-letter word is an occurrence of itself and is replaced whole. */
  lemma SingleLetter(x: char, y: char)
    requires 'a' <= x <= 'z' && 'a' <= y <= 'z'
    ensures Matches([x], [x])
    ensures ReplaceAll([x], [x], [y]) == [y]
  {
    assert [x][0..1] == [x];
    assert MatchAt([x], [x], 0);
    ReplaceWhole([x], [y]);
  }

  /** A one-letter word does not contain another letter. */
  lemma OtherLetter(x: char, y: char)
    requires 'a' <= x <= 'z' && 'a' <= y <= 'z' && x != y
    ensures !Matches([x], [y])
  {
    assert !MatchAt([x], [y], 0) by {
      assert ToLower([x][0..1]) == [x];
      assert ToLower([y]) == [y];
    }
    assert !MatchAt([x], [y], 1);
    assert !MatchesFrom([x], [y], 1);
  }

  // ---------------------------------------------------------------------------
  // term frequencies

  /** One `incrementTermFrequency(word)`, on the index and the store. */
  function Bump(terms: TermIndex, store: Table<TermData>, word: string, now: int): (r: (TermIndex, Table<TermData>))
    requires terms.Valid() && store.Valid()
    ensures r.0.Valid() && r.1.Valid()
    ensures r.0.keys == terms.keys && r.0.entries.Keys == terms.entries.Keys
  {
    var key := ToLower(word);
    if terms.Has(key) then
      var t := terms.Get(key);
      var bumped := t.data.(frequency := t.data.frequency + 1, lastUsed := Some(now));
      (terms.Set(key, Row(t.id, bumped)),
       store.Update(t.id, (d: TermData) => d.(frequency := t.data.frequency + 1, lastUsed := Some(now))))
    else (terms, store)
  }

  /** The frequency loop of `processTranscription`: every token that is a
      term key is counted once more. */
  function BumpAll(terms: TermIndex, store: Table<TermData>, words: seq<string>, now: int): (r: (TermIndex, Table<TermData>))
    requires terms.Valid() && store.Valid()
    ensures r.0.Valid() && r.1.Valid()
    ensures r.0.keys == terms.keys && r.0.entries.Keys == terms.entries.Keys
    decreases |words|
  {
    if words == [] then (terms, store)
    else
      var p := BumpAll(terms, store, words[..|words| - 1], now);
      var w := words[|words| - 1];
      if p.0.Has(w) then Bump(p.0, p.1, w, now) else p
  }

  /** `after` is `before` with its frequency `n` higher and perhaps another
      time of last use. */
  predicate BumpedBy(before: Row<TermData>, after: Row<TermData>, n: int) {
    after.id == before.id && after.data.frequency == before.data.frequency + n &&
    after.data.term == before.data.term && after.data.category == before.data.category &&
    after.data.corrections == before.data.corrections && after.data.createdAt == before.data.createdAt
  }

  /** Each term's frequency goes up by the number of tokens equal to its
      key, when the tokens are lower case; nothing else about it changes
      but the time of last use. */
  lemma {:induction false} BumpAllCounts(terms: TermIndex, store: Table<TermData>, words: seq<string>, now: int, k: string)
    requires terms.Valid() && store.Valid() && k in terms.entries
    requires forall i :: 0 <= i < |words| ==> ToLower(words[i]) == words[i]
    ensures BumpedBy(terms.entries[k], BumpAll(terms, store, words, now).0.entries[k], Count(words, k))
    decreases |words|
  {
    if words != [] {
      var n := |words| - 1;
      BumpAllCounts(terms, store, words[..n], now, k);
      CountLast(words, k);
      BumpAllLast(terms, store, words, now, k, Count(words[..n], k));
    }
  }

  /** The last token bumps the term under its key and no other. */
  lemma BumpAllLast(terms: TermIndex, store: Table<TermData>, words: seq<string>, now: int, k: string, c: int)
    requires terms.Valid() && store.Valid() && k in terms.entries && words != []
    requires ToLower(words[|words| - 1]) == words[|words| - 1]
    requires BumpedBy(terms.entries[k], BumpAll(terms, store, words[..|words| - 1], now).0.entries[k], c)
    ensures BumpedBy(terms.entries[k], BumpAll(terms, store, words, now).0.entries[k],
                     c + if words[|words| - 1] == k then 1 else 0)
  {
    var n := |words| - 1;
    var p := BumpAll(terms, store, words[..n], now);
    var r := BumpAll(terms, store, words, now);
    assert r == if p.0.Has(words[n]) then Bump(p.0, p.1, words[n], now) else p;
    BumpStep(p.0, p.1, words[n], now, k);
    BumpedByTrans(terms.entries[k], p.0.entries[k], r.0.entries[k], c, if words[n] == k then 1 else 0);
  }

  lemma CountLast(words: seq<string>, k: string)
    requires words != []
    ensures Count(words, k) == Count(words[..|words| - 1], k) + (if words[|words| - 1] == k then 1 else 0)
  {
    var n := |words| - 1;
    assert words == words[..n] + [words[n]];
    CountAppend(words[..n], words[n], k);
  }

  /** One lower-case token bumps the term under its key and no other. */
  lemma BumpStep(terms: TermIndex, store: Table<TermData>, w: string, now: int, k: string)
    requires terms.Valid() && store.Valid() && k in terms.entries && ToLower(w) == w
    ensures var r := if terms.Has(w) then Bump(terms, store, w, now).0 else terms;
            BumpedBy(terms.entries[k], r.entries[k], if w == k then 1 else 0)
  {
  }

  lemma BumpedByTrans(a: Row<TermData>, b: Row<TermData>, c: Row<TermData>, n: int, m: int)
    requires BumpedBy(a, b, n) && BumpedBy(b, c, m)
    ensures BumpedBy(a, c, n + m)
  {
  }

  /** A key with whitespace in it is never a whitespace token, so a
      multi-word term such as "angina pectoris" is never counted. */
  lemma MultiWordNeverCounted(terms: TermIndex, store: Table<TermData>, text: string, now: int, k: string)
    requires terms.Valid() && store.Valid() && k in terms.entries
    requires exists i :: 0 <= i < |k| && IsSpace(k[i])
    ensures BumpAll(terms, store, SplitWhitespace(ToLower(text)), now).0.entries[k].data.frequency ==
            terms.entries[k].data.frequency
  {
    var words := SplitWhitespace(ToLower(text));
    SplitWhitespaceNoSpace(ToLower(text));
    assert k !in words;
    CountAbsent(words, k);
    LowerTokens(ToLower(text));
    BumpAllCounts(terms, store, words, now, k);
  }

  /** The seeded 'angina pectoris' is never counted by a transcription:
      the words of a text hold no whitespace. */
  lemma SeededMultiWordNeverCounted(terms: TermIndex, store: Table<TermData>, text: string, now: int)
    requires terms.Valid() && store.Valid() && DefaultTerms[5].0 in terms.entries
    ensures var k := DefaultTerms[5].0;
            BumpAll(terms, store, SplitWhitespace(ToLower(text)), now).0.entries[k].data.frequency ==
            terms.entries[k].data.frequency
  {
    SeedHasMultiWordTerm();
    assert IsSpace(DefaultTerms[5].0[6]);
    MultiWordNeverCounted(terms, store, text, now, DefaultTerms[5].0);
  }

  /** The tokens of a lower-cased text are lower case. */
  lemma LowerTokens(s: string)
    requires ToLower(s) == s
    ensures forall i :: 0 <= i < |SplitWhitespace(s)| ==> ToLower(SplitWhitespace(s)[i]) == SplitWhitespace(s)[i]
  {
    TokensOf(s);
  }

  lemma {:induction false} TokensOf(s: string)
    requires ToLower(s) == s
    ensures forall i :: 0 <= i < |SplitWhitespace(s)| ==> ToLower(SplitWhitespace(s)[i]) == SplitWhitespace(s)[i]
    decreases |s|
  {
    if |s| > 0 {
      if IsSpace(s[0]) {
        var t := TrimStart(s);
        assert t == s[|s| - |t|..];
        TokensOf(t);
      } else {
        assert ToLower(s[1..]) == s[1..];
        TokensOf(s[1..]);
        var rest := SplitWhitespace(s[1..]);
        assert ToLower([s[0]] + rest[0]) == [s[0]] + rest[0] by {
          assert LowerChar(s[0]) == s[0];
        }
      }
    }
  }

  // ---------------------------------------------------------------------------
  // findSimilarTerms and getSuggestions

  datatype SimilarTerm = SimilarTerm(term: string, distance: nat, frequency: int, category: string)

  datatype Suggestion = Suggestion(original: string, suggestions: seq<SimilarTerm>)

  /** The candidates of `findSimilarTerms`, in the map's order, before sorting. */
  function Candidates(terms: TermIndex, word: string, maxDistance: int, n: nat): (c: seq<SimilarTerm>)
    requires terms.Valid() && n <= |terms.keys|
    ensures |c| <= n
    decreases n
  {
    if n == 0 then []
    else
      var key := terms.keys[n - 1];
      var data := terms.entries[key].data;
      var d := Lev(word, key);
      Candidates(terms, word, maxDistance, n - 1) +
      (if d <= maxDistance && d > 0 then [SimilarTerm(data.term, d, data.frequency, data.category)] else [])
  }

  /** Ascending distance, ties broken by descending frequency. */
  function SimilarKey(s: SimilarTerm): Key {
    (s.distance, -s.frequency)
  }

  function SimilarTerms(terms: TermIndex, word: string, maxDistance: int): seq<SimilarTerm>
    requires terms.Valid()
  {
    Sort(Candidates(terms, word, maxDistance, |terms.keys|), SimilarKey)
  }

  lemma {:induction false} CandidatesSpec(terms: TermIndex, word: string, maxDistance: int, n: nat)
    requires terms.Valid() && n <= |terms.keys|
    ensures forall s :: s in Candidates(terms, word, maxDistance, n) <==>
              exists i :: 0 <= i < n && 0 < Lev(word, terms.keys[i]) <= maxDistance &&
                s == SimilarOf(terms.entries[terms.keys[i]].data, Lev(word, terms.keys[i]))
    decreases n
  {
    if n > 0 {
      CandidatesSpec(terms, word, maxDistance, n - 1);
    }
  }

  function SimilarOf(data: TermData, d: nat): SimilarTerm {
    SimilarTerm(data.term, d, data.frequency, data.category)
  }

  /** A term is suggested exactly when its key is at distance 1 to
      `maxDistance` from the word; the suggestion carries the stored text,
      frequency and category. */
  lemma SimilarTermsMembers(terms: TermIndex, word: string, maxDistance: int)
    requires terms.Valid()
    ensures forall s :: s in SimilarTerms(terms, word, maxDistance) <==>
              exists k :: NearMiss(terms, word, maxDistance, k, s)
  {
    var c := Candidates(terms, word, maxDistance, |terms.keys|);
    CandidatesSpec(terms, word, maxDistance, |terms.keys|);
    SortMembers(c, SimilarKey);
    forall s | s in c ensures exists k :: NearMiss(terms, word, maxDistance, k, s) {
      var i :| 0 <= i < |terms.keys| && 0 < Lev(word, terms.keys[i]) <= maxDistance &&
               s == SimilarOf(terms.entries[terms.keys[i]].data, Lev(word, terms.keys[i]));
      assert NearMiss(terms, word, maxDistance, terms.keys[i], s);
    }
    forall s, k | NearMiss(terms, word, maxDistance, k, s) ensures s in c {
      var i :| 0 <= i < |terms.keys| && terms.keys[i] == k;
    }
  }

  /** Key `k` is at distance 1 to `maxDistance` from the word, and `s` is
      the suggestion made from its stored term. */
  predicate NearMiss(terms: TermIndex, word: string, maxDistance: int, k: string, s: SimilarTerm) {
    k in terms.entries && 0 < Lev(word, k) <= maxDistance && s == SimilarOf(terms.entries[k].data, Lev(word, k))
  }

  /** The list is ranked by distance and then by descending frequency. */
  lemma SimilarTermsSorted(terms: TermIndex, word: string, maxDistance: int)
    requires terms.Valid()
    ensures SortedBy(SimilarTerms(terms, word, maxDistance), SimilarKey)
  {
    SortSorted(Candidates(terms, word, maxDistance, |terms.keys|), SimilarKey);
  }

  /** At most three suggestions per word: `similar.slice(0, 3)`. */
  function Top3(s: seq<SimilarTerm>): (r: seq<SimilarTerm>)
    ensures |r| <= 3 && r <= s
    ensures |s| > 0 ==> |r| > 0
  {
    if |s| <= 3 then s else s[..3]
  }

  /** The entry for one token: none for a term key or a token without a
      near-miss term, otherwise its best three near misses. */
  function Entry(terms: TermIndex, w: string): Option<Suggestion>
    requires terms.Valid()
  {
    if !terms.Has(w) && |SimilarTerms(terms, w, 2)| > 0 then Some(Suggestion(w, Top3(SimilarTerms(terms, w, 2))))
    else None
  }

  function EntryOf(terms: TermIndex): string -> Option<Suggestion>
    requires terms.Valid()
  {
    w => Entry(terms, w)
  }

  /** The suggestions for a list of tokens: the entries of the tokens, in
      order. */
  function SuggestionsFor(terms: TermIndex, words: seq<string>): seq<Suggestion>
    requires terms.Valid()
  {
    Collect(words, EntryOf(terms))
  }

  /** `getSuggestions(text)`: the text is lower-cased and split on runs of
      whitespace. */
  function Suggestions(terms: TermIndex, text: string): seq<Suggestion>
    requires terms.Valid()
  {
    SuggestionsFor(terms, SplitWhitespace(ToLower(text)))
  }

  /** The entry `s` is the one made for token `w`: no key, with a near-miss
      term, and its best three near misses. */
  predicate SuggestedFor(terms: TermIndex, w: string, s: Suggestion)
    requires terms.Valid()
  {
    !terms.Has(w) && |SimilarTerms(terms, w, 2)| > 0 && s == Suggestion(w, Top3(SimilarTerms(terms, w, 2)))
  }

  /** An entry is made exactly for the tokens that are no key and have a
      near-miss term, and it holds between one and three of them, best
      first. */
  lemma SuggestionsSpec(terms: TermIndex, words: seq<string>)
    requires terms.Valid()
    ensures forall s :: s in SuggestionsFor(terms, words) <==>
              exists i :: 0 <= i < |words| && SuggestedFor(terms, words[i], s)
    ensures forall s :: s in SuggestionsFor(terms, words) ==>
              1 <= |s.suggestions| <= 3 && s.suggestions <= SimilarTerms(terms, s.original, 2)
  {
    forall s | s in SuggestionsFor(terms, words)
      ensures exists i :: 0 <= i < |words| && SuggestedFor(terms, words[i], s)
      ensures 1 <= |s.suggestions| <= 3 && s.suggestions <= SimilarTerms(terms, s.original, 2)
    {
      var i := SuggestionSource(terms, words, s);
    }
    forall s, i | 0 <= i < |words| && SuggestedFor(terms, words[i], s) ensures s in SuggestionsFor(terms, words) {
      SuggestionMade(terms, words, i, s);
    }
  }

  /** Every entry comes from a token. */
  lemma SuggestionSource(terms: TermIndex, words: seq<string>, s: Suggestion) returns (i: nat)
    requires terms.Valid() && s in SuggestionsFor(terms, words)
    ensures i < |words| && SuggestedFor(terms, words[i], s)
  {
    i := CollectSource(words, EntryOf(terms), s);
    assert Entry(terms, words[i]) == Some(s);
  }

  /** Every token with an entry gets it. */
  lemma SuggestionMade(terms: TermIndex, words: seq<string>, i: nat, s: Suggestion)
    requires terms.Valid() && i < |words| && SuggestedFor(terms, words[i], s)
    ensures s in SuggestionsFor(terms, words)
  {
    assert EntryOf(terms)(words[i]) == Some(s);
    CollectMade(words, EntryOf(terms), i);
  }

  // ---------------------------------------------------------------------------
  // getStatistics

  /** `categoryStats`: the number of terms per category, categories in
      order of first appearance among the terms. */
  function CategoryCounts(values: seq<Row<TermData>>): (m: OrderedMap<string, nat>)
    ensures m.Valid()
    decreases |values|
  {
    if values == [] then Empty()
    else
      CountOneMore(CategoryCounts(values[..|values| - 1]), values[|values| - 1].data.category)
  }

  /** One more term of category `c`: its count goes up, or it is listed
      last with count 1. */
  function CountOneMore(m: OrderedMap<string, nat>, c: string): (m2: OrderedMap<string, nat>)
    requires m.Valid()
    ensures m2.Valid()
  {
    if m.Has(c) then m.Set(c, m.Get(c) + 1) else m.Set(c, 1)
  }

  function CategoryIs(c: string): Row<TermData> -> bool {
    (t: Row<TermData>) => t.data.category == c
  }

  function SumCounts(keys: seq<string>, m: map<string, nat>): nat
    decreases |keys|
  {
    if keys == [] then 0 else (if keys[0] in m then m[keys[0]] else 0) + SumCounts(keys[1..], m)
  }

  /** Each category is counted as often as terms carry it, every term's
      category is listed, and the counts add up to the number of terms. */
  lemma CategoryCountsSpec(values: seq<Row<TermData>>)
    ensures forall c :: c in CategoryCounts(values).entries ==>
              CategoryCounts(values).entries[c] == |Filter(values, CategoryIs(c))|
    ensures forall i :: 0 <= i < |values| ==> values[i].data.category in CategoryCounts(values).entries
    ensures SumCounts(CategoryCounts(values).keys, CategoryCounts(values).entries) == |values|
  {
    CategoryCountsExact(values);
    CategoryCountsListed(values);
    CategoryCountsSum(values);
  }

  lemma {:induction false} CategoryCountsListed(values: seq<Row<TermData>>)
    ensures forall i :: 0 <= i < |values| ==> values[i].data.category in CategoryCounts(values).entries
    decreases |values|
  {
    if values != [] {
      var n := |values| - 1;
      var init := values[..n];
      CategoryCountsListed(init);
      forall i | 0 <= i < |values| ensures values[i].data.category in CategoryCounts(values).entries {
        if i < n {
          assert values[i] == init[i];
        }
      }
    }
  }

  lemma {:induction false} CategoryCountsExact(values: seq<Row<TermData>>)
    ensures forall c :: c in CategoryCounts(values).entries ==>
              CategoryCounts(values).entries[c] == |Filter(values, CategoryIs(c))|
    decreases |values|
  {
    if values != [] {
      var n := |values| - 1;
      var init := values[..n];
      var t := values[n];
      assert values == init + [t];
      CategoryCountsExact(init);
      CategoryCountsListed(init);
      var m := CategoryCounts(init);
      var c := t.data.category;
      forall k | k in CategoryCounts(values).entries
        ensures CategoryCounts(values).entries[k] == |Filter(values, CategoryIs(k))|
      {
        FilterAppend(init, t, CategoryIs(k));
        if k == c && !m.Has(c) {
          forall i | 0 <= i < |init| ensures !CategoryIs(k)(init[i]) {
            assert init[i].data.category in m.entries;
          }
          FilterNone(init, CategoryIs(k));
        }
      }
    }
  }

  lemma {:induction false} CategoryCountsSum(values: seq<Row<TermData>>)
    ensures SumCounts(CategoryCounts(values).keys, CategoryCounts(values).entries) == |values|
    decreases |values|
  {
    if values != [] {
      CategoryCountsSum(values[..|values| - 1]);
      CountStep(CategoryCounts(values[..|values| - 1]), values[|values| - 1].data.category);
    }
  }

  /** Counting one more term of a category, new or listed, adds one to the
      sum. */
  lemma CountStep(m: OrderedMap<string, nat>, c: string)
    requires m.Valid()
    ensures SumCounts(CountOneMore(m, c).keys, CountOneMore(m, c).entries) == SumCounts(m.keys, m.entries) + 1
  {
    if m.Has(c) {
      SumCountsUpdate(m.keys, m.entries, c, m.Get(c) + 1);
    } else {
      SumCountsFrame(m.keys, m.entries, m.entries[c := 1]);
      SumCountsAppend(m.keys, m.entries[c := 1], c);
    }
  }

  lemma {:induction false} SumCountsUpdate(keys: seq<string>, m: map<string, nat>, k: string, v: nat)
    requires forall i, j :: 0 <= i < j < |keys| ==> keys[i] != keys[j]
    requires k in keys && k in m
    ensures SumCounts(keys, m[k := v]) + m[k] == SumCounts(keys, m) + v
    decreases |keys|
  {
    if keys[0] != k {
      SumCountsUpdate(keys[1..], m, k, v);
    } else {
      assert k !in keys[1..];
      SumCountsFrame(keys[1..], m, m[k := v]);
    }
  }

  lemma {:induction false} SumCountsFrame(keys: seq<string>, a: map<string, nat>, b: map<string, nat>)
    requires forall i :: 0 <= i < |keys| ==> (keys[i] in a <==> keys[i] in b) && (keys[i] in a ==> a[keys[i]] == b[keys[i]])
    ensures SumCounts(keys, a) == SumCounts(keys, b)
    decreases |keys|
  {
    if keys != [] {
      SumCountsFrame(keys[1..], a, b);
    }
  }

  lemma {:induction false} SumCountsAppend(keys: seq<string>, m: map<string, nat>, k: string)
    requires k in m
    ensures SumCounts(keys + [k], m) == SumCounts(keys, m) + m[k]
    decreases |keys|
  {
    if keys == [] {
      assert [k][1..] == [];
    } else {
      assert (keys + [k])[1..] == keys[1..] + [k];
      SumCountsAppend(keys[1..], m, k);
    }
  }

  /** Descending frequency. */
  function UsageKey(t: Row<TermData>): Key {
    (-t.data.frequency, 0)
  }

  /** `mostUsedTerms`: the terms sorted by descending frequency, the first ten. */
  function MostUsed(values: seq<Row<TermData>>): (top: seq<Row<TermData>>)
    ensures |top| == Min(10, |values|)
  {
    var sorted := Sort(values, UsageKey);
    if |sorted| <= 10 then sorted else sorted[..10]
  }

  /** At most ten terms, by descending frequency, all of them terms; any
      term left out is used no more often than every term listed. */
  lemma MostUsedSpec(values: seq<Row<TermData>>)
    ensures |MostUsed(values)| <= 10
    ensures forall i, j :: 0 <= i < j < |MostUsed(values)| ==>
              MostUsed(values)[i].data.frequency >= MostUsed(values)[j].data.frequency
    ensures multiset(MostUsed(values)) <= multiset(values)
    ensures forall t :: t in values && t !in MostUsed(values) ==>
              forall u :: u in MostUsed(values) ==> u.data.frequency >= t.data.frequency
  {
    var sorted := Sort(values, UsageKey);
    SortSorted(values, UsageKey);
    var top := MostUsed(values);
    assert top == sorted[..|top|];
    assert multiset(sorted) == multiset(sorted[..|top|]) + multiset(sorted[|top|..]) by {
      assert sorted == sorted[..|top|] + sorted[|top|..];
    }
    forall t, u | t in values && t !in top && u in top
      ensures u.data.frequency >= t.data.frequency
    {
      assert t in multiset(sorted);
      LeftOutUsedLess(sorted, |top|, t, u);
    }
  }

  /** In a list by descending frequency, a term past the first `k` is used
      no more often than any of them. */
  lemma LeftOutUsedLess(sorted: seq<Row<TermData>>, k: nat, t: Row<TermData>, u: Row<TermData>)
    requires SortedBy(sorted, UsageKey) && k <= |sorted|
    requires t in sorted && t !in sorted[..k] && u in sorted[..k]
    ensures u.data.frequency >= t.data.frequency
  {
    var j :| 0 <= j < |sorted| && sorted[j] == t;
    var i :| 0 <= i < k && sorted[..k][i] == u;
    assert forall x :: 0 <= x < k ==> sorted[..k][x] == sorted[x];
    assert j >= k;
    assert KeyLe(UsageKey(sorted[i]), UsageKey(sorted[j]));
  }

  datatype Statistics = Statistics(totalTerms: nat, totalCorrections: nat,
                                   categoryStats: OrderedMap<string, nat>, mostUsedTerms: seq<Row<TermData>>)

  /** `exportVocabulary`: the stored rows of each table, the export time
      and the format version. */
  datatype Export = Export(terms: seq<Row<TermData>>, corrections: seq<Row<CorrectionData>>,
                           categories: seq<Row<CategoryData>>, exportDate: int, version: string)

  /** `importVocabulary`'s argument: each table's records are optional. */
  datatype ImportData = ImportData(terms: Option<seq<PutItem<TermData>>>,
                                   corrections: Option<seq<PutItem<CorrectionData>>>,
                                   categories: Option<seq<PutItem<CategoryData>>>)

  function ImportTable<R>(t: Table<R>, items: Option<seq<PutItem<R>>>): (r: Table<R>)
    requires t.Valid()
    ensures r.Valid()
    ensures items.None? ==> r == t
  {
    match items
    case None => t
    case Some(xs) => t.BulkPut(xs)
  }

  /** The records of an export, each under its own key. */
  function AsPutItems<R>(rows: seq<Row<R>>): (items: seq<PutItem<R>>)
    ensures |items| == |rows|
    ensures forall i :: 0 <= i < |rows| ==> items[i] == PutItem(Some(rows[i].id), rows[i].data)
  {
    seq(|rows|, i requires 0 <= i < |rows| => PutItem(Some(rows[i].id), rows[i].data))
  }

  /** Importing a table's own export gives back the same rows. */
  lemma ImportOwnExport<R>(t: Table<R>)
    requires t.Valid()
    ensures ImportTable(t, Some(AsPutItems(t.rows))).rows == t.rows
  {
    BulkPutAsPutAll(t, t.rows);
    PutExistingRows(t.rows, |t.rows|);
    assert t.rows[..|t.rows|] == t.rows;
  }

  lemma {:induction false} BulkPutAsPutAll<R>(t: Table<R>, rows: seq<Row<R>>)
    requires t.Valid()
    ensures t.BulkPut(AsPutItems(rows)).rows == PutAll(t.rows, rows)
    decreases |rows|
  {
    if rows != [] {
      var t1 := t.PutItemIn(AsPutItems(rows)[0]);
      assert t1 == t.Put(rows[0]);
      assert AsPutItems(rows)[1..] == AsPutItems(rows[1..]);
      BulkPutAsPutAll(t1, rows[1..]);
    }
  }
}
