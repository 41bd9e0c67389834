/** The vocabulary service: an in-memory index over the vocabulary
    database, kept in step with it by `loadData`. The database, a module
    singleton in the application, is the service's `db` field here. */
module Vocabulary {
  import opened Common
  import opened OrderedMaps
  import opened Ranking
  import opened Dexie
  import opened Levenshtein
  import opened WordMatch
  import opened VocabularyRules

  datatype TranscriptionResult = TranscriptionResult(originalText: string, processedText: string,
                                                     appliedCorrections: seq<AppliedCorrection>,
                                                     suggestions: seq<Suggestion>)

  /** The first stored correction for this pair: same original up to case,
      same corrected text. */
  function FindPair(rows: seq<Row<CorrectionData>>, original: string, corrected: string): (r: Option<Row<CorrectionData>>)
    ensures r.Some? ==> r.value in rows && ToLower(r.value.data.original) == ToLower(original) &&
                        r.value.data.corrected == corrected
    ensures r.None? ==> forall i :: 0 <= i < |rows| ==>
              !(ToLower(rows[i].data.original) == ToLower(original) && rows[i].data.corrected == corrected)
    decreases |rows|
  {
    if rows == [] then None
    else if ToLower(rows[0].data.original) == ToLower(original) && rows[0].data.corrected == corrected then Some(rows[0])
    else FindPair(rows[1..], original, corrected)
  }

  /** The term loop of `loadData`. */
  method LoadTerms(rows: seq<Row<TermData>>) returns (m: TermIndex)
    ensures m == IndexTerms(rows)
  {
    m := Empty();
    for i := 0 to |rows|
      invariant m == IndexTerms(rows[..i])
    {
      assert rows[..i + 1][..i] == rows[..i];
      m := m.Set(ToLower(rows[i].data.term), rows[i]);
    }
    assert rows[..|rows|] == rows;
  }

  /** The correction loop of `loadData`: a new key starts an empty group,
      then the row joins its key's group. */
  method LoadCorrections(rows: seq<Row<CorrectionData>>) returns (m: CorrectionIndex)
    ensures m == GroupCorrections(rows)
  {
    m := Empty();
    for i := 0 to |rows|
      invariant m == GroupCorrections(rows[..i])
    {
      assert rows[..i + 1][..i] == rows[..i];
      ghost var before := m;
      var key := ToLower(rows[i].data.original);
      if !m.Has(key) {
        m := m.Set(key, []);
      }
      m := m.Set(key, m.Get(key) + [rows[i]]);
      if !before.Has(key) {
        assert [] + [rows[i]] == [rows[i]];
        SetTwice(before, key, [], [rows[i]]);
      }
    }
    assert rows[..|rows|] == rows;
  }

  /** The category loop of `loadData`. */
  method LoadCategories(rows: seq<Row<CategoryData>>) returns (m: CategoryIndex)
    ensures m == IndexCategories(rows)
  {
    m := Empty();
    for i := 0 to |rows|
      invariant m == IndexCategories(rows[..i])
    {
      assert rows[..i + 1][..i] == rows[..i];
      m := m.Set(rows[i].data.name, rows[i]);
    }
    assert rows[..|rows|] == rows;
  }

  /** The correction loop of `processTranscription`: for each original, in
      the index's order, its most frequent correction replaces the
      original's whole-word occurrences, if there are any, and is recorded
      with its confidence. */
  method ApplyCorrections(text: string, corrections: CorrectionIndex) returns (processed: Applied)
    requires corrections.Valid() && GroupsNonEmpty(corrections)
    ensures processed == ApplyRules(text, Rules(corrections))
  {
    ghost var rules := Rules(corrections);
    processed := Applied(text, []);
    for i := 0 to |corrections.keys|
      invariant processed == ApplyRules(text, rules[..i])
    {
      assert rules[..i + 1][..i] == rules[..i];
      var original := corrections.keys[i];
      var mostFrequent := MostFrequent(corrections.entries[original]);
      assert rules[i] == Rule(original, mostFrequent.data.corrected, mostFrequent.data.frequency);
      if Matches(processed.text, original) {
        processed := Applied(ReplaceAll(processed.text, original, mostFrequent.data.corrected),
                             processed.applied + [AppliedCorrection(original, mostFrequent.data.corrected,
                                                                    Confidence(mostFrequent.data.frequency))]);
      }
    }
    assert rules[..|rules|] == rules;
  }

  lemma {:induction false} FindPairAppended(rows: seq<Row<CorrectionData>>, r: Row<CorrectionData>,
                                            original: string, corrected: string)
    requires ToLower(r.data.original) == ToLower(original) && r.data.corrected == corrected
    ensures FindPair(rows + [r], original, corrected).Some?
    decreases |rows|
  {
    if rows != [] {
      assert (rows + [r])[1..] == rows[1..] + [r];
      FindPairAppended(rows[1..], r, original, corrected);
    }
  }

  /** Changing a row's frequency keeps it a match for the pair. */
  lemma FindPairUpdated(rows: seq<Row<CorrectionData>>, updated: seq<Row<CorrectionData>>, e: Row<CorrectionData>,
                        original: string, corrected: string)
    requires e in rows && ToLower(e.data.original) == ToLower(original) && e.data.corrected == corrected
    requires |updated| == |rows|
    requires forall i :: 0 <= i < |rows| ==>
               updated[i] == if rows[i].id == e.id then Row(e.id, rows[i].data.(frequency := e.data.frequency + 1)) else rows[i]
    ensures FindPair(updated, original, corrected).Some?
  {
    var i :| 0 <= i < |rows| && rows[i] == e;
    assert updated[i].data.original == e.data.original && updated[i].data.corrected == e.data.corrected;
  }

  /** The row `addTerm` stores. */
  function NewTerm(term: string, category: string, now: int): (d: TermData)
    ensures d.term == Trim(term) && d.category == category && d.frequency == 1 && d.corrections == 0
    ensures d.createdAt == now && d.lastUsed == Some(now)
  {
    TermData(Trim(term), category, 1, 0, now, Some(now))
  }

  /** The row `addCorrection` stores for a new pair. */
  function NewCorrection(original: string, corrected: string, context: string, now: int): (d: CorrectionData)
    ensures d.original == Trim(original) && d.corrected == Trim(corrected) && d.frequency == 1
    ensures d.createdAt == now && d.context == context
  {
    CorrectionData(Trim(original), Trim(corrected), 1, now, context)
  }

  /** The change `update(id, {frequency})` makes to a correction. */
  function WithFrequency(n: int): CorrectionData -> CorrectionData {
    (d: CorrectionData) => d.(frequency := n)
  }

  /** The `categoryStats` loop of `getStatistics`: a category seen for the
      first time starts at 0, then its count goes up by one. */
  method CountCategories(values: seq<Row<TermData>>) returns (counts: OrderedMap<string, nat>)
    ensures counts == CategoryCounts(values)
  {
    counts := Empty();
    for i := 0 to |values|
      invariant counts == CategoryCounts(values[..i])
    {
      assert values[..i + 1][..i] == values[..i];
      ghost var before := counts;
      var c := values[i].data.category;
      if !counts.Has(c) {
        counts := counts.Set(c, 0);
      }
      counts := counts.Set(c, counts.Get(c) + 1);
      if !before.Has(c) {
        SetTwice(before, c, 0, 1);
      }
    }
    assert values[..|values|] == values;
  }

  /** What `addCorrection` writes: the first stored row for the pair is
      counted once more, or, when there is none, a new row goes last under
      a fresh key. Either way the pair is then stored. */
  function StoreCorrection(store: Table<CorrectionData>, original: string, corrected: string,
                           context: string, now: int): (t: Table<CorrectionData>)
    requires store.Valid()
    ensures t.Valid()
    ensures FindPair(t.rows, Trim(original), Trim(corrected)).Some?
    ensures match FindPair(store.rows, Trim(original), Trim(corrected))
            case Some(e) =>
              |t.rows| == |store.rows| &&
              forall i :: 0 <= i < |store.rows| ==>
                t.rows[i] == if store.rows[i].id == e.id then Row(e.id, store.rows[i].data.(frequency := e.data.frequency + 1))
                             else store.rows[i]
            case None => t.rows == store.rows + [Row(store.nextId, NewCorrection(original, corrected, context, now))]
  {
    match FindPair(store.rows, Trim(original), Trim(corrected))
    case Some(e) =>
      var t := store.Update(e.id, WithFrequency(e.data.frequency + 1));
      FindPairUpdated(store.rows, t.rows, e, Trim(original), Trim(corrected));
      t
    case None =>
      var t := store.Add(NewCorrection(original, corrected, context, now)).0;
      FindPairAppended(store.rows, Row(store.nextId, NewCorrection(original, corrected, context, now)),
                       Trim(original), Trim(corrected));
      t
  }

  /** `addTerm(" x")` on an empty vocabulary, as written: the new entry
      sits under " x", while reloading files it under "x", so a lookup of
      the trimmed term misses it until the next `loadData`. */
  lemma AddTermKeyMismatch(now: int)
    ensures var data := NewTerm(" x", "Persoonlijk", now);
            var store: Table<TermData> := EmptyTable();
            !IndexTerms(store.rows).Set(ToLower(" x"), Row(store.nextId, data)).Has("x") &&
            IndexTerms(store.Add(data).0.rows).Has("x")
  {
    var data := NewTerm(" x", "Persoonlijk", now);
    TrimmedNewTerm(now);
    AddToEmpty(data);
    SingleRowKey(data);
    UntrimmedKey(data);
  }

  lemma TrimmedNewTerm(now: int)
    ensures NewTerm(" x", "Persoonlijk", now).term == "x"
  {
    assert " " + "x" == " x";
    TrimLeadingSpace(" ", "x");
  }

  lemma AddToEmpty(data: TermData)
    ensures var store: Table<TermData> := EmptyTable();
            store.nextId == 1 && store.Add(data).0.rows == [Row(1, data)]
  {
  }

  lemma SingleRowKey(data: TermData)
    requires data.term == "x"
    ensures IndexTerms([Row(1, data)]).Has("x")
  {
    var rows := [Row(1, data)];
    assert rows[..0] == [];
    assert ToLower(rows[0].data.term) == "x";
    assert IndexTerms(rows) == IndexTerms(rows[..0]).Set("x", rows[0]);
  }

  lemma UntrimmedKey(data: TermData)
    ensures !IndexTerms([]).Set(ToLower(" x"), Row(1, data)).Has("x")
  {
    assert ToLower(" x") == " x";
  }

  class VocabularyService {
    var initialized: bool
    var terms: TermIndex
    var corrections: CorrectionIndex
    var categories: CategoryIndex
    var db: Database
    /** The default categories and terms `initialize` writes. */
    const seed: Seed

    ghost predicate Valid()
      reads this
    {
      db.Valid() && terms.Valid() && corrections.Valid() && categories.Valid() && GroupsNonEmpty(corrections)
    }

    /** The in-memory term index mirrors the stored terms. */
    ghost predicate TermsInStep()
      reads this
    {
      terms == IndexTerms(db.terms.rows)
    }

    constructor(store: Database)
      requires store.Valid()
      ensures Valid() && !initialized && db == store && seed == Seed(DefaultCategories, DefaultTerms)
      ensures terms == Empty() && corrections == Empty() && categories == Empty()
    {
      seed := Seed(DefaultCategories, DefaultTerms);
      initialized := false;
      terms := Empty();
      corrections := Empty();
      categories := Empty();
      db := store;
    }

    /** `loadData`: clears the three indexes and rebuilds them from the
        stored rows. */
    method LoadData()
      requires Valid()
      modifies this
      ensures Valid() && db == old(db) && initialized == old(initialized)
      ensures terms == IndexTerms(db.terms.rows)
      ensures corrections == GroupCorrections(db.corrections.rows)
      ensures categories == IndexCategories(db.categories.rows)
    {
      terms := LoadTerms(db.terms.rows);
      corrections := LoadCorrections(db.corrections.rows);
      categories := LoadCategories(db.categories.rows);
      GroupCorrectionsSpec(db.corrections.rows);
    }

    /** `initialize`: a no-op once done; otherwise seeds each empty store,
        loads the indexes and marks the service initialised. */
    method Initialize(now: int)
      requires Valid()
      modifies this
      ensures Valid() && initialized
      ensures old(initialized) ==> terms == old(terms) && corrections == old(corrections) &&
                                   categories == old(categories) && db == old(db)
      ensures !old(initialized) ==> db == Seeded(old(db), seed, now) && terms == IndexTerms(db.terms.rows) &&
                                    corrections == GroupCorrections(db.corrections.rows) &&
                                    categories == IndexCategories(db.categories.rows)
    {
      if initialized {
        return;
      }
      // The categories and then the terms are seeded, each only if its
      // store is empty.
      var seeded := Seeded(db, seed, now);
      db := seeded;
      LoadData();
      initialized := true;
    }

    /** `findSimilarTerms(word, maxDistance)`: the terms whose key is at
        distance 1 to `maxDistance`, ranked by distance, then by descending
        frequency. */
    method FindSimilarTerms(word: string, maxDistance: int) returns (similar: seq<SimilarTerm>)
      requires Valid()
      ensures similar == SimilarTerms(terms, word, maxDistance)
      ensures forall s :: s in similar <==> exists k :: NearMiss(terms, word, maxDistance, k, s)
      ensures SortedBy(similar, SimilarKey)
    {
      var candidates: seq<SimilarTerm> := [];
      for i := 0 to |terms.keys|
        invariant candidates == Candidates(terms, word, maxDistance, i)
      {
        var key := terms.keys[i];
        var data := terms.entries[key].data;
        var distance := LevenshteinDistance(word, key);
        if distance <= maxDistance && distance > 0 {
          candidates := candidates + [SimilarTerm(data.term, distance, data.frequency, data.category)];
        }
      }
      similar := Sort(candidates, SimilarKey);
      SimilarTermsMembers(terms, word, maxDistance);
      SimilarTermsSorted(terms, word, maxDistance);
    }

    /** `getSuggestions(text)`: for each lower-cased whitespace token that is
        not a term, its best three near misses, if it has any. */
    method GetSuggestions(text: string) returns (suggestions: seq<Suggestion>)
      requires Valid()
      ensures suggestions == Suggestions(terms, text)
      ensures forall s :: s in suggestions ==>
                s.original in SplitWhitespace(ToLower(text)) && !terms.Has(s.original) &&
                1 <= |s.suggestions| <= 3 && s.suggestions <= SimilarTerms(terms, s.original, 2)
    {
      var words := SplitWhitespace(ToLower(text));
      suggestions := [];
      for i := 0 to |words|
        invariant suggestions == SuggestionsFor(terms, words[..i])
      {
        assert words[..i + 1][..i] == words[..i];
        var word := words[i];
        if !terms.Has(word) {
          var similar := FindSimilarTerms(word, 2);
          if |similar| > 0 {
            suggestions := suggestions + [Suggestion(word, Top3(similar))];
          }
        }
      }
      assert words[..|words|] == words;
      SuggestionsSpec(terms, words);
    }

    /** `incrementTermFrequency(term)`: a known term is counted once more
        and stamped as used, in memory and in the store; an unknown term
        changes nothing. */
    method IncrementTermFrequency(term: string, now: int)
      requires Valid()
      modifies this
      ensures Valid()
      ensures (terms, db.terms) == Bump(old(terms), old(db.terms), term, now)
      ensures db.corrections == old(db.corrections) && db.categories == old(db.categories)
      ensures corrections == old(corrections) && categories == old(categories) && initialized == old(initialized)
      ensures !old(terms).Has(ToLower(term)) ==> terms == old(terms) && db == old(db)
    {
      var key := ToLower(term);
      if terms.Has(key) {
        var t := terms.Get(key);
        db := db.(terms := db.terms.Update(t.id, (d: TermData) => d.(frequency := t.data.frequency + 1, lastUsed := Some(now))));
        terms := terms.Set(key, Row(t.id, t.data.(frequency := t.data.frequency + 1, lastUsed := Some(now))));
      }
    }

    /** The counting loop of `processTranscription`: every token that is a
        known term is counted through `incrementTermFrequency`. */
    method CountTerms(words: seq<string>, now: int)
      requires Valid()
      modifies this
      ensures Valid() && initialized == old(initialized)
      ensures (terms, db.terms) == BumpAll(old(terms), old(db.terms), words, now)
      ensures corrections == old(corrections) && categories == old(categories)
      ensures db.corrections == old(db.corrections) && db.categories == old(db.categories)
    {
      for i := 0 to |words|
        invariant Valid() && initialized == old(initialized)
        invariant (terms, db.terms) == BumpAll(old(terms), old(db.terms), words[..i], now)
        invariant corrections == old(corrections) && categories == old(categories)
        invariant db.corrections == old(db.corrections) && db.categories == old(db.categories)
      {
        assert words[..i + 1][..i] == words[..i];
        if terms.Has(words[i]) {
          IncrementTermFrequency(words[i], now);
        }
      }
      assert words[..|words|] == words;
    }

    /** `processTranscription(transcription)`: initialises if needed, then
        applies each original's most frequent correction in the index's
        order, counts the recognised single-word terms of the result, and
        collects suggestions for the rest. */
    method ProcessTranscription(transcription: string, now: int) returns (result: TranscriptionResult)
      requires Valid()
      modifies this
      ensures Valid() && initialized
      ensures result.originalText == transcription
      ensures result.processedText == ApplyRules(transcription, Rules(corrections)).text
      ensures result.appliedCorrections == ApplyRules(transcription, Rules(corrections)).applied
      ensures result.suggestions == Suggestions(terms, result.processedText)
      ensures var d := if old(initialized) then old(db) else Seeded(old(db), seed, now);
              var t := if old(initialized) then old(terms) else IndexTerms(d.terms.rows);
              t.Valid() && d.terms.Valid() &&
              corrections == (if old(initialized) then old(corrections) else GroupCorrections(d.corrections.rows)) &&
              categories == (if old(initialized) then old(categories) else IndexCategories(d.categories.rows)) &&
              db.corrections == d.corrections && db.categories == d.categories &&
              (terms, db.terms) == BumpAll(t, d.terms, SplitWhitespace(ToLower(result.processedText)), now)
    {
      Initialize(now);
      var processed := ApplyCorrections(transcription, corrections);
      var words := SplitWhitespace(ToLower(processed.text));
      CountTerms(words, now);
      var suggestions := GetSuggestions(processed.text);
      result := TranscriptionResult(transcription, processed.text, processed.applied, suggestions);
    }

    /** `addTerm(term, category)`, whose category defaults to
        "Persoonlijk": the trimmed term is stored with frequency 1 and used
        now, and indexed under the lower-cased text as given, untrimmed. */
    method AddTermAsWritten(term: string, category: string, now: int) returns (ok: bool)
      requires Valid()
      modifies this
      ensures Valid() && ok
      ensures db == old(db).(terms := old(db.terms).Add(NewTerm(term, category, now)).0)
      ensures terms == old(terms).Set(ToLower(term), Row(old(db.terms.nextId), NewTerm(term, category, now)))
      ensures corrections == old(corrections) && categories == old(categories) && initialized == old(initialized)
    {
      StoreTerm(ToLower(term), NewTerm(term, category, now));
      ok := true;
    }

    /** The two writes of `addTerm`: the row goes to the store under the
        next key, and into the index under `key`. */
    method StoreTerm(key: string, data: TermData)
      requires Valid()
      modifies this
      ensures Valid()
      ensures db == old(db).(terms := old(db.terms).Add(data).0)
      ensures terms == old(terms).Set(key, Row(old(db.terms.nextId), data))
      ensures corrections == old(corrections) && categories == old(categories) && initialized == old(initialized)
    {
      var added := db.terms.Add(data);
      db := db.(terms := added.0);
      terms := terms.Set(key, Row(added.1, data));
    }

    /** `addTerm` indexing the new row under the key `loadData` gives it,
        the lower-cased trimmed text, so the index stays in step with the
        store. */
    method AddTerm(term: string, category: string, now: int) returns (ok: bool)
      requires Valid()
      modifies this
      ensures Valid() && ok
      ensures db == old(db).(terms := old(db.terms).Add(NewTerm(term, category, now)).0)
      ensures terms == old(terms).Set(ToLower(Trim(term)), Row(old(db.terms.nextId), NewTerm(term, category, now)))
      ensures corrections == old(corrections) && categories == old(categories) && initialized == old(initialized)
      ensures old(TermsInStep()) ==> TermsInStep()
      ensures terms.Has(ToLower(Trim(term)))
    {
      StoreTerm(ToLower(Trim(term)), NewTerm(term, category, now));
      ok := true;
      assert db.terms.rows[..|db.terms.rows| - 1] == old(db.terms.rows);
    }

    /** `addCorrection(original, corrected, context)` as written: the
        lookup of an existing pair queries the compound index
        `[original+corrected]`, which the schema does not declare, so the
        query is rejected, the error is caught and nothing is stored. */
    method AddCorrectionAsWritten(original: string, corrected: string, context: string, now: int) returns (ok: bool)
      requires Valid()
      ensures !ok
    {
      ok := false;
    }

    /** `addCorrection` with a lookup that finds the stored pair: an
        existing correction of the trimmed original (up to case) to the
        trimmed replacement is counted once more, otherwise a new one is
        stored with frequency 1; then the indexes are reloaded. */
    method AddCorrection(original: string, corrected: string, context: string, now: int) returns (ok: bool)
      requires Valid()
      modifies this
      ensures Valid() && ok && initialized == old(initialized)
      ensures db.terms == old(db.terms) && db.categories == old(db.categories)
      ensures db.corrections == StoreCorrection(old(db.corrections), original, corrected, context, now)
      ensures terms == IndexTerms(db.terms.rows) && corrections == GroupCorrections(db.corrections.rows) &&
              categories == IndexCategories(db.categories.rows)
    {
      var stored := StoreCorrection(db.corrections, original, corrected, context, now);
      db := Database(db.terms, stored, db.categories);
      LoadData();
      ok := true;
    }

    /** `getTermsByCategory(category)`: the terms of that category, or all
        of them when no category (or an empty one) is given, in index
        order. */
    function GetTermsByCategory(category: Option<string>): (r: seq<Row<TermData>>)
      reads this
      requires Valid()
      ensures IsSubsequence(r, terms.Values())
      ensures category.Some? && category.value != "" ==>
                forall t :: t in r <==> t in terms.Values() && t.data.category == category.value
      ensures !(category.Some? && category.value != "") ==> r == terms.Values()
    {
      if category.Some? && category.value != "" then
        FilterSpec(terms.Values(), CategoryIs(category.value));
        Filter(terms.Values(), CategoryIs(category.value))
      else
        IsSubsequenceRefl(terms.Values());
        terms.Values()
    }

    /** `getCategories()`: one entry per category name, in index order. */
    function GetCategories(): (r: seq<Row<CategoryData>>)
      reads this
      requires Valid()
      ensures |r| == categories.Size()
      ensures forall c :: c in r <==> exists k :: k in categories.entries && categories.entries[k] == c
    {
      var r := categories.Values();
      assert forall k :: k in categories.entries ==> categories.entries[k] in r by {
        forall k | k in categories.entries ensures categories.entries[k] in r {
          var i :| 0 <= i < |categories.keys| && categories.keys[i] == k;
          assert r[i] == categories.entries[k];
        }
      }
      r
    }

    /** `getStatistics()`: the number of terms and of corrections in
        memory, the terms per category and the ten most used terms. */
    method GetStatistics() returns (stats: Statistics)
      requires Valid()
      ensures stats == Statistics(terms.Size(), TotalCorrections(corrections),
                                  CategoryCounts(terms.Values()), MostUsed(terms.Values()))
      ensures SumCounts(stats.categoryStats.keys, stats.categoryStats.entries) == stats.totalTerms
      ensures forall c :: c in stats.categoryStats.entries ==>
                stats.categoryStats.entries[c] == |Filter(terms.Values(), CategoryIs(c))|
    {
      var values := terms.Values();
      var counts := CountCategories(values);
      CategoryCountsSpec(values);
      stats := Statistics(terms.Size(), TotalCorrections(corrections), counts, MostUsed(values));
    }

    /** `exportVocabulary()`: every stored row of the three tables, the
        export time and format version "1.0". */
    function ExportVocabulary(now: int): (e: Export)
      reads this
      requires Valid()
      ensures e.terms == db.terms.rows && e.corrections == db.corrections.rows &&
              e.categories == db.categories.rows
      ensures e.version == "1.0" && e.exportDate == now
    {
      Export(db.terms.rows, db.corrections.rows, db.categories.rows, now, "1.0")
    }

    /** `importVocabulary(data)`: each table present in the data is put
        row by row, keyed records replacing stored ones, then the indexes
        are reloaded. */
    method ImportVocabulary(data: ImportData) returns (ok: bool)
      requires Valid()
      modifies this
      ensures Valid() && ok && initialized == old(initialized)
      ensures db == Database(ImportTable(old(db.terms), data.terms), ImportTable(old(db.corrections), data.corrections),
                             ImportTable(old(db.categories), data.categories))
      ensures terms == IndexTerms(db.terms.rows) && corrections == GroupCorrections(db.corrections.rows) &&
              categories == IndexCategories(db.categories.rows)
    {
      if data.terms.Some? {
        db := db.(terms := db.terms.BulkPut(data.terms.value));
      }
      if data.corrections.Some? {
        db := db.(corrections := db.corrections.BulkPut(data.corrections.value));
      }
      if data.categories.Some? {
        db := db.(categories := db.categories.BulkPut(data.categories.value));
      }
      LoadData();
      ok := true;
    }
  }
}
