/** The decision rules of the vocabulary dialog: which terms the list shows,
    the colour of a category badge, and when an add button calls the
    service at all. */
module VocabularyManager {
  import opened Common
  import opened Dexie
  import opened VocabularyRules
  import Vocabulary

  /** A term stays in the list when its text contains the search, both in
      lower case, and no category is selected or it is the term's. */
  predicate KeepsTerm(t: TermData, search: string, selectedCategory: string) {
    Includes(ToLower(t.term), ToLower(search)) && (selectedCategory == "" || t.category == selectedCategory)
  }

  function KeepsRow(search: string, selectedCategory: string): Row<TermData> -> bool {
    (t: Row<TermData>) => KeepsTerm(t.data, search, selectedCategory)
  }

  /** `filteredTerms`: the loaded terms that pass both conditions, in the
      order they were loaded. */
  function FilteredTerms(terms: seq<Row<TermData>>, search: string, selectedCategory: string): (r: seq<Row<TermData>>)
    ensures IsSubsequence(r, terms)
    ensures forall t :: t in r <==> t in terms && KeepsTerm(t.data, search, selectedCategory)
  {
    FilterSpec(terms, KeepsRow(search, selectedCategory));
    Filter(terms, KeepsRow(search, selectedCategory))
  }

  /** With an empty search and no category the whole list is shown. */
  lemma NoFilterShowsAll(terms: seq<Row<TermData>>)
    ensures FilteredTerms(terms, "", "") == terms
  {
    forall t | t in terms ensures KeepsRow("", "")(t) {
      assert "" <= ToLower(t.data.term);
    }
    FilterAll(terms, KeepsRow("", ""));
  }

  /** Selecting a category with an empty search shows what the service's
      `getTermsByCategory` gives for that category. */
  lemma CategoryFilterAgreesWithService(s: Vocabulary.VocabularyService, category: string)
    requires s.Valid() && category != ""
    ensures FilteredTerms(s.GetTermsByCategory(None), "", category) == s.GetTermsByCategory(Some(category))
  {
    var all := s.terms.Values();
    forall k | 0 <= k < |all| ensures KeepsRow("", category)(all[k]) == CategoryIs(category)(all[k]) {
      assert "" <= ToLower(all[k].data.term);
    }
    FilterSame(all, KeepsRow("", category), CategoryIs(category));
  }

  const DefaultColor: string := "bg-gray-100 text-gray-800"

  /** `getCategoryColor(name)`: the colour of the first loaded category with
      that name, else the grey default. */
  function GetCategoryColor(categories: seq<Row<CategoryData>>, name: string): (color: string)
    ensures (forall i :: 0 <= i < |categories| ==> categories[i].data.name != name) ==> color == DefaultColor
    ensures forall i :: 0 <= i < |categories| && categories[i].data.name == name &&
                        (forall j :: 0 <= j < i ==> categories[j].data.name != name) ==>
                        color == categories[i].data.color
  {
    if categories == [] then DefaultColor
    else if categories[0].data.name == name then categories[0].data.color
    else
      var c := GetCategoryColor(categories[1..], name);
      assert forall i :: 1 <= i < |categories| ==> categories[i] == categories[1..][i - 1];
      c
  }

  // ---------------------------------------------------------------------------
  // the add buttons

  /** The call `handleAddTerm` makes: the input as typed, with the chosen
      category. */
  datatype TermRequest = TermRequest(term: string, category: string)

  /** The call `handleAddCorrection` makes. */
  datatype CorrectionRequest = CorrectionRequest(original: string, corrected: string, context: string)

  /** `handleAddTerm`: nothing happens when the input is blank; otherwise
      the untrimmed input goes to `addTerm`. */
  function AddTermRequest(newTerm: string, newTermCategory: string): (r: Option<TermRequest>)
    ensures r.None? <==> forall i :: 0 <= i < |newTerm| ==> IsSpace(newTerm[i])
    ensures r.Some? ==> r.value == TermRequest(newTerm, newTermCategory)
  {
    TrimEmptyIff(newTerm);
    if Trim(newTerm) == "" then None else Some(TermRequest(newTerm, newTermCategory))
  }

  /** `handleAddCorrection`: nothing happens when either text is blank;
      otherwise the three inputs go to `addCorrection` as typed. */
  function AddCorrectionRequest(original: string, corrected: string, context: string): (r: Option<CorrectionRequest>)
    ensures r.None? <==> Trim(original) == "" || Trim(corrected) == ""
    ensures r.Some? ==> r.value == CorrectionRequest(original, corrected, context)
  {
    if Trim(original) == "" || Trim(corrected) == "" then None else Some(CorrectionRequest(original, corrected, context))
  }

  /** A correction request always has something to store: both texts the
      service trims are non-empty. */
  lemma CorrectionRequestNonBlank(original: string, corrected: string, context: string)
    requires AddCorrectionRequest(original, corrected, context).Some?
    ensures exists i :: 0 <= i < |original| && !IsSpace(original[i])
    ensures exists i :: 0 <= i < |corrected| && !IsSpace(corrected[i])
  {
    TrimEmptyIff(original);
    TrimEmptyIff(corrected);
  }
}
