/** The full-page task form: comma-separated tags and its own template
    rule. It submits and validates with `TaskForm.Submit` and
    `TaskForm.IsFormValid`, whose code it repeats. */
module TaskFormFullPage {
  import opened Common
  import opened Tasks
  import opened TaskForm

  /** `text.split(',').map(tag => tag.trim()).filter(Boolean)`, for the
      tag field and for spoken tags alike. */
  function ParseTags(text: string): (tags: seq<string>)
    ensures forall i :: 0 <= i < |tags| ==> Writable(tags[i])
  {
    var trimmed := Map(Split(text, ','), TrimEach());
    TrimmedParts(Split(text, ','));
    FilterWritable(trimmed);
    Filter(trimmed, IsNonEmpty())
  }

  lemma TrimmedParts(parts: seq<string>)
    requires forall k :: 0 <= k < |parts| ==> ',' !in parts[k]
    ensures forall i :: 0 <= i < |parts| ==> Trimmed(Map(parts, TrimEach())[i]) && ',' !in Map(parts, TrimEach())[i]
  {
    forall i | 0 <= i < |parts| ensures Trimmed(Trim(parts[i])) && ',' !in Trim(parts[i]) {
      TrimPart(parts[i]);
    }
  }

  lemma FilterWritable(trimmed: seq<string>)
    requires forall i :: 0 <= i < |trimmed| ==> Trimmed(trimmed[i]) && ',' !in trimmed[i]
    ensures forall i :: 0 <= i < |Filter(trimmed, IsNonEmpty())| ==> Writable(Filter(trimmed, IsNonEmpty())[i])
  {
    FilterSpec(trimmed, IsNonEmpty());
    var tags := Filter(trimmed, IsNonEmpty());
    assert forall i :: 0 <= i < |tags| ==> tags[i] in trimmed;
  }

  lemma TrimPart(p: string)
    requires ',' !in p
    ensures Trimmed(Trim(p)) && ',' !in Trim(p)
  {
    TrimShape(p);
    var a := TrimStart(p);
    NotInSlice(p, ',', |p| - |a|, |p|);
    NotInSlice(a, ',', 0, |TrimEnd(a)|);
  }

  lemma NotInSlice(s: string, c: char, i: nat, j: nat)
    requires c !in s && i <= j <= |s|
    ensures c !in s[i..j]
  {
    assert forall k :: 0 <= k < j - i ==> s[i..j][k] == s[i + k];
  }

  /** A tag that can be written in the field and read back. */
  predicate Writable(tag: string) {
    tag != "" && Trimmed(tag) && ',' !in tag
  }

  /** The field shows `tags.join(', ')`; reading that text back gives the
      same tags when each can be written. */
  lemma ParseJoin(tags: seq<string>)
    requires forall i :: 0 <= i < |tags| ==> Writable(tags[i])
    ensures ParseTags(Join(tags, ", ")) == tags
  {
    if tags == [] {
      assert Join(tags, ", ") == "";
      assert Split("", ',') == [""];
      assert Map([""], TrimEach()) == [""];
      assert Filter([""], IsNonEmpty()) == [];
    } else {
      SplitJoinTrimmed(tags);
      FilterAll(tags, IsNonEmpty());
    }
  }

  /** Splitting the joined text and trimming the parts gives the tags
      back. */
  lemma {:induction false} SplitJoinTrimmed(tags: seq<string>)
    requires tags != [] && forall i :: 0 <= i < |tags| ==> Writable(tags[i])
    ensures Map(Split(Join(tags, ", "), ','), TrimEach()) == tags
    decreases |tags|
  {
    if |tags| == 1 {
      SplitJoinOne(tags);
    } else {
      SplitJoinTrimmed(tags[1..]);
      SplitJoinStep(tags);
    }
  }

  lemma SplitJoinOne(tags: seq<string>)
    requires |tags| == 1 && Writable(tags[0])
    ensures Map(Split(Join(tags, ", "), ','), TrimEach()) == tags
  {
    var t := tags[0];
    TrimOfTrimmed(t);
    SplitPrefix(t, "", ',');
    assert t + "" == t;
    assert Split(t, ',') == [t];
  }

  lemma SplitJoinStep(tags: seq<string>)
    requires |tags| >= 2 && Writable(tags[0])
    requires Map(Split(Join(tags[1..], ", "), ','), TrimEach()) == tags[1..]
    ensures Map(Split(Join(tags, ", "), ','), TrimEach()) == tags
  {
    var t := tags[0];
    TrimOfTrimmed(t);
    var s := Split(Join(tags[1..], ", "), ',');
    SplitJoinCons(tags);
    TrimSpaceFirst(s[0]);
    MapCons(TrimEach(), t, s, tags[1..]);
    assert tags == [t] + tags[1..];
  }

  lemma SplitJoinCons(tags: seq<string>)
    requires |tags| >= 2 && Writable(tags[0])
    ensures var s := Split(Join(tags[1..], ", "), ',');
            Split(Join(tags, ", "), ',') == [tags[0]] + ([" " + s[0]] + s[1..])
  {
    var t := tags[0];
    var rest := Join(tags[1..], ", ");
    assert Join(tags, ", ") == t + [','] + (" " + rest) by {
      assert Join(tags, ", ") == t + ", " + rest;
    }
    SplitAtSeparator(t, " " + rest, ',');
    SplitPrefix(" ", rest, ',');
  }

  /** Mapping over a list whose second element gained a prefix `f`
      ignores. */
  lemma MapCons(f: string -> string, t: string, s: seq<string>, rest: seq<string>)
    requires s != [] && f(t) == t && f(" " + s[0]) == f(s[0])
    requires Map(s, f) == rest
    ensures Map([t] + ([" " + s[0]] + s[1..]), f) == [t] + rest
  {
    var input := [t] + ([" " + s[0]] + s[1..]);
    var m := Map(input, f);
    var want := [t] + rest;
    assert |m| == |want|;
    forall k | 0 <= k < |m| ensures m[k] == want[k] {
      if k >= 2 {
        assert input[k] == s[k - 1];
      }
    }
  }

  /** A space in front changes nothing once trimmed. */
  lemma TrimSpaceFirst(s: string)
    ensures Trim(" " + s) == Trim(s)
  {
    assert (" " + s)[1..] == s;
  }

  /** `handleTemplateSelect` as written: it reads `template.name`,
      `template.description` and `template.priority`. The templates have no
      `description` or `priority` field, so the `|| ''` and
      `|| Priority.MEDIUM` fallbacks always apply; the tags stay. */
  function SelectTemplateAsWritten(f: FormData, t: Template): (g: FormData)
    ensures g.taskType == t.taskType && g.title == t.name && g.description == "" && g.priority == Medium
    ensures g.tags == f.tags && g.dueDate == f.dueDate && g.dueTime == f.dueTime && g.patientRef == f.patientRef
  {
    f.(taskType := t.taskType, title := t.name, description := "", priority := Medium)
  }

  /** The template rule with the fields the templates have: their default
      description and priority. */
  function SelectTemplate(f: FormData, t: Template): (g: FormData)
    ensures g.taskType == t.taskType && g.title == t.name
    ensures g.description == t.defaultDescription && g.priority == t.defaultPriority
    ensures g.tags == f.tags && g.dueDate == f.dueDate && g.dueTime == f.dueTime && g.patientRef == f.patientRef
  {
    f.(taskType := t.taskType, title := t.name, description := t.defaultDescription, priority := t.defaultPriority)
  }

  /** With the shipped templates the rule as written loses every default
      description and the high priority of the cathlab report ... */
  lemma TemplateDefaultsLost(f: FormData)
    ensures forall i :: 0 <= i < |DefaultTemplates| ==>
              SelectTemplateAsWritten(f, DefaultTemplates[i]).description == "" &&
              DefaultTemplates[i].defaultDescription != ""
    ensures SelectTemplateAsWritten(f, DefaultTemplates[1]).priority == Medium
    ensures SelectTemplate(f, DefaultTemplates[1]).priority == High
  {
    SomeTemplateIsHigh();
  }

  /** ... while both rules agree on a template whose defaults are the
      fallbacks. */
  lemma TemplateRulesAgree(f: FormData, t: Template)
    requires t.defaultDescription == "" && t.defaultPriority == Medium
    ensures SelectTemplateAsWritten(f, t) == SelectTemplate(f, t)
  {
  }
}
