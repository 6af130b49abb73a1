/** `ProfileStrengthIndicator`: eight weighted categories of the committed profile,
    the rounded share of complete ones, the incomplete ones in table order, and a
    text label chosen by fixed thresholds on the share. */
module Strength {
  import opened JsValue
  import opened JsArray
  import opened Scoring
  import Completeness

  /** An entry of `strengthCategories`. `minCount` 0 stands for an entry without one
      (JavaScript's `undefined`, which is as falsy as 0). The icon is passed through. */
  datatype Category = Category(name: string, fields: seq<string>, minCount: nat, icon: string)

  const StrengthCategories: seq<Category> := [
    Category("Basic Information", ["name", "position", "location"], 0, "ri-user-line"),
    Category("Professional Summary", ["about"], 0, "ri-file-text-line"),
    Category("Skills", ["skills"], 3, "ri-tools-line"),
    Category("Experience", ["experience"], 1, "ri-briefcase-line"),
    Category("Education", ["education"], 0, "ri-book-open-line"),
    Category("Documents", ["documents"], 1, "ri-folder-line"),
    Category("Profile Image", ["profileImage"], 0, "ri-image-line"),
    Category("Career Highlights", ["careerHighlights"], 1, "ri-medal-line")
  ]

  /** The table has eight distinct categories with distinct names. Exactly Skills,
      Experience, Documents and Career Highlights have a minimum count, and each of
      those checks a single field. */
  lemma CategoryTable()
    ensures |StrengthCategories| == 8 && NoDuplicates(StrengthCategories)
    ensures forall i, j :: 0 <= i < j < |StrengthCategories| ==>
      StrengthCategories[i].name != StrengthCategories[j].name
    ensures forall i :: 0 <= i < |StrengthCategories| ==>
      (StrengthCategories[i].minCount != 0 <==> i in {2, 3, 5, 7})
    ensures forall i :: 0 <= i < |StrengthCategories| && StrengthCategories[i].minCount != 0 ==>
      |StrengthCategories[i].fields| == 1
  {
  }

  /** One field of a category passes: an array field of a category with a minimum count
      needs that many elements, any other field needs a truthy value. */
  predicate FieldPasses(p: Record, field: string, minCount: nat)
    ensures minCount == 0 ==> (FieldPasses(p, field, minCount) <==> Truthy(Get(p, field)))
    ensures Get(p, field) == Arr([]) ==> (FieldPasses(p, field, minCount) <==> minCount == 0)
    ensures Nullish(Get(p, field)) ==> !FieldPasses(p, field, minCount)
  {
    var value := Get(p, field);
    if value.Arr? && minCount != 0 then |value.items| >= minCount else Truthy(value)
  }

  /** `category.fields.every(...)`. */
  predicate CategoryComplete(p: Record, c: Category)
    ensures CategoryComplete(p, c) <==> forall f :: f in c.fields ==> FieldPasses(p, f, c.minCount)
  {
    forall i :: 0 <= i < |c.fields| ==> FieldPasses(p, c.fields[i], c.minCount)
  }

  /** The callback of `getMissingFields`. */
  function IsMissing(p: Record): Category -> bool {
    c => !CategoryComplete(p, c)
  }

  /** `getMissingFields()`: exactly the incomplete categories, in table order. */
  function GetMissingFields(p: Record): (missing: seq<Category>)
    ensures |missing| <= |StrengthCategories|
    ensures IsSubsequence(missing, StrengthCategories)
    ensures forall c :: c in missing <==> c in StrengthCategories && !CategoryComplete(p, c)
  {
    FilterKeepsAccepted(StrengthCategories, IsMissing(p));
    FilterKeepsOrder(StrengthCategories, IsMissing(p));
    Filter(StrengthCategories, IsMissing(p))
  }

  /** `calculateCompleteness()`: counts the complete categories one by one and rounds
      their share to a percentage. The count is the number of categories that
      `GetMissingFields` leaves out, so the result is one of nine values. */
  method CalculateCompleteness(p: Record) returns (percentage: nat)
    ensures percentage == RoundedPercent(|StrengthCategories| - |GetMissingFields(p)|, |StrengthCategories|)
    ensures percentage in {0, 13, 25, 38, 50, 63, 75, 88, 100}
  {
    var completed := 0;
    var total := |StrengthCategories|;
    var i := 0;
    while i < total
      invariant 0 <= i <= total
      invariant completed == i - |Filter(StrengthCategories[..i], IsMissing(p))|
    {
      var category := StrengthCategories[i];
      var categoryCompleted := CategoryComplete(p, category);
      FilterStep(StrengthCategories, i, IsMissing(p));
      if categoryCompleted {
        completed := completed + 1;
      }
      i := i + 1;
    }
    assert StrengthCategories[..total] == StrengthCategories;
    EighthsPercent(completed);
    percentage := RoundedPercent(completed, total);
  }

  /** `getStrengthDescription(percentage).text`: "Just starting" below 25,
      "Getting there" below 50, "Almost complete" below 75, "Very strong" below 100,
      "All star profile!" from 100 on; a threshold itself belongs to the higher label. */
  function StrengthDescription(percentage: int): (text: string)
    ensures text == "Just starting" <==> percentage < 25
    ensures text == "Getting there" <==> 25 <= percentage < 50
    ensures text == "Almost complete" <==> 50 <= percentage < 75
    ensures text == "Very strong" <==> 75 <= percentage < 100
    ensures text == "All star profile!" <==> 100 <= percentage
  {
    if percentage < 25 then "Just starting"
    else if percentage < 50 then "Getting there"
    else if percentage < 75 then "Almost complete"
    else if percentage < 100 then "Very strong"
    else "All star profile!"
  }

  /** The labels in increasing order of strength. */
  const Labels: seq<string> :=
    ["Just starting", "Getting there", "Almost complete", "Very strong", "All star profile!"]

  /** A higher percentage never gets a weaker label. */
  lemma LabelMonotone(lo: int, hi: int)
    requires lo <= hi
    ensures StrengthDescription(lo) in Labels && StrengthDescription(hi) in Labels
    ensures LabelRank(StrengthDescription(lo)) <= LabelRank(StrengthDescription(hi))
  {
  }

  function LabelRank(text: string): nat {
    if text == Labels[0] then 0
    else if text == Labels[1] then 1
    else if text == Labels[2] then 2
    else if text == Labels[3] then 3
    else 4
  }

  /** With `c` of the eight categories complete, the label depends only on `c / 2`:
      0-1 "Just starting", 2-3 "Getting there", 4-5 "Almost complete",
      6-7 "Very strong", 8 "All star profile!". */
  lemma LabelByCompletedCount(c: nat)
    requires c <= 8
    ensures StrengthDescription(RoundedPercent(c, 8)) == Labels[c / 2]
  {
    assert RoundedPercent(c, 8) == [0, 13, 25, 38, 50, 63, 75, 88, 100][c];
  }

  /** The label of a profile's strength is the top one exactly when no category is missing. */
  lemma AllStarIffNothingMissing(p: Record)
    ensures var missing := GetMissingFields(p);
      StrengthDescription(RoundedPercent(8 - |missing|, 8)) == "All star profile!" <==> missing == []
  {
    var missing := GetMissingFields(p);
    LabelByCompletedCount(8 - |missing|);
  }

  /** Truthiness counts an empty education array as present. */
  lemma EmptyEducationCounts(p: Record)
    requires Get(p, "education") == Arr([])
    ensures StrengthCategories[4] !in GetMissingFields(p)
  {
    assert CategoryComplete(p, StrengthCategories[4]);
  }

  /** Both evaluators see the same basic information: name, position and location. */
  lemma BasicInfoAgrees(p: Record)
    ensures Completeness.HasBasicInfo(p) <==> StrengthCategories[0] !in GetMissingFields(p)
  {
    MissingIffIncomplete(p, 0);
    ThreeFields(p, StrengthCategories[0]);
  }

  /** The completeness check on the about text (longer than 20) is stricter than the
      strength check (non-empty). */
  lemma AboutStricter(p: Record)
    ensures Completeness.HasAbout(p) ==> StrengthCategories[1] !in GetMissingFields(p)
  {
    MissingIffIncomplete(p, 1);
    SingleField(p, StrengthCategories[1]);
  }

  /** For an array of skills both evaluators ask for at least three. */
  lemma SkillsAgree(p: Record)
    requires Get(p, "skills").Arr?
    ensures Completeness.HasSkills(p) <==> StrengthCategories[2] !in GetMissingFields(p)
  {
    ArrayCategory(p, 2, "skills");
  }

  /** For an array of experience entries both evaluators ask for at least one. */
  lemma ExperienceAgrees(p: Record)
    requires Get(p, "experience").Arr?
    ensures Completeness.HasExperience(p) <==> StrengthCategories[3] !in GetMissingFields(p)
  {
    ArrayCategory(p, 3, "experience");
  }

  /** For an array of documents the resume check and the documents category agree. */
  lemma DocumentsAgree(p: Record)
    requires Get(p, "documents").Arr?
    ensures Completeness.HasResume(p) <==> StrengthCategories[5] !in GetMissingFields(p)
  {
    ArrayCategory(p, 5, "documents");
  }

  /** A one-field category with a minimum count over an array is present exactly when
      the array has that many elements, and `length` reads that number. */
  lemma ArrayCategory(p: Record, k: nat, field: string)
    requires k < |StrengthCategories| && StrengthCategories[k].fields == [field]
    requires StrengthCategories[k].minCount != 0 && Get(p, field).Arr?
    ensures StrengthCategories[k] !in GetMissingFields(p)
      <==> |Get(p, field).items| >= StrengthCategories[k].minCount
    ensures Member(Get(p, field), "length") == Num(|Get(p, field).items|)
  {
    MissingIffIncomplete(p, k);
    SingleField(p, StrengthCategories[k]);
  }

  /** A category with three fields and no minimum count is complete exactly when
      all three values are truthy. */
  lemma ThreeFields(p: Record, c: Category)
    requires |c.fields| == 3 && c.minCount == 0
    ensures CategoryComplete(p, c) <==>
      Truthy(Get(p, c.fields[0])) && Truthy(Get(p, c.fields[1])) && Truthy(Get(p, c.fields[2]))
  {
  }

  /** A category of the table is missing exactly when it is incomplete. */
  lemma MissingIffIncomplete(p: Record, k: nat)
    requires k < |StrengthCategories|
    ensures StrengthCategories[k] !in GetMissingFields(p) <==> CategoryComplete(p, StrengthCategories[k])
  {
    assert StrengthCategories[k] in StrengthCategories;
  }

  /** A category with one field is complete exactly when that field passes. */
  lemma SingleField(p: Record, c: Category)
    requires |c.fields| == 1
    ensures CategoryComplete(p, c) <==> FieldPasses(p, c.fields[0], c.minCount)
  {
  }
}
