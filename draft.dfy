/** The edits the profile form makes to its draft (`formData`), one handler at a time.
    Each edit is a function from the old draft to the new one: the object spread
    `{...formData, [key]: v}` becomes a map update, which keeps every other field. */
module Draft {
  import opened JsString
  import opened JsArray
  import opened JsValue

  /** `name.split('.')`: the segments of a form field name. */
  function Segments(name: string): (seg: seq<string>)
    ensures |seg| >= 1
    ensures '.' in name <==> |seg| >= 2
    ensures '.' !in name ==> seg == [name]
  {
    SplitHasSecondSegment(name, '.');
    if '.' !in name then SplitWithout(name, '.'); Split(name, '.') else Split(name, '.')
  }

  /** The segments of `a.b` and `a.b.c` for dot-free `a`, `b`, `c`. */
  lemma TwoSegments(a: string, b: string)
    requires '.' !in a && '.' !in b
    ensures Segments(a + "." + b) == [a, b]
  {
    SplitAfterFirst(a, b, '.');
    SplitWithout(b, '.');
  }

  lemma ThreeSegments(a: string, b: string, c: string)
    requires '.' !in a && '.' !in b && '.' !in c
    ensures Segments(a + "." + b + "." + c) == [a, b, c]
  {
    assert a + "." + b + "." + c == a + "." + (b + "." + c);
    SplitAfterFirst(a, b + "." + c, '.');
    TwoSegments(b, c);
  }

  // ---- handleInputChange ----

  /** `handleInputChange`: a name without a dot sets that top-level field to the string;
      `parent.child...` replaces `parent` by a copy of its own properties with `child`
      set to the string. Only the first two segments are used, and nothing outside
      `parent` changes. */
  function InputChange(d: Record, name: string, value: string): (r: Record)
    ensures SameExcept(d, r, Segments(name)[0])
    ensures '.' !in name ==> Get(r, name) == Str(value)
    ensures '.' in name ==>
      var parent, child := Segments(name)[0], Segments(name)[1];
      Get(r, parent).Obj? && Get(Get(r, parent).fields, child) == Str(value)
      && SameExcept(Spread(Get(d, parent)), Get(r, parent).fields, child)
  {
    if '.' in name then
      var seg := Segments(name);
      d[seg[0] := Obj(Spread(Get(d, seg[0]))[seg[1] := Str(value)])]
    else
      d[name := Str(value)]
  }

  /** Segments after the second are ignored: `a.b.rest` edits exactly as `a.b` does. */
  lemma DeeperSegmentsIgnored(d: Record, a: string, b: string, rest: string, value: string)
    requires '.' !in a && '.' !in b
    ensures InputChange(d, a + "." + b + "." + rest, value) == InputChange(d, a + "." + b, value)
  {
    assert a + "." + b + "." + rest == a + "." + (b + "." + rest);
    SplitAfterFirst(a, b + "." + rest, '.');
    SplitAfterFirst(b, rest, '.');
    TwoSegments(a, b);
  }

  /** The salary input named `preferences.salaryRange.min` replaces the whole
      `salaryRange` object of the preferences with the typed string. */
  lemma SalaryMinReplacesRange(d: Record, value: string)
    ensures var r := InputChange(d, "preferences.salaryRange.min", value);
      Get(r, "preferences").Obj? && Get(Get(r, "preferences").fields, "salaryRange") == Str(value)
  {
    SalaryMinName();
    DeeperSegmentsIgnored(d, "preferences", "salaryRange", "min", value);
    TwoSegments("preferences", "salaryRange");
  }

  lemma SalaryMinName()
    ensures '.' !in "preferences" && '.' !in "salaryRange"
    ensures "preferences.salaryRange.min" == "preferences" + "." + "salaryRange" + "." + "min"
    ensures "preferences.salaryRange" == "preferences" + "." + "salaryRange"
  {
  }

  // ---- handleCheckboxChange ----

  /** `if (subchild)`: the name has a third segment and it is not empty. */
  predicate Deep(name: string) {
    var seg := Segments(name);
    |seg| >= 3 && seg[2] != ""
  }

  /** A deep toggle reads `formData[parent][child]`, which throws on a nullish parent. */
  predicate CheckboxDefined(d: Record, name: string) {
    Deep(name) ==> !Nullish(Get(d, Segments(name)[0]))
  }

  /** `handleCheckboxChange`: a name without a dot changes nothing; `parent.child` sets
      that boolean; `parent.child.sub` sets `sub` inside a copy of `parent.child`.
      Every other field, at every level, keeps its value. */
  function CheckboxChange(d: Record, name: string, checked: bool): (r: Record)
    requires CheckboxDefined(d, name)
    ensures '.' !in name ==> r == d
    ensures '.' in name ==>
      var parent, child := Segments(name)[0], Segments(name)[1];
      SameExcept(d, r, parent) && Get(r, parent).Obj?
      && SameExcept(Spread(Get(d, parent)), Get(r, parent).fields, child)
    ensures '.' in name && !Deep(name) ==>
      var parent, child := Segments(name)[0], Segments(name)[1];
      Get(r, parent).Obj? && Get(Get(r, parent).fields, child) == Bool(checked)
    ensures Deep(name) ==>
      var parent, child, sub := Segments(name)[0], Segments(name)[1], Segments(name)[2];
      Get(r, parent).Obj? && Get(Get(r, parent).fields, child).Obj?
      && Get(Get(Get(r, parent).fields, child).fields, sub) == Bool(checked)
      && SameExcept(Spread(Member(Get(d, parent), child)), Get(Get(r, parent).fields, child).fields, sub)
  {
    if '.' in name then
      var seg := Segments(name);
      var siblings := Spread(Get(d, seg[0]));
      if Deep(name) then
        var toggles := Spread(Member(Get(d, seg[0]), seg[1]));
        d[seg[0] := Obj(siblings[seg[1] := Obj(toggles[seg[2] := Bool(checked)])])]
      else
        d[seg[0] := Obj(siblings[seg[1] := Bool(checked)])]
    else
      d
  }

  /** A toggle named `a.b.c` sets exactly the boolean `c` of `a.b`. */
  lemma DeepToggle(d: Record, a: string, b: string, c: string, checked: bool)
    requires '.' !in a && '.' !in b && '.' !in c && c != ""
    requires !Nullish(Get(d, a))
    ensures CheckboxDefined(d, a + "." + b + "." + c)
    ensures var r := CheckboxChange(d, a + "." + b + "." + c, checked);
      SameExcept(d, r, a) && Get(r, a).Obj? && SameExcept(Spread(Get(d, a)), Get(r, a).fields, b)
      && Get(Get(r, a).fields, b).Obj? && Get(Get(Get(r, a).fields, b).fields, c) == Bool(checked)
      && SameExcept(Spread(Member(Get(d, a), b)), Get(Get(r, a).fields, b).fields, c)
  {
    ThreeSegments(a, b, c);
    assert '.' in a + "." + b + "." + c by {
      assert (a + "." + b + "." + c)[|a|] == '.';
    }
  }

  // ---- handleSkillAdd / handleSkillRemove ----

  /** The skills of a draft whose `skills` is an array. */
  function Skills(d: Record): seq<Value>
    requires Get(d, "skills").Arr?
  {
    Get(d, "skills").items
  }

  /** `skillInput.trim() && ...formData.skills.includes(...)`: the skills are only read
      when the trimmed input is non-empty. */
  predicate SkillAddDefined(d: Record, input: string) {
    !Blank(input) ==> Get(d, "skills").Arr?
  }

  /** The guard of `handleSkillAdd`: the trimmed input is non-empty and not yet a skill. */
  predicate AcceptsSkill(d: Record, input: string)
    requires SkillAddDefined(d, input)
    ensures AcceptsSkill(d, input) <==> !Blank(input) && Str(Trim(input)) !in Skills(d)
  {
    var t := Trim(input);
    t != "" && Str(t) !in Skills(d)
  }

  /** The draft after an accepted skill: the trimmed input appended to the skills.
      A list without duplicates stays without duplicates. */
  function SkillAdded(d: Record, input: string): (r: Record)
    requires SkillAddDefined(d, input) && AcceptsSkill(d, input)
    ensures SameExcept(d, r, "skills") && Get(r, "skills").Arr?
    ensures !Blank(input) && |Skills(r)| == |Skills(d)| + 1
    ensures Skills(r)[..|Skills(d)|] == Skills(d) && Skills(r)[|Skills(d)|] == Str(Trim(input))
    ensures NoDuplicates(Skills(d)) ==> NoDuplicates(Skills(r))
  {
    d["skills" := Arr(Skills(d) + [Str(Trim(input))])]
  }

  /** `handleSkillRemove`: the skills other than the given one, in their order and
      with their multiplicity. */
  function SkillRemoved(d: Record, skill: string): (r: Record)
    requires Get(d, "skills").Arr?
    ensures SameExcept(d, r, "skills") && Get(r, "skills").Arr?
    ensures Str(skill) !in Skills(r)
    ensures forall x :: x in Skills(r) <==> x in Skills(d) && x != Str(skill)
    ensures IsSubsequence(Skills(r), Skills(d))
    ensures multiset(Skills(r)) == multiset(Skills(d))[Str(skill) := 0]
  {
    d["skills" := Arr(Without(Skills(d), Str(skill)))]
  }

  /** Adding a skill and then removing it gives the draft back. */
  lemma SkillAddThenRemove(d: Record, input: string)
    requires SkillAddDefined(d, input) && AcceptsSkill(d, input)
    ensures SkillRemoved(SkillAdded(d, input), Trim(input)) == d
  {
    var t := Str(Trim(input));
    var s, a := Skills(d), SkillAdded(d, input);
    assert Skills(a) == s + [t];
    RemoveAppended(s, t);
    UpdateTwice(d, "skills", Arr(s + [t]), Arr(s));
    UpdateBack(d, "skills", Arr(s));
  }

  /** Filtering an appended new value out again gives the list back. */
  lemma RemoveAppended(s: seq<Value>, t: Value)
    requires t !in s
    ensures Without(s + [t], t) == s
  {
    WithoutAppend(s, [t], t);
    WithoutOfSelf(t);
    WithoutAbsent(s, t);
  }

  /** Pressing add twice with the same input adds the skill once. */
  lemma SkillAddedOnce(d: Record, input: string)
    requires SkillAddDefined(d, input) && AcceptsSkill(d, input)
    ensures SkillAddDefined(SkillAdded(d, input), input)
    ensures !AcceptsSkill(SkillAdded(d, input), input)
  {
    var r := SkillAdded(d, input);
    assert Skills(r)[|Skills(d)|] in Skills(r);
  }

  /** Removing a skill that is not in the list changes nothing. */
  lemma RemoveAbsentSkill(d: Record, skill: string)
    requires Get(d, "skills").Arr? && Str(skill) !in Skills(d)
    ensures SkillRemoved(d, skill) == d
  {
    WithoutAbsent(Skills(d), Str(skill));
  }

  // ---- handleJobTypeChange ----

  /** `formData.preferences.jobTypes` can be read and spread as an array. */
  predicate JobTypesDefined(d: Record) {
    var prefs := Get(d, "preferences");
    !Nullish(prefs) && Member(prefs, "jobTypes").Arr?
  }

  function JobTypes(d: Record): seq<Value>
    requires JobTypesDefined(d)
  {
    Member(Get(d, "preferences"), "jobTypes").items
  }

  /** `{...formData, preferences: {...formData.preferences, jobTypes: ts}}`. */
  function WithJobTypes(d: Record, ts: seq<Value>): (r: Record)
    requires JobTypesDefined(d)
    ensures JobTypesDefined(r) && JobTypes(r) == ts
    ensures SameExcept(d, r, "preferences")
    ensures SameExcept(Spread(Get(d, "preferences")), Spread(Get(r, "preferences")), "jobTypes")
  {
    var prefs := Spread(Get(d, "preferences"))["jobTypes" := Arr(ts)];
    UpdateKeepsOthers(Spread(Get(d, "preferences")), "jobTypes", Arr(ts));
    UpdateKeepsOthers(d, "preferences", Obj(prefs));
    d["preferences" := Obj(prefs)]
  }

  /** `handleJobTypeChange`: afterwards the job type is listed exactly when `checked`.
      Checking an absent type appends it, unchecking a present one removes it, and in
      the two other cases the draft stays as it is. The other types keep their order,
      the other preferences and fields keep their values, and a list without
      duplicates stays without. */
  function JobTypeChange(d: Record, jobType: string, checked: bool): (r: Record)
    requires JobTypesDefined(d)
    ensures JobTypesDefined(r)
    ensures Str(jobType) in JobTypes(r) <==> checked
    ensures checked && Str(jobType) !in JobTypes(d) ==> JobTypes(r) == JobTypes(d) + [Str(jobType)]
    ensures (checked <==> Str(jobType) in JobTypes(d)) ==> r == d
    ensures Without(JobTypes(r), Str(jobType)) == Without(JobTypes(d), Str(jobType))
    ensures SameExcept(d, r, "preferences")
    ensures SameExcept(Spread(Get(d, "preferences")), Spread(Get(r, "preferences")), "jobTypes")
    ensures NoDuplicates(JobTypes(d)) ==> NoDuplicates(JobTypes(r))
  {
    var current := JobTypes(d);
    var t := Str(jobType);
    if checked && t !in current then
      JobTypeAppended(d, t);
      WithJobTypes(d, current + [t])
    else if !checked && t in current then
      JobTypeDropped(d, t);
      WithJobTypes(d, Without(current, t))
    else
      d
  }

  /** The checking branch: the type is appended and the other types are kept. */
  lemma JobTypeAppended(d: Record, t: Value)
    requires JobTypesDefined(d) && t !in JobTypes(d)
    ensures var r := WithJobTypes(d, JobTypes(d) + [t]);
      JobTypesDefined(r) && t in JobTypes(r)
      && Without(JobTypes(r), t) == Without(JobTypes(d), t)
      && (NoDuplicates(JobTypes(d)) ==> NoDuplicates(JobTypes(r)))
  {
    WithoutAppend(JobTypes(d), [t], t);
    WithoutOfSelf(t);
  }

  /** The unchecking branch: the type is filtered out and the other types are kept. */
  lemma JobTypeDropped(d: Record, t: Value)
    requires JobTypesDefined(d)
    ensures var r := WithJobTypes(d, Without(JobTypes(d), t));
      JobTypesDefined(r) && t !in JobTypes(r)
      && Without(JobTypes(r), t) == Without(JobTypes(d), t)
      && (NoDuplicates(JobTypes(d)) ==> NoDuplicates(JobTypes(r)))
  {
    WithoutTwice(JobTypes(d), t);
  }

  lemma WithoutOfSelf(v: Value)
    ensures Without([v], v) == []
  {
  }

  lemma WithoutTwice(xs: seq<Value>, v: Value)
    ensures Without(Without(xs, v), v) == Without(xs, v)
  {
    WithoutAbsent(Without(xs, v), v);
  }

  /** Repeating a job type change changes nothing more. */
  lemma JobTypeChangeIdempotent(d: Record, jobType: string, checked: bool)
    requires JobTypesDefined(d)
    ensures JobTypeChange(JobTypeChange(d, jobType, checked), jobType, checked)
      == JobTypeChange(d, jobType, checked)
  {
  }

  /** Checking an absent job type and unchecking it again gives the draft back. */
  lemma JobTypeCheckThenUncheck(d: Record, jobType: string)
    requires JobTypesDefined(d) && Get(d, "preferences").Obj? && Str(jobType) !in JobTypes(d)
    ensures JobTypeChange(JobTypeChange(d, jobType, true), jobType, false) == d
  {
    var t, current := Str(jobType), JobTypes(d);
    var checkedOnce := JobTypeChange(d, jobType, true);
    assert checkedOnce == WithJobTypes(d, current + [t]);
    WithoutAppend(current, [t], t);
    WithoutOfSelf(t);
    WithoutAbsent(current, t);
    assert JobTypeChange(checkedOnce, jobType, false) == WithJobTypes(checkedOnce, current);
    JobTypesReplacedTwice(d, current + [t], current);
    JobTypesReplacedBySame(d);
  }

  /** Replacing the job types twice keeps only the second replacement. */
  lemma JobTypesReplacedTwice(d: Record, first: seq<Value>, second: seq<Value>)
    requires JobTypesDefined(d) && Get(d, "preferences").Obj?
    ensures WithJobTypes(WithJobTypes(d, first), second) == WithJobTypes(d, second)
  {
    var m := Get(d, "preferences").fields;
    var once := m["jobTypes" := Arr(first)];
    assert WithJobTypes(d, first) == d["preferences" := Obj(once)];
    UpdateTwice(m, "jobTypes", Arr(first), Arr(second));
    UpdateTwice(d, "preferences", Obj(once), Obj(m["jobTypes" := Arr(second)]));
  }

  /** Replacing the job types of an object of preferences by themselves changes nothing. */
  lemma JobTypesReplacedBySame(d: Record)
    requires JobTypesDefined(d) && Get(d, "preferences").Obj?
    ensures WithJobTypes(d, JobTypes(d)) == d
  {
    var m := Get(d, "preferences").fields;
    assert Member(Obj(m), "jobTypes") == m["jobTypes"];
    UpdateBack(m, "jobTypes", Arr(JobTypes(d)));
    UpdateBack(d, "preferences", Obj(m));
  }

  /** A second update of the same key overrides the first. */
  lemma UpdateTwice(r: Record, key: string, v: Value, w: Value)
    ensures r[key := v][key := w] == r[key := w]
  {
  }

  /** Setting one key leaves every other key as it was. */
  lemma UpdateKeepsOthers(r: Record, key: string, v: Value)
    ensures SameExcept(r, r[key := v], key) && Get(r[key := v], key) == v
  {
  }

  /** Setting a key to the value it had gives the record back. */
  lemma UpdateBack(r: Record, key: string, v: Value)
    requires key in r
    ensures r[key := r[key]] == r && r[key := v][key := r[key]] == r
  {
  }

  // ---- addExperienceEntry / handleExperienceChange / removeExperienceEntry ----

  /** The entry `addExperienceEntry` appends. */
  const EmptyExperience: Value := Obj(map[
    "company" := Str(""), "position" := Str(""), "period" := Str(""), "description" := Str("")])

  function Experience(d: Record): seq<Value>
    requires Get(d, "experience").Arr?
  {
    Get(d, "experience").items
  }

  /** `addExperienceEntry`: one more entry, with four empty strings, at the end. */
  function ExperienceAdded(d: Record): (r: Record)
    requires Get(d, "experience").Arr?
    ensures SameExcept(d, r, "experience") && Get(r, "experience").Arr?
    ensures |Experience(r)| == |Experience(d)| + 1
    ensures Experience(r)[..|Experience(d)|] == Experience(d)
    ensures Experience(r)[|Experience(d)|] == EmptyExperience
  {
    d["experience" := Arr(Experience(d) + [EmptyExperience])]
  }

  /** `handleExperienceChange`: entry `index` becomes a copy of its properties with
      `field` set to the string; the other entries and fields keep their values. */
  function ExperienceChanged(d: Record, index: nat, field: string, value: string): (r: Record)
    requires Get(d, "experience").Arr? && index < |Experience(d)|
    ensures SameExcept(d, r, "experience") && Get(r, "experience").Arr?
    ensures |Experience(r)| == |Experience(d)|
    ensures forall j :: 0 <= j < |Experience(d)| && j != index ==> Experience(r)[j] == Experience(d)[j]
    ensures Experience(r)[index].Obj? && Get(Experience(r)[index].fields, field) == Str(value)
    ensures SameExcept(Spread(Experience(d)[index]), Experience(r)[index].fields, field)
  {
    var entries := Experience(d);
    d["experience" := Arr(entries[index := Obj(Spread(entries[index])[field := Str(value)])])]
  }

  /** `removeExperienceEntry`: with an index inside the list the entry there is removed
      and the later ones move down by one; with any other index nothing changes. */
  function ExperienceRemoved(d: Record, index: nat): (r: Record)
    requires Get(d, "experience").Arr?
    ensures SameExcept(d, r, "experience") && Get(r, "experience").Arr?
    ensures index >= |Experience(d)| ==> r == d
    ensures index < |Experience(d)| ==>
      |Experience(r)| == |Experience(d)| - 1
      && (forall j :: 0 <= j < index ==> Experience(r)[j] == Experience(d)[j])
      && (forall j :: index <= j < |Experience(r)| ==> Experience(r)[j] == Experience(d)[j + 1])
  {
    var entries := Experience(d);
    if index < |entries| then d["experience" := Arr(entries[..index] + entries[index + 1..])] else d
  }

  /** Adding an entry and removing the last one gives the draft back. */
  lemma AddThenRemoveLast(d: Record)
    requires Get(d, "experience").Arr?
    ensures ExperienceRemoved(ExperienceAdded(d), |Experience(d)|) == d
  {
    var r := ExperienceAdded(d);
    assert Experience(r)[..|Experience(d)|] + Experience(r)[|Experience(d)| + 1..] == Experience(d);
  }

  // ---- handleSubmit ----

  /** Submit reads `formData.preferences.location` and `formData.skills[0]`. */
  predicate SubmitDefined(d: Record) {
    !Nullish(Get(d, "preferences")) && !Nullish(Get(d, "skills"))
  }

  /** `formData.skills[0] || ""`: the first skill when it is truthy, otherwise the
      empty string. */
  function FirstSkillOrEmpty(d: Record): (v: Value)
    requires !Nullish(Get(d, "skills"))
    ensures Truthy(v) || v == Str("")
    ensures Truthy(Member(Get(d, "skills"), Decimal(0))) ==> v == Member(Get(d, "skills"), Decimal(0))
    ensures !Truthy(Member(Get(d, "skills"), Decimal(0))) ==> v == Str("")
  {
    var first := Member(Get(d, "skills"), Decimal(0));
    if Truthy(first) then first else Str("")
  }

  /** The app-level preferences after submit: the old ones with `location` from the
      draft's preferences, `role` from its position and `experience` from its first
      skill; every other preference is kept. */
  function SubmittedPreferences(context: Record, d: Record): (r: Record)
    requires SubmitDefined(d)
    ensures "location" in r && r["location"] == Member(Get(d, "preferences"), "location")
    ensures "role" in r && r["role"] == Get(d, "position")
    ensures "experience" in r && r["experience"] == FirstSkillOrEmpty(d)
    ensures forall k :: k != "location" && k != "role" && k != "experience" ==>
      (k in r <==> k in context) && (k in r ==> r[k] == context[k])
  {
    context["location" := Member(Get(d, "preferences"), "location")]
      ["role" := Get(d, "position")]
      ["experience" := FirstSkillOrEmpty(d)]
  }

  /** For an array of skills the derived experience is the first skill when there is a
      truthy one, and the empty string otherwise. */
  lemma SubmittedExperience(context: Record, d: Record)
    requires SubmitDefined(d) && Get(d, "skills").Arr?
    ensures var skills := Skills(d);
      SubmittedPreferences(context, d)["experience"]
        == if |skills| > 0 && Truthy(skills[0]) then skills[0] else Str("")
  {
    var skills := Skills(d);
    if |skills| > 0 {
      MemberAtIndex(skills, 0);
    } else {
      assert Decimal(0) == "0";
    }
  }
}
