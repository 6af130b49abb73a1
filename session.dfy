/** The state of the profile page: the committed profile, the draft the form edits,
    the pending skill text, the edit-mode flag, the shown image and the app-level
    preferences. Each handler replaces some of these; the methods below say which
    ones and how, and that the others stay as they were. */
module ProfileSession {
  import opened JsValue
  import opened Draft

  /** `[...items]`: a fresh array holding the elements of a list. */
  method CopyOf(items: seq<Value>) returns (a: array<Value>)
    ensures fresh(a) && a[..] == items
  {
    a := new Value[|items|];
    var i := 0;
    while i < |items|
      invariant 0 <= i <= |items|
      invariant a[..i] == items[..i]
    {
      a[i] := items[i];
      i := i + 1;
    }
  }

  /** `a.splice(index, 1)` for an index inside the array: the entries after `index`
      move down by one place; the first `a.Length - 1` places hold the result. */
  method RemoveAt(a: array<Value>, index: nat)
    requires index < a.Length
    modifies a
    ensures a[..a.Length - 1] == old(a[..index]) + old(a[index + 1..])
  {
    var j := index;
    while j < a.Length - 1
      invariant index <= j <= a.Length - 1
      invariant a[..j] == old(a[..index]) + old(a[index + 1..j + 1])
      invariant a[j..] == old(a[j..])
    {
      a[j] := a[j + 1];
      j := j + 1;
    }
    assert old(a[index + 1..j + 1]) == old(a[index + 1..]);
  }

  class Session {
    /** `profile`: what the evaluators read. */
    var profile: Record
    /** `formData`: the draft the form edits. */
    var formData: Record
    var editMode: bool
    var skillInput: string
    /** `profileImage`: a data URL or `null`. */
    var profileImage: Value
    /** The `preferences` of the app context, used for job recommendations. */
    var preferences: Record

    /** The initial state: the draft is the profile itself, nothing is being edited. */
    constructor (initial: Record, context: Record)
      ensures profile == initial && formData == initial
      ensures !editMode && skillInput == "" && preferences == context
      ensures profileImage == if Truthy(Get(initial, "profileImage")) then Get(initial, "profileImage") else Null
    {
      profile := initial;
      formData := initial;
      editMode := false;
      skillInput := "";
      profileImage := if Truthy(Get(initial, "profileImage")) then Get(initial, "profileImage") else Null;
      preferences := context;
    }

    /** The edit buttons: `setEditMode(true)`, nothing else. */
    method StartEditing()
      modifies this
      ensures editMode
      ensures profile == old(profile) && formData == old(formData) && skillInput == old(skillInput)
      ensures profileImage == old(profileImage) && preferences == old(preferences)
    {
      editMode := true;
    }

    /** The Cancel button: `setEditMode(false)`. The draft keeps its edits and the
        committed profile is not touched. */
    method Cancel()
      modifies this
      ensures !editMode
      ensures profile == old(profile) && formData == old(formData) && skillInput == old(skillInput)
      ensures profileImage == old(profileImage) && preferences == old(preferences)
    {
      editMode := false;
    }

    /** The skill text box: `setSkillInput(e.target.value)`. */
    method SetSkillInput(text: string)
      modifies this
      ensures skillInput == text
      ensures profile == old(profile) && formData == old(formData) && editMode == old(editMode)
      ensures profileImage == old(profileImage) && preferences == old(preferences)
    {
      skillInput := text;
    }

    /** `handleInputChange`. */
    method HandleInputChange(name: string, value: string)
      modifies this
      ensures formData == InputChange(old(formData), name, value)
      ensures profile == old(profile) && editMode == old(editMode) && skillInput == old(skillInput)
      ensures profileImage == old(profileImage) && preferences == old(preferences)
    {
      formData := InputChange(formData, name, value);
    }

    /** `handleCheckboxChange`. */
    method HandleCheckboxChange(name: string, checked: bool)
      requires CheckboxDefined(formData, name)
      modifies this
      ensures formData == CheckboxChange(old(formData), name, checked)
      ensures profile == old(profile) && editMode == old(editMode) && skillInput == old(skillInput)
      ensures profileImage == old(profileImage) && preferences == old(preferences)
    {
      formData := CheckboxChange(formData, name, checked);
    }

    /** `handleSkillAdd`: an accepted skill is appended and the text box cleared;
        otherwise both stay as they are. */
    method HandleSkillAdd()
      requires SkillAddDefined(formData, skillInput)
      modifies this
      ensures AcceptsSkill(old(formData), old(skillInput)) ==>
        formData == SkillAdded(old(formData), old(skillInput)) && skillInput == ""
      ensures !AcceptsSkill(old(formData), old(skillInput)) ==>
        formData == old(formData) && skillInput == old(skillInput)
      ensures profile == old(profile) && editMode == old(editMode)
      ensures profileImage == old(profileImage) && preferences == old(preferences)
    {
      if AcceptsSkill(formData, skillInput) {
        formData := SkillAdded(formData, skillInput);
        skillInput := "";
      }
    }

    /** `handleSkillRemove`. */
    method HandleSkillRemove(skill: string)
      requires Get(formData, "skills").Arr?
      modifies this
      ensures formData == SkillRemoved(old(formData), skill)
      ensures profile == old(profile) && editMode == old(editMode) && skillInput == old(skillInput)
      ensures profileImage == old(profileImage) && preferences == old(preferences)
    {
      formData := SkillRemoved(formData, skill);
    }

    /** `handleJobTypeChange`. */
    method HandleJobTypeChange(jobType: string, checked: bool)
      requires JobTypesDefined(formData)
      modifies this
      ensures formData == JobTypeChange(old(formData), jobType, checked)
      ensures profile == old(profile) && editMode == old(editMode) && skillInput == old(skillInput)
      ensures profileImage == old(profileImage) && preferences == old(preferences)
    {
      var updated := JobTypeChange(formData, jobType, checked);
      formData := updated;
    }

    /** `addExperienceEntry`. */
    method AddExperienceEntry()
      requires Get(formData, "experience").Arr?
      modifies this
      ensures formData == ExperienceAdded(old(formData))
      ensures profile == old(profile) && editMode == old(editMode) && skillInput == old(skillInput)
      ensures profileImage == old(profileImage) && preferences == old(preferences)
    {
      formData := ExperienceAdded(formData);
    }

    /** `handleExperienceChange`: copies the entries, replaces the one at `index`
        in the copy and stores the copy in the draft. */
    method HandleExperienceChange(index: nat, field: string, value: string)
      requires Get(formData, "experience").Arr? && index < |Experience(formData)|
      modifies this
      ensures formData == ExperienceChanged(old(formData), index, field, value)
      ensures profile == old(profile) && editMode == old(editMode) && skillInput == old(skillInput)
      ensures profileImage == old(profileImage) && preferences == old(preferences)
    {
      var updated := CopyOf(Experience(formData));
      updated[index] := Obj(Spread(updated[index])[field := Str(value)]);
      formData := formData["experience" := Arr(updated[..])];
    }

    /** `removeExperienceEntry`: copies the entries, splices the copy in place and
        stores it in the draft; `splice` does nothing for an index past the end. */
    method RemoveExperienceEntry(index: nat)
      requires Get(formData, "experience").Arr?
      modifies this
      ensures formData == ExperienceRemoved(old(formData), index)
      ensures profile == old(profile) && editMode == old(editMode) && skillInput == old(skillInput)
      ensures profileImage == old(profileImage) && preferences == old(preferences)
    {
      var updated := CopyOf(Experience(formData));
      var entries := updated[..];
      if index < updated.Length {
        RemoveAt(updated, index);
        entries := updated[..updated.Length - 1];
      }
      formData := formData["experience" := Arr(entries)];
    }

    /** `handleSubmit`: the draft becomes the committed profile, the app preferences
        take location, role and experience from it, and editing ends. */
    method HandleSubmit()
      requires SubmitDefined(formData)
      modifies this
      ensures profile == old(formData) && formData == old(formData)
      ensures preferences == SubmittedPreferences(old(preferences), old(formData))
      ensures !editMode
      ensures skillInput == old(skillInput) && profileImage == old(profileImage)
    {
      profile := formData;
      preferences := SubmittedPreferences(preferences, formData);
      editMode := false;
    }

    /** The `onloadend` callback of an image upload, given the data URL it read: the
        shown image and the draft's `profileImage` both become that string. */
    method HandleImageLoaded(dataUrl: string)
      modifies this
      ensures profileImage == Str(dataUrl)
      ensures formData == old(formData)["profileImage" := Str(dataUrl)]
      ensures profile == old(profile) && editMode == old(editMode) && skillInput == old(skillInput)
      ensures preferences == old(preferences)
    {
      profileImage := Str(dataUrl);
      formData := formData["profileImage" := Str(dataUrl)];
    }
  }
}
