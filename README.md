# Job-seeker profile section: a Dafny model

This project models the logic of the job-seeker profile page of a professional
networking web application (`ProfileSection`, a React component). It covers three parts:

- **The draft session.** The page holds a committed `profile` and a draft `formData`.
  It also holds the pending skill text, an edit-mode flag, the shown profile image and
  the app-level job preferences. The form's handlers edit the draft one event at a time:
  - set a top-level or a two-level nested field;
  - set a two- or three-level checkbox toggle;
  - add or remove a skill;
  - include or exclude a job type;
  - add, change or remove an experience entry.

  Submit copies the draft over the profile and derives the app preferences
  `location`, `role` and `experience` from it. Cancel only leaves edit mode.
- **The completeness evaluator.** It runs six named checks on the committed profile.
  The names that pass and those that do not go into two lists, each in declaration
  order, together with the rounded share that passes.
- **The strength evaluator.** It uses a table of eight categories. A category is
  complete when every field in it passes: an array field of a category with a
  minimum count needs that many elements, any other field needs a truthy value. The
  evaluator reports the rounded share of complete categories, the incomplete
  categories in table order, and a text label chosen by fixed thresholds.

The profile is a dynamically typed JavaScript object. The handlers update fields by
name, through `as any` casts. So the model represents values as JavaScript values
(`JsValue.Value`: undefined, null, booleans, numbers, strings, arrays and objects) and
a profile as a record of them. It also models the parts of JavaScript the code relies
on:

- truthiness;
- property access;
- object spread;
- the loose comparisons `>` and `>=` against a number;
- `String.prototype.trim` and `split`;
- `Array.prototype.filter`.

The model keeps the code's quirks as written:

- An input named `preferences.salaryRange.min` replaces the whole `salaryRange` object
  with a string, because only the first two name segments are used.
- `splice` with an index past the end changes nothing.
- Cancel keeps the draft's edits.
- An empty education array counts as present.

Modules:

- `JsString`, `JsArray`, `JsValue`: the JavaScript semantics listed above.
- `Scoring`: `Math.round(count / total * 100)`.
- `Completeness`: `updateProfileCompleteness`.
- `Strength`: the category table, `calculateCompleteness`, `getMissingFields` and
  `getStrengthDescription`.
- `Draft`: each handler's edit as a function from the old draft to the new one.
- `ProfileSession`: the page state as a class `Session`. Its handler methods state
  their effect through the `Draft` functions. The copies of the experience list that
  the code changes in place are arrays.

Where the code would throw a TypeError (a property read on `null` or `undefined`),
or where it relies on the declared `Profile` type for an array, the member states that
as its precondition.

## Model

| member | source | states |
|---|---|---|
| JsString.Trim | client/src/components/job-seeker/ProfileSection.tsx:76-79 | `trim()` returns the infix of the input without leading or trailing whitespace; everything outside it is whitespace; the result is empty exactly when the input is blank |
| JsString.Split | client/src/components/job-seeker/ProfileSection.tsx:57 | `split('.')` gives one piece more than there are dots; no piece contains a dot; joining the pieces with dots gives the name back |
| JsString.SplitHasSecondSegment | client/src/components/job-seeker/ProfileSection.tsx:55-57 | `name.includes('.')` holds exactly when the split yields a second segment, so the nested branch always has a parent and a child |
| JsString.SplitAfterFirst | client/src/components/job-seeker/ProfileSection.tsx:96 | a dot-free first segment followed by a dot splits into that segment, then the segments of the rest |
| JsString.DecimalInjective | client/src/components/job-seeker/ProfileSection.tsx:192 | different array indices have different decimal keys, so `skills[0]` reads exactly element 0 |
| JsValue.MemberAtIndex | client/src/components/job-seeker/ProfileSection.tsx:192 | `a[i]` on an array reads element `i` |
| JsValue.Truthy | client/src/components/job-seeker/ProfileSection.tsx:248 | `!!v` is false exactly for `undefined`, `null`, `false`, `0` and `""`, and true for every other value, including empty arrays and objects |
| JsValue.Spread | client/src/components/job-seeker/ProfileSection.tsx:63 | `{...v}` of an object gives its own properties; spreading `null`, `undefined`, a boolean or a number gives no properties |
| JsValue.Member | client/src/components/job-seeker/ProfileSection.tsx:34-37 | `v[key]` on an object reads its own property or `undefined`; `length` of an array is its element count and `length` of a string its count of UTF-16 code units; booleans and numbers have no own properties |
| JsValue.Utf16Length | client/src/components/job-seeker/ProfileSection.tsx:34 | a string's `length` is between its character count and twice that; a single character counts one unit up to U+FFFF and two (a surrogate pair) above it; an all-BMP string has one unit per character and an all-astral string two |
| JsValue.Utf16LengthAppend | client/src/components/job-seeker/ProfileSection.tsx:34 | the `length` of a concatenation is the sum of the parts' lengths, so with the one-character case every string's length is its count of UTF-16 units |
| JsValue.Without | client/src/components/job-seeker/ProfileSection.tsx:88 | `filter(x => x !== v)` for a string `v` drops exactly the elements equal to `v` and keeps every other element as often as it occurs, in its order; a list without duplicates stays without duplicates |
| JsValue.WithoutAbsent | client/src/components/job-seeker/ProfileSection.tsx:139 | filtering out a string that does not occur leaves the list unchanged |
| JsValue.WithoutAppend | client/src/components/job-seeker/ProfileSection.tsx:139 | filtering out a string distributes over concatenation |
| JsArray.FilterKeepsAccepted | client/src/components/job-seeker/ProfileSection.tsx:41-42 | the filtered list holds exactly the elements the callback accepts |
| JsArray.FilterKeepsOrder | client/src/components/job-seeker/ProfileSection.tsx:41-42 | the filtered list is a subsequence of the input (declaration order kept) |
| JsArray.FilterSplitsLength | client/src/components/job-seeker/ProfileSection.tsx:41-42 | a filter and its complement put every element in exactly one of the two lists, and their lengths add up to the input's |
| JsArray.FilterStep | client/src/components/job-seeker/ProfileSection.tsx:238-251 | filtering one element more raises the count by one exactly when that element is accepted |
| JsArray.Filter | client/src/components/job-seeker/ProfileSection.tsx:41-42 | `filter` keeps only accepted elements and never makes the list longer |
| JsArray.FilterKeepsCounts | client/src/components/job-seeker/ProfileSection.tsx:88 | each accepted value occurs in the filtered list exactly as often as in the input, and a rejected one not at all |
| JsArray.FilterKeepsDistinct | client/src/components/job-seeker/ProfileSection.tsx:139 | filtering a list without duplicates gives a list without duplicates |
| Scoring.RoundedPercent | client/src/components/job-seeker/ProfileSection.tsx:43 | `Math.round(count / total * 100)` is the integer nearest to `100 * count / total`, with halves rounded up, and is at most 100 for a share of at most the whole |
| Scoring.SixthsPercent | client/src/components/job-seeker/ProfileSection.tsx:43 | with six checks the percentage is one of 0, 17, 33, 50, 67, 83, 100; it is 100 only when all pass and 0 only when none does |
| Scoring.EighthsPercent | client/src/components/job-seeker/ProfileSection.tsx:254 | with eight categories the percentage is one of 0, 13, 25, 38, 50, 63, 75, 88, 100; it is 100 only when all are complete and 0 only when none is |
| Completeness.ChecksAgree | client/src/components/job-seeker/ProfileSection.tsx:32-39 | `Object.keys(fields)` lists the six check names in declaration order; looking a name up in `fields` gives its check |
| Completeness.Checks | client/src/components/job-seeker/ProfileSection.tsx:32-39 | the `fields` object has exactly the six check names as keys |
| Completeness.LongerThan | client/src/components/job-seeker/ProfileSection.tsx:34-37 | `x && x.length > k` (`k >= 0`) for a string compares its UTF-16 length and for an array its element count; it is false for `null` and `undefined` |
| Completeness.AtLeastLong | client/src/components/job-seeker/ProfileSection.tsx:35 | `x && x.length >= k` (`k >= 1`) for a string compares its UTF-16 length and for an array its element count; it is false for `null` and `undefined` |
| Completeness.HasBasicInfo | client/src/components/job-seeker/ProfileSection.tsx:33 | "Basic Info" needs name, position and location present; for string fields it holds exactly when all three are non-empty |
| Completeness.HasAbout | client/src/components/job-seeker/ProfileSection.tsx:34 | "About Me" holds for a string exactly when it is longer than 20 UTF-16 code units, and never for a missing about |
| Completeness.AstralAboutPasses | client/src/components/job-seeker/ProfileSection.tsx:34 | an about text of eleven characters above U+FFFF (22 code units) passes "About Me" |
| Completeness.HasSkills | client/src/components/job-seeker/ProfileSection.tsx:35 | "Skills" holds for an array exactly when it has at least three elements, and never for missing skills |
| Completeness.HasExperience | client/src/components/job-seeker/ProfileSection.tsx:36 | "Experience" holds for an array exactly when it has at least one entry, and never for missing experience |
| Completeness.HasResume | client/src/components/job-seeker/ProfileSection.tsx:37 | "Resume" holds for an array of documents exactly when it has at least one, and never for missing documents |
| Completeness.HasJobPreferences | client/src/components/job-seeker/ProfileSection.tsx:38 | "Job Preferences" holds for a preferences object exactly when its location is truthy, and never for missing preferences |
| Completeness.FailsNegatesPasses | client/src/components/job-seeker/ProfileSection.tsx:41-42 | the pending callback `key => !fields[key]` is the negation of the completed one |
| Completeness.CompletedChecks | client/src/components/job-seeker/ProfileSection.tsx:32-41 | each of the six names is in the completed list exactly when its check passes |
| Completeness.UpdateProfileCompleteness | client/src/components/job-seeker/ProfileSection.tsx:31-50 | "Basic Info" is completed iff name, position and location are truthy; "About Me" iff about is longer than 20 (UTF-16 code units for a string); "Skills" iff there are at least 3; "Experience" and "Resume" iff there is at least one entry or document; "Job Preferences" iff the preferences have a truthy location. Pending holds exactly the other names. Both lists keep declaration order and together hold six names. The percentage is the rounded share of completed names, one of seven values, and is 100 exactly when nothing is pending |
| Completeness.OnlyBasicInfoReport | client/src/components/job-seeker/ProfileSection.tsx:31-50 | a profile that passes only the basic-information check gets completed = ["Basic Info"], the five other names pending in order, and 17% |
| Completeness.BasicInfoOnlyChecks | client/src/components/job-seeker/ProfileSection.tsx:32-39 | a concrete profile with a six-character about text, two skills, empty experience and documents, and an empty location preference passes only the first check |
| Completeness.BasicInfoOnlyScenario | client/src/components/job-seeker/ProfileSection.tsx:31-50 | that concrete profile's report is ["Basic Info"], the five others, 17% |
| Completeness.FirstOnly | client/src/components/job-seeker/ProfileSection.tsx:41-42 | filtering with a callback that accepts only the first element gives that element alone, and filtering with its complement gives the rest in order |
| Strength.CategoryTable | client/src/components/job-seeker/ProfileSection.tsx:223-232 | the table has eight distinct categories with distinct names; exactly Skills, Experience, Documents and Career Highlights have a minimum count, and each of those checks one field |
| Strength.FieldPasses | client/src/components/job-seeker/ProfileSection.tsx:240-248 | a field of a category without a minimum count passes exactly when it is truthy; an empty array passes exactly when there is no minimum count; a missing field never passes |
| Strength.CategoryComplete | client/src/components/job-seeker/ProfileSection.tsx:239-249 | a category is complete exactly when every one of its fields passes |
| Strength.GetMissingFields | client/src/components/job-seeker/ProfileSection.tsx:259-273 | the missing list holds exactly the incomplete categories of the table, in table order |
| Strength.CalculateCompleteness | client/src/components/job-seeker/ProfileSection.tsx:234-255 | the loop counts the complete categories: the percentage is the rounded share of categories that the missing list leaves out, one of nine values |
| Strength.MissingIffIncomplete | client/src/components/job-seeker/ProfileSection.tsx:259-273 | a category of the table is missing exactly when one of its fields fails |
| Strength.StrengthDescription | client/src/components/job-seeker/ProfileSection.tsx:278-284 | "Just starting" iff below 25, "Getting there" iff 25 to 49, "Almost complete" iff 50 to 74, "Very strong" iff 75 to 99, "All star profile!" iff 100 or more; each threshold belongs to the higher label |
| Strength.LabelMonotone | client/src/components/job-seeker/ProfileSection.tsx:278-284 | a higher percentage never gets a weaker label |
| Strength.LabelByCompletedCount | client/src/components/job-seeker/ProfileSection.tsx:278-284 | with `c` of eight categories complete the label is the `c / 2`-th label: 0-1 starting, 2-3 getting there, 4-5 almost, 6-7 very strong, 8 all star |
| Strength.AllStarIffNothingMissing | client/src/components/job-seeker/ProfileSection.tsx:278-284 | the top label is shown exactly when no category is missing |
| Strength.EmptyEducationCounts | client/src/components/job-seeker/ProfileSection.tsx:244-248 | an empty education array is truthy, so the Education category is not missing |
| Strength.BasicInfoAgrees | client/src/components/job-seeker/ProfileSection.tsx:224 | the Basic Information category is complete exactly when the completeness check "Basic Info" passes |
| Strength.AboutStricter | client/src/components/job-seeker/ProfileSection.tsx:225 | an about text that passes "About Me" (longer than 20) also completes Professional Summary (truthy) |
| Strength.SkillsAgree | client/src/components/job-seeker/ProfileSection.tsx:226 | for an array of skills, the Skills category and the "Skills" check agree (at least three) |
| Strength.ExperienceAgrees | client/src/components/job-seeker/ProfileSection.tsx:227 | for an array of experience entries, the Experience category and check agree (at least one) |
| Strength.DocumentsAgree | client/src/components/job-seeker/ProfileSection.tsx:229 | for an array of documents, the Documents category and the "Resume" check agree |
| Strength.ArrayCategory | client/src/components/job-seeker/ProfileSection.tsx:244-246 | a one-field category with a minimum count over an array is complete exactly when the array has that many elements |
| Draft.Segments | client/src/components/job-seeker/ProfileSection.tsx:57 | the name has at least two segments exactly when it contains a dot; a dot-free name is its only segment |
| Draft.TwoSegments | client/src/components/job-seeker/ProfileSection.tsx:57 | `a.b` with dot-free parts splits into `a` and `b` |
| Draft.ThreeSegments | client/src/components/job-seeker/ProfileSection.tsx:96 | `a.b.c` with dot-free parts splits into `a`, `b` and `c` |
| Draft.InputChange | client/src/components/job-seeker/ProfileSection.tsx:52-73 | a dot-free name sets that field to the string; a dotted name makes `parent` an object with `child` set to the string and every other property of `parent` kept; no field other than the first segment changes |
| Draft.DeeperSegmentsIgnored | client/src/components/job-seeker/ProfileSection.tsx:57 | `a.b.rest` edits exactly as `a.b` does: segments after the second are ignored |
| Draft.SalaryMinReplacesRange | client/src/components/job-seeker/ProfileSection.tsx:1221 | the input `preferences.salaryRange.min` sets `preferences.salaryRange` to the typed string |
| Draft.CheckboxChange | client/src/components/job-seeker/ProfileSection.tsx:92-122 | a dot-free name changes nothing; `parent.child` sets that boolean; `parent.child.sub` (non-empty `sub`) sets `sub` in a copy of `parent.child`; every other field and toggle keeps its value |
| Draft.DeepToggle | client/src/components/job-seeker/ProfileSection.tsx:96-111 | a toggle named `a.b.c` sets exactly the boolean `c` of `a.b`, keeping the other toggles of `a.b`, the other properties of `a` and the other fields |
| Draft.SkillAdded | client/src/components/job-seeker/ProfileSection.tsx:75-83 | an accepted skill (trimmed input non-empty and not yet listed) is appended after the existing skills; no other field changes; no duplicate is introduced |
| Draft.AcceptsSkill | client/src/components/job-seeker/ProfileSection.tsx:76 | the add guard accepts exactly a non-blank input whose trimmed form is not yet a skill |
| Draft.SkillRemoved | client/src/components/job-seeker/ProfileSection.tsx:85-90 | the skills afterwards are exactly those not equal to the argument, each as often as before, in their order; no other field changes |
| Draft.SkillAddThenRemove | client/src/components/job-seeker/ProfileSection.tsx:75-90 | adding an accepted skill and removing it gives the draft back |
| Draft.SkillAddedOnce | client/src/components/job-seeker/ProfileSection.tsx:76 | after a skill is added, the same input is no longer accepted |
| Draft.RemoveAbsentSkill | client/src/components/job-seeker/ProfileSection.tsx:85-90 | removing a skill that is not listed changes nothing |
| Draft.WithJobTypes | client/src/components/job-seeker/ProfileSection.tsx:127-141 | the draft's job types become the given list; other preferences and fields are kept |
| Draft.JobTypeChange | client/src/components/job-seeker/ProfileSection.tsx:124-143 | afterwards the type is listed exactly when `checked`; checking an absent type appends it; when the type's presence already matches `checked` nothing changes; the other types keep their order; other preferences and fields are kept; no duplicate is introduced |
| Draft.JobTypeChangeIdempotent | client/src/components/job-seeker/ProfileSection.tsx:124-143 | repeating a job type change changes nothing more |
| Draft.JobTypeCheckThenUncheck | client/src/components/job-seeker/ProfileSection.tsx:124-143 | checking an absent job type and unchecking it again gives the draft back |
| Draft.ExperienceAdded | client/src/components/job-seeker/ProfileSection.tsx:158-171 | one entry with empty company, position, period and description is appended; the earlier entries and the other fields are kept |
| Draft.ExperienceChanged | client/src/components/job-seeker/ProfileSection.tsx:145-156 | for an index inside the list, only that entry changes: it gets `field` set to the string and keeps its other properties |
| Draft.ExperienceRemoved | client/src/components/job-seeker/ProfileSection.tsx:173-181 | an index inside the list removes that entry and moves the later ones down by one; any other index changes nothing |
| Draft.AddThenRemoveLast | client/src/components/job-seeker/ProfileSection.tsx:158-181 | adding an entry and removing the last one gives the draft back |
| Draft.SubmittedPreferences | client/src/components/job-seeker/ProfileSection.tsx:188-193 | the app preferences keep every key but three: `location` from the draft's preferences, `role` from its position, `experience` from its first skill or "" |
| Draft.FirstSkillOrEmpty | client/src/components/job-seeker/ProfileSection.tsx:192 | `skills[0] || ""` is the first skill when that is truthy, and otherwise the empty string; it is never another falsy value |
| Draft.SubmittedExperience | client/src/components/job-seeker/ProfileSection.tsx:192 | for an array of skills, the derived experience is the first skill when it is truthy, and "" otherwise (including when there are no skills) |
| ProfileSession.CopyOf | client/src/components/job-seeker/ProfileSection.tsx:146 | `[...items]` is a fresh array with the same elements |
| ProfileSession.RemoveAt | client/src/components/job-seeker/ProfileSection.tsx:175 | `splice(index, 1)` shifts the later entries down in place; the array's first `length - 1` places then hold the list without entry `index` |
| ProfileSession.Session.constructor | client/src/components/job-seeker/ProfileSection.tsx:11-16 | the draft starts as the profile itself, not in edit mode, with empty skill text and the profile's image or `null` |
| ProfileSession.Session.StartEditing | client/src/components/job-seeker/ProfileSection.tsx:314 | the edit buttons set edit mode and change nothing else |
| ProfileSession.Session.Cancel | client/src/components/job-seeker/ProfileSection.tsx:891 | Cancel clears edit mode only: draft, profile and the other state are unchanged |
| ProfileSession.Session.SetSkillInput | client/src/components/job-seeker/ProfileSection.tsx:804 | typing in the skill box changes only the skill text |
| ProfileSession.Session.HandleInputChange | client/src/components/job-seeker/ProfileSection.tsx:52-73 | the draft becomes `InputChange` of the old draft; nothing else changes |
| ProfileSession.Session.HandleCheckboxChange | client/src/components/job-seeker/ProfileSection.tsx:92-122 | the draft becomes `CheckboxChange` of the old draft; nothing else changes |
| ProfileSession.Session.HandleSkillAdd | client/src/components/job-seeker/ProfileSection.tsx:75-83 | an accepted skill is appended and the skill text cleared; otherwise draft and skill text stay as they were; nothing else changes |
| ProfileSession.Session.HandleSkillRemove | client/src/components/job-seeker/ProfileSection.tsx:85-90 | the draft becomes `SkillRemoved` of the old draft; nothing else changes |
| ProfileSession.Session.HandleJobTypeChange | client/src/components/job-seeker/ProfileSection.tsx:124-143 | the draft becomes `JobTypeChange` of the old draft; nothing else changes |
| ProfileSession.Session.AddExperienceEntry | client/src/components/job-seeker/ProfileSection.tsx:158-171 | the draft becomes `ExperienceAdded` of the old draft; nothing else changes |
| ProfileSession.Session.HandleExperienceChange | client/src/components/job-seeker/ProfileSection.tsx:145-156 | assigning into a copied array gives `ExperienceChanged` of the old draft; nothing else changes |
| ProfileSession.Session.RemoveExperienceEntry | client/src/components/job-seeker/ProfileSection.tsx:173-181 | splicing a copied array in place gives `ExperienceRemoved` of the old draft; nothing else changes |
| ProfileSession.Session.HandleSubmit | client/src/components/job-seeker/ProfileSection.tsx:183-195 | the committed profile becomes the draft, the app preferences become `SubmittedPreferences`, edit mode ends; skill text and image are unchanged |
| ProfileSession.Session.HandleImageLoaded | client/src/components/job-seeker/ProfileSection.tsx:207-210 | the shown image and the draft's `profileImage` both become the loaded data URL; nothing else changes |

## Left out

- Rendering (JSX), framer-motion animation and Tailwind class strings are presentation only.
- The colour half of `getStrengthDescription`'s result is a class string; only the text is modelled.
- The category icons are carried in the table but nothing reads them.
- The success banner (`showSuccess` and its `setTimeout`) is timer-driven UI state and is not modelled.
- Image upload: reading the file with `FileReader` and `fileInputRef.click()` are browser I/O. `Session.HandleImageLoaded` takes the data URL the reader produced as a parameter.
- React scheduling: `useEffect` recomputes the completeness state from `profile` after every commit. The model has no completeness field; that state is `Completeness.UpdateProfileCompleteness(profile)`. The seeded initial completeness and the mock profile it comes from are not part of this model.
- `useAppContext`: the context preferences are the plain field `Session.preferences`. `setCurrentPage` is not modelled.
- The dotted-path `reduce` branch of the strength check is not modelled, since no category field contains a dot. Every field is read at the top level.
- Display-only derivations are not modelled: badge counts, "+N more" slicing, and the example e-mail built with `toLowerCase().replace`.
- `Math.round` on floating point is replaced by exact half-up integer rounding. It gives the same results for the totals 6 and 8 used here.
- `JsValue.LooseNumber`: for strings, arrays and objects, the operand of `>` or `>=` counts as NaN. JavaScript converts them through their string form. That difference is only reachable when a profile field has an own `length` property that is not a number.
- JsValue.Member: inherited prototype members are not modelled, and neither is the key order of objects.
- JsValue.Spread: a string is spread by code points, while JavaScript spreads it by UTF-16 code units: a character above U+FFFF gives one property here and two (its surrogate halves) there. Dafny characters cannot hold a lone surrogate. The component spreads a string only when a nested field it edits already holds one.
- Numbers (`Num` values) are integers. There is no NaN, no infinity, no fraction and no negative zero. The component only compares lengths and counts.
- Handler preconditions: a property read on `null` or `undefined` throws a TypeError. Each such case is a precondition, for example `CheckboxDefined` and `SubmitDefined`. Lists the declared `Profile` type promises as arrays are also required to be arrays: skills, experience and `preferences.jobTypes`. Other shapes, such as a string spread in their place, are left out.
- Draft.ExperienceChanged: requires an index inside the list. The form passes only the indices of existing entries. An index equal to the length would append an entry holding only `field` (lines 147-150 spread `undefined`, which gives no properties). A larger index would create a sparse array. The model represents neither case.
- ProfileSession.Session.HandleExperienceChange: the same restriction to indices inside the list.
- ProfileSession.Session.RemoveExperienceEntry: takes a natural-number index, as the form passes. `splice` with a negative index, which counts from the end, is not modelled.
