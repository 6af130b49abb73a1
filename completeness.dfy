/** `updateProfileCompleteness`: six named presence checks on the committed profile,
    split into the names that pass and those that do not (both in the order the
    checks are declared), with the rounded share that passes. */
module Completeness {
  import opened JsValue
  import opened JsArray
  import opened Scoring

  datatype Report = Report(percentage: nat, completed: seq<string>, pending: seq<string>)

  /** `Object.keys(fields)`: the check names in declaration order. */
  const CheckNames: seq<string> :=
    ["Basic Info", "About Me", "Skills", "Experience", "Resume", "Job Preferences"]

  /** `x && x.length > k` and `x && x.length >= k` guard the length read with truthiness,
      so `length` is never read from `null` or `undefined`. A string's length counts
      UTF-16 code units, an array's its elements. */
  predicate LongerThan(v: Value, k: int)
    ensures k >= 0 && v.Str? ==> (LongerThan(v, k) <==> Utf16Length(v.s) > k)
    ensures v.Arr? ==> (LongerThan(v, k) <==> |v.items| > k)
    ensures Nullish(v) ==> !LongerThan(v, k)
  {
    Truthy(v) && MoreThan(Member(v, "length"), k)
  }

  predicate AtLeastLong(v: Value, k: int)
    ensures k >= 1 && v.Str? ==> (AtLeastLong(v, k) <==> Utf16Length(v.s) >= k)
    ensures v.Arr? ==> (AtLeastLong(v, k) <==> |v.items| >= k)
    ensures Nullish(v) ==> !AtLeastLong(v, k)
  {
    Truthy(v) && AtLeast(Member(v, "length"), k)
  }

  /** "Basic Info": name, position and location are all truthy; for the declared
      string fields, all three are non-empty. */
  predicate HasBasicInfo(p: Record)
    ensures HasBasicInfo(p) ==> "name" in p && "position" in p && "location" in p
    ensures Get(p, "name").Str? && Get(p, "position").Str? && Get(p, "location").Str? ==>
      (HasBasicInfo(p) <==> Get(p, "name").s != "" && Get(p, "position").s != "" && Get(p, "location").s != "")
  {
    Truthy(Get(p, "name")) && Truthy(Get(p, "position")) && Truthy(Get(p, "location"))
  }

  /** "About Me": the about text is longer than 20 UTF-16 code units. */
  predicate HasAbout(p: Record)
    ensures Get(p, "about").Str? ==> (HasAbout(p) <==> Utf16Length(Get(p, "about").s) > 20)
    ensures Nullish(Get(p, "about")) ==> !HasAbout(p)
  {
    LongerThan(Get(p, "about"), 20)
  }

  /** "Skills": at least three skills. */
  predicate HasSkills(p: Record)
    ensures Get(p, "skills").Arr? ==> (HasSkills(p) <==> |Get(p, "skills").items| >= 3)
    ensures Nullish(Get(p, "skills")) ==> !HasSkills(p)
  {
    AtLeastLong(Get(p, "skills"), 3)
  }

  /** "Experience": at least one entry. */
  predicate HasExperience(p: Record)
    ensures Get(p, "experience").Arr? ==> (HasExperience(p) <==> |Get(p, "experience").items| >= 1)
    ensures Nullish(Get(p, "experience")) ==> !HasExperience(p)
  {
    LongerThan(Get(p, "experience"), 0)
  }

  /** "Resume": at least one document. */
  predicate HasResume(p: Record)
    ensures Get(p, "documents").Arr? ==> (HasResume(p) <==> |Get(p, "documents").items| >= 1)
    ensures Nullish(Get(p, "documents")) ==> !HasResume(p)
  {
    LongerThan(Get(p, "documents"), 0)
  }

  /** "Job Preferences": the preferences object has a truthy location. */
  predicate HasJobPreferences(p: Record)
    ensures Get(p, "preferences").Obj? ==>
      (HasJobPreferences(p) <==> Truthy(Get(Get(p, "preferences").fields, "location")))
    ensures Nullish(Get(p, "preferences")) ==> !HasJobPreferences(p)
  {
    var prefs := Get(p, "preferences");
    Truthy(prefs) && Truthy(Member(prefs, "location"))
  }

  /** An about text of eleven characters above U+FFFF is 22 code units long, so it
      passes "About Me" although it has only eleven characters. */
  lemma AstralAboutPasses(p: Record)
    requires Get(p, "about") == Str(seq(11, _ => '\U{1F600}'))
    ensures HasAbout(p)
  {
  }

  /** The `fields` object: each check name mapped to the truthiness of its expression. */
  function Checks(p: Record): (m: map<string, bool>)
    ensures forall k :: k in m <==> k in CheckNames
  {
    map[
      "Basic Info" := HasBasicInfo(p),
      "About Me" := HasAbout(p),
      "Skills" := HasSkills(p),
      "Experience" := HasExperience(p),
      "Resume" := HasResume(p),
      "Job Preferences" := HasJobPreferences(p)
    ]
  }

  /** `key => fields[key]` and `key => !fields[key]`, the two filter callbacks. */
  function Passes(p: Record): string -> bool {
    key => key in Checks(p) && Checks(p)[key]
  }

  function Fails(p: Record): string -> bool {
    key => !(key in Checks(p) && Checks(p)[key])
  }

  /** Looking up each check name in the `fields` object. The six lookups are proved
      in three groups below, so that each proof obligation stays small. */
  lemma ChecksAgree(p: Record)
    ensures CheckNames[0] == "Basic Info" && Passes(p)("Basic Info") == HasBasicInfo(p)
    ensures CheckNames[1] == "About Me" && Passes(p)("About Me") == HasAbout(p)
    ensures CheckNames[2] == "Skills" && Passes(p)("Skills") == HasSkills(p)
    ensures CheckNames[3] == "Experience" && Passes(p)("Experience") == HasExperience(p)
    ensures CheckNames[4] == "Resume" && Passes(p)("Resume") == HasResume(p)
    ensures CheckNames[5] == "Job Preferences" && Passes(p)("Job Preferences") == HasJobPreferences(p)
  {
    ProfileLookups(p);
    ListLookups(p);
    DocumentAndPreferenceLookups(p);
  }

  lemma ProfileLookups(p: Record)
    ensures CheckNames[0] == "Basic Info" && Passes(p)("Basic Info") == HasBasicInfo(p)
    ensures CheckNames[1] == "About Me" && Passes(p)("About Me") == HasAbout(p)
  {
  }

  lemma ListLookups(p: Record)
    ensures CheckNames[2] == "Skills" && Passes(p)("Skills") == HasSkills(p)
    ensures CheckNames[3] == "Experience" && Passes(p)("Experience") == HasExperience(p)
  {
  }

  lemma DocumentAndPreferenceLookups(p: Record)
    ensures CheckNames[4] == "Resume" && Passes(p)("Resume") == HasResume(p)
    ensures CheckNames[5] == "Job Preferences" && Passes(p)("Job Preferences") == HasJobPreferences(p)
  {
  }

  /** The pending callback is the negation of the completed one. */
  lemma FailsNegatesPasses(p: Record)
    ensures forall k :: Fails(p)(k) == !Passes(p)(k)
  {
  }

  /** The completeness report of a profile. `completed` holds exactly the names whose
      check passes and `pending` exactly the others; both keep the declaration order,
      together they account for all six names, and the percentage is the rounded
      share of passing checks, one of 0, 17, 33, 50, 67, 83, 100. */
  function UpdateProfileCompleteness(p: Record): (r: Report)
    ensures IsSubsequence(r.completed, CheckNames) && IsSubsequence(r.pending, CheckNames)
    ensures "Basic Info" in r.completed <==> HasBasicInfo(p)
    ensures "About Me" in r.completed <==> HasAbout(p)
    ensures "Skills" in r.completed <==> HasSkills(p)
    ensures "Experience" in r.completed <==> HasExperience(p)
    ensures "Resume" in r.completed <==> HasResume(p)
    ensures "Job Preferences" in r.completed <==> HasJobPreferences(p)
    ensures forall k :: k in r.pending <==> k in CheckNames && k !in r.completed
    ensures |r.completed| + |r.pending| == |CheckNames|
    ensures r.percentage == RoundedPercent(|r.completed|, |CheckNames|)
    ensures r.percentage in {0, 17, 33, 50, 67, 83, 100}
    ensures r.percentage == 100 <==> r.pending == []
  {
    var completed := Filter(CheckNames, Passes(p));
    var pending := Filter(CheckNames, Fails(p));
    CompletedChecks(p);
    FailsNegatesPasses(p);
    FilterKeepsOrder(CheckNames, Passes(p));
    FilterKeepsOrder(CheckNames, Fails(p));
    FilterSplitsLength(CheckNames, Passes(p), Fails(p));
    SixthsPercent(|completed|);
    Report(RoundedPercent(|completed|, |CheckNames|), completed, pending)
  }

  /** A check name is among the completed ones exactly when its check passes. */
  lemma CompletedChecks(p: Record)
    ensures var completed := Filter(CheckNames, Passes(p));
      && ("Basic Info" in completed <==> HasBasicInfo(p))
      && ("About Me" in completed <==> HasAbout(p))
      && ("Skills" in completed <==> HasSkills(p))
      && ("Experience" in completed <==> HasExperience(p))
      && ("Resume" in completed <==> HasResume(p))
      && ("Job Preferences" in completed <==> HasJobPreferences(p))
  {
    ChecksAgree(p);
    FilterKeepsAccepted(CheckNames, Passes(p));
    assert CheckNames[0] in CheckNames && CheckNames[1] in CheckNames && CheckNames[2] in CheckNames;
    assert CheckNames[3] in CheckNames && CheckNames[4] in CheckNames && CheckNames[5] in CheckNames;
  }

  /** A profile with only its basic information filled in: a short about text,
      two skills, no experience, no documents and no location preference. */
  const BasicInfoOnly: Record := map[
    "name" := Str("Ana"), "position" := Str("Dev"), "location" := Str("NYC"),
    "about" := Str("Short."), "skills" := Arr([Str("a"), Str("b")]),
    "experience" := Arr([]), "documents" := Arr([]),
    "preferences" := Obj(map["location" := Str("")])]

  /** Of the six checks, that profile passes only the first. */
  lemma BasicInfoOnlyChecks()
    ensures HasBasicInfo(BasicInfoOnly) && !HasAbout(BasicInfoOnly) && !HasSkills(BasicInfoOnly)
    ensures !HasExperience(BasicInfoOnly) && !HasResume(BasicInfoOnly)
    ensures !HasJobPreferences(BasicInfoOnly)
  {
    var p := BasicInfoOnly;
    assert Get(p, "about") == Str("Short.") && Get(p, "skills") == Arr([Str("a"), Str("b")]);
    assert Get(p, "experience") == Arr([]) && Get(p, "documents") == Arr([]);
  }

  /** Its report: only "Basic Info" is completed, the five others are pending, 17%. */
  lemma BasicInfoOnlyScenario()
    ensures UpdateProfileCompleteness(BasicInfoOnly).completed == ["Basic Info"]
    ensures UpdateProfileCompleteness(BasicInfoOnly).pending
      == ["About Me", "Skills", "Experience", "Resume", "Job Preferences"]
    ensures UpdateProfileCompleteness(BasicInfoOnly).percentage == 17
  {
    BasicInfoOnlyChecks();
    OnlyBasicInfoReport(BasicInfoOnly);
  }

  /** A profile that passes only the basic-information check has this report. */
  lemma OnlyBasicInfoReport(p: Record)
    requires HasBasicInfo(p) && !HasAbout(p) && !HasSkills(p)
    requires !HasExperience(p) && !HasResume(p) && !HasJobPreferences(p)
    ensures UpdateProfileCompleteness(p).completed == ["Basic Info"]
    ensures UpdateProfileCompleteness(p).pending
      == ["About Me", "Skills", "Experience", "Resume", "Job Preferences"]
    ensures UpdateProfileCompleteness(p).percentage == 17
  {
    OnlyFirstPasses(p);
    FailsNegatesPasses(p);
    FirstOnly(CheckNames, Passes(p), Fails(p));
    FirstAndRest();
    SixthsPercent(1);
  }

  lemma FirstAndRest()
    ensures CheckNames[..1] == ["Basic Info"]
    ensures CheckNames[1..] == ["About Me", "Skills", "Experience", "Resume", "Job Preferences"]
  {
  }

  lemma OnlyFirstPasses(p: Record)
    requires HasBasicInfo(p) && !HasAbout(p) && !HasSkills(p)
    requires !HasExperience(p) && !HasResume(p) && !HasJobPreferences(p)
    ensures Passes(p)(CheckNames[0]) && forall i :: 1 <= i < |CheckNames| ==> !Passes(p)(CheckNames[i])
  {
    ChecksAgree(p);
  }

  /** Filtering with a callback that accepts only the first element, and with its
      complement, splits off the first element. */
  lemma {:induction false} FirstOnly<T>(xs: seq<T>, keep: T -> bool, drop: T -> bool)
    requires |xs| >= 1 && keep(xs[0]) && forall i :: 1 <= i < |xs| ==> !keep(xs[i])
    requires forall x :: drop(x) == !keep(x)
    ensures Filter(xs, keep) == xs[..1]
    ensures Filter(xs, drop) == xs[1..]
  {
    if |xs| > 1 {
      var init := xs[..|xs| - 1];
      FirstOnly(init, keep, drop);
      assert init[..1] == xs[..1] && init[1..] + [xs[|xs| - 1]] == xs[1..];
    } else {
      assert xs[..0] == [];
    }
  }
}
