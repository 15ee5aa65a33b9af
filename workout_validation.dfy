/** The form schema of lib/validations/workout.ts: the inputs of the workout generator.

    The numeric fields arrive as text and are converted with `Number(value)`; the model
    takes the converted value, `None` standing for `NaN`. */
module WorkoutValidation {
  import opened Wrappers

  datatype Gender = Male | Female | OtherGender
  datatype Goal = WeightLoss | MuscleGain | Maintenance

  function GenderName(g: Gender): string
  {
    match g
    case Male => "male"
    case Female => "female"
    case OtherGender => "other"
  }

  function GoalName(g: Goal): string
  {
    match g
    case WeightLoss => "weight_loss"
    case MuscleGain => "muscle_gain"
    case Maintenance => "maintenance"
  }

  /** `z.enum(["male", "female", "other"])`. */
  function ParseGender(s: string): (r: Option<Gender>)
    ensures r.Some? <==> s == "male" || s == "female" || s == "other"
    ensures r.Some? ==> GenderName(r.value) == s
  {
    if s == "male" then Some(Male)
    else if s == "female" then Some(Female)
    else if s == "other" then Some(OtherGender)
    else None
  }

  /** `z.enum(["weight_loss", "muscle_gain", "maintenance"])`. */
  function ParseGoal(s: string): (r: Option<Goal>)
    ensures r.Some? <==> s == "weight_loss" || s == "muscle_gain" || s == "maintenance"
    ensures r.Some? ==> GoalName(r.value) == s
  {
    if s == "weight_loss" then Some(WeightLoss)
    else if s == "muscle_gain" then Some(MuscleGain)
    else if s == "maintenance" then Some(Maintenance)
    else None
  }

  lemma GenderRoundTrip(g: Gender)
    ensures ParseGender(GenderName(g)) == Some(g)
  {
  }

  lemma GoalRoundTrip(g: Goal)
    ensures ParseGoal(GoalName(g)) == Some(g)
  {
  }

  /** The raw form values. */
  datatype FormInput = FormInput(
    title: string,
    description: Option<string>,
    exerciseTarget: string,
    age: Option<real>,
    weight: Option<real>,
    height: Option<real>,
    gender: string,
    goal: string)

  /** The parsed form values (`WorkoutFormValues`). */
  datatype FormValues = FormValues(
    title: string,
    description: Option<string>,
    exerciseTarget: string,
    age: real,
    weight: real,
    height: real,
    gender: Gender,
    goal: Goal)

  datatype Field = Title | ExerciseTarget | Age | Weight | Height | GenderField | GoalField

  datatype Issue = Issue(field: Field, message: string)

  const Required := "Required"
  const AgeNotNumber := "Age must be a number"
  const AgeOutOfRange := "Age must be between 15 and 100"
  const WeightNotNumber := "Weight must be a number"
  const WeightOutOfRange := "Weight must be between 30 and 300 kg"
  const HeightNotNumber := "Height must be a number"
  const HeightOutOfRange := "Height must be between 100 and 250 cm"
  const InvalidEnum := "Invalid enum value"

  predicate InRange(n: Option<real>, lo: real, hi: real)
  {
    n.Some? && lo <= n.value <= hi
  }

  /** The acceptance rule of each field on its own. */
  predicate FieldOk(input: FormInput, f: Field)
  {
    match f
    case Title => |input.title| >= 1
    case ExerciseTarget => |input.exerciseTarget| >= 1
    case Age => InRange(input.age, 15.0, 100.0)
    case Weight => InRange(input.weight, 30.0, 300.0)
    case Height => InRange(input.height, 100.0, 250.0)
    case GenderField => ParseGender(input.gender).Some?
    case GoalField => ParseGoal(input.goal).Some?
  }

  /** The form is valid when every field is. */
  predicate Accepts(input: FormInput)
  {
    forall f :: FieldOk(input, f)
  }

  /** `Accepts` spelled out field by field. */
  lemma AcceptsIffEveryField(input: FormInput)
    ensures Accepts(input) <==>
      && |input.title| >= 1 && |input.exerciseTarget| >= 1
      && InRange(input.age, 15.0, 100.0)
      && InRange(input.weight, 30.0, 300.0)
      && InRange(input.height, 100.0, 250.0)
      && (input.gender == "male" || input.gender == "female" || input.gender == "other")
      && (input.goal == "weight_loss" || input.goal == "muscle_gain" || input.goal == "maintenance")
  {
    if Accepts(input) {
      assert FieldOk(input, Title) && FieldOk(input, ExerciseTarget);
      assert FieldOk(input, Age) && FieldOk(input, Weight) && FieldOk(input, Height);
      assert FieldOk(input, GenderField) && FieldOk(input, GoalField);
    } else {
      var f :| !FieldOk(input, f);
      match f {
        case Title =>
        case ExerciseTarget =>
        case Age =>
        case Weight =>
        case Height =>
        case GenderField =>
        case GoalField =>
      }
    }
  }

  /** The fields in the order the schema declares them. */
  const AllFields := [Title, ExerciseTarget, Age, Weight, Height, GenderField, GoalField]

  lemma AllFieldsListed(f: Field)
    ensures f in AllFields
  {
    match f {
      case Title =>
      case ExerciseTarget =>
      case Age =>
      case Weight =>
      case Height =>
      case GenderField =>
      case GoalField =>
    }
  }

  /** The issue of a number field: the "must be a number" refinement for `NaN`, the range
      refinement for a number outside the closed range. */
  function NumberIssue(n: Option<real>, lo: real, hi: real, notNumber: string, outOfRange: string)
    : Option<string>
  {
    if n.None? then Some(notNumber)
    else if lo <= n.value <= hi then None
    else Some(outOfRange)
  }

  /** The message reported for one field, if any. */
  function FieldMessage(input: FormInput, f: Field): (r: Option<string>)
    ensures r.None? <==> FieldOk(input, f)
  {
    match f
    case Title => if |input.title| >= 1 then None else Some(Required)
    case ExerciseTarget => if |input.exerciseTarget| >= 1 then None else Some(Required)
    case Age => NumberIssue(input.age, 15.0, 100.0, AgeNotNumber, AgeOutOfRange)
    case Weight => NumberIssue(input.weight, 30.0, 300.0, WeightNotNumber, WeightOutOfRange)
    case Height => NumberIssue(input.height, 100.0, 250.0, HeightNotNumber, HeightOutOfRange)
    case GenderField => if ParseGender(input.gender).Some? then None else Some(InvalidEnum)
    case GoalField => if ParseGoal(input.goal).Some? then None else Some(InvalidEnum)
  }

  /** The issues of the given fields, in their order. */
  function IssuesOf(input: FormInput, fields: seq<Field>): seq<Issue>
  {
    if fields == [] then []
    else
      var f := fields[|fields| - 1];
      IssuesOf(input, fields[..|fields| - 1])
      + (match FieldMessage(input, f) case None => [] case Some(m) => [Issue(f, m)])
  }

  /** The issues reported for a form, in the order of the schema. */
  function Issues(input: FormInput): seq<Issue>
  {
    IssuesOf(input, AllFields)
  }

  /** The fields named by some issue. */
  function IssueFields(issues: seq<Issue>): set<Field>
  {
    set k | 0 <= k < |issues| :: issues[k].field
  }

  lemma {:induction false} IssuesOfNameFailingFields(input: FormInput, fields: seq<Field>)
    ensures forall f :: f in IssueFields(IssuesOf(input, fields)) <==> f in fields && !FieldOk(input, f)
  {
    if fields != [] {
      var f := fields[|fields| - 1];
      var init := fields[..|fields| - 1];
      assert fields == init + [f];
      IssuesOfNameFailingFields(input, init);
      var prefix := IssuesOf(input, init);
      var all := IssuesOf(input, fields);
      forall g | g in IssueFields(all)
        ensures g in fields && !FieldOk(input, g)
      {
        var k :| 0 <= k < |all| && all[k].field == g;
        if k < |prefix| {
          assert prefix[k].field == g;
          assert g in IssueFields(prefix);
        }
      }
      forall g | g in fields && !FieldOk(input, g)
        ensures g in IssueFields(all)
      {
        if g in init {
          assert g in IssueFields(prefix);
          var k :| 0 <= k < |prefix| && prefix[k].field == g;
          assert all[k] == prefix[k];
        } else {
          assert g == f;
          assert all[|prefix|].field == g;
        }
      }
    }
  }

  /** A field is reported exactly when its own rule fails. */
  lemma IssuesNameFailingFields(input: FormInput)
    ensures forall f :: f in IssueFields(Issues(input)) <==> !FieldOk(input, f)
  {
    IssuesOfNameFailingFields(input, AllFields);
    forall f
      ensures f in AllFields
    {
      AllFieldsListed(f);
    }
  }

  /** `WorkoutValidation.safeParse`: the parsed values when every field passes, otherwise
      every issue found. */
  function Validate(input: FormInput): (r: Validated<FormValues, Issue>)
    ensures r.Valid? <==> Accepts(input)
    ensures r.Invalid? ==> r.issues == Issues(input) && r.issues != []
    ensures r.Invalid? ==> forall f :: f in IssueFields(r.issues) <==> !FieldOk(input, f)
    ensures r.Valid? ==> && r.value.title == input.title
                         && r.value.description == input.description
                         && r.value.exerciseTarget == input.exerciseTarget
                         && Some(r.value.age) == input.age
                         && Some(r.value.weight) == input.weight
                         && Some(r.value.height) == input.height
                         && GenderName(r.value.gender) == input.gender
                         && GoalName(r.value.goal) == input.goal
  {
    IssuesNameFailingFields(input);
    AcceptsIffEveryField(input);
    if Issues(input) == [] then
      assert Accepts(input) by {
        forall f ensures FieldOk(input, f) {
          assert f !in IssueFields(Issues(input));
        }
      }
      Valid(FormValues(
        input.title, input.description, input.exerciseTarget,
        input.age.value, input.weight.value, input.height.value,
        ParseGender(input.gender).value, ParseGoal(input.goal).value))
    else
      assert Issues(input)[0].field in IssueFields(Issues(input));
      Invalid(Issues(input))
  }

  /** The form values as the inputs hold them before parsing. */
  function Render(v: FormValues): FormInput
  {
    FormInput(v.title, v.description, v.exerciseTarget, Some(v.age), Some(v.weight), Some(v.height),
              GenderName(v.gender), GoalName(v.goal))
  }

  /** Parsing loses nothing: an accepted input is the rendering of its parsed values, and
      values within the schema's bounds parse back to themselves. */
  lemma ValidateRoundTrip(input: FormInput, v: FormValues)
    ensures Validate(input) == Valid(v) ==> Render(v) == input
    ensures Validate(Render(v)) == Valid(v) <==>
      && |v.title| >= 1 && |v.exerciseTarget| >= 1
      && 15.0 <= v.age <= 100.0 && 30.0 <= v.weight <= 300.0 && 100.0 <= v.height <= 250.0
  {
    AcceptsIffEveryField(Render(v));
    GenderRoundTrip(v.gender);
    GoalRoundTrip(v.goal);
  }
}
