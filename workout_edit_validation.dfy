/** The edit-form schema of lib/validations/WorkoutEditValidation.ts: a title and a list of
    exercises, each with a name and at least one set and one rep. */
module WorkoutEditValidation {
  import opened Wrappers
  import opened Models

  datatype EditForm = EditForm(title: string, exercises: seq<Exercise>)

  datatype ExerciseField = Name | Sets | Reps

  /** Where an issue sits: the title, or one field of the exercise at an index. */
  datatype Path = TitlePath | ExercisePath(index: nat, field: ExerciseField)

  datatype Issue = Issue(path: Path, message: string)

  const TitleRequired := "Title is required"
  const NameRequired := "Exercise name is required"
  const SetsTooFew := "Sets must be at least 1"
  const RepsTooFew := "Reps must be at least 1"

  predicate FieldOk(e: Exercise, f: ExerciseField)
  {
    match f
    case Name => |e.name| >= 1
    case Sets => e.sets >= 1.0
    case Reps => e.reps >= 1.0
  }

  /** An exercise passes when its name is non-empty and it has at least one set and one rep. */
  predicate ExerciseOk(e: Exercise)
  {
    |e.name| >= 1 && e.sets >= 1.0 && e.reps >= 1.0
  }

  /** The issues of the exercise at `index`, in field order. */
  function ExerciseIssues(e: Exercise, index: nat): (r: seq<Issue>)
    ensures r == [] <==> ExerciseOk(e)
    ensures forall k :: 0 <= k < |r| ==> r[k].path.ExercisePath? && r[k].path.index == index
  {
    (if |e.name| >= 1 then [] else [Issue(ExercisePath(index, Name), NameRequired)])
    + (if e.sets >= 1.0 then [] else [Issue(ExercisePath(index, Sets), SetsTooFew)])
    + (if e.reps >= 1.0 then [] else [Issue(ExercisePath(index, Reps), RepsTooFew)])
  }

  /** A field of an exercise is reported exactly when it fails. */
  lemma ExerciseIssuesExact(e: Exercise, index: nat, f: ExerciseField)
    ensures !FieldOk(e, f) <==> exists k :: 0 <= k < |ExerciseIssues(e, index)| && ExerciseIssues(e, index)[k].path == ExercisePath(index, f)
  {
    var name := if |e.name| >= 1 then [] else [Issue(ExercisePath(index, Name), NameRequired)];
    var sets := if e.sets >= 1.0 then [] else [Issue(ExercisePath(index, Sets), SetsTooFew)];
    var reps := if e.reps >= 1.0 then [] else [Issue(ExercisePath(index, Reps), RepsTooFew)];
    var r := ExerciseIssues(e, index);
    assert r == name + sets + reps;
    match f {
      case Name =>
        if !FieldOk(e, f) { assert r[0].path == ExercisePath(index, f); }
      case Sets =>
        if !FieldOk(e, f) { assert r[|name|].path == ExercisePath(index, f); }
      case Reps =>
        if !FieldOk(e, f) { assert r[|name| + |sets|].path == ExercisePath(index, f); }
    }
  }

  /** The issues of the exercises from position `start` on, numbered from `start`. */
  function ExercisesIssues(exercises: seq<Exercise>, start: nat): (r: seq<Issue>)
    ensures r == [] <==> forall k :: 0 <= k < |exercises| ==> ExerciseOk(exercises[k])
    ensures forall k :: 0 <= k < |r| ==>
      r[k].path.ExercisePath? && start <= r[k].path.index < start + |exercises|
    decreases |exercises|
  {
    if exercises == [] then []
    else
      assert (forall k :: 0 <= k < |exercises| ==> ExerciseOk(exercises[k]))
        <==> ExerciseOk(exercises[0]) && forall k :: 0 <= k < |exercises[1..]| ==> ExerciseOk(exercises[1..][k]);
      ExerciseIssues(exercises[0], start) + ExercisesIssues(exercises[1..], start + 1)
  }

  /** Only failing fields are reported, each at the index of its exercise. */
  lemma {:induction false} ExercisesIssuesSound(exercises: seq<Exercise>, start: nat, j: nat)
    requires j < |ExercisesIssues(exercises, start)|
    ensures var p := ExercisesIssues(exercises, start)[j].path;
      !FieldOk(exercises[p.index - start], p.field)
  {
    var head := ExerciseIssues(exercises[0], start);
    var rest := ExercisesIssues(exercises[1..], start + 1);
    var all := ExercisesIssues(exercises, start);
    assert all == head + rest;
    if j < |head| {
      ExerciseIssuesExact(exercises[0], start, all[j].path.field);
      assert head[j] == all[j];
    } else {
      ExercisesIssuesSound(exercises[1..], start + 1, j - |head|);
      assert rest[j - |head|] == all[j];
    }
  }

  /** Every failing field of every exercise is reported, at its own index. */
  lemma {:induction false} ExercisesIssuesComplete(exercises: seq<Exercise>, start: nat, k: nat, f: ExerciseField)
    requires k < |exercises| && !FieldOk(exercises[k], f)
    ensures exists j ::
      0 <= j < |ExercisesIssues(exercises, start)| && ExercisesIssues(exercises, start)[j].path == ExercisePath(start + k, f)
  {
    var head := ExerciseIssues(exercises[0], start);
    var rest := ExercisesIssues(exercises[1..], start + 1);
    var all := ExercisesIssues(exercises, start);
    assert all == head + rest;
    if k == 0 {
      ExerciseIssuesExact(exercises[0], start, f);
      var j :| 0 <= j < |head| && head[j].path == ExercisePath(start, f);
      assert all[j] == head[j];
    } else {
      ExercisesIssuesComplete(exercises[1..], start + 1, k - 1, f);
      var j :| 0 <= j < |rest| && rest[j].path == ExercisePath(start + 1 + (k - 1), f);
      assert all[|head| + j] == rest[j];
    }
  }

  /** The title issue: present exactly when the title is empty. */
  function TitleIssues(title: string): (r: seq<Issue>)
    ensures r == [] <==> |title| >= 1
    ensures forall k :: 0 <= k < |r| ==> r[k].path == TitlePath
  {
    if |title| >= 1 then [] else [Issue(TitlePath, TitleRequired)]
  }

  /** `WorkoutEditValidation.safeParse`: the form itself when it passes, otherwise the
      title issue (if any) followed by the exercise issues in list order. */
  function ValidateEdit(form: EditForm): (r: Validated<EditForm, Issue>)
    ensures r.Valid? <==> |form.title| >= 1 && forall k :: 0 <= k < |form.exercises| ==> ExerciseOk(form.exercises[k])
    ensures r.Valid? ==> r.value == form
    ensures r.Invalid? ==> (|form.title| >= 1 <==> forall k :: 0 <= k < |r.issues| ==> r.issues[k].path != TitlePath)
  {
    var issues := TitleIssues(form.title) + ExercisesIssues(form.exercises, 0);
    if issues == [] then Valid(form)
    else
      assert |form.title| < 1 ==> issues[0].path == TitlePath;
      Invalid(issues)
  }

  /** A failing field makes the form invalid and is reported at its exercise's index. */
  lemma EditReportsFailingField(form: EditForm, k: nat, f: ExerciseField)
    requires k < |form.exercises| && !FieldOk(form.exercises[k], f)
    ensures ValidateEdit(form).Invalid?
    ensures exists j :: 0 <= j < |ValidateEdit(form).issues| && ValidateEdit(form).issues[j].path == ExercisePath(k, f)
  {
    var title := TitleIssues(form.title);
    var rest := ExercisesIssues(form.exercises, 0);
    ExercisesIssuesComplete(form.exercises, 0, k, f);
    var j :| 0 <= j < |rest| && rest[j].path == ExercisePath(k, f);
    var issues := ValidateEdit(form).issues;
    assert issues == title + rest;
    assert issues[|title| + j] == rest[j];
  }

  /** A reported exercise path names a field that fails. */
  lemma EditReportsOnlyFailingFields(form: EditForm, j: nat)
    requires ValidateEdit(form).Invalid? && j < |ValidateEdit(form).issues|
    requires ValidateEdit(form).issues[j].path.ExercisePath?
    ensures var p := ValidateEdit(form).issues[j].path;
      p.index < |form.exercises| && !FieldOk(form.exercises[p.index], p.field)
  {
    var title := TitleIssues(form.title);
    var rest := ExercisesIssues(form.exercises, 0);
    var issues := ValidateEdit(form).issues;
    assert issues == title + rest;
    assert j >= |title|;
    assert issues[j] == rest[j - |title|];
    ExercisesIssuesSound(form.exercises, 0, j - |title|);
  }

  /** A field of an exercise is reported exactly when it fails, at the exercise's index;
      a failing field always makes the form invalid. */
  lemma EditIssuesPinpointExercises(form: EditForm, k: nat, f: ExerciseField)
    requires k < |form.exercises|
    ensures !FieldOk(form.exercises[k], f) ==> ValidateEdit(form).Invalid?
    ensures ValidateEdit(form).Invalid? ==>
      (!FieldOk(form.exercises[k], f) <==>
        exists j :: 0 <= j < |ValidateEdit(form).issues| && ValidateEdit(form).issues[j].path == ExercisePath(k, f))
  {
    if !FieldOk(form.exercises[k], f) {
      EditReportsFailingField(form, k, f);
    } else if ValidateEdit(form).Invalid? {
      var issues := ValidateEdit(form).issues;
      forall j | 0 <= j < |issues| && issues[j].path == ExercisePath(k, f)
        ensures false
      {
        EditReportsOnlyFailingFields(form, j);
      }
    }
  }

  /** The empty exercise list passes, so only the title decides. */
  lemma EmptyListAccepted(title: string)
    ensures ValidateEdit(EditForm(title, [])).Valid? <==> |title| >= 1
  {
  }
}
