/**
 * The four-step "create goal" wizard: the form reducer, the per-step validation, and the
 * page component whose state (form data, current step, pending milestone text) the
 * event handlers update.
 */
module CreateGoalForm {
  import opened GoalStore
  import opened Text

  /** A milestone typed into the form, before the server gives it an id. */
  datatype FormMilestone = FormMilestone(title: string, completed: bool)

  datatype FormData = FormData(
    title: string,
    category: Category,
    description: string,
    targetDate: string,
    milestones: seq<FormMilestone>)

  /** `UPDATE_FIELD`: the field the inputs write, with the value they write. */
  datatype FieldUpdate =
    | SetTitle(title: string)
    | SetCategory(category: Category)
    | SetDescription(description: string)
    | SetTargetDate(targetDate: string)

  datatype FormAction =
    | UpdateField(update: FieldUpdate)
    | AddMilestone(milestone: FormMilestone)
    | RemoveMilestone(index: int)
    | Reset(value: FormData)

  const InitialFormState := FormData("", Programming, "", "", [])

  /** The milestones without the one at position `i`; any other `i` removes nothing. */
  function DropIndex(ms: seq<FormMilestone>, i: int): (r: seq<FormMilestone>)
    ensures |r| == if 0 <= i < |ms| then |ms| - 1 else |ms|
  {
    if ms == [] then []
    else (if i == 0 then [] else [ms[0]]) + DropIndex(ms[1..], i - 1)
  }

  /** Removing by index deletes exactly that element and keeps the rest in order; an index out of range changes nothing. */
  lemma {:induction false} DropIndexRemovesOne(ms: seq<FormMilestone>, i: int)
    ensures DropIndex(ms, i) == if 0 <= i < |ms| then ms[..i] + ms[i + 1..] else ms
  {
    if ms != [] {
      DropIndexRemovesOne(ms[1..], i - 1);
      if 0 < i < |ms| {
        assert ms[1..][..i - 1] == ms[1..i];
        assert ms[1..][i..] == ms[i + 1..];
        assert [ms[0]] + ms[1..i] == ms[..i];
      } else if i != 0 {
        assert [ms[0]] + ms[1..] == ms;
      }
    }
  }

  function FormReduce(s: FormData, a: FormAction): FormData {
    match a
    case UpdateField(u) =>
      (match u
       case SetTitle(v) => s.(title := v)
       case SetCategory(v) => s.(category := v)
       case SetDescription(v) => s.(description := v)
       case SetTargetDate(v) => s.(targetDate := v))
    case AddMilestone(m) => s.(milestones := s.milestones + [m])
    case RemoveMilestone(i) => s.(milestones := DropIndex(s.milestones, i))
    case Reset(v) => v
  }

  lemma AddMilestoneAppends(s: FormData, m: FormMilestone)
    ensures var r := FormReduce(s, AddMilestone(m));
      && r.milestones == s.milestones + [m]
      && r.title == s.title && r.category == s.category
      && r.description == s.description && r.targetDate == s.targetDate
  {
  }

  lemma RemoveMilestoneDeletesIndex(s: FormData, i: int)
    ensures var r := FormReduce(s, RemoveMilestone(i));
      && r.milestones == (if 0 <= i < |s.milestones| then s.milestones[..i] + s.milestones[i + 1..] else s.milestones)
      && r == s.(milestones := r.milestones)
  {
    DropIndexRemovesOne(s.milestones, i);
  }

  lemma UpdateFieldChangesOnlyThatField(s: FormData, u: FieldUpdate)
    ensures var r := FormReduce(s, UpdateField(u));
      && (u.SetTitle? ==> r == s.(title := u.title))
      && (u.SetCategory? ==> r == s.(category := u.category))
      && (u.SetDescription? ==> r == s.(description := u.description))
      && (u.SetTargetDate? ==> r == s.(targetDate := u.targetDate))
  {
  }

  lemma ResetReturnsValue(s: FormData, v: FormData)
    ensures FormReduce(s, Reset(v)) == v
  {
  }

  /** Whether the wizard may leave `step`. */
  function ValidateStep(f: FormData, step: int): bool {
    if step == 1 then Trim(f.title) != ""
    else if step == 2 then Trim(f.description) != "" && f.targetDate != ""
    else if step == 3 then |f.milestones| > 0
    else true
  }

  /** What each step demands, in terms of the form itself. */
  lemma ValidateStepMeaning(f: FormData, step: int)
    ensures step == 1 ==> (ValidateStep(f, step) <==> !Blank(f.title))
    ensures step == 2 ==> (ValidateStep(f, step) <==> !Blank(f.description) && f.targetDate != "")
    ensures step == 3 ==> (ValidateStep(f, step) <==> f.milestones != [])
    ensures step !in {1, 2, 3} ==> ValidateStep(f, step)
  {
  }

  /** The buttons below the form. */
  datatype Button = PreviousButton | NextButton

  /** "Previous" is rendered only past the first step, "Next" only before the last. */
  predicate Shown(b: Button, step: int) {
    match b
    case PreviousButton => step > 1
    case NextButton => step < 4
  }

  /** The page component's state and its event handlers. */
  class CreateGoalPage {
    var formData: FormData
    var currentStep: int
    var newMilestone: string

    /** The wizard is on one of its four steps. */
    predicate StepInRange()
      reads this
    {
      1 <= currentStep <= 4
    }

    constructor ()
      ensures formData == InitialFormState && currentStep == 1 && newMilestone == ""
      ensures StepInRange()
    {
      formData := InitialFormState;
      currentStep := 1;
      newMilestone := "";
    }

    method Dispatch(a: FormAction)
      modifies this
      ensures formData == FormReduce(old(formData), a)
      ensures currentStep == old(currentStep) && newMilestone == old(newMilestone)
    {
      formData := FormReduce(formData, a);
    }

    method SetNewMilestone(text: string)
      modifies this
      ensures newMilestone == text
      ensures formData == old(formData) && currentStep == old(currentStep)
    {
      newMilestone := text;
    }

    /** `handleNext`: advance only when the current step validates; clicking the visible button keeps the step in range. */
    method HandleNext()
      modifies this
      ensures currentStep == if ValidateStep(formData, old(currentStep)) then old(currentStep) + 1 else old(currentStep)
      ensures formData == old(formData) && newMilestone == old(newMilestone)
      ensures old(StepInRange()) && Shown(NextButton, old(currentStep)) ==> StepInRange()
    {
      if ValidateStep(formData, currentStep) {
        currentStep := currentStep + 1;
      }
    }

    /** `handlePrevious`: go back one step; clicking the visible button keeps the step in range. */
    method HandlePrevious()
      modifies this
      ensures currentStep == old(currentStep) - 1
      ensures formData == old(formData) && newMilestone == old(newMilestone)
      ensures old(StepInRange()) && Shown(PreviousButton, old(currentStep)) ==> StepInRange()
    {
      currentStep := currentStep - 1;
    }

    /**
     * `handleAddMilestone`: a non-blank pending text is appended, untrimmed and not
     * completed, and the pending text is cleared; a blank one changes nothing.
     */
    method HandleAddMilestone()
      modifies this
      ensures !Blank(old(newMilestone)) ==>
        formData.milestones == old(formData.milestones) + [FormMilestone(old(newMilestone), false)] && newMilestone == ""
      ensures !Blank(old(newMilestone)) ==> formData == old(formData).(milestones := formData.milestones)
      ensures Blank(old(newMilestone)) ==> formData == old(formData) && newMilestone == old(newMilestone)
      ensures currentStep == old(currentStep)
    {
      if Trim(newMilestone) != "" {
        Dispatch(AddMilestone(FormMilestone(newMilestone, false)));
        newMilestone := "";
      }
    }

    method HandleRemoveMilestone(index: int)
      modifies this
      ensures formData.milestones ==
        if 0 <= index < |old(formData.milestones)| then old(formData.milestones)[..index] + old(formData.milestones)[index + 1..]
        else old(formData.milestones)
      ensures formData == old(formData).(milestones := formData.milestones)
      ensures currentStep == old(currentStep) && newMilestone == old(newMilestone)
    {
      DropIndexRemovesOne(formData.milestones, index);
      Dispatch(RemoveMilestone(index));
    }
  }
}
