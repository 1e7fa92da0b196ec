/**
 * The goal store: the collection of goals, the goal open in the detail view, a loading
 * flag and an error, and the reducer that applies one of eight actions to them.
 */
module GoalStore {
  import opened Wrappers
  import opened Sequences

  /** Milliseconds since the epoch; dates are carried, never computed with. */
  type Timestamp = int

  datatype Category = Programming | Design | Business | Languages | Music | Fitness | Other

  datatype Status = NotStarted | InProgress | Completed | OnHold

  /** A milestone has an `_id` only once the server has stored it. */
  datatype Milestone = Milestone(id: Option<string>, title: string, completed: bool, completedAt: Option<Timestamp>)

  datatype Goal = Goal(
    id: string,
    userId: string,
    title: string,
    description: string,
    category: Category,
    status: Status,
    targetDate: string,
    milestones: seq<Milestone>,
    createdAt: Timestamp,
    updatedAt: Timestamp,
    progress: Option<real>)

  datatype GoalState = GoalState(goals: seq<Goal>, currentGoal: Option<Goal>, loading: bool, error: Option<string>)

  /** One constructor per action kind, each carrying its payload. */
  datatype Action =
    | SetGoals(newGoals: seq<Goal>)
    | SetCurrentGoal(goal: Goal)
    | AddGoal(goal: Goal)
    | UpdateGoal(goal: Goal)
    | DeleteGoal(goalId: string)
    | ToggleMilestone(milestoneId: string)
    | SetLoading(flag: bool)
    | SetError(message: string)

  const InitialGoalState := GoalState([], None, false, None)

  /** Puts `g` in place of every goal that has its id; other goals stay where they are. */
  function ReplaceById(goals: seq<Goal>, g: Goal): seq<Goal> {
    seq(|goals|, i requires 0 <= i < |goals| => if goals[i].id == g.id then g else goals[i])
  }

  /** Keeps the goals whose id differs from `id`, in their order. */
  function RemoveById(goals: seq<Goal>, id: string): seq<Goal> {
    if goals == [] then []
    else if goals[0].id != id then [goals[0]] + RemoveById(goals[1..], id)
    else RemoveById(goals[1..], id)
  }

  /** The number of goals carrying `id`. */
  function CountWithId(goals: seq<Goal>, id: string): nat {
    if goals == [] then 0 else (if goals[0].id == id then 1 else 0) + CountWithId(goals[1..], id)
  }

  /**
   * Whether a toggle for `milestoneId` selects `m`: its `_id` must be present, non-empty
   * (the id is tested for truthiness before it is compared) and equal to `milestoneId`.
   */
  predicate IsToggled(m: Milestone, milestoneId: string) {
    m.id.Some? && m.id.value != "" && m.id.value == milestoneId
  }

  /** Flips `completed` on the milestones selected by `IsToggled`; everything else is kept. */
  function ToggleMilestones(ms: seq<Milestone>, milestoneId: string): seq<Milestone> {
    seq(|ms|, i requires 0 <= i < |ms| =>
      if IsToggled(ms[i], milestoneId) then ms[i].(completed := !ms[i].completed) else ms[i])
  }

  /**
   * The reducer: a total function from a state and an action to the next state. Only
   * `SET_ERROR` touches the error; `SET_LOADING` sets the flag, a toggle keeps it, and
   * every other action clears it.
   */
  function Reduce(s: GoalState, a: Action): (r: GoalState)
    ensures !a.SetError? ==> r.error == s.error
    ensures a.SetLoading? ==> r.loading == a.flag
    ensures a.ToggleMilestone? ==> r.loading == s.loading
    ensures !a.SetLoading? && !a.ToggleMilestone? ==> !r.loading
  {
    match a
    case SetGoals(gs) => s.(goals := gs, loading := false)
    case SetCurrentGoal(g) => s.(currentGoal := Some(g), loading := false)
    case AddGoal(g) => s.(goals := s.goals + [g], loading := false)
    case UpdateGoal(g) =>
      s.(goals := ReplaceById(s.goals, g),
         currentGoal := if s.currentGoal.Some? && s.currentGoal.value.id == g.id then Some(g) else s.currentGoal,
         loading := false)
    case DeleteGoal(id) => s.(goals := RemoveById(s.goals, id), loading := false)
    case ToggleMilestone(mid) =>
      if s.currentGoal.None? then s
      else
        var updated := s.currentGoal.value.(milestones := ToggleMilestones(s.currentGoal.value.milestones, mid));
        s.(currentGoal := Some(updated), goals := ReplaceById(s.goals, updated))
    case SetLoading(flag) => s.(loading := flag)
    case SetError(msg) => s.(error := Some(msg), loading := false)
  }

  /**
   * The store's consistency invariant: every collection entry that shares the current
   * goal's id is equal to the current goal.
   */
  predicate Consistent(s: GoalState) {
    s.currentGoal.Some? ==>
      forall i :: 0 <= i < |s.goals| && s.goals[i].id == s.currentGoal.value.id ==> s.goals[i] == s.currentGoal.value
  }

  // ---------------------------------------------------------------------------
  // One lemma per action kind

  lemma SetGoalsReplacesCollection(s: GoalState, gs: seq<Goal>)
    ensures var r := Reduce(s, SetGoals(gs));
      r.goals == gs && !r.loading && r.currentGoal == s.currentGoal && r.error == s.error
  {
  }

  lemma SetCurrentGoalReplacesCurrent(s: GoalState, g: Goal)
    ensures var r := Reduce(s, SetCurrentGoal(g));
      r.currentGoal == Some(g) && !r.loading && r.goals == s.goals && r.error == s.error
  {
  }

  lemma AddGoalAppends(s: GoalState, g: Goal)
    ensures var r := Reduce(s, AddGoal(g));
      && |r.goals| == |s.goals| + 1
      && r.goals[..|s.goals|] == s.goals
      && r.goals[|s.goals|] == g
      && !r.loading && r.currentGoal == s.currentGoal && r.error == s.error
  {
  }

  lemma UpdateGoalReplacesById(s: GoalState, g: Goal)
    ensures var r := Reduce(s, UpdateGoal(g));
      && |r.goals| == |s.goals|
      && (forall i :: 0 <= i < |s.goals| ==> r.goals[i] == if s.goals[i].id == g.id then g else s.goals[i])
      && (r.currentGoal == Some(g) <== s.currentGoal.Some? && s.currentGoal.value.id == g.id)
      && (s.currentGoal.None? || s.currentGoal.value.id != g.id ==> r.currentGoal == s.currentGoal)
      && !r.loading && r.error == s.error
  {
  }

  /** The collection after `RemoveById` is exactly the goals without `id`, in their old order. */
  lemma {:induction false} RemoveByIdFilters(goals: seq<Goal>, id: string)
    ensures IsSubsequence(RemoveById(goals, id), goals)
    ensures forall g :: g in RemoveById(goals, id) <==> g in goals && g.id != id
    ensures |RemoveById(goals, id)| + CountWithId(goals, id) == |goals|
  {
    if goals != [] {
      RemoveByIdFilters(goals[1..], id);
      assert forall g :: g in goals <==> g == goals[0] || g in goals[1..];
    }
  }

  lemma DeleteGoalRemovesId(s: GoalState, id: string)
    ensures var r := Reduce(s, DeleteGoal(id));
      && IsSubsequence(r.goals, s.goals)
      && (forall g :: g in r.goals <==> g in s.goals && g.id != id)
      && |r.goals| == |s.goals| - CountWithId(s.goals, id)
      && r.currentGoal == s.currentGoal && !r.loading && r.error == s.error
  {
    RemoveByIdFilters(s.goals, id);
  }

  /** Deleting the goal on view leaves `currentGoal` pointing at a goal no longer in the collection. */
  lemma DeleteLeavesCurrentGoalDangling(s: GoalState, id: string)
    requires s.currentGoal.Some? && s.currentGoal.value.id == id
    ensures var r := Reduce(s, DeleteGoal(id));
      r.currentGoal == s.currentGoal && s.currentGoal.value !in r.goals
  {
    RemoveByIdFilters(s.goals, id);
  }

  lemma ToggleWithoutCurrentGoalIsNoop(s: GoalState, mid: string)
    requires s.currentGoal.None?
    ensures Reduce(s, ToggleMilestone(mid)) == s
  {
  }

  lemma ToggleMilestoneFlipsMatching(s: GoalState, mid: string)
    requires s.currentGoal.Some?
    ensures var r := Reduce(s, ToggleMilestone(mid));
      var old_ms := s.currentGoal.value.milestones;
      && r.currentGoal.Some?
      && r.currentGoal.value == s.currentGoal.value.(milestones := r.currentGoal.value.milestones)
      && |r.currentGoal.value.milestones| == |old_ms|
      && (forall i :: 0 <= i < |old_ms| ==>
            var m := r.currentGoal.value.milestones[i];
            && m.id == old_ms[i].id && m.title == old_ms[i].title && m.completedAt == old_ms[i].completedAt
            && (m.completed != old_ms[i].completed <==> IsToggled(old_ms[i], mid)))
      && r.loading == s.loading && r.error == s.error
  {
  }

  /** After a toggle every collection entry with the current goal's id is the new current goal. */
  lemma ToggleMilestoneSyncsCollection(s: GoalState, mid: string)
    requires s.currentGoal.Some?
    ensures var r := Reduce(s, ToggleMilestone(mid));
      && Consistent(r)
      && |r.goals| == |s.goals|
      && r.currentGoal.Some?
      && (forall i :: 0 <= i < |s.goals| && s.goals[i].id == s.currentGoal.value.id ==> r.goals[i] == r.currentGoal.value)
      && (forall i :: 0 <= i < |s.goals| && s.goals[i].id != s.currentGoal.value.id ==> r.goals[i] == s.goals[i])
  {
  }

  lemma {:induction false} ToggleMilestonesInvolution(ms: seq<Milestone>, mid: string)
    ensures ToggleMilestones(ToggleMilestones(ms, mid), mid) == ms
  {
    var once := ToggleMilestones(ms, mid);
    var twice := ToggleMilestones(once, mid);
    assert forall i :: 0 <= i < |ms| ==> IsToggled(once[i], mid) == IsToggled(ms[i], mid);
    assert |twice| == |ms|;
    assert forall i :: 0 <= i < |ms| ==> twice[i] == ms[i];
  }

  /**
   * Toggling the same milestone twice gives back the current goal, and on a consistent
   * store it gives back the whole state.
   */
  lemma ToggleTwiceRestores(s: GoalState, mid: string)
    requires s.currentGoal.Some?
    ensures Reduce(Reduce(s, ToggleMilestone(mid)), ToggleMilestone(mid)).currentGoal == s.currentGoal
    ensures Consistent(s) ==> Reduce(Reduce(s, ToggleMilestone(mid)), ToggleMilestone(mid)) == s
  {
    ToggleMilestonesInvolution(s.currentGoal.value.milestones, mid);
    var c := s.currentGoal.value;
    assert c.(milestones := ToggleMilestones(ToggleMilestones(c.milestones, mid), mid)) == c;
    if Consistent(s) {
      var r2 := Reduce(Reduce(s, ToggleMilestone(mid)), ToggleMilestone(mid));
      assert forall i :: 0 <= i < |s.goals| ==> r2.goals[i] == s.goals[i];
    }
  }

  lemma SetLoadingChangesOnlyLoading(s: GoalState, flag: bool)
    ensures Reduce(s, SetLoading(flag)) == s.(loading := flag)
  {
  }

  lemma SetErrorRecordsMessage(s: GoalState, msg: string)
    ensures var r := Reduce(s, SetError(msg));
      r.error == Some(msg) && !r.loading && r.goals == s.goals && r.currentGoal == s.currentGoal
  {
  }

  // ---------------------------------------------------------------------------
  // The consistency invariant across actions

  /** An update keeps a consistent store consistent, and makes it consistent when it hits the current goal. */
  lemma UpdateGoalKeepsConsistent(s: GoalState, g: Goal)
    requires Consistent(s) || (s.currentGoal.Some? && s.currentGoal.value.id == g.id)
    ensures Consistent(Reduce(s, UpdateGoal(g)))
  {
  }

  lemma DeleteGoalKeepsConsistent(s: GoalState, id: string)
    requires Consistent(s)
    ensures Consistent(Reduce(s, DeleteGoal(id)))
  {
    RemoveByIdFilters(s.goals, id);
    var r := Reduce(s, DeleteGoal(id));
    if r.currentGoal.Some? {
      forall i | 0 <= i < |r.goals| && r.goals[i].id == r.currentGoal.value.id
        ensures r.goals[i] == r.currentGoal.value
      {
        assert r.goals[i] in s.goals;
      }
    }
  }

  /** Loading and error changes never touch the goals, so they keep the invariant. */
  lemma FlagActionsKeepConsistent(s: GoalState, a: Action)
    requires Consistent(s) && (a.SetLoading? || a.SetError?)
    ensures Consistent(Reduce(s, a))
  {
  }

  /** Replacing the collection does not keep the invariant: the new list may hold another version of the goal on view. */
  lemma SetGoalsMayBreakConsistency(g: Goal, h: Goal)
    requires g.id == h.id && g != h
    ensures !Consistent(Reduce(InitialGoalState.(currentGoal := Some(g)), SetGoals([h])))
  {
    assert Reduce(InitialGoalState.(currentGoal := Some(g)), SetGoals([h])).goals[0] == h;
  }
}
