/**
 * The goal list page's `filteredGoals`: goals whose status passes the status filter and
 * whose title or description contains the search term, ignoring case.
 */
module GoalFilter {
  import opened GoalStore
  import opened Text
  import opened Sequences

  /** The status drop-down: "all" or one status. */
  datatype StatusFilter = All | Only(status: Status)

  predicate MatchesFilter(g: Goal, f: StatusFilter) {
    f.All? || g.status == f.status
  }

  predicate MatchesSearch(g: Goal, term: string) {
    Includes(Lower(g.title), Lower(term)) || Includes(Lower(g.description), Lower(term))
  }

  predicate Keep(g: Goal, f: StatusFilter, term: string) {
    MatchesFilter(g, f) && MatchesSearch(g, term)
  }

  /**
   * The goals listed on the page: an order-preserving subsequence holding every goal that
   * passes both tests, as many times as it occurs, and no other goal.
   */
  function FilterGoals(goals: seq<Goal>, f: StatusFilter, term: string): (r: seq<Goal>)
    ensures IsSubsequence(r, goals)
    ensures forall g :: multiset(r)[g] == if Keep(g, f, term) then multiset(goals)[g] else 0
    ensures forall g :: g in r ==> g in goals && Keep(g, f, term)
    ensures forall g :: g in goals && Keep(g, f, term) ==> g in r
  {
    if goals == [] then []
    else
      var rest := FilterGoals(goals[1..], f, term);
      assert goals == [goals[0]] + goals[1..];
      assert multiset(goals) == multiset([goals[0]]) + multiset(goals[1..]);
      assert forall g :: g in goals <==> g == goals[0] || g in goals[1..];
      if Keep(goals[0], f, term) then [goals[0]] + rest else rest
  }

  /** With a status chosen, every listed goal has that status. */
  lemma FilterByStatus(goals: seq<Goal>, st: Status, term: string)
    ensures forall g :: g in FilterGoals(goals, Only(st), term) ==> g.status == st
  {
  }

  /** A listed goal's lower-cased title or description contains the lower-cased term. */
  lemma FilterBySearch(goals: seq<Goal>, f: StatusFilter, term: string)
    ensures forall g :: g in FilterGoals(goals, f, term) ==>
      Contains(Lower(g.title), Lower(term)) || Contains(Lower(g.description), Lower(term))
  {
  }

  /** The search ignores the case of the term: lower-casing it first lists the same goals. */
  lemma {:induction false} FilterIgnoresTermCase(goals: seq<Goal>, f: StatusFilter, term: string)
    ensures FilterGoals(goals, f, Lower(term)) == FilterGoals(goals, f, term)
  {
    LowerIdempotent(term);
    if goals != [] {
      FilterIgnoresTermCase(goals[1..], f, term);
    }
  }

  /** A goal whose title and description differ only in letter case matches the same searches. */
  lemma SearchIgnoresGoalCase(g: Goal, h: Goal, term: string)
    requires |g.title| == |h.title| && forall i :: 0 <= i < |g.title| ==> LowerChar(g.title[i]) == LowerChar(h.title[i])
    requires |g.description| == |h.description|
    requires forall i :: 0 <= i < |g.description| ==> LowerChar(g.description[i]) == LowerChar(h.description[i])
    ensures MatchesSearch(g, term) == MatchesSearch(h, term)
  {
    LowerIgnoresCase(g.title, h.title);
    LowerIgnoresCase(g.description, h.description);
  }

  /** "All goals" with an empty search lists every goal. */
  lemma {:induction false} NoFilterKeepsAll(goals: seq<Goal>)
    ensures FilterGoals(goals, All, "") == goals
  {
    if goals != [] {
      IncludesEmpty(Lower(goals[0].title));
      NoFilterKeepsAll(goals[1..]);
    }
  }

  /** Filtering the filtered list again with the same settings changes nothing. */
  lemma {:induction false} FilterIdempotent(goals: seq<Goal>, f: StatusFilter, term: string)
    ensures FilterGoals(FilterGoals(goals, f, term), f, term) == FilterGoals(goals, f, term)
  {
    if goals != [] {
      FilterIdempotent(goals[1..], f, term);
      var rest := FilterGoals(goals[1..], f, term);
      if Keep(goals[0], f, term) {
        assert ([goals[0]] + rest)[1..] == rest;
      }
    }
  }
}
