/**
 * The dashboard's derived views over the goal collection: the headline counts, the
 * milestone totals, the goals-per-category histogram, the overall completion rate and
 * the three-goal preview.
 */
module Dashboard {
  import opened GoalStore

  /** The number of goals with status `st`. */
  function CountStatus(goals: seq<Goal>, st: Status): (r: nat)
    ensures r <= |goals|
  {
    if goals == [] then 0
    else CountStatus(goals[..|goals| - 1], st) + (if goals[|goals| - 1].status == st then 1 else 0)
  }

  /** The number of completed milestones in `ms`. */
  function CompletedCount(ms: seq<Milestone>): (r: nat)
    ensures r <= |ms|
  {
    if ms == [] then 0 else CompletedCount(ms[..|ms| - 1]) + (if ms[|ms| - 1].completed then 1 else 0)
  }

  /** The number of milestones over all goals. */
  function TotalMilestones(goals: seq<Goal>): nat {
    if goals == [] then 0 else TotalMilestones(goals[..|goals| - 1]) + |goals[|goals| - 1].milestones|
  }

  /** The number of completed milestones over all goals. */
  function CompletedMilestones(goals: seq<Goal>): nat {
    if goals == [] then 0 else CompletedMilestones(goals[..|goals| - 1]) + CompletedCount(goals[|goals| - 1].milestones)
  }

  /** Goals completed and goals in progress are disjoint parts of the collection. */
  lemma {:induction false} StatusCountsBounded(goals: seq<Goal>)
    ensures CountStatus(goals, Completed) + CountStatus(goals, InProgress) <= |goals|
  {
    if goals != [] {
      StatusCountsBounded(goals[..|goals| - 1]);
    }
  }

  /** No more milestones are completed than exist, so the "Remaining" bar is never negative. */
  lemma {:induction false} CompletedMilestonesBounded(goals: seq<Goal>)
    ensures CompletedMilestones(goals) <= TotalMilestones(goals)
  {
    if goals != [] {
      CompletedMilestonesBounded(goals[..|goals| - 1]);
    }
  }

  datatype Stats = Stats(total: nat, completed: nat, inProgress: nat, totalMilestones: nat, completedMilestones: nat)

  /** The `stats` memo: the milestone totals are accumulated goal by goal. */
  method ComputeStats(goals: seq<Goal>) returns (st: Stats)
    ensures st.total == |goals|
    ensures st.completed == CountStatus(goals, Completed) && st.inProgress == CountStatus(goals, InProgress)
    ensures st.totalMilestones == TotalMilestones(goals) && st.completedMilestones == CompletedMilestones(goals)
    ensures st.completed + st.inProgress <= st.total
    ensures st.completedMilestones <= st.totalMilestones  // the "Remaining" bar is never negative
  {
    var total := |goals|;
    var completed := CountStatus(goals, Completed);
    var inProgress := CountStatus(goals, InProgress);
    var totalMilestones: nat := 0;
    var completedMilestones: nat := 0;
    var i := 0;
    while i < |goals|
      invariant 0 <= i <= |goals|
      invariant totalMilestones == TotalMilestones(goals[..i])
      invariant completedMilestones == CompletedMilestones(goals[..i])
    {
      assert goals[..i + 1][..i] == goals[..i];
      totalMilestones := totalMilestones + |goals[i].milestones|;
      completedMilestones := completedMilestones + CompletedCount(goals[i].milestones);
      i := i + 1;
    }
    assert goals[..i] == goals;
    StatusCountsBounded(goals);
    CompletedMilestonesBounded(goals);
    st := Stats(total, completed, inProgress, totalMilestones, completedMilestones);
  }

  /**
   * The completion rate: the completed share of all milestones as a percentage, rounded
   * half up to a whole number, which for non-negative operands is floor(100c/t + 1/2);
   * 0 when there are no milestones.
   */
  function CompletionRate(st: Stats): (r: nat)
    ensures st.totalMilestones == 0 ==> r == 0
    ensures st.completedMilestones <= st.totalMilestones ==> r <= 100
    ensures 0 < st.totalMilestones && st.completedMilestones == 0 ==> r == 0
    ensures 0 < st.totalMilestones && st.completedMilestones == st.totalMilestones ==> r == 100
  {
    if st.totalMilestones > 0 then
      var c, t := st.completedMilestones, st.totalMilestones;
      RoundedPercentBounds(c, t);
      (200 * c + t) / (2 * t)
    else 0
  }

  lemma RoundedPercentBounds(c: nat, t: nat)
    requires t > 0
    ensures c <= t ==> (200 * c + t) / (2 * t) <= 100
    ensures c == 0 ==> (200 * c + t) / (2 * t) == 0
    ensures c == t ==> (200 * c + t) / (2 * t) == 100
  {
    if c <= t {
      DivBelow(200 * c + t, 2 * t, 101);
    }
    if c == 0 {
      DivBelow(200 * c + t, 2 * t, 1);
    }
    if c == t {
      DivAtLeast(200 * c + t, 2 * t, 100);
    }
  }

  /** Multiplication by a non-negative factor is monotone. */
  lemma MulMonotone(x: int, y: int, b: nat)
    requires x <= y
    ensures x * b <= y * b
  {
    assert y * b - x * b == (y - x) * b;
  }

  lemma DivBelow(a: nat, b: nat, k: nat)
    requires b > 0 && a < k * b
    ensures a / b < k
  {
    var q := a / b;
    assert q * b <= a;
    if q >= k {
      MulMonotone(k, q, b);
    }
  }

  lemma DivAtLeast(a: nat, b: nat, k: nat)
    requires b > 0 && k * b <= a
    ensures k <= a / b
  {
    var q := a / b;
    assert a < q * b + b == (q + 1) * b;
    if q + 1 <= k {
      MulMonotone(q + 1, k, b);
    }
  }

  // ---------------------------------------------------------------------------
  // Goals per category

  /** The number of goals in category `c`. */
  function CountCategory(goals: seq<Goal>, c: Category): (r: nat)
    ensures r <= |goals|
  {
    if goals == [] then 0
    else CountCategory(goals[..|goals| - 1], c) + (if goals[|goals| - 1].category == c then 1 else 0)
  }

  /** The position of the first goal in category `c`, or the number of goals when there is none. */
  function FirstIndex(goals: seq<Goal>, c: Category): (r: nat)
    ensures r <= |goals|
    ensures r < |goals| ==> goals[r].category == c
  {
    if goals == [] then 0
    else if goals[0].category == c then 0
    else 1 + FirstIndex(goals[1..], c)
  }

  /** No goal before the first occurrence has category `c`. */
  lemma {:induction false} FirstIndexIsFirst(goals: seq<Goal>, c: Category)
    ensures forall k :: 0 <= k < FirstIndex(goals, c) ==> goals[k].category != c
  {
    if goals != [] && goals[0].category != c {
      FirstIndexIsFirst(goals[1..], c);
      forall k | 1 <= k < FirstIndex(goals, c) ensures goals[k].category != c {
        assert goals[k] == goals[1..][k - 1];
      }
    }
  }

  /** Where a prefix has the first occurrence of `c`, the whole sequence has it at the same place. */
  lemma {:induction false} FirstIndexPrefix(goals: seq<Goal>, n: nat, c: Category)
    requires n <= |goals|
    ensures FirstIndex(goals[..n], c) < n ==> FirstIndex(goals, c) == FirstIndex(goals[..n], c)
    ensures FirstIndex(goals[..n], c) == n ==> FirstIndex(goals, c) >= n
  {
    if n > 0 && goals[0].category != c {
      FirstIndexPrefix(goals[1..], n - 1, c);
      assert goals[..n][1..] == goals[1..][..n - 1];
    }
  }

  /** A dictionary's key order after writing key `c`: a new key goes last, an old one stays put. */
  function AddKey(keys: seq<Category>, c: Category): seq<Category> {
    if c in keys then keys else keys + [c]
  }

  /** The categories of `goals`, each once, in the order of the first goal of each. */
  function FirstSeen(goals: seq<Goal>): seq<Category> {
    if goals == [] then [] else AddKey(FirstSeen(goals[..|goals| - 1]), goals[|goals| - 1].category)
  }

  /** The keys come in the order of the first goal of each category. */
  predicate OrderedByFirst(goals: seq<Goal>, keys: seq<Category>) {
    forall a, b :: 0 <= a < b < |keys| ==> FirstIndex(goals, keys[a]) < FirstIndex(goals, keys[b])
  }

  /** How the first occurrence of `k` moves when one goal is added at the end. */
  lemma FirstIndexSnoc(goals: seq<Goal>, k: Category)
    requires goals != []
    ensures var n := |goals| - 1;
      && (FirstIndex(goals[..n], k) < n ==> FirstIndex(goals, k) == FirstIndex(goals[..n], k))
      && (FirstIndex(goals[..n], k) == n ==> FirstIndex(goals, k) == if goals[n].category == k then n else |goals|)
  {
    var n := |goals| - 1;
    FirstIndexPrefix(goals, n, k);
    FirstIndexIsFirst(goals, k);
  }

  /** `FirstSeen` lists exactly the categories that occur. */
  lemma {:induction false} FirstSeenMembers(goals: seq<Goal>)
    ensures forall k :: k in FirstSeen(goals) <==> FirstIndex(goals, k) < |goals|
  {
    if goals != [] {
      var front := goals[..|goals| - 1];
      FirstSeenMembers(front);
      forall k ensures k in FirstSeen(goals) <==> FirstIndex(goals, k) < |goals| {
        FirstIndexSnoc(goals, k);
      }
    }
  }

  /** `FirstSeen` lists the categories in the order of their first goal. */
  lemma {:induction false} FirstSeenOrdered(goals: seq<Goal>)
    ensures OrderedByFirst(goals, FirstSeen(goals))
  {
    if goals != [] {
      var n := |goals| - 1;
      var front := goals[..n];
      var seen := FirstSeen(front);
      var c := goals[n].category;
      FirstSeenOrdered(front);
      FirstSeenMembers(front);
      forall a | 0 <= a < |seen| ensures FirstIndex(goals, seen[a]) == FirstIndex(front, seen[a]) < n {
        FirstIndexSnoc(goals, seen[a]);
      }
      if c !in seen {
        FirstIndexSnoc(goals, c);
        var after := seen + [c];
        forall a, b | 0 <= a < b < |after| ensures FirstIndex(goals, after[a]) < FirstIndex(goals, after[b]) {
          assert after[a] == seen[a];
          if b < |seen| {
            assert after[b] == seen[b];
          }
        }
      }
    }
  }

  /** Counting one more goal appends its category to `FirstSeen` unless it was already seen. */
  lemma FirstSeenStep(goals: seq<Goal>, i: nat, seen: seq<Category>)
    requires i < |goals|
    requires seen == FirstSeen(goals[..i])
    ensures FirstSeen(goals[..i + 1]) == AddKey(seen, goals[i].category)
  {
    assert goals[..i + 1][..i] == goals[..i];
  }

  /** One slice of the pie chart. */
  datatype CategoryEntry = CategoryEntry(name: Category, value: nat)

  function Names(entries: seq<CategoryEntry>): (r: seq<Category>)
    ensures |r| == |entries| && forall i :: 0 <= i < |entries| ==> r[i] == entries[i].name
  {
    if entries == [] then [] else Names(entries[..|entries| - 1]) + [entries[|entries| - 1].name]
  }

  function SumValues(entries: seq<CategoryEntry>): nat {
    if entries == [] then 0 else SumValues(entries[..|entries| - 1]) + entries[|entries| - 1].value
  }

  /** The sum of the dictionary's values over the keys in `keys`. */
  function SumCounts(keys: seq<Category>, counts: map<Category, nat>): nat
    requires forall k :: k in keys ==> k in counts
  {
    if keys == [] then 0 else SumCounts(keys[..|keys| - 1], counts) + counts[keys[|keys| - 1]]
  }

  predicate Distinct(keys: seq<Category>) {
    forall i, j :: 0 <= i < j < |keys| ==> keys[i] != keys[j]
  }

  /** Raising one key's count by one raises the sum over distinct keys by one. */
  lemma {:induction false} SumCountsBump(keys: seq<Category>, counts: map<Category, nat>, c: Category)
    requires forall k :: k in keys ==> k in counts
    requires Distinct(keys) && c in keys
    ensures SumCounts(keys, counts[c := counts[c] + 1]) == SumCounts(keys, counts) + 1
  {
    var n := |keys| - 1;
    var front := keys[..n];
    if keys[n] == c {
      assert c !in front by {
        forall j | 0 <= j < n ensures front[j] != c { assert keys[j] != keys[n]; }
      }
      SumCountsOther(front, counts, c, counts[c] + 1);
    } else {
      assert c in front by {
        var j :| 0 <= j < |keys| && keys[j] == c;
        assert front[j] == c;
      }
      SumCountsBump(front, counts, c);
    }
  }

  /** Setting a key outside `keys` leaves the sum over `keys` alone. */
  lemma {:induction false} SumCountsOther(keys: seq<Category>, counts: map<Category, nat>, c: Category, v: nat)
    requires forall k :: k in keys ==> k in counts
    requires c !in keys
    ensures SumCounts(keys, counts[c := v]) == SumCounts(keys, counts)
  {
    if keys != [] {
      SumCountsOther(keys[..|keys| - 1], counts, c, v);
    }
  }

  /** Adding one goal to the counted prefix raises its category's count by one. */
  lemma CountCategoryStep(goals: seq<Goal>, i: nat, c: Category)
    requires i < |goals|
    ensures CountCategory(goals[..i + 1], c) == CountCategory(goals[..i], c) + (if goals[i].category == c then 1 else 0)
  {
    assert goals[..i + 1][..i] == goals[..i];
  }

  /** The dictionary after counting one more goal of category `c`: one more, starting from none. */
  function Tally(counts: map<Category, nat>, c: Category): map<Category, nat> {
    counts[c := (if c in counts then counts[c] else 0) + 1]
  }

  /** `counts` holds, for each category met in the first `i` goals, how many of them have it. */
  predicate CountsMatch(goals: seq<Goal>, i: nat, counts: map<Category, nat>)
    requires i <= |goals|
  {
    forall c :: (c in counts <==> CountCategory(goals[..i], c) > 0) && (c in counts ==> counts[c] == CountCategory(goals[..i], c))
  }

  /** Counting goal `i` keeps the counts exact. */
  lemma CountsStep(goals: seq<Goal>, i: nat, counts: map<Category, nat>)
    requires i < |goals| && CountsMatch(goals, i, counts)
    ensures CountsMatch(goals, i + 1, Tally(counts, goals[i].category))
  {
    forall k ensures CountCategory(goals[..i + 1], k) == CountCategory(goals[..i], k) + (if goals[i].category == k then 1 else 0) {
      CountCategoryStep(goals, i, k);
    }
  }

  /** The key order lists each key of the dictionary once. */
  predicate KeysMatch(keys: seq<Category>, counts: map<Category, nat>) {
    Distinct(keys) && forall k :: k in keys <==> k in counts
  }

  /** Appending a key that is not there yet keeps the keys distinct. */
  lemma DistinctAppend(keys: seq<Category>, c: Category)
    requires Distinct(keys) && c !in keys
    ensures Distinct(keys + [c])
  {
    var after := keys + [c];
    forall i, j | 0 <= i < j < |after| ensures after[i] != after[j] {
      assert after[i] == keys[i];
      if j < |keys| {
        assert after[j] == keys[j];
      }
    }
  }

  /** Counting one more goal keeps the key order exact. */
  lemma KeysStep(keys: seq<Category>, counts: map<Category, nat>, c: Category)
    requires KeysMatch(keys, counts)
    ensures KeysMatch(AddKey(keys, c), Tally(counts, c))
  {
    if c !in keys {
      DistinctAppend(keys, c);
    }
  }

  /** Counting one more goal adds one to the total over the key order. */
  lemma SumStep(keys: seq<Category>, counts: map<Category, nat>, c: Category)
    requires KeysMatch(keys, counts)
    ensures SumCounts(AddKey(keys, c), Tally(counts, c)) == SumCounts(keys, counts) + 1
  {
    if c in keys {
      SumCountsBump(keys, counts, c);
    } else {
      SumCountsOther(keys, counts, c, 1);
      assert (keys + [c])[..|keys|] == keys;
    }
  }

  /** What the dictionary holds once the first `i` goals have been counted. */
  predicate Tallied(goals: seq<Goal>, i: nat, keys: seq<Category>, counts: map<Category, nat>)
    requires i <= |goals|
  {
    && KeysMatch(keys, counts)
    && CountsMatch(goals, i, counts)
    && SumCounts(keys, counts) == i
    && keys == FirstSeen(goals[..i])
  }

  /** Counting goal `i` keeps the dictionary exact. */
  lemma TallyStep(goals: seq<Goal>, i: nat, keys: seq<Category>, counts: map<Category, nat>)
    requires i < |goals| && Tallied(goals, i, keys, counts)
    ensures Tallied(goals, i + 1, AddKey(keys, goals[i].category), Tally(counts, goals[i].category))
  {
    CountsStep(goals, i, counts);
    KeysStep(keys, counts, goals[i].category);
    SumStep(keys, counts, goals[i].category);
    FirstSeenStep(goals, i, keys);
  }

  /**
   * The loop that fills the category dictionary in place, one goal at a time. `keys` is
   * the dictionary's key order, which for string keys is insertion order, so categories
   * come in the order of their first goal.
   */
  method CountByCategory(goals: seq<Goal>) returns (keys: seq<Category>, counts: map<Category, nat>)
    ensures Distinct(keys)
    ensures forall k :: k in keys <==> k in counts
    ensures forall c :: c in keys <==> CountCategory(goals, c) > 0
    ensures forall k :: k in counts ==> counts[k] == CountCategory(goals, k)
    ensures SumCounts(keys, counts) == |goals|
    ensures keys == FirstSeen(goals)
    ensures OrderedByFirst(goals, keys)
  {
    keys := [];
    counts := map[];
    var i := 0;
    while i < |goals|
      invariant 0 <= i <= |goals|
      invariant Tallied(goals, i, keys, counts)
    {
      var c := goals[i].category;
      TallyStep(goals, i, keys, counts);
      if c !in counts {
        keys := keys + [c];
      }
      counts := counts[c := (if c in counts then counts[c] else 0) + 1];
      i := i + 1;
    }
    assert goals[..i] == goals;
    FirstSeenOrdered(goals);
  }

  /** One chart entry per key, in key order, holding the key and its count. */
  function ToEntries(keys: seq<Category>, counts: map<Category, nat>): (r: seq<CategoryEntry>)
    requires forall k :: k in keys ==> k in counts
    ensures |r| == |keys|
    ensures forall i :: 0 <= i < |keys| ==> r[i] == CategoryEntry(keys[i], counts[keys[i]])
    ensures Names(r) == keys
    ensures SumValues(r) == SumCounts(keys, counts)
  {
    if keys == [] then []
    else
      var n := |keys| - 1;
      var front := ToEntries(keys[..n], counts);
      var r := front + [CategoryEntry(keys[n], counts[keys[n]])];
      assert r[..n] == front;
      assert keys == keys[..n] + [keys[n]];
      assert Names(r) == Names(front) + [keys[n]];
      assert SumValues(r) == SumValues(front) + counts[keys[n]];
      r
  }

  /**
   * The pie chart's data: each category of the collection appears once, in the order of
   * its first goal, with its number of goals; the values add up to the number of goals.
   */
  method CategoryData(goals: seq<Goal>) returns (entries: seq<CategoryEntry>)
    ensures Distinct(Names(entries))
    ensures forall c :: c in Names(entries) <==> CountCategory(goals, c) > 0
    ensures forall i :: 0 <= i < |entries| ==> entries[i].value == CountCategory(goals, entries[i].name) >= 1
    ensures SumValues(entries) == |goals|
    ensures forall a, b :: 0 <= a < b < |entries| ==> FirstIndex(goals, entries[a].name) < FirstIndex(goals, entries[b].name)
  {
    var keys, counts := CountByCategory(goals);
    entries := ToEntries(keys, counts);
  }

  // ---------------------------------------------------------------------------
  // Recent goals preview

  /** The first three goals, or all of them when there are fewer. */
  function Preview(goals: seq<Goal>): seq<Goal> {
    if |goals| <= 3 then goals else goals[..3]
  }

  /** The "View All Goals" link is rendered when there are more than three goals. */
  predicate ShowsViewAll(goals: seq<Goal>) {
    |goals| > 3
  }

  /** The preview is the first min(3, n) goals in order, and "View All" appears iff it hides some goal. */
  lemma PreviewIsPrefix(goals: seq<Goal>)
    ensures |Preview(goals)| == (if |goals| < 3 then |goals| else 3)
    ensures forall i :: 0 <= i < |Preview(goals)| ==> Preview(goals)[i] == goals[i]
    ensures ShowsViewAll(goals) <==> |Preview(goals)| < |goals|
  {
  }
}
