/**
 * The matrix board of components/MatrixBoard.tsx: the due-date status
 * of a task relative to `now`, its tag, the display order inside a
 * quadrant, and the selection of open tasks per quadrant.
 *
 * Whether two timestamps fall on the same local calendar day depends on
 * the time zone; it is the parameter `sameDay`.
 */
module Board {
  import opened Wrappers
  import opened Clock
  import opened Seqs
  import opened Text
  import opened Types

  /** `'overdue' | 'today' | 'lt24h' | 'lt72h' | 'none'`. */
  datatype DueStatus = Overdue | Today | Within24h | Within72h | Unmarked

  /**
   * `getDueStatus`: no (truthy) due date is unmarked; a past due time is
   * overdue; a due time later on the same calendar day is today;
   * otherwise strictly under 24 hours, strictly under 72 hours, or unmarked.
   */
  function GetDueStatus(dueAt: Option<int>, now: int, sameDay: (int, int) -> bool): (s: DueStatus)
    ensures s == Overdue <==> Truthy(dueAt) && dueAt.value < now
    ensures s == Today <==> Truthy(dueAt) && now <= dueAt.value && sameDay(dueAt.value, now)
    ensures s == Within24h <==>
      Truthy(dueAt) && now <= dueAt.value < now + DAY_MS && !sameDay(dueAt.value, now)
    ensures s == Within72h <==>
      Truthy(dueAt) && now + DAY_MS <= dueAt.value < now + 72 * HOUR_MS && !sameDay(dueAt.value, now)
    ensures s == Unmarked <==>
      !Truthy(dueAt) || (now + 72 * HOUR_MS <= dueAt.value && !sameDay(dueAt.value, now))
  {
    if !Truthy(dueAt) then Unmarked
    else
      var diff := dueAt.value - now;
      if diff < 0 then Overdue
      else if sameDay(dueAt.value, now) then Today
      else if diff < 24 * HOUR_MS then Within24h
      else if diff < 72 * HOUR_MS then Within72h
      else Unmarked
  }

  /** A calendar whose days start at local midnight, `offset` ms ahead of UTC. */
  function SameLocalDay(offset: int): (int, int) -> bool
  {
    (a: int, b: int) => (a + offset) / DAY_MS == (b + offset) / DAY_MS
  }

  /** On such a calendar a task due "today" is due within the next 24 hours. */
  lemma TodayIsWithinADay(dueAt: int, now: int, offset: int)
    requires GetDueStatus(Some(dueAt), now, SameLocalDay(offset)) == Today
    ensures 0 <= dueAt - now < DAY_MS
  {
    var day := (now + offset) / DAY_MS;
    assert (dueAt + offset) / DAY_MS == day;
    assert day * DAY_MS <= now + offset;
    assert dueAt + offset < day * DAY_MS + DAY_MS;
  }

  /** `getDueLabel`: the tag text; there is no tag exactly when the status is unmarked. */
  function GetDueLabel(dueAt: Option<int>, now: int, sameDay: (int, int) -> bool): (r: Option<string>)
    ensures r.None? <==> GetDueStatus(dueAt, now, sameDay) == Unmarked
  {
    match GetDueStatus(dueAt, now, sameDay)
    case Overdue => Some("⛔ 已逾期")
    case Today => Some("⏰ 今日截止")
    case Within24h => Some("⚠️ 24h内截止")
    case Within72h => Some("⚠️ 3天内截止")
    case Unmarked => None
  }

  /**
   * The comparator `sortTasks` passes to `sort`: negative means `a` is
   * shown first. It is consistent: it puts `a` no later than `b` exactly
   * when `a`'s key is not above `b`'s, and it calls them equal exactly
   * when their keys are equal. So it is a total preorder and `sort` is
   * well defined on it.
   */
  function Compare(a: TaskClassification, b: TaskClassification, now: int, sameDay: (int, int) -> bool): (r: int)
    ensures r <= 0 <==> KeyLe(BoardKey(a, now, sameDay), BoardKey(b, now, sameDay))
    ensures r == 0 <==> BoardKey(a, now, sameDay) == BoardKey(b, now, sameDay)
  {
    var aStatus := GetDueStatus(a.dueAt, now, sameDay);
    var bStatus := GetDueStatus(b.dueAt, now, sameDay);
    if aStatus == Overdue && bStatus != Overdue then -1
    else if aStatus != Overdue && bStatus == Overdue then 1
    else if aStatus == Today && bStatus != Today then -1
    else if aStatus != Today && bStatus == Today then 1
    else if Truthy(a.dueAt) && Truthy(b.dueAt) then a.dueAt.value - b.dueAt.value
    else if Truthy(a.dueAt) then -1
    else if Truthy(b.dueAt) then 1
    else b.uScore - a.uScore
  }

  /** Overdue first, then today, then the rest. */
  function Rank(s: DueStatus): int
  {
    match s
    case Overdue => 0
    case Today => 1
    case _ => 2
  }

  /** The lexicographic key the comparator orders by. */
  function BoardKey(t: TaskClassification, now: int, sameDay: (int, int) -> bool): Key
  {
    Key(Rank(GetDueStatus(t.dueAt, now, sameDay)),
        if Truthy(t.dueAt) then 0 else 1,
        if Truthy(t.dueAt) then t.dueAt.value else -t.uScore)
  }

  function BoardKeyOf(now: int, sameDay: (int, int) -> bool): TaskClassification -> Key
  {
    (t: TaskClassification) => BoardKey(t, now, sameDay)
  }

  /** Two tasks due at the same moment compare equal; the urgency score does not break the tie. */
  lemma EqualDueTimesTie(a: TaskClassification, b: TaskClassification, now: int, sameDay: (int, int) -> bool)
    requires Truthy(a.dueAt) && a.dueAt == b.dueAt
    ensures Compare(a, b, now, sameDay) == 0 && Compare(b, a, now, sameDay) == 0
  {
  }

  /**
   * `sortTasks`: a sorted copy. The result is a permutation of the input
   * and in the comparator's order.
   */
  function SortTasks(tasks: seq<TaskClassification>, now: int, sameDay: (int, int) -> bool): (r: seq<TaskClassification>)
    ensures |r| == |tasks| && multiset(r) == multiset(tasks)
    ensures forall i, j :: 0 <= i < j < |r| ==> Compare(r[i], r[j], now, sameDay) <= 0
  {
    var r := SortBy(tasks, BoardKeyOf(now, sameDay));
    assert forall i, j :: 0 <= i < j < |r| ==> Compare(r[i], r[j], now, sameDay) <= 0 by {
      forall i, j | 0 <= i < j < |r| ensures Compare(r[i], r[j], now, sameDay) <= 0 {
        assert KeyLe(BoardKeyOf(now, sameDay)(r[i]), BoardKeyOf(now, sameDay)(r[j]));
      }
    }
    r
  }

  /**
   * The sort is stable, as `Array.prototype.sort` is: the tasks that
   * compare equal to `t` keep their input order.
   */
  lemma SortTasksStable(tasks: seq<TaskClassification>, now: int, sameDay: (int, int) -> bool, t: TaskClassification)
    ensures Keep(SortTasks(tasks, now, sameDay), SameKey(BoardKeyOf(now, sameDay), BoardKey(t, now, sameDay)))
         == Keep(tasks, SameKey(BoardKeyOf(now, sameDay), BoardKey(t, now, sameDay)))
  {
    SortByStable(tasks, BoardKeyOf(now, sameDay), BoardKey(t, now, sameDay));
  }

  /**
   * What the display order means: overdue tasks before all others, then
   * tasks due today; within a group, dated tasks before undated ones in
   * ascending due time; undated tasks by descending urgency.
   */
  lemma BoardOrder(tasks: seq<TaskClassification>, now: int, sameDay: (int, int) -> bool, i: int, j: int)
    requires 0 <= i < j < |tasks|
    ensures var r := SortTasks(tasks, now, sameDay);
            var a, b := r[i], r[j];
            var sa, sb := GetDueStatus(a.dueAt, now, sameDay), GetDueStatus(b.dueAt, now, sameDay);
            && (sb == Overdue ==> sa == Overdue)
            && (sb == Today ==> sa == Overdue || sa == Today)
            && (Rank(sa) == Rank(sb) && Truthy(b.dueAt) ==> Truthy(a.dueAt) && a.dueAt.value <= b.dueAt.value)
            && (!Truthy(a.dueAt) && !Truthy(b.dueAt) ==> a.uScore >= b.uScore)
  {
    var r := SortTasks(tasks, now, sameDay);
    assert Compare(r[i], r[j], now, sameDay) <= 0;
  }

  predicate IsOpenTask(t: TaskClassification)
  {
    t.status == Open
  }

  /** `t.quadrant.startsWith(q)`. */
  function InQuadrant(q: Quadrant): TaskClassification -> bool
  {
    (t: TaskClassification) => StartsWith(QuadrantCode(t.quadrant), QuadrantCode(q))
  }

  /** A stored quadrant starts with a code only when it is that quadrant. */
  lemma StartsWithCodeIff(p: Quadrant, q: Quadrant)
    ensures StartsWith(QuadrantCode(p), QuadrantCode(q)) <==> p == q
  {
    var cp, cq := QuadrantCode(p), QuadrantCode(q);
    assert |cp| == 2 && |cq| == 2 && cp[..2] == cp;
    if cp == cq {
      assert cp[1] == cq[1];
    }
  }

  /** The open tasks whose quadrant is `q`, each as often as in `tasks`. */
  lemma OpenInQuadrant(tasks: seq<TaskClassification>, q: Quadrant)
    ensures forall t :: multiset(Keep(Keep(tasks, IsOpenTask), InQuadrant(q)))[t]
                     == if t.status == Open && t.quadrant == q then multiset(tasks)[t] else 0
  {
    var openTasks := Keep(tasks, IsOpenTask);
    KeepMultiset(tasks, IsOpenTask);
    KeepMultiset(openTasks, InQuadrant(q));
    forall t: TaskClassification ensures InQuadrant(q)(t) <==> t.quadrant == q {
      StartsWithCodeIff(t.quadrant, q);
    }
  }

  /**
   * `getTasksByQuadrant`: the open tasks of quadrant `q`, each as often
   * as in `tasks` and nothing else, in display order.
   */
  function GetTasksByQuadrant(tasks: seq<TaskClassification>, q: Quadrant, now: int, sameDay: (int, int) -> bool)
    : (r: seq<TaskClassification>)
    ensures forall t :: multiset(r)[t] == if t.status == Open && t.quadrant == q then multiset(tasks)[t] else 0
    ensures forall i, j :: 0 <= i < j < |r| ==> Compare(r[i], r[j], now, sameDay) <= 0
  {
    OpenInQuadrant(tasks, q);
    SortTasks(Keep(Keep(tasks, IsOpenTask), InQuadrant(q)), now, sameDay)
  }

  /** Every open task is on the board exactly once: the four columns split the open tasks. */
  lemma ColumnsPartitionOpenTasks(tasks: seq<TaskClassification>, now: int, sameDay: (int, int) -> bool)
    ensures multiset(GetTasksByQuadrant(tasks, Q1, now, sameDay)) + multiset(GetTasksByQuadrant(tasks, Q2, now, sameDay))
          + multiset(GetTasksByQuadrant(tasks, Q3, now, sameDay)) + multiset(GetTasksByQuadrant(tasks, Q4, now, sameDay))
         == multiset(Keep(tasks, IsOpenTask))
  {
    var c1 := multiset(GetTasksByQuadrant(tasks, Q1, now, sameDay));
    var c2 := multiset(GetTasksByQuadrant(tasks, Q2, now, sameDay));
    var c3 := multiset(GetTasksByQuadrant(tasks, Q3, now, sameDay));
    var c4 := multiset(GetTasksByQuadrant(tasks, Q4, now, sameDay));
    var all := multiset(Keep(tasks, IsOpenTask));
    forall t ensures (c1 + c2 + c3 + c4)[t] == all[t] {
      OpenCount(tasks, t);
      ColumnCount(tasks, Q1, now, sameDay, t);
      ColumnCount(tasks, Q2, now, sameDay, t);
      ColumnCount(tasks, Q3, now, sameDay, t);
      ColumnCount(tasks, Q4, now, sameDay, t);
    }
    MultisetExtensional(c1 + c2 + c3 + c4, all);
  }

  lemma ColumnCount(tasks: seq<TaskClassification>, q: Quadrant, now: int, sameDay: (int, int) -> bool,
                    t: TaskClassification)
    ensures multiset(GetTasksByQuadrant(tasks, q, now, sameDay))[t]
         == if t.status == Open && t.quadrant == q then multiset(tasks)[t] else 0
  {
  }

  lemma MultisetExtensional(a: multiset<TaskClassification>, b: multiset<TaskClassification>)
    requires forall t :: a[t] == b[t]
    ensures a == b
  {
  }

  lemma OpenCount(tasks: seq<TaskClassification>, t: TaskClassification)
    ensures multiset(Keep(tasks, IsOpenTask))[t] == if t.status == Open then multiset(tasks)[t] else 0
  {
    KeepMultiset(tasks, IsOpenTask);
  }
}
