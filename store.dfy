/**
 * The task store of App.tsx: the `tasks`, `isLoading` and `error` state,
 * the operations that replace it (classify, delete, toggle, clear), and
 * the derived lists (search result, open tasks, done tasks, board columns).
 */
module Store {
  import opened Wrappers
  import opened Text
  import opened Seqs
  import opened Types
  import opened Guardrails
  import opened Board

  // ---- Identifiers ----

  /** No two records share an id. */
  predicate UniqueIds(s: seq<TaskClassification>)
  {
    forall i, j :: 0 <= i < |s| && 0 <= j < |s| && i != j ==> s[i].id != s[j].id
  }

  /** Filtering never creates a duplicate id. */
  lemma {:induction false} KeepUniqueIds(s: seq<TaskClassification>, p: TaskClassification -> bool)
    requires UniqueIds(s)
    ensures UniqueIds(Keep(s, p))
    decreases |s|
  {
    if s != [] {
      var tail := s[1..];
      assert UniqueIds(tail) by {
        forall i, j | 0 <= i < |tail| && 0 <= j < |tail| && i != j ensures tail[i].id != tail[j].id {
          assert tail[i] == s[i + 1] && tail[j] == s[j + 1];
        }
      }
      KeepUniqueIds(tail, p);
      var rest := Keep(tail, p);
      var r := (if p(s[0]) then [s[0]] else []) + rest;
      forall m | 0 <= m < |rest| ensures rest[m].id != s[0].id {
        var n :| 0 <= n < |tail| && tail[n] == rest[m];
        assert tail[n] == s[n + 1];
      }
      assert UniqueIds(r) by {
        forall i, j | 0 <= i < |r| && 0 <= j < |r| && i != j ensures r[i].id != r[j].id {
          if p(s[0]) {
            if i > 0 && j > 0 {
              assert r[i] == rest[i - 1] && r[j] == rest[j - 1];
            } else if i == 0 {
              assert r[j] == rest[j - 1];
            } else {
              assert r[i] == rest[i - 1];
            }
          }
        }
      }
    }
  }

  /** A well-formed record with a fresh id can be put in front. */
  lemma PrependKeepsInvariants(t: TaskClassification, s: seq<TaskClassification>)
    ensures WellFormed(t) && (forall k :: 0 <= k < |s| ==> WellFormed(s[k])) ==>
            forall k :: 0 <= k < |[t] + s| ==> WellFormed(([t] + s)[k])
    ensures UniqueIds(s) && (forall k :: 0 <= k < |s| ==> s[k].id != t.id) ==> UniqueIds([t] + s)
  {
    var r := [t] + s;
    assert forall k :: 0 < k < |r| ==> r[k] == s[k - 1];
  }

  // ---- Delete ----

  function OtherId(id: string): TaskClassification -> bool
  {
    (t: TaskClassification) => t.id != id
  }

  /**
   * `prev.filter(t => t.id !== id)`: every record with another id, as
   * often as before and in the same order, and no record with this id.
   */
  function WithoutId(tasks: seq<TaskClassification>, id: string): (r: seq<TaskClassification>)
    ensures forall t :: multiset(r)[t] == if t.id != id then multiset(tasks)[t] else 0
    ensures forall k :: 0 <= k < |r| ==> r[k].id != id
    ensures r == Keep(tasks, OtherId(id))
  {
    KeepMultiset(tasks, OtherId(id));
    Keep(tasks, OtherId(id))
  }

  /** Deleting an unknown id changes nothing, and unique ids stay unique. */
  lemma WithoutIdPreserves(tasks: seq<TaskClassification>, id: string)
    ensures (forall k :: 0 <= k < |tasks| ==> tasks[k].id != id) ==> WithoutId(tasks, id) == tasks
    ensures UniqueIds(tasks) ==> UniqueIds(WithoutId(tasks, id))
  {
    if forall k :: 0 <= k < |tasks| ==> tasks[k].id != id {
      KeepAll(tasks, OtherId(id));
    }
    if UniqueIds(tasks) {
      KeepUniqueIds(tasks, OtherId(id));
    }
  }

  lemma UniqueIdsTail(s: seq<TaskClassification>)
    requires s != [] && UniqueIds(s)
    ensures UniqueIds(s[1..])
    ensures forall k :: 0 <= k < |s| - 1 ==> s[1..][k].id != s[0].id
  {
    var tail := s[1..];
    forall i, j | 0 <= i < |tail| && 0 <= j < |tail| && i != j ensures tail[i].id != tail[j].id {
      assert tail[i] == s[i + 1] && tail[j] == s[j + 1];
    }
    forall k | 0 <= k < |tail| ensures tail[k].id != s[0].id {
      assert tail[k] == s[k + 1];
    }
  }

  /** With unique ids, deleting an id that is present removes exactly one record. */
  lemma {:induction false} WithoutIdRemovesOne(tasks: seq<TaskClassification>, id: string)
    requires UniqueIds(tasks)
    requires exists k :: 0 <= k < |tasks| && tasks[k].id == id
    ensures |WithoutId(tasks, id)| == |tasks| - 1
    decreases |tasks|
  {
    var tail := tasks[1..];
    UniqueIdsTail(tasks);
    if tasks[0].id == id {
      forall x | x in tail ensures OtherId(id)(x) {
        var k :| 0 <= k < |tail| && tail[k] == x;
      }
      KeepAll(tail, OtherId(id));
    } else {
      var k :| 0 <= k < |tasks| && tasks[k].id == id;
      assert tail[k - 1] == tasks[k];
      WithoutIdRemovesOne(tail, id);
    }
  }

  lemma RemovesOneIfPresent(tasks: seq<TaskClassification>, id: string)
    ensures UniqueIds(tasks) && (exists k :: 0 <= k < |tasks| && tasks[k].id == id) ==>
            |WithoutId(tasks, id)| == |tasks| - 1
  {
    if UniqueIds(tasks) && exists k :: 0 <= k < |tasks| && tasks[k].id == id {
      WithoutIdRemovesOne(tasks, id);
    }
  }

  // ---- Toggle ----

  /** One record toggled: open becomes done at `now`, done becomes open with no completion time. */
  function Toggle(t: TaskClassification, now: int): (r: TaskClassification)
    ensures r.status != t.status
    ensures r.completedAt == if r.status == Done then Some(now) else None
    ensures r == t.(status := r.status, completedAt := r.completedAt)
  {
    var isDone := t.status == Done;
    t.(status := if isDone then Open else Done, completedAt := if isDone then None else Some(now))
  }

  /** Toggling keeps the record invariants. */
  lemma ToggleKeepsWellFormed(t: TaskClassification, now: int)
    requires WellFormed(t)
    ensures WellFormed(Toggle(t, now))
  {
  }

  /** Toggling an open task twice restores it exactly. */
  lemma ToggleTwiceRestoresOpen(t: TaskClassification, doneAt: int, reopenedAt: int)
    requires t.status == Open && t.completedAt == None
    ensures Toggle(Toggle(t, doneAt), reopenedAt) == t
  {
  }

  /**
   * `prev.map(...)`: the records with the given id are toggled, every
   * other record, the length and the order stay as they were.
   */
  function ToggledById(tasks: seq<TaskClassification>, id: string, now: int): (r: seq<TaskClassification>)
    ensures |r| == |tasks|
    ensures forall k :: 0 <= k < |r| ==> r[k] == if tasks[k].id == id then Toggle(tasks[k], now) else tasks[k]
  {
    seq(|tasks|, k requires 0 <= k < |tasks| => if tasks[k].id == id then Toggle(tasks[k], now) else tasks[k])
  }

  /** An unknown id changes nothing; ids and record invariants are kept. */
  lemma ToggledByIdPreserves(tasks: seq<TaskClassification>, id: string, now: int)
    ensures (forall k :: 0 <= k < |tasks| ==> tasks[k].id != id) ==> ToggledById(tasks, id, now) == tasks
    ensures UniqueIds(tasks) ==> UniqueIds(ToggledById(tasks, id, now))
    ensures (forall k :: 0 <= k < |tasks| ==> WellFormed(tasks[k])) ==>
            forall k :: 0 <= k < |tasks| ==> WellFormed(ToggledById(tasks, id, now)[k])
  {
  }

  // ---- Search and the open / done lists ----

  /** A task is in the search result: the query is blank, or its lower-cased text contains the lower-cased query. */
  predicate MatchesSearch(t: TaskClassification, query: string)
  {
    IsBlank(query) || Contains(Lower(t.originalText), Lower(query))
  }

  function MatchesQuery(query: string): TaskClassification -> bool
  {
    (t: TaskClassification) => Contains(Lower(t.originalText), Lower(query))
  }

  /**
   * `filteredTasks`: all tasks for a blank query; otherwise the tasks
   * whose text contains the query, case-insensitively, in order.
   */
  function Filtered(tasks: seq<TaskClassification>, query: string): (r: seq<TaskClassification>)
    ensures IsBlank(query) ==> r == tasks
    ensures !IsBlank(query) ==> r == Keep(tasks, MatchesQuery(query))
    ensures forall t :: multiset(r)[t] == if MatchesSearch(t, query) then multiset(tasks)[t] else 0
  {
    BlankIffTrimEmpty(query);
    if Trim(query) == [] then tasks
    else
      KeepMultiset(tasks, MatchesQuery(query));
      Keep(tasks, MatchesQuery(query))
  }

  predicate IsDoneTask(t: TaskClassification)
  {
    t.status == Done
  }

  /** `openTasks`: the open tasks of the search result, in order. */
  function OpenTasks(tasks: seq<TaskClassification>, query: string): (r: seq<TaskClassification>)
    ensures r == Keep(Filtered(tasks, query), IsOpenTask)
    ensures forall t :: multiset(r)[t] == if t.status == Open && MatchesSearch(t, query) then multiset(tasks)[t] else 0
  {
    var found := Filtered(tasks, query);
    KeepMultiset(found, IsOpenTask);
    Keep(found, IsOpenTask)
  }

  /** The done tasks of the search result, in their stored order, before sorting. */
  function FoundDone(tasks: seq<TaskClassification>, query: string): (r: seq<TaskClassification>)
    ensures r == Keep(Filtered(tasks, query), IsDoneTask)
    ensures forall t :: multiset(r)[t] == if t.status == Done && MatchesSearch(t, query) then multiset(tasks)[t] else 0
  {
    var found := Filtered(tasks, query);
    KeepMultiset(found, IsDoneTask);
    Keep(found, IsDoneTask)
  }

  /** `completedAt || 0`. */
  function CompletedOrZero(t: TaskClassification): int
  {
    match t.completedAt
    case Some(c) => c
    case None => 0
  }

  /** The key of the done list's comparator `(b.completedAt || 0) - (a.completedAt || 0)`. */
  function DoneKeyOf(): TaskClassification -> Key
  {
    (t: TaskClassification) => Key(0, 0, -CompletedOrZero(t))
  }

  /**
   * `doneTasks`: the done tasks of the search result, most recently
   * completed first (a missing completion time counts as 0).
   */
  function DoneTasks(tasks: seq<TaskClassification>, query: string): (r: seq<TaskClassification>)
    ensures forall t :: multiset(r)[t] == if t.status == Done && MatchesSearch(t, query) then multiset(tasks)[t] else 0
    ensures forall i, j :: 0 <= i < j < |r| ==> CompletedOrZero(r[i]) >= CompletedOrZero(r[j])
  {
    var r := SortBy(FoundDone(tasks, query), DoneKeyOf());
    assert forall i, j :: 0 <= i < j < |r| ==> CompletedOrZero(r[i]) >= CompletedOrZero(r[j]) by {
      forall i, j | 0 <= i < j < |r| ensures CompletedOrZero(r[i]) >= CompletedOrZero(r[j]) {
        assert KeyLe(DoneKeyOf()(r[i]), DoneKeyOf()(r[j]));
      }
    }
    r
  }

  // ---- Failure message ----

  const DEFAULT_ERROR: string := "分析失败。请检查网络连接或 API 配置。"

  /** `err.message || default`: never empty, and the thrown message when there is one. */
  function ErrorMessage(message: string): (r: string)
    ensures r != ""
    ensures message != "" ==> r == message
  {
    if message == "" then DEFAULT_ERROR else message
  }

  // ---- The component state ----

  class TaskStore {
    var tasks: seq<TaskClassification>
    var isLoading: bool
    var error: Option<string>

    /** Every record keeps its invariants and ids are unique. */
    ghost predicate Valid()
      reads this
    {
      (forall k :: 0 <= k < |tasks| ==> WellFormed(tasks[k])) && UniqueIds(tasks)
    }

    constructor ()
      ensures tasks == [] && !isLoading && error == None
      ensures Valid()
    {
      tasks := [];
      isLoading := false;
      error := None;
    }

    /** The synchronous start of `handleClassify`, before the classifier is awaited. */
    method BeginClassify()
      modifies this
      ensures isLoading && error == None && tasks == old(tasks)
    {
      isLoading := true;
      error := None;
    }

    /**
     * The rest of `handleClassify`, once the awaited call has settled:
     * on a result, the guardrails correct it step by step and exactly one
     * new record is put in front of the tasks as they are now; on a thrown
     * error the tasks stay as they are and the message is shown. Either
     * way the store is no longer busy.
     */
    method CompleteClassify(text: string, dueAt: Option<int>, nowMs: int, outcome: ClassifierOutcome,
                            freshId: string, createdAt: int)
      modifies this
      ensures !isLoading
      ensures outcome.Returned? ==>
        && tasks == [ClassifiedRecord(outcome.result, text, dueAt, nowMs, freshId, createdAt)] + old(tasks)
        && error == old(error)
      ensures outcome.Threw? ==> tasks == old(tasks) && error == Some(ErrorMessage(outcome.message))
      ensures old(Valid()) && (forall k :: 0 <= k < |old(tasks)| ==> old(tasks)[k].id != freshId) ==> Valid()
    {
      match outcome {
        case Threw(message) =>
          error := Some(ErrorMessage(message));
        case Returned(result) =>
          var uScore := ScoreOrZero(result.u);
          var iScore := ScoreOrZero(result.i);
          var urgencyText := RawUrgency(result);
          var importanceText := RawImportance(result);
          if Truthy(dueAt) {
            var minU := TimeSignalFromDue(dueAt.value, nowMs);
            if uScore < minU {
              uScore := minU;
              urgencyText := WithOriginal(UrgencyNotice(dueAt.value, nowMs, minU), urgencyText);
            }
          }
          assert Adjusted(uScore, urgencyText) == GuardUrgency(ScoreOrZero(result.u), RawUrgency(result), dueAt, nowMs);
          var minI := MinImportanceFromText(text);
          if minI > 0 && iScore < minI {
            iScore := minI;
            importanceText := WithOriginal(ImportanceNotice(minI), importanceText);
          }
          assert Adjusted(iScore, importanceText) == GuardImportance(ScoreOrZero(result.i), RawImportance(result), text);
          var q := QuadrantFromScores(uScore, iScore);
          var newTask := TaskClassification(
            freshId, text, q, QuadrantLabel(q), uScore, iScore, dueAt, Open, None,
            Explanation(urgencyText, importanceText, RawNextAction(result)), createdAt);
          assert newTask == ClassifiedRecord(result, text, dueAt, nowMs, freshId, createdAt);
          PrependKeepsInvariants(newTask, tasks);
          tasks := [newTask] + tasks;
      }
      isLoading := false;
    }

    /** `handleDelete`. */
    method Delete(id: string)
      modifies this
      ensures tasks == WithoutId(old(tasks), id)
      ensures isLoading == old(isLoading) && error == old(error)
      ensures old(Valid()) ==> Valid()
      ensures old(Valid()) && (exists k :: 0 <= k < |old(tasks)| && old(tasks)[k].id == id) ==>
              |tasks| == |old(tasks)| - 1
    {
      WithoutIdPreserves(tasks, id);
      RemovesOneIfPresent(tasks, id);
      tasks := WithoutId(tasks, id);
    }

    /** `handleToggleStatus`, with the clock reading `now`. */
    method ToggleStatus(id: string, now: int)
      modifies this
      ensures tasks == ToggledById(old(tasks), id, now)
      ensures isLoading == old(isLoading) && error == old(error)
      ensures old(Valid()) ==> Valid()
    {
      ToggledByIdPreserves(tasks, id, now);
      tasks := ToggledById(tasks, id, now);
    }

    /** `clearAll`, given the answer to the confirmation dialog. */
    method ClearAll(confirmed: bool)
      modifies this
      ensures tasks == if confirmed then [] else old(tasks)
      ensures isLoading == old(isLoading) && error == old(error)
      ensures old(Valid()) ==> Valid()
    {
      if confirmed {
        tasks := [];
      }
    }

    /**
     * The board's column for quadrant `q`: it is built from all tasks,
     * not from the search result, so the search never hides a task there.
     */
    function BoardColumn(q: Quadrant, now: int, sameDay: (int, int) -> bool): (r: seq<TaskClassification>)
      reads this
      ensures forall t :: multiset(r)[t] == if t.status == Open && t.quadrant == q then multiset(tasks)[t] else 0
    {
      GetTasksByQuadrant(tasks, q, now, sameDay)
    }
  }
}
