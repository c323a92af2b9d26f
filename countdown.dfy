/**
 * The countdown of components/TaskDetailsModal.tsx: whether the task is
 * overdue and how far the due time is, in whole days and hours.
 */
module Countdown {
  import opened Wrappers
  import opened Text
  import opened Clock
  import opened Types

  datatype Remaining = Remaining(text: string, isOverdue: bool)

  const OVERDUE_PREFIX: string := "已逾期："
  const LEFT_PREFIX: string := "剩余时间："

  const DAY_SEP: string := "天 "
  const HOUR_UNIT: string := "小时"

  /** `[d天 ]h小时`: the day part only when there are whole days. */
  function TimeText(s: Span): (r: string)
    ensures '天' in r <==> s.days > 0
    ensures |r| >= |HOUR_UNIT| && r[|r| - |HOUR_UNIT|..] == HOUR_UNIT
  {
    NotInDecimal('天', s.days);
    NotInDecimal('天', s.hours);
    (if s.days > 0 then ToDecimal(s.days) + DAY_SEP else "") + ToDecimal(s.hours) + HOUR_UNIT
  }

  /** The hour count can be read back from the time text, just before 小时. */
  lemma TimeTextHours(s: Span)
    ensures var r := TimeText(s);
            NumberAt(r, if s.days > 0 then |ToDecimal(s.days)| + |DAY_SEP| else 0, |r| - |HOUR_UNIT|, s.hours)
  {
    var pre := if s.days > 0 then ToDecimal(s.days) + DAY_SEP else "";
    NumberAtConcat(pre, s.hours, HOUR_UNIT);
    assert pre + ToDecimal(s.hours) + HOUR_UNIT == TimeText(s);
  }

  /** When days are shown, their count can be read back from the start of the time text. */
  lemma TimeTextDays(s: Span)
    requires s.days > 0
    ensures NumberAt(TimeText(s), 0, |ToDecimal(s.days)|, s.days)
  {
    NumberAtConcat([], s.days, DAY_SEP + ToDecimal(s.hours) + HOUR_UNIT);
    assert [] + ToDecimal(s.days) + (DAY_SEP + ToDecimal(s.hours) + HOUR_UNIT) == TimeText(s);
  }

  /** The countdown text: the overdue or time-left prefix, then the time. */
  function RemainingText(isOverdue: bool, span: Span): (text: string)
    ensures StartsWith(text, OVERDUE_PREFIX) <==> isOverdue
    ensures StartsWith(text, LEFT_PREFIX) <==> !isOverdue
    ensures '天' in text <==> span.days > 0
    ensures var prefix := if isOverdue then OVERDUE_PREFIX else LEFT_PREFIX;
            |text| >= |prefix| && text[|prefix|..] == TimeText(span)
  {
    var text := (if isOverdue then OVERDUE_PREFIX else LEFT_PREFIX) + TimeText(span);
    ChosenPrefix(OVERDUE_PREFIX, LEFT_PREFIX, 0, isOverdue, TimeText(span));
    assert '天' !in OVERDUE_PREFIX && '天' !in LEFT_PREFIX;
    text
  }

  /**
   * `getRemainingTime`: nothing without a (truthy) due date; otherwise
   * overdue exactly when the due time has passed, a text that starts
   * with "已逾期：" (overdue) or "剩余时间：" (time left) accordingly, and
   * whole days named exactly when the distance is at least one day.
   */
  function GetRemainingTime(dueAt: Option<int>, now: int): (r: Option<Remaining>)
    ensures r.None? <==> !Truthy(dueAt)
    ensures r.Some? ==> (r.value.isOverdue <==> dueAt.value < now)
    ensures r.Some? ==> (StartsWith(r.value.text, OVERDUE_PREFIX) <==> r.value.isOverdue)
    ensures r.Some? ==> (StartsWith(r.value.text, LEFT_PREFIX) <==> !r.value.isOverdue)
    ensures r.Some? ==> ('天' in r.value.text <==> Abs(dueAt.value - now) >= DAY_MS)
    ensures r.Some? ==> var prefix := if r.value.isOverdue then OVERDUE_PREFIX else LEFT_PREFIX;
            |r.value.text| >= |prefix| && r.value.text[|prefix|..] == TimeText(Decompose(Abs(dueAt.value - now)))
  {
    if !Truthy(dueAt) then None
    else
      var diff := dueAt.value - now;
      var isOverdue := diff < 0;
      Some(Remaining(RemainingText(isOverdue, Decompose(Abs(diff))), isOverdue))
  }
}
