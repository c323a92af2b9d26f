/**
 * The deterministic guardrails of App.tsx that post-process the remote
 * classifier's answer: a minimum urgency from the due date, a minimum
 * importance from keyword classes, the Eisenhower quadrant of the
 * corrected scores, the rewritten explanations, and the new record.
 */
module Guardrails {
  import opened Wrappers
  import opened Text
  import opened Clock
  import opened Types

  const U_TH: int := 60
  const I_TH: int := 60

  function Max(a: int, b: int): int
  {
    if a < b then b else a
  }

  // ---- Due-date urgency rule ----

  /**
   * The minimum urgency a due date imposes: 60, 45, 30 or 10 as the
   * distance to the due time, in either direction, is at most one day,
   * at most 72 hours, at most seven days, or more. Bounds are inclusive.
   */
  function TimeSignalFromDue(dueAt: int, nowMs: int): (r: int)
    ensures r == 60 <==> Abs(dueAt - nowMs) <= DAY_MS
    ensures r == 45 <==> DAY_MS < Abs(dueAt - nowMs) <= 72 * HOUR_MS
    ensures r == 30 <==> 72 * HOUR_MS < Abs(dueAt - nowMs) <= 7 * DAY_MS
    ensures r == 10 <==> 7 * DAY_MS < Abs(dueAt - nowMs)
  {
    var absDiff := Abs(dueAt - nowMs);
    if absDiff <= DAY_MS then 60
    else if absDiff <= 72 * HOUR_MS then 45
    else if absDiff <= 7 * DAY_MS then 30
    else 10
  }

  /** Overdue and upcoming due dates at the same distance get the same floor. */
  lemma TimeSignalSymmetric(nowMs: int, d: int)
    ensures TimeSignalFromDue(nowMs - d, nowMs) == TimeSignalFromDue(nowMs + d, nowMs)
  {
  }

  /** A nearer due date never gets a lower floor. */
  lemma TimeSignalMonotone(nearer: int, farther: int, nowMs: int)
    requires Abs(nearer - nowMs) <= Abs(farther - nowMs)
    ensures TimeSignalFromDue(nearer, nowMs) >= TimeSignalFromDue(farther, nowMs)
  {
  }

  /** Each bucket bound belongs to the nearer bucket; one millisecond more does not. */
  lemma TimeSignalBoundaries(nowMs: int)
    ensures TimeSignalFromDue(nowMs + DAY_MS, nowMs) == 60
    ensures TimeSignalFromDue(nowMs - DAY_MS - 1, nowMs) == 45
    ensures TimeSignalFromDue(nowMs + 72 * HOUR_MS, nowMs) == 45
    ensures TimeSignalFromDue(nowMs + 72 * HOUR_MS + 1, nowMs) == 30
    ensures TimeSignalFromDue(nowMs - 7 * DAY_MS, nowMs) == 30
    ensures TimeSignalFromDue(nowMs + 7 * DAY_MS + 1, nowMs) == 10
  {
  }

  // ---- Keyword matchers ----

  /** Alternatives of the high-risk pattern (injury, safety, compliance, tax, lawsuits, customs, platform). */
  const HIGH_RISK: seq<string> := [
    "受伤", "安全", "合规", "税务", "诉讼", "立案", "财产保全", "平台政策", "海关",
    "injury", "safety", "compliance", "tax", "lawsuit", "customs", "platform"]

  /** Alternatives of the packaging and labelling pattern. */
  const PACKAGING: seq<string> := [
    "说明书", "外箱", "内盒", "包装", "箱唛", "标签", "标识", "label", "ce", "rohs"]

  /** Alternatives of the reviews and returns pattern. */
  const REVIEWS: seq<string> := [
    "差评", "评分", "退货", "客诉", "bad review", "rating", "return", "complaint"]

  /** A case-insensitive `/(k1|k2|...)/i.test(text)`: some keyword occurs anywhere in the text. */
  predicate Mentions(text: string, keywords: seq<string>)
  {
    exists k :: 0 <= k < |keywords| && Contains(Lower(text), keywords[k])
  }

  /** The match ignores case: the text and its lower-cased form mention the same keywords. */
  lemma MentionsIgnoresCase(text: string, keywords: seq<string>)
    ensures Mentions(Lower(text), keywords) <==> Mentions(text, keywords)
  {
    assert Lower(Lower(text)) == Lower(text);
  }

  /**
   * The minimum importance the text's keywords impose: 80 for a high-risk
   * keyword, otherwise 70 for a packaging or a review keyword, otherwise
   * none (0). High risk wins when several classes match.
   */
  function MinImportanceFromText(text: string): (r: int)
    ensures r == 80 <==> Mentions(text, HIGH_RISK)
    ensures r == 70 <==> !Mentions(text, HIGH_RISK) && (Mentions(text, PACKAGING) || Mentions(text, REVIEWS))
    ensures r == 0 <==> !Mentions(text, HIGH_RISK) && !Mentions(text, PACKAGING) && !Mentions(text, REVIEWS)
  {
    if Mentions(text, HIGH_RISK) then 80
    else if Mentions(text, PACKAGING) then 70
    else if Mentions(text, REVIEWS) then 70
    else 0
  }

  /** Every keyword is already in lower case, so matching ignores the case of the text alone. */
  lemma KeywordsLowerCase()
    ensures forall k :: 0 <= k < |HIGH_RISK| ==> Lower(HIGH_RISK[k]) == HIGH_RISK[k]
    ensures forall k :: 0 <= k < |PACKAGING| ==> Lower(PACKAGING[k]) == PACKAGING[k]
    ensures forall k :: 0 <= k < |REVIEWS| ==> Lower(REVIEWS[k]) == REVIEWS[k]
  {
    forall k | 0 <= k < |HIGH_RISK| ensures Lower(HIGH_RISK[k]) == HIGH_RISK[k] {
      LowerNoUpper(HIGH_RISK[k]);
    }
    forall k | 0 <= k < |PACKAGING| ensures Lower(PACKAGING[k]) == PACKAGING[k] {
      LowerNoUpper(PACKAGING[k]);
    }
    forall k | 0 <= k < |REVIEWS| ensures Lower(REVIEWS[k]) == REVIEWS[k] {
      LowerNoUpper(REVIEWS[k]);
    }
  }

  /** Any spelling of a keyword, in any letter case, anywhere in the text, mentions its class. */
  lemma MentionsWhenContains(text: string, needle: string, keywords: seq<string>)
    requires Contains(text, needle) && Lower(needle) in keywords
    ensures Mentions(text, keywords)
  {
    ContainsLower(text, needle);
    var k :| 0 <= k < |keywords| && keywords[k] == Lower(needle);
  }

  /** A high-risk keyword sets the floor to 80 whatever else the text mentions. */
  lemma HighRiskKeywordFloor(text: string, needle: string)
    requires Contains(text, needle) && Lower(needle) in HIGH_RISK
    ensures MinImportanceFromText(text) == 80
  {
    MentionsWhenContains(text, needle, HIGH_RISK);
  }

  /** A packaging or review keyword sets the floor to at least 70. */
  lemma PackagingOrReviewKeywordFloor(text: string, needle: string)
    requires Contains(text, needle) && (Lower(needle) in PACKAGING || Lower(needle) in REVIEWS)
    ensures MinImportanceFromText(text) >= 70
  {
    if Lower(needle) in PACKAGING {
      MentionsWhenContains(text, needle, PACKAGING);
    } else {
      MentionsWhenContains(text, needle, REVIEWS);
    }
  }

  // ---- Quadrant classifier ----

  predicate IsUrgent(q: Quadrant)
  {
    q == Q1 || q == Q3
  }

  predicate IsImportant(q: Quadrant)
  {
    q == Q1 || q == Q2
  }

  /** The Eisenhower quadrant: urgent exactly when u >= 60, important exactly when i >= 60. */
  function QuadrantFromScores(u: int, i: int): (q: Quadrant)
    ensures IsUrgent(q) <==> u >= U_TH
    ensures IsImportant(q) <==> i >= I_TH
  {
    if u >= U_TH && i >= I_TH then Q1
    else if u < U_TH && i >= I_TH then Q2
    else if u >= U_TH && i < I_TH then Q3
    else Q4
  }

  /** The thresholds are inclusive. */
  lemma QuadrantBoundaries()
    ensures QuadrantFromScores(60, 60) == Q1
    ensures QuadrantFromScores(59, 60) == Q2
    ensures QuadrantFromScores(60, 59) == Q3
    ensures QuadrantFromScores(59, 59) == Q4
  {
  }

  /** `quadrantLabelMap`: the localized name of each quadrant. */
  function QuadrantName(q: Quadrant): (r: string)
    ensures r == "立即执行" <==> q == Q1
    ensures r == "制定计划" <==> q == Q2
    ensures r == "授权他人" <==> q == Q3
    ensures r == "暂不处理" <==> q == Q4
  {
    match q
    case Q1 => "立即执行"
    case Q2 => "制定计划"
    case Q3 => "授权他人"
    case Q4 => "暂不处理"
  }

  /** The stored label `q + " - " + name`: it starts with the quadrant's code. */
  function QuadrantLabel(q: Quadrant): (r: string)
    ensures |r| > 5 && r[..2] == QuadrantCode(q) && r[2..5] == " - "
    ensures r[5..] == QuadrantName(q)
  {
    QuadrantCode(q) + " - " + QuadrantName(q)
  }

  /** Distinct quadrants have distinct labels. */
  lemma QuadrantLabelInjective(a: Quadrant, b: Quadrant)
    requires QuadrantLabel(a) == QuadrantLabel(b)
    ensures a == b
  {
    assert QuadrantCode(a) == QuadrantLabel(a)[..2] == QuadrantLabel(b)[..2] == QuadrantCode(b);
  }

  // ---- Explanation rewriting ----

  const ORIGINAL_CLAUSE: string := " 原分析："

  /** A correction notice, followed by the original explanation as a trailing clause when there was one. */
  function WithOriginal(notice: string, original: string): (r: string)
    ensures |r| >= |notice| && r[..|notice|] == notice
    ensures |r| == |notice| <==> original == ""
    ensures original != "" ==> r[|notice|..] == ORIGINAL_CLAUSE + original
  {
    notice + (if original == "" then "" else ORIGINAL_CLAUSE + original)
  }

  const DELTA_DAY_UNIT: string := "天 "
  const DELTA_HOUR_UNIT: string := "小时 "
  const DELTA_MINUTE_UNIT: string := "分钟"

  /** The delta label `[d天 ]h小时 m分钟`: the day part only when there are whole days. */
  function DeltaText(s: Span): (r: string)
    ensures |r| >= |DELTA_MINUTE_UNIT| && r[|r| - |DELTA_MINUTE_UNIT|..] == DELTA_MINUTE_UNIT
  {
    DeltaHead(s) + ToDecimal(s.minutes) + DELTA_MINUTE_UNIT
  }

  /** The delta label names days exactly when there are whole days. */
  lemma DeltaTextShowsDays(s: Span)
    ensures '天' in DeltaText(s) <==> s.days > 0
  {
    NotInDecimal('天', s.days);
    NotInDecimal('天', s.hours);
    NotInDecimal('天', s.minutes);
  }

  /** The part of the delta label before the minutes. */
  function DeltaHead(s: Span): string
  {
    DeltaDays(s) + ToDecimal(s.hours) + DELTA_HOUR_UNIT
  }

  /** The day part of the delta label: empty when there are no whole days. */
  function DeltaDays(s: Span): string
  {
    if s.days > 0 then ToDecimal(s.days) + DELTA_DAY_UNIT else ""
  }

  /** The minute count can be read back from the delta label, just before 分钟. */
  lemma DeltaTextMinutes(s: Span)
    ensures var r := DeltaText(s);
            NumberAt(r, |r| - |DELTA_MINUTE_UNIT| - |ToDecimal(s.minutes)|, |r| - |DELTA_MINUTE_UNIT|, s.minutes)
  {
    NumberBeforeSuffix(DeltaHead(s), s.minutes, DELTA_MINUTE_UNIT);
  }

  /** The hour count can be read back from the delta label, right after the day part. */
  lemma DeltaTextHours(s: Span)
    ensures NumberAt(DeltaText(s), |DeltaDays(s)|, |DeltaDays(s)| + |ToDecimal(s.hours)|, s.hours)
  {
    NumberAtConcat(DeltaDays(s), s.hours, DELTA_HOUR_UNIT);
    NumberAtExtend(DeltaHead(s), ToDecimal(s.minutes), DELTA_MINUTE_UNIT,
                   |DeltaDays(s)|, |DeltaDays(s)| + |ToDecimal(s.hours)|, s.hours);
  }

  /** When days are shown, their count can be read back from the start of the delta label. */
  lemma DeltaTextDays(s: Span)
    requires s.days > 0
    ensures NumberAt(DeltaText(s), 0, |ToDecimal(s.days)|, s.days)
  {
    NumberAtConcat([], s.days, DELTA_DAY_UNIT);
    assert [] + ToDecimal(s.days) + DELTA_DAY_UNIT == DeltaDays(s);
    NumberAtExtend(DeltaDays(s), ToDecimal(s.hours), DELTA_HOUR_UNIT, 0, |ToDecimal(s.days)|, s.days);
    NumberAtExtend(DeltaHead(s), ToDecimal(s.minutes), DELTA_MINUTE_UNIT, 0, |ToDecimal(s.days)|, s.days);
  }

  const URGENCY_OVERDUE_HEAD: string := "截止时间已逾期"
  const URGENCY_NEAR_HEAD: string := "截止时间临近"
  const FLOOR_INTRO: string := "），按规则时间信号至少应为 +"
  const IMPORTANCE_HEAD: string := "根据跨境电商行业规则，该类任务重要性通常较高（最低建议 "
  const IMPORTANCE_TAIL: string := "）；已进行系统校正。"
  const CORRECTED: string := "；已进行系统校正。"

  /**
   * The notice that replaces the urgency explanation when the due date
   * raises the score: it says "overdue" exactly when the due time has
   * passed, and it ends with the correction remark.
   */
  function UrgencyNotice(dueAt: int, nowMs: int, minU: nat): (r: string)
    ensures StartsWith(r, URGENCY_OVERDUE_HEAD) <==> dueAt < nowMs
    ensures StartsWith(r, URGENCY_NEAR_HEAD) <==> dueAt >= nowMs
    ensures |r| >= |CORRECTED| && r[|r| - |CORRECTED|..] == CORRECTED
  {
    var rest := UrgencyDetail(dueAt, nowMs) + ToDecimal(minU) + CORRECTED;
    ChosenPrefix(URGENCY_OVERDUE_HEAD, URGENCY_NEAR_HEAD, 4, dueAt < nowMs, rest);
    (if dueAt < nowMs then URGENCY_OVERDUE_HEAD else URGENCY_NEAR_HEAD) + rest
  }

  /** The part of the urgency notice between its head and the floor. */
  function UrgencyDetail(dueAt: int, nowMs: int): (r: string)
    ensures |r| > 0 && r[|r| - 1] == '+'
    ensures var d := DeltaText(Decompose(Abs(dueAt - nowMs)));
            |r| > |d| + 1 && r[0] == '（' && r[1..|d| + 1] == d && r[|d| + 1] == '）'
  {
    var r := "（" + DeltaText(Decompose(Abs(dueAt - nowMs))) + FLOOR_INTRO;
    assert r[|r| - 1] == FLOOR_INTRO[|FLOOR_INTRO| - 1];
    r
  }

  /** The applied floor can be read back from the urgency notice, right after the "+". */
  lemma UrgencyNoticeFloor(dueAt: int, nowMs: int, minU: nat)
    ensures var r := UrgencyNotice(dueAt, nowMs, minU);
            var at := |r| - |CORRECTED| - |ToDecimal(minU)|;
            at >= 1 && r[at - 1] == '+' && NumberAt(r, at, |r| - |CORRECTED|, minU)
  {
    var head := if dueAt < nowMs then URGENCY_OVERDUE_HEAD else URGENCY_NEAR_HEAD;
    var detail := UrgencyDetail(dueAt, nowMs);
    var r := UrgencyNotice(dueAt, nowMs, minU);
    Regroup(head, detail, ToDecimal(minU), CORRECTED);
    assert r == (head + detail) + ToDecimal(minU) + CORRECTED;
    NumberBeforeSuffix(head + detail, minU, CORRECTED);
    assert (head + detail)[|head + detail| - 1] == detail[|detail| - 1] == '+';
  }

  /**
   * The delta label of the distance between due time and now sits in the
   * urgency notice right after its head and the opening "（", and the
   * closing "）" follows it.
   */
  lemma UrgencyNoticeDelta(dueAt: int, nowMs: int, minU: nat)
    ensures var r := UrgencyNotice(dueAt, nowMs, minU);
            var d := DeltaText(Decompose(Abs(dueAt - nowMs)));
            var at := |if dueAt < nowMs then URGENCY_OVERDUE_HEAD else URGENCY_NEAR_HEAD| + 1;
            |r| > at + |d| && r[at - 1] == '（' && r[at..at + |d|] == d && r[at + |d|] == '）'
  {
    var head := if dueAt < nowMs then URGENCY_OVERDUE_HEAD else URGENCY_NEAR_HEAD;
    var detail := UrgencyDetail(dueAt, nowMs);
    var d := DeltaText(Decompose(Abs(dueAt - nowMs)));
    assert UrgencyNotice(dueAt, nowMs, minU) == head + (detail + ToDecimal(minU) + CORRECTED);
    InfixAfter(head, detail, ToDecimal(minU), CORRECTED, |d|);
  }

  /** Positions inside the middle text of `head + (mid + t + u)`, shifted by the head's length. */
  lemma InfixAfter(head: string, mid: string, t: string, u: string, n: nat)
    requires n + 1 < |mid|
    ensures var r := head + (mid + t + u);
            |r| > |head| + n + 1 && r[|head|] == mid[0] && r[|head| + n + 1] == mid[n + 1]
            && r[|head| + 1..|head| + 1 + n] == mid[1..n + 1]
  {
  }

  /**
   * The notice that replaces the importance explanation when a keyword
   * raises the score: the floor it applied can be read back from it.
   */
  function ImportanceNotice(minI: nat): (r: string)
    ensures StartsWith(r, IMPORTANCE_HEAD)
    ensures |r| >= |IMPORTANCE_TAIL| && r[|r| - |IMPORTANCE_TAIL|..] == IMPORTANCE_TAIL
    ensures NumberAt(r, |IMPORTANCE_HEAD|, |r| - |IMPORTANCE_TAIL|, minI)
  {
    var r := IMPORTANCE_HEAD + ToDecimal(minI) + IMPORTANCE_TAIL;
    NumberAtConcat(IMPORTANCE_HEAD, minI, IMPORTANCE_TAIL);
    assert r[..|IMPORTANCE_HEAD|] == IMPORTANCE_HEAD;
    r
  }

  /** Different floors give different notices. */
  lemma ImportanceNoticeInjective(a: nat, b: nat)
    requires ImportanceNotice(a) == ImportanceNotice(b)
    ensures a == b
  {
  }

  // ---- The two corrections ----

  /** A score together with the explanation that goes with it. */
  datatype Adjusted = Adjusted(score: int, text: string)

  /**
   * The due-date correction: with a (truthy) due date the urgency is
   * raised to the due-date floor; the explanation is rewritten exactly
   * when the score is raised, citing the floor and keeping the original.
   */
  function GuardUrgency(u: int, urgencyText: string, dueAt: Option<int>, nowMs: int): (r: Adjusted)
    ensures Truthy(dueAt) ==> r.score == Max(u, TimeSignalFromDue(dueAt.value, nowMs))
    ensures !Truthy(dueAt) ==> r.score == u
    ensures r.text == urgencyText <==> r.score == u
    ensures r.score != u ==> r.text == WithOriginal(UrgencyNotice(dueAt.value, nowMs, r.score), urgencyText)
  {
    if Truthy(dueAt) then
      var minU := TimeSignalFromDue(dueAt.value, nowMs);
      if u < minU then Adjusted(minU, WithOriginal(UrgencyNotice(dueAt.value, nowMs, minU), urgencyText))
      else Adjusted(u, urgencyText)
    else Adjusted(u, urgencyText)
  }

  /**
   * The keyword correction: when the text imposes a positive floor the
   * importance is raised to it; otherwise the score is kept, even below 0.
   * The explanation is rewritten exactly when the score is raised.
   */
  function GuardImportance(i: int, importanceText: string, text: string): (r: Adjusted)
    ensures MinImportanceFromText(text) > 0 ==> r.score == Max(i, MinImportanceFromText(text))
    ensures MinImportanceFromText(text) == 0 ==> r.score == i
    ensures r.text == importanceText <==> r.score == i
    ensures r.score != i ==> r.text == WithOriginal(ImportanceNotice(r.score), importanceText)
  {
    var minI := MinImportanceFromText(text);
    if minI > 0 && i < minI then Adjusted(minI, WithOriginal(ImportanceNotice(minI), importanceText))
    else Adjusted(i, importanceText)
  }

  // ---- Reading the classifier's answer ----

  /** `Number.isFinite(x) ? x : 0`. */
  function ScoreOrZero(s: Score): (r: int)
    ensures s.Finite? ==> r == s.value
    ensures s.NonFinite? ==> r == 0
  {
    match s
    case Finite(v) => v
    case NonFinite => 0
  }

  /** `x || ''` on an optional explanation field. */
  function TextOrEmpty(t: Option<string>): string
  {
    match t
    case Some(s) => s
    case None => ""
  }

  function RawUrgency(result: ClassificationResult): string
  {
    if result.explanation.Some? then TextOrEmpty(result.explanation.value.urgency) else ""
  }

  function RawImportance(result: ClassificationResult): string
  {
    if result.explanation.Some? then TextOrEmpty(result.explanation.value.importance) else ""
  }

  function RawNextAction(result: ClassificationResult): string
  {
    if result.explanation.Some? then TextOrEmpty(result.explanation.value.nextAction) else ""
  }

  // ---- The new record ----

  /**
   * The record invariants: the quadrant and its label follow from the
   * stored scores, and a completion time is recorded exactly when done.
   */
  predicate WellFormed(t: TaskClassification)
  {
    && t.quadrant == QuadrantFromScores(t.uScore, t.iScore)
    && t.quadrantLabel == QuadrantLabel(t.quadrant)
    && (t.completedAt.Some? <==> t.status == Done)
  }

  /**
   * The record a successful classification produces: corrected scores,
   * rewritten explanations, the quadrant recomputed from the corrected
   * scores (the classifier's own quadrant is not used), status open.
   */
  function ClassifiedRecord(result: ClassificationResult, text: string, dueAt: Option<int>,
                            nowMs: int, id: string, createdAt: int): (t: TaskClassification)
    ensures WellFormed(t)
    ensures t.status == Open && t.completedAt == None
    ensures t.id == id && t.originalText == text && t.dueAt == dueAt && t.timestamp == createdAt
    ensures t.uScore >= ScoreOrZero(result.u) && t.iScore >= ScoreOrZero(result.i)
    ensures Truthy(dueAt) ==> t.uScore >= TimeSignalFromDue(dueAt.value, nowMs)
    ensures MinImportanceFromText(text) > 0 ==> t.iScore >= MinImportanceFromText(text)
    ensures t.explanation.nextAction == RawNextAction(result)
    ensures var u := GuardUrgency(ScoreOrZero(result.u), RawUrgency(result), dueAt, nowMs);
            t.uScore == u.score && t.explanation.urgency == u.text
    ensures var i := GuardImportance(ScoreOrZero(result.i), RawImportance(result), text);
            t.iScore == i.score && t.explanation.importance == i.text
  {
    var u := GuardUrgency(ScoreOrZero(result.u), RawUrgency(result), dueAt, nowMs);
    var i := GuardImportance(ScoreOrZero(result.i), RawImportance(result), text);
    var q := QuadrantFromScores(u.score, i.score);
    TaskClassification(
      id, text, q, QuadrantLabel(q), u.score, i.score, dueAt, Open, None,
      Explanation(u.text, i.text, RawNextAction(result)), createdAt)
  }

  /** The classifier's answer, re-read from a stored record. */
  function Reclassified(result: ClassificationResult, t: TaskClassification): ClassificationResult
  {
    ClassificationResult(result.quadrant, Finite(t.uScore), Finite(t.iScore),
      Some(RawExplanation(Some(t.explanation.urgency), Some(t.explanation.importance),
                          Some(t.explanation.nextAction))))
  }

  /**
   * Idempotence: running the guardrails again on scores and explanations
   * they already corrected changes nothing, in particular no explanation
   * is rewritten a second time.
   */
  lemma GuardrailsIdempotent(result: ClassificationResult, text: string, dueAt: Option<int>,
                             nowMs: int, id: string, createdAt: int)
    ensures var t := ClassifiedRecord(result, text, dueAt, nowMs, id, createdAt);
            ClassifiedRecord(Reclassified(result, t), text, dueAt, nowMs, id, createdAt) == t
  {
  }

  /** Non-finite scores count as 0 before the floors apply. */
  lemma NonFiniteScoresAreZero(result: ClassificationResult, text: string, dueAt: Option<int>,
                               nowMs: int, id: string, createdAt: int)
    requires result.u == NonFinite && result.i == NonFinite
    requires !Truthy(dueAt) && MinImportanceFromText(text) == 0
    ensures var t := ClassifiedRecord(result, text, dueAt, nowMs, id, createdAt);
            t.uScore == 0 && t.iScore == 0 && t.quadrant == Q4
  {
  }

  /** A high-risk keyword overrides any lower importance the classifier gave. */
  lemma HighRiskOverridesClassifier(result: ClassificationResult, text: string, needle: string,
                                    dueAt: Option<int>, nowMs: int, id: string, createdAt: int)
    requires Contains(text, needle) && Lower(needle) in HIGH_RISK
    requires ScoreOrZero(result.i) < 80
    ensures var t := ClassifiedRecord(result, text, dueAt, nowMs, id, createdAt);
            t.iScore == 80 && IsImportant(t.quadrant) && t.explanation.importance != RawImportance(result)
  {
    HighRiskKeywordFloor(text, needle);
  }

  /** Injury (受伤) and lawsuit (诉讼) are high-risk keywords. */
  lemma InjuryAndLawsuitFloor(text: string)
    requires Contains(text, "受伤") || Contains(text, "诉讼")
    ensures MinImportanceFromText(text) == 80
  {
    LowerNoUpper("受伤");
    LowerNoUpper("诉讼");
    assert HIGH_RISK[0] == "受伤" && HIGH_RISK[4] == "诉讼";
    if Contains(text, "受伤") {
      HighRiskKeywordFloor(text, "受伤");
    } else {
      HighRiskKeywordFloor(text, "诉讼");
    }
  }

  /**
   * "标签不合规" (non-compliant label) mentions a label, but it also
   * contains "合规" (compliance), so the high-risk floor 80 applies.
   */
  lemma NonCompliantLabelFloor()
    ensures MinImportanceFromText("标签不合规") == 80
  {
    var text := "标签不合规";
    LowerNoUpper(text);
    assert OccursAt("合规", text, 3);
    assert HIGH_RISK[2] == "合规";
  }

  /** Short keywords match inside longer words: "ce" in "price", "tax" in "Syntax". */
  lemma ShortKeywordsMatchInsideWords()
    ensures MinImportanceFromText("price") >= 70
    ensures MinImportanceFromText("Syntax") == 80
  {
    LowerNoUpper("price");
    assert OccursAt("ce", "price", 3);
    assert PACKAGING[8] == "ce";
    assert Mentions("price", PACKAGING);
    var s := "Syntax";
    assert Lower(s)[3..6] == "tax";
    assert OccursAt("tax", Lower(s), 3);
    assert HIGH_RISK[12] == "tax";
  }

  /** A task text from the shipping-delay scenario: "factory shipment delayed, must arrive tomorrow". */
  const SHIPPING_DELAY_TEXT: string := "工厂出货延迟,明天必须到货"

  /** The shipping-delay text mentions no keyword of any class. */
  lemma ShippingDelayTextHasNoKeyword()
    ensures MinImportanceFromText(SHIPPING_DELAY_TEXT) == 0
  {
    LowerNoUpper(SHIPPING_DELAY_TEXT);
    NotMentionedByFirstChar(SHIPPING_DELAY_TEXT, HIGH_RISK);
    NotMentionedByFirstChar(SHIPPING_DELAY_TEXT, PACKAGING);
    NotMentionedByFirstChar(SHIPPING_DELAY_TEXT, REVIEWS);
  }

  /**
   * The shipping-delay scenario: due in 20 hours, the classifier says
   * u = 30, i = 50; the due date raises u to 60, no keyword applies, and
   * the record lands in Q3.
   */
  lemma ShippingDelayScenario(nowMs: int, id: string, createdAt: int)
    requires nowMs + 20 * HOUR_MS != 0
    ensures var t := ClassifiedRecord(ClassificationResult("Q4", Finite(30), Finite(50), None),
                                      SHIPPING_DELAY_TEXT, Some(nowMs + 20 * HOUR_MS),
                                      nowMs, id, createdAt);
            t.uScore == 60 && t.iScore == 50 && t.quadrant == Q3
  {
    ShippingDelayTextHasNoKeyword();
    assert TimeSignalFromDue(nowMs + 20 * HOUR_MS, nowMs) == 60;
  }


  /** No keyword can occur when no keyword's first character occurs in the lower-cased text. */
  lemma NotMentionedByFirstChar(text: string, keywords: seq<string>)
    requires forall k :: 0 <= k < |keywords| ==> |keywords[k]| > 0 && keywords[k][0] !in Lower(text)
    ensures !Mentions(text, keywords)
  {
    forall k | 0 <= k < |keywords| ensures !Contains(Lower(text), keywords[k]) {
      NotContainsFirstChar(Lower(text), keywords[k]);
    }
  }
}
