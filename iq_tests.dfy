/**
 * The IQ-test controller's logic: scoring a submitted attempt, choosing the test a student
 * may take now, and assigning a test to a group. Tables are sequences and maps; instants
 * are integers ("now" is a parameter).
 */
module IqTests {
  import opened Wrappers

  datatype IqOption = IqOption(id: int, isCorrect: bool)
  datatype IqQuestion = IqQuestion(id: int, score: int, options: seq<IqOption>)
  datatype IqSection = IqSection(questions: seq<IqQuestion>)
  datatype IqTest = IqTest(id: int, isActive: bool, sections: seq<IqSection>)

  datatype SubmittedAnswer = SubmittedAnswer(questionId: int, selectedOptionId: int)
  datatype SubmitIqTest = SubmitIqTest(studentId: int, testId: int, startedAt: int, answers: seq<SubmittedAnswer>)

  datatype IqAnswer = IqAnswer(questionId: int, selectedOptionId: int, isCorrect: bool)
  datatype IqTestAttempt = IqTestAttempt(
    studentId: int, testId: int, startedAt: int, completedAt: int,
    rawScore: int, maxScore: int, answers: seq<IqAnswer>)

  datatype IqError = StudentNotFound | TestNotFound | DuplicateQuestion(questionId: int)

  // ---- Submitted answers ------------------------------------------------------------

  /** No question id occurs twice among the submitted answers. */
  predicate DistinctQuestions(answers: seq<SubmittedAnswer>) {
    forall i, j | 0 <= i < j < |answers| :: answers[i].questionId != answers[j].questionId
  }

  /**
   * `ToDictionary(a => a.QuestionId, a => a.SelectedOptionId)`: adds the answers in order and
   * fails on the first question id already added.
   */
  function AnswerDictionary(answers: seq<SubmittedAnswer>): (r: Result<map<int, int>, IqError>)
    ensures r.Failure? ==> r.error.DuplicateQuestion? && r.error.questionId in SubmittedIds(answers)
  {
    if answers == [] then Success(map[])
    else
      var init := answers[..|answers| - 1];
      assert SubmittedIds(init) <= SubmittedIds(answers) by {
        forall q | q in SubmittedIds(init) ensures q in SubmittedIds(answers) {
          var i :| 0 <= i < |init| && init[i].questionId == q;
          assert answers[i] == init[i];
        }
      }
      match AnswerDictionary(init)
      case Failure(e) => Failure(e)
      case Success(m) =>
        var a := answers[|answers| - 1];
        assert answers[|answers| - 1] == a;
        if a.questionId in m then Failure(DuplicateQuestion(a.questionId))
        else Success(m[a.questionId := a.selectedOptionId])
  }

  /** The question ids among the submitted answers. */
  function SubmittedIds(answers: seq<SubmittedAnswer>): set<int> {
    set i | 0 <= i < |answers| :: answers[i].questionId
  }

  lemma SubmittedIdsSnoc(answers: seq<SubmittedAnswer>)
    requires answers != []
    ensures SubmittedIds(answers) == SubmittedIds(answers[..|answers| - 1]) + {answers[|answers| - 1].questionId}
  {
    var init := answers[..|answers| - 1];
    forall q | q in SubmittedIds(answers) ensures q in SubmittedIds(init) + {answers[|answers| - 1].questionId} {
      var i :| 0 <= i < |answers| && answers[i].questionId == q;
      if i < |init| { assert init[i].questionId == q; }
    }
    forall q | q in SubmittedIds(init) ensures q in SubmittedIds(answers) {
      var i :| 0 <= i < |init| && init[i].questionId == q;
      assert answers[i] == init[i];
    }
  }

  /** The dictionary is built exactly when no question id is submitted twice. */
  lemma {:induction false} AnswerDictionarySucceeds(answers: seq<SubmittedAnswer>)
    ensures AnswerDictionary(answers).Success? <==> DistinctQuestions(answers)
  {
    if answers != [] {
      var n := |answers| - 1;
      var init := answers[..n];
      AnswerDictionarySucceeds(init);
      AnswerDictionaryKeys(init);
      assert forall i | 0 <= i < n :: init[i] == answers[i];
      var a := answers[n];
      match AnswerDictionary(init)
      case Failure(_) =>
        var i, j :| 0 <= i < j < n && init[i].questionId == init[j].questionId;
        assert answers[i].questionId == answers[j].questionId;
      case Success(m) =>
        if a.questionId in m {
          var i :| 0 <= i < n && init[i].questionId == a.questionId;
          assert answers[i].questionId == answers[n].questionId;
        } else {
          forall i | 0 <= i < n ensures answers[i].questionId != a.questionId {
            assert init[i].questionId in SubmittedIds(init);
          }
        }
    }
  }

  /** A built dictionary maps each submitted question id, and nothing else, to the option submitted for it. */
  lemma {:induction false} AnswerDictionaryKeys(answers: seq<SubmittedAnswer>)
    ensures AnswerDictionary(answers).Success? ==>
      && AnswerDictionary(answers).value.Keys == SubmittedIds(answers)
      && (forall i | 0 <= i < |answers| ::
            AnswerDictionary(answers).value[answers[i].questionId] == answers[i].selectedOptionId)
  {
    if answers != [] {
      var n := |answers| - 1;
      var init := answers[..n];
      AnswerDictionaryKeys(init);
      SubmittedIdsSnoc(answers);
      assert forall i | 0 <= i < n :: init[i] == answers[i];
    }
  }

  // ---- Scoring -------------------------------------------------------------------------

  /** The questions of the sections, section by section, in order. */
  function Questions(sections: seq<IqSection>): seq<IqQuestion> {
    if sections == [] then []
    else Questions(sections[..|sections| - 1]) + sections[|sections| - 1].questions
  }

  /** The first option with the given id (`FirstOrDefault(o => o.Id == id)`). */
  function FirstOptionWithId(options: seq<IqOption>, id: int): Option<IqOption> {
    if options == [] then None
    else if options[0].id == id then Some(options[0])
    else FirstOptionWithId(options[1..], id)
  }

  /** `selectedOption?.IsCorrect ?? false`. */
  function SelectionIsCorrect(q: IqQuestion, selected: int): bool {
    match FirstOptionWithId(q.options, selected)
    case Some(o) => o.isCorrect
    case None => false
  }

  /**
   * A selection counts as correct only when it names an option of the question that is
   * correct; with distinct option ids, exactly then. An id that names no option is wrong.
   */
  lemma {:induction false} SelectionIsCorrectSpec(q: IqQuestion, selected: int)
    ensures SelectionIsCorrect(q, selected) ==>
      exists k | 0 <= k < |q.options| :: q.options[k].id == selected && q.options[k].isCorrect
    ensures (forall k | 0 <= k < |q.options| :: q.options[k].id != selected) ==> !SelectionIsCorrect(q, selected)
    ensures (forall i, j | 0 <= i < j < |q.options| :: q.options[i].id != q.options[j].id) ==>
      (SelectionIsCorrect(q, selected) <==>
       exists k | 0 <= k < |q.options| :: q.options[k].id == selected && q.options[k].isCorrect)
  {
    FirstOptionSpec(q.options, selected);
  }

  lemma {:induction false} FirstOptionSpec(options: seq<IqOption>, id: int)
    ensures FirstOptionWithId(options, id).None? <==> forall k | 0 <= k < |options| :: options[k].id != id
    ensures FirstOptionWithId(options, id).Some? ==>
      exists k | 0 <= k < |options| :: options[k] == FirstOptionWithId(options, id).value && options[k].id == id
        && forall i | 0 <= i < k :: options[i].id != id
  {
    if options != [] && options[0].id != id {
      FirstOptionSpec(options[1..], id);
      assert forall i | 1 <= i < |options| :: options[i] == options[1..][i - 1];
      if FirstOptionWithId(options[1..], id).Some? {
        var k :| 0 <= k < |options[1..]| && options[1..][k] == FirstOptionWithId(options, id).value
          && options[1..][k].id == id && forall i | 0 <= i < k :: options[1..][i].id != id;
        assert options[k + 1] == options[1..][k];
      }
    } else if options != [] {
      assert options[0] == FirstOptionWithId(options, id).value;
    }
  }

  /** The sum of the scores of all questions. */
  function MaxScore(qs: seq<IqQuestion>): int {
    if qs == [] then 0 else MaxScore(qs[..|qs| - 1]) + qs[|qs| - 1].score
  }

  /** Is `q` answered, and answered correctly? */
  predicate AnsweredCorrectly(q: IqQuestion, answers: map<int, int>) {
    q.id in answers && SelectionIsCorrect(q, answers[q.id])
  }

  /** The sum of the scores of the questions answered correctly. */
  function RawScore(qs: seq<IqQuestion>, answers: map<int, int>): int {
    if qs == [] then 0
    else
      var q := qs[|qs| - 1];
      RawScore(qs[..|qs| - 1], answers) + if AnsweredCorrectly(q, answers) then q.score else 0
  }

  /** One answer row per answered question, in question order. */
  function AnswerRows(qs: seq<IqQuestion>, answers: map<int, int>): seq<IqAnswer> {
    if qs == [] then []
    else
      var q := qs[|qs| - 1];
      AnswerRows(qs[..|qs| - 1], answers)
        + if q.id in answers then [IqAnswer(q.id, answers[q.id], SelectionIsCorrect(q, answers[q.id]))] else []
  }

  /** With scores that are not negative, the raw score lies between 0 and the maximum. */
  lemma {:induction false} ScoreBounds(qs: seq<IqQuestion>, answers: map<int, int>)
    requires forall i | 0 <= i < |qs| :: qs[i].score >= 0
    ensures 0 <= RawScore(qs, answers) <= MaxScore(qs)
  {
    if qs != [] {
      ScoreBounds(qs[..|qs| - 1], answers);
    }
  }

  /**
   * Every question answered correctly gives the full score; with positive scores the full
   * score is reached only that way.
   */
  lemma {:induction false} FullScoreIffAllCorrect(qs: seq<IqQuestion>, answers: map<int, int>)
    requires forall i | 0 <= i < |qs| :: qs[i].score > 0
    ensures RawScore(qs, answers) == MaxScore(qs) <==> forall i | 0 <= i < |qs| :: AnsweredCorrectly(qs[i], answers)
  {
    if qs != [] {
      var init := qs[..|qs| - 1];
      FullScoreIffAllCorrect(init, answers);
      ScoreBounds(init, answers);
      assert forall i | 0 <= i < |init| :: init[i] == qs[i];
    }
  }

  /** Each answer row names a submitted question of the test, the option submitted for it, and its verdict. */
  lemma {:induction false} AnswerRowsFaithful(qs: seq<IqQuestion>, answers: map<int, int>)
    ensures |AnswerRows(qs, answers)| <= |qs|
    ensures forall x | x in AnswerRows(qs, answers) ::
      x.questionId in answers && x.selectedOptionId == answers[x.questionId]
      && exists i | 0 <= i < |qs| :: qs[i].id == x.questionId && x.isCorrect == SelectionIsCorrect(qs[i], x.selectedOptionId)
  {
    if qs != [] {
      var init := qs[..|qs| - 1];
      AnswerRowsFaithful(init, answers);
      assert forall i | 0 <= i < |init| :: init[i] == qs[i];
      var q := qs[|qs| - 1];
      forall x | x in AnswerRows(qs, answers)
        ensures exists i | 0 <= i < |qs| :: qs[i].id == x.questionId && x.isCorrect == SelectionIsCorrect(qs[i], x.selectedOptionId)
      {
        if x !in AnswerRows(init, answers) {
          assert qs[|qs| - 1].id == x.questionId;
        }
      }
    }
  }

  /** Every answered question of the test has its row. */
  lemma {:induction false} AnswerRowsCover(qs: seq<IqQuestion>, answers: map<int, int>)
    ensures forall i | 0 <= i < |qs| && qs[i].id in answers ::
      IqAnswer(qs[i].id, answers[qs[i].id], SelectionIsCorrect(qs[i], answers[qs[i].id])) in AnswerRows(qs, answers)
  {
    if qs != [] {
      var init := qs[..|qs| - 1];
      AnswerRowsCover(init, answers);
      assert forall i | 0 <= i < |init| :: init[i] == qs[i];
    }
  }

  /** When the test's question ids are distinct, so are the question ids of the rows. */
  lemma {:induction false} AnswerRowsDistinct(qs: seq<IqQuestion>, answers: map<int, int>)
    requires forall i, j | 0 <= i < j < |qs| :: qs[i].id != qs[j].id
    ensures var rows := AnswerRows(qs, answers);
      forall k, l | 0 <= k < l < |rows| :: rows[k].questionId != rows[l].questionId
  {
    if qs != [] {
      var init := qs[..|qs| - 1];
      var q := qs[|qs| - 1];
      assert forall i | 0 <= i < |init| :: init[i] == qs[i];
      AnswerRowsDistinct(init, answers);
      AnswerRowsFaithful(init, answers);
      var before := AnswerRows(init, answers);
      var rows := AnswerRows(qs, answers);
      if q.id in answers {
        forall k | 0 <= k < |before|
          ensures before[k].questionId != q.id
        {
          assert before[k] in before;
          var i :| 0 <= i < |init| && init[i].id == before[k].questionId;
        }
        assert forall k | 0 <= k < |before| :: rows[k] == before[k];
        assert rows[|before|].questionId == q.id;
      }
    }
  }

  /** When every question is answered there is one row per question, in question order. */
  lemma {:induction false} AllAnsweredRows(qs: seq<IqQuestion>, answers: map<int, int>)
    requires forall i | 0 <= i < |qs| :: qs[i].id in answers
    ensures |AnswerRows(qs, answers)| == |qs|
    ensures forall i | 0 <= i < |qs| :: AnswerRows(qs, answers)[i].questionId == qs[i].id
  {
    if qs != [] {
      var init := qs[..|qs| - 1];
      assert forall i | 0 <= i < |init| :: init[i] == qs[i];
      AllAnsweredRows(init, answers);
    }
  }

  /** An answer to a question id that is not in the test changes neither the score nor the rows. */
  lemma {:induction false} ForeignAnswerIgnored(qs: seq<IqQuestion>, answers: map<int, int>, id: int, selected: int)
    requires forall i | 0 <= i < |qs| :: qs[i].id != id
    ensures RawScore(qs, answers[id := selected]) == RawScore(qs, answers)
    ensures AnswerRows(qs, answers[id := selected]) == AnswerRows(qs, answers)
  {
    if qs != [] {
      ForeignAnswerIgnored(qs[..|qs| - 1], answers, id, selected);
    }
  }

  /** The nested loops of `SubmitTestAttempt` that accumulate the two scores and the answer rows. */
  method ScoreAnswers(test: IqTest, answers: map<int, int>) returns (rawScore: int, maxScore: int, rows: seq<IqAnswer>)
    ensures maxScore == MaxScore(Questions(test.sections))
    ensures rawScore == RawScore(Questions(test.sections), answers)
    ensures rows == AnswerRows(Questions(test.sections), answers)
  {
    rawScore, maxScore, rows := 0, 0, [];
    ghost var done: seq<IqQuestion> := [];
    for s := 0 to |test.sections|
      invariant done == Questions(test.sections[..s])
      invariant maxScore == MaxScore(done)
      invariant rawScore == RawScore(done, answers)
      invariant rows == AnswerRows(done, answers)
    {
      var section := test.sections[s];
      for k := 0 to |section.questions|
        invariant done == Questions(test.sections[..s]) + section.questions[..k]
        invariant maxScore == MaxScore(done)
        invariant rawScore == RawScore(done, answers)
        invariant rows == AnswerRows(done, answers)
      {
        var question := section.questions[k];
        maxScore := maxScore + question.score;
        if question.id in answers {
          var selectedOptionId := answers[question.id];
          var isCorrect := SelectionIsCorrect(question, selectedOptionId);
          if isCorrect {
            rawScore := rawScore + question.score;
          }
          rows := rows + [IqAnswer(question.id, selectedOptionId, isCorrect)];
        }
        ScoresSnoc(done, question, answers);
        done := done + [question];
        assert section.questions[..k + 1] == section.questions[..k] + [question];
      }
      QuestionsSnoc(test.sections, s);
      assert section.questions[..|section.questions|] == section.questions;
    }
    assert test.sections[..|test.sections|] == test.sections;
  }

  /** The questions of the first `s + 1` sections: those of the first `s`, then those of section `s`. */
  lemma QuestionsSnoc(sections: seq<IqSection>, s: nat)
    requires s < |sections|
    ensures Questions(sections[..s + 1]) == Questions(sections[..s]) + sections[s].questions
  {
    assert sections[..s + 1][..s] == sections[..s];
  }

  /** One more question adds its score to the maximum, and its answer, if any, to the rest. */
  lemma ScoresSnoc(qs: seq<IqQuestion>, q: IqQuestion, answers: map<int, int>)
    ensures MaxScore(qs + [q]) == MaxScore(qs) + q.score
    ensures RawScore(qs + [q], answers) == RawScore(qs, answers) + if AnsweredCorrectly(q, answers) then q.score else 0
    ensures AnswerRows(qs + [q], answers)
      == AnswerRows(qs, answers) + if q.id in answers then [IqAnswer(q.id, answers[q.id], SelectionIsCorrect(q, answers[q.id]))] else []
  {
    assert (qs + [q])[..|qs|] == qs;
  }

  /**
   * `SubmitTestAttempt`: the student and the test must exist and no question may be
   * answered twice; the attempt then carries both scores and one row per answered question.
   */
  method SubmitTestAttempt(students: set<int>, tests: map<int, IqTest>, dto: SubmitIqTest, now: int)
    returns (r: Result<IqTestAttempt, IqError>)
    ensures dto.studentId !in students ==> r == Failure(StudentNotFound)
    ensures dto.studentId in students && dto.testId !in tests ==> r == Failure(TestNotFound)
    ensures dto.studentId in students && dto.testId in tests && !DistinctQuestions(dto.answers) ==>
      r.Failure? && r.error.DuplicateQuestion?
    ensures r.Success? <==> dto.studentId in students && dto.testId in tests && DistinctQuestions(dto.answers)
    ensures r.Success? ==>
      AnswerDictionary(dto.answers).Success? &&
      var qs := Questions(tests[dto.testId].sections);
      var answers := AnswerDictionary(dto.answers).value;
      r.value == IqTestAttempt(dto.studentId, dto.testId, dto.startedAt, now,
                               RawScore(qs, answers), MaxScore(qs), AnswerRows(qs, answers))
  {
    if dto.studentId !in students {
      return Failure(StudentNotFound);
    }
    if dto.testId !in tests {
      return Failure(TestNotFound);
    }
    var test := tests[dto.testId];
    AnswerDictionarySucceeds(dto.answers);
    var dictionary := AnswerDictionary(dto.answers);
    if dictionary.Failure? {
      return Failure(dictionary.error);
    }
    var rawScore, maxScore, rows := ScoreAnswers(test, dictionary.value);
    r := Success(IqTestAttempt(dto.studentId, dto.testId, dto.startedAt, now, rawScore, maxScore, rows));
  }

  // ---- Assignment of tests to groups -----------------------------------------------

  datatype IqTestGroup = IqTestGroup(
    testId: int, groupId: int, isActive: bool,
    startDate: Option<int>, endDate: Option<int>, createdAt: int)

  datatype AssignTest = AssignTest(testId: int, groupId: int, isActive: bool, startDate: Option<int>, endDate: Option<int>)

  /** The first row for the pair (`FirstOrDefaultAsync(tg => tg.TestId == ... && tg.GroupId == ...)`). */
  function FindAssignment(rows: seq<IqTestGroup>, testId: int, groupId: int): (k: Option<nat>)
    ensures k.Some? ==> k.value < |rows| && rows[k.value].testId == testId && rows[k.value].groupId == groupId
    ensures k.Some? ==> forall i | 0 <= i < k.value :: !(rows[i].testId == testId && rows[i].groupId == groupId)
    ensures k.None? <==> forall i | 0 <= i < |rows| :: !(rows[i].testId == testId && rows[i].groupId == groupId)
  {
    if rows == [] then None
    else if rows[0].testId == testId && rows[0].groupId == groupId then Some(0)
    else
      var k := FindAssignment(rows[1..], testId, groupId);
      assert forall i | 1 <= i < |rows| :: rows[i] == rows[1..][i - 1];
      if k.Some? then Some(k.value + 1) else None
  }

  /** At most one row per (test, group) pair. */
  predicate PairsUnique(rows: seq<IqTestGroup>) {
    forall i, j | 0 <= i < j < |rows| :: !(rows[i].testId == rows[j].testId && rows[i].groupId == rows[j].groupId)
  }

  /** The assignment table. */
  class TestGroupTable {
    var rows: seq<IqTestGroup>

    constructor (initial: seq<IqTestGroup>)
      ensures rows == initial
    {
      rows := initial;
    }

    /**
     * `AssignTestToGroup`: the existing row for the pair gets the new flag and dates, or a
     * row is added; the table keeps at most one row per pair.
     */
    method AssignTestToGroup(dto: AssignTest, now: int) returns (row: IqTestGroup)
      modifies this
      ensures var k := FindAssignment(old(rows), dto.testId, dto.groupId);
        && (k.None? ==>
              row == IqTestGroup(dto.testId, dto.groupId, dto.isActive, dto.startDate, dto.endDate, now)
              && rows == old(rows) + [row])
        && (k.Some? ==>
              row == old(rows)[k.value].(isActive := dto.isActive, startDate := dto.startDate, endDate := dto.endDate)
              && rows == old(rows)[k.value := row])
      ensures old(PairsUnique(rows)) ==> PairsUnique(rows)
      ensures FindAssignment(rows, dto.testId, dto.groupId).Some?
        && rows[FindAssignment(rows, dto.testId, dto.groupId).value] == row
    {
      var k := FindAssignment(rows, dto.testId, dto.groupId);
      if k.None? {
        row := IqTestGroup(dto.testId, dto.groupId, dto.isActive, dto.startDate, dto.endDate, now);
        rows := rows + [row];
        assert rows[|rows| - 1] == row;
      } else {
        row := rows[k.value].(isActive := dto.isActive, startDate := dto.startDate, endDate := dto.endDate);
        rows := rows[k.value := row];
        assert rows[k.value] == row;
      }
    }
  }

  // ---- The active test of a student --------------------------------------------------

  /** A row that `GetActiveTestForStudent` considers: the group's, active, for an active test. */
  predicate Eligible(row: IqTestGroup, groupId: int, tests: map<int, IqTest>) {
    row.groupId == groupId && row.isActive && row.testId in tests && tests[row.testId].isActive
  }

  /**
   * The most recently created eligible row (`OrderByDescending(tg => tg.CreatedAt)` then
   * `FirstOrDefault`); among rows created at the same instant the earliest in the table.
   */
  function LatestEligible(rows: seq<IqTestGroup>, groupId: int, tests: map<int, IqTest>): Option<IqTestGroup> {
    if rows == [] then None
    else
      var best := LatestEligible(rows[..|rows| - 1], groupId, tests);
      var last := rows[|rows| - 1];
      if Eligible(last, groupId, tests) && (best.None? || best.value.createdAt < last.createdAt) then Some(last)
      else best
  }

  /** The latest eligible row exists exactly when some row is eligible, and no eligible row is newer. */
  lemma {:induction false} LatestEligibleSpec(rows: seq<IqTestGroup>, groupId: int, tests: map<int, IqTest>)
    ensures LatestEligible(rows, groupId, tests).None? <==> forall i | 0 <= i < |rows| :: !Eligible(rows[i], groupId, tests)
    ensures LatestEligible(rows, groupId, tests).Some? ==>
      var g := LatestEligible(rows, groupId, tests).value;
      && g in rows && Eligible(g, groupId, tests)
      && forall i | 0 <= i < |rows| && Eligible(rows[i], groupId, tests) :: rows[i].createdAt <= g.createdAt
  {
    if rows != [] {
      var init := rows[..|rows| - 1];
      LatestEligibleSpec(init, groupId, tests);
      assert forall i | 0 <= i < |init| :: init[i] == rows[i];
      assert rows == init + [rows[|rows| - 1]];
    }
  }

  /** A row of another group, an inactive row, or a row for a missing or inactive test never changes the choice. */
  lemma IneligibleRowIgnored(rows: seq<IqTestGroup>, row: IqTestGroup, groupId: int, tests: map<int, IqTest>)
    requires !Eligible(row, groupId, tests)
    ensures LatestEligible(rows + [row], groupId, tests) == LatestEligible(rows, groupId, tests)
  {
    assert (rows + [row])[..|rows|] == rows;
  }

  /** Both bounds of the window are inclusive and an absent bound does not restrict. */
  predicate InWindow(row: IqTestGroup, now: int) {
    (row.startDate.None? || row.startDate.value <= now) && (row.endDate.None? || now <= row.endDate.value)
  }

  /**
   * A window with neither bound is always open; one whose end comes before its start never
   * is; one that starts and ends at the same instant holds at that instant only.
   */
  lemma WindowSpec(row: IqTestGroup, now: int)
    ensures row.startDate.None? && row.endDate.None? ==> InWindow(row, now)
    ensures row.startDate.Some? && row.endDate.Some? && row.endDate.value < row.startDate.value ==> !InWindow(row, now)
    ensures row.startDate.Some? && row.endDate.Some? && row.endDate.value == row.startDate.value ==>
      (InWindow(row, now) <==> now == row.startDate.value)
  {
  }

  datatype ActiveTestResult = StudentOrGroupNotFound | NoActiveTest | ActiveTest(test: IqTest)

  /**
   * `GetActiveTestForStudent`: the student must exist and belong to a group; the test of the
   * latest eligible assignment is returned when `now` lies in its window, and nothing otherwise.
   */
  function GetActiveTestForStudent(groupOf: map<int, Option<int>>, studentId: int,
                                   rows: seq<IqTestGroup>, tests: map<int, IqTest>, now: int): (r: ActiveTestResult)
    ensures (studentId !in groupOf || groupOf[studentId].None?) <==> r == StudentOrGroupNotFound
    ensures r.ActiveTest? <==>
      && studentId in groupOf && groupOf[studentId].Some?
      && LatestEligible(rows, groupOf[studentId].value, tests).Some?
      && InWindow(LatestEligible(rows, groupOf[studentId].value, tests).value, now)
    ensures r.ActiveTest? ==>
      var g := LatestEligible(rows, groupOf[studentId].value, tests).value;
      g.testId in tests && r.test == tests[g.testId]
    ensures r.ActiveTest? ==>
      && r.test.isActive
      && exists i | 0 <= i < |rows| :: Eligible(rows[i], groupOf[studentId].value, tests)
           && InWindow(rows[i], now) && tests[rows[i].testId] == r.test
  {
    if studentId !in groupOf || groupOf[studentId].None? then StudentOrGroupNotFound
    else
      var groupId := groupOf[studentId].value;
      LatestEligibleSpec(rows, groupId, tests);
      match LatestEligible(rows, groupId, tests)
      case None => NoActiveTest
      case Some(g) =>
        if g.startDate.Some? && now < g.startDate.value then NoActiveTest
        else if g.endDate.Some? && now > g.endDate.value then NoActiveTest
        else ActiveTest(tests[g.testId])
  }

  /**
   * Only the latest assignment is looked at: once it has expired, an older assignment whose
   * window is still open is not offered.
   */
  lemma ExpiredLatestHidesOlder()
    ensures var t := IqTest(1, true, []);
      var older := IqTestGroup(1, 7, true, None, None, 10);
      var newer := IqTestGroup(1, 7, true, None, Some(20), 15);
      GetActiveTestForStudent(map[3 := Some(7)], 3, [older, newer], map[1 := t], 30) == NoActiveTest
  {
    var t := IqTest(1, true, []);
    var older := IqTestGroup(1, 7, true, None, None, 10);
    var newer := IqTestGroup(1, 7, true, None, Some(20), 15);
    assert [older, newer][..1] == [older];
    assert [older][..0] == [];
    assert LatestEligible([older], 7, map[1 := t]) == Some(older);
    assert LatestEligible([older, newer], 7, map[1 := t]) == Some(newer);
  }
}
