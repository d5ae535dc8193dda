/**
 * The question-pool controller's logic: turning generated questions into pool questions,
 * copying a pool into an exam, and adding a question to a pool. The database is a value
 * holding the pools and the question table; serialized JSON columns are represented by
 * the values they serialize.
 */
module QuestionPools {
  import opened Wrappers
  import opened Text

  // ---- int.TryParse ------------------------------------------------------------------

  const Int32Min: int := -0x8000_0000
  const Int32Max: int := 0x7FFF_FFFF

  predicate IsDigit(c: char) {
    '0' <= c <= '9'
  }

  predicate AllDigits(s: string) {
    forall i | 0 <= i < |s| :: IsDigit(s[i])
  }

  /** The text after an optional leading sign. */
  function Unsigned(t: string): (r: string)
    ensures t != [] && (t[0] == '-' || t[0] == '+') ==> r == t[1..]
    ensures !(t != [] && (t[0] == '-' || t[0] == '+')) ==> r == t
  {
    if t != [] && (t[0] == '-' || t[0] == '+') then t[1..] else t
  }

  /** An optional sign followed by at least one decimal digit. */
  predicate IsIntegerText(t: string) {
    Unsigned(t) != [] && AllDigits(Unsigned(t))
  }

  /** The value of a sequence of decimal digits. */
  function DigitsValue(ds: string): nat
    requires AllDigits(ds)
  {
    if ds == [] then 0
    else DigitsValue(ds[..|ds| - 1]) * 10 + ((ds[|ds| - 1] as int) - ('0' as int))
  }

  function SignedValue(t: string): int
    requires IsIntegerText(t)
  {
    var magnitude: int := DigitsValue(Unsigned(t));
    if t[0] == '-' then -magnitude else magnitude
  }

  /**
   * `int.TryParse` with the invariant culture: surrounding white space, an optional sign,
   * decimal digits, and a value that fits in 32 bits.
   */
  function ParseInt32(s: string): (r: Option<int>)
    ensures r.Some? ==> Int32Min <= r.value <= Int32Max
    ensures r.Some? ==> IsIntegerText(Trim(s))
  {
    var t := Trim(s);
    if IsIntegerText(t) && Int32Min <= SignedValue(t) <= Int32Max then Some(SignedValue(t)) else None
  }

  /** The decimal digits of a natural number, most significant first. */
  function NatDigits(n: nat): (r: string)
    ensures r != [] && AllDigits(r) && DigitsValue(r) == n
  {
    var last := ('0' as int + n % 10) as char;
    if n < 10 then
      assert [last][..0] == [];
      [last]
    else
      var init := NatDigits(n / 10);
      assert (init + [last])[..|init|] == init;
      init + [last]
  }

  /** The decimal notation of an integer, with a minus sign when it is negative. */
  function FormatInt(n: int): string {
    if n < 0 then "-" + NatDigits(-n) else NatDigits(n)
  }

  /** Every 32-bit integer is read back from its decimal notation. */
  lemma ParseFormatRoundTrip(n: int)
    requires Int32Min <= n <= Int32Max
    ensures ParseInt32(FormatInt(n)) == Some(n)
  {
    var s := FormatInt(n);
    var ds := NatDigits(if n < 0 then -n else n);
    assert !IsWhiteSpace(ds[0]) && !IsWhiteSpace(ds[|ds| - 1]);
    assert s[|s| - 1] == ds[|ds| - 1];
    TrimOfTrimmed(s);
    if n < 0 {
      assert Unsigned(s) == ds;
    } else {
      assert Unsigned(s) == ds;
    }
  }

  /**
   * Any white space around an optional sign and decimal digits is ignored, and the value is
   * read when it fits in 32 bits.
   */
  lemma ParseIntegerText(a: string, sign: string, ds: string, b: string)
    requires IsBlank(a) && IsBlank(b)
    requires sign == "" || sign == "-" || sign == "+"
    requires ds != [] && AllDigits(ds)
    ensures var magnitude: int := DigitsValue(ds);
      var v := if sign == "-" then -magnitude else magnitude;
      ParseInt32(a + sign + ds + b) == if Int32Min <= v <= Int32Max then Some(v) else None
  {
    var m := sign + ds;
    SignedDigits(sign, ds);
    Regroup(a, sign, ds, b);
    TrimPadded(a, m, b);
  }

  lemma Regroup<T>(w: seq<T>, x: seq<T>, y: seq<T>, z: seq<T>)
    ensures w + x + y + z == w + (x + y) + z
  {
  }

  /** An optional sign followed by digits is trimmed integer text with the signed value of the digits. */
  lemma SignedDigits(sign: string, ds: string)
    requires sign == "" || sign == "-" || sign == "+"
    requires ds != [] && AllDigits(ds)
    ensures var m := sign + ds;
      var magnitude: int := DigitsValue(ds);
      && IsTrimmed(m) && IsIntegerText(m)
      && SignedValue(m) == if sign == "-" then -magnitude else magnitude
  {
    var m := sign + ds;
    assert m[|m| - 1] == ds[|ds| - 1];
    assert Unsigned(m) == ds;
  }

  /** A text with no decimal digit does not parse. */
  lemma NoDigitNoNumber(s: string)
    requires forall i | 0 <= i < |s| :: !IsDigit(s[i])
    ensures ParseInt32(s).None?
  {
    var a, b := TrimIsInfix(s);
  }

  // ---- Options of a generated question -------------------------------------------------

  datatype PoolOption = PoolOption(id: int, text: string, isCorrect: bool)

  /**
   * Is the option at 0-based `index`, with text `text`, the correct one? An answer that parses
   * as an integer names an index; otherwise the text must equal the answer exactly.
   */
  predicate IsCorrectAt(index: int, text: string, correctAnswer: string) {
    Marks(index, text, correctAnswer, ParseInt32(correctAnswer))
  }

  /** `IsCorrectAt`, given the integer reading `parsed` of the answer. */
  predicate Marks(index: int, text: string, correctAnswer: string, parsed: Option<int>) {
    match parsed
    case Some(k) => index == k
    case None => text == correctAnswer
  }

  /** The options of a generated question, numbered from 1 in input order. */
  function OptionsFor(texts: seq<string>, correctAnswer: string): (r: seq<PoolOption>)
    ensures |r| == |texts|
    ensures forall i | 0 <= i < |r| :: r[i].id == i + 1 && r[i].text == texts[i]
  {
    seq(|texts|, i requires 0 <= i < |texts| => PoolOption(i + 1, texts[i], IsCorrectAt(i, texts[i], correctAnswer)))
  }

  /** The id of the last correct option, or 1 when none is correct. */
  function LastCorrectId(options: seq<PoolOption>): int {
    if options == [] then 1
    else if options[|options| - 1].isCorrect then options[|options| - 1].id
    else LastCorrectId(options[..|options| - 1])
  }

  lemma LastCorrectIdSnoc(options: seq<PoolOption>, option: PoolOption)
    ensures LastCorrectId(options + [option]) == if option.isCorrect then option.id else LastCorrectId(options)
  {
    assert (options + [option])[..|options|] == options;
  }

  /** `LastCorrectId` names the last correct option, and is 1 exactly when there is none or it is id 1. */
  lemma {:induction false} LastCorrectIdSpec(options: seq<PoolOption>)
    ensures (forall i | 0 <= i < |options| :: !options[i].isCorrect) ==> LastCorrectId(options) == 1
    ensures forall k | 0 <= k < |options| && options[k].isCorrect && (forall j | k < j < |options| :: !options[j].isCorrect) ::
      LastCorrectId(options) == options[k].id
  {
    if options != [] {
      var init := options[..|options| - 1];
      LastCorrectIdSpec(init);
      assert forall i | 0 <= i < |init| :: init[i] == options[i];
    }
  }

  /**
   * An answer that parses as the integer `k` makes the option at index `k` the only correct
   * one, whatever the texts are; the correct id is `k + 1` when that index exists and 1 otherwise.
   */
  lemma NumericAnswerSelectsIndex(texts: seq<string>, correctAnswer: string, k: int)
    requires ParseInt32(correctAnswer) == Some(k)
    ensures forall i | 0 <= i < |texts| :: OptionsFor(texts, correctAnswer)[i].isCorrect <==> i == k
    ensures LastCorrectId(OptionsFor(texts, correctAnswer)) == if 0 <= k < |texts| then k + 1 else 1
  {
    var options := OptionsFor(texts, correctAnswer);
    assert forall i | 0 <= i < |options| :: options[i].isCorrect <==> i == k;
    OnlyIndexCorrect(options, k);
  }

  /** When exactly the option at index `k` is correct, `LastCorrectId` is its id, or 1 when there is none. */
  lemma OnlyIndexCorrect(options: seq<PoolOption>, k: int)
    requires forall i | 0 <= i < |options| :: options[i].id == i + 1
    requires forall i | 0 <= i < |options| :: options[i].isCorrect <==> i == k
    ensures LastCorrectId(options) == if 0 <= k < |options| then k + 1 else 1
  {
    LastCorrectIdSpec(options);
    if 0 <= k < |options| {
      assert options[k].isCorrect;
    }
  }

  /**
   * An answer that does not parse as an integer marks exactly the options whose text equals
   * it; the correct id is that of the last of them, or 1.
   */
  lemma TextAnswerMatchesText(texts: seq<string>, correctAnswer: string)
    requires ParseInt32(correctAnswer).None?
    ensures forall i | 0 <= i < |texts| :: OptionsFor(texts, correctAnswer)[i].isCorrect <==> texts[i] == correctAnswer
    ensures (forall i | 0 <= i < |texts| :: texts[i] != correctAnswer) ==> LastCorrectId(OptionsFor(texts, correctAnswer)) == 1
    ensures forall k | 0 <= k < |texts| && texts[k] == correctAnswer && (forall j | k < j < |texts| :: texts[j] != correctAnswer) ::
      LastCorrectId(OptionsFor(texts, correctAnswer)) == k + 1
  {
    var options := OptionsFor(texts, correctAnswer);
    assert forall i | 0 <= i < |options| :: options[i].isCorrect <==> texts[i] == correctAnswer;
    MatchingTextsCorrect(options, texts, correctAnswer);
  }

  /** When exactly the options whose text matches are correct, `LastCorrectId` is the last match's id, or 1. */
  lemma MatchingTextsCorrect(options: seq<PoolOption>, texts: seq<string>, correctAnswer: string)
    requires |options| == |texts|
    requires forall i | 0 <= i < |options| :: options[i].id == i + 1
    requires forall i | 0 <= i < |options| :: options[i].isCorrect <==> texts[i] == correctAnswer
    ensures (forall i | 0 <= i < |texts| :: texts[i] != correctAnswer) ==> LastCorrectId(options) == 1
    ensures forall k | 0 <= k < |texts| && texts[k] == correctAnswer && (forall j | k < j < |texts| :: texts[j] != correctAnswer) ::
      LastCorrectId(options) == k + 1
  {
    LastCorrectIdSpec(options);
  }

  /**
   * A numeric answer is always read as an index, even when it is the text of an option: with
   * options "1" and "2" and the answer "2", no option is correct and the correct id stays 1.
   */
  lemma NumericTextIsReadAsIndex()
    ensures var options := OptionsFor(["1", "2"], "2");
      && (forall i | 0 <= i < 2 :: !options[i].isCorrect)
      && LastCorrectId(options) == 1
  {
    assert FormatInt(2) == "2";
    ParseFormatRoundTrip(2);
    NumericAnswerSelectsIndex(["1", "2"], "2", 2);
  }

  /**
   * The inner loop of `GenerateQuestions`: number the options from 1 and mark them against
   * the answer and its integer reading `parsed`; the correct id is the last marked one, or 1.
   */
  method MarkOptions(texts: seq<string>, correctAnswer: string, parsed: Option<int>)
    returns (poolOptions: seq<PoolOption>, correctId: int)
    ensures |poolOptions| == |texts|
    ensures forall j | 0 <= j < |texts| ::
      poolOptions[j] == PoolOption(j + 1, texts[j], Marks(j, texts[j], correctAnswer, parsed))
    ensures correctId == LastCorrectId(poolOptions)
  {
    poolOptions := [];
    var idCounter := 1;
    correctId := 1;
    for i := 0 to |texts|
      invariant idCounter == i + 1 && |poolOptions| == i
      invariant forall j | 0 <= j < i :: poolOptions[j] == PoolOption(j + 1, texts[j], Marks(j, texts[j], correctAnswer, parsed))
      invariant correctId == LastCorrectId(poolOptions)
    {
      var optText := texts[i];
      var isCorrect := optText == correctAnswer;
      if parsed.Some? {
        isCorrect := idCounter - 1 == parsed.value;
      }
      if isCorrect {
        correctId := idCounter;
      }
      var option := PoolOption(idCounter, optText, isCorrect);
      LastCorrectIdSnoc(poolOptions, option);
      poolOptions := poolOptions + [option];
      idCounter := idCounter + 1;
    }
  }

  /** The options of one generated question and its correct id, as `GenerateQuestions` builds them. */
  method MapOptions(texts: seq<string>, correctAnswer: string) returns (poolOptions: seq<PoolOption>, correctId: int)
    ensures poolOptions == OptionsFor(texts, correctAnswer)
    ensures correctId == LastCorrectId(poolOptions)
  {
    var parsed := ParseInt32(correctAnswer);
    poolOptions, correctId := MarkOptions(texts, correctAnswer, parsed);
    assert poolOptions == OptionsFor(texts, correctAnswer);
  }

  // ---- Pools and their questions ----------------------------------------------------

  datatype PoolQuestion = PoolQuestion(
    poolId: int, questionText: string, questionType: string, points: real,
    options: Option<seq<PoolOption>>, correctAnswer: Option<seq<int>>)

  datatype PoolInfo = PoolInfo(teacherId: int, name: string, description: Option<string>)

  /** The pools by id and the table of pool questions, in insertion order. */
  datatype PoolStore = PoolStore(pools: map<int, PoolInfo>, questions: seq<PoolQuestion>)

  datatype PoolError = PoolIdMismatch | PoolNotFound | PoolHasNoQuestions

  /** The questions of one pool, in table order. */
  function QuestionsOf(questions: seq<PoolQuestion>, poolId: int): seq<PoolQuestion> {
    if questions == [] then []
    else
      var last := questions[|questions| - 1];
      QuestionsOf(questions[..|questions| - 1], poolId) + if last.poolId == poolId then [last] else []
  }

  /** A pool's questions are exactly the rows of the table that carry its id. */
  lemma {:induction false} QuestionsOfMembers(questions: seq<PoolQuestion>, poolId: int)
    ensures forall q | q in QuestionsOf(questions, poolId) :: q in questions && q.poolId == poolId
    ensures forall q | q in questions && q.poolId == poolId :: q in QuestionsOf(questions, poolId)
  {
    if questions != [] {
      var last := questions[|questions| - 1];
      var init := questions[..|questions| - 1];
      QuestionsOfMembers(init, poolId);
      assert questions == init + [last];
    }
  }

  lemma {:induction false} QuestionsOfAppend(questions: seq<PoolQuestion>, more: seq<PoolQuestion>, poolId: int)
    ensures QuestionsOf(questions + more, poolId) == QuestionsOf(questions, poolId) + QuestionsOf(more, poolId)
    decreases |more|
  {
    if more == [] {
      assert questions + more == questions;
    } else {
      var init := more[..|more| - 1];
      QuestionsOfAppend(questions, init, poolId);
      DropLastOfAppend(questions, more);
    }
  }

  lemma DropLastOfAppend<T>(xs: seq<T>, ys: seq<T>)
    requires ys != []
    ensures (xs + ys)[..|xs + ys| - 1] == xs + ys[..|ys| - 1]
    ensures (xs + ys)[|xs + ys| - 1] == ys[|ys| - 1]
  {
  }

  /** Every question belongs to a stored pool. */
  predicate QuestionsHavePools(store: PoolStore) {
    forall i | 0 <= i < |store.questions| :: store.questions[i].poolId in store.pools
  }

  /**
   * `AddQuestion`: the route id and the question's pool id must agree (checked first), the
   * pool must exist, and the question is then appended to the table.
   */
  function AddQuestion(store: PoolStore, poolId: int, question: PoolQuestion): (r: Result<PoolStore, PoolError>)
    ensures poolId != question.poolId ==> r == Failure(PoolIdMismatch)
    ensures poolId == question.poolId && poolId !in store.pools ==> r == Failure(PoolNotFound)
    ensures r.Success? <==> poolId == question.poolId && poolId in store.pools
    ensures r.Success? ==> r.value == store.(questions := store.questions + [question])
  {
    if poolId != question.poolId then Failure(PoolIdMismatch)
    else if poolId !in store.pools then Failure(PoolNotFound)
    else Success(store.(questions := store.questions + [question]))
  }

  /** Adding a question keeps every question attached to a stored pool, and puts it last in its pool. */
  lemma AddQuestionKeepsPools(store: PoolStore, poolId: int, question: PoolQuestion)
    requires QuestionsHavePools(store)
    requires AddQuestion(store, poolId, question).Success?
    ensures QuestionsHavePools(AddQuestion(store, poolId, question).value)
    ensures QuestionsOf(AddQuestion(store, poolId, question).value.questions, poolId)
      == QuestionsOf(store.questions, poolId) + [question]
  {
    QuestionsOfAppend(store.questions, [question], poolId);
    assert [question][..0] == [];
  }

  // ---- Generated questions ----------------------------------------------------------

  datatype GeneratedQuestion = GeneratedQuestion(questionText: string, options: seq<string>, correctAnswer: string)

  /** The pool question made from one generated question. */
  function FromGenerated(poolId: int, g: GeneratedQuestion): (q: PoolQuestion)
    ensures q.poolId == poolId && q.questionText == g.questionText
    ensures q.questionType == "multiple_choice" && q.points == 1.0
  {
    var options := OptionsFor(g.options, g.correctAnswer);
    PoolQuestion(poolId, g.questionText, "multiple_choice", 1.0, Some(options), Some([LastCorrectId(options)]))
  }

  /** The pool questions made from the generated ones, in order. */
  function Created(poolId: int, generated: seq<GeneratedQuestion>): (r: seq<PoolQuestion>)
    ensures |r| == |generated|
    ensures forall i | 0 <= i < |generated| :: r[i] == FromGenerated(poolId, generated[i])
  {
    seq(|generated|, i requires 0 <= i < |generated| => FromGenerated(poolId, generated[i]))
  }

  /** The store after generation and the questions it returns. */
  datatype Generation = Generation(store: PoolStore, created: seq<PoolQuestion>)

  /**
   * `GenerateQuestions`, after the webhook has answered: the pool must exist, and each
   * generated question gives one pool question, in order, appended to the question table
   * and returned. An absent or empty answer adds and returns none.
   */
  method GenerateQuestions(store: PoolStore, poolId: int, generated: seq<GeneratedQuestion>)
    returns (r: Result<Generation, PoolError>)
    ensures poolId !in store.pools <==> r == Failure(PoolNotFound)
    ensures r.Success? ==>
      && |r.value.created| == |generated|
      && forall i | 0 <= i < |generated| :: r.value.created[i] == FromGenerated(poolId, generated[i])
    ensures r.Success? ==> r.value.created == Created(poolId, generated)
    ensures r.Success? ==> r.value.store == store.(questions := store.questions + r.value.created)
  {
    if poolId !in store.pools {
      return Failure(PoolNotFound);
    }
    var newQuestions: seq<PoolQuestion> := [];
    for n := 0 to |generated|
      invariant |newQuestions| == n
      invariant forall i | 0 <= i < n :: newQuestions[i] == FromGenerated(poolId, generated[i])
    {
      var gq := generated[n];
      var poolOptions, correctId := MapOptions(gq.options, gq.correctAnswer);
      var question := PoolQuestion(poolId, gq.questionText, "multiple_choice", 1.0, Some(poolOptions), Some([correctId]));
      newQuestions := newQuestions + [question];
    }
    assert newQuestions == Created(poolId, generated);
    r := Success(Generation(store.(questions := store.questions + newQuestions), newQuestions));
  }

  /**
   * Generation keeps every question attached to a stored pool and puts the created questions
   * last in their pool, in order.
   */
  lemma GenerateKeepsPools(store: PoolStore, poolId: int, generated: seq<GeneratedQuestion>)
    requires QuestionsHavePools(store) && poolId in store.pools
    ensures var after := store.(questions := store.questions + Created(poolId, generated));
      && QuestionsHavePools(after)
      && QuestionsOf(after.questions, poolId) == QuestionsOf(store.questions, poolId) + Created(poolId, generated)
  {
    var created := Created(poolId, generated);
    AppendToPoolKeepsPools(store, created, poolId);
    QuestionsOfAppend(store.questions, created, poolId);
    AllOfPool(created, poolId);
  }

  lemma AppendToPoolKeepsPools(store: PoolStore, more: seq<PoolQuestion>, poolId: int)
    requires QuestionsHavePools(store) && poolId in store.pools
    requires forall i | 0 <= i < |more| :: more[i].poolId == poolId
    ensures QuestionsHavePools(store.(questions := store.questions + more))
  {
    var after := store.(questions := store.questions + more);
    forall i | 0 <= i < |after.questions|
      ensures after.questions[i].poolId in after.pools
    {
      if i >= |store.questions| {
        assert after.questions[i] == more[i - |store.questions|];
      }
    }
  }

  // ---- Exams from pools --------------------------------------------------------------

  datatype CreateExamRequest = CreateExamRequest(title: string, description: Option<string>)

  datatype Activity = Activity(
    id: int, title: string, description: Option<string>, activityType: string,
    teacherId: int, isPublished: bool)

  datatype ActivityQuestion = ActivityQuestion(
    activityId: int, questionText: string, questionTypeCode: string, points: real,
    options: Option<seq<PoolOption>>, correctAnswer: Option<seq<int>>)

  datatype Exam = Exam(activity: Activity, questions: seq<ActivityQuestion>)

  /** The question type code of a copied question. */
  function TypeCode(questionType: string): (code: string)
    ensures code == "MULTIPLE_CHOICE" <==> questionType == "multiple_choice"
    ensures code == "MULTIPLE_CHOICE" || code == "OPEN"
  {
    if questionType == "multiple_choice" then "MULTIPLE_CHOICE" else "OPEN"
  }

  /**
   * The exam copy of a pool question: it belongs to the activity, keeps the text, options,
   * correct answer and points, and is "MULTIPLE_CHOICE" for a multiple-choice question and
   * "OPEN" for any other type.
   */
  function CopyQuestion(activityId: int, q: PoolQuestion): (c: ActivityQuestion)
    ensures c.activityId == activityId && c.questionText == q.questionText && c.points == q.points
    ensures c.options == q.options && c.correctAnswer == q.correctAnswer
    ensures c.questionTypeCode == "MULTIPLE_CHOICE" <==> q.questionType == "multiple_choice"
    ensures c.questionTypeCode == "MULTIPLE_CHOICE" || c.questionTypeCode == "OPEN"
  {
    ActivityQuestion(activityId, q.questionText, TypeCode(q.questionType), q.points, q.options, q.correctAnswer)
  }

  /**
   * `CreateExamFromPool`: the pool must exist and have questions; the exam is an unpublished
   * "Examen" of the pool's teacher, described by the request or else by the pool, holding a
   * copy of each pool question in order. The activity id is the one the database assigns.
   */
  function CreateExamFromPool(store: PoolStore, poolId: int, request: CreateExamRequest, activityId: int)
    : (r: Result<Exam, PoolError>)
    ensures poolId !in store.pools ==> r == Failure(PoolNotFound)
    ensures poolId in store.pools && QuestionsOf(store.questions, poolId) == [] ==> r == Failure(PoolHasNoQuestions)
    ensures r.Success? <==> poolId in store.pools && QuestionsOf(store.questions, poolId) != []
    ensures r.Success? ==>
      var pool := store.pools[poolId];
      var source := QuestionsOf(store.questions, poolId);
      && r.value.activity.title == request.title
      && r.value.activity.description == (if request.description.Some? then request.description else pool.description)
      && r.value.activity.activityType == "Examen"
      && r.value.activity.teacherId == pool.teacherId
      && !r.value.activity.isPublished
      && |r.value.questions| == |source|
      && forall i | 0 <= i < |source| ::
           && r.value.questions[i].activityId == activityId
           && r.value.questions[i].questionText == source[i].questionText
           && r.value.questions[i].points == source[i].points
           && r.value.questions[i].options == source[i].options
           && r.value.questions[i].correctAnswer == source[i].correctAnswer
           && r.value.questions[i].questionTypeCode
                == (if source[i].questionType == "multiple_choice" then "MULTIPLE_CHOICE" else "OPEN")
  {
    if poolId !in store.pools then Failure(PoolNotFound)
    else
      var pool := store.pools[poolId];
      var source := QuestionsOf(store.questions, poolId);
      if source == [] then Failure(PoolHasNoQuestions)
      else
        var description := if request.description.Some? then request.description else pool.description;
        var activity := Activity(activityId, request.title, description, "Examen", pool.teacherId, false);
        Success(Exam(activity, seq(|source|, i requires 0 <= i < |source| => CopyQuestion(activityId, source[i]))))
  }

  /**
   * Questions generated into an empty pool come out of an exam as multiple-choice questions
   * worth one point each, with the generated options and correct id.
   */
  lemma GeneratedQuestionsCopyAsMultipleChoice(store: PoolStore, poolId: int, generated: seq<GeneratedQuestion>,
                                               request: CreateExamRequest, activityId: int)
    requires poolId in store.pools && QuestionsOf(store.questions, poolId) == [] && generated != []
    ensures var created := Created(poolId, generated);
      var r := CreateExamFromPool(store.(questions := store.questions + created), poolId, request, activityId);
      && r.Success?
      && |r.value.questions| == |generated|
      && forall i | 0 <= i < |generated| ::
           && r.value.questions[i].questionTypeCode == "MULTIPLE_CHOICE"
           && r.value.questions[i].points == 1.0
           && r.value.questions[i].questionText == generated[i].questionText
           && r.value.questions[i].options == Some(OptionsFor(generated[i].options, generated[i].correctAnswer))
  {
    var created := Created(poolId, generated);
    var after := store.(questions := store.questions + created);
    QuestionsOfAppend(store.questions, created, poolId);
    AllOfPool(created, poolId);
    assert QuestionsOf(after.questions, poolId) == created;
    var r := CreateExamFromPool(after, poolId, request, activityId);
    assert r.Success? && |r.value.questions| == |created|;
    forall i | 0 <= i < |generated|
      ensures && r.value.questions[i].questionTypeCode == "MULTIPLE_CHOICE"
              && r.value.questions[i].points == 1.0
              && r.value.questions[i].questionText == generated[i].questionText
              && r.value.questions[i].options == Some(OptionsFor(generated[i].options, generated[i].correctAnswer))
    {
      assert created[i] == FromGenerated(poolId, generated[i]);
    }
  }

  lemma {:induction false} AllOfPool(questions: seq<PoolQuestion>, poolId: int)
    requires forall i | 0 <= i < |questions| :: questions[i].poolId == poolId
    ensures QuestionsOf(questions, poolId) == questions
  {
    if questions != [] {
      var init := questions[..|questions| - 1];
      AllOfPool(init, poolId);
      assert questions == init + [questions[|questions| - 1]];
    }
  }
}
