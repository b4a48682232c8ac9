/**
 * What the fail-closed parsers accept, exactly, and what each refusal means: told on the JSON value and the
 * envelope, without the parsers.
 */
module Shapes {
  import opened Wrappers
  import opened Json
  import opened Decimal
  import opened Detail
  import opened Enrichment
  import SessionModel

  /** The words of a string, and nothing for any other value. */
  lemma TextIsItsWords(v: Option<Json>)
    ensures TextFrom(v)
         == match v
            case Some(Str(s)) => Abridged(JoinWords(Words(RemoveFormat(s))), 200)
            case _ => None
  {
    match v
    case Some(Str(s)) => DetailIsItsWords(s, MAX_DETAIL_LENGTH);
    case _ =>
  }

  lemma AllOfExactly<T>(parts: seq<Option<T>>, values: seq<T>)
    ensures AllOf(parts) == Some(values)
       <==> |values| == |parts| && forall i :: 0 <= i < |parts| ==> parts[i] == Some(values[i])
  {
    if |values| == |parts| && forall i :: 0 <= i < |parts| ==> parts[i] == Some(values[i]) {
      AllCollected(parts, values);
    }
  }

  lemma ModeExactly(v: Option<Json>, multiSelect: bool)
    ensures SelectMode(v) == Some(multiSelect) <==> v == Some(Bool(multiSelect)) || (v == None && !multiSelect)
  {
  }

  lemma OptionExactly(v: Json, c: Choice)
    ensures OptionOf(v) == Some(c)
       <==> TextFrom(Get(v, "label")) == Some(c.caption) && TextFrom(Get(v, "description")) == c.description
  {
  }

  /** Every option, in order, and no label twice once they are normalised. */
  lemma OptionsExactly(items: seq<Json>, options: seq<Choice>)
    ensures OptionsOf(items) == Some(options)
       <==> && |options| == |items|
            && (forall i :: 0 <= i < |items| ==> OptionOf(items[i]) == Some(options[i]))
            && (forall i, j :: 0 <= i < j < |options| ==> options[i].caption != options[j].caption)
  {
    AllOfExactly(OptionParts(items), options);
    assert forall i :: 0 <= i < |items| ==> OptionParts(items)[i] == OptionOf(items[i]);
    assert forall i :: 0 <= i < |options| ==> Labels(options)[i] == options[i].caption;
  }

  predicate QuestionShape(
    index: nat, prompt: Option<string>, header: Option<string>, options: Option<Json>, mode: Option<Json>, q: Question)
  {
    && q.questionId == "q" + Show(index) && prompt == Some(q.prompt) && header == q.header
    && (mode == Some(Bool(q.multiSelect)) || (mode == None && !q.multiSelect))
    && options.Some? && options.value.Arr? && 1 <= |options.value.items| <= 32
    && OptionsOf(options.value.items) == Some(q.options)
  }

  lemma FieldsMakeQuestion(
    index: nat, prompt: Option<string>, header: Option<string>, options: Option<Json>, mode: Option<Json>, q: Question)
    ensures QuestionFrom(index, prompt, header, options, SelectMode(mode)) == Some(q)
       <==> QuestionShape(index, prompt, header, options, mode, q)
  {
    ModeExactly(mode, q.multiSelect);
  }

  /** A question: its id by index, its text, its options within the limit, one of the two modes or the default. */
  lemma QuestionExactly(v: Json, index: nat, q: Question)
    ensures QuestionOf(v, index) == Some(q)
       <==> QuestionShape(index, TextFrom(Get(v, "question")), TextFrom(Get(v, "header")), Get(v, "options"),
                          Get(v, "multiSelect"), q)
  {
    FieldsMakeQuestion(index, TextFrom(Get(v, "question")), TextFrom(Get(v, "header")), Get(v, "options"),
                       Get(v, "multiSelect"), q);
  }

  lemma QuestionsExactly(items: seq<Json>, questions: seq<Question>)
    ensures AllOf(QuestionParts(items)) == Some(questions)
       <==> && |items| == |questions|
            && forall i :: 0 <= i < |questions| ==> QuestionOf(items[i], i) == Some(questions[i])
  {
    AllOfExactly(QuestionParts(items), questions);
    assert forall i :: 0 <= i < |items| ==> QuestionParts(items)[i] == QuestionOf(items[i], i);
  }

  /** A decision: a usable stamp and every question of the list, each in its place. */
  lemma DecisionExactly(v: Json, d: Decision)
    ensures DecisionOf(v) == Some(d)
       <==> && Get(v, "sequence_num") == Some(Int(d.sequenceNum)) && d.sequenceNum <= 0x1F_FFFF_FFFF_FFFF
            && var questions := Get(v, "questions");
               && questions.Some? && questions.value.Arr?
               && 1 <= |questions.value.items| == |d.questions| <= 16
               && forall i :: 0 <= i < |d.questions| ==> QuestionOf(questions.value.items[i], i) == Some(d.questions[i])
  {
    SessionModel.FieldsExactly(Get(v, "sequence_num"), d.sequenceNum, "");
    var questions := Get(v, "questions");
    if ListWithin(questions, MAX_QUESTIONS) {
      QuestionsExactly(questions.value.items, d.questions);
    }
  }

  lemma LabelsExactly(items: seq<Json>, labels: seq<string>)
    ensures AllOf(LabelParts(items)) == Some(labels)
       <==> && |items| == |labels|
            && forall i :: 0 <= i < |labels| ==> TextFrom(Some(items[i])) == Some(labels[i])
  {
    AllOfExactly(LabelParts(items), labels);
    assert forall i :: 0 <= i < |items| ==> LabelParts(items)[i] == TextFrom(Some(items[i]));
  }

  lemma AnswerExactly(m: Member, a: Answer)
    ensures AnswerOf(m) == Some(a)
       <==> && a.questionId == m.key && (exists n :: m.key == QuestionId(n))
            && m.value.Arr? && 1 <= |m.value.items| == |a.labels| <= 32
            && forall i :: 0 <= i < |a.labels| ==> TextFrom(Some(m.value.items[i])) == Some(a.labels[i])
  {
    IdGrammarIsExact(m.key);
    if m.value.Arr? {
      LabelsExactly(m.value.items, a.labels);
    }
  }

  /** An envelope: every entry of the object, each under an id and with labels that have words. */
  lemma EnvelopeExactly(v: Json, e: Envelope)
    ensures EnvelopeOf(v) == Some(e)
       <==> var answers := Get(v, "answers");
            && answers.Some? && answers.value.Obj?
            && 1 <= |answers.value.members| == |e.answers| <= 16
            && forall i :: 0 <= i < |e.answers| ==> AnswerOf(answers.value.members[i]) == Some(e.answers[i])
  {
    var answers := Get(v, "answers");
    if answers.Some? && answers.value.Obj? {
      var ms := answers.value.members;
      AllOfExactly(AnswerParts(ms), e.answers);
      assert forall i :: 0 <= i < |ms| ==> AnswerParts(ms)[i] == AnswerOf(ms[i]);
    }
  }

  // ----- what a refusal means -----

  /** The labels up to `k` are fine, and label `k` was never offered. */
  predicate UnofferedAt(q: Question, labels: seq<string>, k: nat) {
    k < |labels| && Offered(q, labels[..k]) && Distinct(labels[..k]) && labels[k] !in Labels(q.options)
  }

  /** The labels up to `k` are fine, and label `k` repeats one of them. */
  predicate RepeatedAt(q: Question, labels: seq<string>, k: nat) {
    && k < |labels| && Offered(q, labels[..k]) && Distinct(labels[..k])
    && labels[k] in Labels(q.options) && labels[k] in labels[..k]
  }

  /** Why one answer is refused. */
  ghost predicate RefusedFor(questions: seq<Question>, a: Answer, reason: Rejection) {
    match QuestionNamed(questions, a.questionId)
    case None => reason == UnknownQuestion
    case Some(q) =>
      if !q.multiSelect && |a.labels| != 1 then reason == Cardinality
      else
        || (reason == UnofferedLabel && exists k :: UnofferedAt(q, a.labels, k))
        || (reason == Cardinality && exists k :: RepeatedAt(q, a.labels, k))
  }

  lemma FineBefore(q: Question, labels: seq<string>, i: nat, k: nat)
    requires i < k <= |labels| && Offered(q, labels[..k]) && Distinct(labels[..k])
    ensures labels[i] in Labels(q.options) && labels[i] !in labels[..i]
  {
    assert labels[..k][i] == labels[i];
    forall m | 0 <= m < i
      ensures labels[m] != labels[i]
    {
      assert labels[..k][m] != labels[..k][i];
    }
  }

  ghost predicate FaultAt(q: Question, labels: seq<string>, k: nat) {
    UnofferedAt(q, labels, k) || RepeatedAt(q, labels, k)
  }

  lemma OneFault(q: Question, labels: seq<string>, i: nat, k: nat)
    requires FaultAt(q, labels, i) && (FaultAt(q, labels, k) || k == |labels|)
    requires Offered(q, labels[..k]) && Distinct(labels[..k])
    ensures i == k
  {
    if i < k {
      FineBefore(q, labels, i, k);
    } else if k < i {
      FineBefore(q, labels, k, i);
    }
  }

  lemma LabelFault(q: Question, labels: seq<string>, reason: Rejection)
    ensures LabelProblem(q, labels, 0) == Some(reason)
       <==> || (reason == UnofferedLabel && exists k :: UnofferedAt(q, labels, k))
            || (reason == Cardinality && exists k :: RepeatedAt(q, labels, k))
  {
    var i := LabelProblemIsFirst(q, labels, 0);
    forall k: nat | FaultAt(q, labels, k)
      ensures k == i
    {
      OneFault(q, labels, k, i);
    }
    assert forall k: nat :: UnofferedAt(q, labels, k) ==> FaultAt(q, labels, k);
    assert forall k: nat :: RepeatedAt(q, labels, k) ==> FaultAt(q, labels, k);
    match LabelProblem(q, labels, 0)
    case Some(UnofferedLabel) => assert UnofferedAt(q, labels, i);
    case Some(Cardinality) => assert RepeatedAt(q, labels, i);
    case _ =>
  }

  lemma AnswerFault(questions: seq<Question>, a: Answer, reason: Rejection)
    ensures AnswerProblem(questions, a) == Some(reason) <==> RefusedFor(questions, a, reason)
  {
    match QuestionNamed(questions, a.questionId)
    case None =>
    case Some(q) => LabelFault(q, a.labels, reason);
  }

  /** The first answer that is not a legitimate selection, and why it is not. */
  ghost predicate FirstRefused(questions: seq<Question>, answers: seq<Answer>, i: nat, reason: Rejection) {
    && i < |answers| && RefusedFor(questions, answers[i], reason)
    && forall j :: 0 <= j < i ==> Legitimate(questions, answers[j])
  }

  lemma {:induction false} FirstFault(questions: seq<Question>, answers: seq<Answer>) returns (i: nat)
    ensures match FirstProblem(questions, answers)
            case None => i == |answers|
            case Some(reason) => FirstRefused(questions, answers, i, reason)
  {
    if answers == [] {
      i := 0;
    } else {
      var problem := AnswerProblem(questions, answers[0]);
      if problem.Some? {
        AnswerFault(questions, answers[0], problem.value);
        i := 0;
      } else {
        i := FirstFault(questions, answers[1..]);
        NoProblemExactly(questions, answers[..1]);
        assert FirstProblem(questions, answers[..1][1..]) == None;
        assert answers[..1][0] == answers[0];
        assert forall j :: 1 <= j < |answers| ==> answers[j] == answers[1..][j - 1];
        i := i + 1;
      }
    }
  }

  lemma LegitimateIsNotRefused(questions: seq<Question>, a: Answer, reason: Rejection)
    requires Legitimate(questions, a)
    ensures !RefusedFor(questions, a, reason)
  {
    AnswerFault(questions, a, reason);
    match QuestionNamed(questions, a.questionId)
    case None =>
    case Some(q) => LabelsFineExactly(q, a.labels);
  }

  lemma OneReason(questions: seq<Question>, answers: seq<Answer>, i: nat, r: Rejection, k: nat, s: Rejection)
    requires FirstRefused(questions, answers, i, r) && FirstRefused(questions, answers, k, s)
    ensures i == k && r == s
  {
    if i < k {
      LegitimateIsNotRefused(questions, answers[i], r);
    } else if k < i {
      LegitimateIsNotRefused(questions, answers[k], s);
    }
    AnswerFault(questions, answers[i], r);
    AnswerFault(questions, answers[k], s);
  }

  /** A fresh answer is refused for a reason exactly when that is why its first illegitimate selection is. */
  lemma RefusedExactly(d: Decision, e: Envelope, submitted: Option<nat>, reason: Rejection)
    requires reason != StaleDecision
    ensures VerdictOn(d, e, submitted) == Refused(reason)
       <==> submitted == Some(d.sequenceNum) && exists i :: FirstRefused(d.questions, e.answers, i, reason)
  {
    var first := FirstFault(d.questions, e.answers);
    NoProblemExactly(d.questions, e.answers);
    forall i: nat | FirstRefused(d.questions, e.answers, i, reason)
      ensures FirstProblem(d.questions, e.answers) == Some(reason)
    {
      if FirstProblem(d.questions, e.answers) == None {
        LegitimateIsNotRefused(d.questions, e.answers[i], reason);
      } else {
        OneReason(d.questions, e.answers, i, reason, first, FirstProblem(d.questions, e.answers).value);
      }
    }
  }
}
