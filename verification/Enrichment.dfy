/**
 * The questions that decorate a block, and the operator's answer to them: fail-closed, all-or-nothing parsers and
 * the validator that holds an answer against the decision outstanding.
 */
module Enrichment {
  import opened Wrappers
  import opened Json
  import opened Detail
  import opened Decimal
  import opened Seqs
  import SessionModel

  const MAX_QUESTIONS := 16
  const MAX_OPTIONS := 32

  datatype Choice = Choice(caption: string, description: Option<string>)

  datatype Question = Question(
    questionId: string, prompt: string, header: Option<string>, options: seq<Choice>, multiSelect: bool)

  datatype Decision = Decision(sequenceNum: nat, questions: seq<Question>)

  datatype Answer = Answer(questionId: string, labels: seq<string>)

  datatype Envelope = Envelope(answers: seq<Answer>)

  // ----- question ids -----

  function QuestionId(index: nat): string {
    "q" + Show(index)
  }

  /** `^q(?:0|[1-9][0-9]*)$`. */
  predicate IsQuestionId(s: string) {
    s != "" && s[0] == 'q' && Canonical(s[1..])
  }

  function IndexOfId(s: string): nat
    requires IsQuestionId(s)
  {
    Read(s[1..])
  }

  lemma IdsAreUnique(m: nat, n: nat)
    requires QuestionId(m) == QuestionId(n)
    ensures m == n
  {
    assert QuestionId(m)[1..] == Show(m) && QuestionId(n)[1..] == Show(n);
    ShowInjective(m, n);
  }

  /** The grammar accepts exactly what the minter prints, each id from one index. */
  lemma IdGrammarIsExact(s: string)
    ensures IsQuestionId(s) <==> exists n :: s == QuestionId(n)
    ensures IsQuestionId(s) ==> s == QuestionId(IndexOfId(s))
    ensures forall n :: s == QuestionId(n) ==> IsQuestionId(s) && IndexOfId(s) == n
  {
    if IsQuestionId(s) {
      ShowRead(s[1..]);
      assert s == "q" + s[1..];
      assert s == QuestionId(IndexOfId(s));
    }
    forall n | s == QuestionId(n)
      ensures IsQuestionId(s) && IndexOfId(s) == n
    {
      assert s[1..] == Show(n);
      ReadShow(n);
    }
  }

  // ----- what the parsers compute -----

  function TextFrom(v: Option<Json>): Option<string> {
    DisplayableDetail(SessionModel.TextOf(v))
  }

  predicate AllParsed<T>(parts: seq<Option<T>>) {
    forall i :: 0 <= i < |parts| ==> parts[i].Some?
  }

  /** All or nothing: the values in order, or nothing as soon as one is missing. */
  function AllOf<T>(parts: seq<Option<T>>): Option<seq<T>> {
    if AllParsed(parts)
    then Some(seq(|parts|, i requires 0 <= i < |parts| && parts[i].Some? => parts[i].value))
    else None
  }

  predicate Distinct<T(==)>(s: seq<T>) {
    forall i, j :: 0 <= i < j < |s| ==> s[i] != s[j]
  }

  function Labels(options: seq<Choice>): seq<string> {
    seq(|options|, i requires 0 <= i < |options| => options[i].caption)
  }

  function OptionOf(v: Json): Option<Choice> {
    match TextFrom(Get(v, "label"))
    case None => None
    case Some(caption) => Some(Choice(caption, TextFrom(Get(v, "description"))))
  }

  function OptionParts(items: seq<Json>): seq<Option<Choice>> {
    seq(|items|, i requires 0 <= i < |items| => OptionOf(items[i]))
  }

  function OptionsOf(items: seq<Json>): Option<seq<Choice>> {
    match AllOf(OptionParts(items))
    case None => None
    case Some(options) => if Distinct(Labels(options)) then Some(options) else None
  }

  /** The declared default when absent; a present value must be a boolean. */
  function SelectMode(v: Option<Json>): Option<bool> {
    match v
    case None => Some(false)
    case Some(Bool(b)) => Some(b)
    case _ => None
  }

  predicate ListWithin(v: Option<Json>, max: nat) {
    v.Some? && v.value.Arr? && 0 < |v.value.items| <= max
  }

  function QuestionOf(v: Json, index: nat): Option<Question> {
    QuestionFrom(index, TextFrom(Get(v, "question")), TextFrom(Get(v, "header")), Get(v, "options"),
                 SelectMode(Get(v, "multiSelect")))
  }

  /** The question its four fields make, when each of them will do. */
  function QuestionFrom(
    index: nat, prompt: Option<string>, header: Option<string>, options: Option<Json>, multiSelect: Option<bool>)
    : Option<Question>
  {
    if prompt.None? || multiSelect.None? || !ListWithin(options, MAX_OPTIONS) then None
    else
      match OptionsOf(options.value.items)
      case None => None
      case Some(parsed) =>
        Some(Question(QuestionId(index), prompt.value, header, parsed, multiSelect.value))
  }

  function QuestionParts(items: seq<Json>): seq<Option<Question>> {
    seq(|items|, i requires 0 <= i < |items| => QuestionOf(items[i], i))
  }

  function DecisionOf(v: Json): Option<Decision> {
    var questions := Get(v, "questions");
    match SessionModel.AsSequence(Get(v, "sequence_num"))
    case None => None
    case Some(stamp) =>
      if !ListWithin(questions, MAX_QUESTIONS) then None
      else
        match AllOf(QuestionParts(questions.value.items))
        case None => None
        case Some(parsed) => Some(Decision(stamp, parsed))
  }

  function LabelParts(items: seq<Json>): seq<Option<string>> {
    seq(|items|, i requires 0 <= i < |items| => TextFrom(Some(items[i])))
  }

  function AnswerOf(m: Member): Option<Answer> {
    if !IsQuestionId(m.key) || !ListWithin(Some(m.value), MAX_OPTIONS) then None
    else
      match AllOf(LabelParts(m.value.items))
      case None => None
      case Some(labels) => Some(Answer(m.key, labels))
  }

  function AnswerParts(ms: seq<Member>): seq<Option<Answer>> {
    seq(|ms|, i requires 0 <= i < |ms| => AnswerOf(ms[i]))
  }

  function EnvelopeOf(v: Json): Option<Envelope> {
    match Get(v, "answers")
    case Some(Obj(entries)) =>
      if entries == [] || |entries| > MAX_QUESTIONS then None
      else
        (match AllOf(AnswerParts(entries))
         case None => None
         case Some(answers) => Some(Envelope(answers)))
    case _ => None
  }

  // ----- the parsers -----

  lemma OneMissing<T>(parts: seq<Option<T>>, i: nat)
    requires i < |parts| && parts[i].None?
    ensures AllOf(parts) == None
  {
  }

  ghost predicate Collected<T>(parts: seq<Option<T>>, k: nat, parsed: seq<T>) {
    k <= |parts| && |parsed| == k && forall i :: 0 <= i < k ==> parts[i] == Some(parsed[i])
  }

  lemma AllCollected<T>(parts: seq<Option<T>>, parsed: seq<T>)
    requires Collected(parts, |parts|, parsed)
    ensures AllOf(parts) == Some(parsed)
  {
    assert AllParsed(parts);
    assert AllOf(parts).value == parsed;
  }

  lemma CollectedNext<T>(parts: seq<Option<T>>, k: nat, parsed: seq<T>, v: T)
    requires Collected(parts, k, parsed) && k < |parts| && parts[k] == Some(v)
    ensures Collected(parts, k + 1, parsed + [v])
  {
  }

  lemma LabelsNext(parsed: seq<Choice>, next: Choice)
    requires Distinct(Labels(parsed)) && next.caption !in Labels(parsed)
    ensures Labels(parsed + [next]) == Labels(parsed) + [next.caption]
    ensures Distinct(Labels(parsed + [next]))
    ensures (set l | l in Labels(parsed + [next])) == (set l | l in Labels(parsed)) + {next.caption}
  {
    assert Labels(parsed + [next]) == Labels(parsed) + [next.caption];
  }

  method ParseOption(v: Json) returns (r: Option<Choice>)
    ensures r == OptionOf(v)
  {
    if !v.Obj? {
      NotAnObject(v, 0);
      return None;
    }
    var displayLabel := TextFrom(Get(v, "label"));
    if displayLabel.None? {
      return None;
    }
    return Some(Choice(displayLabel.value, TextFrom(Get(v, "description"))));
  }

  /** The option loop: stops at the first malformed option or colliding label. */
  method ParseOptions(items: seq<Json>) returns (r: Option<seq<Choice>>)
    ensures r == OptionsOf(items)
  {
    var parsed: seq<Choice> := [];
    var seenLabels: set<string> := {};
    ghost var parts := OptionParts(items);
    for i := 0 to |items|
      invariant Collected(parts, i, parsed)
      invariant Distinct(Labels(parsed))
      invariant seenLabels == set l | l in Labels(parsed)
    {
      var next := ParseOption(items[i]);
      assert parts[i] == next;
      if next.None? {
        OneMissing(parts, i);
        return None;
      }
      if next.value.caption in seenLabels {
        Collision(parts, parsed, i);
        return None;
      }
      CollectedNext(parts, i, parsed, next.value);
      LabelsNext(parsed, next.value);
      seenLabels := seenLabels + {next.value.caption};
      parsed := parsed + [next.value];
    }
    AllCollected(parts, parsed);
    return Some(parsed);
  }

  lemma Collision(parts: seq<Option<Choice>>, parsed: seq<Choice>, k: nat)
    requires Collected(parts, k, parsed) && k < |parts| && parts[k].Some?
    requires parts[k].value.caption in Labels(parsed)
    ensures match AllOf(parts) case None => true case Some(options) => !Distinct(Labels(options))
  {
    var i :| 0 <= i < k && Labels(parsed)[i] == parts[k].value.caption;
    if AllOf(parts).Some? {
      var labels := Labels(AllOf(parts).value);
      assert labels[i] == labels[k];
    }
  }

  lemma NotAnObject(v: Json, index: nat)
    requires !v.Obj?
    ensures QuestionOf(v, index) == None && OptionOf(v) == None && DecisionOf(v) == None && EnvelopeOf(v) == None
  {
    assert TextFrom(None) == None;
  }

  lemma ModeOf(v: Option<Json>)
    ensures var mode := v.GetOr(Bool(false)); SelectMode(v) == if mode.Bool? then Some(mode.b) else None
  {
  }

  method ParseQuestion(v: Json, index: nat) returns (r: Option<Question>)
    ensures r == QuestionOf(v, index)
  {
    if !v.Obj? {
      NotAnObject(v, index);
      return None;
    }
    var prompt := TextFrom(Get(v, "question"));
    ModeOf(Get(v, "multiSelect"));
    var selectMode := Get(v, "multiSelect").GetOr(Bool(false));
    var options := Get(v, "options");
    if prompt.None? || !selectMode.Bool? || !ListWithin(options, MAX_OPTIONS) {
      return None;
    }
    var parsed := ParseOptions(options.value.items);
    if parsed.None? {
      return None;
    }
    return Some(Question(QuestionId(index), prompt.value, TextFrom(Get(v, "header")), parsed.value, selectMode.b));
  }

  method ParseDecision(v: Json) returns (r: Option<Decision>)
    ensures r == DecisionOf(v)
  {
    var stamp := SessionModel.AsSequence(Get(v, "sequence_num"));
    var questions := Get(v, "questions");
    if stamp.None? || !ListWithin(questions, MAX_QUESTIONS) {
      return None;
    }
    var items := questions.value.items;
    var parsed: seq<Question> := [];
    ghost var parts := QuestionParts(items);
    for i := 0 to |items|
      invariant Collected(parts, i, parsed)
    {
      var next := ParseQuestion(items[i], i);
      assert parts[i] == next;
      if next.None? {
        OneMissing(parts, i);
        return None;
      }
      CollectedNext(parts, i, parsed, next.value);
      parsed := parsed + [next.value];
    }
    AllCollected(parts, parsed);
    return Some(Decision(stamp.value, parsed));
  }

  /** The label loop of one selection. */
  method ParseLabels(items: seq<Json>) returns (r: Option<seq<string>>)
    ensures r == AllOf(LabelParts(items))
  {
    var labels: seq<string> := [];
    ghost var parts := LabelParts(items);
    for i := 0 to |items|
      invariant Collected(parts, i, labels)
    {
      var displayLabel := TextFrom(Some(items[i]));
      assert parts[i] == displayLabel;
      if displayLabel.None? {
        OneMissing(parts, i);
        return None;
      }
      CollectedNext(parts, i, labels, displayLabel.value);
      labels := labels + [displayLabel.value];
    }
    AllCollected(parts, labels);
    return Some(labels);
  }

  method ParseEnvelope(v: Json) returns (r: Option<Envelope>)
    ensures r == EnvelopeOf(v)
  {
    var answers := Get(v, "answers");
    if answers.None? || !answers.value.Obj? {
      return None;
    }
    var entries := answers.value.members;
    if entries == [] || |entries| > MAX_QUESTIONS {
      return None;
    }
    var parsed: seq<Answer> := [];
    ghost var parts := AnswerParts(entries);
    for i := 0 to |entries|
      invariant Collected(parts, i, parsed)
    {
      var entry := entries[i];
      assert parts[i] == AnswerOf(entry);
      if !IsQuestionId(entry.key) || !ListWithin(Some(entry.value), MAX_OPTIONS) {
        OneMissing(parts, i);
        return None;
      }
      var labels := ParseLabels(entry.value.items);
      if labels.None? {
        OneMissing(parts, i);
        return None;
      }
      CollectedNext(parts, i, parsed, Answer(entry.key, labels.value));
      parsed := parsed + [Answer(entry.key, labels.value)];
    }
    AllCollected(parts, parsed);
    return Some(Envelope(parsed));
  }

  // ----- the validator -----

  datatype Rejection = StaleDecision | UnknownQuestion | UnofferedLabel | Cardinality

  datatype Verdict = Accepted | Refused(reason: Rejection)

  /** The question an id names; a map built from a list keeps the last entry of a repeated key. */
  function QuestionNamed(questions: seq<Question>, id: string): Option<Question> {
    if questions == [] then None
    else
      var last := questions[|questions| - 1];
      if last.questionId == id then Some(last) else QuestionNamed(questions[..|questions| - 1], id)
  }

  /** The first label from `k` on that was never offered or repeats an earlier one. */
  function LabelProblem(q: Question, labels: seq<string>, k: nat): Option<Rejection>
    requires k <= |labels|
    decreases |labels| - k
  {
    if k == |labels| then None
    else if labels[k] !in Labels(q.options) then Some(UnofferedLabel)
    else if labels[k] in labels[..k] then Some(Cardinality)
    else LabelProblem(q, labels, k + 1)
  }

  function AnswerProblem(questions: seq<Question>, a: Answer): Option<Rejection> {
    match QuestionNamed(questions, a.questionId)
    case None => Some(UnknownQuestion)
    case Some(q) => if !q.multiSelect && |a.labels| != 1 then Some(Cardinality) else LabelProblem(q, a.labels, 0)
  }

  /** The problem of the first answer that has one. */
  function FirstProblem(questions: seq<Question>, answers: seq<Answer>): Option<Rejection> {
    if answers == [] then None
    else
      var problem := AnswerProblem(questions, answers[0]);
      if problem.Some? then problem else FirstProblem(questions, answers[1..])
  }

  /** Freshness first: an answer stamped for another decision is stale whatever it selects. */
  function VerdictOn(d: Decision, e: Envelope, submitted: Option<nat>): Verdict {
    if submitted != Some(d.sequenceNum) then Refused(StaleDecision)
    else
      match FirstProblem(d.questions, e.answers)
      case None => Accepted
      case Some(reason) => Refused(reason)
  }

  method ValidateAnswer(d: Decision, e: Envelope, submitted: Option<nat>) returns (v: Verdict)
    ensures v == VerdictOn(d, e, submitted)
  {
    if submitted.None? || submitted.value != d.sequenceNum {
      return Refused(StaleDecision);
    }
    assert e.answers[0..] == e.answers;
    for i := 0 to |e.answers|
      invariant FirstProblem(d.questions, e.answers) == FirstProblem(d.questions, e.answers[i..])
    {
      assert e.answers[i..][1..] == e.answers[i + 1..];
      var problem := CheckAnswer(d.questions, e.answers[i]);
      if problem.Some? {
        return Refused(problem.value);
      }
    }
    return Accepted;
  }

  /** The body of the validator's loop over the answers. */
  method CheckAnswer(questions: seq<Question>, a: Answer) returns (problem: Option<Rejection>)
    ensures problem == AnswerProblem(questions, a)
  {
    var question := QuestionNamed(questions, a.questionId);
    if question.None? {
      return Some(UnknownQuestion);
    }
    var q := question.value;
    if !q.multiSelect && |a.labels| != 1 {
      return Some(Cardinality);
    }
    var offered := set l | l in Labels(q.options);
    var chosen: set<string> := {};
    for k := 0 to |a.labels|
      invariant chosen == set l | l in a.labels[..k]
      invariant LabelProblem(q, a.labels, 0) == LabelProblem(q, a.labels, k)
    {
      var caption := a.labels[k];
      if caption !in offered {
        return Some(UnofferedLabel);
      }
      if caption in chosen {
        return Some(Cardinality);
      }
      PrefixNext(a.labels, k);
      chosen := chosen + {caption};
    }
    return None;
  }

  // ----- what a verdict means -----

  predicate Offered(q: Question, labels: seq<string>) {
    forall k :: 0 <= k < |labels| ==> labels[k] in Labels(q.options)
  }

  /** A legitimate selection: of a question that was asked, of labels it offered, a set, of one when single-select. */
  predicate Legitimate(questions: seq<Question>, a: Answer) {
    match QuestionNamed(questions, a.questionId)
    case None => false
    case Some(q) => (!q.multiSelect ==> |a.labels| == 1) && Offered(q, a.labels) && Distinct(a.labels)
  }

  /** The labels are fine up to the first problem, and the problem is there. */
  lemma {:induction false} LabelProblemIsFirst(q: Question, labels: seq<string>, k: nat) returns (i: nat)
    requires k <= |labels| && Offered(q, labels[..k]) && Distinct(labels[..k])
    ensures k <= i <= |labels| && Offered(q, labels[..i]) && Distinct(labels[..i])
    ensures match LabelProblem(q, labels, k)
            case None => i == |labels|
            case Some(UnofferedLabel) => i < |labels| && labels[i] !in Labels(q.options)
            case Some(Cardinality) => i < |labels| && labels[i] in Labels(q.options) && labels[i] in labels[..i]
            case _ => false
    decreases |labels| - k
  {
    if k == |labels| || labels[k] !in Labels(q.options) || labels[k] in labels[..k] {
      i := k;
    } else {
      PrefixNext(labels, k);
      i := LabelProblemIsFirst(q, labels, k + 1);
    }
  }

  lemma LabelsFineExactly(q: Question, labels: seq<string>)
    ensures LabelProblem(q, labels, 0) == None <==> Offered(q, labels) && Distinct(labels)
  {
    var i := LabelProblemIsFirst(q, labels, 0);
    WholePrefix(labels);
    if LabelProblem(q, labels, 0) == Some(Cardinality) {
      var j :| 0 <= j < i && labels[..i][j] == labels[i];
      assert labels[j] == labels[i];
    }
  }

  lemma {:induction false} NoProblemExactly(questions: seq<Question>, answers: seq<Answer>)
    ensures FirstProblem(questions, answers) == None
       <==> forall i :: 0 <= i < |answers| ==> Legitimate(questions, answers[i])
  {
    if answers != [] {
      var a := answers[0];
      NoProblemExactly(questions, answers[1..]);
      match QuestionNamed(questions, a.questionId) {
        case None =>
        case Some(q) => LabelsFineExactly(q, a.labels);
      }
      assert Legitimate(questions, a) <==> AnswerProblem(questions, a) == None;
      assert forall i :: 1 <= i < |answers| ==> answers[i] == answers[1..][i - 1];
    }
  }

  /** An answer is accepted exactly when it carries the outstanding stamp and every selection is legitimate. */
  lemma AcceptedExactly(d: Decision, e: Envelope, submitted: Option<nat>)
    ensures VerdictOn(d, e, submitted) == Accepted
       <==> && submitted == Some(d.sequenceNum)
            && forall i :: 0 <= i < |e.answers| ==> Legitimate(d.questions, e.answers[i])
    ensures VerdictOn(d, e, submitted) == Refused(StaleDecision) <==> submitted != Some(d.sequenceNum)
  {
    NoProblemExactly(d.questions, e.answers);
    NeverStaleInside(d.questions, e.answers);
  }

  lemma {:induction false} NeverStaleInside(questions: seq<Question>, answers: seq<Answer>)
    ensures FirstProblem(questions, answers) != Some(StaleDecision)
  {
    if answers != [] {
      NeverStaleInside(questions, answers[1..]);
      match QuestionNamed(questions, answers[0].questionId) {
        case None =>
        case Some(q) => var i := LabelProblemIsFirst(q, answers[0].labels, 0);
      }
    }
  }
}
