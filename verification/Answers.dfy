/** The answer round trip, end to end through JSON text: what can be asked, what can be picked, what is accepted. */
module Answers {
  import opened Wrappers
  import opened Json
  import opened Detail
  import opened Enrichment
  import SessionModel

  // ----- what a parsed decision looks like -----

  predicate CleanLabels(labels: seq<string>) {
    Distinct(labels) && forall k :: 0 <= k < |labels| ==> Displayable(labels[k], MAX_DETAIL_LENGTH)
  }

  predicate CleanDescriptions(options: seq<Choice>) {
    forall k :: 0 <= k < |options| && options[k].description.Some? ==>
      Displayable(options[k].description.value, MAX_DETAIL_LENGTH)
  }

  predicate WellFormedQuestion(q: Question, index: nat) {
    && q.questionId == QuestionId(index) && Displayable(q.prompt, MAX_DETAIL_LENGTH)
    && (q.header.Some? ==> Displayable(q.header.value, MAX_DETAIL_LENGTH))
    && 0 < |q.options| <= MAX_OPTIONS && CleanLabels(Labels(q.options)) && CleanDescriptions(q.options)
  }

  predicate WellFormedDecision(d: Decision) {
    && 0 < |d.questions| <= MAX_QUESTIONS
    && d.sequenceNum <= SessionModel.MAX_SAFE_INTEGER
    && forall i :: 0 <= i < |d.questions| ==> WellFormedQuestion(d.questions[i], i)
  }

  lemma TextIsDisplayable(v: Option<Json>)
    ensures TextFrom(v).Some? ==> Displayable(TextFrom(v).value, MAX_DETAIL_LENGTH)
  {
    ResultIsDisplayable(SessionModel.TextOf(v), MAX_DETAIL_LENGTH);
  }

  lemma OptionIsText(v: Json)
    requires OptionOf(v).Some?
    ensures Displayable(OptionOf(v).value.caption, MAX_DETAIL_LENGTH)
    ensures var description := OptionOf(v).value.description;
            description.Some? ==> Displayable(description.value, MAX_DETAIL_LENGTH)
  {
    TextIsDisplayable(Get(v, "label"));
    TextIsDisplayable(Get(v, "description"));
  }

  lemma OptionsAreClean(items: seq<Json>)
    requires OptionsOf(items).Some?
    ensures |OptionsOf(items).value| == |items|
    ensures CleanLabels(Labels(OptionsOf(items).value)) && CleanDescriptions(OptionsOf(items).value)
  {
    var options := OptionsOf(items).value;
    forall k | 0 <= k < |items|
      ensures Displayable(Labels(options)[k], MAX_DETAIL_LENGTH)
      ensures options[k].description.Some? ==> Displayable(options[k].description.value, MAX_DETAIL_LENGTH)
    {
      assert OptionParts(items)[k] == OptionOf(items[k]);
      OptionIsText(items[k]);
    }
  }

  /**
   * All or nothing, in place: a parsed decision has every question of the input, at its own index under that
   * index's id, each with labels that are distinct and normal.
   */
  lemma ParsedDecision(v: Json)
    requires DecisionOf(v).Some?
    ensures var (d, items) := (DecisionOf(v).value, Get(v, "questions").value.items);
            && WellFormedDecision(d)
            && |d.questions| == |items|
            && forall i :: 0 <= i < |items| ==> QuestionOf(items[i], i) == Some(d.questions[i])
  {
    var (d, items) := (DecisionOf(v).value, Get(v, "questions").value.items);
    forall i | 0 <= i < |items|
      ensures QuestionOf(items[i], i) == Some(d.questions[i]) && WellFormedQuestion(d.questions[i], i)
    {
      assert QuestionParts(items)[i] == QuestionOf(items[i], i);
      OptionsAreClean(Get(items[i], "options").value.items);
      TextIsDisplayable(Get(items[i], "question"));
      TextIsDisplayable(Get(items[i], "header"));
    }
  }

  lemma OptionLabels(items: seq<Json>)
    requires OptionsOf(items).Some?
    ensures var options := OptionsOf(items).value;
            && |options| == |items|
            && forall k :: 0 <= k < |items| ==> TextFrom(Get(items[k], "label")) == Some(options[k].caption)
  {
    forall k | 0 <= k < |items|
      ensures TextFrom(Get(items[k], "label")) == Some(OptionsOf(items).value[k].caption)
    {
      assert OptionParts(items)[k] == OptionOf(items[k]);
    }
  }

  /** A parsed question offers every option of the input, in order, under its normalised label. */
  lemma ParsedOptions(v: Json, index: nat)
    requires QuestionOf(v, index).Some?
    ensures var (q, items) := (QuestionOf(v, index).value, Get(v, "options").value.items);
            && |q.options| == |items|
            && forall k :: 0 <= k < |items| ==> TextFrom(Get(items[k], "label")) == Some(q.options[k].caption)
  {
    OptionLabels(Get(v, "options").value.items);
  }

  /** And nothing exactly when the stamp, the list or some question fails. */
  lemma RejectedExactly(v: Json)
    ensures DecisionOf(v) == None
       <==> || SessionModel.AsSequence(Get(v, "sequence_num")) == None
            || !ListWithin(Get(v, "questions"), MAX_QUESTIONS)
            || exists i :: 0 <= i < |Get(v, "questions").value.items|
                           && QuestionOf(Get(v, "questions").value.items[i], i) == None
  {
    if ListWithin(Get(v, "questions"), MAX_QUESTIONS) {
      SomeQuestionFails(Get(v, "questions").value.items);
    }
  }

  lemma SomePartMissing<T>(parts: seq<Option<T>>)
    ensures AllOf(parts) == None <==> exists i :: 0 <= i < |parts| && parts[i] == None
  {
  }

  lemma SomeQuestionFails(items: seq<Json>)
    ensures AllOf(QuestionParts(items)) == None <==> exists i :: 0 <= i < |items| && QuestionOf(items[i], i) == None
  {
    var parts := QuestionParts(items);
    SomePartMissing(parts);
    assert forall i :: 0 <= i < |items| ==> parts[i] == QuestionOf(items[i], i);
  }

  lemma {:induction false} NamedByIndex(questions: seq<Question>, n: nat)
    requires forall i :: 0 <= i < |questions| ==> questions[i].questionId == QuestionId(i)
    ensures QuestionNamed(questions, QuestionId(n)) == if n < |questions| then Some(questions[n]) else None
    decreases |questions|
  {
    if questions != [] {
      var last := |questions| - 1;
      if QuestionId(last) == QuestionId(n) {
        IdsAreUnique(last, n);
      } else {
        NamedByIndex(questions[..last], n);
      }
    }
  }

  // ----- every well-formed decision can be asked -----

  /** A label that was offered is echoed as itself: normalising it again changes nothing. */
  lemma TextEchoes(s: string)
    requires Displayable(s, MAX_DETAIL_LENGTH)
    ensures TextFrom(Some(Str(s))) == Some(s)
  {
    FixedPoints(s, MAX_DETAIL_LENGTH);
  }

  function Field(key: string, text: Option<string>): seq<Member> {
    if text.Some? then [Member(key, Str(text.value))] else []
  }

  function ChoiceJson(c: Choice): Json {
    Obj([Member("label", Str(c.caption))] + Field("description", c.description))
  }

  function ChoicesJson(options: seq<Choice>): seq<Json> {
    seq(|options|, i requires 0 <= i < |options| => ChoiceJson(options[i]))
  }

  function QuestionFields(q: Question): seq<Member> {
    [Member("question", Str(q.prompt)), Member("options", Arr(ChoicesJson(q.options))),
     Member("multiSelect", Bool(q.multiSelect))]
  }

  function QuestionJson(q: Question): Json {
    Obj(QuestionFields(q) + Field("header", q.header))
  }

  function QuestionsJson(questions: seq<Question>): seq<Json> {
    seq(|questions|, i requires 0 <= i < |questions| => QuestionJson(questions[i]))
  }

  function DecisionFields(d: Decision): seq<Member> {
    [Member("sequence_num", Int(d.sequenceNum)), Member("questions", Arr(QuestionsJson(d.questions)))]
  }

  lemma FieldEchoes(ms: seq<Member>, key: string, text: Option<string>)
    requires Find(ms, key) == None
    requires text.Some? ==> Displayable(text.value, MAX_DETAIL_LENGTH)
    ensures TextFrom(Find(ms + Field(key, text), key)) == text
    ensures forall other :: other != key ==> Find(ms + Field(key, text), other) == Find(ms, other)
  {
    FindAppend(ms, Field(key, text), key);
    forall other | other != key
      ensures Find(ms + Field(key, text), other) == Find(ms, other)
    {
      FindAppend(ms, Field(key, text), other);
    }
    if text.Some? {
      TextEchoes(text.value);
    }
  }

  lemma ChoiceEchoes(c: Choice)
    requires Displayable(c.caption, MAX_DETAIL_LENGTH)
    requires c.description.Some? ==> Displayable(c.description.value, MAX_DETAIL_LENGTH)
    ensures OptionOf(ChoiceJson(c)) == Some(c)
  {
    var ms := [Member("label", Str(c.caption))];
    assert ms[0].key != "description";
    FindAt(ms, 0);
    FieldEchoes(ms, "description", c.description);
    TextEchoes(c.caption);
  }

  lemma OptionsEcho(options: seq<Choice>)
    requires CleanLabels(Labels(options)) && CleanDescriptions(options)
    ensures OptionsOf(ChoicesJson(options)) == Some(options)
  {
    forall k | 0 <= k < |options|
      ensures OptionParts(ChoicesJson(options))[k] == Some(options[k])
    {
      assert Labels(options)[k] == options[k].caption;
      ChoiceEchoes(options[k]);
    }
    AllCollected(OptionParts(ChoicesJson(options)), options);
  }

  lemma QuestionFieldsFound(q: Question)
    ensures var ms := QuestionFields(q);
            && Find(ms, "question") == Some(Str(q.prompt))
            && Find(ms, "options") == Some(Arr(ChoicesJson(q.options)))
            && Find(ms, "multiSelect") == Some(Bool(q.multiSelect))
            && Find(ms, "header") == None
  {
    var ms := QuestionFields(q);
    assert ms[0].key == "question" && ms[1].key == "options" && ms[2].key == "multiSelect";
    assert DistinctKeys(ms);
    FindAt(ms, 0);
    FindAt(ms, 1);
    FindAt(ms, 2);
  }

  /** What makes a question parse as `q`. */
  lemma QuestionMade(index: nat, q: Question, items: seq<Json>)
    requires q.questionId == QuestionId(index)
    requires 0 < |items| <= MAX_OPTIONS && OptionsOf(items) == Some(q.options)
    ensures QuestionFrom(index, Some(q.prompt), q.header, Some(Arr(items)), Some(q.multiSelect)) == Some(q)
  {
  }

  lemma QuestionTexts(v: Json, ms: seq<Member>, q: Question, options: Json)
    requires Displayable(q.prompt, MAX_DETAIL_LENGTH)
    requires q.header.Some? ==> Displayable(q.header.value, MAX_DETAIL_LENGTH)
    requires Find(ms, "question") == Some(Str(q.prompt)) && Find(ms, "options") == Some(options)
    requires Find(ms, "multiSelect") == Some(Bool(q.multiSelect)) && Find(ms, "header") == None
    requires v == Obj(ms + Field("header", q.header))
    ensures TextFrom(Get(v, "question")) == Some(q.prompt) && TextFrom(Get(v, "header")) == q.header
    ensures Get(v, "multiSelect") == Some(Bool(q.multiSelect)) && Get(v, "options") == Some(options)
  {
    FieldEchoes(ms, "header", q.header);
    TextEchoes(q.prompt);
  }

  lemma QuestionReads(v: Json, index: nat, q: Question, options: Json)
    requires TextFrom(Get(v, "question")) == Some(q.prompt) && TextFrom(Get(v, "header")) == q.header
    requires Get(v, "multiSelect") == Some(Bool(q.multiSelect)) && Get(v, "options") == Some(options)
    ensures QuestionOf(v, index) == QuestionFrom(index, Some(q.prompt), q.header, Some(options), Some(q.multiSelect))
  {
  }

  lemma QuestionEchoes(q: Question, index: nat)
    requires WellFormedQuestion(q, index)
    ensures QuestionOf(QuestionJson(q), index) == Some(q)
  {
    QuestionFieldsFound(q);
    QuestionAsks(QuestionJson(q), index, q, QuestionFields(q), ChoicesJson(q.options));
  }

  lemma QuestionAsks(v: Json, index: nat, q: Question, ms: seq<Member>, items: seq<Json>)
    requires WellFormedQuestion(q, index) && items == ChoicesJson(q.options)
    requires Find(ms, "question") == Some(Str(q.prompt)) && Find(ms, "options") == Some(Arr(items))
    requires Find(ms, "multiSelect") == Some(Bool(q.multiSelect)) && Find(ms, "header") == None
    requires v == Obj(ms + Field("header", q.header))
    ensures QuestionOf(v, index) == Some(q)
  {
    QuestionTexts(v, ms, q, Arr(items));
    QuestionReads(v, index, q, Arr(items));
    OptionsEcho(q.options);
    assert |items| == |q.options|;
    QuestionMade(index, q, items);
  }

  lemma DecisionEchoes(d: Decision)
    requires WellFormedDecision(d)
    ensures DecisionOf(Obj(DecisionFields(d))) == Some(d)
  {
    var ms := DecisionFields(d);
    assert ms[0].key == "sequence_num" && ms[1].key == "questions";
    FindAt(ms, 0);
    FindAt(ms, 1);
    forall i | 0 <= i < |d.questions|
      ensures QuestionParts(QuestionsJson(d.questions))[i] == Some(d.questions[i])
    {
      QuestionEchoes(d.questions[i], i);
    }
    AllCollected(QuestionParts(QuestionsJson(d.questions)), d.questions);
  }

  /** What the parser can produce, exactly. */
  lemma ParsedExactly(d: Decision)
    ensures (exists v :: DecisionOf(v) == Some(d)) <==> WellFormedDecision(d)
  {
    if v :| DecisionOf(v) == Some(d) {
      ParsedDecision(v);
    }
    if WellFormedDecision(d) {
      DecisionEchoes(d);
    }
  }

  // ----- the operator's picks -----

  /** Some labels of the question at an index. */
  datatype Pick = Pick(index: nat, labels: seq<string>)

  predicate LegitimatePick(d: Decision, p: Pick) {
    && p.index < |d.questions|
    && p.labels != [] && Distinct(p.labels)
    && Offered(d.questions[p.index], p.labels)
    && (!d.questions[p.index].multiSelect ==> |p.labels| == 1)
  }

  predicate LegitimatePicks(d: Decision, ps: seq<Pick>) {
    && ps != []
    && (forall i :: 0 <= i < |ps| ==> LegitimatePick(d, ps[i]))
    && (forall i, j :: 0 <= i < j < |ps| ==> ps[i].index != ps[j].index)
  }

  function AnswerFor(p: Pick): Answer {
    Answer(QuestionId(p.index), p.labels)
  }

  function EnvelopeFor(ps: seq<Pick>): Envelope {
    Envelope(seq(|ps|, i requires 0 <= i < |ps| => AnswerFor(ps[i])))
  }

  function Strings(labels: seq<string>): seq<Json> {
    seq(|labels|, i requires 0 <= i < |labels| => Str(labels[i]))
  }

  function Entry(p: Pick): Member {
    Member(QuestionId(p.index), Arr(Strings(p.labels)))
  }

  function Entries(ps: seq<Pick>): seq<Member> {
    seq(|ps|, i requires 0 <= i < |ps| => Entry(ps[i]))
  }

  /** What the phone sends back. */
  function Payload(ps: seq<Pick>, stamp: nat): Json {
    Obj([Member("answers", Obj(Entries(ps))), Member("sequence_num", Int(stamp))])
  }

  lemma PayloadIsSafe(ps: seq<Pick>, stamp: nat)
    requires forall i, j :: 0 <= i < j < |ps| ==> ps[i].index != ps[j].index
    ensures Safe(Payload(ps, stamp))
  {
    var entries := Entries(ps);
    forall i, j | 0 <= i < j < |entries|
      ensures entries[i].key != entries[j].key
    {
      if QuestionId(ps[i].index) == QuestionId(ps[j].index) {
        IdsAreUnique(ps[i].index, ps[j].index);
      }
    }
    forall i | 0 <= i < |entries|
      ensures Safe(entries[i].value)
    {
      assert entries[i].value == Arr(Strings(ps[i].labels));
      assert forall k :: 0 <= k < |ps[i].labels| ==> Safe(Strings(ps[i].labels)[k]);
    }
    assert Safe(Obj(entries));
    assert "answers" != "sequence_num";
  }

  // ----- no more picks than there are things to pick -----

  lemma {:induction false} DistinctCount<T>(s: seq<T>)
    requires Distinct(s)
    ensures |set x | x in s| == |s|
  {
    if s != [] {
      var front, last := s[..|s| - 1], s[|s| - 1];
      DistinctCount(front);
      assert (set x | x in s) == (set x | x in front) + {last};
      assert last !in front;
    }
  }

  lemma {:induction false} CountAtMost<T>(s: seq<T>)
    ensures |set x | x in s| <= |s|
  {
    if s != [] {
      var front, last := s[..|s| - 1], s[|s| - 1];
      CountAtMost(front);
      assert (set x | x in s) == (set x | x in front) + {last};
    }
  }

  lemma SubsetCount<T>(a: set<T>, b: set<T>)
    requires a <= b
    ensures |a| <= |b|
  {
    assert b == a + (b - a);
  }

  lemma NoMoreThan<T>(chosen: seq<T>, available: seq<T>)
    requires Distinct(chosen) && forall x :: x in chosen ==> x in available
    ensures |chosen| <= |available|
  {
    DistinctCount(chosen);
    CountAtMost(available);
    SubsetCount(set x | x in chosen, set x | x in available);
  }

  lemma PicksFit(d: Decision, ps: seq<Pick>)
    requires WellFormedDecision(d) && LegitimatePicks(d, ps)
    ensures |ps| <= MAX_QUESTIONS
    ensures forall i :: 0 <= i < |ps| ==> |ps[i].labels| <= MAX_OPTIONS
  {
    var indices := seq(|ps|, i requires 0 <= i < |ps| => ps[i].index);
    var all := seq(|d.questions|, k => k);
    forall x | x in indices
      ensures x in all
    {
      assert all[x] == x;
    }
    NoMoreThan(indices, all);
    forall i | 0 <= i < |ps|
      ensures |ps[i].labels| <= MAX_OPTIONS
    {
      assert LegitimatePick(d, ps[i]);
      NoMoreThan(ps[i].labels, Labels(d.questions[ps[i].index].options));
    }
  }

  // ----- the round trip -----

  lemma LabelsEcho(q: Question, index: nat, labels: seq<string>)
    requires WellFormedQuestion(q, index) && Offered(q, labels)
    ensures AllOf(LabelParts(Strings(labels))) == Some(labels)
  {
    forall k | 0 <= k < |labels|
      ensures LabelParts(Strings(labels))[k] == Some(labels[k])
    {
      var j :| 0 <= j < |q.options| && Labels(q.options)[j] == labels[k];
      TextEchoes(labels[k]);
    }
    AllCollected(LabelParts(Strings(labels)), labels);
  }

  lemma EntryEchoes(d: Decision, p: Pick)
    requires WellFormedDecision(d) && LegitimatePick(d, p) && |p.labels| <= MAX_OPTIONS
    ensures AnswerOf(Entry(p)) == Some(AnswerFor(p))
  {
    IdGrammarIsExact(QuestionId(p.index));
    LabelsEcho(d.questions[p.index], p.index, p.labels);
    assert |Strings(p.labels)| == |p.labels|;
  }

  lemma EntriesEcho(d: Decision, ps: seq<Pick>)
    requires WellFormedDecision(d) && LegitimatePicks(d, ps)
    ensures AllOf(AnswerParts(Entries(ps))) == Some(EnvelopeFor(ps).answers)
  {
    PicksFit(d, ps);
    forall i | 0 <= i < |ps|
      ensures AnswerParts(Entries(ps))[i] == Some(EnvelopeFor(ps).answers[i])
    {
      assert LegitimatePick(d, ps[i]);
      EntryEchoes(d, ps[i]);
    }
    AllCollected(AnswerParts(Entries(ps)), EnvelopeFor(ps).answers);
  }

  lemma PickIsAccepted(d: Decision, p: Pick)
    requires WellFormedDecision(d) && LegitimatePick(d, p)
    ensures Legitimate(d.questions, AnswerFor(p))
  {
    NamedByIndex(d.questions, p.index);
  }

  lemma PayloadFields(ps: seq<Pick>, stamp: nat)
    ensures Get(Payload(ps, stamp), "answers") == Some(Obj(Entries(ps)))
    ensures Get(Payload(ps, stamp), "sequence_num") == Some(Int(stamp))
  {
    var ms := Payload(ps, stamp).members;
    assert ms[0].key == "answers" && ms[1].key == "sequence_num";
    assert ms[0].key != ms[1].key;
    FindAt(ms, 0);
    FindAt(ms, 1);
  }

  lemma PayloadEchoes(d: Decision, ps: seq<Pick>, stamp: nat)
    requires WellFormedDecision(d) && LegitimatePicks(d, ps)
    ensures EnvelopeOf(Payload(ps, stamp)) == Some(EnvelopeFor(ps))
  {
    PayloadFields(ps, stamp);
    PicksFit(d, ps);
    EntriesEcho(d, ps);
    assert |Entries(ps)| == |ps|;
  }

  lemma PicksAreLegitimate(d: Decision, ps: seq<Pick>)
    requires WellFormedDecision(d) && LegitimatePicks(d, ps)
    ensures VerdictOn(d, EnvelopeFor(ps), Some(d.sequenceNum)) == Accepted
  {
    forall i | 0 <= i < |ps|
      ensures Legitimate(d.questions, EnvelopeFor(ps).answers[i])
    {
      assert LegitimatePick(d, ps[i]);
      PickIsAccepted(d, ps[i]);
    }
    AcceptedExactly(d, EnvelopeFor(ps), Some(d.sequenceNum));
  }

  lemma StampEchoes(d: Decision, ps: seq<Pick>)
    requires WellFormedDecision(d)
    ensures SessionModel.AsSequence(Get(Payload(ps, d.sequenceNum), "sequence_num")) == Some(d.sequenceNum)
  {
    PayloadFields(ps, d.sequenceNum);
  }

  /**
   * Parse the questions, pick, print the picks as JSON, read them back, parse and validate: the picks arrive as
   * they were made and are accepted.
   */
  lemma PicksAreAccepted(v: Json, ps: seq<Pick>)
    requires DecisionOf(v).Some? && LegitimatePicks(DecisionOf(v).value, ps)
    ensures var (d, sent) := (DecisionOf(v).value, Payload(ps, DecisionOf(v).value.sequenceNum));
            && Parse(Print(sent)) == Some(sent)
            && EnvelopeOf(sent) == Some(EnvelopeFor(ps))
            && VerdictOn(d, EnvelopeFor(ps), SessionModel.AsSequence(Get(sent, "sequence_num"))) == Accepted
  {
    ParsedDecision(v);
    PicksArrive(DecisionOf(v).value, ps);
  }

  lemma PicksArrive(d: Decision, ps: seq<Pick>)
    requires WellFormedDecision(d) && LegitimatePicks(d, ps)
    ensures var sent := Payload(ps, d.sequenceNum);
            && Parse(Print(sent)) == Some(sent)
            && EnvelopeOf(sent) == Some(EnvelopeFor(ps))
            && VerdictOn(d, EnvelopeFor(ps), SessionModel.AsSequence(Get(sent, "sequence_num"))) == Accepted
  {
    PayloadIsSafe(ps, d.sequenceNum);
    ParsePrint(Payload(ps, d.sequenceNum));
    PayloadEchoes(d, ps, d.sequenceNum);
    StampEchoes(d, ps);
    PicksAreLegitimate(d, ps);
  }

  function PickFrom(a: Answer): Pick
    requires IsQuestionId(a.questionId)
  {
    Pick(IndexOfId(a.questionId), a.labels)
  }

  lemma AnswerIsPick(d: Decision, a: Answer)
    requires WellFormedDecision(d) && IsQuestionId(a.questionId) && a.labels != []
    requires Legitimate(d.questions, a)
    ensures LegitimatePick(d, PickFrom(a)) && AnswerFor(PickFrom(a)) == a
  {
    IdGrammarIsExact(a.questionId);
    NamedByIndex(d.questions, IndexOfId(a.questionId));
  }

  lemma ParsedEnvelope(w: Json)
    requires EnvelopeOf(w).Some?
    ensures var (answers, entries) := (EnvelopeOf(w).value.answers, Get(w, "answers").value.members);
            && answers != [] && |answers| == |entries|
            && forall i :: 0 <= i < |answers| ==>
                 && answers[i].questionId == entries[i].key
                 && IsQuestionId(answers[i].questionId) && answers[i].labels != []
  {
    var entries := Get(w, "answers").value.members;
    forall i | 0 <= i < |entries|
      ensures AnswerParts(entries)[i] == Some(EnvelopeOf(w).value.answers[i])
      ensures EnvelopeOf(w).value.answers[i].labels != []
    {
      assert AnswerParts(entries)[i] == AnswerOf(entries[i]);
      assert |AnswerOf(entries[i]).value.labels| == |entries[i].value.items|;
    }
  }

  /**
   * Conversely, whatever is sent: an envelope that parses and is accepted is a legitimate set of picks and carries
   * exactly the outstanding stamp.
   */
  lemma AcceptedArePicks(v: Json, w: Json, submitted: Option<nat>) returns (ps: seq<Pick>)
    requires DecisionOf(v).Some? && EnvelopeOf(w).Some?
    requires DistinctKeys(Get(w, "answers").value.members)
    requires VerdictOn(DecisionOf(v).value, EnvelopeOf(w).value, submitted) == Accepted
    ensures submitted == Some(DecisionOf(v).value.sequenceNum)
    ensures LegitimatePicks(DecisionOf(v).value, ps) && EnvelopeOf(w).value == EnvelopeFor(ps)
  {
    var d, answers := DecisionOf(v).value, EnvelopeOf(w).value.answers;
    var entries := Get(w, "answers").value.members;
    ParsedDecision(v);
    ParsedEnvelope(w);
    AcceptedExactly(d, EnvelopeOf(w).value, submitted);
    forall i, j | 0 <= i < j < |answers|
      ensures answers[i].questionId != answers[j].questionId
    {
      assert entries[i].key != entries[j].key;
    }
    ps := AnswersArePicks(d, answers);
  }

  lemma AnswersArePicks(d: Decision, answers: seq<Answer>) returns (ps: seq<Pick>)
    requires WellFormedDecision(d) && answers != []
    requires forall i :: 0 <= i < |answers| ==>
               IsQuestionId(answers[i].questionId) && answers[i].labels != [] && Legitimate(d.questions, answers[i])
    requires forall i, j :: 0 <= i < j < |answers| ==> answers[i].questionId != answers[j].questionId
    ensures LegitimatePicks(d, ps) && EnvelopeFor(ps) == Envelope(answers)
  {
    ps := seq(|answers|, i requires 0 <= i < |answers| && IsQuestionId(answers[i].questionId) => PickFrom(answers[i]));
    forall i | 0 <= i < |ps|
      ensures LegitimatePick(d, ps[i]) && AnswerFor(ps[i]) == answers[i]
    {
      AnswerIsPick(d, answers[i]);
    }
    forall i, j | 0 <= i < j < |ps|
      ensures ps[i].index != ps[j].index
    {
      assert answers[i].questionId != answers[j].questionId;
    }
    assert EnvelopeFor(ps).answers == answers;
  }
}
