/** The page's conversation controller: the session state held in React state hooks and the
    event handlers that change it, each one a run-to-completion transition State -> State. */
module Conversation {
  import opened Wrappers
  import opened Text
  import opened Catalog
  import opened Prompt

  datatype Role = Assistant | User

  /** A transcript entry. The random display id the page attaches is not modelled. */
  datatype Message = Message(role: Role, content: string, questionId: Option<string>)

  /** The session: answers, transcript, `currentQuestionIndex`, the text box, the edit
      target (`editingQuestionId`), the completion flag and the rendering preferences. */
  datatype State = State(
    responses: map<string, string>,
    messages: seq<Message>,
    index: nat,
    input: string,
    editing: Option<string>,
    isComplete: bool,
    focus: seq<string>,
    language: string,
    reviewMode: ReviewMode)

  const IntroText: string :=
    "Olá! Sou o seu assistente construtor de prompts. Vou fazer algumas perguntas rápidas para entender o que você precisa. Vamos começar?"
  const RestartText: string :=
    "Recomeçando do zero. Conte novamente o que você precisa e construiremos um novo prompt sob medida."
  const ClosingText: string :=
    "Perfeito! Compilei todas as informações. Confira o preview do prompt ao lado e ajuste qualquer detalhe se achar necessário."
  const CopiedText: string :=
    "Pronto! Prompt copiado para a área de transferência. Se precisar de variações ou ajustes, é só avisar."
  const CopyFailedText: string :=
    "Não consegui copiar automaticamente. Copie manualmente o conteúdo do painel de preview."

  /** The assistant entry that asks catalog question `i`, tagged with its id. */
  function QuestionPrompt(i: nat): Message
    requires i < |Questions|
  {
    Message(Assistant, Questions[i].prompt, Some(Questions[i].id))
  }

  /** The state the page opens with: the intro and the first question, nothing answered. */
  function Initial(): State {
    State(map[], [Message(Assistant, IntroText, None), QuestionPrompt(0)], 0, "", None, false,
          InitialFocus, DefaultLanguage, ReviewModes[0])
  }

  /** What every reachable state keeps: the index points at a catalog question and every
      stored answer is a non-empty, already-trimmed string. */
  predicate Valid(s: State) {
    && s.index < |Questions|
    && forall k | k in s.responses :: s.responses[k] != "" && IsTrimmed(s.responses[k])
  }

  /** The edit target as `if (editingQuestionId)` sees it: an empty id is falsy. */
  function EditTarget(s: State): Option<string> {
    if s.editing.Some? && s.editing.value != "" then s.editing else None
  }

  /** The prompt preview: the renderer applied to the current answers and preferences. */
  function Preview(s: State): string {
    BuildPrompt(s.responses, s.focus, s.language, s.reviewMode)
  }

  // pendingQuestions

  /** Positions from `from` on of required questions without a truthy answer, ascending. */
  function PendingFrom(responses: map<string, string>, from: nat): (r: seq<nat>)
    requires from <= |Questions|
    ensures Increasing(r)
    ensures forall j | 0 <= j < |r| ::
      from <= r[j] < |Questions| && !Questions[r[j]].optional && !Answered(responses, Questions[r[j]].id)
    ensures forall k | from <= k < |Questions| && !Questions[k].optional && !Answered(responses, Questions[k].id) ::
      k in r
    decreases |Questions| - from
  {
    if from == |Questions| then []
    else if !Questions[from].optional && !Answered(responses, Questions[from].id) then
      [from] + PendingFrom(responses, from + 1)
    else
      PendingFrom(responses, from + 1)
  }

  /** The catalog positions `pendingQuestions` holds. */
  function Pending(responses: map<string, string>): seq<nat> {
    PendingFrom(responses, 0)
  }

  /** pendingQuestions: the required, unanswered questions in catalog order. */
  function PendingQuestions(responses: map<string, string>): (r: seq<Question>)
    ensures |r| == |Pending(responses)|
    ensures forall j | 0 <= j < |r| :: r[j] == Questions[Pending(responses)[j]]
    ensures forall q :: q in r <==> q in Questions && !q.optional && !Answered(responses, q.id)
  {
    var idx := Pending(responses);
    var r := seq(|idx|, j requires 0 <= j < |idx| => Questions[idx[j]]);
    PendingQuestionsMembers(responses, idx, r);
    r
  }

  lemma PendingQuestionsMembers(responses: map<string, string>, idx: seq<nat>, r: seq<Question>)
    requires idx == Pending(responses)
    requires |r| == |idx| && forall j | 0 <= j < |idx| :: r[j] == Questions[idx[j]]
    ensures forall q :: q in r <==> q in Questions && !q.optional && !Answered(responses, q.id)
  {
    forall q | q in Questions && !q.optional && !Answered(responses, q.id) ensures q in r {
      var k :| 0 <= k < |Questions| && Questions[k] == q;
      var j :| 0 <= j < |idx| && idx[j] == k;
      assert r[j] == q;
    }
  }

  // handleSubmit

  /** The text area's onChange: replaces the pending input. */
  function SetInput(s: State, text: string): (r: State)
    ensures r.input == text
    ensures r == s.(input := text)
  {
    s.(input := text)
  }

  /** The edit branch rewrites the content of every user entry tagged `target` and nothing else. */
  function RewriteAnswers(messages: seq<Message>, target: string, text: string): (r: seq<Message>)
    ensures |r| == |messages|
    ensures forall j | 0 <= j < |messages| ::
      r[j].role == messages[j].role && r[j].questionId == messages[j].questionId
    ensures forall j | 0 <= j < |messages| ::
      if messages[j].role == User && messages[j].questionId == Some(target) then r[j].content == text
      else r[j] == messages[j]
  {
    if |messages| == 0 then []
    else
      var m := messages[0];
      var head := if m.role == User && m.questionId == Some(target) then m.(content := text) else m;
      [head] + RewriteAnswers(messages[1..], target, text)
  }

  /** handleSubmit while an answer is being edited: overwrite it, rewrite its transcript
      entries in place, leave the flow where it is. */
  function SubmitEdit(s: State, target: string, trimmed: string): (r: State)
    requires trimmed != "" && IsTrimmed(trimmed)
    ensures r.responses == s.responses[target := trimmed]
    ensures |r.messages| == |s.messages|
    ensures forall j | 0 <= j < |s.messages| ::
      r.messages[j].role == s.messages[j].role && r.messages[j].questionId == s.messages[j].questionId
    ensures forall j | 0 <= j < |s.messages| && r.messages[j] != s.messages[j] ::
      s.messages[j].role == User && s.messages[j].questionId == Some(target)
    ensures forall j | 0 <= j < |s.messages| && s.messages[j].role == User && s.messages[j].questionId == Some(target) ::
      r.messages[j].content == trimmed
    ensures r.index == s.index && r.isComplete == s.isComplete
    ensures r.editing == None && r.input == ""
    ensures Valid(s) ==> Valid(r)
  {
    s.(responses := s.responses[target := trimmed],
       messages := RewriteAnswers(s.messages, target, trimmed),
       input := "",
       editing := None)
  }

  /** handleSubmit in the normal flow: answer the current question, then queue the next one
      or, at the last question, close the conversation. */
  function SubmitAnswer(s: State, trimmed: string): (r: State)
    requires s.index < |Questions|
    requires trimmed != "" && IsTrimmed(trimmed)
    ensures |r.messages| == |s.messages| + 2 && r.messages[..|s.messages|] == s.messages
    ensures r.messages[|s.messages|] == Message(User, trimmed, Some(Questions[s.index].id))
    ensures r.messages[|s.messages| + 1].role == Assistant
    ensures s.index + 1 < |Questions| ==>
      r.messages[|s.messages| + 1] == QuestionPrompt(s.index + 1) &&
      r.index == s.index + 1 && r.isComplete == s.isComplete
    ensures s.index + 1 == |Questions| ==>
      r.messages[|s.messages| + 1] == Message(Assistant, ClosingText, None) &&
      r.index == s.index && r.isComplete
    ensures r.responses == s.responses[Questions[s.index].id := trimmed]
    ensures r.index < |Questions|
    ensures r.input == "" && r.editing == s.editing
    ensures Valid(s) ==> Valid(r)
  {
    var question := Questions[s.index];
    var answer := Message(User, trimmed, Some(question.id));
    var hasNext := s.index + 1 < |Questions|;
    var follow := if hasNext then QuestionPrompt(s.index + 1) else Message(Assistant, ClosingText, None);
    s.(messages := s.messages + [answer, follow],
       responses := s.responses[question.id := trimmed],
       input := "",
       index := if hasNext then s.index + 1 else s.index,
       isComplete := if hasNext then s.isComplete else true)
  }

  /** handleSubmit. */
  function Submit(s: State): (r: State)
    ensures AllSpace(s.input) ==> r == s
    ensures !AllSpace(s.input) && EditTarget(s).Some? ==> r == SubmitEdit(s, EditTarget(s).value, Trim(s.input))
    ensures !AllSpace(s.input) && EditTarget(s).None? && s.index < |Questions| ==> r == SubmitAnswer(s, Trim(s.input))
    ensures r.focus == s.focus && r.language == s.language && r.reviewMode == s.reviewMode
    ensures Valid(s) ==> Valid(r)
  {
    var trimmed := Trim(s.input);
    TrimSpec(s.input);
    if trimmed == "" then s
    else if EditTarget(s).Some? then SubmitEdit(s, EditTarget(s).value, trimmed)
    else if s.index >= |Questions| then s
    else SubmitAnswer(s, trimmed)
  }

  // handleEdit

  /** messages.some(msg => msg.questionId === id && msg.role === "assistant"). */
  predicate HasPrompt(messages: seq<Message>, id: string) {
    exists j | 0 <= j < |messages| :: messages[j].questionId == Some(id) && messages[j].role == Assistant
  }

  /** handleEdit: enter edit mode for `questionId` with `value` in the text box; for a catalog
      id, move the flow to that question and ask it if it was never asked. */
  function Edit(s: State, questionId: string, value: string): (r: State)
    ensures r.editing == Some(questionId) && r.input == value
    ensures EditTarget(r) == if questionId == "" then None else Some(questionId)
    ensures r.responses == s.responses && r.isComplete == s.isComplete
    ensures r.focus == s.focus && r.language == s.language && r.reviewMode == s.reviewMode
    ensures FindIndex(questionId) >= 0 ==> r.index == FindIndex(questionId) && Questions[r.index].id == questionId
    ensures FindIndex(questionId) >= 0 ==> HasPrompt(r.messages, questionId)
    ensures FindIndex(questionId) < 0 ==> r.index == s.index && r.messages == s.messages
    ensures |s.messages| <= |r.messages| <= |s.messages| + 1 && r.messages[..|s.messages|] == s.messages
    ensures |r.messages| == |s.messages| + 1 <==> FindIndex(questionId) >= 0 && !HasPrompt(s.messages, questionId)
    ensures |r.messages| == |s.messages| + 1 ==> r.messages[|s.messages|] == QuestionPrompt(FindIndex(questionId))
    ensures Valid(s) ==> Valid(r)
  {
    var base := s.(editing := Some(questionId), input := value);
    var found := FindIndex(questionId);
    if found < 0 then base
    else if HasPrompt(s.messages, questionId) then base.(index := found)
    else
      var r := base.(index := found, messages := s.messages + [QuestionPrompt(found)]);
      assert r.messages[|s.messages|] == QuestionPrompt(found);
      r
  }

  // handleSuggestion, handleToggleFocus

  /** The suggestion-chip update of the text box: take the chip when the box is empty, keep
      the box when it already contains the chip, otherwise append it after the trimmed text,
      with a space unless that text ends in a comma. */
  function AppendSuggestion(prev: string, value: string): (r: string)
    ensures Includes(r, value)
    ensures |prev| == 0 ==> r == value
    ensures |prev| > 0 && Includes(prev, value) ==> r == prev
    ensures |prev| > 0 && !Includes(prev, value) ==>
      StartsWith(r, Trim(prev)) && EndsWith(r, value) &&
      |r| == |Trim(prev)| + |value| + (if EndsWith(Trim(prev), ",") then 0 else 1) &&
      (!EndsWith(Trim(prev), ",") ==> r[|Trim(prev)|] == ' ')
  {
    if |prev| == 0 then
      assert StartsWith(value, value);
      value
    else if Includes(prev, value) then prev
    else
      var t := Trim(prev);
      var glue := t + (if EndsWith(t, ",") then "" else " ");
      IncludesSuffix(glue, value);
      StartsWithConcat(t, if EndsWith(t, ",") then "" else " ");
      StartsWithExtend(glue, t, value);
      EndsWithConcat(glue, value);
      assert !EndsWith(t, ",") ==> (glue + value)[|t|] == ' ';
      glue + value
  }

  function Suggest(s: State, value: string): (r: State)
    ensures r.input == AppendSuggestion(s.input, value)
    ensures Includes(r.input, value)
    ensures r == s.(input := r.input)
  {
    s.(input := AppendSuggestion(s.input, value))
  }

  predicate NoDuplicates(xs: seq<string>) {
    forall i, j | 0 <= i < j < |xs| :: xs[i] != xs[j]
  }

  /** prev.filter(item => item !== v). */
  function Without(xs: seq<string>, v: string): (r: seq<string>)
    ensures v !in r
    ensures forall x | x != v :: x in r <==> x in xs
    ensures v !in xs ==> r == xs
    ensures NoDuplicates(xs) ==> NoDuplicates(r)
  {
    if |xs| == 0 then []
    else if xs[0] == v then Without(xs[1..], v)
    else
      var rest := Without(xs[1..], v);
      assert xs == [xs[0]] + xs[1..];
      assert NoDuplicates(xs) ==> xs[0] !in xs[1..];
      [xs[0]] + rest
  }

  /** Filtering distributes over concatenation, so the kept items stay in their order. */
  lemma {:induction false} WithoutConcat(a: seq<string>, b: seq<string>, v: string)
    ensures Without(a + b, v) == Without(a, v) + Without(b, v)
  {
    if |a| == 0 {
      assert a + b == b;
    } else {
      assert (a + b)[0] == a[0] && (a + b)[1..] == a[1..] + b;
      WithoutConcat(a[1..], b, v);
    }
  }

  /** Removing a value after appending it is removing it from the original list. */
  lemma {:induction false} WithoutSnoc(xs: seq<string>, v: string)
    ensures Without(xs + [v], v) == Without(xs, v)
  {
    if |xs| == 0 {
      assert [] + [v] == [v];
      assert [v][1..] == [];
    } else {
      assert (xs + [v])[1..] == xs[1..] + [v];
      WithoutSnoc(xs[1..], v);
    }
  }

  /** The focus-chip toggle: drop the value when selected, append it otherwise. */
  function Toggle(xs: seq<string>, v: string): (r: seq<string>)
    ensures v in r <==> v !in xs
    ensures forall x | x != v :: x in r <==> x in xs
    ensures Without(r, v) == Without(xs, v)
    ensures NoDuplicates(xs) ==> NoDuplicates(r)
  {
    if v in xs then Without(xs, v)
    else
      WithoutSnoc(xs, v);
      xs + [v]
  }

  function ToggleFocus(s: State, value: string): (r: State)
    ensures value in r.focus <==> value !in s.focus
    ensures forall x | x != value :: x in r.focus <==> x in s.focus
    ensures Without(r.focus, value) == Without(s.focus, value)
    ensures r == s.(focus := r.focus)
  {
    s.(focus := Toggle(s.focus, value))
  }

  // resetConversation, copyPrompt, review-mode select

  /** resetConversation: back to the first question with the restart greeting; the
      rendering preferences survive. */
  function Reset(s: State): (r: State)
    ensures Valid(r)
    ensures r.responses == map[] && r.input == "" && r.editing == None && !r.isComplete && r.index == 0
    ensures r.messages == [Message(Assistant, RestartText, None), QuestionPrompt(0)]
    ensures r.messages[1].questionId == Some("objective")
    ensures r.focus == s.focus && r.language == s.language && r.reviewMode == s.reviewMode
  {
    State(map[], [Message(Assistant, RestartText, None), QuestionPrompt(0)], 0, "", None, false,
          s.focus, s.language, s.reviewMode)
  }

  /** copyPrompt once the clipboard write has settled: one untagged assistant entry reporting
      success or failure. */
  function CopyPrompt(s: State, copied: bool): (r: State)
    ensures |r.messages| == |s.messages| + 1 && r.messages[..|s.messages|] == s.messages
    ensures r.messages[|s.messages|] == Message(Assistant, if copied then CopiedText else CopyFailedText, None)
    ensures r == s.(messages := r.messages)
  {
    s.(messages := s.messages + [Message(Assistant, if copied then CopiedText else CopyFailedText, None)])
  }

  /** The review-mode select: the listed mode with that id, else the default. */
  function SelectReview(s: State, value: string): (r: State)
    ensures r.reviewMode == SelectReviewMode(value)
    ensures r.reviewMode in ReviewModes
    ensures r == s.(reviewMode := r.reviewMode)
  {
    s.(reviewMode := SelectReviewMode(value))
  }
}
