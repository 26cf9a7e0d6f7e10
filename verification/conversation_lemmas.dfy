/** Properties of the conversation controller that relate several handler calls, or a
    handler and the derived values (pendingQuestions, the prompt preview). */
module ConversationLemmas {
  import opened Wrappers
  import opened Text
  import opened Catalog
  import opened Prompt
  import opened Conversation

  /** The page opens in a valid state, asking the first question, outside edit mode. */
  lemma InitialState()
    ensures Valid(Initial())
    ensures Initial().messages[1] == QuestionPrompt(0) && EditTarget(Initial()) == None
  {
  }

  /** With no answers, every required question is pending, in catalog order. */
  lemma NothingAnsweredAllPending()
    ensures Pending(map[]) == [0, 1, 2, 3, 4, 5]
  {
    NothingAnsweredMembers();
    FirstSixIncreasing();
    IncreasingUnique(Pending(map[]), [0, 1, 2, 3, 4, 5]);
  }

  lemma NothingAnsweredMembers()
    ensures forall x :: x in Pending(map[]) <==> x in [0, 1, 2, 3, 4, 5]
  {
    forall x ensures x in Pending(map[]) <==> x in [0, 1, 2, 3, 4, 5] {
      PendingMember(map[], x);
      if 0 <= x < |Questions| {
        OnlyLastOptional(x);
      }
    }
  }

  lemma FirstSixIncreasing()
    ensures Increasing([0, 1, 2, 3, 4, 5])
  {
  }

  /** A submission whose input trims to nothing changes nothing at all. */
  lemma BlankSubmitIsIgnored(s: State)
    requires Trim(s.input) == ""
    ensures Submit(s) == s
  {
    TrimSpec(s.input);
  }

  /** Storing a non-empty answer under question `i` takes exactly question `i` off the
      pending list. */
  lemma StoringLeavesPending(responses: map<string, string>, i: nat, text: string)
    requires i < |Questions| && text != ""
    ensures forall k :: k in Pending(responses[Questions[i].id := text]) <==> k in Pending(responses) && k != i
  {
    forall k ensures k in Pending(responses[Questions[i].id := text]) <==> k in Pending(responses) && k != i {
      StoringLeavesPendingAt(responses, i, text, k);
    }
  }

  lemma StoringLeavesPendingAt(responses: map<string, string>, i: nat, text: string, k: int)
    requires i < |Questions| && text != ""
    ensures k in Pending(responses[Questions[i].id := text]) <==> k in Pending(responses) && k != i
  {
    PendingMember(responses, k);
    PendingMember(responses[Questions[i].id := text], k);
    if 0 <= k < |Questions| {
      IdsDistinct(k, i);
    }
  }

  /** Answering the current question in the normal flow removes exactly that question from
      the pending list. */
  lemma AnswerLeavesPending(s: State)
    requires Valid(s) && EditTarget(s) == None && Trim(s.input) != ""
    ensures forall k :: k in Pending(Submit(s).responses) <==> k in Pending(s.responses) && k != s.index
  {
    SubmitInNormalMode(s);
    assert Submit(s).responses == s.responses[Questions[s.index].id := Trim(s.input)];
    StoringLeavesPending(s.responses, s.index, Trim(s.input));
  }

  /** Membership in the pending list, stated without the list. */
  lemma PendingMember(responses: map<string, string>, k: int)
    ensures k in Pending(responses) <==>
      0 <= k < |Questions| && !Questions[k].optional && !Answered(responses, Questions[k].id)
  {
    var p := Pending(responses);
    if k in p {
      var j :| 0 <= j < |p| && p[j] == k;
    }
  }

  /** The pending list is empty once every required question has a truthy answer. */
  lemma AllRequiredAnsweredNonePending(responses: map<string, string>)
    requires AnsweredUpTo(responses, |Questions| - 1)
    ensures Pending(responses) == []
  {
    var p := Pending(responses);
    if |p| > 0 {
      PendingMember(responses, p[0]);
      OnlyLastOptional(p[0]);
    }
  }

  /** Submitting a sequence of inputs one after another, each typed into the text box first. */
  function SubmitAll(s: State, inputs: seq<string>): State
    decreases |inputs|
  {
    if |inputs| == 0 then s else SubmitAll(Submit(SetInput(s, inputs[0])), inputs[1..])
  }

  lemma {:induction false} SubmitAllConcat(s: State, a: seq<string>, b: seq<string>)
    ensures SubmitAll(s, a + b) == SubmitAll(SubmitAll(s, a), b)
    decreases |a|
  {
    if |a| == 0 {
      assert a + b == b;
    } else {
      assert (a + b)[0] == a[0] && (a + b)[1..] == a[1..] + b;
      SubmitAllConcat(Submit(SetInput(s, a[0])), a[1..], b);
    }
  }

  /** Every input trims to something non-empty. */
  predicate NonBlank(inputs: seq<string>) {
    forall j | 0 <= j < |inputs| :: Trim(inputs[j]) != ""
  }

  /** Every question before position `n` has a truthy answer. */
  predicate AnsweredUpTo(responses: map<string, string>, n: nat)
    requires n <= |Questions|
  {
    forall i | 0 <= i < n :: Answered(responses, Questions[i].id)
  }

  /** In the normal flow a non-blank submission takes the answer branch. */
  lemma SubmitInNormalMode(s: State)
    requires s.index < |Questions| && EditTarget(s) == None && Trim(s.input) != ""
    ensures Submit(s) == SubmitAnswer(s, Trim(s.input))
  {
    TrimSpec(s.input);
  }

  /** One normal-flow step of SubmitAll: the typed input is answered. */
  lemma StepForward(s: State, input: string)
    requires Valid(s) && EditTarget(s) == None && Trim(input) != ""
    ensures Submit(SetInput(s, input)) == SubmitAnswer(SetInput(s, input), Trim(input))
  {
    SubmitInNormalMode(SetInput(s, input));
  }

  /** Storing a non-empty answer keeps every earlier truthy answer truthy. */
  lemma StoreKeepsAnswered(responses: map<string, string>, n: nat, i: nat, text: string)
    requires n <= |Questions| && i < |Questions| && text != ""
    requires AnsweredUpTo(responses, n)
    ensures AnsweredUpTo(responses[Questions[i].id := text], n)
    ensures i == n && n < |Questions| ==> AnsweredUpTo(responses[Questions[i].id := text], n + 1)
  {
  }

  /** One normal-flow step short of the last question: the answered prefix grows by one. */
  lemma StepKeeps(s: State, input: string)
    requires Valid(s) && EditTarget(s) == None && Trim(input) != ""
    requires s.index + 1 < |Questions|
    requires AnsweredUpTo(s.responses, s.index)
    ensures var s1 := Submit(SetInput(s, input));
      && Valid(s1) && EditTarget(s1) == None
      && s1.index == s.index + 1 && s1.isComplete == s.isComplete
      && AnsweredUpTo(s1.responses, s1.index)
  {
    StepForward(s, input);
    TrimSpec(input);
    StoreKeepsAnswered(s.responses, s.index, s.index, Trim(input));
  }

  /** In the normal flow, non-blank answers that do not reach the last question advance the
      index one step each, keep every question before the index answered, and leave the
      completion flag alone. */
  lemma {:induction false} WalkForward(s: State, inputs: seq<string>)
    requires Valid(s) && EditTarget(s) == None
    requires s.index + |inputs| < |Questions|
    requires NonBlank(inputs) && AnsweredUpTo(s.responses, s.index)
    ensures var r := SubmitAll(s, inputs);
      && Valid(r) && EditTarget(r) == None
      && r.index == s.index + |inputs|
      && r.isComplete == s.isComplete
      && AnsweredUpTo(r.responses, r.index)
    decreases |inputs|
  {
    if |inputs| > 0 {
      assert Trim(inputs[0]) != "";
      StepKeeps(s, inputs[0]);
      var s1 := Submit(SetInput(s, inputs[0]));
      var rest := inputs[1..];
      assert NonBlank(rest) by {
        forall j | 0 <= j < |rest| ensures Trim(rest[j]) != "" {
          assert rest[j] == inputs[j + 1];
        }
      }
      WalkForward(s1, rest);
      assert SubmitAll(s, inputs) == SubmitAll(s1, rest);
    }
  }

  /** From the opening state, six non-blank answers clear the pending list, yet the page is not
      complete: the flow now waits on the optional last question. */
  lemma SixAnswersClearPendingButNotComplete(inputs: seq<string>)
    requires |inputs| == 6 && NonBlank(inputs)
    ensures var r := SubmitAll(Initial(), inputs);
      Pending(r.responses) == [] && !r.isComplete && r.index == 6 && Questions[r.index].optional
  {
    InitialState();
    WalkToLast(Initial(), inputs);
    OnlyLastOptional(6);
  }

  /** From any valid state at the first question, one non-blank answer per required question
      clears the pending list and reaches the last question without completing. */
  lemma WalkToLast(s: State, inputs: seq<string>)
    requires Valid(s) && EditTarget(s) == None && s.index == 0
    requires |inputs| == |Questions| - 1 && NonBlank(inputs)
    ensures var r := SubmitAll(s, inputs);
      Pending(r.responses) == [] && r.isComplete == s.isComplete && r.index == |Questions| - 1
  {
    WalkForward(s, inputs);
    AllRequiredAnsweredNonePending(SubmitAll(s, inputs).responses);
  }

  /** The normal-flow step at the last question sets the completion flag, stays put and keeps
      the answered prefix. */
  lemma StepAtLast(s: State, input: string)
    requires Valid(s) && EditTarget(s) == None && Trim(input) != ""
    requires s.index + 1 == |Questions|
    requires AnsweredUpTo(s.responses, s.index)
    ensures var s1 := Submit(SetInput(s, input));
      && s1.isComplete && s1.index == s.index
      && AnsweredUpTo(s1.responses, s.index)
  {
    StepForward(s, input);
    TrimSpec(input);
    StoreKeepsAnswered(s.responses, s.index, s.index, Trim(input));
  }

  /** With every required question answered, a non-blank answer to the last question
      completes the conversation and leaves nothing pending. */
  lemma LastAnswerCompletes(s: State, input: string)
    requires Valid(s) && EditTarget(s) == None && Trim(input) != ""
    requires s.index == |Questions| - 1
    requires AnsweredUpTo(s.responses, s.index)
    ensures var r := SubmitAll(s, [input]);
      r.isComplete && r.index == |Questions| - 1 && Pending(r.responses) == []
  {
    StepAtLast(s, input);
    var r := Submit(SetInput(s, input));
    assert SubmitAll(s, [input]) == r;
    AllRequiredAnsweredNonePending(r.responses);
  }

  /** A seventh non-blank answer completes the conversation; the index stays on the last
      question. */
  lemma SeventhAnswerCompletes(inputs: seq<string>)
    requires |inputs| == 7 && NonBlank(inputs)
    ensures var r := SubmitAll(Initial(), inputs);
      r.isComplete && r.index == |Questions| - 1 && Pending(r.responses) == []
  {
    InitialState();
    FullWalkCompletes(Initial(), inputs);
  }

  /** From any valid state at the first question, one non-blank answer per question completes
      the conversation. */
  lemma FullWalkCompletes(s: State, inputs: seq<string>)
    requires Valid(s) && EditTarget(s) == None && s.index == 0
    requires |inputs| == |Questions| && NonBlank(inputs)
    ensures var r := SubmitAll(s, inputs);
      r.isComplete && r.index == |Questions| - 1 && Pending(r.responses) == []
  {
    var n := |Questions| - 1;
    var first, last := inputs[..n], inputs[n];
    assert NonBlank(first) by {
      forall j | 0 <= j < |first| ensures Trim(first[j]) != "" {
        assert first[j] == inputs[j];
      }
    }
    assert Trim(last) != "";
    WalkForward(s, first);
    var s6 := SubmitAll(s, first);
    LastAnswerCompletes(s6, last);
    SubmitAllSnoc(s, inputs);
  }

  /** Submitting a list is submitting all but its last input, then the last one. */
  lemma SubmitAllSnoc(s: State, inputs: seq<string>)
    requires |inputs| > 0
    ensures var n := |inputs| - 1;
      SubmitAll(s, inputs) == SubmitAll(SubmitAll(s, inputs[..n]), [inputs[n]])
  {
    var n := |inputs| - 1;
    assert inputs == inputs[..n] + [inputs[n]];
    SubmitAllConcat(s, inputs[..n], [inputs[n]]);
  }

  /** Once the last question has been reached, a further normal submission re-answers it:
      it overwrites `additional`, appends another closing message and stays on that question. */
  lemma SubmitAfterLastReanswersIt(s: State)
    requires Valid(s) && EditTarget(s) == None && Trim(s.input) != ""
    requires s.index == |Questions| - 1
    ensures var r := Submit(s);
      && r.responses == s.responses["additional" := Trim(s.input)]
      && r.messages == s.messages + [Message(User, Trim(s.input), Some("additional")), Message(Assistant, ClosingText, None)]
      && r.index == s.index && r.isComplete
  {
    TrimSpec(s.input);
    var r := Submit(s);
    assert r.messages == r.messages[..|s.messages|] + [r.messages[|s.messages|], r.messages[|s.messages| + 1]];
  }

  /** Editing a question and submitting what the edit pre-filled (its stored answer) leaves
      the answers as they were, leaves edit mode, keeps the transcript length the edit left,
      and keeps the flow on that question. */
  lemma EditAndResubmitKeepsAnswers(s: State, i: nat)
    requires Valid(s) && i < |Questions| && Questions[i].id in s.responses
    ensures var e := Edit(s, Questions[i].id, s.responses[Questions[i].id]);
      var r := Submit(e);
      && r.responses == s.responses
      && |r.messages| == |e.messages|
      && r.index == i && r.isComplete == s.isComplete && r.editing == None && r.input == ""
  {
    var id := Questions[i].id;
    var v := s.responses[id];
    FindIndexOfCatalogId(i);
    IdNonEmpty(i);
    TrimOfTrimmed(v);
    var e := Edit(s, id, v);
    assert e.index == i && e.input == v && e.responses == s.responses;
    assert EditTarget(e) == Some(id) && Trim(e.input) != "";
    SubmitInEditMode(e, id);
    RestoreSameAnswer(s.responses, id);
  }

  /** Storing the answer a key already holds leaves the answers as they were. */
  lemma RestoreSameAnswer(responses: map<string, string>, id: string)
    requires id in responses
    ensures responses[id := responses[id]] == responses
  {
  }

  /** In edit mode, a non-blank submission takes the edit branch. */
  lemma SubmitInEditMode(e: State, id: string)
    requires EditTarget(e) == Some(id) && Trim(e.input) != ""
    ensures Submit(e) == SubmitEdit(e, id, Trim(e.input))
  {
    TrimSpec(e.input);
  }

  /** Edit then submit stores the trimmed text under the edited question, rewrites only its
      user entries, keeps the completion flag, and takes that question off the pending list. */
  lemma EditThenSubmit(s: State, i: nat, text: string)
    requires Valid(s) && i < |Questions| && Trim(text) != ""
    ensures var e := Edit(s, Questions[i].id, text);
      var r := Submit(e);
      && r.responses == s.responses[Questions[i].id := Trim(text)]
      && |r.messages| == |e.messages|
      && r.index == i && r.isComplete == s.isComplete && r.editing == None
      && Valid(r)
      && (forall k :: k in Pending(r.responses) <==> k in Pending(s.responses) && k != i)
  {
    var id := Questions[i].id;
    FindIndexOfCatalogId(i);
    IdNonEmpty(i);
    var e := Edit(s, id, text);
    assert e.index == i && e.input == text && e.responses == s.responses;
    SubmitInEditMode(e, id);
    TrimSpec(text);
    StoringLeavesPending(s.responses, i, Trim(text));
  }

  /** Editing the same question twice in a row is the same as editing it once: at most one
      prompt for it is ever appended. */
  lemma EditTwiceIsEditOnce(s: State, questionId: string, value: string)
    ensures Edit(Edit(s, questionId, value), questionId, value) == Edit(s, questionId, value)
  {
  }

  /** An edit target of "" is falsy: the following submission takes the normal flow. */
  lemma EmptyEditTargetIsNormalFlow(s: State, value: string)
    requires Valid(s) && Trim(value) != ""
    ensures var e := Edit(s, "", value);
      Submit(e) == SubmitAnswer(e, Trim(value))
  {
    TrimSpec(value);
  }

  /** Reset reaches the same state from anywhere, applying it twice is applying it once, and
      it re-opens every required question. */
  lemma ResetIsIdempotent(s: State, t: State)
    requires s.focus == t.focus && s.language == t.language && s.reviewMode == t.reviewMode
    ensures Reset(Reset(s)) == Reset(s) == Reset(t)
    ensures Pending(Reset(s).responses) == [0, 1, 2, 3, 4, 5]
  {
    NothingAnsweredAllPending();
  }

  /** Reset matches the opening state except for the greeting text and the preferences,
      which it keeps: its first entry differs from the opening greeting. */
  lemma ResetVersusInitial(s: State)
    ensures Reset(s) == Initial().(messages := Reset(s).messages, focus := s.focus, language := s.language,
                                   reviewMode := s.reviewMode)
    ensures Reset(s).messages[1] == Initial().messages[1]
    ensures Reset(s).messages[0] != Initial().messages[0]
  {
    assert |RestartText| != |IntroText|;
  }

  /** After a reset the preview shows only the preamble and the instruction block. */
  lemma ResetPreview(s: State)
    ensures Preview(Reset(s)) == Preamble + "\n\n" + Instructions(s.focus, s.language, s.reviewMode.id) + "\n"
  {
    EmptyAnswersPrompt(s.focus, s.language, s.reviewMode);
  }

  /** Clicking the same suggestion chip twice is clicking it once. */
  lemma SuggestionIdempotent(prev: string, value: string)
    ensures AppendSuggestion(AppendSuggestion(prev, value), value) == AppendSuggestion(prev, value)
  {
    var once := AppendSuggestion(prev, value);
    if |once| == 0 {
      assert value == "";
    }
  }

  /** Toggling a tag that is not selected, twice, restores the list exactly; toggling a
      selected tag twice moves it to the end. */
  lemma ToggleTwice(xs: seq<string>, v: string)
    ensures v !in xs ==> Toggle(Toggle(xs, v), v) == xs
    ensures v in xs ==> Toggle(Toggle(xs, v), v) == Without(xs, v) + [v]
  {
  }

  /** Copying reports in the transcript but does not change the preview. */
  lemma CopyKeepsPreview(s: State, copied: bool)
    ensures Preview(CopyPrompt(s, copied)) == Preview(s)
  {
  }

  /** Any transition that leaves the answers and preferences alone leaves the preview alone;
      in particular editing, typing and suggestion chips never change it. */
  lemma InputSideHandlersKeepPreview(s: State, questionId: string, value: string)
    ensures Preview(Edit(s, questionId, value)) == Preview(s)
    ensures Preview(Suggest(s, value)) == Preview(s)
    ensures Preview(SetInput(s, value)) == Preview(s)
  {
  }
}
