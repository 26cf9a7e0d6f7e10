/** buildPrompt: the pure renderer that turns the answers and the rendering preferences
    into the engineered prompt text shown in the preview. */
module Prompt {
  import opened Text
  import opened Catalog

  /** The fixed role-priming paragraph every prompt opens with. */
  const Preamble: string :=
    "Você é um assistente estratégico especializado em engenharia de prompts. Utilize as informações abaixo para produzir a melhor solicitação possível para um modelo de linguagem avançado."

  /** The answer keys the renderer reads, in the order it emits their sections. */
  const SectionKeys: seq<string> :=
    ["objective", "context", "audience", "tone", "constraints", "format", "additional"]

  /** The heading of each section, aligned with SectionKeys. */
  const SectionTitles: seq<string> := [
    "Objetivo Principal", "Contexto Relevante", "Público-Alvo", "Preferência de Tom/Estilo",
    "Restrições e Requisitos", "Formato Esperado da Resposta", "Informações Adicionais"
  ]

  const BalanceLine: string := "Priorize equilíbrio entre qualidade, clareza e concisão."
  const PortugueseLine: string := "Responda em português brasileiro claro."
  const StructuredLine: string :=
    "Antes de responder, estruture a análise em seções com títulos claros."
  const MentorLine: string :=
    "Adote a postura de um mentor experiente, explique brevemente as escolhas e sugira próximos passos práticos."
  const CriticalLine: string :=
    "Atue de forma crítica: destaque riscos, lacunas de informação e valide se as restrições foram atendidas antes de apresentar a solução final."
  const ClarifyLine: string :=
    "Se faltarem dados importantes, formule perguntas específicas antes de finalizar."
  const ChecklistLine: string :=
    "Quando entregar o resultado, inclua um breve checklist de validação com os itens atendidos."

  /** The renderer's hard-coded keys are exactly the catalog's ids, in catalog order. */
  lemma SectionKeysFollowCatalog()
    ensures |SectionKeys| == |Questions| == |SectionTitles|
    ensures forall k | 0 <= k < |SectionKeys| :: SectionKeys[k] == Questions[k].id
  {
  }

  predicate Increasing(xs: seq<nat>) {
    forall i, j | 0 <= i < j < |xs| :: xs[i] < xs[j]
  }

  /** The positions k >= `from` whose key holds a truthy answer, ascending. */
  function AnsweredFrom(responses: map<string, string>, from: nat): (r: seq<nat>)
    requires from <= |SectionKeys|
    ensures Increasing(r)
    ensures forall j | 0 <= j < |r| :: from <= r[j] < |SectionKeys| && Answered(responses, SectionKeys[r[j]])
    ensures forall k | from <= k < |SectionKeys| && Answered(responses, SectionKeys[k]) :: k in r
    decreases |SectionKeys| - from
  {
    if from == |SectionKeys| then []
    else if Answered(responses, SectionKeys[from]) then [from] + AnsweredFrom(responses, from + 1)
    else AnsweredFrom(responses, from + 1)
  }

  /** One labelled section: its heading, a colon and line break, then the trimmed answer. */
  function SectionText(responses: map<string, string>, k: nat): string
    requires k < |SectionKeys| && Answered(responses, SectionKeys[k])
  {
    SectionTitles[k] + ":\n" + Trim(responses[SectionKeys[k]])
  }

  /** The `sections` array from position `from` on: one entry per answered key, in key order. */
  function SectionsFrom(responses: map<string, string>, from: nat): (r: seq<string>)
    requires from <= |SectionKeys|
    ensures |r| == |AnsweredFrom(responses, from)|
    ensures forall j | 0 <= j < |r| :: r[j] == SectionText(responses, AnsweredFrom(responses, from)[j])
    decreases |SectionKeys| - from
  {
    if from == |SectionKeys| then []
    else if Answered(responses, SectionKeys[from]) then
      var rest := SectionsFrom(responses, from + 1);
      assert AnsweredFrom(responses, from) == [from] + AnsweredFrom(responses, from + 1);
      [SectionText(responses, from)] + rest
    else
      SectionsFrom(responses, from + 1)
  }

  function Sections(responses: map<string, string>): seq<string> {
    SectionsFrom(responses, 0)
  }

  /** Two ascending sequences with the same elements are equal. */
  lemma {:induction false} IncreasingUnique(a: seq<nat>, b: seq<nat>)
    requires Increasing(a) && Increasing(b)
    requires forall x :: x in a <==> x in b
    ensures a == b
  {
    if |a| > 0 {
      assert a[0] in b;
    }
    if |b| > 0 {
      assert b[0] in a;
    }
    if |a| > 0 {
      assert a[0] == b[0];
      forall x ensures x in a[1..] <==> x in b[1..] {
        if x in a[1..] {
          assert x in a && x > a[0];
        }
        if x in b[1..] {
          assert x in b && x > b[0];
        }
      }
      IncreasingUnique(a[1..], b[1..]);
      assert a == [a[0]] + a[1..] && b == [b[0]] + b[1..];
    }
  }

  /** The rendered sections are, in ascending key order, exactly one per key whose answer is
      truthy, each carrying its fixed heading and the trimmed answer. */
  lemma SectionsInCatalogOrder(responses: map<string, string>, keys: seq<nat>)
    requires Increasing(keys)
    requires forall k :: k in keys <==> 0 <= k < |SectionKeys| && Answered(responses, SectionKeys[k])
    ensures |Sections(responses)| == |keys|
    ensures forall j | 0 <= j < |keys| ::
      keys[j] < |SectionKeys| &&
      Sections(responses)[j] == SectionTitles[keys[j]] + ":\n" + Trim(responses[SectionKeys[keys[j]]])
  {
    var present := AnsweredFrom(responses, 0);
    forall x ensures x in present <==> x in keys {
      if x in present {
        var j :| 0 <= j < |present| && present[j] == x;
      }
    }
    IncreasingUnique(present, keys);
  }

  /** Every section is non-empty: it carries at least its heading. */
  lemma SectionsNonEmpty(responses: map<string, string>)
    ensures forall j | 0 <= j < |Sections(responses)| :: Sections(responses)[j] != ""
  {
    var secs := Sections(responses);
    forall j | 0 <= j < |secs| ensures secs[j] != "" {
      assert |secs[j]| >= 2;
    }
  }

  /** Two answer maps that agree on the seven keys the renderer reads. */
  predicate SameOnSectionKeys(r1: map<string, string>, r2: map<string, string>) {
    forall k | 0 <= k < |SectionKeys| ::
      Answered(r1, SectionKeys[k]) == Answered(r2, SectionKeys[k]) &&
      (Answered(r1, SectionKeys[k]) ==> r1[SectionKeys[k]] == r2[SectionKeys[k]])
  }

  lemma {:induction false} SectionsFromAgree(r1: map<string, string>, r2: map<string, string>, from: nat)
    requires from <= |SectionKeys|
    requires SameOnSectionKeys(r1, r2)
    ensures SectionsFrom(r1, from) == SectionsFrom(r2, from)
    decreases |SectionKeys| - from
  {
    if from < |SectionKeys| {
      SectionsFromAgree(r1, r2, from + 1);
    }
  }

  /** `focusLine`: the comma-joined focus tags, or the balance sentence when there are none. */
  function FocusLine(focus: seq<string>): string {
    if |focus| > 0 then "Priorize: " + Join(focus, ", ") + "." else BalanceLine
  }

  /** `languageInstruction`: a shorthand for Portuguese, an explicit instruction otherwise. */
  function LanguageLine(language: string): string {
    if language == DefaultLanguage then PortugueseLine else "Produza a resposta em " + language + "."
  }

  /** `reviewInstruction`: any id other than "structured" and "mentor" gets the critical template. */
  function ReviewLine(id: string): string {
    if id == "structured" then StructuredLine
    else if id == "mentor" then MentorLine
    else CriticalLine
  }

  /** `finalInstructions.join(" ")`. */
  function Instructions(focus: seq<string>, language: string, reviewId: string): string {
    Join([FocusLine(focus), LanguageLine(language), ReviewLine(reviewId), ClarifyLine, ChecklistLine], " ")
  }

  /** `.filter(Boolean)` on strings: keeps the non-empty ones, in order. */
  function NonEmptyBlocks(xs: seq<string>): (r: seq<string>)
    ensures |r| <= |xs|
    ensures forall j | 0 <= j < |r| :: r[j] != "" && r[j] in xs
    ensures forall x :: x in r <==> x in xs && x != ""
  {
    if |xs| == 0 then []
    else if xs[0] != "" then [xs[0]] + NonEmptyBlocks(xs[1..])
    else NonEmptyBlocks(xs[1..])
  }

  /** Filtering out empty blocks distributes over concatenation: the kept blocks of two
      lists, in order, are the kept blocks of each list, one after the other. */
  lemma {:induction false} NonEmptyBlocksConcat(a: seq<string>, b: seq<string>)
    ensures NonEmptyBlocks(a + b) == NonEmptyBlocks(a) + NonEmptyBlocks(b)
  {
    if |a| > 0 {
      assert (a + b)[0] == a[0];
      assert (a + b)[1..] == a[1..] + b;
      NonEmptyBlocksConcat(a[1..], b);
    } else {
      assert a + b == b;
    }
  }

  /** buildPrompt: preamble, sections block and instruction block, dropping empty blocks, joined
      by blank lines, with one trailing newline. */
  function BuildPrompt(responses: map<string, string>, focus: seq<string>, language: string,
                       reviewMode: ReviewMode): (r: string)
    ensures StartsWith(r, Preamble + "\n\n")
    ensures EndsWith(r, ".\n")
  {
    var blocks := [Preamble, Join(Sections(responses), "\n\n"), Instructions(focus, language, reviewMode.id)];
    var joined := Join(NonEmptyBlocks(blocks), "\n\n");
    BuildPromptLayout(responses, focus, language, reviewMode);
    PromptFraming(joined, responses, focus, language, reviewMode.id);
    joined + "\n"
  }

  /** The instruction block is the five sentences, separated by single spaces, in the order
      focus, language, review, clarifying questions, checklist. */
  lemma InstructionBlock(focus: seq<string>, language: string, reviewId: string)
    ensures Instructions(focus, language, reviewId) ==
      FocusLine(focus) + " " + LanguageLine(language) + " " + ReviewLine(reviewId) + " " + ClarifyLine + " " + ChecklistLine
  {
    Join5(FocusLine(focus), LanguageLine(language), ReviewLine(reviewId), ClarifyLine, ChecklistLine, " ");
  }

  /** The shorthand language sentence is produced for Portuguese and for nothing else. */
  lemma LanguageLineChoice(language: string)
    ensures LanguageLine(language) == PortugueseLine <==> language == DefaultLanguage
  {
    if language != DefaultLanguage {
      assert LanguageLine(language)[0] == 'P';
      assert PortugueseLine[0] == 'R';
    }
  }

  /** The three review templates are distinct, and each is chosen by exactly the ids that
      select it: "structured", "mentor", and every other id for the critical one. */
  lemma ReviewLineChoice(reviewId: string)
    ensures ReviewLine(reviewId) == StructuredLine <==> reviewId == "structured"
    ensures ReviewLine(reviewId) == MentorLine <==> reviewId == "mentor"
    ensures ReviewLine(reviewId) == CriticalLine <==> reviewId != "structured" && reviewId != "mentor"
  {
    assert |StructuredLine| != |MentorLine| && |MentorLine| != |CriticalLine| && |StructuredLine| != |CriticalLine|;
  }

  lemma InstructionsNonEmpty(focus: seq<string>, language: string, reviewId: string)
    ensures |Instructions(focus, language, reviewId)| > 0
    ensures Instructions(focus, language, reviewId)[|Instructions(focus, language, reviewId)| - 1] == '.'
  {
    InstructionBlock(focus, language, reviewId);
    var i := Instructions(focus, language, reviewId);
    assert EndsWith(i, ChecklistLine);
    assert ChecklistLine[|ChecklistLine| - 1] == '.';
  }

  /** filter(Boolean).join on the three blocks, when only the middle one can be empty. */
  lemma BlocksLayout(head: string, sections: seq<string>, tail: string)
    requires head != "" && tail != ""
    requires forall j | 0 <= j < |sections| :: sections[j] != ""
    ensures |sections| == 0 ==>
      Join(NonEmptyBlocks([head, Join(sections, "\n\n"), tail]), "\n\n") == head + "\n\n" + tail
    ensures |sections| > 0 ==>
      Join(NonEmptyBlocks([head, Join(sections, "\n\n"), tail]), "\n\n") == head + "\n\n" + Join(sections, "\n\n") + "\n\n" + tail
  {
    var joined := Join(sections, "\n\n");
    JoinIsEmpty(sections, "\n\n");
    assert joined == "" <==> |sections| == 0;
    NonEmptyBlocks3(head, joined, tail);
    if joined == "" {
      Join2(head, tail, "\n\n");
    } else {
      Join3(head, joined, tail, "\n\n");
    }
  }

  lemma NonEmptyBlocks3(a: string, b: string, c: string)
    requires a != "" && c != ""
    ensures NonEmptyBlocks([a, b, c]) == if b == "" then [a, c] else [a, b, c]
  {
    assert [c][1..] == [];
    assert NonEmptyBlocks([c]) == [c];
    assert [b, c][1..] == [c];
    assert NonEmptyBlocks([b, c]) == if b == "" then [c] else [b, c];
    assert [a, b, c][1..] == [b, c];
  }

  lemma Join2(a: string, b: string, sep: string)
    ensures Join([a, b], sep) == a + sep + b
  {
    assert [a, b][1..] == [b];
  }

  lemma Join3(a: string, b: string, c: string, sep: string)
    ensures Join([a, b, c], sep) == a + sep + b + sep + c
  {
    assert [a, b, c][1..] == [b, c];
    Join2(b, c, sep);
  }

  /** The whole prompt: the preamble and a blank line, then the joined sections and another
      blank line only when some section exists, then the instruction block and exactly one
      newline. */
  lemma BuildPromptLayout(responses: map<string, string>, focus: seq<string>, language: string, reviewMode: ReviewMode)
    ensures var blocks := [Preamble, Join(Sections(responses), "\n\n"), Instructions(focus, language, reviewMode.id)];
      Join(NonEmptyBlocks(blocks), "\n\n") ==
        if |Sections(responses)| == 0 then Preamble + "\n\n" + Instructions(focus, language, reviewMode.id)
        else Preamble + "\n\n" + Join(Sections(responses), "\n\n") + "\n\n" + Instructions(focus, language, reviewMode.id)
  {
    InstructionsNonEmpty(focus, language, reviewMode.id);
    SectionsNonEmpty(responses);
    assert |Preamble| > 0;
    BlocksLayout(Preamble, Sections(responses), Instructions(focus, language, reviewMode.id));
  }

  /** A prompt opens with the preamble and a blank line and closes with the instruction
      block's final period and one newline. */
  lemma PromptFraming(joined: string, responses: map<string, string>, focus: seq<string>, language: string, reviewId: string)
    requires |Sections(responses)| == 0 ==> joined == Preamble + "\n\n" + Instructions(focus, language, reviewId)
    requires |Sections(responses)| > 0 ==>
      joined == Preamble + "\n\n" + Join(Sections(responses), "\n\n") + "\n\n" + Instructions(focus, language, reviewId)
    ensures StartsWith(joined + "\n", Preamble + "\n\n") && EndsWith(joined + "\n", ".\n")
  {
    var head := Preamble + "\n\n";
    var i := Instructions(focus, language, reviewId);
    InstructionsNonEmpty(focus, language, reviewId);
    StartsWithConcat(head, "");
    assert head + "" == head;
    if |Sections(responses)| == 0 {
      FramedByPrefix(head, head, i);
    } else {
      var j := Join(Sections(responses), "\n\n");
      StartsWithExtend(head, head, j);
      StartsWithExtend(head + j, head, "\n\n");
      FramedByPrefix(head + j + "\n\n", head, i);
    }
  }

  /** A text that starts with `head` and ends with a sentence keeps that frame once the
      trailing newline is added. */
  lemma FramedByPrefix(p: string, head: string, i: string)
    requires StartsWith(p, head)
    requires |i| > 0 && i[|i| - 1] == '.'
    ensures StartsWith(p + i + "\n", head) && EndsWith(p + i + "\n", ".\n")
  {
    StartsWithExtend(p, head, i);
    StartsWithExtend(p + i, head, "\n");
    var r := p + i + "\n";
    assert r[|r| - 1] == '\n' && r[|r| - 2] == i[|i| - 1];
    assert r[|r| - 2..] == ".\n";
  }

  /** The rendered prompt in full: the preamble, the sections joined by blank lines when there
      are any, the instruction block, each pair of blocks separated by one blank line, and a
      single trailing newline. */
  lemma PromptText(responses: map<string, string>, focus: seq<string>, language: string, reviewMode: ReviewMode)
    ensures var i := Instructions(focus, language, reviewMode.id);
      BuildPrompt(responses, focus, language, reviewMode) ==
        if |Sections(responses)| == 0 then Preamble + "\n\n" + i + "\n"
        else Preamble + "\n\n" + Join(Sections(responses), "\n\n") + "\n\n" + i + "\n"
  {
    BuildPromptLayout(responses, focus, language, reviewMode);
  }

  /** With no answers the prompt is the preamble and the instruction block, with no empty
      section block between them. */
  lemma EmptyAnswersPrompt(focus: seq<string>, language: string, reviewMode: ReviewMode)
    ensures BuildPrompt(map[], focus, language, reviewMode) ==
      Preamble + "\n\n" + Instructions(focus, language, reviewMode.id) + "\n"
  {
    BuildPromptLayout(map[], focus, language, reviewMode);
    assert AnsweredFrom(map[], 0) == [];
  }

  /** The renderer reads only the seven section keys: any other entries leave it unchanged. */
  lemma BuildPromptReadsOnlySectionKeys(r1: map<string, string>, r2: map<string, string>,
                                         focus: seq<string>, language: string, reviewMode: ReviewMode)
    requires SameOnSectionKeys(r1, r2)
    ensures BuildPrompt(r1, focus, language, reviewMode) == BuildPrompt(r2, focus, language, reviewMode)
  {
    SectionsFromAgree(r1, r2, 0);
  }

  /** Storing an answer under a key outside the seven does not change the prompt. */
  lemma OtherKeysIgnored(responses: map<string, string>, key: string, value: string,
                         focus: seq<string>, language: string, reviewMode: ReviewMode)
    requires key !in SectionKeys
    ensures BuildPrompt(responses[key := value], focus, language, reviewMode) ==
            BuildPrompt(responses, focus, language, reviewMode)
  {
    BuildPromptReadsOnlySectionKeys(responses[key := value], responses, focus, language, reviewMode);
  }

  /** One focus tag, the default language and the structured mode give exactly the focus
      sentence for that tag, the shorthand language sentence and the structured template, in
      that order, followed by the two fixed sentences. */
  lemma SingleFocusStructuredInstructions()
    ensures Instructions(["Clareza"], DefaultLanguage, "structured") ==
      "Priorize: Clareza." + " " + PortugueseLine + " " + StructuredLine + " " + ClarifyLine + " " + ChecklistLine
  {
    InstructionBlock(["Clareza"], DefaultLanguage, "structured");
    assert FocusLine(["Clareza"]) == "Priorize: Clareza.";
  }

  /** An unknown review id is rendered with the critical template, while the select handler
      would have replaced the same id by the structured default. */
  lemma UnknownReviewId(id: string)
    requires forall m | m in ReviewModes :: m.id != id
    ensures ReviewLine(id) == CriticalLine
    ensures ReviewLine(SelectReviewMode(id).id) == StructuredLine
  {
    assert ReviewModes[0] in ReviewModes && ReviewModes[1] in ReviewModes && ReviewModes[2] in ReviewModes;
  }
}
