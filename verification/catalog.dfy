/** The page's static data: the question catalog (QUESTIONS), the review modes
    (REVIEW_MODES) and the lookups the handlers perform on them. */
module Catalog {

  /** One catalog entry. Helper text, placeholder and suggestion chips are display-only and
      are not carried. */
  datatype Question = Question(id: string, title: string, prompt: string, optional: bool)

  /** QUESTIONS, in traversal order; only the last one is optional. */
  const Questions: seq<Question> := [
    Question("objective", "Objetivo",
      "Qual é o objetivo principal do prompt? Explique o que você espera que o assistente faça.", false),
    Question("context", "Contexto-chave",
      "Quais informações de contexto o assistente precisa saber para trabalhar bem?", false),
    Question("audience", "Público",
      "Quem é o público-alvo ou destinatário final do resultado? Conte características relevantes.", false),
    Question("tone", "Tom e Estilo",
      "Qual tom, estilo ou voz o assistente deve adotar? Existem referências ou modelos desejados?", false),
    Question("constraints", "Restrições",
      "Quais requisitos, limitações ou entregáveis obrigatórios precisam entrar no prompt?", false),
    Question("format", "Formato da Resposta",
      "Como você quer receber a resposta final? Estrutura, seções, tabela, checklist, passos numerados?", false),
    Question("additional", "Detalhes Extras",
      "Existe algum detalhe adicional, referência inspiradora ou resultado anterior que devemos considerar?", true)
  ]

  /** The catalog's ids are pairwise distinct and only the last question is optional. */
  lemma CatalogShape()
    ensures |Questions| == 7
    ensures forall i, j | 0 <= i < j < |Questions| :: Questions[i].id != Questions[j].id
    ensures forall i | 0 <= i < |Questions| :: Questions[i].optional <==> i == |Questions| - 1
  {
  }

  /** Only the last question is optional. */
  lemma OnlyLastOptional(k: nat)
    requires k < |Questions|
    ensures Questions[k].optional <==> k == |Questions| - 1
  {
    CatalogShape();
  }

  /** Two catalog positions hold the same id only if they are the same position. */
  lemma IdsDistinct(i: nat, k: nat)
    requires i < |Questions| && k < |Questions|
    ensures Questions[i].id == Questions[k].id <==> i == k
  {
    FindIndexOfCatalogId(i);
    FindIndexOfCatalogId(k);
  }

  /** Every catalog id is a non-empty string, so it is truthy as an edit target. */
  lemma IdNonEmpty(k: nat)
    requires k < |Questions|
    ensures Questions[k].id != ""
  {
  }

  /** JavaScript truthiness of `responses[id]`: the key is present and its string is non-empty. */
  predicate Answered(responses: map<string, string>, id: string) {
    id in responses && responses[id] != ""
  }

  /** QUESTIONS.findIndex(q => q.id === id), starting the search at `from`. */
  function FindIndexFrom(id: string, from: nat): (r: int)
    requires from <= |Questions|
    ensures r == -1 || from <= r < |Questions|
    ensures r == -1 <==> forall i | from <= i < |Questions| :: Questions[i].id != id
    ensures r >= 0 ==> Questions[r].id == id && forall i | from <= i < r :: Questions[i].id != id
    decreases |Questions| - from
  {
    if from == |Questions| then -1
    else if Questions[from].id == id then from
    else FindIndexFrom(id, from + 1)
  }

  /** QUESTIONS.findIndex(q => q.id === id): the position of the first question with that id,
      or -1 when there is none. */
  function FindIndex(id: string): (r: int)
    ensures -1 <= r < |Questions|
    ensures r == -1 <==> forall i | 0 <= i < |Questions| :: Questions[i].id != id
    ensures r >= 0 ==> Questions[r].id == id
  {
    FindIndexFrom(id, 0)
  }

  /** Looking up the id of a catalog entry finds that very entry. */
  lemma {:induction false} FindIndexOfCatalogId(i: nat)
    requires i < |Questions|
    ensures FindIndex(Questions[i].id) == i
  {
    CatalogShape();
  }

  /** A review mode; `name` is the label the selector displays. */
  datatype ReviewMode = ReviewMode(id: string, name: string, description: string)

  /** REVIEW_MODES; the first one is the default selection. */
  const ReviewModes: seq<ReviewMode> := [
    ReviewMode("structured", "Resumo Estruturado",
      "Organiza a resposta em seções nomeadas para fácil leitura."),
    ReviewMode("mentor", "Mentoria",
      "Simula um mentor experiente explicando as escolhas e próximos passos."),
    ReviewMode("critical", "Crítico",
      "Destaca pontos falhos ou riscos antes de entregar a resposta final.")
  ]

  /** The review-mode select handler: REVIEW_MODES.find(mode => mode.id === value) ?? REVIEW_MODES[0]. */
  function SelectReviewMode(value: string): (r: ReviewMode)
    ensures r in ReviewModes
    ensures (exists m | m in ReviewModes :: m.id == value) ==> r.id == value
    ensures (forall m | m in ReviewModes :: m.id != value) ==> r == ReviewModes[0]
  {
    if ReviewModes[0].id == value then ReviewModes[0]
    else if ReviewModes[1].id == value then ReviewModes[1]
    else if ReviewModes[2].id == value then ReviewModes[2]
    else ReviewModes[0]
  }

  /** Selecting a listed mode by its id yields that mode. */
  lemma SelectReviewModeRoundTrip(m: ReviewMode)
    requires m in ReviewModes
    ensures SelectReviewMode(m.id) == m
  {
  }

  /** The language whose instruction has a shorthand; also the initial selection. */
  const DefaultLanguage: string := "Português"

  /** The focus tags selected when the page opens. */
  const InitialFocus: seq<string> := ["Clareza", "Profundidade"]
}
