/**
  The question record of the quiz and its four labelled alternatives.

  A question is one row of a question bank: an identifier, a display number,
  the prompt, four alternative texts labelled "a" to "d", the citation of the
  exam it comes from, and the answer key ("gabarito").
 */
module Questions {

  import opened Wrappers

  datatype Question = Question(
    id: int,
    numero: int,
    enunciado: string,
    alternativaA: string,
    alternativaB: string,
    alternativaC: string,
    alternativaD: string,
    fonte: string,
    gabarito: string)

  /** The labels under which the alternatives are offered, in display order. */
  const Letters: seq<string> := ["a", "b", "c", "d"]

  /** A question whose answer key names one of its alternatives. */
  predicate WellFormed(q: Question) {
    q.gabarito in Letters
  }

  /** The alternative texts keyed by their label. */
  function Alternatives(q: Question): (m: map<string, string>)
    ensures m.Keys == set l | l in Letters
    ensures m["a"] == q.alternativaA && m["b"] == q.alternativaB
    ensures m["c"] == q.alternativaC && m["d"] == q.alternativaD
  {
    map["a" := q.alternativaA, "b" := q.alternativaB, "c" := q.alternativaC, "d" := q.alternativaD]
  }

  /** The text shown for `letter`, when the question has an alternative with that label. */
  function AlternativeText(q: Question, letter: string): (t: Option<string>)
    ensures t.Some? <==> letter in Letters
    ensures letter == "a" ==> t == Some(q.alternativaA)
    ensures letter == "b" ==> t == Some(q.alternativaB)
    ensures letter == "c" ==> t == Some(q.alternativaC)
    ensures letter == "d" ==> t == Some(q.alternativaD)
  {
    var alts := Alternatives(q);
    if letter in alts then Some(alts[letter]) else None
  }

  /**
    The answer key of a well-formed question always has a text, so the
    results screen can show the correct alternative of every log entry.
   */
  lemma KeyHasText(q: Question)
    requires WellFormed(q)
    ensures AlternativeText(q, q.gabarito) == Some(Alternatives(q)[q.gabarito])
  {
  }
}
