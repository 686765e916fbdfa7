/**
 The question form: a session starts only for a question that is not
 blank, and the question is handed on exactly as typed.
 */
module Intro {
  import opened Types
  import opened Text

  /** `!question.trim()`: nothing but whitespace was typed. */
  predicate Blank(question: string) {
    Trim(question) == ""
  }

  /** The submit handler: `Some(q)` is the question passed to the start
      callback, `None` means the submission is ignored. */
  function Submit(question: string): (r: Option<string>)
    ensures r.None? <==> AllWhitespace(question)
    ensures r.Some? ==> r.value == question
  {
    TrimEmptyIffAllWhitespace(question);
    if Blank(question) then None else Some(question)
  }

  /** The submit button is disabled for a blank question. */
  function SubmitDisabled(question: string): (disabled: bool)
    ensures disabled <==> AllWhitespace(question)
  {
    TrimEmptyIffAllWhitespace(question);
    Blank(question)
  }

  /** The button is disabled exactly when submitting would be ignored; the
      empty question and a whitespace-only question are both refused. */
  lemma DisabledIffIgnored(question: string)
    ensures SubmitDisabled(question) <==> Submit(question).None?
    ensures Submit("").None?
    ensures |question| > 0 && AllWhitespace(question) ==> Submit(question).None?
  {
  }
}
