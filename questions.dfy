/** The question record shared by the backend and the two frontend pages. */
module Questions {

  /** A question: its id, where it came from, the prompt shown, the input
      method ("Text" or "Blocks"), the grammar of the answer, the answer
      itself and the formula an answer may not be (or ""). */
  datatype Question = Question(id: string, source: string, prompt: string, inputMethod: string,
                               correctGrammar: string, correctFormula: string, prohibitedFormula: string)
}
