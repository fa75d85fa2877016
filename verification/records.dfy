/** Records that travel between the question generator, the evaluator, the adapter and the store. */
module Records {

  /** A probe question with its ground-truth answer, as the question generator returns it. */
  datatype QaPair = QaPair(question: string, answer: string)

  /**
   * One evaluated question: the `result_item` of the evaluator, whose failing
   * instances are the `failed_qa` list handed to the adapter and the store.
   * `similarity` is the scorer's value before `round(similarity, 4)`.
   */
  datatype EvalRecord = EvalRecord(
    question: string,
    trueAnswer: string,
    retrievedAnswer: string,
    similarity: real,
    isPass: bool)
}
