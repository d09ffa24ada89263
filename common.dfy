/** Small value types shared by every module of the model. */
module Common {

  /** Python's `None` or a value. */
  datatype Option<+T> = None | Some(value: T)

  /** A similarity score as `difflib.SequenceMatcher.ratio()` returns it: a number in [0, 1]. */
  type Ratio = r: real | 0.0 <= r <= 1.0

  /**
   * The string-similarity measure, treated as an uninterpreted function into [0, 1].
   * Every member that compares strings by similarity takes it as a parameter.
   */
  type Similarity = (string, string) -> Ratio
}
