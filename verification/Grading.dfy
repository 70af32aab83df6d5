/** When a submission is correct. */
module Grading {
  import opened Json
  import opened Options

  /** Compares a perceptual-hash flag with a submitted capture. */
  type Grader = (Bytes, Bytes) -> bool

  predicate IsPhashFlag(flag: Bytes) {
    |flag| > 6 && flag[..6] == "phash$"
  }

  /** One flag's verdict: a perceptual flag asks the comparison of captures, any other must be met exactly. */
  predicate FlagAccepts(flag: Bytes, submitted: Bytes, grade: Option<Grader>) {
    if IsPhashFlag(flag) then grade.Some? && grade.value(flag, submitted) else flag == submitted
  }

  /** Any accepting flag will do. */
  predicate Accepts(flags: seq<Bytes>, submitted: Bytes, grade: Option<Grader>) {
    exists i | 0 <= i < |flags| :: FlagAccepts(flags[i], submitted, grade)
  }
}
