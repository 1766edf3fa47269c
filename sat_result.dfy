/** The answer of an `ISolver` satisfiability query (`SatResult` in the solver interface). */
module SatResults {
  datatype SatResult = TRUE | FALSE | TIMEOUT
}
