/** The Bootstrap validation classes a form control carries. */
module FieldMarks {

  /** Whether the control has 'is-valid' and whether it has 'is-invalid'. */
  datatype Classes = Classes(valid: bool, invalid: bool)

  const Unmarked := Classes(false, false)
  const MarkedValid := Classes(true, false)
  const MarkedInvalid := Classes(false, true)
}
