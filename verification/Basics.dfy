/** Types shared by several components. */
module Basics {
  datatype Option<+T> = None | Some(value: T)

  /** The five severities the program defines, and any other text a caller may supply. */
  datatype Severity = Info | Low | Medium | High | Critical | Unrecognized(text: string)
}
