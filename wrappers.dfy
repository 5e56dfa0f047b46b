/** Stock optional-value datatype shared by the other modules. */
module Wrappers {

  /** `None` stands for a Python lookup or parse that raises and is caught or would abort. */
  datatype Option<+T> = None | Some(value: T)
}
