/**
 * The structured validation failure every Go constructor reports
 * (model/customerror/fielderror.go), and the (value, error) pair those
 * constructors return.
 */
module FieldErrors {
  import opened Wrappers

  /**
   * The invalid field, the model that owns it and, where the constructor
   * supplies one, a human-readable explanation ("" where it supplies none).
   */
  datatype FieldError = FieldError(field: string, model: string, explanation: string)

  /**
   * A Go constructor's two results: the value it built, which is returned
   * even when validation fails, and the first validation error or nil.
   */
  datatype Checked<T> = Checked(value: T, err: Option<FieldError>) {
    predicate Valid() {
      err.None?
    }
  }

}
