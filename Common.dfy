/** Small shared vocabulary: optional values, the choices of the `projects`
    app, and the field-keyed validation errors the serializers raise
    (`ValidationError({'field': [message]})`). */
module Common {

  datatype Option<+T> = None | Some(value: T)

  /** A `ValidationError` keyed by the offending field's name. */
  datatype FieldError = FieldError(field: string, message: string)

  /** The outcome of a serializer-level `validate`: the data it returns, or the
      error it raises. */
  datatype Checked<+T> = Returned(data: T) | Raised(error: FieldError)

  /** The task types of choices.py. */
  datatype TaskType = Bug | Subtask | Story

  /** The board types (`KANBAN`, `SCRUM`). */
  datatype BoardType = Kanban | Scrum

  /** Python truthiness of an optional string: `None` and `''` are falsy. */
  predicate Truthy(s: Option<string>) {
    s.Some? && s.value != ""
  }
}
