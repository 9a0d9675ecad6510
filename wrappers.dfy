/** Nullable values as the dashboard's TypeScript sees them. */
module Wrappers {

  /** `T | null`: a field or lookup that may be absent. */
  datatype Option<+T> = None | Some(value: T)

  /** JavaScript truthiness of a `string | null`: both `null` and `""` are falsy,
      so `x && …`, `x || fallback` and `if (x)` all take this test. */
  predicate Truthy(s: Option<string>)
  {
    s.Some? && s.value != ""
  }
}
