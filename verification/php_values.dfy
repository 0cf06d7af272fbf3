/**
 * Values and conventions of the PHP runtime that the modelled code relies on:
 * nullable values and the truthiness of strings.
 */
module PhpValues {

  /** A nullable value: `None` stands for PHP's `null` or a missing array key. */
  datatype Option<+T> = None | Some(value: T)

  /** A value or the exception that was thrown instead of returning one. */
  datatype Result<+T, +E> = Ok(value: T) | Err(error: E)

  /** `!$s` for a PHP string: only the empty string and "0" are falsy. */
  predicate IsFalsyString(s: string)
  {
    s == "" || s == "0"
  }

  /** `!$v` for an optional string option: absent (null) or a falsy string. */
  predicate IsFalsyOption(v: Option<string>)
  {
    v.None? || IsFalsyString(v.value)
  }
}
