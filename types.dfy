/** Shared value types of the photo editor: points in image-pixel space,
    the two status enumerations, optional values and error results. */
module Types {

  /** A value that may be absent (`T | null` in the source). */
  datatype Option<T> = None | Some(value: T)

  /** The outcome of an operation that may throw: its value or the message of the error. */
  datatype Result<T> = Ok(value: T) | Err(message: string)

  /** An uploaded image file; its bytes are never inspected by the logic modelled here. */
  type File(==)

  /** A point; in image-pixel space for selections, in screen pixels for pan offsets. */
  datatype Point = Point(x: real, y: real)

  const Origin: Point := Point(0.0, 0.0)

  /** Status of the edit request shown by the application. */
  datatype AppState = Idle | Processing | Success | Error

  /** What the result pane displays. */
  datatype ProcessState = ShowIdle | ShowLoading | ShowSuccess | ShowError

  /** Truthiness of a `string | null` value: present and not the empty string. */
  predicate Present(s: Option<string>)
  {
    s.Some? && s.value != ""
  }

  /** `haystack.includes(needle)`. */
  predicate Contains(haystack: string, needle: string)
  {
    exists i | 0 <= i <= |haystack| :: OccursAt(haystack, needle, i)
  }

  /** `needle` occurs in `haystack` starting at index `i`. */
  predicate OccursAt(haystack: string, needle: string, i: int)
  {
    0 <= i && i + |needle| <= |haystack| && haystack[i..i + |needle|] == needle
  }
}
