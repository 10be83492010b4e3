/** Values shared by every module: optional values and JavaScript truthiness. */
module Base {

  /** A value that may be absent: `undefined`/`null` in the source, or a SQL query with no row. */
  datatype Option<+T> = None | Some(value: T)

  /** `!s` is false: the string is present and not empty. */
  predicate Present(s: Option<string>)
  {
    s.Some? && s.value != ""
  }

  /** `!n` is false for a numeric id: present and not 0. */
  predicate PresentId(n: Option<nat>)
  {
    n.Some? && n.value != 0
  }

  /** JavaScript `s || fallback` on a string that may be missing. */
  function OrElse(s: Option<string>, fallback: string): (r: string)
    ensures Present(s) ==> r == s.value
    ensures !Present(s) ==> r == fallback
  {
    if Present(s) then s.value else fallback
  }
}
