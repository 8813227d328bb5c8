/** Optional values, and JavaScript's reading of an optional value as a condition. */
module Options {

  datatype Option<+T> = None | Some(value: T)

  /** `x || default` for a string that may be null: null and "" both count as absent. */
  function Filled(s: Option<string>): Option<string> {
    if s == Some("") then None else s
  }

  /** `port || ...` for a number that may be null: null and 0 both count as absent. */
  function NonZero(p: Option<nat>): Option<nat> {
    if p == Some(0) then None else p
  }
}
