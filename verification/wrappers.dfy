/** The optional value used for the watcher's nullable strings: `None` stands
    for JavaScript `null`, `Some(s)` for the string `s`. Equality on this type
    is exactly JavaScript strict equality (`===`) on a value that is either
    `null` or a string. */
module Wrappers {

  datatype Option<+T> = None | Some(value: T)
}
