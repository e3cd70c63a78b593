/**
 * An optional value. `None` is a JavaScript `undefined`; it also stands for
 * `null` where the handler tests truthiness (create's `!title` and
 * `description || ''`), but not in a PUT body, where only `undefined` is absent.
 */
module Wrappers {

  datatype Option<+T> = None | Some(value: T)

}
