/** The nullable values of the widget's state (`number | null`) as an Option. */
module Wrappers {

  datatype Option<+T> = None | Some(value: T)
}
