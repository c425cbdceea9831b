/** A value that may be absent: JavaScript's `undefined`/`null` or React's `null` render. */
module Maybe {

  datatype Option<+T> = None | Some(value: T)

}
