/** The absent-or-present value used for `undefined` results (a `find`
    that matches nothing, `voices[0]` of an empty list). */
module Optional {

  datatype Option<+T> = None | Some(value: T)
}
