/** The optional value used wherever the simulation looks something up that may be absent
    (a grid bucket for a key, a number parsed from text). */
module Options {
  datatype Option<T> = None | Some(value: T)
}
