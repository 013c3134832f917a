/** The optional result of the first-match scans. */
module Maybe {

  datatype Option<T> = None | Some(value: T)
}
