/** A value that may be missing: an absent storage entry, a failed parse,
    or JavaScript's NaN where a number was expected. */
module Optional {

  datatype Option<+T> = None | Some(value: T)
}
