/** The Some/None datatype. A metric that is "not available" (NaN in the
    userscript) is `None`. */
module Options {

  datatype Option<+T> = None | Some(value: T)
}
