/** An optional value: the model's stand-in for "a statement was built" versus
    "the helper returned early", and for "no occurrence found". */
module Options {

  datatype Option<+T> = None | Some(value: T)
}
