// A nullable value: the model of a null pointer, an empty unique_ptr or an absent number.
module Options {
  datatype Option<+T> = None | Some(value: T)
}
