/** An optional value: the model's stand-in for a .NET reference that may be null. */
module Maybe {

  datatype Option<+T> = None | Some(value: T)
}
