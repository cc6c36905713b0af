/** Small definitions shared by the component models. */
module Common {

  datatype Option<+T> = None | Some(value: T)

  function Unit(b: bool): nat {
    if b then 1 else 0
  }
}
