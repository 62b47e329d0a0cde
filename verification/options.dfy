/** The optional value used wherever mesh_shape.py returns `None` for "no data". */
module Options {

  datatype Option<+T> = None | Some(value: T)
}
