/** Small shared vocabulary: an optional value, used wherever the Python code
    raises an exception or finds nothing. */
module Common {

  datatype Option<+T> = None | Some(value: T)

}
