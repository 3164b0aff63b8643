/** The optional value used across the model for "no client", "nothing stored"
    and "nothing fetched". */
module Maybe {

  datatype Option<+T> = None | Some(value: T)
}
