/** Error and optional values shared by the pipeline's modules. */
module Results {

  datatype Option<+T> = None | Some(value: T)

  /** The one failure the modelled code can raise: pandas' label lookup
      `forecast['ds'][label]` on a RangeIndex raises KeyError for a label
      outside `0 .. len - 1` (a negative label does not wrap around). */
  datatype Error = KeyError(key: int)

  datatype Result<+T> = Ok(value: T) | Err(error: Error)
}
