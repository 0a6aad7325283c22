/** Types shared by the similarity function and the ranker. */
module Common {

  /** One entity's ratings: item identifier to rating. */
  type Ratings = map<string, real>

  /** The dataset: entity identifier to that entity's ratings. It is only ever read. */
  type Prefs = map<string, Ratings>

  /** The only failure the core raises: a dictionary lookup of a missing key (Python's KeyError). */
  datatype Error = NotFound(key: string)

  datatype Result<T> = Ok(value: T) | Err(error: Error)

  function Min(a: int, b: int): (m: int)
    ensures m <= a && m <= b && (m == a || m == b)
  {
    if a <= b then a else b
  }
}
