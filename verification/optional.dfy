/** An optional value, for a configuration entry that may be missing and a
    generated value this model does not produce. */
module Optional {

  datatype Option<T> = None | Some(value: T)

  /** `d.get(key, default)` once the lookup has been made. */
  function GetOr<T>(o: Option<T>, default: T): (v: T)
    ensures o.Some? ==> v == o.value
    ensures o.None? ==> v == default
  {
    match o
    case Some(x) => x
    case None => default
  }
}
