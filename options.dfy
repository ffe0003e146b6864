/** Optional values, used for "a goal was (or was not) dispatched in this iteration". */
module Options {

  datatype Option<T> = None | Some(value: T)

  /** The zero- or one-element sequence holding the value, if any. */
  function AsSeq<T>(o: Option<T>): (s: seq<T>)
    ensures |s| <= 1
    ensures o.Some? <==> |s| == 1
    ensures o.Some? ==> s[0] == o.value
  {
    match o
    case None => []
    case Some(v) => [v]
  }
}
