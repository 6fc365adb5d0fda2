/** A value that may be absent, as `std::optional` in the reactive operators. */
module Optional {

  datatype Option<+T> = None | Some(value: T) {

    /** The contained value as a sequence of length zero or one. */
    function ToSeq(): (s: seq<T>)
      ensures |s| <= 1
      ensures Some? <==> |s| == 1
      ensures Some? ==> s[0] == value
    {
      match this
      case None => []
      case Some(v) => [v]
    }
  }
}
