/** Small building blocks shared by the scraper and the bot models. */
module Common {

  /** Python's `None` / a present value; JavaScript's `undefined` / a present value. */
  datatype Option<T> = None | Some(value: T) {
    /** `d.get(key, default)` in Python. */
    function GetOr(default: T): T {
      match this
      case Some(v) => v
      case None => default
    }
  }

  /** One octet of a downloaded package. */
  type Byte = b: int | 0 <= b < 0x100

  type Bytes = seq<Byte>

  /**
   * The "first success wins" combinator behind every ordered fallback chain of the
   * scraper: the index of the first entry that is usable, or None when no entry is.
   * The result is fully determined by the two postconditions.
   */
  function FirstUsable<T>(xs: seq<T>, usable: T -> bool): (r: Option<nat>)
    ensures r.Some? ==> r.value < |xs| && usable(xs[r.value])
    ensures r.Some? ==> forall j :: 0 <= j < r.value ==> !usable(xs[j])
    ensures r.None? <==> forall j :: 0 <= j < |xs| ==> !usable(xs[j])
  {
    if |xs| == 0 then None
    else if usable(xs[0]) then Some(0)
    else match FirstUsable(xs[1..], usable)
      case None => None
      case Some(i) => Some(i + 1)
  }
}
