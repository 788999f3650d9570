/** The points of an outbound target: what the registry produces and the session consumes. */
module Iec104Points {
  import opened Prelude

  const BROADCAST_CA := 0xFFFF

  datatype Key = Key(device: string, signal: string)

  /** The supported monitoring types 1, 13 and 15. */
  datatype Kind = SinglePoint | ShortFloat | Counter

  datatype Point = Point(key: Key, kind: Kind, ca: nat, ioa: nat, stamped: bool)

  type Address = (nat, nat)

  function AddressOf(p: Point): Address {
    (p.ca, p.ioa)
  }

  /** Distinct keys and distinct addresses. */
  ghost predicate Distinct(points: seq<Point>) {
    forall i, j | 0 <= i < j < |points| ::
      points[i].key != points[j].key && AddressOf(points[i]) != AddressOf(points[j])
  }

  /** `by_key`: the last point with that key. */
  function FindPoint(points: seq<Point>, key: Key): (r: Option<Point>)
    ensures r.Some? ==> r.value in points && r.value.key == key
  {
    if |points| == 0 then None
    else if points[|points| - 1].key == key then Some(points[|points| - 1])
    else FindPoint(points[..|points| - 1], key)
  }
}
