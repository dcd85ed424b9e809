/** Alert levels and their rank (nautobot_maps/notify.py). */
module Levels {
  datatype Level = Ok | NoData | Low | Medium | Critical | Maintenance

  /** A level without a rank of its own counts as 0, as a missing one does. */
  function Rank(l: Level): nat {
    match l
    case Low => 1
    case Medium => 2
    case Critical => 3
    case _ => 0
  }
}
