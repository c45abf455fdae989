/**
 * Wall-clock time in a zone with one clock change, as Python's `zoneinfo` defines it (PEP 495).
 * Instants and wall times are integer seconds; a wall time `w` lies on day `w / 86400`.
 */
module Zones {
  import opened Wrappers

  const DAY: int := 86400

  datatype Zone = Zone(before: int, after: int, transition: int)

  /** The clock change is shorter than a day. */
  predicate ZoneOk(z: Zone) { -DAY < z.after - z.before < DAY }

  function Offset(z: Zone, u: int): int { if u < z.transition then z.before else z.after }

  function Local(z: Zone, u: int): int { u + Offset(z, u) }

  /** 1 for the second occurrence of a repeated wall time. */
  function FoldOf(z: Zone, u: int): int {
    if u >= z.transition && u - z.transition < z.before - z.after then 1 else 0
  }

  /** `wall.replace(tzinfo=zone, fold=fold).astimezone(UTC)`. */
  function ToUtc(z: Zone, w: int, fold: int): int {
    var edge := z.transition + (if fold == 0 then Max(z.before, z.after) else Min(z.before, z.after));
    w - (if w >= edge then z.after else z.before)
  }

  function DayOf(w: int): int { w / DAY }

  function ClockOf(w: int): int { w % DAY }

  lemma DayBounds(w: int, d: int)
    ensures DayOf(w) == d <==> d * DAY <= w < (d + 1) * DAY
    ensures DayOf(w) == d ==> ClockOf(w) == w - d * DAY
  {
  }

  /** First occurrences come in wall-clock order. */
  lemma FirstOccurrencesAscend(z: Zone, u: int, v: int)
    requires u < v && FoldOf(z, v) == 0
    ensures Local(z, u) < Local(z, v)
  {
  }

  /** What `_localize` returns: the instant, and the wall time it shows. */
  function Localize(z: Zone, naive: int): (int, int) {
    var candidate := ToUtc(z, naive, 0);
    if Local(z, candidate) == naive then (candidate, naive)
    else
      var alternate := ToUtc(z, naive, 1);
      if Local(z, alternate) == naive then (candidate, naive) else (candidate, Local(z, candidate))
  }

  /**
   * Localizing a wall time gives its first occurrence; a wall time that the clock skips is shifted
   * forward by the length of the gap, and no instant shows it.
   */
  lemma LocalizeMeaning(z: Zone, w: int)
    ensures var (u, wall) := Localize(z, w);
            && FoldOf(z, u) == 0 && Local(z, u) == wall
            && (wall == w ==> forall v: int :: Local(z, v) == w ==> u <= v)
            && (wall != w ==> forall v: int :: Local(z, v) != w)
            && (wall != w ==> z.transition + z.before <= w < z.transition + z.after)
            && (wall != w ==> wall == w + (z.after - z.before) > w)
  {
  }

  /** The instant of a date that is written without an offset; None if the text is rejected. */
  function Attach(z: Zone, w: int): Option<int> {
    var first, second := ToUtc(z, w, 0), ToUtc(z, w, 1);
    var firstValid, secondValid := Local(z, first) == w, Local(z, second) == w;
    if !firstValid && !secondValid then None
    else if firstValid && secondValid && w - first != w - second then None
    else Some(if firstValid then first else second)
  }

  /** A date without an offset is accepted exactly if one instant shows it and no other does: it is that instant. */
  lemma AttachMeaning(z: Zone, w: int, u: int)
    ensures Attach(z, w) == Some(u) <==> Local(z, u) == w && forall v :: Local(z, v) == w ==> v == u
  {
    var first, second := ToUtc(z, w, 0), ToUtc(z, w, 1);
    assert Local(z, u) == w ==> u == first || u == second;
    assert Local(z, first) == w ==> Attach(z, w) == Some(first) || (Local(z, second) == w && first != second);
  }
}
