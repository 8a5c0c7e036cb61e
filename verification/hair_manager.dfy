/** The per-frame state of the hair chain controller (`HairManager`): the throttled wrap
    check and the deployment flags the shoot and retract sequences leave behind. */
module HairManager {
  import opened Common
  import opened HairPart
  import HairChain

  /** Minimum time between two wrap evaluations while the hair is out. */
  const WrapTestInterval: real := 0.05

  datatype Hair = Hair(
    segs: seq<Segment>,
    active: nat,
    hasShotHair: bool,
    isPullingHair: bool,
    isHairWrapped: bool,
    lastWrapTest: real)

  predicate Valid(h: Hair)
  {
    HairChain.Valid(h.segs, h.active)
  }

  /** One call of `CheckForWrap`: the new state and the value `HairIsWrapped` was invoked
      with, if it was invoked at all. */
  datatype WrapCheck = WrapCheck(hair: Hair, notified: Option<bool>)

  /** The highest frozen index below `n`. `HairManager.CheckForWrap` scans upwards and keeps
      the last hit, which is the same index. */
  function HighestFrozen(segs: seq<Segment>, n: int): (r: Option<nat>)
    requires n <= |segs|
    ensures r.None? <==> forall j :: 0 <= j < n ==> !segs[j].Frozen()
    ensures r.Some? ==> r.value < n && segs[r.value].Frozen()
    ensures r.Some? ==> forall j :: r.value < j < n ==> !segs[j].Frozen()
    decreases n
  {
    if n <= 0 then None
    else if segs[n - 1].Frozen() then Some(n - 1)
    else HighestFrozen(segs, n - 1)
  }

  /** `CheckForWrap`, run once a frame at time `now`. With the hair stowed it only restarts
      the throttle timer and reports "not wrapped". Within 0.05 of the last evaluation it
      does nothing. Otherwise it looks at every active part but the last: the hair is wrapped
      iff one of them is frozen, in which case every part below the highest frozen one is
      frozen too and "wrapped" is reported. */
  function CheckForWrap(h: Hair, now: real): (r: WrapCheck)
    requires Valid(h)
    ensures Valid(r.hair) && r.hair.active == h.active && |r.hair.segs| == |h.segs|
    ensures !h.hasShotHair ==> r == WrapCheck(h.(lastWrapTest := now), Some(false))
    ensures h.hasShotHair && now - h.lastWrapTest < WrapTestInterval ==> r == WrapCheck(h, None)
    ensures h.hasShotHair && now - h.lastWrapTest >= WrapTestInterval ==>
      && r.hair.lastWrapTest == now
      && r.hair.hasShotHair == h.hasShotHair
      && r.hair.isPullingHair == h.isPullingHair
      && (r.hair.isHairWrapped <==> exists j :: 0 <= j < h.active - 1 && h.segs[j].Frozen())
      && r.notified == (if r.hair.isHairWrapped then Some(true) else None)
    ensures h.hasShotHair && now - h.lastWrapTest >= WrapTestInterval ==>
      forall i, j :: 0 <= j < i < h.active - 1 && h.segs[i].Frozen() ==> r.hair.segs[j].Frozen()
    ensures forall j :: 0 <= j < |h.segs| && r.hair.segs[j] != h.segs[j] ==>
      r.hair.segs[j] == h.segs[j].(constraint := FreezeAll)
      && HighestFrozen(h.segs, h.active - 1).Some? && j < HighestFrozen(h.segs, h.active - 1).value
  {
    if !h.hasShotHair then
      WrapCheck(h.(lastWrapTest := now), Some(false))
    else if now - h.lastWrapTest < WrapTestInterval then
      WrapCheck(h, None)
    else
      match HighestFrozen(h.segs, h.active - 1)
      case None =>
        WrapCheck(h.(isHairWrapped := false, lastWrapTest := now), None)
      case Some(k) =>
        var segs := HairChain.FreezePartsAfter(h.segs, h.active, h.segs[k].id);
        WrapCheck(h.(segs := segs, isHairWrapped := true, lastWrapTest := now), Some(true))
  }

  /** A second evaluation, however much later, finds the same highest frozen part and
      freezes nothing new, as long as no segment changed in between. */
  lemma WrapCheckStable(h: Hair, now: real, later: real)
    requires Valid(h) && h.hasShotHair
    requires now - h.lastWrapTest >= WrapTestInterval && later - now >= WrapTestInterval
    ensures CheckForWrap(CheckForWrap(h, now).hair, later).hair.segs == CheckForWrap(h, now).hair.segs
  {
  }

  // ---------------------------------------------------------------------------------------
  // Flag outcomes of the shoot and retract sequences
  // ---------------------------------------------------------------------------------------

  /** The end of `ShootHair`: the hair is out. */
  function FinishShoot(h: Hair): (r: Hair)
    ensures r.hasShotHair
    ensures r.(hasShotHair := h.hasShotHair) == h
  {
    h.(hasShotHair := true)
  }

  /** The start of `RetractHair`: the hair is being pulled in. */
  function BeginRetract(h: Hair): (r: Hair)
    ensures r.isPullingHair
    ensures r.(isPullingHair := h.isPullingHair) == h
  {
    h.(isPullingHair := true)
  }

  /** The end of `RetractHair`: the hair is stowed and no longer being pulled. */
  function FinishRetract(h: Hair): (r: Hair)
    ensures !r.hasShotHair && !r.isPullingHair
    ensures r.(hasShotHair := h.hasShotHair, isPullingHair := h.isPullingHair) == h
  {
    h.(hasShotHair := false, isPullingHair := false)
  }

  /** A full shoot-retract cycle leaves both flags down, and the next wrap check reports
      "not wrapped" without touching the segments. */
  lemma RetractEndsWrapping(h: Hair, now: real)
    requires Valid(h)
    ensures var r := FinishRetract(BeginRetract(FinishShoot(h)));
      && !r.hasShotHair && !r.isPullingHair
      && CheckForWrap(r, now).notified == Some(false)
      && CheckForWrap(r, now).hair.segs == h.segs
  {
  }
}
