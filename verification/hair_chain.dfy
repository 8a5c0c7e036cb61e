/** The index logic of the hair chain controller (`HairManager`): set-up of ids and masses,
    clamped neighbour lookup, the freeze and mass walks, the activation window and the
    closest-segment scan. The chain is the segment array; index 0 is the root next to the
    player and the last index the tip. The parts that carry an `ActiveHairPart` component are
    the first `active` segments, so an index into the active-part list is also an index into
    the segment array. A Unity `Transform` is identified with its index in the array. */
module HairChain {
  import opened Common
  import opened HairPart

  /** Every part's `Id` equals its position; set up by `Awake`, relied on by every walk. */
  predicate IdsAreIndices(segs: seq<Segment>)
  {
    forall i :: 0 <= i < |segs| ==> segs[i].id == i
  }

  /** Shape of a chain after `Awake`: ids are indices and the active parts are a prefix. */
  predicate Valid(segs: seq<Segment>, active: nat)
  {
    active <= |segs| && IdsAreIndices(segs)
  }

  /** The mass `Awake` gives segment `i`: 2, then 0.5 more per segment towards the tip. */
  function InitialMass(i: int): real
  {
    2.0 + 0.5 * (i as real)
  }

  /** Every segment's own mass is the initial profile. */
  predicate HasInitialProfile(segs: seq<Segment>)
  {
    forall i :: 0 <= i < |segs| ==> segs[i].mass == InitialMass(i)
  }

  /** Two chains differ at most in the rigid-body masses. */
  predicate SameButBodyMass(a: seq<Segment>, b: seq<Segment>)
  {
    |a| == |b| && forall i :: 0 <= i < |a| ==> a[i].(bodyMass := b[i].bodyMass) == b[i]
  }

  // ---------------------------------------------------------------------------------------
  // Set-up
  // ---------------------------------------------------------------------------------------

  /** `Awake`: the segment array holds all children of the long-hair object but the last;
      walking it from the root, each part gets its index as id and the running mass, which
      starts at 2 and grows by 0.5 per segment. With no children at all the array length
      would be -1 and the allocation throws, which is the `None` result. */
  method Awake(children: seq<Segment>) returns (r: Option<seq<Segment>>)
    ensures r.None? <==> |children| == 0
    ensures r.Some? ==> |r.value| == |children| - 1
    ensures r.Some? ==> IdsAreIndices(r.value) && HasInitialProfile(r.value)
    ensures r.Some? ==> forall i :: 0 <= i < |r.value| ==> r.value[i].bodyMass == InitialMass(i)
    ensures r.Some? ==> forall i :: 0 <= i < |r.value| ==>
      r.value[i].constraint == children[i].constraint &&
      r.value[i].wrapFromOther == children[i].wrapFromOther
  {
    if |children| == 0 {
      return None;
    }
    var segs: seq<Segment> := [];
    var index := 0;
    var mass := 2.0;
    var i := 0;
    while i < |children| - 1
      invariant 0 <= i <= |children| - 1
      invariant index == i && mass == InitialMass(i)
      invariant |segs| == i
      invariant forall j :: 0 <= j < i ==> segs[j] == SetMass(SetId(children[j], j), InitialMass(j))
    {
      var part := SetId(children[i], index);
      part := SetMass(part, mass);
      segs := segs + [part];
      index := index + 1;
      mass := mass + 0.5;
      i := i + 1;
    }
    return Some(segs);
  }

  /** `ResetPartsMass`: every rigid body takes back the part's own mass. */
  function ResetPartsMass(segs: seq<Segment>): (r: seq<Segment>)
    ensures SameButBodyMass(r, segs)
    ensures forall i :: 0 <= i < |r| ==> r[i].bodyMass == r[i].mass
  {
    seq(|segs|, i requires 0 <= i < |segs| => segs[i].(bodyMass := segs[i].mass))
  }

  /** After `Awake`, resetting restores every body mass to 2 + 0.5 * index. */
  lemma ResetRestoresInitialProfile(segs: seq<Segment>)
    requires HasInitialProfile(segs)
    ensures forall i :: 0 <= i < |segs| ==> ResetPartsMass(segs)[i].bodyMass == InitialMass(i)
  {
  }

  /** Resetting forgets every earlier change to body masses. */
  lemma ResetForgetsBodyMasses(a: seq<Segment>, b: seq<Segment>)
    requires SameButBodyMass(a, b)
    ensures ResetPartsMass(a) == ResetPartsMass(b)
  {
  }

  // ---------------------------------------------------------------------------------------
  // Neighbours
  // ---------------------------------------------------------------------------------------

  /** `GetNextPart`: the root-ward neighbour, or the segment itself at the root. The
      self-answer is the "end of chain" sentinel the walks stop on. */
  function NextPart(segs: seq<Segment>, id: int): (r: nat)
    requires 0 <= id < |segs|
    ensures r < |segs|
    ensures r == id <==> id == 0
    ensures r != id ==> r + 1 == id
  {
    if id - 1 < 0 then id else id - 1
  }

  /** `GetPrevPart`: the tip-ward neighbour, or the segment itself at the tip. */
  function PrevPart(segs: seq<Segment>, id: int): (r: nat)
    requires 0 <= id < |segs|
    ensures r < |segs|
    ensures r == id <==> id == |segs| - 1
    ensures r != id ==> r == id + 1
  {
    if id + 1 > |segs| - 1 then id else id + 1
  }

  /** Away from the boundaries the two lookups undo each other. */
  lemma NeighboursInverse(segs: seq<Segment>, id: int)
    requires 0 <= id < |segs|
    ensures id > 0 ==> PrevPart(segs, NextPart(segs, id)) == id
    ensures id < |segs| - 1 ==> NextPart(segs, PrevPart(segs, id)) == id
  {
  }

  /** `GetLastHairPart`: the tip. An empty array makes `HairManager` index -1 and throw,
      which is the `None` result. */
  function GetLastHairPart(segs: seq<Segment>): (r: Option<nat>)
    ensures r.None? <==> |segs| == 0
    ensures r.Some? ==> r.value < |segs| && PrevPart(segs, r.value) == r.value
    ensures forall i :: 0 <= i < |segs| && PrevPart(segs, i) == i ==> r == Some(i)
  {
    if |segs| == 0 then None else Some(|segs| - 1)
  }

  // ---------------------------------------------------------------------------------------
  // Freeze propagation
  // ---------------------------------------------------------------------------------------

  /** `FreezePartsAfter(partId)`: freezes the active part just root-ward of `partId`, then
      repeats from that part's id, until index 0 is passed. Every part below `partId` ends
      frozen and nothing else changes. `HairManager` indexes the active-part list with
      `partId - 1`, so `partId` may be at most the number of active parts. */
  function FreezePartsAfter(segs: seq<Segment>, active: nat, partId: int): (r: seq<Segment>)
    requires Valid(segs, active)
    requires partId <= active
    ensures |r| == |segs| && Valid(r, active)
    ensures forall j :: 0 <= j < |segs| && j < partId ==> r[j] == segs[j].(constraint := FreezeAll)
    ensures forall j :: 0 <= j < |segs| && partId <= j ==> r[j] == segs[j]
    decreases partId
  {
    if partId - 1 < 0 then segs
    else
      var part := segs[partId - 1];
      var frozen := if part.constraint != FreezeAll
        then segs[partId - 1 := part.(constraint := FreezeAll)]
        else segs;
      FreezePartsAfter(frozen, active, part.id)
  }

  /** Freezing is idempotent. */
  lemma FreezeIdempotent(segs: seq<Segment>, active: nat, partId: int)
    requires Valid(segs, active) && partId <= active
    ensures FreezePartsAfter(FreezePartsAfter(segs, active, partId), active, partId)
         == FreezePartsAfter(segs, active, partId)
  {
  }

  // ---------------------------------------------------------------------------------------
  // Mass walks while the player holds a segment
  // ---------------------------------------------------------------------------------------

  /** `ChangePartsMassAfter(lastPart, playerMass)`: walking root-ward from the held part,
      each segment's body is 20 heavier than the one before, starting at `playerMass + 20`.
      In closed form, segment `j` below the held one weighs `playerMass + 20 * (lastPart - j)`;
      the held part and everything tip-ward are untouched. */
  function ChangePartsMassAfter(segs: seq<Segment>, lastPart: nat, playerMass: real): (r: seq<Segment>)
    requires IdsAreIndices(segs) && lastPart < |segs|
    ensures |r| == |segs| && IdsAreIndices(r)
    ensures forall j :: 0 <= j < lastPart ==>
      r[j] == segs[j].(bodyMass := playerMass + 20.0 * ((lastPart - j) as real))
    ensures forall j :: lastPart <= j < |segs| ==> r[j] == segs[j]
    decreases lastPart
  {
    var current := NextPart(segs, segs[lastPart].id);
    if current == lastPart then segs
    else
      var mass := playerMass + 20.0;
      ChangePartsMassAfter(segs[current := segs[current].(bodyMass := mass)], current, mass)
  }

  /** `ChangePartsMassBefore(lastPart)`: every segment tip-ward of the held one gets body
      mass 10; the held part and everything root-ward are untouched. */
  function ChangePartsMassBefore(segs: seq<Segment>, lastPart: nat): (r: seq<Segment>)
    requires IdsAreIndices(segs) && lastPart < |segs|
    ensures |r| == |segs| && IdsAreIndices(r)
    ensures forall j :: lastPart < j < |segs| ==> r[j] == segs[j].(bodyMass := 10.0)
    ensures forall j :: 0 <= j <= lastPart ==> r[j] == segs[j]
    decreases |segs| - lastPart
  {
    var current := PrevPart(segs, segs[lastPart].id);
    if current == lastPart then segs
    else ChangePartsMassBefore(segs[current := segs[current].(bodyMass := 10.0)], current)
  }

  /** `PlayerHoldingPart`: both walks around the held part. Only body masses change: the
      root side is loaded by 20 per hop, the held part keeps its mass, the tip side goes
      slack at 10. */
  function PlayerHoldingPart(segs: seq<Segment>, part: nat, playerMass: real): (r: seq<Segment>)
    requires IdsAreIndices(segs) && part < |segs|
    ensures SameButBodyMass(r, segs) && IdsAreIndices(r)
    ensures forall j :: 0 <= j < part ==> r[j].bodyMass == playerMass + 20.0 * ((part - j) as real)
    ensures r[part] == segs[part]
    ensures forall j :: part < j < |segs| ==> r[j].bodyMass == 10.0
  {
    ChangePartsMassBefore(ChangePartsMassAfter(segs, part, playerMass), part)
  }

  /** Letting go and resetting undoes a hold completely. */
  lemma ResetUndoesHolding(segs: seq<Segment>, part: nat, playerMass: real)
    requires IdsAreIndices(segs) && part < |segs|
    ensures ResetPartsMass(PlayerHoldingPart(segs, part, playerMass)) == ResetPartsMass(segs)
  {
  }

  // ---------------------------------------------------------------------------------------
  // Activation window
  // ---------------------------------------------------------------------------------------

  /** The loop of `ActivateNextPart`/`DeactivateNextPart`: from index `i` down to just above
      `stop`, leaving early below index 0, set each part's flag to `value`. */
  function SetWrapFromOther(segs: seq<Segment>, i: int, stop: int, value: bool): (r: seq<Segment>)
    requires i < |segs|
    ensures |r| == |segs|
    ensures forall j :: 0 <= j < |segs| && stop < j <= i ==> r[j] == segs[j].(wrapFromOther := value)
    ensures forall j :: 0 <= j < |segs| && !(stop < j <= i) ==> r[j] == segs[j]
    decreases i - stop
  {
    if i <= stop then segs
    else if i < 0 then segs
    else SetWrapFromOther(segs[i := segs[i].(wrapFromOther := value)], i - 1, stop, value)
  }

  /** `ActivateNextPart(partId)`: raises the flag on exactly the (up to) three parts
      root-ward of `partId`. Those are entries of the active-part list, so `partId` may be at
      most the number of active parts. */
  function ActivateNextPart(segs: seq<Segment>, active: nat, partId: int): (r: seq<Segment>)
    requires active <= |segs| && partId <= active
    ensures |r| == |segs|
    ensures forall j :: 0 <= j < |segs| && partId - 3 <= j < partId ==> r[j] == segs[j].(wrapFromOther := true)
    ensures forall j :: 0 <= j < |segs| && !(partId - 3 <= j < partId) ==> r[j] == segs[j]
  {
    SetWrapFromOther(segs, partId - 1, partId - 4, true)
  }

  /** `DeactivateNextPart(partId)`: lowers the flag on the same window. */
  function DeactivateNextPart(segs: seq<Segment>, active: nat, partId: int): (r: seq<Segment>)
    requires active <= |segs| && partId <= active
    ensures |r| == |segs|
    ensures forall j :: 0 <= j < |segs| && partId - 3 <= j < partId ==> r[j] == segs[j].(wrapFromOther := false)
    ensures forall j :: 0 <= j < |segs| && !(partId - 3 <= j < partId) ==> r[j] == segs[j]
  {
    SetWrapFromOther(segs, partId - 1, partId - 4, false)
  }

  /** Deactivating right after activating the same window leaves every flag as deactivating
      alone would: the window's flags end down and the rest of the chain is as before. */
  lemma DeactivateCancelsActivate(segs: seq<Segment>, active: nat, partId: int)
    requires active <= |segs| && partId <= active
    ensures DeactivateNextPart(ActivateNextPart(segs, active, partId), active, partId)
         == DeactivateNextPart(segs, active, partId)
  {
  }

  // ---------------------------------------------------------------------------------------
  // Closest usable segment
  // ---------------------------------------------------------------------------------------

  /** The scan passes over a frozen active part without looking at its position. */
  predicate Skipped(segs: seq<Segment>, active: nat, i: int)
    requires 0 <= i < |segs|
  {
    i < active && segs[i].Frozen()
  }

  /** A position more than 0.2 below the query point. */
  predicate Below(p: Vec3, to: Vec3)
  {
    p.y < to.y - 0.2
  }

  /** The scan breaks at the first segment that is not skipped and lies below the point. */
  predicate Stops(segs: seq<Segment>, active: nat, pos: seq<Vec3>, to: Vec3, i: int)
    requires |pos| == |segs| && 0 <= i < |segs|
  {
    !Skipped(segs, active, i) && Below(pos[i], to)
  }

  /** The scan reaches index `i`: no earlier index stopped it. */
  predicate Reached(segs: seq<Segment>, active: nat, pos: seq<Vec3>, to: Vec3, i: int)
    requires |pos| == |segs| && 0 <= i <= |segs|
  {
    forall j :: 0 <= j < i ==> !Stops(segs, active, pos, to, j)
  }

  /** A segment the scan reaches and measures. */
  predicate Eligible(segs: seq<Segment>, active: nat, pos: seq<Vec3>, to: Vec3, i: int)
    requires |pos| == |segs|
  {
    0 <= i < |segs| && Reached(segs, active, pos, to, i)
    && !Skipped(segs, active, i) && !Below(pos[i], to)
  }

  /** `GetClosestPart(to)`: scanning from the root, skip frozen active parts, stop at the first
      other segment lying more than 0.2 below `to`, and keep the nearest segment measured,
      the earliest one on ties (the comparison is strict). `pos` holds the segments'
      current world positions. */
  method GetClosestPart(segs: seq<Segment>, active: nat, pos: seq<Vec3>, to: Vec3)
      returns (closest: Option<nat>)
    requires active <= |segs| && |pos| == |segs|
    ensures closest.None? <==> forall i :: 0 <= i < |segs| ==> !Eligible(segs, active, pos, to, i)
    ensures closest.Some? ==> Eligible(segs, active, pos, to, closest.value)
    ensures closest.Some? ==> forall i :: 0 <= i < |segs| && Eligible(segs, active, pos, to, i) ==>
      SqDistance(pos[closest.value], to) <= SqDistance(pos[i], to)
    ensures closest.Some? ==> forall i :: 0 <= i < closest.value && Eligible(segs, active, pos, to, i) ==>
      SqDistance(pos[closest.value], to) < SqDistance(pos[i], to)
  {
    closest := None;
    var closestDistance := 0.0;
    var i := 0;
    while i < |segs|
      invariant 0 <= i <= |segs|
      invariant Reached(segs, active, pos, to, i)
      invariant closest.None? <==> forall j :: 0 <= j < i ==> !Eligible(segs, active, pos, to, j)
      invariant closest.Some? ==> closest.value < i && Eligible(segs, active, pos, to, closest.value)
      invariant closest.Some? ==> closestDistance == SqDistance(pos[closest.value], to)
      invariant closest.Some? ==> forall j :: 0 <= j < i && Eligible(segs, active, pos, to, j) ==>
        closestDistance <= SqDistance(pos[j], to)
      invariant closest.Some? ==> forall j :: 0 <= j < closest.value && Eligible(segs, active, pos, to, j) ==>
        closestDistance < SqDistance(pos[j], to)
    {
      if i < active && segs[i].constraint == FreezeAll {
        assert !Eligible(segs, active, pos, to, i);
        i := i + 1;
        continue;
      }
      if pos[i].y < to.y - 0.2 {
        assert Stops(segs, active, pos, to, i);
        forall j | i <= j < |segs|
          ensures !Eligible(segs, active, pos, to, j)
        {
          if j > i {
            assert !Reached(segs, active, pos, to, j);
          }
        }
        break;
      }
      assert Eligible(segs, active, pos, to, i);
      var distance := SqDistance(pos[i], to);
      if closest.None? || distance < closestDistance {
        closestDistance := distance;
        closest := Some(i);
      }
      i := i + 1;
    }
  }
}
