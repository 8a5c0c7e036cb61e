/** One link of the hair chain: the `HairPart` component (id and mass, with the mass setter
    mirrored into the rigid body) together with the two fields of its `ActiveHairPart`
    subclass that the chain controller reads and writes. */
module HairPart {

  /** The `RigidbodyConstraints2D` values the hair code can meet. Only `FreezeAll` is ever
      tested for; every other value behaves as "not wrapped". */
  datatype Constraint = Free | FreezeRotation | FreezeAll

  /** `mass` is the component's own `m_Mass`; `bodyMass` is the mass of the segment's
      `Rigidbody2D`, which the chain controller overwrites without touching `mass`.
      `wrapFromOther` is `ActiveHairPart.ActivatedWrapFromOther`. */
  datatype Segment = Segment(
    id: int,
    mass: real,
    bodyMass: real,
    constraint: Constraint,
    wrapFromOther: bool)
  {
    predicate Frozen() { constraint == FreezeAll }
  }

  /** The `Id` setter: the getter then answers `v`, and nothing else about the part moves. */
  function SetId(s: Segment, v: int): (r: Segment)
    ensures r.id == v
    ensures r.mass == s.mass && r.bodyMass == s.bodyMass
    ensures r.constraint == s.constraint && r.wrapFromOther == s.wrapFromOther
  {
    s.(id := v)
  }

  /** The `Mass` setter: the getter then answers `v`, the rigid body carries the same mass,
      and the id (and the rest) is left alone. */
  function SetMass(s: Segment, v: real): (r: Segment)
    ensures r.mass == v && r.bodyMass == v
    ensures r.id == s.id
    ensures r.constraint == s.constraint && r.wrapFromOther == s.wrapFromOther
  {
    s.(mass := v, bodyMass := v)
  }

  /** The two setters act on disjoint state, so their order does not matter. */
  lemma SettersCommute(s: Segment, i: int, m: real)
    ensures SetId(SetMass(s, m), i) == SetMass(SetId(s, i), m)
  {
  }

  /** A second mass assignment replaces the first completely, body mass included. */
  lemma SetMassLastWriteWins(s: Segment, a: real, b: real)
    ensures SetMass(SetMass(s, a), b) == SetMass(s, b)
  {
  }
}
