/** The bouquet particle: its record, the tuning constants, and what one physics update does to it. */
module Bouquets {

  const BouquetAvgScale: real := 0.1
  const BouquetMinWidth: real := 130.0
  const BouquetMaxWidth: real := 200.0
  const TimeScale: real := 0.005
  const Gravity: real := 70.0
  const GroundHeight: real := 0.8

  datatype Option<T> = None | Some(value: T)

  /** An image element; the simulation only looks at its natural pixel size. */
  datatype Image = Image(naturalWidth: nat, naturalHeight: nat)

  /** An image that has loaded has a positive natural width. */
  type LoadedImage = i: Image | i.naturalWidth > 0 witness Image(1, 1)

  datatype Transform = Transform(x: real, y: real, z: real, rotation: real)

  datatype Velocity = Velocity(x: real, y: real, z: real, angular: real)

  datatype Bouquet = Bouquet(image: LoadedImage, transform: Transform, velocity: Velocity, scale: real)

  /** What a bouquet keeps from its spawn for as long as it exists: everything except its
      transform and its vertical velocity. */
  datatype Traits = Traits(image: LoadedImage, vx: real, vz: real, angular: real, scale: real)

  function TraitsOf(b: Bouquet): Traits {
    Traits(b.image, b.velocity.x, b.velocity.z, b.velocity.angular, b.scale)
  }

  /** The traits of a list of bouquets, counted with multiplicity. */
  ghost function TraitBag(s: seq<Bouquet>): multiset<Traits> {
    if s == [] then multiset{} else multiset{TraitsOf(s[0])} + TraitBag(s[1..])
  }

  lemma {:induction false} TraitBagAppend(a: seq<Bouquet>, b: seq<Bouquet>)
    ensures TraitBag(a + b) == TraitBag(a) + TraitBag(b)
  {
    if a == [] {
      assert a + b == b;
    } else {
      assert (a + b)[1..] == a[1..] + b;
      TraitBagAppend(a[1..], b);
    }
  }

  /** One update of a bouquet (the arithmetic of `updateBouquet`): the transform moves by
      velocity times the time scale, then gravity raises the vertical velocity. */
  function Step(b: Bouquet): (r: Bouquet)
    ensures r.transform.x - b.transform.x == b.velocity.x * 0.005
    ensures r.transform.y - b.transform.y == b.velocity.y * 0.005
    ensures r.transform.z - b.transform.z == b.velocity.z * 0.005
    ensures r.transform.rotation - b.transform.rotation == b.velocity.angular * 0.005
    ensures r.velocity.y - b.velocity.y == 0.35
    ensures TraitsOf(r) == TraitsOf(b)
    ensures b.velocity.z < 0.0 ==> r.transform.z < b.transform.z
  {
    var t := b.transform;
    var v := b.velocity;
    b.(transform := Transform(t.x + v.x * TimeScale, t.y + v.y * TimeScale,
                              t.z + v.z * TimeScale, t.rotation + v.angular * TimeScale),
       velocity := v.(y := v.y + Gravity * TimeScale))
  }

  /** The landing test of `updateBouquet`, applied to the bouquet after its update: moving
      down, and at or below a ground line that rises as depth shrinks. */
  predicate Lands(b: Bouquet)
    // a bouquet still moving up the screen never lands
    ensures b.velocity.y <= 0.0 ==> !Lands(b)
    // at a non-negative depth the ground line is never above 0.7 of the canvas height
    ensures Lands(b) && b.transform.z >= 0.0 ==> b.transform.y >= 0.7
  {
    b.velocity.y > 0.0 && b.transform.y >= GroundHeight - 0.1 + b.transform.z * 0.18
  }

  /** Every bouquet of the list is sinking in depth. */
  predicate Falling(s: seq<Bouquet>) {
    forall i :: 0 <= i < |s| ==> s[i].velocity.z < 0.0
  }

  /** A bouquet after `k` updates. */
  function Advance(b: Bouquet, k: nat): Bouquet {
    if k == 0 then b else Step(Advance(b, k - 1))
  }

  lemma {:induction false} AdvanceVelocity(b: Bouquet, k: nat)
    ensures Advance(b, k).velocity.y == b.velocity.y + 0.35 * k as real
    ensures TraitsOf(Advance(b, k)) == TraitsOf(b)
  {
    if k > 0 {
      AdvanceVelocity(b, k - 1);
    }
  }

  /** A freshly spawned bouquet (vertical velocity at most -8) cannot pass the landing test
      during its first 22 updates: gravity has not yet turned it downward. */
  lemma NoLandingBeforeApex(b: Bouquet, k: nat)
    requires b.velocity.y <= -8.0 && k <= 22
    ensures !Lands(Advance(b, k))
  {
    AdvanceVelocity(b, k);
  }
}
