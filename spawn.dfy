/** The bouquet that `spawnBouquet` creates from its random draws. */
module Spawning {
  import opened Bouquets

  /** A result of `Math.random()`. */
  type Unit = r: real | 0.0 <= r < 1.0

  /** The nine draws `spawnBouquet` makes, in the order it makes them. */
  datatype Rolls = Rolls(x: Unit, rotation: Unit, image: Unit, drift: Unit, lift: Unit,
                         sink: Unit, spinSign: Unit, spin: Unit, scale: Unit)

  /** `Math.sign`. */
  function Sign(x: real): (s: real)
    ensures x > 0.0 <==> s == 1.0
    ensures x < 0.0 <==> s == -1.0
    ensures x == 0.0 <==> s == 0.0
  {
    if x > 0.0 then 1.0 else if x < 0.0 then -1.0 else 0.0
  }

  /** `Math.floor(r * n)`: an index into a list of `n` items. */
  function PickIndex(n: nat, r: Unit): (k: nat)
    requires n > 0
    ensures k < n
    ensures k as real <= r * n as real < k as real + 1.0
  {
    var k := (r * n as real).Floor;
    assert r * n as real < n as real by { LessThanOneScales(r, n as real); }
    k
  }

  lemma LessThanOneScales(r: real, m: real)
    requires 0.0 <= r < 1.0 && m > 0.0
    ensures 0.0 <= r * m < m
  {
  }

  /** The bouquet `spawnBouquet` pushes, given the loaded images and its draws. */
  function NewBouquet(images: seq<LoadedImage>, r: Rolls): (b: Bouquet)
    requires |images| > 0
    ensures b.image in images
    ensures b.transform.y == 1.0 && b.transform.z == 1.0
    ensures 0.0 <= b.transform.x < 1.0 && 0.0 <= b.transform.rotation < 1.0
    ensures 1.5 <= b.scale < 1.9
    ensures -10.0 < b.velocity.y <= -8.0
    ensures -2.2 < b.velocity.z <= -1.5
    // drift away from the centre line, plus up to 1.2 of jitter either way
    ensures -1.2 <= b.velocity.x - 4.0 * (0.5 - b.transform.x) < 1.2
    // spin: a random direction and a magnitude in [20, 50), unless the sign draw is exactly one half
    ensures r.spinSign > 0.5 ==> 20.0 <= b.velocity.angular < 50.0
    ensures r.spinSign < 0.5 ==> -50.0 < b.velocity.angular <= -20.0
    ensures r.spinSign == 0.5 ==> b.velocity.angular == 0.0
  {
    var transform := Transform(r.x, 1.0, 1.0, r.rotation);
    var image := images[PickIndex(|images|, r.image)];
    Bouquet(
      image,
      transform,
      Velocity(
        (0.5 - transform.x + r.drift * 0.6 - 0.3) * 4.0,
        r.lift * -2.0 - 8.0,
        r.sink * -0.7 - 1.5,
        Sign(r.spinSign - 0.5) * (r.spin * 0.3 + 0.2) * 100.0),
      1.5 + r.scale * 0.4)
  }
}
