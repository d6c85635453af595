/** The `BouquetCanvas` component: the state its refs hold and the callbacks that change it
    (`fixedUpdate`, `render`, `spawnBouquet`), each run once per call. */
module Canvas {
  import opened Bouquets
  import opened Physics
  import opened Geometry
  import opened Spawning
  import opened DrawLog

  class BouquetCanvas {
    /** The active bouquets (`bouquetsRef`). */
    var bouquets: seq<Bouquet>
    /** Landed bouquets waiting for their one draw on the permanent canvas (`permaDrawQueueRef`). */
    var permaDrawQueue: seq<Bouquet>
    /** The image pool (`imagesRef`): null until loading starts. */
    var images: Option<seq<LoadedImage>>
    /** Every call made so far on the two canvases. */
    var log: seq<Event>
    /** Pixel size of the ephemeral canvas. */
    var width: nat
    var height: nat
    /** Pixel size of the permanent canvas. */
    var permaWidth: nat
    var permaHeight: nat

    /** The image pool, once set, is not empty, and every bouquet is sinking in depth, so
        each update makes it strictly smaller on screen. */
    ghost predicate Valid()
      reads this
    {
      (images.Some? ==> |images.value| > 0) && Falling(bouquets) && Falling(permaDrawQueue)
    }

    /** Both canvases start at the container's size; nothing is active, queued or drawn. */
    constructor (width: nat, height: nat)
      ensures Valid()
      ensures bouquets == [] && permaDrawQueue == [] && images == None && log == []
      ensures this.width == width && this.height == height
      ensures permaWidth == width && permaHeight == height
    {
      bouquets := [];
      permaDrawQueue := [];
      images := None;
      log := [];
      this.width, this.height := width, height;
      permaWidth, permaHeight := width, height;
    }

    /** The image pool is filled. */
    method ImagesLoaded(loaded: seq<LoadedImage>)
      requires Valid() && |loaded| > 0
      modifies this`images
      ensures Valid() && images == Some(loaded)
    {
      images := Some(loaded);
    }

    /** `updateBouquet(bouquets[index], index)`. */
    method UpdateBouquet(index: nat)
      requires Valid() && index < |bouquets|
      modifies this`bouquets, this`permaDrawQueue
      ensures Valid()
      ensures Store(bouquets, permaDrawQueue) == Visit(old(Store(bouquets, permaDrawQueue)), index)
    {
      var bouquet := Step(bouquets[index]);
      bouquets := bouquets[index := bouquet];
      if Lands(bouquet) {
        bouquets := bouquets[..index] + bouquets[index + 1..];
        permaDrawQueue := permaDrawQueue + [bouquet];
      }
    }

    /** `fixedUpdate`: `forEach(updateBouquet)` over the active list, which the callback may
        shorten as it goes. Proved equal to the reference tick. */
    method FixedUpdate()
      requires Valid()
      modifies this`bouquets, this`permaDrawQueue
      ensures Valid()
      ensures Store(bouquets, permaDrawQueue) == Tick(old(Store(bouquets, permaDrawQueue)))
    {
      ghost var start := Store(bouquets, permaDrawQueue);
      var length := |bouquets|;
      var index := 0;
      while index < length
        invariant index <= length
        invariant Valid()
        invariant Run(Store(bouquets, permaDrawQueue), index, length) == ForEachUpdate(start)
      {
        if index < |bouquets| {
          UpdateBouquet(index);
        }
        index := index + 1;
      }
      ForEachIsTick(start);
    }

    function SurfaceWidth(surface: Surface): nat
      reads this
    {
      if surface == Ephemeral then width else permaWidth
    }

    function SurfaceHeight(surface: Surface): nat
      reads this
    {
      if surface == Ephemeral then height else permaHeight
    }

    /** `renderBouquet`: one draw call; no bouquet is touched. */
    method RenderBouquet(surface: Surface, bouquet: Bouquet)
      modifies this`log
      ensures log == old(log) + [Drawn(surface, bouquet, Place(SurfaceWidth(surface), SurfaceHeight(surface), bouquet))]
    {
      var sprite := Place(SurfaceWidth(surface), SurfaceHeight(surface), bouquet);
      log := log + [Drawn(surface, bouquet, sprite)];
    }

    /** `render`: clear the ephemeral canvas, draw each queued bouquet once on the permanent
        canvas, empty the queue, then draw the active bouquets on the ephemeral canvas. */
    method Render()
      requires Valid()
      modifies this`log, this`permaDrawQueue
      ensures Valid()
      ensures permaDrawQueue == [] && bouquets == old(bouquets)
      ensures log == RenderLog(old(log), old(permaDrawQueue), bouquets, width, height, permaWidth, permaHeight)
    {
      log := log + [Cleared(Ephemeral)];
      DrainQueue();
      DrawActive();
    }

    /** Lines 90-91 of `render`: each queued bouquet drawn once, in order, on the permanent
        canvas; then the queue is emptied. */
    method DrainQueue()
      requires Valid()
      modifies this`log, this`permaDrawQueue
      ensures Valid()
      ensures permaDrawQueue == []
      ensures log == old(log) + DrawAll(Permanent, permaWidth, permaHeight, old(permaDrawQueue))
    {
      var queue := permaDrawQueue;
      var i := 0;
      while i < |queue|
        invariant i <= |queue|
        invariant log == old(log) + DrawAll(Permanent, permaWidth, permaHeight, queue[..i])
      {
        RenderBouquet(Permanent, queue[i]);
        DrawAllSnoc(Permanent, permaWidth, permaHeight, queue[..i], queue[i]);
        assert queue[..i + 1] == queue[..i] + [queue[i]];
        i := i + 1;
      }
      assert queue[..i] == queue;
      permaDrawQueue := [];
    }

    /** Line 93 of `render`: each active bouquet drawn, in order, on the ephemeral canvas. */
    method DrawActive()
      modifies this`log
      ensures log == old(log) + DrawAll(Ephemeral, width, height, bouquets)
    {
      var active := bouquets;
      var j := 0;
      while j < |active|
        invariant j <= |active|
        invariant log == old(log) + DrawAll(Ephemeral, width, height, active[..j])
      {
        RenderBouquet(Ephemeral, active[j]);
        DrawAllSnoc(Ephemeral, width, height, active[..j], active[j]);
        assert active[..j + 1] == active[..j] + [active[j]];
        j := j + 1;
      }
      assert active[..j] == active;
    }

    /** `spawnBouquet`: nothing before the image pool is set; otherwise one new bouquet at
        the end of the active list. */
    method SpawnBouquet(rolls: Rolls)
      requires Valid()
      modifies this`bouquets
      ensures Valid()
      ensures images.None? ==> bouquets == old(bouquets)
      ensures images.Some? ==> bouquets == old(bouquets) + [NewBouquet(images.value, rolls)]
    {
      if images.None? {
        return;
      }
      var bouquet := NewBouquet(images.value, rolls);
      bouquets := bouquets + [bouquet];
    }
  }
}
