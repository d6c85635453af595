# Bouquet canvas: a verified model of the falling-bouquet animation

The `BouquetCanvas` component animates small bouquet sprites. Each one spawns at the top
edge, is thrown upward, and falls back under a constant gravity while it drifts, spins and
shrinks in depth. Once it crosses a depth-dependent ground line, it is moved from the active
list to a queue. The next render draws it once onto a permanent canvas that `render` never
clears, so landed bouquets pile up until the container is resized. The active bouquets are
redrawn on every frame onto a second canvas, which is cleared each frame.

This project models that core in Dafny:

- `bouquet.dfy` (module `Bouquets`): the bouquet record, the tuning constants
  (`bouquetAvgScale = 0.1`, widths 130 and 200, `timeScale = 0.005`, `gravity = 70`,
  `groundHeight = 0.8`), one update of a bouquet (`Step`) and the landing test (`Lands`).
- `physics.dfy` (module `Physics`): the physics tick. It models `forEach(updateBouquet)`
  literally (`Visit`, `Run`), including the `splice` that shortens the array while it is
  being iterated. It also gives a reference description of the tick by original index
  (`Fates`, `Kept`, `Settled`, `Tick`). The lemmas prove that the two agree and what a tick
  preserves.
- `geometry.dfy` (module `Geometry`): the sprite arithmetic of `renderBouquet`.
- `spawn.dfy` (module `Spawning`): the bouquet that `spawnBouquet` builds from its nine
  `Math.random()` draws.
- `drawlog.dfy` (module `DrawLog`): the two canvases as one append-only log of clear and draw
  events, and what each canvas shows.
- `canvas.dfy` (module `Canvas`): class `BouquetCanvas`. Its fields are the component's refs
  (active list, permanent-draw queue, image pool) plus the draw log and the canvas sizes. Its
  methods are the callbacks, and each is proved against the functions above.

All quantities are Dafny `real`s. A `Math.random()` result is a value of type
`Spawning.Unit`, a real in [0, 1).

### Behaviour of the code worth knowing

- Each tick advances every visited bouquet by the fixed step `timeScale`.
- A bouquet leaves the active list only by landing: after its update, `velocity.y > 0` and
  `y >= 0.7 + 0.18 * z`. Nothing else removes it, wherever it is.
- The tick iterates the array that it splices. The bouquet that shifts into a spliced index
  is not updated in that tick (see `Physics.FatesRule`).
- The drawn sprite's top-left corner (before rotation) is placed from the undepth-scaled size
  (`x * W - w / 2`), but the sprite is drawn at the depth-scaled size. It is therefore centred
  on `(x * W, y * H)` at `z = 1` (`Geometry.PlaceAtFullDepth`), and only there
  (`Geometry.CentredOnlyAtFullDepth`).
- If the sign draw is exactly 0.5, `Math.sign` yields 0 and the bouquet does not spin.

## Model

| member | source | states |
|---|---|---|
| `Bouquets.Step` | src/components/BouquetCanvas.tsx:52-57 | x, y, z and rotation each advance by exactly their velocity times 0.005; `velocity.y` rises by exactly 0.35 (gravity times time scale); image, scale and the other velocities are unchanged; z strictly decreases when `velocity.z < 0` |
| `Bouquets.AdvanceVelocity` | src/components/BouquetCanvas.tsx:52-57 | after k updates, `velocity.y` has risen by 0.35 k and the spawn traits are unchanged |
| `Bouquets.NoLandingBeforeApex` | src/components/BouquetCanvas.tsx:57-60 | a bouquet starting with `velocity.y <= -8` (every spawned one) cannot pass the landing test in its first 22 updates |
| `Bouquets.Lands` | src/components/BouquetCanvas.tsx:58-60 | a bouquet still moving up (`velocity.y <= 0`) never lands; at non-negative depth it lands only at or below 0.7 of the canvas height (further characterised by `Physics.SettledHaveLanded`, `Physics.FatesRule` and `Bouquets.NoLandingBeforeApex`) |
| `Physics.Visit` | src/components/BouquetCanvas.tsx:51-65 | one `updateBouquet(active[k], k)`: the list and the queue together keep their size; the prefix before k is untouched; the queue grows by one exactly when the updated bouquet passes the landing test |
| `Physics.VisitConserves` | src/components/BouquetCanvas.tsx:58-63 | one visit discards and duplicates nothing: the multiset of spawn traits of list plus queue is unchanged |
| `Physics.Run` | src/components/BouquetCanvas.tsx:48 | `forEach` from index k over a list that may shrink under it, skipping indices that are gone: keeps the total of active and queued bouquets and only appends to the queue (its outcome is pinned by `Physics.RunPastEnd`, `Physics.RunFrom` and `Physics.ForEachIsTick`) |
| `Physics.ForEachUpdate` | src/components/BouquetCanvas.tsx:47-49 | `fixedUpdate`: keeps the total of active and queued bouquets and only appends to the queue (equal to the reference tick by `Physics.ForEachIsTick`) |
| `Physics.Fates` | src/components/BouquetCanvas.tsx:47-65 | gives one fate (updated, landed or skipped) to each bouquet of the list the tick started with |
| `Physics.FatesRule` | src/components/BouquetCanvas.tsx:48-62 | a bouquet is skipped if and only if the bouquet before it landed; it lands if and only if it was visited and its updated self passes the landing test |
| `Physics.RunPastEnd` | src/components/BouquetCanvas.tsx:48 | `forEach` visits nothing at indices the shortened array no longer has |
| `Physics.RunFrom` | src/components/BouquetCanvas.tsx:48-63 | from any point of the iteration, the rest of the `forEach` produces the per-fate outcome on the untouched remainder |
| `Physics.ForEachIsTick` | src/components/BouquetCanvas.tsx:47-65 | `fixedUpdate` as written (a `forEach` whose callback splices the array) equals the reference tick: kept bouquets in original order, landed ones appended to the queue in original order |
| `Physics.TickConserves` | src/components/BouquetCanvas.tsx:58-63 | a tick keeps the total count of active and queued bouquets and the multiset of their spawn traits: nothing is discarded or duplicated |
| `Physics.SettledHaveLanded` | src/components/BouquetCanvas.tsx:58-63 | every bouquet a tick appends to the queue satisfies `velocity.y > 0` and `y >= 0.7 + 0.18 z` |
| `Physics.TickKeepsFalling` | src/components/BouquetCanvas.tsx:54 | if every active and queued bouquet has negative `velocity.z`, so does every one after a tick |
| `Geometry.BaseWidth` | src/components/BouquetCanvas.tsx:99-100 | the base width lies in [130, 200]; it equals canvas width × 0.1 × scale when that is in range, otherwise the nearer bound |
| `Geometry.BaseHeight` | src/components/BouquetCanvas.tsx:101 | height × naturalWidth = width × naturalHeight, so the aspect ratio is preserved; non-negative for a non-negative width |
| `Geometry.Place` | src/components/BouquetCanvas.tsx:99-112 | the drawn size is (w z, h z); the image is centred on the translated origin and turned by the bouquet's rotation; the drawn sprite's top-left corner (before rotation) is at (x W − w/2, y H − h/2), an offset computed from the undepth-scaled size |
| `Geometry.PlaceKeepsAspect` | src/components/BouquetCanvas.tsx:99-103 | the drawn rectangle keeps the image's aspect ratio and, for z ≥ 0, is between 130 z and 200 z wide |
| `Geometry.PlaceAtFullDepth` | src/components/BouquetCanvas.tsx:102-110 | at z = 1 the sprite is centred on (x W, y H) |
| `Geometry.CentredOnlyAtFullDepth` | src/components/BouquetCanvas.tsx:102-110 | if the sprite is horizontally centred on x W, the depth is exactly 1: at every other depth it is off-centre |
| `Spawning.Sign` | src/components/BouquetCanvas.tsx:156 | `Math.sign`: 1, -1 or 0 exactly when the argument is positive, negative or zero |
| `Spawning.PickIndex` | src/components/BouquetCanvas.tsx:139-142 | `Math.floor(r * n)` is a valid index below n, with index ≤ r n < index + 1 |
| `Spawning.NewBouquet` | src/components/BouquetCanvas.tsx:139-159 | the image is one of the loaded images; y = z = 1; x and rotation in [0, 1); scale in [1.5, 1.9); `velocity.y` in (-10, -8]; `velocity.z` in (-2.2, -1.5]; `velocity.x` is 4 (0.5 − x) plus jitter in [-1.2, 1.2); spin magnitude in [20, 50), with its sign set by the sign draw (0 at exactly 0.5) |
| `DrawLog.DrawAll` | src/components/BouquetCanvas.tsx:90 | `forEach(renderBouquet)` yields one event per bouquet, each a draw on the given canvas (positions and placements pinned by `DrawLog.DrawAllAt`) |
| `DrawLog.DrawAllAt` | src/components/BouquetCanvas.tsx:90 | a list drawn with `forEach(renderBouquet)` gives exactly one draw per bouquet, in list order, at that bouquet's own placement |
| `DrawLog.DrawAllSnoc` | src/components/BouquetCanvas.tsx:93 | drawing one more bouquet appends exactly one draw event |
| `DrawLog.ShownAfterDrawAll` | src/components/BouquetCanvas.tsx:90-93 | draws on one canvas add to what that canvas shows and leave the other canvas alone |
| `DrawLog.RenderLog` | src/components/BouquetCanvas.tsx:88-93 | `render` only appends to the log: one clear of the ephemeral canvas, then one permanent draw per queued bouquet, then one ephemeral draw per active bouquet (what each canvas then shows: `DrawLog.RenderShows`) |
| `DrawLog.RenderShows` | src/components/BouquetCanvas.tsx:88-93 | after a render the ephemeral canvas shows exactly the active list, in order; the permanent canvas shows what it showed before, then each queued bouquet once, in queue order |
| `DrawLog.NeverClearedShowsAll` | src/components/BouquetCanvas.tsx:88-90 | a canvas that is never cleared shows every draw ever made on it; `render` never clears the permanent canvas (a resize does, see "## Left out") |
| `Canvas.BouquetCanvas.constructor` | src/components/BouquetCanvas.tsx:38-44 | the refs start empty (no bouquets, empty queue, image pool null) and nothing has been drawn |
| `Canvas.BouquetCanvas.ImagesLoaded` | src/components/BouquetCanvas.tsx:176-184 | the image pool becomes the non-empty list of images |
| `Canvas.BouquetCanvas.UpdateBouquet` | src/components/BouquetCanvas.tsx:51-65 | the new active list and queue are exactly `Visit` of the old ones; every bouquet still sinks in depth |
| `Canvas.BouquetCanvas.FixedUpdate` | src/components/BouquetCanvas.tsx:47-49 | the loop over indices 0 to the original length - 1, skipping indices that are gone, leaves exactly `Tick` of the old active list and queue |
| `Canvas.BouquetCanvas.RenderBouquet` | src/components/BouquetCanvas.tsx:96-114 | appends exactly one draw of the bouquet at its placement on that canvas; no bouquet, list or queue changes |
| `Canvas.BouquetCanvas.Render` | src/components/BouquetCanvas.tsx:85-94 | the queue is empty afterwards; the active list is unchanged; the log gains the ephemeral clear, then one permanent draw per queued bouquet in queue order, then one ephemeral draw per active bouquet in list order |
| `Canvas.BouquetCanvas.DrainQueue` | src/components/BouquetCanvas.tsx:90-91 | each queued bouquet is drawn once on the permanent canvas, in queue order, and the queue becomes empty |
| `Canvas.BouquetCanvas.DrawActive` | src/components/BouquetCanvas.tsx:93 | each active bouquet is drawn once on the ephemeral canvas, in list order |
| `Canvas.BouquetCanvas.SpawnBouquet` | src/components/BouquetCanvas.tsx:137-160 | with a null image pool nothing changes; otherwise exactly one bouquet, `NewBouquet` of the draws, is appended at the end of the active list |

## Left out

- Scheduling is left out: the 30 Hz `setInterval` (line 67), the `requestAnimationFrame` loop and its cancellation (lines 116-133), and the 250 ms `setTimeout` spawn loop (lines 162-173). Each callback is one method call, and callers choose the interleaving.
- React hooks, refs and effect cleanup are left out as a mechanism. The refs are fields of the class.
- The `ResizeObserver` (lines 73-82) is not modelled. It assigns the container's size to `width`/`height` of both canvases, and assigning those resets a canvas's bitmap. So every resize wipes both canvases, including the pile of landed bouquets on the permanent one. The model fixes the sizes once, in the constructor, and has no event for this wipe: "what the permanent canvas shows" holds only between resizes.
- Asynchronous image loading (lines 176-191) is not modelled. `ImagesLoaded` sets the final list of images. The ref is briefly an empty array while the `Image` objects are created, but that happens synchronously, so `spawnBouquet` never sees it. `Valid()` therefore requires a set pool to be non-empty.
- Canvas 2D calls are reduced to log events. `save`/`translate`/`rotate`/`drawImage`/`restore` become one `Drawn` event carrying the translation, rotation and rectangle, and `clearRect` becomes a `Cleared` event. Pixels, compositing, and drawing with a negative size are not modelled.
- Floating point is not modelled: all arithmetic is on reals, and `Math.floor(Math.random() * n)` is computed exactly.
- Object identity is not modelled: bouquets are values. Each bouquet object is referenced from exactly one of the active list and the queue, so updating it in place is equivalent to replacing the list element.
- `Canvas.BouquetCanvas.FixedUpdate`, `Canvas.BouquetCanvas.Render`, `Canvas.BouquetCanvas.UpdateBouquet`, `Canvas.BouquetCanvas.DrainQueue`, `Canvas.BouquetCanvas.DrawActive`, `Canvas.BouquetCanvas.RenderBouquet`, `Canvas.BouquetCanvas.SpawnBouquet` and `Canvas.BouquetCanvas.ImagesLoaded` state their new state in terms of the old one. Their properties are proved about the functions they are tied to.
- src/constants/gameLoop.ts (a frame clock computing `now - previousTime`, not called by the component) and src/pages/index.tsx (page markup) are not part of this model.
