/** The two canvases as one append-only log of the 2D-context calls made on them. */
module DrawLog {
  import opened Bouquets
  import opened Geometry

  /** The canvas cleared every frame, and the one that is never cleared. */
  datatype Surface = Ephemeral | Permanent

  datatype Event =
    | Cleared(surface: Surface)
    | Drawn(surface: Surface, bouquet: Bouquet, sprite: Sprite)

  /** The events `forEach(renderBouquet)` appends for `bs` on a canvas of the given size. */
  function DrawAll(surface: Surface, width: nat, height: nat, bs: seq<Bouquet>): (r: seq<Event>)
    ensures |r| == |bs|
    ensures forall i :: 0 <= i < |r| ==> r[i].Drawn? && r[i].surface == surface
  {
    if bs == [] then []
    else [Drawn(surface, bs[0], Place(width, height, bs[0]))] + DrawAll(surface, width, height, bs[1..])
  }

  /** Each bouquet is drawn exactly once, in list order, at its own placement. */
  lemma {:induction false} DrawAllAt(surface: Surface, width: nat, height: nat, bs: seq<Bouquet>, i: nat)
    requires i < |bs|
    ensures |DrawAll(surface, width, height, bs)| == |bs|
    ensures DrawAll(surface, width, height, bs)[i] == Drawn(surface, bs[i], Place(width, height, bs[i]))
  {
    if i > 0 {
      DrawAllAt(surface, width, height, bs[1..], i - 1);
    }
  }

  /** Drawing one more bouquet appends one event. */
  lemma {:induction false} DrawAllSnoc(surface: Surface, width: nat, height: nat, bs: seq<Bouquet>, b: Bouquet)
    ensures DrawAll(surface, width, height, bs + [b])
         == DrawAll(surface, width, height, bs) + [Drawn(surface, b, Place(width, height, b))]
  {
    if bs != [] {
      assert (bs + [b])[1..] == bs[1..] + [b];
      DrawAllSnoc(surface, width, height, bs[1..], b);
    } else {
      assert [] + [b] == [b];
    }
  }

  /** What a surface shows: the draws made on it since it was last cleared, oldest first. */
  function Shown(log: seq<Event>, surface: Surface): seq<Event> {
    if log == [] then []
    else
      var e := log[|log| - 1];
      var before := Shown(log[..|log| - 1], surface);
      if e.surface != surface then before
      else if e.Cleared? then []
      else before + [e]
  }

  /** The event log `render` appends to: clear the ephemeral canvas, draw the queue onto the
      permanent canvas, then draw the active list onto the ephemeral canvas. */
  function RenderLog(log: seq<Event>, queue: seq<Bouquet>, active: seq<Bouquet>,
                     width: nat, height: nat, permaWidth: nat, permaHeight: nat): (r: seq<Event>)
    // the log is only appended to: one clear, then one draw per queued and per active bouquet
    ensures log <= r && |r| == |log| + 1 + |queue| + |active|
    ensures r[|log|] == Cleared(Ephemeral)
    ensures forall i :: |log| < i <= |log| + |queue| ==> r[i].Drawn? && r[i].surface == Permanent
    ensures forall i :: |log| + |queue| < i < |r| ==> r[i].Drawn? && r[i].surface == Ephemeral
  {
    log + [Cleared(Ephemeral)] + DrawAll(Permanent, permaWidth, permaHeight, queue)
        + DrawAll(Ephemeral, width, height, active)
  }

  /** Draw events of one surface add to what that surface shows and leave the other alone. */
  lemma {:induction false} ShownAfterDrawAll(log: seq<Event>, surface: Surface, on: Surface,
                                             width: nat, height: nat, bs: seq<Bouquet>)
    ensures Shown(log + DrawAll(on, width, height, bs), surface)
         == if surface == on then Shown(log, surface) + DrawAll(on, width, height, bs)
            else Shown(log, surface)
    decreases |bs|
  {
    if bs == [] {
      assert log + [] == log;
    } else {
      var init := bs[..|bs| - 1];
      var last := bs[|bs| - 1];
      var e := Drawn(on, last, Place(width, height, last));
      assert init + [last] == bs;
      DrawAllSnoc(on, width, height, init, last);
      var log' := log + DrawAll(on, width, height, init);
      assert log + DrawAll(on, width, height, bs) == log' + [e];
      assert (log' + [e])[..|log' + [e]| - 1] == log';
      ShownAfterDrawAll(log, surface, on, width, height, init);
    }
  }

  /** After a render, the ephemeral canvas shows exactly the active list, in order; the
      permanent canvas shows what it showed before followed by the queue, in order. */
  lemma RenderShows(log: seq<Event>, queue: seq<Bouquet>, active: seq<Bouquet>,
                    width: nat, height: nat, permaWidth: nat, permaHeight: nat)
    ensures Shown(RenderLog(log, queue, active, width, height, permaWidth, permaHeight), Ephemeral)
         == DrawAll(Ephemeral, width, height, active)
    ensures Shown(RenderLog(log, queue, active, width, height, permaWidth, permaHeight), Permanent)
         == Shown(log, Permanent) + DrawAll(Permanent, permaWidth, permaHeight, queue)
  {
    var cleared := log + [Cleared(Ephemeral)];
    assert cleared[..|cleared| - 1] == log;
    assert Shown(cleared, Ephemeral) == [];
    assert Shown(cleared, Permanent) == Shown(log, Permanent);
    var mid := cleared + DrawAll(Permanent, permaWidth, permaHeight, queue);
    ShownAfterDrawAll(cleared, Ephemeral, Permanent, permaWidth, permaHeight, queue);
    ShownAfterDrawAll(cleared, Permanent, Permanent, permaWidth, permaHeight, queue);
    ShownAfterDrawAll(mid, Ephemeral, Ephemeral, width, height, active);
    ShownAfterDrawAll(mid, Permanent, Ephemeral, width, height, active);
    assert [] + DrawAll(Ephemeral, width, height, active) == DrawAll(Ephemeral, width, height, active);
  }

  /** Every draw ever made on a surface, oldest first. */
  function DrawsOn(log: seq<Event>, surface: Surface): seq<Event> {
    if log == [] then []
    else
      var e := log[|log| - 1];
      DrawsOn(log[..|log| - 1], surface) + (if e.Drawn? && e.surface == surface then [e] else [])
  }

  /** A surface that is never cleared shows every draw ever made on it. */
  lemma {:induction false} NeverClearedShowsAll(log: seq<Event>, surface: Surface)
    requires forall i :: 0 <= i < |log| ==> log[i] != Cleared(surface)
    ensures Shown(log, surface) == DrawsOn(log, surface)
  {
    if log != [] {
      NeverClearedShowsAll(log[..|log| - 1], surface);
    }
  }
}
