/** The physics tick: `fixedUpdate` runs `updateBouquet` over the active list with
    `Array.prototype.forEach`, and `updateBouquet` may splice the list it is iterating. */
module Physics {
  import opened Bouquets

  /** The active list and the permanent-draw queue, as one value. */
  datatype Store = Store(active: seq<Bouquet>, queue: seq<Bouquet>)

  /** `updateBouquet(active[k], k)`: update the bouquet at index `k`; if it now lands, splice
      it out of the active list and push it onto the queue. */
  function Visit(st: Store, k: nat): (r: Store)
    requires k < |st.active|
    ensures |r.active| + |r.queue| == |st.active| + |st.queue|
    ensures k <= |r.active| && r.active[..k] == st.active[..k]
    ensures Lands(Step(st.active[k])) <==> |r.queue| == |st.queue| + 1
    ensures st.queue <= r.queue
  {
    var b := Step(st.active[k]);
    if Lands(b) then Store(st.active[..k] + st.active[k+1..], st.queue + [b])
    else Store(st.active[k := b], st.queue)
  }

  /** One visit discards and duplicates nothing: the spliced bouquet moves to the queue. */
  lemma VisitConserves(st: Store, k: nat)
    requires k < |st.active|
    ensures TraitBag(Visit(st, k).active) + TraitBag(Visit(st, k).queue)
         == TraitBag(st.active) + TraitBag(st.queue)
  {
    var b := Step(st.active[k]);
    var s := st.active;
    assert s == s[..k] + [s[k]] + s[k+1..];
    TraitBagAppend(s[..k] + [s[k]], s[k+1..]);
    TraitBagAppend(s[..k], [s[k]]);
    assert TraitBag([s[k]]) == multiset{TraitsOf(s[k])};
    assert TraitBag([b]) == multiset{TraitsOf(b)};
    if Lands(b) {
      TraitBagAppend(s[..k], s[k+1..]);
      TraitBagAppend(st.queue, [b]);
    } else {
      assert s[k := b] == s[..k] + [b] + s[k+1..];
      TraitBagAppend(s[..k] + [b], s[k+1..]);
      TraitBagAppend(s[..k], [b]);
    }
  }

  /** `forEach` from index `k` on, over a list whose length was `n` when it started: an index
      that is no longer present is skipped; the list may shrink under the iteration. */
  function Run(st: Store, k: nat, n: nat): (r: Store)
    ensures |r.active| + |r.queue| == |st.active| + |st.queue|
    ensures st.queue <= r.queue
    decreases n - k
  {
    if k >= n then st
    else if k < |st.active| then Run(Visit(st, k), k + 1, n)
    else Run(st, k + 1, n)
  }

  /** `fixedUpdate`. */
  function ForEachUpdate(st: Store): (r: Store)
    ensures |r.active| + |r.queue| == |st.active| + |st.queue|
    ensures st.queue <= r.queue
  {
    Run(st, 0, |st.active|)
  }

  /** What one tick does to each bouquet of the list it started with. */
  datatype Fate = Updated | Landed | Skipped

  /** The fate of each bouquet, by its index in the list at the start of the tick: a bouquet
      is updated and kept, updated and landed, or, when it sits just after a bouquet that
      landed, shifted into the spliced index and never visited. */
  function Fates(s: seq<Bouquet>): (r: seq<Fate>)
    ensures |r| == |s|
  {
    if s == [] then []
    else if Lands(Step(s[0])) then
      if |s| == 1 then [Landed] else [Landed, Skipped] + Fates(s[2..])
    else [Updated] + Fates(s[1..])
  }

  /** The bouquets that stay active, in their original order: updated ones stepped, skipped
      ones untouched. */
  function Kept(s: seq<Bouquet>, f: seq<Fate>): (r: seq<Bouquet>)
    requires |f| == |s|
    ensures |r| <= |s|
  {
    if s == [] then [] else KeptHead(s[0], f[0]) + Kept(s[1..], f[1..])
  }

  /** What stays active of one bouquet with the given fate. */
  function KeptHead(b: Bouquet, fate: Fate): seq<Bouquet> {
    match fate
    case Updated => [Step(b)]
    case Skipped => [b]
    case Landed => []
  }

  /** What one bouquet with the given fate adds to the queue. */
  function SettledHead(b: Bouquet, fate: Fate): seq<Bouquet> {
    if fate == Landed then [Step(b)] else []
  }

  /** The bouquets that land, after their update, in their original order. */
  function Settled(s: seq<Bouquet>, f: seq<Fate>): (r: seq<Bouquet>)
    requires |f| == |s|
    ensures |r| <= |s|
  {
    if s == [] then [] else SettledHead(s[0], f[0]) + Settled(s[1..], f[1..])
  }

  /** The reference outcome of a tick: the kept bouquets become the active list, the landed
      ones are appended to the queue. */
  function Tick(st: Store): Store {
    var f := Fates(st.active);
    Store(Kept(st.active, f), st.queue + Settled(st.active, f))
  }

  /** The skipping rule: a bouquet is skipped exactly when the one before it landed, and it
      lands exactly when it was visited and its updated self passes the landing test. */
  lemma {:induction false} FatesRule(s: seq<Bouquet>, i: nat)
    requires i < |s|
    ensures Fates(s)[i] == Skipped <==> (i > 0 && Fates(s)[i - 1] == Landed)
    ensures Fates(s)[i] == Landed <==> ((i == 0 || Fates(s)[i - 1] != Landed) && Lands(Step(s[i])))
  {
    if Lands(Step(s[0])) && |s| > 1 {
      assert Fates(s) == [Landed, Skipped] + Fates(s[2..]);
      if i >= 2 {
        FatesRule(s[2..], i - 2);
      }
    } else if !Lands(Step(s[0])) {
      assert Fates(s) == [Updated] + Fates(s[1..]);
      if i >= 1 {
        FatesRule(s[1..], i - 1);
      }
    }
  }

  /** Past the end of the (possibly shortened) list, `forEach` visits nothing more. */
  lemma {:induction false} RunPastEnd(st: Store, k: nat, n: nat)
    requires k >= |st.active|
    ensures Run(st, k, n) == st
    decreases n - k
  {
    if k < n {
      RunPastEnd(st, k + 1, n);
    }
  }

  /** Visiting the first untouched bouquet, at index `|done|`. */
  lemma VisitNext(done: seq<Bouquet>, rest: seq<Bouquet>, q: seq<Bouquet>)
    requires rest != []
    ensures var b := Step(rest[0]);
      Visit(Store(done + rest, q), |done|)
        == if Lands(b) then Store(done + rest[1..], q + [b]) else Store((done + [b]) + rest[1..], q)
  {
    var s := done + rest;
    var k := |done|;
    assert s[k] == rest[0];
    assert s[..k] == done;
    assert s[k+1..] == rest[1..];
    assert s[k := Step(rest[0])] == (done + [Step(rest[0])]) + rest[1..];
  }

  lemma FatesOfKept(s: seq<Bouquet>)
    requires s != []
    ensures !Lands(Step(s[0])) ==> Fates(s) == [Updated] + Fates(s[1..])
  {
  }

  lemma FatesOfLanded(s: seq<Bouquet>)
    requires |s| > 1
    ensures Lands(Step(s[0])) ==> Fates(s) == [Landed, Skipped] + Fates(s[2..])
  {
  }

  lemma KeptSettledCons(s: seq<Bouquet>, f: seq<Fate>)
    requires |f| == |s| && s != []
    ensures Kept(s, f) == KeptHead(s[0], f[0]) + Kept(s[1..], f[1..])
    ensures Settled(s, f) == SettledHead(s[0], f[0]) + Settled(s[1..], f[1..])
  {
  }

  /** The reference outcome unfolded over a first bouquet that stays. */
  lemma UnfoldKept(s: seq<Bouquet>)
    requires s != []
    ensures !Lands(Step(s[0])) ==>
      Kept(s, Fates(s)) == [Step(s[0])] + Kept(s[1..], Fates(s[1..]))
      && Settled(s, Fates(s)) == Settled(s[1..], Fates(s[1..]))
  {
    FatesOfKept(s);
    KeptSettledCons(s, Fates(s));
  }

  /** The reference outcome unfolded over a first bouquet that lands and the one it skips. */
  lemma UnfoldLanded(s: seq<Bouquet>)
    requires |s| > 1
    ensures Lands(Step(s[0])) ==>
      Kept(s, Fates(s)) == [s[1]] + Kept(s[2..], Fates(s[2..]))
      && Settled(s, Fates(s)) == [Step(s[0])] + Settled(s[2..], Fates(s[2..]))
  {
    var f := Fates(s);
    FatesOfLanded(s);
    KeptSettledCons(s, f);
    KeptSettledCons(s[1..], f[1..]);
    assert s[1..][1..] == s[2..];
  }

  /** One iteration of `forEach` at a present index. */
  lemma RunStep(st: Store, k: nat, n: nat)
    requires k < n && k < |st.active|
    ensures Run(st, k, n) == Run(Visit(st, k), k + 1, n)
  {
  }

  /** With `done` already visited and `rest` the untouched remainder of the original list,
      the rest of the `forEach` produces the reference outcome on `rest`. */
  lemma {:induction false} RunFrom(done: seq<Bouquet>, rest: seq<Bouquet>, q: seq<Bouquet>, n: nat)
    requires |done| + |rest| <= n
    ensures Run(Store(done + rest, q), |done|, n)
         == Store(done + Kept(rest, Fates(rest)), q + Settled(rest, Fates(rest)))
    decreases |rest|
  {
    if rest == [] {
      assert done + rest == done;
      RunPastEnd(Store(done, q), |done|, n);
    } else if Lands(Step(rest[0])) {
      RunFromLanded(done, rest, q, n);
    } else {
      RunFromKept(done, rest, q, n);
    }
  }

  lemma {:induction false} RunFromKept(done: seq<Bouquet>, rest: seq<Bouquet>, q: seq<Bouquet>, n: nat)
    requires |done| + |rest| <= n && rest != [] && !Lands(Step(rest[0]))
    ensures Run(Store(done + rest, q), |done|, n)
         == Store(done + Kept(rest, Fates(rest)), q + Settled(rest, Fates(rest)))
    decreases |rest|, 0
  {
    var b := Step(rest[0]);
    var done' := done + [b];
    var st := Store(done + rest, q);
    var st' := Store(done' + rest[1..], q);
    VisitNext(done, rest, q);
    assert Visit(st, |done|) == st';
    RunStep(st, |done|, n);
    assert Run(st, |done|, n) == Run(st', |done'|, n);
    RunFrom(done', rest[1..], q, n);
    var kept := Kept(rest[1..], Fates(rest[1..]));
    var settled := Settled(rest[1..], Fates(rest[1..]));
    assert Run(st', |done'|, n) == Store(done' + kept, q + settled);
    UnfoldKept(rest);
    assert Kept(rest, Fates(rest)) == [b] + kept;
    ConsAssoc(done, b, kept);
  }

  lemma {:induction false} RunFromLanded(done: seq<Bouquet>, rest: seq<Bouquet>, q: seq<Bouquet>, n: nat)
    requires |done| + |rest| <= n && rest != [] && Lands(Step(rest[0]))
    ensures Run(Store(done + rest, q), |done|, n)
         == Store(done + Kept(rest, Fates(rest)), q + Settled(rest, Fates(rest)))
    decreases |rest|, 0
  {
    if |rest| == 1 {
      RunFromLastLanded(done, rest, q, n);
    } else {
      var b := Step(rest[0]);
      var st := Store(done + rest, q);
      var done' := done + [rest[1]];
      var st' := Store(done' + rest[2..], q + [b]);
      VisitNext(done, rest, q);
      assert done + rest[1..] == done' + rest[2..];
      assert Visit(st, |done|) == st';
      RunStep(st, |done|, n);
      assert Run(st, |done|, n) == Run(st', |done'|, n);
      RunFrom(done', rest[2..], q + [b], n);
      var kept := Kept(rest[2..], Fates(rest[2..]));
      var settled := Settled(rest[2..], Fates(rest[2..]));
      assert Run(st', |done'|, n) == Store(done' + kept, (q + [b]) + settled);
      UnfoldLanded(rest);
      assert Kept(rest, Fates(rest)) == [rest[1]] + kept;
      assert Settled(rest, Fates(rest)) == [b] + settled;
      ConsAssoc(done, rest[1], kept);
      ConsAssoc(q, b, settled);
    }
  }

  /** The last bouquet of the list lands: nothing is left to visit. */
  lemma RunFromLastLanded(done: seq<Bouquet>, rest: seq<Bouquet>, q: seq<Bouquet>, n: nat)
    requires |done| + 1 <= n && |rest| == 1 && Lands(Step(rest[0]))
    ensures Run(Store(done + rest, q), |done|, n)
         == Store(done + Kept(rest, Fates(rest)), q + Settled(rest, Fates(rest)))
  {
    var b := Step(rest[0]);
    var st := Store(done + rest, q);
    var st' := Store(done, q + [b]);
    VisitNext(done, rest, q);
    assert done + rest[1..] == done;
    assert Visit(st, |done|) == st';
    RunStep(st, |done|, n);
    RunPastEnd(st', |done| + 1, n);
    FatesOfOne(rest);
    KeptSettledCons(rest, Fates(rest));
    assert Kept(rest, Fates(rest)) == [] && Settled(rest, Fates(rest)) == [b];
    assert done + [] == done;
  }

  lemma ConsAssoc(a: seq<Bouquet>, x: Bouquet, b: seq<Bouquet>)
    ensures (a + [x]) + b == a + ([x] + b)
  {
  }

  lemma FatesOfOne(s: seq<Bouquet>)
    requires |s| == 1
    ensures Lands(Step(s[0])) ==> Fates(s) == [Landed]
  {
  }

  /** `fixedUpdate` as written (a `forEach` that splices) has exactly the outcome the fates
      describe. */
  lemma ForEachIsTick(st: Store)
    ensures ForEachUpdate(st) == Tick(st)
  {
    assert [] + st.active == st.active;
    RunFrom([], st.active, st.queue, |st.active|);
  }

  /** The kept and landed bouquets together carry exactly the traits of the original list. */
  lemma {:induction false} KeptSettledTraits(s: seq<Bouquet>, f: seq<Fate>)
    requires |f| == |s|
    ensures TraitBag(Kept(s, f)) + TraitBag(Settled(s, f)) == TraitBag(s)
  {
    if s != [] {
      var kept, settled := Kept(s[1..], f[1..]), Settled(s[1..], f[1..]);
      var kh, sh := KeptHead(s[0], f[0]), SettledHead(s[0], f[0]);
      KeptSettledTraits(s[1..], f[1..]);
      KeptSettledCons(s, f);
      TraitBagAppend(kh, kept);
      TraitBagAppend(sh, settled);
      HeadTraits(s[0], f[0]);
      assert TraitBag(s) == multiset{TraitsOf(s[0])} + TraitBag(s[1..]);
      calc {
        TraitBag(Kept(s, f)) + TraitBag(Settled(s, f));
        (TraitBag(kh) + TraitBag(kept)) + (TraitBag(sh) + TraitBag(settled));
        (TraitBag(kh) + TraitBag(sh)) + (TraitBag(kept) + TraitBag(settled));
        multiset{TraitsOf(s[0])} + TraitBag(s[1..]);
      }
    }
  }

  /** Whatever its fate, one bouquet ends up, with its traits, in exactly one of the lists. */
  lemma HeadTraits(b: Bouquet, fate: Fate)
    ensures TraitBag(KeptHead(b, fate)) + TraitBag(SettledHead(b, fate)) == multiset{TraitsOf(b)}
  {
    assert [b][1..] == [] && [Step(b)][1..] == [];
  }

  /** A tick discards and duplicates nothing: the active list and the queue together hold as
      many bouquets as before, with the same spawn traits. */
  lemma TickConserves(st: Store)
    ensures |Tick(st).active| + |Tick(st).queue| == |st.active| + |st.queue|
    ensures TraitBag(Tick(st).active) + TraitBag(Tick(st).queue)
         == TraitBag(st.active) + TraitBag(st.queue)
  {
    var f := Fates(st.active);
    KeptSettledTraits(st.active, f);
    TraitBagAppend(st.queue, Settled(st.active, f));
    KeptSettledCount(st.active, f);
  }

  lemma {:induction false} KeptSettledCount(s: seq<Bouquet>, f: seq<Fate>)
    requires |f| == |s|
    ensures |Kept(s, f)| + |Settled(s, f)| == |s|
  {
    if s != [] {
      KeptSettledCount(s[1..], f[1..]);
    }
  }

  /** Every bouquet a tick appends to the queue passed the landing test after its update. */
  lemma {:induction false} SettledHaveLanded(s: seq<Bouquet>, f: seq<Fate>, i: nat)
    requires f == Fates(s) && i < |Settled(s, f)|
    ensures Lands(Settled(s, f)[i])
    decreases |s|
  {
    if Lands(Step(s[0])) {
      if |s| == 1 {
        assert Settled(s, f) == [Step(s[0])];
      } else {
        var t := Fates(s[2..]);
        assert f == [Landed, Skipped] + t;
        assert s[1..][1..] == s[2..] && f[1..][1..] == t;
        assert Settled(s, f) == [Step(s[0])] + Settled(s[2..], t);
        if i > 0 {
          SettledHaveLanded(s[2..], t, i - 1);
        }
      }
    } else {
      assert f[1..] == Fates(s[1..]);
      assert Settled(s, f) == Settled(s[1..], f[1..]);
      SettledHaveLanded(s[1..], f[1..], i);
    }
  }

  /** A tick keeps every bouquet sinking in depth (their depth velocity never changes). */
  lemma {:induction false} FatesKeepFalling(s: seq<Bouquet>, f: seq<Fate>)
    requires |f| == |s| && Falling(s)
    ensures Falling(Kept(s, f)) && Falling(Settled(s, f))
  {
    if s != [] {
      assert Falling(s[1..]);
      FatesKeepFalling(s[1..], f[1..]);
    }
  }

  lemma TickKeepsFalling(st: Store)
    requires Falling(st.active) && Falling(st.queue)
    ensures Falling(Tick(st).active) && Falling(Tick(st).queue)
  {
    FatesKeepFalling(st.active, Fates(st.active));
  }
}
