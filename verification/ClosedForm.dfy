/**
 * The state a delivery ends with, written down from its events alone: which positions are open, which
 * closes wait, and what the balance is, with no reference to any order of application.
 */
module ClosedForm {
  import opened Options
  import opened Events
  import opened Pack
  import opened Ledger
  import opened Judge
  import opened AtLeastOnce
  import opened Confluence

  predicate GoodFill(e: Event, order: string) {
    e.OrderFilled? && e.orderId == order && e.fillPx.Some?
  }

  predicate CloseFor(e: Event, order: string) {
    e.TradeClosed? && e.orderId == order
  }

  predicate GoodClose(e: Event, order: string) {
    CloseFor(e, order) && e.exitPx.Some?
  }

  ghost predicate Filled(evs: seq<Event>, order: string) {
    exists e <- evs :: GoodFill(e, order)
  }

  ghost predicate Closed(evs: seq<Event>, order: string) {
    exists e <- evs :: GoodClose(e, order)
  }

  /** An order's slot, from the events delivered. */
  ghost predicate SlotIs(s: Slot, evs: seq<Event>, order: string) {
    && (s.pos.Some? <==> Filled(evs, order) && !Closed(evs, order))
    && (s.pos.Some? ==> exists e <- evs :: GoodFill(e, order) && s.pos.value == PositionOf(e))
    && (s.close.Some? ==> s.close.value in evs && s.close.value.orderId == order)
    && (s.close.Some? <==> !Filled(evs, order) && exists e <- evs :: CloseFor(e, order))
  }

  lemma FilledSnoc(evs: seq<Event>, e: Event, order: string)
    ensures Filled(evs + [e], order) <==> Filled(evs, order) || GoodFill(e, order)
    ensures Closed(evs + [e], order) <==> Closed(evs, order) || GoodClose(e, order)
    ensures (exists x <- evs + [e] :: CloseFor(x, order)) <==>
            CloseFor(e, order) || exists x <- evs :: CloseFor(x, order)
  {
    assert e in evs + [e];
    assert forall x <- evs :: x in evs + [e];
  }

  /** Nothing else in an `Apart` stream competes with its last event. */
  lemma LastIsUnique(v: View, evs: seq<Event>, e: Event)
    requires Apart(v, evs + [e])
    ensures forall x <- evs :: NoClash(x, e)
  {
    var all := evs + [e];
    forall x | x in evs ensures NoClash(x, e) {
      var i :| 0 <= i < |evs| && evs[i] == x;
      assert all[i] == x && all[|evs|] == e;
    }
  }

  lemma {:induction false} SlotFromEvents(cfg: Settings, v: View, evs: seq<Event>, order: string)
    requires v.slots == map[] && Apart(v, evs)
    ensures SlotIs(ViewRun(cfg, v, evs).At(order), evs, order)
  {
    hide ViewRun, Apart, NewTo, Gain, Mismatch;
    if evs == [] {
      assert ViewRun(cfg, v, []) == v by { EmptyRun(cfg, v); }
    } else {
      var init, e := evs[..|evs| - 1], evs[|evs| - 1];
      assert evs == init + [e];
      ViewRunSnoc(cfg, v, init, e);
      SlotFromEvents(cfg, v, init, order);
      FilledSnoc(init, e, order);
      LastIsUnique(v, init, e);
      ApartHasOneClose(v, init, order);
      SlotSnoc(cfg, ViewRun(cfg, v, init), init, e, order);
    }
  }

  lemma EmptyRun(cfg: Settings, v: View)
    ensures ViewRun(cfg, v, []) == v
  {
  }

  lemma SlotSnoc(cfg: Settings, v: View, evs: seq<Event>, e: Event, order: string)
    requires SlotIs(v.At(order), evs, order) && OneClose(evs, order) && forall x <- evs :: NoClash(x, e)
    ensures SlotIs(ViewStep(cfg, v, e).At(order), evs + [e], order)
  {
    hide Gain, Mismatch, Filled, Closed;
    FilledSnoc(evs, e, order);
    var s := v.At(order);
    assert e in evs + [e] && forall x <- evs :: x in evs + [e];
    if Trade(e) && e.orderId == order {
      assert GoodFill(e, order) ==> !Filled(evs, order) by { if Filled(evs, order) { FilledOnce(evs, e, order); } }
      assert e.TradeClosed? ==> forall x <- evs :: !CloseFor(x, order);
      assert e.TradeClosed? ==> !Closed(evs, order) by {
        if Closed(evs, order) && e.TradeClosed? { ClosedOnce(evs, e, order); }
      }
      if s.close.Some? {
        WaitingIsTheClose(s, evs, order);
      }
      ClosedHasClose(evs, order);
    }
  }

  lemma ClosedHasClose(evs: seq<Event>, order: string)
    ensures Closed(evs, order) ==> exists x <- evs :: CloseFor(x, order)
  {
    if e :| e in evs && GoodClose(e, order) {
      assert CloseFor(e, order);
    }
  }

  lemma FilledOnce(evs: seq<Event>, e: Event, order: string)
    requires Filled(evs, order) && forall x <- evs :: NoClash(x, e)
    ensures !GoodFill(e, order)
  {
  }

  lemma ClosedOnce(evs: seq<Event>, e: Event, order: string)
    requires Closed(evs, order) && forall x <- evs :: NoClash(x, e)
    ensures !CloseFor(e, order)
  {
  }

  ghost predicate OneClose(evs: seq<Event>, order: string) {
    forall x <- evs, y <- evs :: CloseFor(x, order) && CloseFor(y, order) ==> x == y
  }

  lemma ApartHasOneClose(v: View, evs: seq<Event>, order: string)
    requires Apart(v, evs)
    ensures OneClose(evs, order)
  {
    forall x, y | x in evs && y in evs && CloseFor(x, order) && CloseFor(y, order) ensures x == y {
      var i :| 0 <= i < |evs| && evs[i] == x;
      var j :| 0 <= j < |evs| && evs[j] == y;
      assert i < j ==> NoClash(evs[i], evs[j]);
      assert j < i ==> NoClash(evs[j], evs[i]);
    }
  }

  lemma WaitingIsTheClose(s: Slot, evs: seq<Event>, order: string)
    requires SlotIs(s, evs, order) && OneClose(evs, order) && s.close.Some?
    ensures Closed(evs, order) <==> s.close.value.exitPx.Some?
  {
    assert CloseFor(s.close.value, order);
    assert s.close.value.exitPx.Some? ==> GoodClose(s.close.value, order);
  }

  // ----- the balance -----------------------------------------------------------------------------

  /** The fill of an order among some events. */
  function FillOf(evs: seq<Event>, order: string): (fill: Option<Event>)
    ensures fill.Some? ==> fill.value in evs && GoodFill(fill.value, order)
    ensures fill.None? ==> forall e <- evs :: !GoodFill(e, order)
  {
    if evs == [] then None
    else if GoodFill(evs[|evs| - 1], order) then Some(evs[|evs| - 1])
    else FillOf(evs[..|evs| - 1], order)
  }

  /** The money one event is worth among all events delivered: a close counts once its fill is there. */
  function Worth(evs: seq<Event>, e: Event): real {
    match e
    case OrderFilled(_, _, _, order, _, _, _, _, _, commission) =>
      if GoodFill(e, order) then commission.GetOr(0.0) else 0.0
    case TradeClosed(_, _, _, order, _, _, _, _, _, _, _, _) =>
      if GoodClose(e, order) && FillOf(evs, order).Some? then Gain(PositionOf(FillOf(evs, order).value), e) else 0.0
    case BalanceAdjustment(_, _, _, _, amount, _) => amount.GetOr(0.0)
    case _ => 0.0
  }

  /** The worth of some of the events delivered. */
  function WorthOf(evs: seq<Event>, part: seq<Event>): real {
    if part == [] then 0.0 else WorthOf(evs, part[..|part| - 1]) + Worth(evs, part[|part| - 1])
  }

  /** What a further event adds to the worth of the earlier ones: a fill makes its close count. */
  function Unlocked(evs: seq<Event>, part: seq<Event>, fill: Event): real {
    if part == [] then 0.0
    else
      var e := part[|part| - 1];
      Unlocked(evs, part[..|part| - 1], fill) +
      if fill.OrderFilled? && GoodFill(fill, fill.orderId) && GoodClose(e, fill.orderId)
      then Gain(PositionOf(fill), e) else 0.0
  }

  lemma {:induction false} WorthSnoc(evs: seq<Event>, e: Event, part: seq<Event>)
    requires forall x <- evs :: NoClash(x, e)
    ensures WorthOf(evs + [e], part) == WorthOf(evs, part) + Unlocked(evs, part, e)
  {
    hide Gain;
    if part != [] {
      WorthSnoc(evs, e, part[..|part| - 1]);
      var x := part[|part| - 1];
      assert (evs + [e])[..|evs|] == evs;
      if x.TradeClosed? {
        assert FillOf(evs + [e], x.orderId) == if GoodFill(e, x.orderId) then Some(e) else FillOf(evs, x.orderId);
      }
    }
  }

  /** At most one earlier close is unlocked, the one waiting in the slot. */
  lemma {:induction false} UnlockedIsWaiting(evs: seq<Event>, part: seq<Event>, fill: Event,
                                             waiting: Option<CloseEvent>)
    requires GoodFill(fill, if fill.OrderFilled? then fill.orderId else "")
    requires forall i, j :: 0 <= i < j < |part| ==> NoClash(part[i], part[j])
    requires waiting.Some? ==> CloseFor(waiting.value, fill.orderId)
    requires forall x <- part :: CloseFor(x, fill.orderId) ==> waiting == Some(x)
    ensures Unlocked(evs, part, fill) ==
            if waiting.Some? && waiting.value in part && waiting.value.exitPx.Some?
            then Gain(PositionOf(fill), waiting.value) else 0.0
  {
    hide Gain;
    if part != [] {
      var init, x := part[..|part| - 1], part[|part| - 1];
      UnlockedIsWaiting(evs, init, fill, waiting);
      assert part == init + [x];
      if CloseFor(x, fill.orderId) {
        forall y | y in init ensures !CloseFor(y, fill.orderId) {
          var i :| 0 <= i < |init| && init[i] == y;
          assert NoClash(part[i], part[|part| - 1]);
        }
      }
    }
  }

  lemma {:induction false} NothingUnlocked(evs: seq<Event>, part: seq<Event>, e: Event)
    requires !e.OrderFilled? || e.fillPx.None?
    ensures Unlocked(evs, part, e) == 0.0
  {
    if part != [] {
      NothingUnlocked(evs, part[..|part| - 1], e);
    }
  }

  lemma {:induction false} BalanceFromEvents(cfg: Settings, v: View, evs: seq<Event>)
    requires v.slots == map[] && Apart(v, evs)
    ensures ViewRun(cfg, v, evs).balance == v.balance + WorthOf(evs, evs)
  {
    hide ViewRun, Apart, NewTo, Gain, Mismatch, NoClash;
    if evs == [] {
      EmptyRun(cfg, v);
    } else {
      var init, e := evs[..|evs| - 1], evs[|evs| - 1];
      assert evs == init + [e];
      ViewRunSnoc(cfg, v, init, e);
      BalanceFromEvents(cfg, v, init);
      LastIsUnique(v, init, e);
      WorthSnoc(init, e, init);
      BalanceStep(cfg, v, ViewRun(cfg, v, init), init, e);
    }
  }

  lemma BalanceStep(cfg: Settings, v: View, w: View, evs: seq<Event>, e: Event)
    requires v.slots == map[] && Apart(v, evs + [e]) && w == ViewRun(cfg, v, evs)
    ensures ViewStep(cfg, w, e).balance == w.balance + Unlocked(evs, evs, e) + Worth(evs + [e], e)
  {
    hide ViewRun, Gain, Mismatch, NewTo, NoClash, Filled, Closed, Unlocked;
    ViewRunSnoc(cfg, v, evs, e);
    LastIsUnique(v, evs, e);
    if !e.OrderFilled? || e.fillPx.None? {
      NothingUnlocked(evs, evs, e);
    }
    if Trade(e) {
      SlotFromEvents(cfg, v, evs, e.orderId);
      ApartHasOneClose(v, evs, e.orderId);
      if e.OrderFilled? {
        FillStep(cfg, w, evs, e);
      } else {
        CloseStep(cfg, w, evs, e);
      }
    }
  }

  lemma FillStep(cfg: Settings, w: View, evs: seq<Event>, e: Event)
    requires e.OrderFilled? && NewTo(w, e)
    requires SlotIs(w.At(e.orderId), evs, e.orderId) && OneClose(evs, e.orderId)
    requires forall x <- evs :: NoClash(x, e)
    requires forall i, j :: 0 <= i < j < |evs| ==> NoClash(evs[i], evs[j])
    requires e.fillPx.None? ==> Unlocked(evs, evs, e) == 0.0
    ensures ViewStep(cfg, w, e).balance == w.balance + Unlocked(evs, evs, e) + Worth(evs + [e], e)
  {
    hide Gain, Mismatch, Unlocked;
    if e.fillPx.Some? {
      assert !Filled(evs, e.orderId) by { if Filled(evs, e.orderId) { FilledOnce(evs, e, e.orderId); } }
      UnlockedIsWaiting(evs, evs, e, w.At(e.orderId).close);
    }
  }

  lemma CloseStep(cfg: Settings, w: View, evs: seq<Event>, e: CloseEvent)
    requires NewTo(w, e) && SlotIs(w.At(e.orderId), evs, e.orderId)
    requires forall x <- evs :: NoClash(x, e)
    requires forall i, j :: 0 <= i < j < |evs| ==> NoClash(evs[i], evs[j])
    requires Unlocked(evs, evs, e) == 0.0
    ensures ViewStep(cfg, w, e).balance == w.balance + Worth(evs + [e], e)
  {
    hide Gain, Mismatch, Unlocked;
    assert !Closed(evs, e.orderId) by { if Closed(evs, e.orderId) { ClosedOnce(evs, e, e.orderId); } }
    assert (evs + [e])[..|evs|] == evs;
    assert FillOf(evs + [e], e.orderId) == FillOf(evs, e.orderId);
    var pos := w.At(e.orderId).pos;
    if pos.Some? {
      var f :| f in evs && GoodFill(f, e.orderId) && pos.value == PositionOf(f);
      var g := FillOf(evs, e.orderId).value;
      OneFill(evs, f, g, e.orderId);
    }
  }

  lemma OneFill(evs: seq<Event>, f: Event, g: Event, order: string)
    requires forall i, j :: 0 <= i < j < |evs| ==> NoClash(evs[i], evs[j])
    requires f in evs && g in evs && GoodFill(f, order) && GoodFill(g, order)
    ensures f == g
  {
    var i :| 0 <= i < |evs| && evs[i] == f;
    var j :| 0 <= j < |evs| && evs[j] == g;
  }

  // ----- the whole delivery ----------------------------------------------------------------------

  /**
   * After any well-formed delivery, by membership in the stream alone: a position is open exactly when
   * its fill came and no close of it that parses; a close waits exactly when it came and no fill did;
   * the balance is the start balance plus the worth of the distinct events.
   */
  lemma DeliveredState(p: CompiledPack, account: string, day: string, x: seq<Event>)
    requires WellFormed(x)
    ensures var c := Run(p, FreshAccount(account, p, day), x).account.core;
            var kept := FirstOccurrences(x, {});
            && (forall o :: o in c.book.positions <==> Filled(x, o) && !Closed(x, o))
            && (forall o <- c.book.positions :: exists f <- x :: GoodFill(f, o) && c.book.positions[o] == PositionOf(f))
            && (forall e :: e in c.deferred <==> e in x && e.TradeClosed? && !Filled(x, e.orderId))
            && c.book.balance == p.startBalance + WorthOf(kept, kept)
  {
    hide DedupKey, NoClash, ViewRun, Run, FirstOccurrences, OnePerKey, WorthOf, SlotIs, NewTo;
    var a, v := FreshAccount(account, p, day), View(p.startBalance, map[], 0, 0);
    var kept := FirstOccurrences(x, {});
    FirstOccurrencesAreAll(x);
    DistinctAreApart(kept);
    assert Apart(v, kept) by { FreshIsApart(v, kept); }
    RunsLikeItsView(p, a, v, x);
    BalanceFromEvents(p.Cfg(), v, kept);
    var w, c := ViewRun(p.Cfg(), v, kept), Run(p, a, x).account.core;
    forall o: string ensures SlotIs(w.At(o), x, o) {
      SlotFromEvents(p.Cfg(), v, kept, o);
      SameSlot(w.At(o), kept, x, o);
    }
    ReadState(w, c, x);
  }

  lemma FreshIsApart(v: View, evs: seq<Event>)
    requires v.slots == map[] && forall i, j :: 0 <= i < j < |evs| ==> NoClash(evs[i], evs[j])
    ensures Apart(v, evs)
  {
  }

  lemma SameSlot(s: Slot, evs: seq<Event>, x: seq<Event>, order: string)
    requires SlotIs(s, evs, order) && forall e :: e in evs <==> e in x
    ensures SlotIs(s, x, order)
  {
  }

  lemma ReadState(w: View, c: Core, x: seq<Event>)
    requires Shows(w, c) && forall o: string :: SlotIs(w.At(o), x, o)
    requires WellFormed(x)
    ensures forall o :: o in c.book.positions <==> Filled(x, o) && !Closed(x, o)
    ensures forall o <- c.book.positions :: exists f <- x :: GoodFill(f, o) && c.book.positions[o] == PositionOf(f)
    ensures forall e :: e in c.deferred <==> e in x && e.TradeClosed? && !Filled(x, e.orderId)
  {
    hide Filled, Closed, DedupKey;
    assert forall o: string :: SlotIs(w.At(o), x, o);
    forall e: Event | e in x && e.TradeClosed? && !Filled(x, e.orderId) ensures e in c.deferred {
      assert CloseFor(e, e.orderId);
      var waiting := w.At(e.orderId).close.value;
      assert !NoClash(waiting, e);
    }
    forall e: CloseEvent | e in c.deferred ensures e in x && !Filled(x, e.orderId) {
      assert SlotIs(w.At(e.orderId), x, e.orderId);
    }
  }
}
