/**
 * Delivery order: on streams with one fill and one close per order, what the ledger ends with depends
 * on the set of events delivered, not on their order nor on redeliveries.
 */
module Confluence {
  import opened Options
  import opened Events
  import opened Pack
  import opened State
  import opened Verdicts
  import opened Ledger
  import opened Judge
  import opened AtLeastOnce
  import opened Journal

  // ----- the order-blind view of a ledger --------------------------------------------------------

  /** All there is about one order: its open position and its buffered close, if any. */
  datatype Slot = Slot(pos: Option<Position>, close: Option<CloseEvent>)

  const Empty := Slot(None, None)

  /** Cash, the slot of every order touched so far, and how many findings were reported. */
  datatype View = View(balance: real, slots: map<string, Slot>, mismatches: nat, malformed: nat) {
    function At(order: string): Slot {
      if order in slots then slots[order] else Empty
    }
  }

  /** What one event does to its slot, to the balance and to the counts of findings. */
  datatype Effect = Effect(slot: Slot, money: real, mismatches: nat, malformed: nat)

  /** The money a close brings when its order was opened as `pos`. */
  function Gain(pos: Position, e: CloseEvent): real
    requires e.exitPx.Some?
  {
    Pnl(pos.side, pos.entryPx, e.exitPx.value, pos.volume) + e.commission.GetOr(0.0) + e.swap.GetOr(0.0)
  }

  function Mismatch(cfg: Settings, pos: Position, e: CloseEvent): nat
    requires e.exitPx.Some?
  {
    |MismatchAlerts(cfg, Pnl(pos.side, pos.entryPx, e.exitPx.value, pos.volume), e)|
  }

  /** A close meets a position; `left` is what stays buffered. */
  function Settle(cfg: Settings, pos: Position, e: CloseEvent, left: Option<CloseEvent>, money: real): Effect {
    if e.exitPx.None? then Effect(Slot(Some(pos), left), money, 0, 1)
    else Effect(Slot(None, left), money + Gain(pos, e), Mismatch(cfg, pos, e), 0)
  }

  function FillSlot(cfg: Settings, s: Slot, ev: Event): Effect
    requires ev.OrderFilled?
  {
    if ev.fillPx.None? then Effect(s, 0.0, 0, 1)
    else if s.pos.Some? then Effect(s, 0.0, 0, 0)
    else if s.close.None? then Effect(Slot(Some(PositionOf(ev)), None), ev.commission.GetOr(0.0), 0, 0)
    else Settle(cfg, PositionOf(ev), s.close.value, None, ev.commission.GetOr(0.0))
  }

  function CloseSlot(cfg: Settings, s: Slot, ev: CloseEvent): Effect {
    if s.pos.None? then Effect(Slot(None, Some(ev)), 0.0, 0, 0)
    else Settle(cfg, s.pos.value, ev, s.close, 0.0)
  }

  function Put(v: View, order: string, d: Effect): View {
    View(v.balance + d.money, v.slots[order := d.slot], v.mismatches + d.mismatches, v.malformed + d.malformed)
  }

  function ViewStep(cfg: Settings, v: View, ev: Event): View {
    match ev
    case OrderFilled(_, _, _, order, _, _, _, _, _, _) => Put(v, order, FillSlot(cfg, v.At(order), ev))
    case TradeClosed(_, _, _, order, _, _, _, _, _, _, _, _) => Put(v, order, CloseSlot(cfg, v.At(order), ev))
    case BalanceAdjustment(_, _, _, _, amount, _) =>
      if amount.None? then v.(malformed := v.malformed + 1) else v.(balance := v.balance + amount.value)
    case _ => v
  }

  function ViewRun(cfg: Settings, v: View, evs: seq<Event>): View
    decreases |evs|
  {
    if evs == [] then v else ViewRun(cfg, ViewStep(cfg, v, evs[0]), evs[1..])
  }

  /** Two events that do not compete for an order: not two fills of it, not two closes of it. */
  predicate NoClash(a: Event, b: Event) {
    && (a.OrderFilled? && b.OrderFilled? ==> a.orderId != b.orderId)
    && (a.TradeClosed? && b.TradeClosed? ==> a.orderId != b.orderId)
  }

  predicate NewTo(v: View, e: Event) {
    && (e.OrderFilled? ==> v.At(e.orderId).pos.None?)
    && (e.TradeClosed? ==> v.At(e.orderId).close.None?)
  }

  /** Fresh orders only: one fill and one close per order, none of them met by the view before. */
  predicate Apart(v: View, evs: seq<Event>) {
    && (forall e <- evs :: NewTo(v, e))
    && (forall i, j :: 0 <= i < j < |evs| ==> NoClash(evs[i], evs[j]))
  }

  predicate Trade(e: Event) {
    e.OrderFilled? || e.TradeClosed?
  }

  function SlotStep(cfg: Settings, s: Slot, ev: Event): Effect
    requires Trade(ev)
  {
    if ev.OrderFilled? then FillSlot(cfg, s, ev) else CloseSlot(cfg, s, ev)
  }

  lemma OtherOrdersCommute(cfg: Settings, v: View, a: Event, b: Event)
    requires Trade(a) && Trade(b) && a.orderId != b.orderId
    ensures ViewStep(cfg, ViewStep(cfg, v, a), b) == ViewStep(cfg, ViewStep(cfg, v, b), a)
  {
    hide FillSlot, CloseSlot;
    var da, db := SlotStep(cfg, v.At(a.orderId), a), SlotStep(cfg, v.At(b.orderId), b);
    assert v.slots[a.orderId := da.slot][b.orderId := db.slot] == v.slots[b.orderId := db.slot][a.orderId := da.slot];
  }

  /** A close and its own fill give the same slot, money and findings in either order. */
  lemma CloseAndFillCommute(cfg: Settings, v: View, fill: Event, close: CloseEvent)
    requires fill.OrderFilled? && fill.orderId == close.orderId && v.At(fill.orderId) == Empty
    ensures ViewStep(cfg, ViewStep(cfg, v, fill), close) == ViewStep(cfg, ViewStep(cfg, v, close), fill)
  {
    hide Gain, Mismatch;
    var o := fill.orderId;
    var f := FillSlot(cfg, Empty, fill);
    var fc := CloseSlot(cfg, f.slot, close);
    var c := CloseSlot(cfg, Empty, close);
    var cf := FillSlot(cfg, c.slot, fill);
    assert fc.slot == cf.slot && f.money + fc.money == c.money + cf.money;
    assert v.slots[o := f.slot][o := fc.slot] == v.slots[o := c.slot][o := cf.slot];
  }

  lemma StepsCommute(cfg: Settings, v: View, a: Event, b: Event)
    requires NewTo(v, a) && NewTo(v, b) && NoClash(a, b)
    ensures ViewStep(cfg, ViewStep(cfg, v, a), b) == ViewStep(cfg, ViewStep(cfg, v, b), a)
  {
    if Trade(a) && Trade(b) {
      if a.orderId != b.orderId {
        OtherOrdersCommute(cfg, v, a, b);
      } else if a.OrderFilled? {
        CloseAndFillCommute(cfg, v, a, b);
      } else {
        CloseAndFillCommute(cfg, v, b, a);
      }
    }
  }

  lemma StepKeepsApart(cfg: Settings, v: View, a: Event, evs: seq<Event>)
    requires Apart(v, [a] + evs)
    ensures NewTo(v, a) && Apart(ViewStep(cfg, v, a), evs)
  {
    hide Gain, Mismatch;
    var all := [a] + evs;
    assert all[0] == a && forall i :: 0 <= i < |evs| ==> all[i + 1] == evs[i];
    forall e | e in evs ensures NewTo(ViewStep(cfg, v, a), e) {
      assert e in all && NoClash(a, e);
    }
  }

  /** An event can be delivered first instead of after any prefix. */
  lemma {:induction false} BubbleToFront(cfg: Settings, v: View, left: seq<Event>, a: Event, right: seq<Event>)
    requires Apart(v, left + [a] + right)
    ensures Apart(v, [a] + left + right)
    ensures ViewRun(cfg, v, left + [a] + right) == ViewRun(cfg, v, [a] + left + right)
    decreases |left|
  {
    hide ViewStep, NewTo, NoClash;
    MoveKeepsApart(v, left, a, right);
    if left == [] {
      assert left + [a] + right == [a] + left + right;
    } else {
      var b, rest := left[0], left[1..];
      assert left + [a] + right == [b] + (rest + [a] + right);
      StepKeepsApart(cfg, v, b, rest + [a] + right);
      BubbleToFront(cfg, ViewStep(cfg, v, b), rest, a, right);
      assert [a] + left + right == [a] + ([b] + rest + right) && [b] + rest + right == [b] + (rest + right);
      assert [a] + rest + right == [a] + (rest + right);
      assert ([a] + left + right)[0] == a && ([a] + left + right)[1] == b;
      StepKeepsApart(cfg, v, a, [b] + (rest + right));
      assert NewTo(v, b) && NoClash(a, b);
      CommuteEither(cfg, v, a, b);
      FrontTwo(cfg, v, a, b, rest + right);
    }
  }

  lemma CommuteEither(cfg: Settings, v: View, a: Event, b: Event)
    requires NewTo(v, a) && NewTo(v, b) && NoClash(a, b)
    ensures ViewStep(cfg, ViewStep(cfg, v, a), b) == ViewStep(cfg, ViewStep(cfg, v, b), a)
  {
    StepsCommute(cfg, v, a, b);
  }

  lemma FrontTwo(cfg: Settings, v: View, a: Event, b: Event, rest: seq<Event>)
    ensures ViewRun(cfg, v, [a] + ([b] + rest)) == ViewRun(cfg, ViewStep(cfg, ViewStep(cfg, v, a), b), rest)
    ensures ViewRun(cfg, ViewStep(cfg, v, b), [a] + rest) == ViewRun(cfg, ViewStep(cfg, ViewStep(cfg, v, b), a), rest)
    ensures ViewRun(cfg, v, [b] + ([a] + rest)) == ViewRun(cfg, ViewStep(cfg, v, b), [a] + rest)
  {
    hide ViewStep;
    assert ([a] + ([b] + rest))[1..] == [b] + rest && ([b] + rest)[1..] == rest;
    assert ([b] + ([a] + rest))[1..] == [a] + rest && ([a] + rest)[1..] == rest;
  }

  lemma MoveKeepsApart(v: View, left: seq<Event>, a: Event, right: seq<Event>)
    requires Apart(v, left + [a] + right)
    ensures Apart(v, [a] + left + right)
  {
    hide NewTo;
    var x, y := left + [a] + right, [a] + left + right;
    forall e | e in y ensures e in x {}
    var n := |left|;
    forall i, j | 0 <= i < j < |y| ensures NoClash(y[i], y[j]) {
      var pi, pj := (if i == 0 then n else if i <= n then i - 1 else i), (if j <= n then j - 1 else j);
      assert y[i] == x[pi] && y[j] == x[pj];
      assert if pi < pj then NoClash(x[pi], x[pj]) else NoClash(x[pj], x[pi]);
    }
  }

  /** Any event of the stream can be taken first. */
  lemma TakeFirst(cfg: Settings, v: View, y: seq<Event>, i: nat)
    requires Apart(v, y) && i < |y|
    ensures var rest := y[..i] + y[i + 1..];
            && Apart(ViewStep(cfg, v, y[i]), rest)
            && ViewRun(cfg, v, y) == ViewRun(cfg, ViewStep(cfg, v, y[i]), rest)
            && multiset(rest) == multiset(y) - multiset{y[i]}
  {
    hide ViewStep, NewTo, NoClash;
    var left, a, right := y[..i], y[i], y[i + 1..];
    assert y == left + [a] + right;
    BubbleToFront(cfg, v, left, a, right);
    TakeOneOut(left, a, right);
    var front := [a] + (left + right);
    assert [a] + left + right == front && front[1..] == left + right;
    StepKeepsApart(cfg, v, a, left + right);
  }

  /** The fold depends on the multiset of events only. */
  lemma {:induction false} ViewRunIgnoresOrder(cfg: Settings, v: View, x: seq<Event>, y: seq<Event>)
    requires Apart(v, x) && multiset(x) == multiset(y)
    ensures ViewRun(cfg, v, x) == ViewRun(cfg, v, y)
    decreases |x|
  {
    hide ViewRun, ViewStep, Apart;
    SameLength(x, y);
    if x == [] {
      assert x == y;
    } else {
      var i := PlaceOf(x, y);
      var rest := y[..i] + y[i + 1..];
      PermutationKeepsApart(v, x, y);
      TakeHead(cfg, v, x);
      TakeFirst(cfg, v, y, i);
      ViewRunIgnoresOrder(cfg, ViewStep(cfg, v, x[0]), x[1..], rest);
    }
  }

  lemma TakeHead(cfg: Settings, v: View, x: seq<Event>)
    requires Apart(v, x) && x != []
    ensures Apart(ViewStep(cfg, v, x[0]), x[1..])
    ensures ViewRun(cfg, v, x) == ViewRun(cfg, ViewStep(cfg, v, x[0]), x[1..])
    ensures multiset(x[1..]) == multiset(x) - multiset{x[0]}
  {
    hide ViewRun, ViewStep, Apart;
    TakeFirst(cfg, v, x, 0);
    assert x[..0] + x[0 + 1..] == x[1..];
  }

  lemma PlaceOf(x: seq<Event>, y: seq<Event>) returns (i: nat)
    requires multiset(x) == multiset(y) && x != []
    ensures i < |y| && y[i] == x[0]
  {
    assert x[0] in multiset(y);
    i :| 0 <= i < |y| && y[i] == x[0];
  }

  lemma TakeOneOut(left: seq<Event>, a: Event, right: seq<Event>)
    ensures multiset(left + right) == multiset(left + [a] + right) - multiset{a}
  {
  }

  lemma SameLength(x: seq<Event>, y: seq<Event>)
    requires multiset(x) == multiset(y)
    ensures |x| == |y|
  {
    assert |multiset(x)| == |x| && |multiset(y)| == |y|;
  }

  /** Which events clash does not depend on their places. */
  lemma PermutationKeepsApart(v: View, x: seq<Event>, y: seq<Event>)
    requires Apart(v, x) && multiset(x) == multiset(y)
    ensures Apart(v, y)
  {
    hide NewTo;
    forall e | e in y ensures e in x {
      assert e in multiset(y);
    }
    forall i, j | 0 <= i < j < |y| ensures NoClash(y[i], y[j]) {
      if y[i] == y[j] {
        if !NoClash(y[i], y[j]) {
          TwicePresent(y, i, j);
          TwoPlaces(x, y[i]);
        }
      } else {
        assert y[i] in x && y[j] in x;
        var k :| 0 <= k < |x| && x[k] == y[i];
        var m :| 0 <= m < |x| && x[m] == y[j];
        assert NoClash(x[k], x[m]) || NoClash(x[m], x[k]);
      }
    }
  }

  lemma TwicePresent(y: seq<Event>, i: nat, j: nat)
    requires i < j < |y| && y[i] == y[j]
    ensures multiset(y)[y[i]] >= 2
  {
    assert y == y[..i] + [y[i]] + y[i + 1..j] + [y[j]] + y[j + 1..];
  }

  lemma {:induction false} TwoPlaces(x: seq<Event>, e: Event)
    requires multiset(x)[e] >= 2
    ensures exists i, j :: 0 <= i < j < |x| && x[i] == e && x[j] == e
  {
    var i :| 0 <= i < |x| && x[i] == e;
    assert x == x[..i] + [e] + x[i + 1..];
    if e in x[..i] {
      var k :| 0 <= k < i && x[k] == e;
    } else {
      assert multiset(x[..i])[e] == 0;
      assert e in x[i + 1..];
      var k :| i + 1 <= k < |x| && x[k] == e;
    }
  }

  // ----- the ledger follows its view -------------------------------------------------------------

  function CountKind(alerts: seq<IntegrityAlert>, kind: AlertKind): nat {
    if alerts == [] then 0
    else CountKind(alerts[..|alerts| - 1], kind) + if alerts[|alerts| - 1].kind == kind then 1 else 0
  }

  lemma {:induction false} CountAppend(x: seq<IntegrityAlert>, y: seq<IntegrityAlert>, kind: AlertKind)
    ensures CountKind(x + y, kind) == CountKind(x, kind) + CountKind(y, kind)
  {
    if y == [] {
      assert x + y == x;
    } else {
      var n := |y| - 1;
      CountAppend(x, y[..n], kind);
      assert (x + y)[..|x| + n] == x + y[..n];
    }
  }

  /** The view shows the ledger's cash, its positions, and its buffer, one close per order. */
  ghost predicate Shows(v: View, c: Core) {
    && v.balance == c.book.balance
    && (forall o :: o in c.book.positions <==> v.At(o).pos.Some?)
    && (forall o <- c.book.positions :: v.At(o).pos == Some(c.book.positions[o]))
    && (forall e <- c.deferred :: v.At(e.orderId).close == Some(e))
    && (forall o :: v.At(o).close.Some? ==> v.At(o).close.value in c.deferred && v.At(o).close.value.orderId == o)
  }

  ghost predicate OnePerOrder(buffer: seq<CloseEvent>) {
    forall i, j :: 0 <= i < j < |buffer| ==> buffer[i].orderId != buffer[j].orderId
  }

  lemma {:induction false} OthersExactly(buffer: seq<CloseEvent>, k: nat, order: string)
    requires k <= |buffer| && OnePerOrder(buffer)
    ensures OnePerOrder(OthersOf(buffer, k, order))
    ensures forall e :: e in OthersOf(buffer, k, order) <==> e in buffer[..k] && e.orderId != order
  {
    if k > 0 {
      OthersExactly(buffer, k - 1, order);
      assert buffer[..k] == buffer[..k - 1] + [buffer[k - 1]];
      var init := OthersOf(buffer, k - 1, order);
      forall e | e in init ensures e.orderId != buffer[k - 1].orderId {
        var i :| 0 <= i < k - 1 && buffer[i] == e;
      }
    }
  }

  /** With one close per order the drain is that close, or nothing. */
  lemma {:induction false} DrainOne(cfg: Settings, c: Core, buffer: seq<CloseEvent>, k: nat, order: string,
                                    e: Option<CloseEvent>)
    requires k <= |buffer| && OnePerOrder(buffer)
    requires e.None? ==> forall x <- buffer[..k] :: x.orderId != order
    requires e.Some? ==> e.value in buffer[..k] && e.value.orderId == order
    ensures var r := DrainCore(cfg, c, buffer, k, order);
            if e.None? then r.core == c && r.alerts == []
            else r.core == CloseCore(cfg, c, e.value).core && r.alerts == CloseCore(cfg, c, e.value).alerts
  {
    hide CloseCore;
    if k > 0 {
      var last := buffer[k - 1];
      assert buffer[..k] == buffer[..k - 1] + [last];
      if last.orderId == order {
        assert last in buffer[..k];
        assert e == Some(last) by {
          var i :| 0 <= i < k && buffer[i] == e.value;
        }
        DrainOne(cfg, c, buffer, k - 1, order, None);
      } else {
        DrainOne(cfg, c, buffer, k - 1, order, e);
      }
    }
  }

  /** How many findings of the two delivery-invariant kinds a list of alerts adds to a view. */
  ghost predicate Adds(v: View, alerts: seq<IntegrityAlert>, w: View) {
    && w.mismatches == v.mismatches + CountKind(alerts, PnlMismatch)
    && w.malformed == v.malformed + CountKind(alerts, Malformed)
  }

  lemma CountOne(a: IntegrityAlert, kind: AlertKind)
    ensures CountKind([], kind) == 0 && CountKind([a], kind) == if a.kind == kind then 1 else 0
  {
    assert [a][..0] == [];
  }

  /** Closing an open order, seen from its slot. */
  lemma CloseShows(cfg: Settings, c: Core, e: CloseEvent)
    requires e.orderId in c.book.positions
    ensures var r, d := CloseCore(cfg, c, e), Settle(cfg, c.book.positions[e.orderId], e, None, 0.0);
            && r.core.book.balance == c.book.balance + d.money
            && r.core.book.positions == (if d.slot.pos.Some? then c.book.positions else c.book.positions - {e.orderId})
            && r.core.deferred == c.deferred
            && CountKind(r.alerts, PnlMismatch) == d.mismatches && CountKind(r.alerts, Malformed) == d.malformed
  {
    hide EquityOf, Pnl;
    CountOne(IntegrityAlert(e.eventId, Some(e.orderId), Malformed), Malformed);
    CountOne(IntegrityAlert(e.eventId, Some(e.orderId), Malformed), PnlMismatch);
    CountOne(IntegrityAlert(e.eventId, Some(e.orderId), PnlMismatch), Malformed);
    CountOne(IntegrityAlert(e.eventId, Some(e.orderId), PnlMismatch), PnlMismatch);
  }

  lemma {:induction false} CountNone(alerts: seq<IntegrityAlert>, kind: AlertKind)
    requires forall a <- alerts :: a.kind != kind
    ensures CountKind(alerts, kind) == 0
  {
    if alerts != [] {
      CountNone(alerts[..|alerts| - 1], kind);
    }
  }

  lemma WatchdogsAddNothing(c: Core, ev: Event, alerts: seq<IntegrityAlert>, kind: AlertKind)
    requires kind == PnlMismatch || kind == Malformed
    ensures CountKind(WatchdogAlerts(c, ev) + alerts, kind) == CountKind(alerts, kind)
  {
    CountNone(WatchdogAlerts(c, ev), kind);
    CountAppend(WatchdogAlerts(c, ev), alerts, kind);
  }

  /** A ledger that differs from another in one order's slot and in cash is shown by the view with that slot put. */
  lemma PutShows(c: Core, v: View, r: Core, o: string, d: Effect)
    requires Shows(v, c)
    requires r.book.balance == c.book.balance + d.money
    requires r.book.positions ==
             if d.slot.pos.Some? then c.book.positions[o := d.slot.pos.value] else c.book.positions - {o}
    requires d.slot.close.Some? ==> d.slot.close.value.orderId == o
    requires forall e :: e in r.deferred <==> (e in c.deferred && e.orderId != o) || d.slot.close == Some(e)
    ensures Shows(Put(v, o, d), r)
  {
  }

  /** A fill no close waits for: a slot with a position, and the commission. */
  lemma FillAloneShows(cfg: Settings, c: Core, v: View, ev: Event)
    requires Shows(v, c) && OnePerOrder(c.deferred)
    requires FillAccepted(c, ev) && v.At(ev.orderId).close.None?
    ensures var r, w := FillCore(cfg, c, ev), ViewStep(cfg, v, ev);
            Shows(w, r.core) && OnePerOrder(r.core.deferred) && Adds(v, r.alerts, w)
  {
    hide EquityOf, DrainCore, OthersOf, Settle, OnePerOrder;
    var o := ev.orderId;
    var filled := FilledWith(c, ev);
    assert c.deferred[..|c.deferred|] == c.deferred;
    OthersExactly(c.deferred, |c.deferred|, o);
    DrainOne(cfg, filled, c.deferred, |c.deferred|, o, None);
    assert v.At(o).pos.None?;
    PutShows(c, v, FillCore(cfg, c, ev).core, o, FillSlot(cfg, v.At(o), ev));
    hide Shows;
  }

  function FilledWith(c: Core, ev: Event): Core
    requires FillAccepted(c, ev)
  {
    c.(book := Book(c.book.balance + ev.commission.GetOr(0.0), c.book.positions[ev.orderId := PositionOf(ev)],
                    c.book.lastPx[ev.symbol := ev.fillPx.value]),
       deferred := OthersOf(c.deferred, |c.deferred|, ev.orderId))
  }

  /** A fill its close waits for: the two settle, and the slot is empty unless the close is unreadable. */
  lemma FillSettlesShows(cfg: Settings, c: Core, v: View, ev: Event)
    requires Shows(v, c) && OnePerOrder(c.deferred)
    requires FillAccepted(c, ev) && v.At(ev.orderId).close.Some?
    ensures var r, w := FillCore(cfg, c, ev), ViewStep(cfg, v, ev);
            Shows(w, r.core) && OnePerOrder(r.core.deferred) && Adds(v, r.alerts, w)
  {
    hide EquityOf, Pnl, Mismatch, Gain, CloseCore, DrainCore, OthersOf, CountKind, OnePerOrder;
    var o, waiting := ev.orderId, v.At(ev.orderId).close.value;
    var filled := FilledWith(c, ev);
    assert c.deferred[..|c.deferred|] == c.deferred;
    OthersExactly(c.deferred, |c.deferred|, o);
    DrainOne(cfg, filled, c.deferred, |c.deferred|, o, Some(waiting));
    CloseShows(cfg, filled, waiting);
    var r := FillCore(cfg, c, ev);
    var d := FillSlot(cfg, v.At(o), ev);
    assert r.core.deferred == OthersOf(c.deferred, |c.deferred|, o);
    assert v.At(o).pos.None?;
    PutShows(c, v, r.core, o, d);
    hide Shows;
  }

  lemma CountFew(eventId: string, order: Option<string>, kind: AlertKind)
    ensures forall k :: CountKind([IntegrityAlert(eventId, order, kind)], k) == if k == kind then 1 else 0
  {
    forall k ensures CountKind([IntegrityAlert(eventId, order, kind)], k) == if k == kind then 1 else 0 {
      CountOne(IntegrityAlert(eventId, order, kind), k);
    }
  }

  /** A close of an open order. */
  lemma AppliedCloseShows(cfg: Settings, c: Core, v: View, ev: CloseEvent)
    requires Shows(v, c) && OnePerOrder(c.deferred) && NewTo(v, ev) && ev.orderId in c.book.positions
    ensures var r, w := CloseCore(cfg, c, ev), ViewStep(cfg, v, ev);
            Shows(w, r.core) && OnePerOrder(r.core.deferred) && Adds(v, r.alerts, w)
  {
    hide EquityOf, Pnl, Mismatch, Gain, CloseCore, OnePerOrder, CountKind;
    CloseShows(cfg, c, ev);
    var r := CloseCore(cfg, c, ev);
    PutShows(c, v, r.core, ev.orderId, CloseSlot(cfg, v.At(ev.orderId), ev));
    hide Shows;
  }

  /** A close of an order that is not open, and has no other close waiting. */
  lemma DeferredCloseShows(cfg: Settings, c: Core, v: View, ev: CloseEvent)
    requires Shows(v, c) && OnePerOrder(c.deferred) && NewTo(v, ev) && ev.orderId !in c.book.positions
    ensures var r, w := Transition(cfg, c, ev), ViewStep(cfg, v, ev);
            Shows(w, r.core) && OnePerOrder(r.core.deferred) && Adds(v, r.alerts, w)
  {
    hide EquityOf, CloseCore, Settle, CountKind;
    CountFew(ev.eventId, Some(ev.orderId), CloseDeferred);
    assert forall e <- c.deferred :: e.orderId != ev.orderId;
  }

  /** A fill that is unreadable or finds its order open leaves the slot as it is. */
  lemma RefusedFillShows(cfg: Settings, c: Core, v: View, ev: Event)
    requires Shows(v, c) && OnePerOrder(c.deferred) && NewTo(v, ev) && ev.OrderFilled? && !FillAccepted(c, ev)
    ensures var r, w := Transition(cfg, c, ev), ViewStep(cfg, v, ev);
            Shows(w, r.core) && OnePerOrder(r.core.deferred) && Adds(v, r.alerts, w)
  {
    hide EquityOf, Settle, CountKind, NewsHits;
    CountFew(ev.eventId, Some(ev.orderId), Malformed);
  }

  /** The view follows cash alone when positions and buffer stay as they are. */
  lemma CashShows(c: Core, v: View, r: Core, w: View)
    requires Shows(v, c) && r.book.positions == c.book.positions && r.deferred == c.deferred
    requires w.slots == v.slots && w.balance == r.book.balance
    ensures Shows(w, r)
  {
  }

  /** Events that are no trades: an adjustment moves the balance, an unreadable one is a finding, others nothing. */
  lemma NoTradeShows(cfg: Settings, c: Core, v: View, ev: Event)
    requires Shows(v, c) && OnePerOrder(c.deferred) && !Trade(ev)
    ensures var r, w := Transition(cfg, c, ev), ViewStep(cfg, v, ev);
            Shows(w, r.core) && OnePerOrder(r.core.deferred) && Adds(v, r.alerts, w)
  {
    assert v.balance == c.book.balance;
    hide EquityOf, CountKind, Shows, OnePerOrder, Observe;
    CountFew(ev.eventId, None, Malformed);
    CountFew(ev.eventId, None, BalanceDrift);
    NoAlerts();
    CashShows(c, v, Transition(cfg, c, ev).core, ViewStep(cfg, v, ev));
  }

  lemma NoAlerts()
    ensures forall k :: CountKind([], k) == 0
  {
  }

  lemma TransitionShows(cfg: Settings, c: Core, v: View, ev: Event)
    requires Shows(v, c) && OnePerOrder(c.deferred) && NewTo(v, ev)
    ensures var r, w := Transition(cfg, c, ev), ViewStep(cfg, v, ev);
            Shows(w, r.core) && OnePerOrder(r.core.deferred) && Adds(v, r.alerts, w)
  {
    if !Trade(ev) {
      hide Transition, ViewStep;
      NoTradeShows(cfg, c, v, ev);
    } else if ev.TradeClosed? {
      hide ViewStep, CloseCore;
      if ev.orderId in c.book.positions {
        AppliedCloseShows(cfg, c, v, ev);
      } else {
        DeferredCloseShows(cfg, c, v, ev);
      }
    } else if !FillAccepted(c, ev) {
      hide Transition, ViewStep;
      RefusedFillShows(cfg, c, v, ev);
    } else {
      hide ViewStep, FillCore, NewsHits;
      if v.At(ev.orderId).close.None? {
        FillAloneShows(cfg, c, v, ev);
      } else {
        FillSettlesShows(cfg, c, v, ev);
      }
    }
  }

  /** One step of the ledger is one step of its view. */
  lemma StepShows(cfg: Settings, c: Core, v: View, ev: Event)
    requires Shows(v, c) && OnePerOrder(c.deferred)
    requires DedupKey(ev) !in c.seen && NewTo(v, ev)
    ensures var r, w := CoreStep(cfg, c, ev), ViewStep(cfg, v, ev);
            Shows(w, r.core) && OnePerOrder(r.core.deferred) && Adds(v, r.alerts, w)
  {
    hide DedupKey, Transition, WatchdogAlerts, ViewStep, NewTo;
    var c0 := c.(seen := c.seen + {DedupKey(ev)});
    var t := Transition(cfg, c0, ev);
    TransitionShows(cfg, c0, v, ev);
    WatchdogsAddNothing(c, ev, t.alerts, PnlMismatch);
    WatchdogsAddNothing(c, ev, t.alerts, Malformed);
  }

  lemma {:induction false} ViewRunSnoc(cfg: Settings, v: View, evs: seq<Event>, e: Event)
    requires Apart(v, evs + [e])
    ensures Apart(v, evs) && NewTo(ViewRun(cfg, v, evs), e)
    ensures ViewRun(cfg, v, evs + [e]) == ViewStep(cfg, ViewRun(cfg, v, evs), e)
    decreases |evs|
  {
    hide ViewStep, NewTo, NoClash;
    var all := evs + [e];
    assert forall i :: 0 <= i < |evs| ==> all[i] == evs[i];
    assert forall x <- evs :: x in all;
    assert all[|evs|] == e && e in all;
    if evs == [] {
      assert all == [e] && [e][1..] == [];
    } else {
      assert all == [evs[0]] + (evs[1..] + [e]);
      assert all[1..] == evs[1..] + [e];
      StepKeepsApart(cfg, v, evs[0], evs[1..] + [e]);
      ViewRunSnoc(cfg, ViewStep(cfg, v, evs[0]), evs[1..], e);
    }
  }

  /** A run on fresh keys and fresh orders is the run of its view. */
  lemma {:induction false} RunShows(cfg: Settings, c: Core, v: View, evs: seq<Event>)
    requires Shows(v, c) && OnePerOrder(c.deferred) && Apart(v, evs)
    requires OnePerKey(evs) && Keys(evs) !! c.seen
    ensures var r, w := CoreRun(cfg, c, evs), ViewRun(cfg, v, evs);
            Shows(w, r.core) && OnePerOrder(r.core.deferred) && Adds(v, r.alerts, w)
  {
    hide CoreStep, ViewStep, DedupKey, Shows, OnePerOrder, NewTo, NoClash;
    if evs == [] {
      assert CountKind([], PnlMismatch) == 0 && CountKind([], Malformed) == 0;
    } else {
      var init, last := evs[..|evs| - 1], evs[|evs| - 1];
      assert evs == init + [last];
      ViewRunSnoc(cfg, v, init, last);
      RunShows(cfg, c, v, init);
      RunSees(cfg, c, init);
      var r := CoreRun(cfg, c, init);
      assert DedupKey(last) !in Keys(init) && DedupKey(last) in Keys(evs);
      StepShows(cfg, r.core, ViewRun(cfg, v, init), last);
      var s := CoreStep(cfg, r.core, last);
      CountAppend(r.alerts, s.alerts, PnlMismatch);
      CountAppend(r.alerts, s.alerts, Malformed);
    }
  }

  // ----- streams that are sets of events ---------------------------------------------------------

  /**
   * A stream fit for out-of-order delivery: a key, an order's fill and an order's close each name one
   * event, which may be delivered any number of times.
   */
  predicate WellFormed(evs: seq<Event>) {
    forall a <- evs, b <- evs ::
      DedupKey(a) == DedupKey(b) || !NoClash(a, b) ==> a == b
  }

  lemma DistinctAreApart(evs: seq<Event>)
    requires OnePerKey(evs) && WellFormed(evs)
    ensures forall i, j :: 0 <= i < j < |evs| ==> NoClash(evs[i], evs[j])
  {
    hide DedupKey, NoClash;
    forall i, j | 0 <= i < j < |evs| ensures NoClash(evs[i], evs[j]) {
      assert evs[i] in evs && evs[j] in evs;
    }
  }

  /** Two duplicate-free streams of the same events are permutations of each other. */
  lemma {:induction false} SameEventsSameMultiset(x: seq<Event>, y: seq<Event>)
    requires OnePerKey(x) && OnePerKey(y)
    requires forall e :: e in x <==> e in y
    ensures multiset(x) == multiset(y)
  {
    forall e: Event ensures multiset(x)[e] == multiset(y)[e] {
      CountedOnce(x, e);
      CountedOnce(y, e);
    }
  }

  lemma {:induction false} CountedOnce(x: seq<Event>, e: Event)
    requires OnePerKey(x)
    ensures multiset(x)[e] == if e in x then 1 else 0
  {
    hide DedupKey;
    if x != [] {
      var init, last := x[..|x| - 1], x[|x| - 1];
      CountedOnce(init, e);
      assert x == init + [last];
    }
  }

  /** In a well-formed stream the first occurrences are all its events. */
  lemma FirstOccurrencesAreAll(evs: seq<Event>)
    requires WellFormed(evs)
    ensures var kept := FirstOccurrences(evs, {});
            OnePerKey(kept) && WellFormed(kept) && forall e :: e in kept <==> e in evs
  {
    hide DedupKey, NoClash, OnePerKey;
    var kept := FirstOccurrences(evs, {});
    FirstOccurrencesOnePerKey(evs, {});
    forall e | e in evs ensures e in kept {
      assert DedupKey(e) in Keys(kept);
      var x :| x in kept && DedupKey(x) == DedupKey(e);
    }
  }

  /**
   * Confluence: two deliveries of the same events, reordered and redelivered at will and of every kind
   * of event, end with the same balance, the same position book, the same closes still buffered, and
   * the same number of PNL_MISMATCH and MALFORMED findings.
   */
  lemma DeliveryOrderIsIrrelevant(p: CompiledPack, account: string, day: string, x: seq<Event>, y: seq<Event>)
    requires WellFormed(x) && forall e :: e in x <==> e in y
    ensures var a := FreshAccount(account, p, day);
            var rx, ry := Run(p, a, x), Run(p, a, y);
            var cx, cy := rx.account.core, ry.account.core;
            && cx.book.balance == cy.book.balance
            && cx.book.positions == cy.book.positions
            && (forall e :: e in cx.deferred <==> e in cy.deferred)
            && CountKind(rx.alerts, PnlMismatch) == CountKind(ry.alerts, PnlMismatch)
            && CountKind(rx.alerts, Malformed) == CountKind(ry.alerts, Malformed)
  {
    hide DedupKey, NoClash, ViewRun, CoreRun, Run, FirstOccurrences, OnePerKey, CountKind;
    var a, v := FreshAccount(account, p, day), View(p.startBalance, map[], 0, 0);
    var kx, ky := FirstOccurrences(x, {}), FirstOccurrences(y, {});
    RunsLikeItsView(p, a, v, x);
    RunsLikeItsView(p, a, v, y);
    FirstOccurrencesAreAll(x);
    FirstOccurrencesAreAll(y);
    SameEventsSameMultiset(kx, ky);
    DistinctAreApart(kx);
    ViewRunIgnoresOrder(p.Cfg(), v, kx, ky);
  }

  /** What a well-formed stream ends with is what the view of its distinct events shows. */
  lemma RunsLikeItsView(p: CompiledPack, a: Account, v: View, x: seq<Event>)
    requires a == FreshAccount(a.core.account, p, a.core.day.date) && v == View(p.startBalance, map[], 0, 0)
    requires WellFormed(x)
    ensures var r, w := Run(p, a, x), ViewRun(p.Cfg(), v, FirstOccurrences(x, {}));
            && Shows(w, r.account.core)
            && w.mismatches == CountKind(r.alerts, PnlMismatch) && w.malformed == CountKind(r.alerts, Malformed)
  {
    hide DedupKey, NoClash, ViewRun, CoreRun, Run, FirstOccurrences, OnePerKey, CountKind, Keys;
    var kx := FirstOccurrences(x, {});
    RedeliveryIsHarmless(p, a, x);
    RunIsLedgerThenJudge(p, a, kx);
    FirstOccurrencesAreAll(x);
    DistinctAreApart(kx);
    RunShows(p.Cfg(), a.core, v, kx);
  }
}
