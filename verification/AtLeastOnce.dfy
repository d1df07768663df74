/** Idempotency (eval.rs, events.rs): redelivered events change nothing, wherever they land in the stream. */
module AtLeastOnce {
  import opened Events
  import opened Pack
  import opened State
  import opened Verdicts
  import opened Ledger
  import opened Judge

  /** The stream with every event dropped whose key is in `seen` or occurred before it. */
  function FirstOccurrences(evs: seq<Event>, seen: set<string>): seq<Event> {
    if evs == [] then []
    else
      var init, last := FirstOccurrences(evs[..|evs| - 1], seen), evs[|evs| - 1];
      if DedupKey(last) in seen || DedupKey(last) in Keys(evs[..|evs| - 1]) then init else init + [last]
  }

  function Keys(evs: seq<Event>): set<string> {
    set e <- evs :: DedupKey(e)
  }

  lemma KeysSnoc(evs: seq<Event>)
    requires evs != []
    ensures Keys(evs) == Keys(evs[..|evs| - 1]) + {DedupKey(evs[|evs| - 1])}
  {
    assert evs == evs[..|evs| - 1] + [evs[|evs| - 1]];
  }

  /** No movement of the ledger touches the set of seen keys. */
  lemma {:induction false} DrainKeepsSeen(cfg: Settings, c: Core, buffer: seq<CloseEvent>, k: nat, order: string)
    requires k <= |buffer|
    ensures DrainCore(cfg, c, buffer, k, order).core.seen == c.seen
  {
    if k > 0 {
      DrainKeepsSeen(cfg, c, buffer, k - 1, order);
    }
  }

  lemma StepSees(cfg: Settings, c: Core, ev: Event)
    ensures CoreStep(cfg, c, ev).core.seen == c.seen + {DedupKey(ev)}
  {
    hide EquityOf, DedupKey;
    if ev.OrderFilled? && ev.fillPx.Some? && ev.orderId !in c.book.positions {
      var book := Book(c.book.balance + ev.commission.GetOr(0.0), c.book.positions[ev.orderId := PositionOf(ev)],
                       c.book.lastPx[ev.symbol := ev.fillPx.value]);
      DrainKeepsSeen(cfg, c.(seen := c.seen + {DedupKey(ev)}, book := book,
                             deferred := OthersOf(c.deferred, |c.deferred|, ev.orderId)),
                     c.deferred, |c.deferred|, ev.orderId);
    }
  }

  lemma {:induction false} RunSees(cfg: Settings, c: Core, evs: seq<Event>)
    ensures CoreRun(cfg, c, evs).core.seen == c.seen + Keys(evs)
  {
    hide CoreStep;
    if evs != [] {
      RunSees(cfg, c, evs[..|evs| - 1]);
      StepSees(cfg, CoreRun(cfg, c, evs[..|evs| - 1]).core, evs[|evs| - 1]);
      KeysSnoc(evs);
    }
  }

  /**
   * At-least-once delivery is exactly-once processing: a run equals the run of its first occurrences
   * in final state, verdicts and alerts, whatever was redelivered and wherever.
   */
  lemma {:induction false} RedeliveryIsHarmless(p: CompiledPack, a: Account, evs: seq<Event>)
    ensures Run(p, a, evs) == Run(p, a, FirstOccurrences(evs, a.core.seen))
  {
    if evs != [] {
      var init, last := evs[..|evs| - 1], evs[|evs| - 1];
      RedeliveryIsHarmless(p, a, init);
      RunIsLedgerThenJudge(p, a, init);
      RunSees(p.Cfg(), a.core, init);
      var at := Run(p, a, init).account;
      if DedupKey(last) in at.core.seen {
        assert Step(p, at, last) == Stepped(at, NoChange);
      } else {
        hide Step;
        var kept := FirstOccurrences(init, a.core.seen);
        assert (kept + [last])[..|kept|] == kept;
      }
    }
  }

  /** Two deliveries of the same first occurrences cannot be told apart. */
  lemma SameFirstOccurrences(p: CompiledPack, a: Account, x: seq<Event>, y: seq<Event>)
    requires FirstOccurrences(x, a.core.seen) == FirstOccurrences(y, a.core.seen)
    ensures Run(p, a, x) == Run(p, a, y)
  {
    RedeliveryIsHarmless(p, a, x);
    RedeliveryIsHarmless(p, a, y);
  }

  /** Re-applying any part of a stream after the stream adds no verdict, no alert and no change. */
  lemma {:induction false} ReplayedTwice(p: CompiledPack, a: Account, evs: seq<Event>, again: seq<Event>)
    requires forall e <- again :: e in evs
    ensures Run(p, a, evs + again) == Run(p, a, evs)
  {
    NothingNew(evs, again, a.core.seen);
    SameFirstOccurrences(p, a, evs + again, evs);
  }

  lemma {:induction false} NothingNew(evs: seq<Event>, again: seq<Event>, seen: set<string>)
    requires forall e <- again :: e in evs
    ensures FirstOccurrences(evs + again, seen) == FirstOccurrences(evs, seen)
  {
    if again == [] {
      assert evs + again == evs;
    } else {
      var n := |again| - 1;
      NothingNew(evs, again[..n], seen);
      assert (evs + again)[..|evs| + n] == evs + again[..n];
      assert again[n] in evs + again[..n];
    }
  }

  /** One event per key. */
  predicate OnePerKey(evs: seq<Event>) {
    forall i, j :: 0 <= i < j < |evs| ==> DedupKey(evs[i]) != DedupKey(evs[j])
  }

  lemma OnePerKeySnoc(evs: seq<Event>, e: Event)
    requires OnePerKey(evs) && DedupKey(e) !in Keys(evs)
    ensures OnePerKey(evs + [e]) && Keys(evs + [e]) == Keys(evs) + {DedupKey(e)}
  {
    hide DedupKey;
    assert forall i :: 0 <= i < |evs| ==> DedupKey(evs[i]) in Keys(evs);
    KeysSnoc(evs + [e]);
    assert (evs + [e])[..|evs|] == evs;
  }

  /** What survives: one event per key, each from the stream, and no new key of the stream is missing. */
  lemma {:induction false} FirstOccurrencesOnePerKey(evs: seq<Event>, seen: set<string>)
    ensures var kept := FirstOccurrences(evs, seen);
            && (forall e <- kept :: e in evs)
            && OnePerKey(kept)
            && Keys(kept) == Keys(evs) - seen
  {
    hide DedupKey, OnePerKey, Keys;
    if evs == [] {
      assert OnePerKey([]) && Keys([]) == {} by { NoKeys(); }
    } else {
      var init, last := evs[..|evs| - 1], evs[|evs| - 1];
      FirstOccurrencesOnePerKey(init, seen);
      KeysSnoc(evs);
      if !(DedupKey(last) in seen || DedupKey(last) in Keys(init)) {
        OnePerKeySnoc(FirstOccurrences(init, seen), last);
      }
    }
  }

  lemma NoKeys()
    ensures OnePerKey([]) && Keys([]) == {}
  {
  }
}
