/** Replay (replay.rs): the live path, the backfill path and the dispute path are one loop. */
module Replay {
  import opened Events
  import opened Pack
  import opened Verdicts
  import opened Judge
  import Eval

  /** Re-apply a stream to a fresh account. */
  method Replay(account: string, pack: CompiledPack, initialDay: string, events: seq<Event>)
    returns (state: Eval.AccountState, verdicts: seq<Verdict>, alerts: seq<IntegrityAlert>)
    ensures fresh(state)
    ensures Replayed(state.Now(), verdicts, alerts) == Run(pack, FreshAccount(account, pack, initialDay), events)
  {
    hide Step;
    state := new Eval.AccountState(account, pack, initialDay);
    verdicts, alerts := [], [];
    for i := 0 to |events|
      invariant fresh(state)
      invariant Replayed(state.Now(), verdicts, alerts) ==
                Run(pack, FreshAccount(account, pack, initialDay), events[..i])
    {
      assert events[..i + 1][..i] == events[..i];
      var out := state.Apply(pack, events[i]);
      verdicts := verdicts + out.verdicts;
      alerts := alerts + out.alerts;
    }
    assert events[..|events|] == events;
  }

  /** Re-apply the first `n` events to a fresh account. */
  method ReplayPrefix(account: string, pack: CompiledPack, initialDay: string, events: seq<Event>, n: nat)
    returns (state: Eval.AccountState)
    requires n <= |events|
    ensures fresh(state)
    ensures state.Now() == Run(pack, FreshAccount(account, pack, initialDay), events[..n]).account
  {
    hide Step;
    state := new Eval.AccountState(account, pack, initialDay);
    for i := 0 to n
      invariant fresh(state)
      invariant state.Now() == Run(pack, FreshAccount(account, pack, initialDay), events[..i]).account
    {
      assert events[..i + 1][..i] == events[..i];
      var _ := state.Apply(pack, events[i]);
    }
  }

  /** Replaying a ++ b is replaying a and then continuing with b: state and outputs alike. */
  lemma {:induction false} RunAppend(p: CompiledPack, a: Account, x: seq<Event>, y: seq<Event>)
    ensures Run(p, a, x + y) ==
            var first := Run(p, a, x);
            var second := Run(p, first.account, y);
            Replayed(second.account, first.verdicts + second.verdicts, first.alerts + second.alerts)
  {
    hide Step;
    if y == [] {
      assert x + y == x;
    } else {
      var n := |y| - 1;
      RunAppend(p, a, x, y[..n]);
      assert (x + y)[..|x| + n] == x + y[..n];
      assert (x + y)[|x| + n] == y[n];
    }
  }
}
