/**
 * The idempotency store and the commit rule of its middleware (idempotency.go): records as a function
 * of the history of calls, and what follows for every interleaving of requests.
 */
module Idempotency {
  datatype Rec = Rec(hash: string, status: int, body: string, done: bool, exp: int)

  datatype Answer = Owned | Conflict | Replayed(status: int, body: string)

  // ----- reference: one scope key, its whole history ---------------------------------------------

  /** A call on one scope key: a request arrives, or the handler of the one that began as call `of` has answered. */
  datatype Call =
    | Begin(hash: string, now: int)
    | Finish(of: nat, hash: string, status: int, body: string, now: int)

  datatype Slot = Vacant | Held(rec: Rec)

  datatype Began = Began(slot: Slot, answer: Answer)

  function BeginStep(ttl: int, s: Slot, hash: string, now: int): Began {
    var claim := Began(Held(Rec(hash, 0, "", false, now + ttl)), Owned);
    if s.Vacant? || now > s.rec.exp then claim
    else if s.rec.hash != hash || !s.rec.done then Began(s, Conflict)
    else Began(s, Replayed(s.rec.status, s.rec.body))
  }

  function CommitStep(ttl: int, s: Slot, hash: string, status: int, body: string, now: int): Slot {
    if s.Held? && s.rec.hash == hash then Held(Rec(hash, status, body, true, now + ttl)) else s
  }

  /** The middleware commits neither aborted nor 5xx responses. */
  predicate Remembered(status: int) {
    status < 500 && status != 0
  }

  function FinishStep(ttl: int, s: Slot, hash: string, status: int, body: string, now: int): Slot {
    if Remembered(status) then CommitStep(ttl, s, hash, status, body, now) else s
  }

  function SlotAfter(ttl: int, calls: seq<Call>): Slot {
    if calls == [] then Vacant
    else
      var s := SlotAfter(ttl, calls[..|calls| - 1]);
      match calls[|calls| - 1]
      case Begin(hash, now) => BeginStep(ttl, s, hash, now).slot
      case Finish(_, hash, status, body, now) => FinishStep(ttl, s, hash, status, body, now)
  }

  /** The answer the k-th call got, if it was a Begin. */
  function AnswerAt(ttl: int, calls: seq<Call>, k: nat): Answer
    requires k < |calls| && calls[k].Begin?
  {
    BeginStep(ttl, SlotAfter(ttl, calls[..k]), calls[k].hash, calls[k].now).answer
  }

  predicate Owns(ttl: int, calls: seq<Call>, k: nat)
    requires k < |calls|
  {
    calls[k].Begin? && AnswerAt(ttl, calls, k).Owned?
  }

  /** Call k is an answer that is committed and finds a record of its hash. */
  predicate Lands(ttl: int, calls: seq<Call>, k: nat)
    requires k < |calls|
  {
    && calls[k].Finish? && Remembered(calls[k].status)
    && var s := SlotAfter(ttl, calls[..k]); s.Held? && s.rec.hash == calls[k].hash
  }

  predicate Ordered(calls: seq<Call>) {
    forall i, j :: 0 <= i < j < |calls| ==> calls[i].now <= calls[j].now
  }

  // ----- the record read off the history ---------------------------------------------------------

  /**
   * The slot is what the history says: held since call `owner`, the last ownership grant, under its hash;
   * answered by call `last`, the last commit to land since, if any; expiring ttl after the later of both.
   */
  ghost predicate Explains(ttl: int, calls: seq<Call>, s: Slot, owner: int, last: int) {
    if s.Vacant? then forall k :: 0 <= k < |calls| ==> !Owns(ttl, calls, k)
    else
      && 0 <= owner < |calls| && Owns(ttl, calls, owner) && s.rec.hash == calls[owner].hash
      && (forall k :: owner < k < |calls| ==> !Owns(ttl, calls, k))
      && (s.rec.done <==> owner < last)
      && (s.rec.done ==>
            && last < |calls| && Lands(ttl, calls, last)
            && calls[last].hash == s.rec.hash && calls[last].status == s.rec.status && calls[last].body == s.rec.body
            && (forall k :: last < k < |calls| ==> !Lands(ttl, calls, k)))
      && (!s.rec.done ==> forall k :: owner < k < |calls| ==> !Lands(ttl, calls, k))
      && s.rec.exp == (if s.rec.done then calls[last].now else calls[owner].now) + ttl
  }

  lemma PrefixOwns(ttl: int, calls: seq<Call>, n: nat, k: nat)
    requires k < n <= |calls|
    ensures Owns(ttl, calls, k) == Owns(ttl, calls[..n], k) && Lands(ttl, calls, k) == Lands(ttl, calls[..n], k)
  {
    assert calls[..n][..k] == calls[..k];
  }

  lemma {:induction false} HistoryExplains(ttl: int, calls: seq<Call>) returns (owner: int, last: int)
    ensures Explains(ttl, calls, SlotAfter(ttl, calls), owner, last)
  {
    owner, last := -1, -1;
    if calls != [] {
      var n := |calls| - 1;
      owner, last := HistoryExplains(ttl, calls[..n]);
      forall k: nat | k < n
        ensures Owns(ttl, calls, k) == Owns(ttl, calls[..n], k) && Lands(ttl, calls, k) == Lands(ttl, calls[..n], k)
      {
        PrefixOwns(ttl, calls, n, k);
      }
      assert calls[..n] + [calls[n]] == calls;
      if Owns(ttl, calls, n) {
        owner, last := n, -1;
      } else if Lands(ttl, calls, n) {
        last := n;
      }
    }
  }

  // ----- what every interleaving keeps -----------------------------------------------------------

  /** Two ownership grants for one key are more than a TTL apart. */
  lemma OwnersAreTtlApart(ttl: int, calls: seq<Call>, i: nat, j: nat)
    requires Ordered(calls) && i < j < |calls| && Owns(ttl, calls, i) && Owns(ttl, calls, j)
    ensures calls[j].now - calls[i].now > ttl
  {
    PrefixOwns(ttl, calls, j, i);
    var owner, last := HistoryExplains(ttl, calls[..j]);
    assert SlotAfter(ttl, calls[..j]).Held?;
    assert owner >= i;
  }

  /** Until the TTL has passed no further ownership is granted, so the grant stays the record's owner. */
  lemma StillHeld(ttl: int, calls: seq<Call>, i: nat, k: nat)
    requires Ordered(calls) && i < k < |calls| && Owns(ttl, calls, i) && calls[k].now <= calls[i].now + ttl
    ensures var s := SlotAfter(ttl, calls[..k]);
            && s.Held? && s.rec.hash == calls[i].hash && calls[k].now <= s.rec.exp
            && (s.rec.done <==> exists m :: i < m < k && Lands(ttl, calls, m))
  {
    PrefixOwns(ttl, calls, k, i);
    var owner, last := HistoryExplains(ttl, calls[..k]);
    assert SlotAfter(ttl, calls[..k]).Held? && owner >= i;
    if owner > i {
      PrefixOwns(ttl, calls, k, owner);
      OwnersAreTtlApart(ttl, calls, i, owner);
    }
    forall m: nat | m < k ensures Lands(ttl, calls, m) == Lands(ttl, calls[..k], m) {
      PrefixOwns(ttl, calls, k, m);
    }
  }

  /** While a claim is unexpired, the same key with another body conflicts. */
  lemma OtherBodyConflicts(ttl: int, calls: seq<Call>, i: nat, k: nat)
    requires Ordered(calls) && i < k < |calls| && Owns(ttl, calls, i) && calls[k].Begin?
    requires calls[k].now <= calls[i].now + ttl && calls[k].hash != calls[i].hash
    ensures AnswerAt(ttl, calls, k) == Conflict
  {
    StillHeld(ttl, calls, i, k);
  }

  /**
   * While a claim is unexpired, a retry with the same body conflicts exactly until a commit lands. A
   * request whose response is withheld (a 5xx) therefore blocks its key for the whole TTL.
   */
  lemma RetryConflictsUntilCommit(ttl: int, calls: seq<Call>, i: nat, k: nat)
    requires Ordered(calls) && i < k < |calls| && Owns(ttl, calls, i) && calls[k].Begin?
    requires calls[k].now <= calls[i].now + ttl && calls[k].hash == calls[i].hash
    ensures AnswerAt(ttl, calls, k) == Conflict <==> !exists m :: i < m < k && Lands(ttl, calls, m)
  {
    StillHeld(ttl, calls, i, k);
  }

  /** A replayed response is the last one committed under the hash asked for since the grant in force, never a 5xx. */
  lemma ReplayWasCommitted(ttl: int, calls: seq<Call>, k: nat) returns (owner: nat, m: nat)
    requires k < |calls| && calls[k].Begin? && AnswerAt(ttl, calls, k).Replayed?
    ensures owner < m < k && Owns(ttl, calls, owner) && calls[owner].hash == calls[k].hash
    ensures Lands(ttl, calls, m) && calls[m].hash == calls[k].hash
    ensures AnswerAt(ttl, calls, k) == Replayed(calls[m].status, calls[m].body)
    ensures forall j :: m < j < k ==> !Lands(ttl, calls, j)
    ensures forall j :: owner < j < k ==> !Owns(ttl, calls, j)
    ensures AnswerAt(ttl, calls, k).status < 500 && AnswerAt(ttl, calls, k).status != 0
  {
    owner, m := HistoryExplains(ttl, calls[..k]);
    forall j: nat | j < k
      ensures Owns(ttl, calls, j) == Owns(ttl, calls[..k], j) && Lands(ttl, calls, j) == Lands(ttl, calls[..k], j)
    {
      PrefixOwns(ttl, calls, k, j);
    }
  }

  // ----- when a key is free, and what a retry is given --------------------------------------------

  /** Something renewed the record of the key less than, or just, a TTL before: a grant, or an answer that landed. */
  ghost predicate Renewed(ttl: int, calls: seq<Call>, k: nat)
    requires k < |calls|
  {
    exists i :: 0 <= i < k && (Owns(ttl, calls, i) || Lands(ttl, calls, i)) && calls[k].now <= calls[i].now + ttl
  }

  /** A request is granted ownership exactly when no grant and no answer was made on its key within the last TTL. */
  lemma GrantedIff(ttl: int, calls: seq<Call>, k: nat)
    requires Ordered(calls) && k < |calls| && calls[k].Begin?
    ensures Owns(ttl, calls, k) <==> !Renewed(ttl, calls, k)
  {
    var owner, last := HistoryExplains(ttl, calls[..k]);
    forall j: nat | j < k
      ensures Owns(ttl, calls, j) == Owns(ttl, calls[..k], j) && Lands(ttl, calls, j) == Lands(ttl, calls[..k], j)
    {
      PrefixOwns(ttl, calls, k, j);
    }
    NothingLandsUnowned(ttl, calls, k);
  }

  /** An answer finds a record only if ownership was granted before. */
  lemma NothingLandsUnowned(ttl: int, calls: seq<Call>, k: nat)
    requires k < |calls|
    ensures forall i :: 0 <= i < k && Lands(ttl, calls, i) ==> exists j :: 0 <= j < i && Owns(ttl, calls, j)
  {
    forall i: nat | i < k && Lands(ttl, calls, i) ensures exists j :: 0 <= j < i && Owns(ttl, calls, j) {
      var owner, last := HistoryExplains(ttl, calls[..i]);
      PrefixOwns(ttl, calls, i, owner);
    }
  }

  /** A 5xx or aborted answer leaves the record as it was; any other, on its hash, is what the record now holds. */
  lemma AnswerStored(ttl: int, calls: seq<Call>, k: nat)
    requires k < |calls| && calls[k].Finish?
    ensures var before, after := SlotAfter(ttl, calls[..k]), SlotAfter(ttl, calls[..k + 1]);
            var status := calls[k].status;
            && (status >= 500 || status == 0 ==> after == before)
            && (status < 500 && status != 0 && before.Held? && before.rec.hash == calls[k].hash ==>
                  after == Held(Rec(calls[k].hash, status, calls[k].body, true, calls[k].now + ttl)))
  {
    assert calls[..k + 1][..k] == calls[..k];
  }

  /**
   * A retry with the body of an answer that came within the TTL of its claim, itself within the TTL of that
   * answer, is given the answer, unless a later one landed first; 5xx and aborted answers apart.
   */
  lemma RetryIsGivenTheAnswer(ttl: int, calls: seq<Call>, m: nat, k: nat)
    requires FromOwners(ttl, calls) && Ordered(calls) && m < k < |calls| && calls[m].Finish? && calls[k].Begin?
    requires calls[m].status < 500 && calls[m].status != 0 && calls[m].now <= calls[calls[m].of].now + ttl
    requires calls[k].hash == calls[m].hash && calls[k].now <= calls[m].now + ttl
    requires forall j :: m < j < k ==> !Lands(ttl, calls, j)
    ensures AnswerAt(ttl, calls, k) == Replayed(calls[m].status, calls[m].body)
  {
    OwnAnswerLands(ttl, calls, m);
    NoGrantSince(ttl, calls, m, k);
    AnswerHeld(ttl, calls, m, k);
  }

  /** Within the TTL of an answer that landed nobody is granted ownership. */
  lemma NoGrantSince(ttl: int, calls: seq<Call>, m: nat, k: nat)
    requires Ordered(calls) && m < k < |calls| && Lands(ttl, calls, m) && calls[k].now <= calls[m].now + ttl
    ensures forall j :: m < j < k ==> !Owns(ttl, calls, j)
  {
    hide Owns, Lands;
    forall j: nat | m < j < k ensures !Owns(ttl, calls, j) {
      if calls[j].Begin? {
        GrantedIff(ttl, calls, j);
        assert Renewed(ttl, calls, j);
      } else {
        OnlyBeginsOwn(ttl, calls, j);
      }
    }
  }

  lemma OnlyBeginsOwn(ttl: int, calls: seq<Call>, k: nat)
    requires k < |calls| && !calls[k].Begin?
    ensures !Owns(ttl, calls, k)
  {
  }

  /** Until another grant or answer the record holds what landed last. */
  lemma AnswerHeld(ttl: int, calls: seq<Call>, m: nat, k: nat)
    requires m < k < |calls| && Lands(ttl, calls, m)
    requires forall j :: m < j < k ==> !Owns(ttl, calls, j) && !Lands(ttl, calls, j)
    ensures SlotAfter(ttl, calls[..k]) ==
            Held(Rec(calls[m].hash, calls[m].status, calls[m].body, true, calls[m].now + ttl))
    decreases k - m
  {
    if k == m + 1 {
      AnswerStored(ttl, calls, m);
    } else {
      hide Lands;
      AnswerHeld(ttl, calls, m, k - 1);
      assert calls[..k][..k - 1] == calls[..k - 1];
      assert !Owns(ttl, calls, k - 1) && !Lands(ttl, calls, k - 1);
      NothingChanges(ttl, calls, k - 1);
    }
  }

  /** A call that is neither granted nor lands leaves the record as it is. */
  lemma NothingChanges(ttl: int, calls: seq<Call>, k: nat)
    requires k < |calls| && !Owns(ttl, calls, k) && !Lands(ttl, calls, k)
    ensures SlotAfter(ttl, calls[..k + 1]) == SlotAfter(ttl, calls[..k])
  {
    assert calls[..k + 1][..k] == calls[..k];
  }

  // ----- whose answer it is ----------------------------------------------------------------------

  /** Only the request that was granted ownership is handled, and it answers under its own hash. */
  ghost predicate FromOwners(ttl: int, calls: seq<Call>) {
    forall k :: 0 <= k < |calls| && calls[k].Finish? ==>
      calls[k].of < k && Owns(ttl, calls, calls[k].of) && calls[calls[k].of].hash == calls[k].hash
  }

  /** Ownership was granted again after call i and before call k. */
  ghost predicate GrantedBetween(ttl: int, calls: seq<Call>, i: nat, k: nat)
    requires k <= |calls|
  {
    exists j :: i < j < k && Owns(ttl, calls, j)
  }

  /** Call i is the last grant before call k. */
  ghost predicate LastGrant(ttl: int, calls: seq<Call>, i: nat, k: nat)
    requires k <= |calls|
  {
    i < k && Owns(ttl, calls, i) && !GrantedBetween(ttl, calls, i, k)
  }

  /** The record of an answer that is committed is the one of the last grant, whoever that went to. */
  lemma AnswerMeetsLastGrant(ttl: int, calls: seq<Call>, k: nat) returns (owner: nat)
    requires FromOwners(ttl, calls) && k < |calls| && calls[k].Finish?
    ensures calls[k].of <= owner && LastGrant(ttl, calls, owner, k)
    ensures Lands(ttl, calls, k) <==> Remembered(calls[k].status) && calls[owner].hash == calls[k].hash
  {
    var o, last := HistoryExplains(ttl, calls[..k]);
    forall j: nat | j < k ensures Owns(ttl, calls, j) == Owns(ttl, calls[..k], j) {
      PrefixOwns(ttl, calls, k, j);
    }
    assert SlotAfter(ttl, calls[..k]).Held?;
    owner := o;
  }

  /** An answer that comes within its TTL lands, unless it is withheld, and on its own claim. */
  lemma OwnAnswerLands(ttl: int, calls: seq<Call>, k: nat)
    requires FromOwners(ttl, calls) && Ordered(calls) && k < |calls| && calls[k].Finish?
    requires calls[k].now <= calls[calls[k].of].now + ttl
    ensures LastGrant(ttl, calls, calls[k].of, k)
    ensures Lands(ttl, calls, k) <==> Remembered(calls[k].status)
  {
    var owner := AnswerMeetsLastGrant(ttl, calls, k);
    if owner > calls[k].of {
      OwnersAreTtlApart(ttl, calls, calls[k].of, owner);
    }
  }

  /** An answer lands on somebody else's claim exactly when the last grant is a later one, of the same body. */
  lemma LandsOnAnotherIff(ttl: int, calls: seq<Call>, k: nat)
    requires FromOwners(ttl, calls) && k < |calls| && calls[k].Finish? && Remembered(calls[k].status)
    ensures Lands(ttl, calls, k) && GrantedBetween(ttl, calls, calls[k].of, k) <==>
            exists o: nat :: calls[k].of < o && LastGrant(ttl, calls, o, k) && calls[o].hash == calls[k].hash
  {
    var owner := AnswerMeetsLastGrant(ttl, calls, k);
  }

  /**
   * A replayed response is its record owner's own exactly when no ownership was granted between the claim it
   * answers and the answer; so it always is when the answer came within its TTL.
   */
  lemma ReplayIsOwnersIff(ttl: int, calls: seq<Call>, k: nat) returns (owner: nat, m: nat)
    requires FromOwners(ttl, calls) && k < |calls| && calls[k].Begin? && AnswerAt(ttl, calls, k).Replayed?
    ensures m < k && LastGrant(ttl, calls, owner, k) && Lands(ttl, calls, m)
    ensures AnswerAt(ttl, calls, k) == Replayed(calls[m].status, calls[m].body)
    ensures calls[m].of == owner <==> !GrantedBetween(ttl, calls, calls[m].of, m)
    ensures Ordered(calls) && calls[m].now <= calls[calls[m].of].now + ttl ==> calls[m].of == owner
  {
    owner, m := ReplayWasCommitted(ttl, calls, k);
    if Ordered(calls) && calls[m].now <= calls[calls[m].of].now + ttl {
      OwnAnswerLands(ttl, calls, m);
    }
  }

  /** The first owner's answer, late, on the claim of the second: retries see it until the second one answers. */
  lemma LateCommitIsReplayed()
    ensures var calls := [Begin("h", 0), Begin("h", 11), Finish(0, "h", 200, "first", 12), Begin("h", 13)];
            && FromOwners(10, calls) && Ordered(calls) && Owns(10, calls, 0) && LastGrant(10, calls, 1, 3)
            && AnswerAt(10, calls, 3) == Replayed(200, "first")
  {
    var calls := [Begin("h", 0), Begin("h", 11), Finish(0, "h", 200, "first", 12), Begin("h", 13)];
    var one, two, three := [calls[0]], [calls[0], calls[1]], [calls[0], calls[1], calls[2]];
    assert calls[..0] == [] && calls[..1] == one && calls[..2] == two && calls[..3] == three;
    assert one[..0] == [] && two[..1] == one && three[..2] == two;
    assert SlotAfter(10, []) == Vacant;
    assert SlotAfter(10, one) == Held(Rec("h", 0, "", false, 10));
    assert SlotAfter(10, two) == Held(Rec("h", 0, "", false, 21));
    assert SlotAfter(10, three) == Held(Rec("h", 200, "first", true, 22));
    hide SlotAfter;
    assert Owns(10, calls, 0) && Owns(10, calls, 1) && !Owns(10, calls, 2);
  }

  // ----- the store -------------------------------------------------------------------------------

  function SlotOf(m: map<string, Rec>, key: string): Slot {
    if key in m then Held(m[key]) else Vacant
  }

  class MemIdemStore {
    var m: map<string, Rec>
    const ttl: int

    constructor (ttl: int)
      ensures m == map[] && this.ttl == if ttl <= 0 then 24 * 3600 * 1_000_000_000 else ttl
    {
      m := map[];
      this.ttl := if ttl <= 0 then 24 * 3600 * 1_000_000_000 else ttl;
    }

    method Begin(key: string, hash: string, now: int) returns (answer: Answer)
      modifies `m
      ensures Began(SlotOf(m, key), answer) == BeginStep(ttl, old(SlotOf(m, key)), hash, now)
      ensures forall k :: k != key ==> SlotOf(m, k) == old(SlotOf(m, k))
    {
      if key in m {
        var rec := m[key];
        if now > rec.exp {
          m := m - {key};
        } else if rec.hash != hash {
          return Conflict;
        } else if !rec.done {
          return Conflict;
        } else {
          return Replayed(rec.status, rec.body);
        }
      }
      m := m[key := Rec(hash, 0, "", false, now + ttl)];
      return Owned;
    }

    method Commit(key: string, hash: string, status: int, body: string, now: int)
      modifies `m
      ensures SlotOf(m, key) == CommitStep(ttl, old(SlotOf(m, key)), hash, status, body, now)
      ensures m == if old(key in m && m[key].hash == hash)
                   then old(m)[key := Rec(hash, status, body, true, now + ttl)] else old(m)
      ensures forall k :: k != key ==> SlotOf(m, k) == old(SlotOf(m, k))
    {
      if key in m && m[key].hash == hash {
        m := m[key := m[key].(done := true, status := status, body := body, exp := now + ttl)];
      }
    }

    /** The middleware, once the handler has answered: what is not remembered leaves the claim as it is. */
    method AfterHandler(key: string, hash: string, status: int, body: string, now: int)
      modifies `m
      ensures status >= 500 || status == 0 ==> m == old(m)
      ensures status < 500 && status != 0 && old(key in m && m[key].hash == hash) ==>
                m == old(m)[key := Rec(hash, status, body, true, now + ttl)]
      ensures SlotOf(m, key) == FinishStep(ttl, old(SlotOf(m, key)), hash, status, body, now)
      ensures forall k :: k != key ==> SlotOf(m, k) == old(SlotOf(m, k))
    {
      if status >= 500 || status == 0 {
        return;
      }
      Commit(key, hash, status, body, now);
    }
  }

  // ----- many keys -------------------------------------------------------------------------------

  datatype KeyedCall = KeyedCall(key: string, call: Call)

  /** The calls made on one key, in order; `of` counts in these. */
  function CallsOn(calls: seq<KeyedCall>, key: string): seq<Call> {
    if calls == [] then []
    else
      var init, last := CallsOn(calls[..|calls| - 1], key), calls[|calls| - 1];
      if last.key == key then init + [last.call] else init
  }

  /** Any interleaving of requests on any keys, as the middleware runs them on a store. */
  method RunCalls(store: MemIdemStore, calls: seq<KeyedCall>)
    requires store.m == map[]
    modifies store`m
    ensures forall key :: SlotOf(store.m, key) == SlotAfter(store.ttl, CallsOn(calls, key))
  {
    for i := 0 to |calls|
      invariant forall key :: SlotOf(store.m, key) == SlotAfter(store.ttl, CallsOn(calls[..i], key))
    {
      var c := calls[i];
      assert calls[..i + 1][..i] == calls[..i];
      ghost var before := CallsOn(calls[..i], c.key);
      assert (before + [c.call])[..|before|] == before;
      match c.call {
        case Begin(hash, now) => var _ := store.Begin(c.key, hash, now);
        case Finish(_, hash, status, body, now) => store.AfterHandler(c.key, hash, status, body, now);
      }
    }
    assert calls[..|calls|] == calls;
  }
}
