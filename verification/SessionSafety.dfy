/** Whole runs of one session object, under arbitrary interleavings of good, bad, gap and snapshot frames. */
module SessionSafety {
  import opened SessionSpec

  // ----- sequence --------------------------------------------------------------------------------

  /** The k-th frame ingested from `last` on: the successors of `last`, then 0 again and again past the top. */
  function SeqAt(last: uint64, k: nat): uint64 {
    if last + 1 + k <= MAX_SEQ then last + 1 + k else 0
  }

  function LastAfter(last: uint64, n: nat): uint64 {
    if last + n <= MAX_SEQ then last + n else MAX_SEQ
  }

  /** A step ingests at most one frame, the successor of the last. */
  lemma StepSeq(s: Sess, i: Input)
    ensures var r := Step(s, i);
            && |r.published| <= 1
            && (r.published != [] ==> r.published[0].seqNo == SeqAt(s.lastSeq, 0))
            && r.s.lastSeq == LastAfter(s.lastSeq, |r.published|)
            && (forall b :: r.reply == ResyncComplete(b) ==> b == SeqAt(s.lastSeq, 0))
  {
    hide SeenNonce;
  }

  /**
   * Whatever frames arrive, a session ingests exactly the contiguous sequence numbers that follow its
   * starting one, and its last number is the last one ingested.
   */
  lemma {:induction false} IngestsContiguously(s: Sess, inputs: seq<Input>)
    ensures var r := Run(s, inputs);
            && (forall k :: 0 <= k < |r.published| ==> r.published[k].seqNo == SeqAt(s.lastSeq, k))
            && r.s.lastSeq == LastAfter(s.lastSeq, |r.published|)
  {
    hide Step;
    if inputs != [] {
      var init := inputs[..|inputs| - 1];
      IngestsContiguously(s, init);
      StepSeq(Run(s, init).s, inputs[|inputs| - 1]);
    }
  }

  /**
   * No sequence number, hence no frame, is ingested twice, exactly as long as the 64-bit counter is not
   * run past its top.
   */
  lemma IngestsOnceIff(s: Sess, inputs: seq<Input>)
    ensures var p := Run(s, inputs).published;
            (forall j, k :: 0 <= j < k < |p| ==> p[j].seqNo != p[k].seqNo) <==> s.lastSeq + |p| <= MAX_SEQ + 1
  {
    IngestsContiguously(s, inputs);
    var p := Run(s, inputs).published;
    if s.lastSeq + |p| > MAX_SEQ + 1 {
      assert p[|p| - 2].seqNo == 0 && p[|p| - 1].seqNo == 0;
    }
  }

  /** At the top of the range 0 is accepted again and again, each time under a nonce not in use. */
  lemma ZeroAgain(s: Sess, first: Input, second: Input)
    requires s.lastSeq == MAX_SEQ && first.Event? && second.Event?
    requires first.env.seqNo == 0 && second.env.seqNo == 0 && first.env.nonce != second.env.nonce
    requires Step(s, first).published != [] && Step(s, second).published != []
    ensures Run(s, [first, second]).published == [Ingest(s, first.env), Ingest(s, second.env)]
  {
    hide SeenNonce, Verify;
    var after := Step(s, first).s;
    assert [first, second][..1] == [first];
    OneStep(s, first);
    IngestLeavesOthers(s, first, second.env.nonce);
    IngestedIff(s, second);
    IngestedIff(after, second);
    IngestedIs(s, first);
    IngestedIs(after, second);
  }

  lemma IngestedIs(s: Sess, i: Input)
    requires i.Event? && Step(s, i).published != []
    ensures Step(s, i).published == [Ingest(s, i.env)]
  {
    hide Verify;
  }

  /** An ingested frame leaves other nonces as expired as they were, or forgets them. */
  lemma IngestLeavesOthers(s: Sess, i: Input, nonce: string)
    requires i.Event? && Step(s, i).published != [] && nonce != i.env.nonce && i.env.seqNo <= s.lastSeq
    ensures var r := Step(s, i).s;
            && r == s.(nonces := r.nonces)
            && (nonce in r.nonces ==> nonce in s.nonces && r.nonces[nonce] == s.nonces[nonce])
  {
  }

  lemma {:induction false} RunAppend(s: Sess, x: seq<Input>, y: seq<Input>)
    ensures Run(s, x + y) ==
            var first := Run(s, x);
            var second := Run(first.s, y);
            RunResult(second.s, first.published + second.published, first.replies + second.replies)
  {
    hide Step;
    if y == [] {
      assert x + y == x;
    } else {
      var n := |y| - 1;
      RunAppend(s, x, y[..n]);
      assert (x + y)[..|x| + n] == x + y[..n];
    }
  }

  /** The baseline announced when a resync completes is the number of the next frame ingested, whenever that is. */
  lemma BaselineIsNext(s: Sess, before: seq<Input>, snap: Input, after: seq<Input>)
    requires Step(Run(s, before).s, snap).reply.ResyncComplete?
    ensures var at := Run(s, before).s;
            var rest := Run(Step(at, snap).s, after).published;
            && Run(s, before + [snap] + after).published == Run(s, before).published + rest
            && (rest != [] ==> rest[0].seqNo == Step(at, snap).reply.baseline)
  {
    hide Step;
    var at := Run(s, before).s;
    RunAppend(s, before, [snap]);
    RunAppend(s, before + [snap], after);
    OneStep(at, snap);
    StepSeq(at, snap);
    ResyncIngestsNothing(at, snap);
    IngestsContiguously(Step(at, snap).s, after);
  }

  lemma OneStep(s: Sess, i: Input)
    ensures Run(s, [i]) == RunResult(Step(s, i).s, [] + Step(s, i).published, [] + [Step(s, i).reply])
  {
    hide Step;
    assert [i][..0] == [];
  }

  lemma ResyncIngestsNothing(s: Sess, i: Input)
    requires Step(s, i).reply.ResyncComplete?
    ensures Step(s, i).published == [] && Step(s, i).s.lastSeq == s.lastSeq
  {
  }

  /** What makes an event frame ingested; the session's state is not among the conditions. */
  lemma IngestedIff(s: Sess, i: Input)
    requires i.Event?
    ensures Step(s, i).published != [] <==>
            && i.env.tenant == s.tenant && i.env.account == s.account && i.env.canonical && i.env.signer == s.key
            && -MAX_SKEW <= i.clock - i.env.tsClient * MILLI <= MAX_SKEW
            && (i.env.nonce in s.nonces ==> Expired(s.nonces[i.env.nonce], i.now))
            && i.env.seqNo == SeqAt(s.lastSeq, 0)
  {
  }

  /**
   * So a resync holds nothing back: a frame that was due before the gap is ingested after it, while the session
   * still waits for the snapshot.
   */
  lemma ResyncHoldsNothingBack(s: Sess, gap: Input, due: Input)
    requires gap.Event? && gap.ws && Verify(gap.env, s, gap.now, gap.clock).verdict.Gap?
    requires due.Event? && Step(s, due).published != [] && due.env.nonce != gap.env.nonce
    ensures var r := Run(s, [gap, due]);
            r.s.state.Resync? && r.published == [Ingest(s, due.env)] && r.replies[0] == SnapshotRequest
  {
    hide SeenNonce, Verify;
    var after := Step(s, gap).s;
    assert [gap, due][..1] == [gap];
    OneStep(s, gap);
    GapPurgesOnly(s, gap, due);
    IngestedIff(s, due);
    IngestedIff(after, due);
  }

  /** A frame rejected for its number leaves other nonces as expired as they were, or forgets them. */
  lemma GapPurgesOnly(s: Sess, gap: Input, due: Input)
    requires gap.Event? && gap.ws && Verify(gap.env, s, gap.now, gap.clock).verdict.Gap?
    requires due.Event? && due.env.nonce != gap.env.nonce
    ensures var r := Step(s, gap);
            && r.s == s.(state := Resync, nonces := r.s.nonces) && r.published == [] && r.reply == SnapshotRequest
            && (due.env.nonce in r.s.nonces ==>
                  due.env.nonce in s.nonces && r.s.nonces[due.env.nonce] == s.nonces[due.env.nonce])
  {
  }

  // ----- one frame ----------------------------------------------------------------------------------

  predicate Bound(env: Envelope, s: Sess) {
    env.tenant == s.tenant && env.account == s.account
  }

  predicate Authentic(env: Envelope, s: Sess) {
    Bound(env, s) && env.canonical && env.signer == s.key
  }

  /** Sent within 90 seconds of the bridge's clock, in nanoseconds against milliseconds. */
  predicate InTime(env: Envelope, clock: int) {
    env.tsClient * 1_000_000 - 90_000_000_000 <= clock <= env.tsClient * 1_000_000 + 90_000_000_000
  }

  /** The nonce is on record, and from no more than 60 seconds ago. */
  predicate UsedBefore(env: Envelope, s: Sess, now: int) {
    env.nonce in s.nonces && now <= s.nonces[env.nonce] * 1_000_000 + 60_000_000_000
  }

  /** The number after the last one, in 64 bits. */
  predicate Due(env: Envelope, s: Sess) {
    env.seqNo == if s.lastSeq == 0xFFFF_FFFF_FFFF_FFFF then 0 else s.lastSeq + 1
  }

  /** Each verdict is about the first check that fails: binding, form, signature, time, nonce, number. */
  lemma VerdictIff(env: Envelope, s: Sess, now: int, clock: int)
    ensures var v := Verify(env, s, now, clock).verdict;
            && (v == Binding <==> !Bound(env, s))
            && (v == Malformed <==> Bound(env, s) && !env.canonical)
            && (v == BadSig <==> Bound(env, s) && env.canonical && env.signer != s.key)
            && (v == Skew <==> Authentic(env, s) && !InTime(env, clock))
            && (v == Replay <==> Authentic(env, s) && InTime(env, clock) && UsedBefore(env, s, now))
            && (v == Gap <==>
                Authentic(env, s) && InTime(env, clock) && !UsedBefore(env, s, now) && !Due(env, s))
            && (v == SessionSpec.Ok <==>
                Authentic(env, s) && InTime(env, clock) && !UsedBefore(env, s, now) && Due(env, s))
  {
  }

  /** A frame that gets as far leaves its nonce recorded at the millisecond, and no use older than 60 seconds. */
  lemma NonceIsRecorded(env: Envelope, s: Sess, now: int, clock: int)
    ensures var after := Verify(env, s, now, clock).nonces;
            if !Authentic(env, s) || !InTime(env, clock) then after == s.nonces
            else && env.nonce in after
                 && after[env.nonce] == (if UsedBefore(env, s, now) then s.nonces[env.nonce] else now / 1_000_000)
                 && forall n :: n != env.nonce ==>
                      (n in after <==> n in s.nonces && now <= s.nonces[n] * 1_000_000 + 60_000_000_000) &&
                      (n in after ==> after[n] == s.nonces[n])
  {
  }

  /** What an event frame does, by the verdict on it, over WebSocket and over REST. */
  lemma FrameDoes(s: Sess, i: Input)
    requires i.Event?
    ensures var v, r := Verify(i.env, s, i.now, i.clock), Step(s, i);
            && r.s == s.(nonces := v.nonces, lastSeq := r.s.lastSeq, state := r.s.state)
            && r.s.lastSeq == (if v.verdict.Ok? && i.env.seqNo > s.lastSeq then i.env.seqNo else s.lastSeq)
            && r.s.state == (if i.ws && v.verdict.Gap? then Resync else s.state)
            && (i.ws && v.verdict.Ok? ==> r.reply == Ack(i.env.seqNo))
            && (i.ws && v.verdict.Gap? ==> r.reply == SnapshotRequest)
            && (i.ws && !v.verdict.Ok? && !v.verdict.Gap? ==> r.reply == Reject(v.verdict))
            && (!i.ws ==> r.reply == Silent)
  {
    hide Verify;
  }

  /** A frame is published once, as its own session's event, word for word; or not at all. */
  lemma PublishedIs(s: Sess, i: Input)
    requires i.Event?
    ensures var v, p := Verify(i.env, s, i.now, i.clock).verdict, Step(s, i).published;
            if !v.Ok? then p == []
            else && |p| == 1 && p[0].tenant == i.env.tenant == s.tenant && p[0].account == i.env.account == s.account
                 && p[0].typ == i.env.typ && p[0].eventId == i.env.id && p[0].seqNo == i.env.seqNo
                 && p[0].tServed == i.env.tsServer && p[0].payload == i.env.payload
  {
    hide SeenNonce;
  }

  /** A snapshot frame ends a resync exactly when it is the last one and its checksum is good; it moves nothing else. */
  lemma SnapshotDoes(s: Sess, i: Input)
    requires i.Snapshot?
    ensures var r := Step(s, i);
            && r.published == [] && r.s == s.(state := r.s.state)
            && (r.reply.ResyncComplete? <==> s.state == Resync && i.parses && i.final && i.checksumOk)
            && (r.reply.ResyncComplete? ==> r.s.state == Active)
            && (!r.reply.ResyncComplete? ==> r.s.state == s.state)
            && (r.reply == Silent <==> s.state == Resync && i.parses && !i.final)
            && (r.reply == Reject(Malformed) <==>
                s.state == Active || !i.parses || (i.final && !i.checksumOk))
  {
  }

  // ----- resync ----------------------------------------------------------------------------------

  /** The state the replies leave a session in: waiting for a snapshot since the last request, or not. */
  function StateAfter(state: SessionState, replies: seq<Reply>): SessionState {
    if replies == [] then state
    else
      match replies[|replies| - 1]
      case SnapshotRequest => Resync
      case ResyncComplete(_) => Active
      case _ => StateAfter(state, replies[..|replies| - 1])
  }

  /** A session is in resync exactly between a snapshot request and the completion that answers it. */
  lemma {:induction false} ResyncIsWhatWasAsked(s: Sess, inputs: seq<Input>)
    ensures Run(s, inputs).s.state == StateAfter(s.state, Run(s, inputs).replies)
  {
    hide Verify;
    if inputs != [] {
      var init := inputs[..|inputs| - 1];
      ResyncIsWhatWasAsked(s, init);
      var r := Run(s, inputs).replies;
      assert r[..|r| - 1] == Run(s, init).replies;
    }
  }

  // ----- the replay window -----------------------------------------------------------------------

  datatype Query = Query(nonce: string, now: int)

  datatype Window = Window(nonces: map<string, int>, answers: seq<bool>)

  /** A run of nonce checks, on a clock that may step either way. */
  function Checks(qs: seq<Query>): Window {
    if qs == [] then Window(map[], [])
    else
      var w, q := Checks(qs[..|qs| - 1]), qs[|qs| - 1];
      var r := SeenNonce(w.nonces, q.nonce, q.now);
      Window(r.nonces, w.answers + [r.isNew])
  }

  /** The millisecond a check records. */
  function Stamp(q: Query): int {
    q.now / MILLI
  }

  /** Check i accepted the nonce and recorded its use. */
  predicate Used(qs: seq<Query>, i: int, nonce: string)
    requires |Checks(qs).answers| == |qs|
  {
    0 <= i < |qs| && qs[i].nonce == nonce && Checks(qs).answers[i]
  }

  /** Some check after the i-th, whatever its nonce, read a clock at which the i-th one's use was expired. */
  predicate FoundExpired(qs: seq<Query>, i: int) {
    exists j :: 0 <= i < j < |qs| && Expired(Stamp(qs[i]), qs[j].now)
  }

  lemma {:induction false} OneAnswerEach(qs: seq<Query>)
    ensures |Checks(qs).answers| == |qs|
    ensures qs != [] ==> Checks(qs[..|qs| - 1]).answers == Checks(qs).answers[..|qs| - 1]
  {
    if qs != [] {
      OneAnswerEach(qs[..|qs| - 1]);
    }
  }

  lemma UsedSnoc(qs: seq<Query>, i: int, nonce: string)
    requires qs != [] && 0 <= i < |qs| - 1
    ensures |Checks(qs).answers| == |qs| && |Checks(qs[..|qs| - 1]).answers| == |qs| - 1
    ensures Used(qs, i, nonce) <==> Used(qs[..|qs| - 1], i, nonce)
    ensures FoundExpired(qs, i) <==> FoundExpired(qs[..|qs| - 1], i) || Expired(Stamp(qs[i]), qs[|qs| - 1].now)
  {
    hide Expired;
    var init, q := qs[..|qs| - 1], qs[|qs| - 1];
    OneAnswerEach(qs);
    OneAnswerEach(init);
    if FoundExpired(init, i) {
      var j :| i < j < |init| && Expired(Stamp(init[i]), init[j].now);
      assert Expired(Stamp(qs[i]), qs[j].now);
    }
    if FoundExpired(qs, i) && !Expired(Stamp(qs[i]), q.now) {
      var j :| i < j < |qs| && Expired(Stamp(qs[i]), qs[j].now);
      assert Expired(Stamp(init[i]), init[j].now);
    }
  }

  /** The map holds a nonce exactly when a use of it was never found expired, and holds that use's time. */
  ghost predicate HoldsLiveUses(qs: seq<Query>)
    requires |Checks(qs).answers| == |qs|
  {
    var nonces := Checks(qs).nonces;
    && (forall n <- nonces :: exists i :: Used(qs, i, n) && !FoundExpired(qs, i) && nonces[n] == Stamp(qs[i]))
    && (forall i, n :: Used(qs, i, n) && !FoundExpired(qs, i) ==> n in nonces && nonces[n] == Stamp(qs[i]))
  }

  lemma {:induction false} PurgingIsInvisible(qs: seq<Query>)
    ensures |Checks(qs).answers| == |qs| && HoldsLiveUses(qs)
  {
    OneAnswerEach(qs);
    if qs != [] {
      PurgingIsInvisible(qs[..|qs| - 1]);
      OneMoreCheck(qs);
    }
  }

  lemma OneMoreCheck(qs: seq<Query>)
    requires qs != []
    ensures |Checks(qs[..|qs| - 1]).answers| == |qs| - 1 && |Checks(qs).answers| == |qs|
    ensures HoldsLiveUses(qs[..|qs| - 1]) ==> HoldsLiveUses(qs)
  {
    hide Checks, FoundExpired;
    OneAnswerEach(qs);
    OneAnswerEach(qs[..|qs| - 1]);
    if HoldsLiveUses(qs[..|qs| - 1]) {
      forall n | n in Checks(qs).nonces
        ensures exists i :: Used(qs, i, n) && !FoundExpired(qs, i) && Checks(qs).nonces[n] == Stamp(qs[i])
      {
        HeldIsLive(qs, n);
      }
      forall i, n | Used(qs, i, n) && !FoundExpired(qs, i)
        ensures n in Checks(qs).nonces && Checks(qs).nonces[n] == Stamp(qs[i])
      {
        LiveIsHeld(qs, i, n);
      }
    }
  }

  /** What the map holds after one more check is a use still alive. */
  lemma HeldIsLive(qs: seq<Query>, n: string)
    requires qs != []
    ensures |Checks(qs[..|qs| - 1]).answers| == |qs| - 1 && |Checks(qs).answers| == |qs|
    ensures HoldsLiveUses(qs[..|qs| - 1]) && n in Checks(qs).nonces ==>
              exists i :: Used(qs, i, n) && !FoundExpired(qs, i) && Checks(qs).nonces[n] == Stamp(qs[i])
  {
    var init, q, last := qs[..|qs| - 1], qs[|qs| - 1], |qs| - 1;
    OneAnswerEach(qs);
    OneAnswerEach(init);
    if HoldsLiveUses(init) && n in Checks(qs).nonces {
      if n in Purge(Checks(init).nonces, q.now) {
        var i :| Used(init, i, n) && !FoundExpired(init, i) && Checks(init).nonces[n] == Stamp(init[i]);
        UsedSnoc(qs, i, n);
      } else {
        assert Used(qs, last, n) && !FoundExpired(qs, last);
      }
    }
  }

  /** A use still alive after one more check is held. */
  lemma LiveIsHeld(qs: seq<Query>, i: int, n: string)
    requires qs != [] && |Checks(qs[..|qs| - 1]).answers| == |qs| - 1 && |Checks(qs).answers| == |qs|
    requires HoldsLiveUses(qs[..|qs| - 1]) && Used(qs, i, n) && !FoundExpired(qs, i)
    ensures n in Checks(qs).nonces && Checks(qs).nonces[n] == Stamp(qs[i])
  {
    if i < |qs| - 1 {
      UsedSnoc(qs, i, n);
    }
  }

  /**
   * On any clock: a nonce is refused exactly when some use of it is within the last 60 seconds and no
   * check in between read a clock at which it was expired.
   */
  lemma RefusedIff(qs: seq<Query>, q: Query)
    ensures |Checks(qs).answers| == |qs|
    ensures !SeenNonce(Checks(qs).nonces, q.nonce, q.now).isNew <==>
            exists i :: Used(qs, i, q.nonce) && !FoundExpired(qs, i) && !Expired(Stamp(qs[i]), q.now)
  {
    hide Stamp, Expired, FoundExpired;
    PurgingIsInvisible(qs);
    var nonces := Checks(qs).nonces;
    assert q.nonce in Purge(nonces, q.now) <==> q.nonce in nonces && !Expired(nonces[q.nonce], q.now);
  }

  /** A window that never forgets: was the nonce used within 60 seconds of `q`? */
  ghost predicate UsedRecently(qs: seq<Query>, q: Query)
    requires |Checks(qs).answers| == |qs|
  {
    exists i :: Used(qs, i, q.nonce) && !Expired(Stamp(qs[i]), q.now)
  }

  /**
   * A refusal is always one the full history makes too; a nonce it knows to be recent is accepted all the same
   * exactly when each recent use was found expired in between, so only when an earlier check's clock is ahead.
   */
  lemma AnswersMatchFullHistory(qs: seq<Query>, q: Query)
    ensures |Checks(qs).answers| == |qs|
    ensures var isNew := SeenNonce(Checks(qs).nonces, q.nonce, q.now).isNew;
            && (!isNew ==> UsedRecently(qs, q))
            && (UsedRecently(qs, q) ==>
                  (isNew <==>
                   forall i :: Used(qs, i, q.nonce) && !Expired(Stamp(qs[i]), q.now) ==> FoundExpired(qs, i)))
            && (isNew && UsedRecently(qs, q) ==> exists j :: 0 <= j < |qs| && qs[j].now > q.now)
  {
    hide Stamp, Expired, FoundExpired;
    RefusedIff(qs, q);
    if SeenNonce(Checks(qs).nonces, q.nonce, q.now).isNew && UsedRecently(qs, q) {
      var i :| Used(qs, i, q.nonce) && !Expired(Stamp(qs[i]), q.now);
      ClockWasAhead(qs, i, q);
    }
  }

  lemma ClockWasAhead(qs: seq<Query>, i: int, q: Query)
    requires 0 <= i < |qs| && FoundExpired(qs, i) && !Expired(Stamp(qs[i]), q.now)
    ensures exists j :: 0 <= j < |qs| && qs[j].now > q.now
  {
    var j :| i < j < |qs| && Expired(Stamp(qs[i]), qs[j].now);
    assert qs[j].now > q.now;
  }

  /** So on a clock that is never behind an earlier check the answer is that of the full history. */
  lemma NeverBehindNeverDiffers(qs: seq<Query>, q: Query)
    requires forall j :: 0 <= j < |qs| ==> qs[j].now <= q.now
    ensures |Checks(qs).answers| == |qs|
    ensures SeenNonce(Checks(qs).nonces, q.nonce, q.now).isNew <==> !UsedRecently(qs, q)
  {
    AnswersMatchFullHistory(qs, q);
  }

  /**
   * The clock matters, for every session: a nonce in use, a check of another one 60 seconds on, and a clock
   * set back to where the use is recent, and the nonce is accepted again.
   */
  lemma ClockStepBackReadmits(qs: seq<Query>, nonce: string, other: string, used: int, ahead: int, back: int)
    requires other != nonce && forall i :: 0 <= i < |qs| ==> qs[i].nonce != nonce
    requires Expired(used / MILLI, ahead) && !Expired(used / MILLI, back)
    ensures var all := qs + [Query(nonce, used), Query(other, ahead)];
            && |Checks(all).answers| == |all|
            && SeenNonce(Checks(all).nonces, nonce, back).isNew && UsedRecently(all, Query(nonce, back))
  {
    hide Expired, SeenNonce, Checks;
    var n := |qs|;
    var one, all := qs + [Query(nonce, used)], qs + [Query(nonce, used), Query(other, ahead)];
    assert all[..n + 1] == one && one[..n] == qs;
    RefusedIff(qs, Query(nonce, used));
    RefusedIff(all, Query(nonce, back));
    OneAnswerEach(one);
    OneAnswerEach(all);
    assert Used(one, n, nonce) by { LastAnswer(one); }
    UsedSnoc(all, n, nonce);
    assert Expired(Stamp(all[n]), all[n + 1].now);
  }

  lemma LastAnswer(qs: seq<Query>)
    requires qs != []
    ensures var w, q := Checks(qs[..|qs| - 1]), qs[|qs| - 1];
            |Checks(qs).answers| == |qs| && Checks(qs).answers[|qs| - 1] == SeenNonce(w.nonces, q.nonce, q.now).isNew
  {
    OneAnswerEach(qs);
    OneAnswerEach(qs[..|qs| - 1]);
  }

  // ----- the checks a session makes --------------------------------------------------------------

  /** A frame that passes binding, canonical form, signature and skew, so that its nonce is checked. */
  predicate ReachesNonce(s: Sess, i: Input) {
    && i.Event? && i.env.tenant == s.tenant && i.env.account == s.account && i.env.canonical && i.env.signer == s.key
    && -MAX_SKEW <= i.clock - i.env.tsClient * MILLI <= MAX_SKEW
  }

  /** The nonce checks that some inputs lead to. */
  function Queries(s: Sess, inputs: seq<Input>): seq<Query> {
    if inputs == [] then []
    else
      var init, last := Queries(s, inputs[..|inputs| - 1]), inputs[|inputs| - 1];
      if ReachesNonce(s, last) then init + [Query(last.env.nonce, last.now)] else init
  }

  lemma QueriesSnoc(s: Sess, inputs: seq<Input>, i: Input)
    requires ReachesNonce(s, i)
    ensures Queries(s, inputs + [i]) == Queries(s, inputs) + [Query(i.env.nonce, i.now)]
  {
    assert (inputs + [i])[..|inputs|] == inputs;
  }

  lemma ChecksSnoc(qs: seq<Query>, q: Query)
    ensures Checks(qs + [q]).nonces == SeenNonce(Checks(qs).nonces, q.nonce, q.now).nonces
  {
    assert (qs + [q])[..|qs|] == qs;
  }

  /** A session's window is that of the checks its inputs led to; whose session it is never changes. */
  lemma {:induction false} NoncesAreChecked(s: Sess, inputs: seq<Input>)
    requires s.nonces == map[]
    ensures var r := Run(s, inputs).s;
            && r.nonces == Checks(Queries(s, inputs)).nonces
            && r.tenant == s.tenant && r.account == s.account && r.key == s.key
  {
    hide SeenNonce, Checks;
    if inputs == [] {
      assert Checks([]) == Window(map[], []) by { NoChecks(); }
    } else {
      var init, last := inputs[..|inputs| - 1], inputs[|inputs| - 1];
      NoncesAreChecked(s, init);
      if ReachesNonce(s, last) {
        ChecksSnoc(Queries(s, init), Query(last.env.nonce, last.now));
      }
    }
  }

  lemma NoChecks()
    ensures Checks([]) == Window(map[], [])
  {
  }

  /**
   * Over any run of a session, on any clock: a frame that gets as far is rejected as a replay exactly when a use
   * of its nonce is within the last 60 seconds and was never found expired in between.
   */
  lemma ReplayIff(s: Sess, inputs: seq<Input>, next: Input)
    requires s.nonces == map[] && ReachesNonce(s, next)
    ensures var qs := Queries(s, inputs);
            && |Checks(qs).answers| == |qs|
            && (Verify(next.env, Run(s, inputs).s, next.now, next.clock).verdict == Replay <==>
                exists i :: Used(qs, i, next.env.nonce) && !FoundExpired(qs, i) && !Expired(Stamp(qs[i]), next.now))
  {
    hide SeenNonce, Checks, Used, FoundExpired, Expired, Run;
    NoncesAreChecked(s, inputs);
    RefusedIff(Queries(s, inputs), Query(next.env.nonce, next.now));
  }

  /**
   * So a clock set back readmits a frame's nonce in every session: used, found expired by the next frame, and
   * recent again, it is no replay, and the frame is ingested if its number is due.
   */
  lemma ReadmittedAfterStepBack(s: Sess, inputs: seq<Input>, used: Input, ahead: Input, back: Input)
    requires s.nonces == map[] && ReachesNonce(s, used) && ReachesNonce(s, ahead) && ReachesNonce(s, back)
    requires used.env.nonce == back.env.nonce != ahead.env.nonce
    requires forall q <- Queries(s, inputs) :: q.nonce != used.env.nonce
    requires Expired(used.now / MILLI, ahead.now) && !Expired(used.now / MILLI, back.now)
    ensures var r := Run(s, inputs + [used] + [ahead]).s;
            && Verify(back.env, r, back.now, back.clock).verdict != Replay
            && (Step(r, back).published != [] <==> back.env.seqNo == SeqAt(r.lastSeq, 0))
  {
    hide SeenNonce, Checks, Run, Queries, Expired;
    var qs := Queries(s, inputs);
    var u, a := Query(used.env.nonce, used.now), Query(ahead.env.nonce, ahead.now);
    ClockStepBackReadmits(qs, u.nonce, a.nonce, u.now, a.now, back.now);
    QueriesSnoc(s, inputs, used);
    QueriesSnoc(s, inputs + [used], ahead);
    assert qs + [u] + [a] == qs + [u, a];
    NoncesAreChecked(s, inputs + [used] + [ahead]);
    NewIsIngested(Run(s, inputs + [used] + [ahead]).s, back);
  }

  lemma NewIsIngested(s: Sess, i: Input)
    requires ReachesNonce(s, i) && SeenNonce(s.nonces, i.env.nonce, i.now).isNew
    ensures Verify(i.env, s, i.now, i.clock).verdict != Replay
    ensures Step(s, i).published != [] <==> i.env.seqNo == SeqAt(s.lastSeq, 0)
  {
    hide SeenNonce;
  }

  // ----- a gap uses up the nonce -----------------------------------------------------------------

  lemma StepKeepsFresh(s: Sess, i: Input, nonce: string)
    requires nonce in s.nonces && (i.Event? ==> !Expired(s.nonces[nonce], i.now))
    ensures nonce in Step(s, i).s.nonces && Step(s, i).s.nonces[nonce] == s.nonces[nonce]
    ensures i.Event? && i.env.nonce == nonce ==> Step(s, i).published == []
  {
  }

  lemma {:induction false} FreshNonceBlocks(s: Sess, inputs: seq<Input>, nonce: string, to: int)
    requires nonce in s.nonces && to <= s.nonces[nonce] * MILLI + NONCE_TTL
    requires forall i <- inputs :: i.Event? ==> i.now <= to
    ensures var r := Run(s, inputs);
            nonce in r.s.nonces && r.s.nonces[nonce] == s.nonces[nonce]
    ensures forall k :: 0 <= k < |inputs| && inputs[k].Event? && inputs[k].env.nonce == nonce ==>
              Step(Run(s, inputs[..k]).s, inputs[k]).published == []
  {
    hide Step;
    if inputs != [] {
      var n := |inputs| - 1;
      FreshNonceBlocks(s, inputs[..n], nonce, to);
      assert inputs[n] in inputs;
      StepKeepsFresh(Run(s, inputs[..n]).s, inputs[n], nonce);
      forall k | 0 <= k < n && inputs[k].Event? && inputs[k].env.nonce == nonce
        ensures Step(Run(s, inputs[..k]).s, inputs[k]).published == []
      {
        assert inputs[..n][..k] == inputs[..k] && inputs[..n][k] == inputs[k];
      }
    }
  }

  /**
   * A frame turned away for its sequence number has used up its nonce: sent again within 60 seconds, after
   * the resync or not, it is never ingested. The terminal has to sign it anew.
   */
  lemma GapUsesUpNonce(s: Sess, gap: Input, inputs: seq<Input>)
    requires gap.Event? && Verify(gap.env, s, gap.now, gap.clock).verdict.Gap?
    requires forall i <- inputs :: i.Event? ==> i.now <= gap.now / MILLI * MILLI + NONCE_TTL
    ensures var after := Step(s, gap).s;
            forall k :: 0 <= k < |inputs| && inputs[k].Event? && inputs[k].env.nonce == gap.env.nonce ==>
              Step(Run(after, inputs[..k]).s, inputs[k]).published == []
  {
    var after := Step(s, gap).s;
    assert after.nonces[gap.env.nonce] == gap.now / MILLI;
    FreshNonceBlocks(after, inputs, gap.env.nonce, gap.now / MILLI * MILLI + NONCE_TTL);
  }
}
