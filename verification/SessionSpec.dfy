/**
 * The session protocol (session.go, guard.go, bridge.go) on values: what one frame does to one session
 * object, and what any sequence of frames makes of it. Times are nanoseconds, recorded ones milliseconds.
 */
module SessionSpec {
  const MAX_SEQ := 0xFFFF_FFFF_FFFF_FFFF
  const MILLI := 1_000_000
  const NONCE_TTL := 60_000_000_000
  const MAX_SKEW := 90_000_000_000

  type uint64 = n: int | 0 <= n <= MAX_SEQ

  datatype SessionState = Active | Resync

  datatype GuardVerdict = Ok | BadSig | Replay | Gap | Binding | Skew | Malformed | NoSession

  /** A frame; `signer` stands for the key its signature verifies under, `canonical` for a payload that normalises. */
  datatype Envelope = Envelope(id: string, typ: string, tenant: string, account: string, seqNo: uint64, tsClient: int,
                               tsServer: int, nonce: string, canonical: bool, signer: int, payload: string)

  /** The event published for an ingested frame. */
  datatype Published = Published(tenant: string, account: string, typ: string, eventId: string, seqNo: uint64,
                                 tServed: int, payload: string)

  datatype Sess = Sess(tenant: string, account: string, key: int, state: SessionState, lastSeq: uint64,
                       nonces: map<string, int>)

  /** What reaches a session object: an event frame over WebSocket or REST, or a snapshot frame. */
  datatype Input =
    | Event(ws: bool, env: Envelope, now: int, clock: int)
    | Snapshot(parses: bool, final: bool, checksumOk: bool)

  datatype Reply =
    | Ack(seqNo: uint64)
    | Reject(verdict: GuardVerdict)
    | SnapshotRequest
    | ResyncComplete(baseline: uint64)
    | Silent

  datatype Stepped = Stepped(s: Sess, published: seq<Published>, reply: Reply)

  // ----- nonces ----------------------------------------------------------------------------------

  /** Recorded more than 60 seconds before `now`. */
  predicate Expired(ts: int, now: int) {
    ts * MILLI < now - NONCE_TTL
  }

  function Purge(nonces: map<string, int>, now: int): map<string, int> {
    map n <- nonces | !Expired(nonces[n], now) :: nonces[n]
  }

  datatype NonceResult = NonceResult(nonces: map<string, int>, isNew: bool)

  /** The replay window: expired nonces go first, an unseen nonce is recorded. */
  function SeenNonce(nonces: map<string, int>, nonce: string, now: int): NonceResult {
    var kept := Purge(nonces, now);
    if nonce in kept then NonceResult(kept, false) else NonceResult(kept[nonce := now / MILLI], true)
  }

  // ----- the guard -------------------------------------------------------------------------------

  datatype Verified = Verified(verdict: GuardVerdict, nonces: map<string, int>)

  function NextSeq(last: uint64): uint64 {
    (last + 1) % (MAX_SEQ + 1)
  }

  /** The checks in the order made; only the nonce check leaves a trace. */
  function Verify(env: Envelope, s: Sess, now: int, clock: int): Verified {
    var delta := clock - env.tsClient * MILLI;
    if env.tenant != s.tenant || env.account != s.account then Verified(Binding, s.nonces)
    else if !env.canonical then Verified(Malformed, s.nonces)
    else if env.signer != s.key then Verified(BadSig, s.nonces)
    else if delta < -MAX_SKEW || delta > MAX_SKEW then Verified(Skew, s.nonces)
    else
      var r := SeenNonce(s.nonces, env.nonce, now);
      if !r.isNew then Verified(Replay, r.nonces)
      else if env.seqNo != NextSeq(s.lastSeq) then Verified(Gap, r.nonces)
      else Verified(Ok, r.nonces)
  }

  function Ingest(s: Sess, env: Envelope): Published {
    Published(s.tenant, s.account, env.typ, env.id, env.seqNo, env.tsServer, env.payload)
  }

  // ----- one input -------------------------------------------------------------------------------

  function Step(s: Sess, i: Input): Stepped {
    match i
    case Event(ws, env, now, clock) =>
      var v := Verify(env, s, now, clock);
      var s1 := s.(nonces := v.nonces);
      if v.verdict.Ok? then
        Stepped(s1.(lastSeq := if env.seqNo > s.lastSeq then env.seqNo else s.lastSeq), [Ingest(s, env)],
                if ws then Ack(env.seqNo) else Silent)
      else if !ws then Stepped(s1, [], Silent)
      else if v.verdict.Gap? then Stepped(s1.(state := Resync), [], SnapshotRequest)
      else Stepped(s1, [], Reject(v.verdict))
    case Snapshot(parses, final, checksumOk) =>
      if !s.state.Resync? || !parses || (final && !checksumOk) then Stepped(s, [], Reject(Malformed))
      else if !final then Stepped(s, [], Silent)
      else Stepped(s.(state := Active), [], ResyncComplete(NextSeq(s.lastSeq)))
  }

  datatype RunResult = RunResult(s: Sess, published: seq<Published>, replies: seq<Reply>)

  function Run(s: Sess, inputs: seq<Input>): RunResult {
    if inputs == [] then RunResult(s, [], [])
    else
      var init := Run(s, inputs[..|inputs| - 1]);
      var last := Step(init.s, inputs[|inputs| - 1]);
      RunResult(last.s, init.published + last.published, init.replies + [last.reply])
  }
}
