/**
 * Session objects, the store that names them, and the frame handlers (session.go, guard.go, bridge.go),
 * each proved to do on the heap what `SessionSpec` says. One frame is one atomic step.
 */
module Bridge {
  import opened SessionSpec

  class Session {
    const tenant: string
    const account: string
    const key: int
    var state: SessionState
    var lastSeq: uint64
    var nonces: map<string, int>

    ghost function Snap(): Sess
      reads this
    {
      Sess(tenant, account, key, state, lastSeq, nonces)
    }

    constructor (tenant: string, account: string, key: int)
      ensures Snap() == Sess(tenant, account, key, Active, 0, map[])
    {
      this.tenant, this.account, this.key := tenant, account, key;
      state, lastSeq, nonces := Active, 0, map[];
    }

    /** False when the nonce was used within the window; expired entries are deleted on the way. */
    method CheckNonce(nonce: string, now: int) returns (isNew: bool)
      modifies `nonces
      ensures NonceResult(nonces, isNew) == SeenNonce(old(nonces), nonce, now)
    {
      var rest := nonces.Keys;
      while rest != {}
        invariant rest <= old(nonces).Keys
        invariant nonces == map n <- old(nonces) | n in rest || !Expired(old(nonces)[n], now) :: old(nonces)[n]
        decreases rest
      {
        var k :| k in rest;
        if Expired(nonces[k], now) {
          nonces := nonces - {k};
        }
        rest := rest - {k};
      }
      assert nonces == Purge(old(nonces), now);
      if nonce in nonces {
        return false;
      }
      nonces := nonces[nonce := now / MILLI];
      return true;
    }

    method MarkResync()
      modifies `state
      ensures state == Resync
    {
      state := Resync;
    }

    method MarkActive()
      modifies `state
      ensures state == Active
    {
      state := Active;
    }

    /** The number only grows. */
    method SetLastSeq(seqNo: uint64)
      modifies `lastSeq
      ensures lastSeq == if seqNo > old(lastSeq) then seqNo else old(lastSeq)
    {
      if seqNo > lastSeq {
        lastSeq := seqNo;
      }
    }

    /** The guard: binding, canonical form, signature, clock skew, nonce, sequence, in this order. */
    method Guard(env: Envelope, now: int, clock: int) returns (verdict: GuardVerdict)
      modifies `nonces
      ensures Verified(verdict, nonces) == Verify(env, old(Snap()), now, clock)
    {
      if env.tenant != tenant || env.account != account {
        return Binding;
      }
      if !env.canonical {
        return Malformed;
      }
      if env.signer != key {
        return BadSig;
      }
      var delta := clock - env.tsClient * MILLI;
      if delta < -MAX_SKEW || delta > MAX_SKEW {
        return Skew;
      }
      var isNew := CheckNonce(env.nonce, now);
      if !isNew {
        return Replay;
      }
      var expected := (lastSeq + 1) % (MAX_SEQ + 1);
      if env.seqNo != expected {
        return Gap;
      }
      return SessionSpec.Ok;
    }
  }

  class Node {
    var sessions: map<(string, string), Session>
    ghost var published: seq<Published>

    /** Every stored session is filed under its own tenant and account. */
    ghost predicate Valid()
      reads this
    {
      forall k <- sessions :: sessions[k].tenant == k.0 && sessions[k].account == k.1
    }

    constructor ()
      ensures Valid() && sessions == map[] && published == []
    {
      sessions, published := map[], [];
    }

    /** A hello that passed the pairing check: a new object resumes the number of the stored one, if any. */
    method HandleHello(tenant: string, account: string, key: int) returns (s: Session)
      requires Valid()
      modifies this
      ensures Valid() && fresh(s) && sessions == old(sessions)[(tenant, account) := s] && published == old(published)
      ensures s.tenant == tenant && s.account == account && s.key == key && s.state == Active && s.nonces == map[]
      ensures s.lastSeq == if (tenant, account) in old(sessions) then old(sessions[(tenant, account)].lastSeq) else 0
    {
      s := new Session(tenant, account, key);
      if (tenant, account) in sessions {
        s.lastSeq := sessions[(tenant, account)].lastSeq;
      }
      sessions := sessions[(tenant, account) := s];
    }

    /** A connection that ends removes whatever session is stored under its account. */
    method Disconnect(bound: Session)
      requires Valid()
      modifies `sessions
      ensures Valid() && sessions == old(sessions) - {(bound.tenant, bound.account)}
    {
      sessions := sessions - {(bound.tenant, bound.account)};
    }

    method IngestFrame(s: Session, env: Envelope)
      modifies `published
      ensures published == old(published) + [Ingest(s.Snap(), env)]
    {
      published := published + [Published(s.tenant, s.account, env.typ, env.id, env.seqNo, env.tsServer, env.payload)];
    }

    /** The REST path: the session is looked up by the frame's own tenant and account. */
    method Process(env: Envelope, now: int, clock: int) returns (verdict: GuardVerdict)
      requires Valid()
      modifies `published
      modifies if (env.tenant, env.account) in sessions then {sessions[(env.tenant, env.account)]} else {}
      ensures Valid()
      ensures (env.tenant, env.account) !in sessions ==> verdict == NoSession && published == old(published)
      ensures (env.tenant, env.account) in sessions ==>
                var s := sessions[(env.tenant, env.account)];
                var r := Step(old(s.Snap()), Event(false, env, now, clock));
                && verdict == Verify(env, old(s.Snap()), now, clock).verdict
                && s.Snap() == r.s && published == old(published) + r.published
    {
      if (env.tenant, env.account) !in sessions {
        return NoSession;
      }
      var s := sessions[(env.tenant, env.account)];
      verdict := s.Guard(env, now, clock);
      if verdict != SessionSpec.Ok {
        return;
      }
      s.SetLastSeq(env.seqNo);
      IngestFrame(s, env);
    }

    /** The WebSocket path: the session object the connection is bound to, stored or not. */
    method ProcessWithWS(s: Session, env: Envelope, now: int, clock: int) returns (reply: Reply)
      modifies `published, s
      ensures var r := Step(old(s.Snap()), Event(true, env, now, clock));
              s.Snap() == r.s && published == old(published) + r.published && reply == r.reply
    {
      var verdict := s.Guard(env, now, clock);
      match verdict {
        case Ok =>
          s.SetLastSeq(env.seqNo);
          IngestFrame(s, env);
          reply := Ack(env.seqNo);
        case Gap =>
          s.MarkResync();
          reply := SnapshotRequest;
        case _ =>
          reply := Reject(verdict);
      }
    }

    method HandleSnapshot(s: Session, parses: bool, final: bool, checksumOk: bool) returns (reply: Reply)
      modifies s`state
      ensures var r := Step(old(s.Snap()), Snapshot(parses, final, checksumOk));
              s.Snap() == r.s && reply == r.reply && r.published == []
    {
      if s.state != Resync {
        return Reject(Malformed);
      }
      if !parses {
        return Reject(Malformed);
      }
      if final {
        if !checksumOk {
          return Reject(Malformed);
        }
        var baseline := (s.lastSeq + 1) % (MAX_SEQ + 1);
        s.MarkActive();
        return ResyncComplete(baseline);
      }
      return Silent;
    }

    /**
     * A reconnect after the connection ended starts over at 0, whatever was confirmed before; a hello
     * while the old connection lives resumes its number.
     */
    method Reconnect(bound: Session, key: int, endedFirst: bool) returns (s: Session)
      requires Valid() && (bound.tenant, bound.account) in sessions && sessions[(bound.tenant, bound.account)] == bound
      modifies this
      ensures Valid() && fresh(s)
      ensures s.lastSeq == if endedFirst then 0 else old(bound.lastSeq)
    {
      if endedFirst {
        Disconnect(bound);
      }
      s := HandleHello(bound.tenant, bound.account, key);
    }
  }
}
