/** Signed envelopes: the canonical string, the nonce cache, and verification over a run of arrivals. */
module SignedEnvelope {
  import Decimal

  // ---------------------------------------------------------------- Canonical string

  datatype Envelope = Envelope(
    version: int, sender: string, timestamp: nat, nonce: string,
    action: string, payloadHash: string, payload: string, signature: string)

  /** `v1|{sender}|{timestamp}|{nonce}|{action}|{payloadHash}` */
  function Canonical(sender: string, timestamp: nat, nonce: string, action: string, payloadHash: string): string {
    "v1|" + sender + "|" + Decimal.Print(timestamp) + "|" + nonce + "|" + action + "|" + payloadHash
  }

  /** The signed text of one envelope. */
  lemma CanonicalText()
    ensures Canonical("al", 1205, "0f", "ping", "e3") == "v1|al|1205|0f|ping|e3"
  {
    Decimal.FourDigits();
    hide Decimal.Print;
    calc {
      Canonical("al", 1205, "0f", "ping", "e3");
      "v1|" + "al" + "|" + "1205" + "|" + "0f" + "|" + "ping" + "|" + "e3";
      { assert "v1|" + "al" + "|" + "1205" == "v1|al|1205"; }
      "v1|al|1205" + "|" + "0f" + "|" + "ping" + "|" + "e3";
      { assert "v1|al|1205" + "|" + "0f" + "|" == "v1|al|1205|0f|"; }
      "v1|al|1205|0f|" + "ping" + "|" + "e3";
      "v1|al|1205|0f|ping|e3";
    }
  }

  predicate NoBar(s: string) { '|' !in s }

  lemma LastField(a: string, b: string, x: string, y: string)
    requires NoBar(x) && NoBar(y) && a + "|" + x == b + "|" + y
    ensures a == b && x == y
  {
    var s := a + "|" + x;
    assert s[|a|] == '|' && s[|b|] == '|';
    assert forall i :: |a| < i < |s| ==> s[i] == x[i - |a| - 1] != '|';
    assert forall i :: |b| < i < |s| ==> s[i] == y[i - |b| - 1] != '|';
    assert s[..|a|] == a && s[..|b|] == b;
    assert s[|a| + 1..] == x && s[|b| + 1..] == y;
  }

  /**
   * A signature binds every field: whatever the senders are called, two envelopes whose
   * nonce, action and hash contain no bar have the same canonical string only when all
   * five fields agree.
   */
  lemma CanonicalBindsFields(e: Envelope, f: Envelope)
    requires NoBar(e.nonce) && NoBar(e.action) && NoBar(e.payloadHash)
    requires NoBar(f.nonce) && NoBar(f.action) && NoBar(f.payloadHash)
    requires Canonical(e.sender, e.timestamp, e.nonce, e.action, e.payloadHash)
          == Canonical(f.sender, f.timestamp, f.nonce, f.action, f.payloadHash)
    ensures e.sender == f.sender && e.timestamp == f.timestamp && e.nonce == f.nonce
    ensures e.action == f.action && e.payloadHash == f.payloadHash
  {
    var s, t := "v1|" + e.sender, "v1|" + f.sender;
    var d, g := Decimal.Print(e.timestamp), Decimal.Print(f.timestamp);
    Decimal.RoundTrip(e.timestamp);
    Decimal.RoundTrip(f.timestamp);
    LastField(s + "|" + d + "|" + e.nonce + "|" + e.action, t + "|" + g + "|" + f.nonce + "|" + f.action,
              e.payloadHash, f.payloadHash);
    LastField(s + "|" + d + "|" + e.nonce, t + "|" + g + "|" + f.nonce, e.action, f.action);
    LastField(s + "|" + d, t + "|" + g, e.nonce, f.nonce);
    LastField(s, t, d, g);
    assert s[3..] == e.sender && t[3..] == f.sender;
  }

  // ---------------------------------------------------------------- Nonce cache

  /** The last `n` entries. */
  function LastN(s: seq<string>, n: nat): seq<string> {
    if |s| <= n then s else s[|s| - n..]
  }

  ghost predicate NoDuplicates(s: seq<string>) {
    forall i, j :: 0 <= i < j < |s| ==> s[i] != s[j]
  }

  /** The cache after `check`: a new nonce enters at the end and pushes out the oldest. */
  function Remember(order: seq<string>, maxSize: nat, nonce: string): seq<string> {
    if nonce in order then order else LastN(order + [nonce], maxSize)
  }

  class NonceTracker {
    const maxSize: nat
    var seen: set<string>
    var order: seq<string>

    /** `seen` and `order` list the same nonces, each once, and no more than the bound. */
    ghost predicate Valid()
      reads this
    {
      seen == (set n | n in order) && NoDuplicates(order) && |order| <= maxSize
    }

    constructor (maxSize: nat)
      ensures Valid() && order == [] && this.maxSize == maxSize
    {
      this.maxSize := maxSize;
      seen, order := {}, [];
    }

    method Check(nonce: string) returns (isNew: bool)
      requires Valid()
      modifies this
      ensures Valid()
      ensures isNew <==> nonce !in old(order)
      ensures order == Remember(old(order), maxSize, nonce)
    {
      if nonce in seen {
        return false;
      }
      seen := seen + {nonce};
      order := order + [nonce];
      while |order| > maxSize
        invariant NoDuplicates(order)
        invariant seen == (set n | n in order)
        invariant |order| >= maxSize || order == old(order) + [nonce]
        invariant order == LastN(old(order) + [nonce], |order|)
        invariant |order| <= |old(order)| + 1
      {
        var oldest := order[0];
        ghost var before := order;
        order := order[1..];
        seen := seen - {oldest};
        assert forall i :: 0 <= i < |order| ==> order[i] == before[i + 1];
      }
      isNew := true;
    }
  }

  // ---------------------------------------------------------------- Verification

  const MAX_AGE_MS := 300_000
  const MAX_FUTURE_DRIFT_MS := 30_000

  datatype Verdict = Accepted | UnsupportedVersion | TooOld | FromFuture | DuplicateNonce | HashMismatch | BadSignature

  /** SHA-256 and ed25519 verification, of which nothing is assumed here. */
  datatype Crypto = Crypto(hash: string -> string, verify: (string, string, string) -> bool)

  /** The checks before the nonce is looked up. */
  predicate Timely(e: Envelope, now: int, maxAge: int) {
    e.version == 1 && -MAX_FUTURE_DRIFT_MS <= now - e.timestamp <= maxAge
  }

  predicate Authentic(c: Crypto, e: Envelope, key: string) {
    && c.hash(e.payload) == e.payloadHash
    && c.verify(Canonical(e.sender, e.timestamp, e.nonce, e.action, e.payloadHash), e.signature, key)
  }

  /** The cache after one verification. */
  function After(order: seq<string>, maxSize: nat, e: Envelope, now: int, maxAge: int): seq<string> {
    if Timely(e, now, maxAge) then Remember(order, maxSize, e.nonce) else order
  }

  /** The nonce is remembered before the payload and the signature are looked at. */
  method VerifyEnvelope(c: Crypto, tracker: NonceTracker, e: Envelope, key: string, now: int, maxAge: int)
    returns (v: Verdict)
    requires tracker.Valid()
    modifies tracker
    ensures tracker.Valid()
    ensures v == Accepted <==>
      Timely(e, now, maxAge) && e.nonce !in old(tracker.order) && Authentic(c, e, key)
    ensures v == UnsupportedVersion <==> e.version != 1
    ensures v == TooOld <==> e.version == 1 && now - e.timestamp > maxAge
    ensures v == FromFuture <==>
      e.version == 1 && now - e.timestamp <= maxAge && e.timestamp - now > 30_000
    ensures v == DuplicateNonce <==> Timely(e, now, maxAge) && e.nonce in old(tracker.order)
    ensures v == HashMismatch <==>
      Timely(e, now, maxAge) && e.nonce !in old(tracker.order) && c.hash(e.payload) != e.payloadHash
    ensures v == BadSignature <==>
      && Timely(e, now, maxAge) && e.nonce !in old(tracker.order) && c.hash(e.payload) == e.payloadHash
      && !c.verify(Canonical(e.sender, e.timestamp, e.nonce, e.action, e.payloadHash), e.signature, key)
    ensures tracker.order == After(old(tracker.order), tracker.maxSize, e, now, maxAge)
  {
    if e.version != 1 {
      return UnsupportedVersion;
    }
    var age := now - e.timestamp;
    if age > maxAge {
      return TooOld;
    }
    if age < -MAX_FUTURE_DRIFT_MS {
      return FromFuture;
    }
    var isNew := tracker.Check(e.nonce);
    if !isNew {
      return DuplicateNonce;
    }
    if c.hash(e.payload) != e.payloadHash {
      return HashMismatch;
    }
    var canonical := Canonical(e.sender, e.timestamp, e.nonce, e.action, e.payloadHash);
    if !c.verify(canonical, e.signature, key) {
      return BadSignature;
    }
    v := Accepted;
  }

  // ---------------------------------------------------------------- Replay over a run

  datatype Arrival = Arrival(e: Envelope, key: string, now: int)

  /** The cache after a run of arrivals, from an empty one. */
  function Cache(maxSize: nat, maxAge: int, run: seq<Arrival>): seq<string> {
    if run == [] then []
    else
      var last := run[|run| - 1];
      After(Cache(maxSize, maxAge, run[..|run| - 1]), maxSize, last.e, last.now, maxAge)
  }

  /** Arrival `i` passes the freshness and nonce checks. */
  predicate Enters(maxSize: nat, maxAge: int, run: seq<Arrival>, i: nat)
    requires i < |run|
  {
    Timely(run[i].e, run[i].now, maxAge) && run[i].e.nonce !in Cache(maxSize, maxAge, run[..i])
  }

  /** Arrival `i` verifies. */
  predicate Verifies(c: Crypto, maxSize: nat, maxAge: int, run: seq<Arrival>, i: nat)
    requires i < |run|
  {
    Enters(maxSize, maxAge, run, i) && Authentic(c, run[i].e, run[i].key)
  }

  /** Every nonce that entered the cache, in order. */
  function Entered(maxSize: nat, maxAge: int, run: seq<Arrival>): seq<string> {
    if run == [] then []
    else
      var n := |run| - 1;
      Entered(maxSize, maxAge, run[..n]) + if Enters(maxSize, maxAge, run, n) then [run[n].e.nonce] else []
  }

  lemma LastNSnoc(s: seq<string>, n: nat, x: string)
    ensures LastN(LastN(s, n) + [x], n) == LastN(s + [x], n)
  {
  }

  lemma RememberOnce(order: seq<string>, maxSize: nat, nonce: string)
    requires NoDuplicates(order)
    ensures NoDuplicates(Remember(order, maxSize, nonce))
  {
    if nonce !in order {
      assert NoDuplicates(order + [nonce]);
    }
  }

  /** The cache is at all times the last `maxSize` nonces that entered, each once. */
  lemma {:induction false} CacheIsLastEntered(maxSize: nat, maxAge: int, run: seq<Arrival>)
    ensures Cache(maxSize, maxAge, run) == LastN(Entered(maxSize, maxAge, run), maxSize)
    ensures NoDuplicates(Cache(maxSize, maxAge, run))
  {
    if run == [] {
      assert LastN([], maxSize) == [];
    } else {
      hide NoDuplicates, LastN;
      var n := |run| - 1;
      var cache, entered := Cache(maxSize, maxAge, run[..n]), Entered(maxSize, maxAge, run[..n]);
      CacheIsLastEntered(maxSize, maxAge, run[..n]);
      RememberOnce(cache, maxSize, run[n].e.nonce);
      if Enters(maxSize, maxAge, run, n) {
        LastNSnoc(entered, maxSize, run[n].e.nonce);
        assert Entered(maxSize, maxAge, run) == entered + [run[n].e.nonce];
      } else {
        assert Entered(maxSize, maxAge, run) == entered && Cache(maxSize, maxAge, run) == cache;
      }
    }
  }

  /** The nonces that entered after arrival `i` and before arrival `j`, authentic or not. */
  function EnteredSince(maxSize: nat, maxAge: int, run: seq<Arrival>, i: nat, j: nat): seq<string>
    requires i < j <= |run|
  {
    if j == i + 1 then []
    else
      EnteredSince(maxSize, maxAge, run, i, j - 1)
      + if Enters(maxSize, maxAge, run, j - 1) then [run[j - 1].e.nonce] else []
  }

  lemma EnteredNext(maxSize: nat, maxAge: int, run: seq<Arrival>, i: nat)
    requires i < |run|
    ensures Entered(maxSize, maxAge, run[..i + 1])
         == Entered(maxSize, maxAge, run[..i]) + if Enters(maxSize, maxAge, run, i) then [run[i].e.nonce] else []
  {
    hide Cache;
    assert run[..i + 1][..i] == run[..i];
  }

  lemma {:induction false} EnteredInParts(maxSize: nat, maxAge: int, run: seq<Arrival>, i: nat, j: nat)
    requires i < j <= |run|
    ensures Entered(maxSize, maxAge, run[..j])
         == Entered(maxSize, maxAge, run[..i + 1]) + EnteredSince(maxSize, maxAge, run, i, j)
  {
    if j == i + 1 {
    } else {
      EnteredInParts(maxSize, maxAge, run, i, j - 1);
      EnteredNext(maxSize, maxAge, run, j - 1);
    }
  }

  /** An entry is among the last `n` unless `n` others, none of them its equal, came behind it. */
  lemma PushedOut(before: seq<string>, x: string, since: seq<string>, n: nat)
    ensures x !in LastN(before + [x] + since, n) <==> |since| >= n && x !in LastN(since, n)
  {
    var s := before + [x] + since;
    if |since| >= n {
      assert LastN(s, n) == LastN(since, n);
    } else {
      var d := if |s| <= n then 0 else |s| - n;
      assert LastN(s, n)[|before| - d] == x;
    }
  }

  ghost predicate ClockIsMonotone(run: seq<Arrival>) {
    forall i, j :: 0 <= i < j < |run| ==> run[i].now <= run[j].now
  }

  /**
   * Replay protection. An envelope that verified once verifies again, under the same key, if
   * and only if it is still timely and since then at least `maxSize` nonces entered, the last of them all
   * different from its own. Under a clock that does not run backwards the two moments are
   * at most `maxAge` plus the drift apart.
   */
  lemma ReplayIsBounded(c: Crypto, maxSize: nat, maxAge: int, run: seq<Arrival>, i: nat, j: nat)
    requires i < j < |run| && run[i].e == run[j].e
    requires Verifies(c, maxSize, maxAge, run, i)
    ensures var since := EnteredSince(maxSize, maxAge, run, i, j);
      Verifies(c, maxSize, maxAge, run, j) <==>
        && Timely(run[j].e, run[j].now, maxAge) && (run[j].key == run[i].key || Authentic(c, run[j].e, run[j].key))
        && |since| >= maxSize && run[i].e.nonce !in LastN(since, maxSize)
    ensures NoDuplicates(LastN(Entered(maxSize, maxAge, run[..j]), maxSize))
    ensures Verifies(c, maxSize, maxAge, run, j) && ClockIsMonotone(run) ==>
      0 <= run[j].now - run[i].now <= maxAge + 30_000
  {
    var nonce := run[i].e.nonce;
    CacheIsLastEntered(maxSize, maxAge, run[..j]);
    EnteredInParts(maxSize, maxAge, run, i, j);
    EnteredNext(maxSize, maxAge, run, i);
    PushedOut(Entered(maxSize, maxAge, run[..i]), nonce, EnteredSince(maxSize, maxAge, run, i, j), maxSize);
  }

  /**
   * Nonces enter before anything is authenticated: with a cache of one, a single envelope
   * that does not verify makes room for the replay.
   */
  lemma JunkMakesRoom(c: Crypto, maxAge: int, good: Arrival, junk: Arrival)
    requires Timely(good.e, good.now, maxAge) && Authentic(c, good.e, good.key)
    requires Timely(junk.e, junk.now, maxAge) && !Authentic(c, junk.e, junk.key) && junk.e.nonce != good.e.nonce
    ensures var run := [good, junk, good];
      && Verifies(c, 1, maxAge, run, 0) && !Verifies(c, 1, maxAge, run, 1) && Verifies(c, 1, maxAge, run, 2)
  {
    var run := [good, junk, good];
    assert run[..0] == [] && run[..1] == [good] && run[..2] == [good, junk];
    assert [good][..0] == [] && [good, junk][..1] == [good];
    assert Cache(1, maxAge, []) == [];
    assert Cache(1, maxAge, [good]) == [good.e.nonce];
    assert Cache(1, maxAge, [good, junk]) == [junk.e.nonce];
  }
}
