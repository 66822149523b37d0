/**
 * Replication of the encrypted database: an agent numbers and signs snapshots, a guardian
 * keeps the newest. The network may lose, duplicate, delay and reorder messages, and
 * several receives may be in flight at once, suspended where the attestation is awaited.
 *
 * Cryptography is symbolic: a cipher text opens only under its own key, a digest stands
 * for its preimage, and a message carries the key that signed it.
 */
module DbSync {
  import opened Wrappers
  import E = SignedEnvelope

  datatype Cipher = Cipher(key: string, iv: string, plain: string)

  datatype Digest = Digest(preimage: string)

  function Decrypt(key: string, c: Cipher): Option<string> {
    if c.key == key then Some(c.plain) else None
  }

  /**
   * A payload read as a snapshot. The receiver never looks at the action of an envelope,
   * so it may read the payload of another action, where every field but perhaps the quote
   * is missing. An empty quote counts as none.
   */
  datatype Snapshot =
    | Snapshot(cipher: Cipher, sequenceNum: int, checksum: Digest, quote: Option<string>)
    | Foreign(quote: Option<string>)

  /** The number that is read; a missing one compares with nothing. */
  function Number(s: Snapshot): Option<int> { if s.Snapshot? then Some(s.sequenceNum) else None }

  /** A signed envelope; `intact` says that the payload still has the hash that was signed. */
  datatype Message = Message(
    version: int, sender: string, timestamp: int, nonce: string, intact: bool, snapshot: Snapshot, signer: string)

  /** The plain text of a snapshot, if it opens and matches its checksum. */
  function Open(key: string, s: Snapshot): Option<string> {
    if s.Foreign? then None
    else
      var plain := Decrypt(key, s.cipher);
      if plain.Some? && Digest(plain.value) == s.checksum then plain else None
  }

  // ---------------------------------------------------------------- The agent

  class VaultClient {
    var vaultKey: Option<string>
    var sequenceNum: int

    constructor ()
      ensures vaultKey == None && sequenceNum == 0
    {
      vaultKey, sequenceNum := None, 0;
    }

    /** Without a vault key nothing is emitted and no number is spent. */
    method CreateSnapshot(db: string, iv: string, quote: Option<string>) returns (s: Option<Snapshot>)
      modifies this`sequenceNum
      ensures s.Some? <==> vaultKey.Some?
      ensures sequenceNum == old(sequenceNum) + if s.Some? then 1 else 0
      ensures s.Some? ==> Number(s.value) == Some(sequenceNum) && s.value.quote == quote
      ensures s.Some? ==> s.value.cipher == Cipher(vaultKey.value, iv, db) && Open(vaultKey.value, s.value) == Some(db)
    {
      if vaultKey.None? {
        return None;
      }
      sequenceNum := sequenceNum + 1;
      var encrypted := Cipher(vaultKey.value, iv, db);
      s := Some(Snapshot(encrypted, sequenceNum, Digest(db), quote));
    }

    /** Restoring takes over the snapshot's number; a snapshot that does not open changes nothing. */
    method DecryptSnapshot(s: Snapshot) returns (db: Option<string>)
      modifies this`sequenceNum
      ensures db == if vaultKey.Some? then Open(vaultKey.value, s) else None
      ensures sequenceNum == if db.Some? then s.sequenceNum else old(sequenceNum)
    {
      if vaultKey.None? || s.Foreign? {
        return None;
      }
      var decrypted := Decrypt(vaultKey.value, s.cipher);
      if decrypted.None? || Digest(decrypted.value) != s.checksum {
        return None;
      }
      sequenceNum := s.sequenceNum;
      db := decrypted;
    }
  }

  // ---------------------------------------------------------------- The guardian

  /** Fixed settings: trusted peers with their keys, the vault key, the nonce bound, attestation policy. */
  datatype Config = Config(
    peers: map<string, string>, vaultKey: string, maxSize: nat, maxAge: int, requireAttestation: bool)

  /** The number is missing after the payload of another action was taken for a snapshot. */
  datatype Guardian = Guardian(order: seq<string>, latestSequence: Option<int>, latest: Option<Snapshot>)

  /** How a receive ends, or that it is waiting for the attestation service. */
  datatype Outcome = Accepted | Rejected | Waiting

  /** `snapshot.sequenceNum <= this.latestSequence`; false when either is missing. */
  predicate Stale(g: Guardian, s: Snapshot) {
    s.Snapshot? && g.latestSequence.Some? && s.sequenceNum <= g.latestSequence.value
  }

  /** The part of `receiveSnapshot` after the await. */
  function Finish(c: Config, g: Guardian, s: Snapshot, verify: bool): (Guardian, Outcome) {
    if Stale(g, s) || (verify && Open(c.vaultKey, s).None?) then (g, Rejected)
    else (g.(latestSequence := Number(s), latest := Some(s)), Accepted)
  }

  predicate Timely(c: Config, m: Message, now: int) {
    m.version == 1 && -E.MAX_FUTURE_DRIFT_MS <= now - m.timestamp <= c.maxAge
  }

  /** The envelope checks: a known sender, a timely envelope, a new nonce, its hash, and the sender's signature. */
  predicate Verifies(c: Config, g: Guardian, m: Message, now: int) {
    && m.sender in c.peers && Timely(c, m, now) && m.nonce !in g.order
    && m.intact && m.signer == c.peers[m.sender]
  }

  /** The part of `receiveSnapshot` up to the await, or to its end when there is nothing to wait for. */
  function Begin(c: Config, g: Guardian, m: Message, now: int, verify: bool): (Guardian, Outcome) {
    if m.sender !in c.peers || !Timely(c, m, now) || m.nonce in g.order then (g, Rejected)
    else
      var g' := g.(order := E.Remember(g.order, c.maxSize, m.nonce));
      if !Verifies(c, g, m, now) then (g', Rejected)
      else if m.snapshot.quote.Some? then (g', Waiting)
      else if c.requireAttestation then (g', Rejected)
      else Finish(c, g', m.snapshot, verify)
  }

  /** Throws, like a failed decryption, when what is held has no cipher text. */
  function DecryptLatest(c: Config, g: Guardian): Option<string> {
    if g.latest.None? || g.latest.value.Foreign? then None else Decrypt(c.vaultKey, g.latest.value.cipher)
  }

  class DBSnapshotReceiver {
    const config: Config
    const tracker: E.NonceTracker
    var latestSequence: Option<int>
    var latestEncrypted: Option<Snapshot>

    ghost predicate Valid()
      reads this, tracker
    {
      tracker.Valid() && tracker.maxSize == config.maxSize
    }

    function Contents(): Guardian
      reads this, tracker
    {
      Guardian(tracker.order, latestSequence, latestEncrypted)
    }

    constructor (config: Config)
      ensures Valid() && fresh(tracker) && this.config == config
      ensures Contents() == Guardian([], Some(0), None)
    {
      this.config := config;
      tracker := new E.NonceTracker(config.maxSize);
      latestSequence, latestEncrypted := Some(0), None;
    }

    method BeginReceive(m: Message, now: int, verify: bool) returns (o: Outcome)
      requires Valid()
      modifies this, tracker
      ensures Valid()
      ensures (Contents(), o) == Begin(config, old(Contents()), m, now, verify)
    {
      if m.sender !in config.peers {
        return Rejected;
      }
      if m.version != 1 {
        return Rejected;
      }
      var age := now - m.timestamp;
      if age > config.maxAge || age < -E.MAX_FUTURE_DRIFT_MS {
        return Rejected;
      }
      var isNew := tracker.Check(m.nonce);
      if !isNew {
        return Rejected;
      }
      if !m.intact {
        return Rejected;
      }
      if m.signer != config.peers[m.sender] {
        return Rejected;
      }
      if m.snapshot.quote.Some? {
        return Waiting;
      }
      if config.requireAttestation {
        return Rejected;
      }
      o := FinishReceive(m.snapshot, verify);
    }

    method FinishReceive(s: Snapshot, verify: bool) returns (o: Outcome)
      requires Valid()
      modifies this
      ensures Valid()
      ensures (Contents(), o) == Finish(config, old(Contents()), s, verify)
    {
      if Stale(Contents(), s) {
        return Rejected;
      }
      if verify {
        if s.Foreign? {
          return Rejected;
        }
        var decrypted := Decrypt(config.vaultKey, s.cipher);
        if decrypted.None? || Digest(decrypted.value) != s.checksum {
          return Rejected;
        }
      }
      latestSequence := Number(s);
      latestEncrypted := Some(s);
      o := Accepted;
    }
  }

  // ---------------------------------------------------------------- The protocol

  /**
   * The whole system. `emitted[i]` is the i-th message ever signed by the agent, made of
   * the database `held[i]`; `pending` are the receives suspended at the await; `log` are
   * the acceptances in order.
   */
  datatype World = World(
    agentSequence: int, emitted: seq<Message>, held: seq<string>,
    guardian: Guardian, pending: seq<(Message, bool)>, log: seq<Message>)

  datatype Event =
    | Emit(m: Message, db: string)                    // the agent signs its database
    | Deliver(msg: Message, now: int, verify: bool)   // the network hands over any message
    | Resume(i: nat, attested: bool)                  // the attestation service answers one receive
    | Restore                                         // a new agent takes over from this guardian

  ghost const Start: World := World(0, [], [], Guardian([], Some(0), None), [], [])

  /** The same snapshot, perhaps in another envelope: recovery responses carry it without the quote. */
  predicate Carries(s: Snapshot, t: Snapshot) {
    s.Snapshot? && t.Snapshot? && s.cipher == t.cipher && s.sequenceNum == t.sequenceNum && s.checksum == t.checksum
  }

  /** The agent made this snapshot. */
  ghost predicate Original(w: World, s: Snapshot) {
    exists i :: 0 <= i < |w.emitted| && Carries(s, w.emitted[i].snapshot)
  }

  /**
   * Which events can happen. Signatures cannot be forged and hashes do not collide: an
   * intact message under a trusted key carries a snapshot that the one honest agent made,
   * or is an envelope of another action. Anything else may be delivered at will.
   */
  ghost predicate Possible(c: Config, w: World, e: Event) {
    match e
    case Emit(m, db) =>
      Number(m.snapshot) == Some(w.agentSequence + 1) && Open(c.vaultKey, m.snapshot) == Some(db)
    case Deliver(m, now, verify) =>
      m.signer in c.peers.Values && m.intact ==> m.snapshot.Foreign? || Original(w, m.snapshot)
    case Resume(i, attested) => i < |w.pending|
    case Restore => w.guardian.latest.Some? && Open(c.vaultKey, w.guardian.latest.value).Some?
  }

  function Without(s: seq<(Message, bool)>, i: nat): seq<(Message, bool)>
    requires i < |s|
  {
    s[..i] + s[i + 1..]
  }

  ghost function Next(c: Config, w: World, e: Event): World
    requires Possible(c, w, e)
  {
    match e
    case Emit(m, db) =>
      w.(agentSequence := w.agentSequence + 1, emitted := w.emitted + [m], held := w.held + [db])
    case Deliver(m, now, verify) =>
      var (g, o) := Begin(c, w.guardian, m, now, verify);
      w.(guardian := g,
         pending := if o == Waiting then w.pending + [(m, verify)] else w.pending,
         log := if o == Accepted then w.log + [m] else w.log)
    case Resume(i, attested) =>
      var (m, verify) := w.pending[i];
      var (g, o) := if attested then Finish(c, w.guardian, m.snapshot, verify) else (w.guardian, Rejected);
      w.(guardian := g,
         pending := Without(w.pending, i),
         log := if o == Accepted then w.log + [m] else w.log)
    case Restore =>
      w.(agentSequence := w.guardian.latest.value.sequenceNum)
  }

  ghost predicate IsRun(c: Config, worlds: seq<World>, events: seq<Event>) {
    && |worlds| == |events| + 1
    && worlds[0] == Start
    && forall k :: 0 <= k < |events| ==>
         Possible(c, worlds[k], events[k]) && worlds[k + 1] == Next(c, worlds[k], events[k])
  }

  // ---------------------------------------------------------------- What always holds

  /** Every message emitted opens to the database held when it was made. */
  ghost predicate EmittedOpens(c: Config, w: World) {
    && |w.held| == |w.emitted|
    && forall i :: 0 <= i < |w.emitted| ==> Open(c.vaultKey, w.emitted[i].snapshot) == Some(w.held[i])
  }

  /** Every snapshot that was accepted or waits was made by the agent. */
  ghost predicate Genuine(w: World) {
    && (forall i :: 0 <= i < |w.log| && w.log[i].snapshot.Snapshot? ==> Original(w, w.log[i].snapshot))
    && (forall i :: 0 <= i < |w.pending| && w.pending[i].0.snapshot.Snapshot? ==> Original(w, w.pending[i].0.snapshot))
  }

  /** The guardian holds what it accepted last, or nothing. */
  ghost predicate HoldsLast(w: World) {
    && w.guardian.latest == (if w.log == [] then None else Some(w.log[|w.log| - 1].snapshot))
    && w.guardian.latestSequence == (if w.log == [] then Some(0) else Number(w.log[|w.log| - 1].snapshot))
  }

  ghost predicate Kept(c: Config, w: World) { EmittedOpens(c, w) && Genuine(w) && HoldsLast(w) }

  /** Only an acceptance moves the guardian, and it accepts nothing stale. */
  ghost predicate Moves(g: Guardian, s: Snapshot, g': Guardian, o: Outcome) {
    if o == Accepted
    then !Stale(g, s) && g'.latestSequence == Number(s) && g'.latest == Some(s)
    else g'.latestSequence == g.latestSequence && g'.latest == g.latest
  }

  lemma FinishMoves(c: Config, g: Guardian, s: Snapshot, verify: bool)
    ensures var (g', o) := Finish(c, g, s, verify);
      Moves(g, s, g', o) && o != Waiting && (verify && o == Accepted ==> s.Snapshot?)
  {
  }

  lemma BeginMoves(c: Config, g: Guardian, m: Message, now: int, verify: bool)
    ensures var (g', o) := Begin(c, g, m, now, verify);
      && Moves(g, m.snapshot, g', o)
      && (o != Rejected ==> m.signer in c.peers.Values && m.intact)
      && (verify && o == Accepted ==> m.snapshot.Snapshot?)
  {
    if Begin(c, g, m, now, verify).1 != Rejected {
      assert c.peers[m.sender] in c.peers.Values;
    }
  }

  /** The log gets no entry, or the one message that was accepted and is not stale. */
  ghost predicate Logs(w: World, w': World) {
    || (w'.log == w.log && w'.guardian.latest == w.guardian.latest
        && w'.guardian.latestSequence == w.guardian.latestSequence)
    || (w'.log != [] && w'.log[..|w'.log| - 1] == w.log
        && var s := w'.log[|w'.log| - 1].snapshot;
           && !Stale(w.guardian, s) && (s.Snapshot? ==> Original(w', s))
           && w'.guardian.latest == Some(s) && w'.guardian.latestSequence == Number(s))
  }

  /** Whatever was made stays made. */
  lemma OriginalStays(w: World, w': World, s: Snapshot)
    requires w.emitted <= w'.emitted && Original(w, s)
    ensures Original(w', s)
  {
    var i :| 0 <= i < |w.emitted| && Carries(s, w.emitted[i].snapshot);
    assert w'.emitted[i] == w.emitted[i];
  }

  lemma SameEmitted(w: World, w': World, s: Snapshot)
    requires w'.emitted == w.emitted
    ensures Original(w', s) <==> Original(w, s)
  {
  }

  lemma NextLogs(c: Config, w: World, e: Event)
    requires Kept(c, w) && Possible(c, w, e)
    ensures var w' := Next(c, w, e); Logs(w, w') && w.emitted <= w'.emitted
    ensures forall i :: 0 <= i < |Next(c, w, e).pending| ==>
      var p := Next(c, w, e).pending[i];
      p in w.pending || (e.Deliver? && p == (e.msg, e.verify) && (p.0.snapshot.Snapshot? ==> Original(w, p.0.snapshot)))
  {
    hide Begin, Finish, Open, Stale, Original, EmittedOpens, HoldsLast;
    match e
    case Emit(m, db) =>
    case Deliver(m, now, verify) =>
      BeginMoves(c, w.guardian, m, now, verify);
      SameEmitted(w, Next(c, w, e), m.snapshot);
    case Resume(i, attested) =>
      var (m, verify) := w.pending[i];
      FinishMoves(c, w.guardian, m.snapshot, verify);
      SameEmitted(w, Next(c, w, e), m.snapshot);
    case Restore =>
  }

  lemma EmittedNext(c: Config, w: World, e: Event)
    requires EmittedOpens(c, w) && Possible(c, w, e)
    ensures EmittedOpens(c, Next(c, w, e))
  {
    hide Begin, Finish, Original, Open;
  }

  lemma NextKeeps(c: Config, w: World, e: Event)
    requires Kept(c, w) && Possible(c, w, e)
    ensures Kept(c, Next(c, w, e))
  {
    var w' := Next(c, w, e);
    NextLogs(c, w, e);
    EmittedNext(c, w, e);
    hide Possible, Next, Open, Stale, Original, EmittedOpens;
    forall i | 0 <= i < |w'.log| && w'.log[i].snapshot.Snapshot?
      ensures Original(w', w'.log[i].snapshot)
    {
      if i < |w.log| {
        assert w'.log[i] == w.log[i];
        OriginalStays(w, w', w.log[i].snapshot);
      }
    }
    forall i | 0 <= i < |w'.pending| && w'.pending[i].0.snapshot.Snapshot?
      ensures Original(w', w'.pending[i].0.snapshot)
    {
      if w'.pending[i] in w.pending {
        var j :| 0 <= j < |w.pending| && w.pending[j] == w'.pending[i];
        assert Original(w, w.pending[j].0.snapshot);
      }
      OriginalStays(w, w', w'.pending[i].0.snapshot);
    }
  }

  lemma {:induction false} RunKeeps(c: Config, worlds: seq<World>, events: seq<Event>, k: nat)
    requires IsRun(c, worlds, events) && k < |worlds|
    ensures Kept(c, worlds[k])
  {
    if k == 0 {
    } else {
      RunKeeps(c, worlds, events, k - 1);
      NextKeeps(c, worlds[k - 1], events[k - 1]);
    }
  }

  // ---------------------------------------------------------------- What is accepted

  /** The envelope checks, spelled out. */
  ghost predicate Passes(c: Config, g: Guardian, m: Message, now: int) {
    && m.sender in c.peers && c.peers[m.sender] == m.signer && m.intact
    && m.version == 1 && now - m.timestamp <= c.maxAge && m.timestamp - now <= 30_000
    && m.nonce !in g.order
  }

  /** A snapshot that the guardian takes: newer than its own, and one that opens if it looks. */
  ghost predicate Welcome(c: Config, g: Guardian, s: Snapshot, verify: bool) {
    && (s.Snapshot? && g.latestSequence.Some? ==> s.sequenceNum > g.latestSequence.value)
    && (verify ==> s.Snapshot? && s.cipher.key == c.vaultKey && s.checksum == Digest(s.cipher.plain))
  }

  lemma FinishExactly(c: Config, g: Guardian, s: Snapshot, verify: bool)
    ensures var (g', o) := Finish(c, g, s, verify);
      && (o == Accepted <==> Welcome(c, g, s, verify)) && (o == Rejected <==> !Welcome(c, g, s, verify))
      && (o == Accepted ==> g' == Guardian(g.order, Number(s), Some(s)))
      && (o == Rejected ==> g' == g)
  {
  }

  /** Which envelopes are stored at once, which wait, and that nothing else is. */
  lemma BeginExactly(c: Config, g: Guardian, m: Message, now: int, verify: bool)
    ensures var (g', o) := Begin(c, g, m, now, verify);
      && (o == Waiting <==> Passes(c, g, m, now) && m.snapshot.quote.Some?)
      && (o == Accepted <==>
            && Passes(c, g, m, now) && m.snapshot.quote.None? && !c.requireAttestation
            && Welcome(c, g, m.snapshot, verify))
      && (o != Accepted ==> g'.latest == g.latest && g'.latestSequence == g.latestSequence)
      && (o == Accepted ==> g'.latest == Some(m.snapshot) && g'.latestSequence == Number(m.snapshot))
  {
    FinishExactly(c, g.(order := E.Remember(g.order, c.maxSize, m.nonce)), m.snapshot, verify);
    hide Finish, E.Remember;
  }

  /** An envelope from a known sender that is timely uses up its nonce: the same nonce does nothing afterwards. */
  lemma RepeatIsRejected(c: Config, g: Guardian, m: Message, now: int, verify: bool, again: Message, later: int)
    requires c.maxSize > 0 && m.sender in c.peers && m.version == 1
    requires now - m.timestamp <= c.maxAge && m.timestamp - now <= 30_000 && again.nonce == m.nonce
    ensures var after := Begin(c, g, m, now, verify).0;
      Begin(c, after, again, later, verify) == (after, Rejected)
  {
    var order := E.Remember(g.order, c.maxSize, m.nonce);
    assert m.nonce !in g.order ==> order[|order| - 1] == m.nonce;
  }

  /** A verified message with a quote waits, once, and nothing else happens. */
  lemma DeliverWaits(c: Config, w: World, m: Message, now: int, verify: bool)
    requires Possible(c, w, Deliver(m, now, verify)) && Passes(c, w.guardian, m, now) && m.snapshot.quote.Some?
    ensures var w' := Next(c, w, Deliver(m, now, verify));
      && w'.pending == w.pending + [(m, verify)] && w'.log == w.log
      && w'.guardian.latest == w.guardian.latest && w'.guardian.latestSequence == w.guardian.latestSequence
  {
    BeginExactly(c, w.guardian, m, now, verify);
    hide Begin, Passes;
  }

  /** The answer to one that waits: attested, it is stored exactly when it is welcome; refused, it changes nothing. */
  lemma ResumeExactly(c: Config, w: World, i: nat, attested: bool)
    requires i < |w.pending|
    ensures var w' := Next(c, w, Resume(i, attested));
      var (m, verify) := w.pending[i];
      && w'.pending == w.pending[..i] + w.pending[i + 1..]
      && (attested && Welcome(c, w.guardian, m.snapshot, verify) ==>
            && w'.log == w.log + [m]
            && w'.guardian == Guardian(w.guardian.order, Number(m.snapshot), Some(m.snapshot)))
      && (!attested || !Welcome(c, w.guardian, m.snapshot, verify) ==> w'.log == w.log && w'.guardian == w.guardian)
  {
    FinishExactly(c, w.guardian, w.pending[i].0.snapshot, w.pending[i].1);
    hide Finish, Welcome;
  }

  /** A receive that waits is forgotten only by its own answer. */
  lemma WaitingStays(c: Config, w: World, e: Event, p: (Message, bool))
    requires Possible(c, w, e) && p in w.pending && (e.Resume? ==> w.pending[e.i] != p)
    ensures p in Next(c, w, e).pending
  {
    hide Begin, Finish, Original;
    var j :| 0 <= j < |w.pending| && w.pending[j] == p;
    if e.Resume? {
      var rest := Next(c, w, e).pending;
      assert j < e.i ==> rest[j] == p;
      assert j > e.i ==> rest[j - 1] == p;
    }
  }

  lemma {:induction false} WaitsUntilAnswered(
    c: Config, worlds: seq<World>, events: seq<Event>, j: nat, k: nat, p: (Message, bool))
    requires IsRun(c, worlds, events) && j <= k < |worlds| && p in worlds[j].pending
    requires forall e :: j <= e < k && events[e].Resume? && events[e].i < |worlds[e].pending| ==>
      worlds[e].pending[events[e].i] != p
    ensures p in worlds[k].pending
  {
    if j == k {
    } else {
      WaitsUntilAnswered(c, worlds, events, j, k - 1, p);
      assert Possible(c, worlds[k - 1], events[k - 1]);
      hide Next, Begin;
      WaitingStays(c, worlds[k - 1], events[k - 1], p);
    }
  }

  /**
   * An attested snapshot arrives. A message that passes the envelope checks at `j` and
   * carries a quote waits until it is answered; when the attestation service confirms it at
   * `k` it is stored exactly when it is then newer than what the guardian holds, and opens
   * if the guardian looks.
   */
  lemma AttestedIsStored(c: Config, worlds: seq<World>, events: seq<Event>, j: nat, k: nat)
    requires IsRun(c, worlds, events) && j < k < |events| && events[j].Deliver?
    requires Passes(c, worlds[j].guardian, events[j].msg, events[j].now) && events[j].msg.snapshot.quote.Some?
    requires forall e :: j < e < k && events[e].Resume? && events[e].i < |worlds[e].pending| ==>
      worlds[e].pending[events[e].i] != (events[j].msg, events[j].verify)
    ensures (events[j].msg, events[j].verify) in worlds[k].pending
    ensures events[k].Resume? && worlds[k].pending[events[k].i] == (events[j].msg, events[j].verify)
            && events[k].attested ==>
      var m, g := events[j].msg, worlds[k].guardian;
      && (Welcome(c, g, m.snapshot, events[j].verify) ==>
            worlds[k + 1].log == worlds[k].log + [m] && worlds[k + 1].guardian.latest == Some(m.snapshot))
      && (!Welcome(c, g, m.snapshot, events[j].verify) ==>
            worlds[k + 1].log == worlds[k].log && worlds[k + 1].guardian == g)
  {
    var m, now, verify := events[j].msg, events[j].now, events[j].verify;
    assert Possible(c, worlds[j], events[j]) && worlds[j + 1] == Next(c, worlds[j], events[j]);
    assert Possible(c, worlds[k], events[k]) && worlds[k + 1] == Next(c, worlds[k], events[k]);
    hide Next, Passes, Welcome;
    DeliverWaits(c, worlds[j], m, now, verify);
    WaitsUntilAnswered(c, worlds, events, j + 1, k, (m, verify));
    if events[k].Resume? {
      ResumeExactly(c, worlds[k], events[k].i, events[k].attested);
    }
  }

  // ---------------------------------------------------------------- Safety

  /** Nothing but snapshots was accepted. */
  predicate OnlySnapshots(log: seq<Message>) {
    forall i :: 0 <= i < |log| ==> log[i].snapshot.Snapshot?
  }

  /** The accepted numbers strictly increase, up to the guardian's. */
  ghost predicate Increasing(w: World) {
    && OnlySnapshots(w.log) && w.guardian.latestSequence.Some?
    && (forall i :: 0 <= i < |w.log| ==> w.log[i].snapshot.sequenceNum > 0)
    && (forall i, j :: 0 <= i < j < |w.log| ==> w.log[i].snapshot.sequenceNum < w.log[j].snapshot.sequenceNum)
    && (forall i :: 0 <= i < |w.log| ==> w.log[i].snapshot.sequenceNum <= w.guardian.latestSequence.value)
  }

  lemma LogsIncrease(w: World, w': World)
    requires Increasing(w) && Logs(w, w') && OnlySnapshots(w'.log)
    requires w.guardian.latestSequence.value >= 0
    ensures Increasing(w')
  {
    hide Original;
    if w'.log != w.log {
      var n := |w'.log| - 1;
      assert forall i :: 0 <= i < n ==> w'.log[i] == w.log[i];
    }
  }

  lemma NextIncreases(c: Config, w: World, e: Event)
    requires Kept(c, w) && Increasing(w) && Possible(c, w, e) && OnlySnapshots(Next(c, w, e).log)
    ensures Increasing(Next(c, w, e))
  {
    NextLogs(c, w, e);
    assert w.log == [] ==> w.guardian.latestSequence == Some(0);
    hide Possible, Next, Kept, Logs;
    LogsIncrease(w, Next(c, w, e));
  }

  lemma {:induction false} RunIncreases(c: Config, worlds: seq<World>, events: seq<Event>, k: nat)
    requires IsRun(c, worlds, events) && k < |worlds| && OnlySnapshots(worlds[k].log)
    ensures Increasing(worlds[k])
  {
    if k == 0 {
    } else {
      RunKeeps(c, worlds, events, k - 1);
      NextLogs(c, worlds[k - 1], events[k - 1]);
      var front := worlds[k - 1].log;
      assert forall i :: 0 <= i < |front| ==> worlds[k].log[i] == front[i];
      RunIncreases(c, worlds, events, k - 1);
      NextIncreases(c, worlds[k - 1], events[k - 1]);
    }
  }

  /** The log only grows. */
  lemma {:induction false} LogGrows(c: Config, worlds: seq<World>, events: seq<Event>, j: nat, k: nat)
    requires IsRun(c, worlds, events) && j <= k < |worlds|
    ensures worlds[j].log <= worlds[k].log
    ensures |worlds[j].log| == |worlds[k].log| ==>
      worlds[j].guardian.latestSequence == worlds[k].guardian.latestSequence
  {
    if j == k {
    } else {
      LogGrows(c, worlds, events, j, k - 1);
      RunKeeps(c, worlds, events, k - 1);
      NextLogs(c, worlds[k - 1], events[k - 1]);
      hide Next, Possible, Original, Stale;
      var u, v := worlds[k - 1].log, worlds[k].log;
      assert v == u || u == v[..|v| - 1];
    }
  }

  ghost predicate Safe(c: Config, w: World) { Kept(c, w) && Increasing(w) }

  /** Every reachable world is safe if and only if nothing but snapshots was accepted. */
  lemma RunIsSafe(c: Config, worlds: seq<World>, events: seq<Event>, k: nat)
    requires IsRun(c, worlds, events) && k < |worlds|
    ensures Safe(c, worlds[k]) <==> OnlySnapshots(worlds[k].log)
  {
    RunKeeps(c, worlds, events, k);
    if OnlySnapshots(worlds[k].log) {
      RunIncreases(c, worlds, events, k);
    }
  }

  /**
   * While nothing but snapshots is accepted, the guardian's number never goes back, and
   * stands still exactly while nothing is accepted.
   */
  lemma NumberIsMonotone(c: Config, worlds: seq<World>, events: seq<Event>, j: nat, k: nat)
    requires IsRun(c, worlds, events) && j <= k < |worlds| && OnlySnapshots(worlds[k].log)
    ensures var m, n := worlds[j].guardian.latestSequence, worlds[k].guardian.latestSequence;
      && m.Some? && n.Some? && m.value <= n.value
      && |worlds[j].log| <= |worlds[k].log| && (m == n <==> |worlds[j].log| == |worlds[k].log|)
  {
    LogGrows(c, worlds, events, j, k);
    assert forall i :: 0 <= i < |worlds[j].log| ==> worlds[j].log[i] == worlds[k].log[i];
    RunIncreases(c, worlds, events, j);
    RunIncreases(c, worlds, events, k);
    RunKeeps(c, worlds, events, j);
    RunKeeps(c, worlds, events, k);
    hide IsRun, EmittedOpens, Genuine;
  }

  predicate Before(s: Snapshot, t: Snapshot) {
    s.Snapshot? && t.Snapshot? && s.sequenceNum < t.sequenceNum
  }

  /** The guardian's snapshot is the agent's `i`-th database, under its own number. */
  predicate HeldAs(c: Config, w: World, i: nat)
    requires i < |w.emitted| && |w.emitted| == |w.held|
  {
    && w.guardian.latestSequence.Some? && Number(w.emitted[i].snapshot) == w.guardian.latestSequence
    && DecryptLatest(c, w.guardian) == Some(w.held[i])
  }

  /**
   * What the protocol is for: the accepted numbers strictly increase, no message is
   * accepted twice, and what the guardian can decrypt is a database that the agent held
   * under that very number.
   */
  ghost predicate Sound(c: Config, w: World) {
    && (forall i, j :: 0 <= i < j < |w.log| ==> w.log[i] != w.log[j] && Before(w.log[i].snapshot, w.log[j].snapshot))
    && (w.guardian.latest.None? <==> w.log == [])
    && (w.guardian.latest.Some? ==>
          exists i :: 0 <= i < |w.emitted| == |w.held| && HeldAs(c, w, i))
  }

  lemma LatestIsHeld(c: Config, w: World) returns (i: nat)
    requires Kept(c, w) && OnlySnapshots(w.log) && w.log != []
    ensures i < |w.emitted| == |w.held| && HeldAs(c, w, i)
  {
    var last := w.log[|w.log| - 1].snapshot;
    i :| 0 <= i < |w.emitted| && Carries(last, w.emitted[i].snapshot);
    assert Open(c.vaultKey, w.emitted[i].snapshot) == Some(w.held[i]);
  }

  lemma NoForeignInSound(c: Config, w: World, f: nat)
    requires Sound(c, w) && HoldsLast(w) && f < |w.log|
    ensures w.log[f].snapshot.Snapshot?
  {
    var n := |w.log| - 1;
    if f < n {
      assert Before(w.log[f].snapshot, w.log[n].snapshot);
    }
  }

  /**
   * Snapshot safety under loss, duplication, reordering and concurrent receives: a
   * guardian is sound if and only if no other signed payload was taken for a snapshot.
   */
  lemma SnapshotSafety(c: Config, worlds: seq<World>, events: seq<Event>, k: nat)
    requires IsRun(c, worlds, events) && k < |worlds|
    ensures Sound(c, worlds[k]) <==> OnlySnapshots(worlds[k].log)
  {
    var w := worlds[k];
    RunKeeps(c, worlds, events, k);
    if OnlySnapshots(w.log) {
      RunIncreases(c, worlds, events, k);
      if w.log != [] {
        var i := LatestIsHeld(c, w);
      }
    } else {
      hide IsRun, EmittedOpens, Genuine, Carries, Open;
      var f :| 0 <= f < |w.log| && w.log[f].snapshot.Foreign?;
      if Sound(c, w) {
        NoForeignInSound(c, w, f);
      }
    }
  }

  lemma VerifyingStep(c: Config, w: World, e: Event)
    requires Possible(c, w, e) && OnlySnapshots(w.log) && (e.Deliver? ==> e.verify)
    requires forall i :: 0 <= i < |w.pending| ==> w.pending[i].1
    ensures OnlySnapshots(Next(c, w, e).log)
    ensures forall i :: 0 <= i < |Next(c, w, e).pending| ==> Next(c, w, e).pending[i].1
  {
    hide Begin, Finish, Open, Original, Stale;
    match e
    case Deliver(m, now, verify) => BeginMoves(c, w.guardian, m, now, verify);
    case Resume(i, attested) => FinishMoves(c, w.guardian, w.pending[i].0.snapshot, w.pending[i].1);
    case _ =>
  }

  /** A guardian that decrypts whatever it receives accepts nothing but snapshots. */
  lemma {:induction false} VerifyingIsEnough(c: Config, worlds: seq<World>, events: seq<Event>, k: nat)
    requires IsRun(c, worlds, events) && k < |worlds|
    requires forall e :: 0 <= e < k && events[e].Deliver? ==> events[e].verify
    ensures OnlySnapshots(worlds[k].log)
    ensures forall i :: 0 <= i < |worlds[k].pending| ==> worlds[k].pending[i].1
  {
    if k == 0 {
    } else {
      var w, e := worlds[k - 1], events[k - 1];
      VerifyingIsEnough(c, worlds, events, k - 1);
      assert Possible(c, w, e) && worlds[k] == Next(c, w, e);
      VerifyingStep(c, w, e);
    }
  }

  /** Without a restore the agent's n-th message carries number n. */
  lemma {:induction false} NumbersCount(c: Config, worlds: seq<World>, events: seq<Event>, k: nat)
    requires IsRun(c, worlds, events) && k < |worlds|
    requires forall e :: 0 <= e < k ==> !events[e].Restore?
    ensures worlds[k].agentSequence == |worlds[k].emitted|
    ensures forall i :: 0 <= i < |worlds[k].emitted| ==> Number(worlds[k].emitted[i].snapshot) == Some(i + 1)
  {
    if k == 0 {
    } else {
      NumbersCount(c, worlds, events, k - 1);
      assert worlds[k] == Next(c, worlds[k - 1], events[k - 1]);
    }
  }

  /** While one agent runs, the guardian decrypts exactly the database of its number. */
  lemma DecryptLatestIsExact(c: Config, worlds: seq<World>, events: seq<Event>, k: nat)
    requires IsRun(c, worlds, events) && k < |worlds| && OnlySnapshots(worlds[k].log)
    requires forall e :: 0 <= e < k ==> !events[e].Restore?
    ensures worlds[k].guardian.latestSequence.Some?
    ensures var w, n := worlds[k], worlds[k].guardian.latestSequence.value;
      0 <= n <= |w.held| && DecryptLatest(c, w.guardian) == if n == 0 then None else Some(w.held[n - 1])
  {
    RunKeeps(c, worlds, events, k);
    RunIncreases(c, worlds, events, k);
    NumbersCount(c, worlds, events, k);
    if worlds[k].log != [] {
      var i := LatestIsHeld(c, worlds[k]);
    }
  }

  /** Between two emissions or restores the agent's number stands still. */
  lemma {:induction false} AgentStandsStill(c: Config, worlds: seq<World>, events: seq<Event>, j: nat, k: nat)
    requires IsRun(c, worlds, events) && j <= k < |worlds|
    requires forall e :: j <= e < k ==> events[e].Deliver? || events[e].Resume?
    ensures worlds[k].agentSequence == worlds[j].agentSequence
  {
    if j == k {
    } else {
      AgentStandsStill(c, worlds, events, j, k - 1);
      assert worlds[k] == Next(c, worlds[k - 1], events[k - 1]);
    }
  }

  /**
   * Continuity after a restore. The first message of an agent that restored a guardian's
   * snapshot is not stale to that guardian, however late it arrives, exactly when the
   * guardian has accepted nothing since the restore; then it is accepted at once if it
   * verifies and carries no quote where none is required, or when its quote is attested.
   */
  lemma RestoredAgentIsNotStale(
    c: Config, worlds: seq<World>, events: seq<Event>, k: nat, e: nat, j: nat, now: int, verify: bool)
    requires IsRun(c, worlds, events) && k < e < j < |worlds| && OnlySnapshots(worlds[j].log)
    requires events[k].Restore? && events[e].Emit?
    requires forall d :: k < d < e ==> events[d].Deliver? || events[d].Resume?
    ensures var g, m := worlds[j].guardian, events[e].m;
      var quiet := |worlds[j].log| == |worlds[k].log|;
      && (Finish(c, g, m.snapshot, verify).1 == Accepted <==> quiet)
      && (Begin(c, g, m, now, verify).1 == Accepted <==>
            Verifies(c, g, m, now) && m.snapshot.quote.None? && !c.requireAttestation && quiet)
  {
    RunKeeps(c, worlds, events, k);
    assert worlds[k + 1] == Next(c, worlds[k], events[k]);
    AgentStandsStill(c, worlds, events, k + 1, e);
    NumberIsMonotone(c, worlds, events, k, j);
    assert Possible(c, worlds[k], events[k]) && Possible(c, worlds[e], events[e]);
  }

  // ---------------------------------------------------------------- Two runs

  const SAMPLE_CONFIG := Config(map["agent" := "key"], "vault", 10, 300_000, false)

  function Envelope(nonce: string, s: Snapshot): Message {
    Message(1, "agent", 0, nonce, true, s, "key")
  }

  function Sample(n: int): Snapshot { Snapshot(Cipher("vault", "", "db"), n, Digest("db"), None) }

  /** An untouched envelope of the agent, with a nonce that is new, goes straight to the stale test. */
  lemma SampleArrives(g: Guardian, nonce: string, s: Snapshot)
    requires |g.order| < 10 && nonce !in g.order && s.quote.None?
    ensures Begin(SAMPLE_CONFIG, g, Envelope(nonce, s), 0, false)
         == Finish(SAMPLE_CONFIG, g.(order := g.order + [nonce]), s, false)
  {
  }

  /**
   * A restored agent can be stale: its predecessor's second snapshot, late in the network,
   * arrives after the first was restored, and the new agent's second is refused.
   */
  lemma RestoredAgentCanBeStale() returns (worlds: seq<World>, events: seq<Event>)
    ensures IsRun(SAMPLE_CONFIG, worlds, events) && |events| == 6 && events[3].Restore? && events[5].Emit?
    ensures OnlySnapshots(worlds[6].log)
    ensures Finish(SAMPLE_CONFIG, worlds[6].guardian, events[5].m.snapshot, false).1 == Rejected
  {
    var c := SAMPLE_CONFIG;
    var first, late, next := Envelope("n1", Sample(1)), Envelope("n2", Sample(2)), Envelope("n3", Sample(2));
    events := [Emit(first, "db"), Emit(late, "db"), Deliver(first, 0, false), Restore,
               Deliver(late, 0, false), Emit(next, "db")];
    hide Begin, Verifies;
    var w0 := Start;
    var w1 := Next(c, w0, events[0]);
    var w2 := Next(c, w1, events[1]);
    assert w2.emitted == [first, late];
    assert Carries(first.snapshot, w2.emitted[0].snapshot) && Carries(late.snapshot, w2.emitted[1].snapshot);
    SampleArrives(w2.guardian, "n1", Sample(1));
    var w3 := Next(c, w2, events[2]);
    assert w3.guardian == Guardian(["n1"], Some(1), Some(first.snapshot));
    var w4 := Next(c, w3, events[3]);
    SampleArrives(w4.guardian, "n2", Sample(2));
    var w5 := Next(c, w4, events[4]);
    assert w5.guardian.latestSequence == Some(2) && w5.agentSequence == 1;
    var w6 := Next(c, w5, events[5]);
    worlds := [w0, w1, w2, w3, w4, w5, w6];
  }

  /**
   * The payload of another action, delivered as a snapshot and not decrypted, is stored;
   * after it the stale test passes anything, and the guardian falls back to an old number.
   */
  lemma ForeignPayloadIsStored() returns (worlds: seq<World>, events: seq<Event>)
    ensures IsRun(SAMPLE_CONFIG, worlds, events) && |events| == 5
    ensures worlds[3].guardian.latestSequence == Some(2)
    ensures events[3].Deliver? && events[3].msg.snapshot.Foreign? && worlds[4].guardian.latestSequence == None
    ensures worlds[5].guardian.latestSequence == Some(1)
  {
    var c := SAMPLE_CONFIG;
    var first, second := Envelope("n1", Sample(1)), Envelope("n2", Sample(2));
    var other := Envelope("n3", Foreign(None));
    events := [Emit(first, "db"), Emit(second, "db"), Deliver(second, 0, false), Deliver(other, 0, false),
               Deliver(first, 0, false)];
    hide Begin, Verifies;
    var w0 := Start;
    var w1 := Next(c, w0, events[0]);
    var w2 := Next(c, w1, events[1]);
    assert w2.emitted == [first, second];
    assert Carries(first.snapshot, w2.emitted[0].snapshot) && Carries(second.snapshot, w2.emitted[1].snapshot);
    SampleArrives(w2.guardian, "n2", Sample(2));
    var w3 := Next(c, w2, events[2]);
    assert w3.guardian == Guardian(["n2"], Some(2), Some(second.snapshot));
    SampleArrives(w3.guardian, "n3", Foreign(None));
    var w4 := Next(c, w3, events[3]);
    assert w4.guardian == Guardian(["n2", "n3"], None, Some(Foreign(None)));
    SampleArrives(w4.guardian, "n1", Sample(1));
    var w5 := Next(c, w4, events[4]);
    worlds := [w0, w1, w2, w3, w4, w5];
  }
}
