/** The on-chain registry entry: built by the client, kept by the program, decoded by any reader. */
module RegistryEntry {
  import opened Wrappers
  import opened RegistryText

  const MAX_ENDPOINT_LEN: nat := 256
  const SIZE: nat := 8 + 1 + (4 + MAX_ENDPOINT_LEN) + 16 + 32 + 32 + 32 + 8 + 8 + 1 + 1

  // ---------------------------------------------------------------- Integers

  predicate InRange(x: int) { -0x8000_0000_0000_0000 <= x < 0x8000_0000_0000_0000 }

  type int64 = x: int | -0x8000_0000_0000_0000 <= x < 0x8000_0000_0000_0000

  function Pow256(k: nat): nat { if k == 0 then 1 else 256 * Pow256(k - 1) }

  /** The low `k` bytes of `n`, least significant first. */
  function LE(n: nat, k: nat): (s: seq<byte>)
    ensures |s| == k
  {
    if k == 0 then [] else [n % 256] + LE(n / 256, k - 1)
  }

  function FromLE(s: seq<byte>): nat { if s == [] then 0 else s[0] + 256 * FromLE(s[1..]) }

  lemma {:induction false} LERoundTrip(n: nat, k: nat)
    ensures FromLE(LE(n, k)) == n <==> n < Pow256(k)
  {
    if k == 0 {
    } else {
      LERoundTrip(n / 256, k - 1);
      assert LE(n, k)[1..] == LE(n / 256, k - 1);
    }
  }

  /** Two's complement. */
  function Unsigned(t: int64): nat { if t >= 0 then t else t + 0x1_0000_0000_0000_0000 }

  function Signed(n: nat): int { if n < 0x8000_0000_0000_0000 then n else n - 0x1_0000_0000_0000_0000 }

  lemma Widths()
    ensures Pow256(4) == 0x1_0000_0000 && Pow256(8) == 0x1_0000_0000_0000_0000
  {
    assert Pow256(2) == 256 * Pow256(1) == 65536;
    assert Pow256(4) == 256 * Pow256(3) == 256 * (256 * Pow256(2));
    assert Pow256(6) == 256 * Pow256(5) == 256 * (256 * Pow256(4));
    assert Pow256(8) == 256 * Pow256(7) == 256 * (256 * Pow256(6));
  }

  /** The least significant byte comes first. */
  lemma ByteOrder(a: byte, b: byte)
    ensures LE(a + 256 * b, 2) == [a, b] && FromLE([a, b]) == a + 256 * b
  {
    assert LE(b, 1) == [b] + LE(0, 0) == [b];
    assert [a, b][1..] == [b] && FromLE([b]) == b;
  }

  /** Minus one is all bits set. */
  lemma NegativeTimes(t: int64)
    ensures Unsigned(-1) == 0xffff_ffff_ffff_ffff
    ensures t < 0 ==> Unsigned(t) == 0xffff_ffff_ffff_ffff - (-1 - t)
  {
  }

  lemma LengthReadsBack(n: nat)
    requires n < 0x1_0000_0000
    ensures FromLE(LE(n, 4)) == n
  {
    Widths();
    LERoundTrip(n, 4);
  }

  lemma TimeReadsBack(t: int64)
    ensures Signed(FromLE(LE(Unsigned(t), 8))) == t
  {
    Widths();
    LERoundTrip(Unsigned(t), 8);
  }

  // ---------------------------------------------------------------- Layout

  /** What a node says of itself; the endpoint stands as its UTF-8 bytes. */
  datatype Identity = Identity(
    entityType: byte, endpoint: seq<byte>, tee: seq<byte>, code: seq<byte>, attestation: seq<byte>, key: seq<byte>)

  predicate Sized(id: Identity) {
    && |id.endpoint| < 0x1_0000_0000 && |id.tee| == 16
    && |id.code| == 32 && |id.attestation| == 32 && |id.key| == 32
  }

  datatype Entry = Entry(id: Identity, registeredAt: int64, lastHeartbeat: int64, active: bool, bump: byte)

  /** The bytes of an identity, with `tail` behind them. */
  function WithIdentity(id: Identity, tail: seq<byte>): (s: seq<byte>)
    ensures |s| == 5 + |id.endpoint| + |id.tee| + |id.code| + |id.attestation| + |id.key| + |tail|
  {
    [id.entityType]
    + (LE(|id.endpoint|, 4) + (id.endpoint + (id.tee + (id.code + (id.attestation + (id.key + tail))))))
  }

  function WithState(e: Entry, tail: seq<byte>): (s: seq<byte>)
    ensures |s| == 18 + |tail|
  {
    LE(Unsigned(e.registeredAt), 8)
    + (LE(Unsigned(e.lastHeartbeat), 8) + ([if e.active then 1 else 0, e.bump] + tail))
  }

  /** `subarray` keeps within the buffer. */
  function Head(s: seq<byte>, k: nat): seq<byte> { if k <= |s| then s[..k] else s }

  function Tail(s: seq<byte>, k: nat): seq<byte> { if k <= |s| then s[k..] else [] }

  function Split(s: seq<byte>): (Identity, seq<byte>)
    requires |s| >= 5
  {
    var n := FromLE(s[1..5]);
    var tee := Tail(s[5..], n);
    var code := Tail(tee, 16);
    var attestation := Tail(code, 32);
    var key := Tail(attestation, 32);
    (Identity(s[0], Head(s[5..], n), Head(tee, 16), Head(code, 32), Head(attestation, 32), Head(key, 32)),
     Tail(key, 32))
  }

  lemma Parts(a: seq<byte>, b: seq<byte>)
    ensures Head(a + b, |a|) == a && Tail(a + b, |a|) == b
  {
  }

  lemma SplitReadsBack(id: Identity, tail: seq<byte>)
    requires Sized(id)
    ensures Split(WithIdentity(id, tail)) == (id, tail)
  {
    hide Head, Tail, LE, FromLE;
    var key := id.key + tail;
    var attestation := id.attestation + key;
    var code := id.code + attestation;
    var tee := id.tee + code;
    var endpoint := id.endpoint + tee;
    var s := WithIdentity(id, tail);
    assert s == [id.entityType] + (LE(|id.endpoint|, 4) + endpoint);
    assert s[1..5] == LE(|id.endpoint|, 4) && s[5..] == endpoint;
    LengthReadsBack(|id.endpoint|);
    Parts(id.endpoint, tee);
    Parts(id.tee, code);
    Parts(id.code, attestation);
    Parts(id.attestation, key);
    Parts(id.key, tail);
  }

  // ---------------------------------------------------------------- Reader

  /** `decodeEntry`, without the owner, which it passes through. */
  datatype View = View(
    agent: bool, endpoint: seq<byte>, tee: string, code: string, attestation: string, key: string,
    registeredAt: int, lastHeartbeat: int, active: bool)

  function Decode(data: seq<byte>): Option<View> {
    if |data| < 13 then None
    else
      var (id, state) := Split(data[8..]);
      if |state| < 17 then None
      else
        Some(View(id.entityType == 0, id.endpoint, HexFromBytes(id.tee), HexFromBytes(id.code),
                  HexFromBytes(id.attestation), Base64FromBytes(id.key),
                  Signed(FromLE(state[..8])), Signed(FromLE(state[8..16])), state[16] != 0))
  }

  /** Where a reader finds the fields: behind the endpoint everything moves by its length. */
  predicate ReadAt(data: seq<byte>, n: nat, v: View)
    requires |data| >= 142 + n
  {
    && v.agent == (data[8] == 0) && v.endpoint == data[13..13 + n]
    && v.tee == HexFromBytes(data[13 + n..29 + n]) && v.code == HexFromBytes(data[29 + n..61 + n])
    && v.attestation == HexFromBytes(data[61 + n..93 + n]) && v.key == Base64FromBytes(data[93 + n..125 + n])
    && v.registeredAt == Signed(FromLE(data[125 + n..133 + n]))
    && v.lastHeartbeat == Signed(FromLE(data[133 + n..141 + n]))
    && v.active == (data[141 + n] != 0)
  }

  lemma TailOfTail(s: seq<byte>, j: nat, k: nat)
    ensures Tail(Tail(s, j), k) == Tail(s, j + k)
  {
  }

  lemma HeadOfTail(s: seq<byte>, j: nat, k: nat)
    requires j + k <= |s|
    ensures Head(Tail(s, j), k) == s[j..j + k]
  {
  }

  lemma TailFrom(s: seq<byte>, k: nat)
    requires k <= |s|
    ensures Tail(s, k) == s[k..]
  {
  }

  lemma SplitAt(s: seq<byte>, data: seq<byte>, n: nat)
    requires |data| >= 125 + n && s == data[8..] && FromLE(data[9..13]) == n
    ensures var (id, state) := Split(s);
      && state == data[125 + n..] && id.entityType == data[8] && id.endpoint == data[13..13 + n]
      && id.tee == data[13 + n..29 + n] && id.code == data[29 + n..61 + n]
      && id.attestation == data[61 + n..93 + n] && id.key == data[93 + n..125 + n]
  {
    hide Head, Tail, FromLE;
    assert s[1..5] == data[9..13];
    assert s[5..] == Tail(data, 13) by {
      TailFrom(data, 13);
    }
    TailOfTail(data, 13, n);
    TailOfTail(data, 13 + n, 16);
    TailOfTail(data, 29 + n, 32);
    TailOfTail(data, 61 + n, 32);
    TailOfTail(data, 93 + n, 32);
    HeadOfTail(data, 13, n);
    HeadOfTail(data, 13 + n, 16);
    HeadOfTail(data, 29 + n, 32);
    HeadOfTail(data, 61 + n, 32);
    HeadOfTail(data, 93 + n, 32);
    TailFrom(data, 125 + n);
  }

  /** Every field stands at its offset. */
  lemma DecodeReadsAt(data: seq<byte>)
    requires |data| >= 13 && |data| >= FromLE(data[9..13]) + 142
    ensures Decode(data).Some? && ReadAt(data, FromLE(data[9..13]), Decode(data).value)
  {
    hide Split, FromLE, Signed, HexFromBytes, Base64FromBytes;
    var n := FromLE(data[9..13]);
    SplitAt(data[8..], data, n);
    var state := data[125 + n..];
    assert state[..8] == data[125 + n..133 + n] && state[8..16] == data[133 + n..141 + n];
  }

  /** Nothing but a short buffer is refused. */
  lemma DecodeRefuses(data: seq<byte>)
    ensures Decode(data).None? <==> |data| < 13 || |data| < FromLE(data[9..13]) + 142
  {
    hide FromLE;
    if |data| >= 13 {
      assert data[8..][1..5] == data[9..13];
    }
  }

  function ViewOf(e: Entry): View {
    View(e.id.entityType == 0, e.id.endpoint, HexFromBytes(e.id.tee), HexFromBytes(e.id.code),
         HexFromBytes(e.id.attestation), Base64FromBytes(e.id.key), e.registeredAt, e.lastHeartbeat, e.active)
  }

  // ---------------------------------------------------------------- Program storage

  /** An account: the discriminator of its type, the entry, and whatever bytes were left behind it. */
  function Stored(name: seq<byte>, e: Entry, rest: seq<byte>): seq<byte> {
    name + WithIdentity(e.id, WithState(e, rest))
  }

  /** Writing an entry over the account's data leaves the bytes behind it alone. */
  function Store(name: seq<byte>, e: Entry, data: seq<byte>): seq<byte> {
    Stored(name, e, Tail(data, |Stored(name, e, [])|))
  }

  lemma {:induction false} FromLEBound(s: seq<byte>)
    ensures FromLE(s) < Pow256(|s|)
  {
    if s == [] {
    } else {
      FromLEBound(s[1..]);
    }
  }

  lemma TimesFit(state: seq<byte>)
    requires |state| >= 18
    ensures InRange(Signed(FromLE(state[..8]))) && InRange(Signed(FromLE(state[8..16])))
  {
    Widths();
    FromLEBound(state[..8]);
    FromLEBound(state[8..16]);
  }

  /** The program's own, strict reading of an account. */
  function Load(name: seq<byte>, data: seq<byte>): Option<Entry>
    requires |name| == 8
  {
    if |data| < 13 || data[..8] != name then None
    else
      var (id, state) := Split(data[8..]);
      if |state| < 18 || state[16] > 1 then None
      else
        TimesFit(state);
        Some(Entry(id, Signed(FromLE(state[..8])), Signed(FromLE(state[8..16])), state[16] == 1, state[17]))
  }

  lemma StateReadsBack(e: Entry, rest: seq<byte>)
    ensures var s := WithState(e, rest);
            && Signed(FromLE(s[..8])) == e.registeredAt
            && Signed(FromLE(s[8..16])) == e.lastHeartbeat
            && s[16] == (if e.active then 1 else 0) && s[17] == e.bump
  {
    hide LE, FromLE, Signed, Unsigned;
    var s := WithState(e, rest);
    assert s[..8] == LE(Unsigned(e.registeredAt), 8);
    assert s[8..16] == LE(Unsigned(e.lastHeartbeat), 8);
    TimeReadsBack(e.registeredAt);
    TimeReadsBack(e.lastHeartbeat);
  }

  /** The program and every reader see the entry that was stored, whatever lies behind it. */
  lemma StoredReadsBack(name: seq<byte>, e: Entry, rest: seq<byte>)
    requires |name| == 8 && Sized(e.id)
    ensures Load(name, Stored(name, e, rest)) == Some(e)
    ensures Decode(Stored(name, e, rest)) == Some(ViewOf(e))
  {
    hide Split, WithState, WithIdentity, FromLE, Signed, HexFromBytes, Base64FromBytes;
    var state := WithState(e, rest);
    var data := Stored(name, e, rest);
    assert data[8..] == WithIdentity(e.id, state) && data[..8] == name;
    SplitReadsBack(e.id, state);
    StateReadsBack(e, rest);
  }

  // ---------------------------------------------------------------- Program

  datatype Instruction =
    | Register(id: Identity, bump: byte)
    | Heartbeat
    | UpdateEndpoint(endpoint: seq<byte>)
    | UpdateAttestation(hash: seq<byte>)
    | Deactivate

  /** The lengths that the program's array types fix. */
  predicate Typed(ins: Instruction) {
    match ins
    case Register(id, _) => |id.tee| == 16 && |id.code| == 32 && |id.attestation| == 32 && |id.key| == 32
    case UpdateAttestation(hash) => |hash| == 32
    case _ => true
  }

  /** The entry after an instruction, or `None` when the program refuses it. */
  function Perform(e: Option<Entry>, ins: Instruction, now: int64): Option<Entry> {
    match ins
    case Register(id, bump) =>
      if |id.endpoint| <= MAX_ENDPOINT_LEN && id.entityType <= 1 then Some(Entry(id, now, now, true, bump)) else None
    case Heartbeat =>
      if e.Some? && e.value.active then Some(e.value.(lastHeartbeat := now)) else None
    case UpdateEndpoint(endpoint) =>
      if |endpoint| <= MAX_ENDPOINT_LEN && e.Some? && e.value.active
      then Some(e.value.(id := e.value.id.(endpoint := endpoint))) else None
    case UpdateAttestation(hash) =>
      if e.Some? && e.value.active then Some(e.value.(id := e.value.id.(attestation := hash))) else None
    case Deactivate =>
      if e.Some? then Some(e.value.(active := false)) else None
  }

  /** One transaction on the account's bytes: load, run, write back; a failed one leaves them as they were. */
  function Execute(name: seq<byte>, data: Option<seq<byte>>, ins: Instruction, now: int64): Option<seq<byte>>
    requires |name| == 8
  {
    var e := if data.Some? then Load(name, data.value) else None;
    var after := if data.Some? && e.None? then None else Perform(e, ins, now);
    if after.None? then data
    else Some(Store(name, after.value, if data.Some? then data.value else Zeros(SIZE)))
  }

  type Step = (Instruction, int64)

  /** The bytes of the account after a run. */
  function Bytes(name: seq<byte>, steps: seq<Step>): Option<seq<byte>>
    requires |name| == 8
  {
    if steps == [] then None
    else
      var last := steps[|steps| - 1];
      Execute(name, Bytes(name, steps[..|steps| - 1]), last.0, last.1)
  }

  /** The entry after the same run, as the program's source reads. */
  function Current(steps: seq<Step>): Option<Entry> {
    if steps == [] then None
    else
      var before := Current(steps[..|steps| - 1]);
      var after := Perform(before, steps[|steps| - 1].0, steps[|steps| - 1].1);
      if after.None? then before else after
  }

  predicate Fits(e: Entry) {
    Sized(e.id) && |e.id.endpoint| <= MAX_ENDPOINT_LEN && e.id.entityType <= 1
  }

  predicate Mirrors(name: seq<byte>, data: Option<seq<byte>>, e: Option<Entry>)
    requires |name| == 8
  {
    && (data.Some? <==> e.Some?)
    && (e.Some? ==> Fits(e.value))
    && (e.Some? ==> |data.value| == SIZE && Load(name, data.value) == e && Decode(data.value) == Some(ViewOf(e.value)))
  }

  /** An entry within the limits fills no more than the account, and is read back from it. */
  lemma StoreFits(name: seq<byte>, e: Entry, data: seq<byte>)
    requires |name| == 8 && Fits(e) && |data| == SIZE
    ensures Mirrors(name, Some(Store(name, e, data)), Some(e))
  {
    hide Load, Decode, WithIdentity, WithState;
    var n := |Stored(name, e, [])|;
    assert n <= SIZE;
    StoredReadsBack(name, e, Tail(data, n));
  }

  lemma PerformFits(e: Option<Entry>, ins: Instruction, now: int64)
    requires Typed(ins) && (e.Some? ==> Fits(e.value))
    ensures var after := Perform(e, ins, now); after.Some? ==> Fits(after.value)
  {
  }

  /**
   * After any run of transactions the account's bytes hold exactly the entry the program describes:
   * they exist when it does, never outgrow the account, and decode to that entry for every reader.
   */
  lemma {:induction false} BytesMirrorEntry(name: seq<byte>, steps: seq<Step>)
    requires |name| == 8 && forall i :: 0 <= i < |steps| ==> Typed(steps[i].0)
    ensures Mirrors(name, Bytes(name, steps), Current(steps))
  {
    hide Load, Decode, Store, Fits, Perform, Typed;
    if steps == [] {
    } else {
      var earlier, last := steps[..|steps| - 1], steps[|steps| - 1];
      BytesMirrorEntry(name, earlier);
      var data, e := Bytes(name, earlier), Current(earlier);
      PerformFits(e, last.0, last.1);
      var after := Perform(e, last.0, last.1);
      if after.Some? {
        StoreFits(name, after.value, if data.Some? then data.value else Zeros(SIZE));
      }
    }
  }

  // ---------------------------------------------------------------- What each instruction writes

  /** Bytes that hold a whole entry. */
  predicate Holds(data: Option<seq<byte>>, v: View) {
    data.Some? && |data.value| == 399 && Decode(data.value) == Some(v)
  }

  /** The last transaction of a run, over what the bytes held before it. */
  lemma LastTransaction(name: seq<byte>, steps: seq<Step>, ins: Instruction, now: int64)
    requires |name| == 8 && Typed(ins) && forall i :: 0 <= i < |steps| ==> Typed(steps[i].0)
    ensures var before, after, e := Bytes(name, steps), Bytes(name, steps + [(ins, now)]), Current(steps);
      && (before == None ==> e == None) && (before != None ==> e.Some? && Holds(before, ViewOf(e.value)))
      && var next := Perform(e, ins, now);
         && (next == None ==> after == before) && (next != None ==> Holds(after, ViewOf(next.value)))
  {
    var all := steps + [(ins, now)];
    assert all[..|steps|] == steps;
    assert forall i :: 0 <= i < |all| ==> Typed(all[i].0);
    hide Load, Decode, Store, Fits, Perform, Typed, ViewOf;
    BytesMirrorEntry(name, steps);
    BytesMirrorEntry(name, all);
  }

  /** An account that exists decodes. */
  lemma AccountDecodes(name: seq<byte>, steps: seq<Step>) returns (v: View)
    requires |name| == 8 && forall i :: 0 <= i < |steps| ==> Typed(steps[i].0)
    requires Bytes(name, steps) != None
    ensures Holds(Bytes(name, steps), v)
  {
    hide Bytes, Load, Decode;
    BytesMirrorEntry(name, steps);
    v := ViewOf(Current(steps).value);
  }

  /** A registration fills the whole entry, unless its endpoint is too long or its type unknown. */
  lemma RegisterWrites(name: seq<byte>, steps: seq<Step>, id: Identity, bump: byte, now: int64)
    requires |name| == 8 && forall i :: 0 <= i < |steps| ==> Typed(steps[i].0)
    requires |id.tee| == 16 && |id.code| == 32 && |id.attestation| == 32 && |id.key| == 32
    ensures var before, after := Bytes(name, steps), Bytes(name, steps + [(Register(id, bump), now)]);
      if |id.endpoint| <= 256 && id.entityType <= 1 then
        Holds(after, View(id.entityType == 0, id.endpoint, HexFromBytes(id.tee), HexFromBytes(id.code),
                          HexFromBytes(id.attestation), Base64FromBytes(id.key), now, now, true))
      else after == before
  {
    hide Bytes, Holds, HexFromBytes, Base64FromBytes;
    LastTransaction(name, steps, Register(id, bump), now);
  }

  /** An account that was never registered stays empty, and the others need an active one. */
  lemma HeartbeatWrites(name: seq<byte>, steps: seq<Step>, now: int64, v: View)
    requires |name| == 8 && forall i :: 0 <= i < |steps| ==> Typed(steps[i].0)
    ensures var before, after := Bytes(name, steps), Bytes(name, steps + [(Heartbeat, now)]);
      && (before == None ==> after == None)
      && (Holds(before, v) ==> if v.active then Holds(after, v.(lastHeartbeat := now)) else after == before)
  {
    hide Bytes, Decode, HexFromBytes, Base64FromBytes;
    LastTransaction(name, steps, Heartbeat, now);
  }

  lemma EndpointWrites(name: seq<byte>, steps: seq<Step>, endpoint: seq<byte>, now: int64, v: View)
    requires |name| == 8 && forall i :: 0 <= i < |steps| ==> Typed(steps[i].0)
    ensures var before, after := Bytes(name, steps), Bytes(name, steps + [(UpdateEndpoint(endpoint), now)]);
      && (before == None ==> after == None)
      && (Holds(before, v) ==>
            if v.active && |endpoint| <= 256 then Holds(after, v.(endpoint := endpoint)) else after == before)
  {
    hide Bytes, Decode, HexFromBytes, Base64FromBytes;
    LastTransaction(name, steps, UpdateEndpoint(endpoint), now);
  }

  lemma AttestationWrites(name: seq<byte>, steps: seq<Step>, hash: seq<byte>, now: int64, v: View)
    requires |name| == 8 && |hash| == 32 && forall i :: 0 <= i < |steps| ==> Typed(steps[i].0)
    ensures var before, after := Bytes(name, steps), Bytes(name, steps + [(UpdateAttestation(hash), now)]);
      && (before == None ==> after == None)
      && (Holds(before, v) ==>
            if v.active then Holds(after, v.(attestation := HexFromBytes(hash))) else after == before)
  {
    hide Bytes, Decode, HexFromBytes, Base64FromBytes;
    LastTransaction(name, steps, UpdateAttestation(hash), now);
  }

  lemma DeactivateWrites(name: seq<byte>, steps: seq<Step>, now: int64, v: View)
    requires |name| == 8 && forall i :: 0 <= i < |steps| ==> Typed(steps[i].0)
    ensures var before, after := Bytes(name, steps), Bytes(name, steps + [(Deactivate, now)]);
      && (before == None ==> after == None) && (Holds(before, v) ==> Holds(after, v.(active := false)))
  {
    hide Bytes, Decode, HexFromBytes, Base64FromBytes;
    LastTransaction(name, steps, Deactivate, now);
  }

  /** An inactive entry, or none, is left as it is by everything but a registration. */
  lemma InactiveStep(name: seq<byte>, steps: seq<Step>, step: Step, v: View)
    requires |name| == 8 && Typed(step.0) && forall i :: 0 <= i < |steps| ==> Typed(steps[i].0)
    requires Holds(Bytes(name, steps), v) && !v.active && !step.0.Register?
    ensures Holds(Bytes(name, steps + [step]), v)
  {
    hide Bytes, Holds, HexFromBytes;
    match step.0
    case Heartbeat => HeartbeatWrites(name, steps, step.1, v);
    case UpdateEndpoint(endpoint) => EndpointWrites(name, steps, endpoint, step.1, v);
    case UpdateAttestation(hash) => AttestationWrites(name, steps, hash, step.1, v);
    case Deactivate => DeactivateWrites(name, steps, step.1, v);
  }

  /**
   * Once deactivated, an entry shows every reader what it showed before, but inactive, after
   * any further transactions until it is registered again.
   */
  lemma {:induction false} DeactivatedStaysOff(
    name: seq<byte>, steps: seq<Step>, now: int64, later: seq<Step>, v: View)
    requires |name| == 8 && forall i :: 0 <= i < |steps| ==> Typed(steps[i].0)
    requires forall i :: 0 <= i < |later| ==> Typed(later[i].0) && !later[i].0.Register?
    requires Holds(Bytes(name, steps), v)
    ensures Holds(Bytes(name, steps + [(Deactivate, now)] + later), v.(active := false))
  {
    hide Bytes, Holds;
    var off := steps + [(Deactivate, now)];
    if later == [] {
      DeactivateWrites(name, steps, now, v);
      assert off + later == off;
    } else {
      var n := |later| - 1;
      DeactivatedStaysOff(name, steps, now, later[..n], v);
      InactiveStep(name, off + later[..n], later[n], v.(active := false));
      assert off + later == off + later[..n] + [later[n]];
    }
  }

  // ---------------------------------------------------------------- Registration, end to end

  /** What a node hands to `registerSelf`. */
  datatype Input = Input(
    agent: bool, endpoint: seq<byte>, tee: string, code: string, attestation: string, key: string)

  function IdentityOf(i: Input): Identity {
    Identity(if i.agent then 0 else 1, i.endpoint, BytesFromHex(i.tee, 16), BytesFromHex(i.code, 32),
             BytesFromHex(i.attestation, 32), BytesFromBase64(i.key, 32))
  }

  /** The data of the register instruction. */
  function RegisterData(discriminator: seq<byte>, id: Identity): seq<byte> {
    discriminator + WithIdentity(id, [])
  }

  /** The arguments as the program reads them. */
  function ReadRegister(discriminator: seq<byte>, data: seq<byte>): Option<Identity>
    requires |discriminator| == 8
  {
    if |data| < 13 || data[..8] != discriminator || |data| < 13 + FromLE(data[9..13]) + 112 then None
    else Some(Split(data[8..]).0)
  }

  lemma ArgumentsReadBack(discriminator: seq<byte>, id: Identity)
    requires |discriminator| == 8 && Sized(id)
    ensures ReadRegister(discriminator, RegisterData(discriminator, id)) == Some(id)
  {
    hide Split, FromLE, LE;
    var data := RegisterData(discriminator, id);
    assert data[8..] == WithIdentity(id, []) && data[..8] == discriminator;
    SplitReadsBack(id, []);
    LengthReadsBack(|id.endpoint|);
    assert data[9..13] == LE(|id.endpoint|, 4);
  }

  /** Where the program finds the arguments of a registration. */
  lemma RegisterLayout(discriminator: seq<byte>, id: Identity)
    requires |discriminator| == 8 && Sized(id)
    ensures var data, n := RegisterData(discriminator, id), |id.endpoint|;
      && |data| == 125 + n && data[..8] == discriminator && data[8] == id.entityType
      && data[9..13] == LE(n, 4) && data[13..13 + n] == id.endpoint
      && data[13 + n..29 + n] == id.tee && data[29 + n..61 + n] == id.code
      && data[61 + n..93 + n] == id.attestation && data[93 + n..125 + n] == id.key
  {
    hide Split, FromLE, LE;
    var data := RegisterData(discriminator, id);
    assert data[8..] == WithIdentity(id, []) && data[..8] == discriminator;
    assert data[9..13] == LE(|id.endpoint|, 4);
    LengthReadsBack(|id.endpoint|);
    SplitReadsBack(id, []);
    SplitAt(data[8..], data, |id.endpoint|);
  }

  predicate FullHex(s: string, len: nat) { LowerHex(s) && |s| == 2 * len }

  /** What a reader sees of a registration made at `now`. */
  predicate ComesBack(input: Input, now: int64, v: View) {
    && v.agent == input.agent && v.endpoint == input.endpoint && v.active
    && v.registeredAt == now && v.lastHeartbeat == now
    && (v.tee == input.tee <==> FullHex(input.tee, 16))
    && (v.code == input.code <==> FullHex(input.code, 32))
    && (v.attestation == input.attestation <==> FullHex(input.attestation, 32))
    && (v.key == input.key <==> Canonical(input.key, 32))
  }

  lemma IdentityIsSized(input: Input)
    requires |input.endpoint| < 0x1_0000_0000
    ensures Sized(IdentityOf(input))
    ensures |input.endpoint| <= MAX_ENDPOINT_LEN <==> |IdentityOf(input).endpoint| <= MAX_ENDPOINT_LEN
  {
  }

  lemma ViewComesBack(input: Input, now: int64, bump: byte)
    ensures ComesBack(input, now, ViewOf(Entry(IdentityOf(input), now, now, true, bump)))
  {
    hide BytesFromHex, BytesFromBase64, HexFromBytes, Base64FromBytes, LowerHex, Canonical;
    HexRoundTrip(input.tee, 16);
    HexRoundTrip(input.code, 32);
    HexRoundTrip(input.attestation, 32);
    Base64RoundTrip(input.key, 32);
  }

  lemma RegisterTakesEffect(
    name: seq<byte>, before: Option<seq<byte>>, e: Option<Entry>, input: Input, bump: byte, now: int64)
    requires |name| == 8 && Mirrors(name, before, e) && Sized(IdentityOf(input))
    ensures var after := Execute(name, before, Register(IdentityOf(input), bump), now);
            && (|input.endpoint| > MAX_ENDPOINT_LEN ==> after == before)
            && (|input.endpoint| <= MAX_ENDPOINT_LEN ==>
                  && after.Some? && |after.value| == SIZE && Decode(after.value).Some?
                  && ComesBack(input, now, Decode(after.value).value))
  {
    hide Load, Decode, Store, ViewOf, ComesBack, BytesFromHex, BytesFromBase64;
    if |input.endpoint| <= MAX_ENDPOINT_LEN {
      var stored := Entry(IdentityOf(input), now, now, true, bump);
      var room := if before.Some? then before.value else Zeros(SIZE);
      StoreFits(name, stored, room);
      ViewComesBack(input, now, bump);
    }
  }

  /**
   * Whatever was in the account before, a registration that the program accepts is decoded with the
   * node's own type, endpoint and time, and each text field comes back unchanged exactly when it was
   * full-length lower-case hex or the canonical base64 of a key; one with a longer endpoint changes nothing.
   */
  lemma RegistrationRoundTrip(
    name: seq<byte>, discriminator: seq<byte>, steps: seq<Step>, input: Input, bump: byte, now: int64)
    requires |name| == 8 && |discriminator| == 8 && forall i :: 0 <= i < |steps| ==> Typed(steps[i].0)
    requires |input.endpoint| < 0x1_0000_0000
    ensures var sent := ReadRegister(discriminator, RegisterData(discriminator, IdentityOf(input)));
            && sent.Some?
            && var before := Bytes(name, steps);
               var after := Execute(name, before, Register(sent.value, bump), now);
               && (|input.endpoint| > MAX_ENDPOINT_LEN ==> after == before)
               && (|input.endpoint| <= MAX_ENDPOINT_LEN ==>
                     && after.Some? && |after.value| == SIZE && Decode(after.value).Some?
                     && ComesBack(input, now, Decode(after.value).value))
  {
    hide *;
    var id := IdentityOf(input);
    IdentityIsSized(input);
    ArgumentsReadBack(discriminator, id);
    BytesMirrorEntry(name, steps);
    RegisterTakesEffect(name, Bytes(name, steps), Current(steps), input, bump, now);
  }

  // ---------------------------------------------------------------- Buffers

  /** `src.copy(data, offset)`. */
  method Copy(src: seq<byte>, data: array<byte>, offset: nat)
    requires offset + |src| <= data.Length
    modifies data
    ensures data[..offset + |src|] == old(data[..offset]) + src
    ensures data[offset + |src|..] == old(data[offset + |src|..])
  {
    var i := 0;
    while i < |src|
      invariant 0 <= i <= |src|
      invariant data[..offset + i] == old(data[..offset]) + src[..i]
      invariant data[offset + |src|..] == old(data[offset + |src|..])
    {
      data[offset + i] := src[i];
      i := i + 1;
      assert data[..offset + i] == data[..offset + i - 1] + [src[i - 1]];
    }
  }

  lemma Regroup(id: Identity, start: seq<byte>, head: seq<byte>)
    requires head == start + [id.entityType] + LE(|id.endpoint|, 4) + id.endpoint
    ensures head + (id.tee + id.code + id.attestation + id.key) == start + WithIdentity(id, [])
  {
    hide LE;
    var key := id.key + [];
    var attestation := id.attestation + key;
    var code := id.code + attestation;
    var tee := id.tee + code;
    assert head + tee == start + WithIdentity(id, []);
    assert tee == id.tee + id.code + id.attestation + id.key;
  }

  /** The four fields of fixed size, up to the end of the buffer. */
  method WriteHashes(id: Identity, data: array<byte>, start: nat)
    requires Sized(id) && data.Length == start + 16 + 32 + 32 + 32
    modifies data
    ensures data[..] == old(data[..start]) + (id.tee + id.code + id.attestation + id.key)
  {
    ghost var head := data[..start];
    var offset := start;
    Copy(id.tee, data, offset);
    offset := offset + 16;
    Copy(id.code, data, offset);
    offset := offset + 32;
    Copy(id.attestation, data, offset);
    offset := offset + 32;
    Copy(id.key, data, offset);
    assert data[..] == data[..offset + 32] == head + id.tee + id.code + id.attestation + id.key;
  }

  /** `buildRegisterIx`: fills the buffer field by field behind a moving offset. */
  method BuildRegisterIx(discriminator: seq<byte>, id: Identity) returns (data: array<byte>)
    requires |discriminator| == 8 && Sized(id)
    ensures fresh(data) && data[..] == RegisterData(discriminator, id)
  {
    hide LE, WithIdentity;
    data := new byte[8 + 1 + 4 + |id.endpoint| + 16 + 32 + 32 + 32](_ => 0);
    var offset := 0;
    Copy(discriminator, data, offset);
    offset := offset + 8;
    data[offset] := id.entityType;
    offset := offset + 1;
    assert data[..offset] == discriminator + [id.entityType];
    Copy(LE(|id.endpoint|, 4), data, offset);
    offset := offset + 4;
    Copy(id.endpoint, data, offset);
    offset := offset + |id.endpoint|;
    Regroup(id, discriminator, data[..offset]);
    WriteHashes(id, data, offset);
  }

  /** `subarray(offset, offset + length)`, clamped at the end of the buffer. */
  function Subarray(data: array<byte>, offset: nat, length: nat): seq<byte>
    reads data
  {
    Head(Tail(data[..], offset), length)
  }

  /** `decodeEntry`: a read past the end gives up. */
  method DecodeEntry(data: array<byte>) returns (r: Option<View>)
    ensures r == Decode(data[..])
  {
    hide FromLE, HexFromBytes, Base64FromBytes, Signed;
    ghost var s := data[..];
    var offset := 8;
    if offset + 1 > data.Length { return None; }
    var entityType := data[offset];
    offset := offset + 1;
    if offset + 4 > data.Length { return None; }
    var endpointLen := FromLE(data[offset..offset + 4]);
    assert s[8..][1..5] == data[offset..offset + 4];
    offset := offset + 4;
    assert s[8..][5..] == Tail(s, offset);
    TailOfTail(s, 13, endpointLen);
    TailOfTail(s, 13 + endpointLen, 16);
    TailOfTail(s, 29 + endpointLen, 32);
    TailOfTail(s, 61 + endpointLen, 32);
    TailOfTail(s, 93 + endpointLen, 32);
    var endpoint := Subarray(data, offset, endpointLen);
    offset := offset + endpointLen;
    var tee := HexFromBytes(Subarray(data, offset, 16));
    offset := offset + 16;
    var code := HexFromBytes(Subarray(data, offset, 32));
    offset := offset + 32;
    var attestation := HexFromBytes(Subarray(data, offset, 32));
    offset := offset + 32;
    var key := Base64FromBytes(Subarray(data, offset, 32));
    offset := offset + 32;
    ghost var state := Tail(s, offset);
    if offset + 8 > data.Length { return None; }
    var registeredAt := Signed(FromLE(data[offset..offset + 8]));
    assert state[..8] == data[offset..offset + 8];
    offset := offset + 8;
    if offset + 8 > data.Length { return None; }
    var lastHeartbeat := Signed(FromLE(data[offset..offset + 8]));
    assert state[8..16] == data[offset..offset + 8];
    offset := offset + 8;
    if offset + 1 > data.Length { return None; }
    var active := data[offset] != 0;
    r := Some(View(entityType == 0, endpoint, tee, code, attestation, key, registeredAt, lastHeartbeat, active));
  }

  // ---------------------------------------------------------------- The program's account

  /** The mutable entry of the program, one field per field of the struct. */
  class EntryAccount {
    var entityType: byte
    var endpoint: seq<byte>
    var tee: seq<byte>
    var code: seq<byte>
    var attestation: seq<byte>
    var key: seq<byte>
    var registeredAt: int64
    var lastHeartbeat: int64
    var active: bool
    var bump: byte

    function Contents(): Entry
      reads this
    {
      Entry(Identity(entityType, endpoint, tee, code, attestation, key), registeredAt, lastHeartbeat, active, bump)
    }

    /** Loading and initialising the account is the framework's part. */
    constructor (e: Entry)
      ensures Contents() == e
    {
      entityType, endpoint, tee, code := e.id.entityType, e.id.endpoint, e.id.tee, e.id.code;
      attestation, key, registeredAt := e.id.attestation, e.id.key, e.registeredAt;
      lastHeartbeat, active, bump := e.lastHeartbeat, e.active, e.bump;
    }

    method Register(id: Identity, now: int64, bumpSeed: byte) returns (ok: bool)
      modifies this
      ensures var after := Perform(Some(old(Contents())), Instruction.Register(id, bumpSeed), now);
              ok == after.Some? && Contents() == (if ok then after.value else old(Contents()))
      ensures ok <==> |id.endpoint| <= 256 && id.entityType <= 1
      ensures ok ==> Contents() == Entry(id, now, now, true, bumpSeed)
    {
      if |id.endpoint| > MAX_ENDPOINT_LEN { return false; }
      if id.entityType > 1 { return false; }
      entityType := id.entityType;
      endpoint := id.endpoint;
      tee := id.tee;
      code := id.code;
      attestation := id.attestation;
      key := id.key;
      registeredAt := now;
      lastHeartbeat := now;
      active := true;
      bump := bumpSeed;
      return true;
    }

    method Heartbeat(now: int64) returns (ok: bool)
      modifies this`lastHeartbeat
      ensures var after := Perform(Some(old(Contents())), Instruction.Heartbeat, now);
              ok == after.Some? && Contents() == (if ok then after.value else old(Contents()))
      ensures ok == active && lastHeartbeat == if ok then now else old(lastHeartbeat)
    {
      if !active { return false; }
      lastHeartbeat := now;
      return true;
    }

    method UpdateEndpoint(newEndpoint: seq<byte>, now: int64) returns (ok: bool)
      modifies this`endpoint
      ensures var after := Perform(Some(old(Contents())), Instruction.UpdateEndpoint(newEndpoint), now);
              ok == after.Some? && Contents() == (if ok then after.value else old(Contents()))
      ensures ok == (active && |newEndpoint| <= 256) && endpoint == if ok then newEndpoint else old(endpoint)
    {
      if |newEndpoint| > MAX_ENDPOINT_LEN { return false; }
      if !active { return false; }
      endpoint := newEndpoint;
      return true;
    }

    method UpdateAttestation(hash: seq<byte>, now: int64) returns (ok: bool)
      modifies this`attestation
      ensures var after := Perform(Some(old(Contents())), Instruction.UpdateAttestation(hash), now);
              ok == after.Some? && Contents() == (if ok then after.value else old(Contents()))
      ensures ok == active && attestation == if ok then hash else old(attestation)
    {
      if !active { return false; }
      attestation := hash;
      return true;
    }

    method Deactivate(now: int64) returns (ok: bool)
      modifies this`active
      ensures var after := Perform(Some(old(Contents())), Instruction.Deactivate, now);
              ok == after.Some? && Contents() == (if ok then after.value else old(Contents()))
      ensures ok && !active
    {
      active := false;
      return true;
    }
  }
}
