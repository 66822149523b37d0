/** The text protocol of the group chat: nineteen kinds of message, printed and parsed. */
module TelegramProtocol {
  import opened Wrappers
  import opened Decimal

  // ---------------------------------------------------------------- Text

  /** White space as `\s` and `trim` understand it. */
  predicate IsSpace(c: char) {
    var n := c as int;
    9 <= n <= 13 || n == 32 || n == 0xA0 || n == 0x1680 || 0x2000 <= n <= 0x200A
    || n == 0x2028 || n == 0x2029 || n == 0x202F || n == 0x205F || n == 0x3000 || n == 0xFEFF
  }

  predicate NoSpace(s: string) {
    forall i :: 0 <= i < |s| ==> !IsSpace(s[i])
  }

  /** What a field value must be to survive the trip. */
  predicate Clean(s: string) { s != "" && NoSpace(s) }

  function TrimStart(s: string): string {
    if s != "" && IsSpace(s[0]) then TrimStart(s[1..]) else s
  }

  function TrimEnd(s: string): string {
    if s != "" && IsSpace(s[|s| - 1]) then TrimEnd(s[..|s| - 1]) else s
  }

  function Trim(s: string): string { TrimEnd(TrimStart(s)) }

  /** The longest prefix without white space. */
  function Word(s: string): string {
    if s == "" || IsSpace(s[0]) then "" else [s[0]] + Word(s[1..])
  }

  /** The longest prefix of digits. */
  function Digits(s: string): (d: string)
    ensures AllDigits(d) && |d| <= |s|
  {
    if s == "" || !IsDigit(s[0]) then "" else [s[0]] + Digits(s[1..])
  }

  // ---------------------------------------------------------------- Extraction

  /**
   * The leftmost place where `key=` stands at the start or after white space and what
   * follows can be read.
   */
  function Find<T>(text: string, key: string, boundary: bool, read: string -> Option<T>): Option<T>
    decreases |text|
  {
    if boundary && key + "=" <= text && read(text[|key| + 1..]).Some? then read(text[|key| + 1..])
    else if text == "" then None
    else Find(text[1..], key, IsSpace(text[0]), read)
  }

  function ReadWord(s: string): Option<string> {
    if Word(s) == "" then None else Some(Word(s))
  }

  function Pow10(n: nat): nat { if n == 0 then 1 else 10 * Pow10(n - 1) }

  lemma {:induction false} Pow10Positive(n: nat)
    ensures Pow10(n) > 0
  {
    if n == 0 {
    } else {
      Pow10Positive(n - 1);
    }
  }

  /** Digits, an optional fraction, and a percent sign. */
  function ReadPercent(s: string): Option<real> {
    var d := Digits(s);
    if d == "" then None
    else
      var rest := s[|d|..];
      if rest != "" && rest[0] == '%' then Some(Value(d) as real)
      else if rest != "" && rest[0] == '.' then
        var f := Digits(rest[1..]);
        var last := rest[1 + |f|..];
        Pow10Positive(|f|);
        if f != "" && last != "" && last[0] == '%' then Some(Value(d) as real + Value(f) as real / Pow10(|f|) as real)
        else None
      else None
  }

  function ExtractField(text: string, key: string): Option<string> {
    Find(text, key, true, ReadWord)
  }

  function ExtractPercentField(text: string, key: string): Option<real> {
    Find(text, key, true, ReadPercent)
  }

  /** `Number(text)` of a digit string; of any other text the value is left unread. */
  datatype Number = Natural(n: nat) | Other(text: string)

  function ReadNumber(s: string): Number {
    if s != "" && AllDigits(s) then Natural(Value(s)) else Other(s)
  }

  // ---------------------------------------------------------------- Printing fields

  type Field = (string, string)

  /** ` key=value` for each field. */
  function Fields(kvs: seq<Field>): string {
    if kvs == [] then "" else " " + kvs[0].0 + "=" + kvs[0].1 + Fields(kvs[1..])
  }

  /** Every key the protocol uses is a string of ASCII letters. */
  predicate IsKey(s: string) {
    s != "" && forall i :: 0 <= i < |s| ==> 'A' <= s[i] <= 'z'
  }

  predicate Wellformed(kvs: seq<Field>) {
    && (forall i :: 0 <= i < |kvs| ==> IsKey(kvs[i].0) && Clean(kvs[i].1))
    && (forall i, j :: 0 <= i < j < |kvs| ==> kvs[i].0 != kvs[j].0)
  }

  /** Nothing is found inside a word that does not follow white space. */
  lemma {:induction false} SkipWord<T>(w: string, rest: string, key: string, read: string -> Option<T>)
    requires NoSpace(w)
    ensures Find(w + rest, key, false, read) == Find(rest, key, false, read)
  {
    if w == "" {
      assert w + rest == rest;
    } else {
      assert (w + rest)[1..] == w[1..] + rest;
      SkipWord(w[1..], rest, key, read);
    }
  }

  /** Two keys that both stop at the first equals sign are the same. */
  lemma KeyPrefix(key: string, k: string, rest: string)
    requires IsKey(key) && IsKey(k)
    ensures key + "=" <= k + "=" + rest <==> key == k
  {
    var text := k + "=" + rest;
    assert text[|k|] == '=' && forall i :: 0 <= i < |k| ==> text[i] == k[i] != '=';
    if key + "=" <= text {
      assert text[|key|] == '=' && forall i :: 0 <= i < |key| ==> text[i] == key[i] != '=';
      assert key == text[..|key|] && k == text[..|k|];
    }
    if key == k {
      assert key + "=" == text[..|key| + 1];
    }
  }

  /** The search steps over the blank in front of a field. */
  lemma StepIn<T>(chunk: string, key: string, boundary: bool, read: string -> Option<T>)
    requires IsKey(key)
    ensures Find(" " + chunk, key, boundary, read) == Find(chunk, key, true, read)
  {
    var text := " " + chunk;
    assert text[1..] == chunk;
    assert text[0] == ' ' && (key + "=")[0] == key[0];
  }

  /** The search steps over a field with another key. */
  lemma StepOver<T>(k: string, v: string, tail: string, key: string, read: string -> Option<T>)
    requires IsKey(k) && IsKey(key) && Clean(v) && key != k
    ensures Find(k + "=" + (v + tail), key, true, read) == Find(tail, key, false, read)
  {
    KeyPrefix(key, k, v + tail);
    var chunk, word := k + "=" + (v + tail), k[1..] + "=" + v;
    assert chunk[1..] == word + tail && !IsSpace(chunk[0]);
    SkipWord(word, tail, key, read);
  }

  /** A field value cannot be read as another key: the search finds the field it is asked for. */
  lemma {:induction false} FindField<T>(kvs: seq<Field>, i: nat, boundary: bool, read: string -> Option<T>)
    requires Wellformed(kvs) && i < |kvs|
    requires read(kvs[i].1 + Fields(kvs[i + 1..])).Some?
    ensures Find(Fields(kvs), kvs[i].0, boundary, read) == read(kvs[i].1 + Fields(kvs[i + 1..]))
  {
    hide IsKey, Clean;
    var key, k, v, tail := kvs[i].0, kvs[0].0, kvs[0].1, Fields(kvs[1..]);
    var chunk := k + "=" + (v + tail);
    assert Fields(kvs) == " " + chunk;
    StepIn(chunk, key, boundary, read);
    if i == 0 {
      assert key + "=" == chunk[..|key| + 1];
      assert chunk[|key| + 1..] == v + tail;
    } else {
      hide Find;
      StepOver(k, v, tail, key, read);
      assert kvs[1..][i - 1] == kvs[i] && kvs[1..][i..] == kvs[i + 1..];
      FindField(kvs[1..], i - 1, false, read);
    }
  }

  lemma {:induction false} WordOf(v: string, tail: string)
    requires NoSpace(v) && (tail == "" || IsSpace(tail[0]))
    ensures Word(v + tail) == v
  {
    if v == "" {
      assert v + tail == tail;
    } else {
      assert (v + tail)[1..] == v[1..] + tail;
      WordOf(v[1..], tail);
    }
  }

  lemma FieldFound(kvs: seq<Field>, i: nat)
    requires Wellformed(kvs) && i < |kvs|
    ensures ExtractField(Fields(kvs), kvs[i].0) == Some(kvs[i].1)
  {
    WordOf(kvs[i].1, Fields(kvs[i + 1..]));
    FindField(kvs, i, true, ReadWord);
  }

  // ---------------------------------------------------------------- Messages

  datatype Message =
    | AgentAnnounce(endpoint: string, teeId: string, codeHash: string)
    | GuardianAnnounce(address: string, endpoint: string, isSentry: bool)
    | DiscoverRequest
    | DiscoverResponse(address: string, endpoint: string, isSentry: bool)
    | ProposalNew(id: string, kind: string, percent: real, deadline: string)
    | ProposalResult(id: string, approved: bool, percent: real)
    | HeartbeatStatus(active: bool, uptime: Number)
    | AttestationRequest(peerId: string, pubkey: string)
    | AttestationVerified(peerId: string, pubkey: string, isSentry: bool)
    | AttestationRejected(peerId: string, reason: string)
    | VaultKeySent(toPeerId: string)
    | VaultKeyReceived(fromPeerId: string)
    | DbSyncSent(seq': Number, peers: Number, sizeKB: Number)
    | DbSyncReceived(fromPeerId: string, seq': Number)
    | DbSyncRejected(fromPeerId: string, reason: string)
    | RecoveryRequest(fromPeerId: string)
    | RecoveryServed(toPeerId: string, seq': Number)
    | TrustPeerAdded(peerId: string, isSentry: bool)
    | TrustPeerRemoved(peerId: string)

  datatype Kind =
    | KAgent | KGuardian | KRequest | KResponse | KNew | KResult | KHeartbeat
    | KAttestRequest | KAttestVerified | KAttestRejected | KVaultSent | KVaultReceived
    | KDbSent | KDbReceived | KDbRejected | KRecoveryRequest | KRecoveryServed | KPeerAdded | KPeerRemoved

  function Tag(k: Kind): string {
    match k
    case KAgent => "[ANNOUNCE:AGENT]"
    case KGuardian => "[ANNOUNCE:GUARDIAN]"
    case KRequest => "[DISCOVER:REQUEST]"
    case KResponse => "[DISCOVER:RESPONSE]"
    case KNew => "[PROPOSAL:NEW]"
    case KResult => "[PROPOSAL:RESULT]"
    case KHeartbeat => "[HEARTBEAT:STATUS]"
    case KAttestRequest => "[ATTESTATION:REQUEST]"
    case KAttestVerified => "[ATTESTATION:VERIFIED]"
    case KAttestRejected => "[ATTESTATION:REJECTED]"
    case KVaultSent => "[VAULT:KEY_SENT]"
    case KVaultReceived => "[VAULT:KEY_RECEIVED]"
    case KDbSent => "[DB:SYNC_SENT]"
    case KDbReceived => "[DB:SYNC_RECEIVED]"
    case KDbRejected => "[DB:SYNC_REJECTED]"
    case KRecoveryRequest => "[RECOVERY:REQUEST]"
    case KRecoveryServed => "[RECOVERY:SERVED]"
    case KPeerAdded => "[TRUST:PEER_ADDED]"
    case KPeerRemoved => "[TRUST:PEER_REMOVED]"
  }

  function KindOf(m: Message): Kind {
    match m
    case AgentAnnounce(_, _, _) => KAgent
    case GuardianAnnounce(_, _, _) => KGuardian
    case DiscoverRequest => KRequest
    case DiscoverResponse(_, _, _) => KResponse
    case ProposalNew(_, _, _, _) => KNew
    case ProposalResult(_, _, _) => KResult
    case HeartbeatStatus(_, _) => KHeartbeat
    case AttestationRequest(_, _) => KAttestRequest
    case AttestationVerified(_, _, _) => KAttestVerified
    case AttestationRejected(_, _) => KAttestRejected
    case VaultKeySent(_) => KVaultSent
    case VaultKeyReceived(_) => KVaultReceived
    case DbSyncSent(_, _, _) => KDbSent
    case DbSyncReceived(_, _) => KDbReceived
    case DbSyncRejected(_, _) => KDbRejected
    case RecoveryRequest(_) => KRecoveryRequest
    case RecoveryServed(_, _) => KRecoveryServed
    case TrustPeerAdded(_, _) => KPeerAdded
    case TrustPeerRemoved(_) => KPeerRemoved
  }

  // ---------------------------------------------------------------- Printing

  /** Percentages print exactly when they have at most one decimal. */
  predicate OneDecimal(p: real) {
    p >= 0.0 && (p * 10.0).Floor as real == p * 10.0
  }

  function PrintTenths(tenths: nat): string {
    Decimal.Print(tenths / 10) + (if tenths % 10 == 0 then "%" else "." + Decimal.Print(tenths % 10) + "%")
  }

  function PrintPercent(p: real): string
    requires OneDecimal(p)
  {
    PrintTenths((p * 10.0).Floor)
  }

  function PrintBool(b: bool): string { if b then "true" else "false" }

  function PrintNumber(n: Number): string
    requires n.Natural?
  {
    Decimal.Print(n.n)
  }

  /** Numbers are naturals and percentages have at most one decimal. */
  predicate Printable(m: Message) {
    match m
    case ProposalNew(_, _, p, _) => OneDecimal(p)
    case ProposalResult(_, _, p) => OneDecimal(p)
    case HeartbeatStatus(_, n) => n.Natural?
    case DbSyncSent(a, b, c) => a.Natural? && b.Natural? && c.Natural?
    case DbSyncReceived(_, n) => n.Natural?
    case RecoveryServed(_, n) => n.Natural?
    case _ => true
  }

  function FieldsOf(m: Message): seq<Field>
    requires Printable(m)
  {
    match m
    case AgentAnnounce(e, t, c) => [("endpoint", e), ("teeId", t), ("codeHash", c)]
    case GuardianAnnounce(a, e, s) => [("address", a), ("endpoint", e), ("sentry", PrintBool(s))]
    case DiscoverRequest => []
    case DiscoverResponse(a, e, s) => [("address", a), ("endpoint", e), ("sentry", PrintBool(s))]
    case ProposalNew(i, k, p, d) => [("id", i), ("type", k), ("threshold", PrintPercent(p)), ("deadline", d)]
    case ProposalResult(i, a, p) =>
      [("id", i), ("status", if a then "approved" else "rejected"), ("approval", PrintPercent(p))]
    case HeartbeatStatus(a, u) => [("active", PrintBool(a)), ("uptime", PrintNumber(u))]
    case AttestationRequest(p, k) => [("peerId", p), ("pubkey", k)]
    case AttestationVerified(p, k, s) => [("peerId", p), ("pubkey", k), ("sentry", PrintBool(s))]
    case AttestationRejected(p, r) => [("peerId", p), ("reason", r)]
    case VaultKeySent(p) => [("toPeerId", p)]
    case VaultKeyReceived(p) => [("fromPeerId", p)]
    case DbSyncSent(s, p, z) => [("seq", PrintNumber(s)), ("peers", PrintNumber(p)), ("sizeKB", PrintNumber(z))]
    case DbSyncReceived(p, s) => [("fromPeerId", p), ("seq", PrintNumber(s))]
    case DbSyncRejected(p, r) => [("fromPeerId", p), ("reason", r)]
    case RecoveryRequest(p) => [("fromPeerId", p)]
    case RecoveryServed(p, s) => [("toPeerId", p), ("seq", PrintNumber(s))]
    case TrustPeerAdded(p, s) => [("peerId", p), ("sentry", PrintBool(s))]
    case TrustPeerRemoved(p) => [("peerId", p)]
  }

  /** The nineteen `format` functions. */
  function Format(m: Message): string
    requires Printable(m)
  {
    Tag(KindOf(m)) + Fields(FieldsOf(m))
  }

  // ---------------------------------------------------------------- Parsing

  /** The chain of `startsWith` tests, in order; the discover request must match whole. */
  function Recognize(t: string): Option<Kind> {
    if Tag(KAgent) <= t then Some(KAgent)
    else if Tag(KGuardian) <= t then Some(KGuardian)
    else if t == Tag(KRequest) then Some(KRequest)
    else if Tag(KResponse) <= t then Some(KResponse)
    else if Tag(KNew) <= t then Some(KNew)
    else if Tag(KResult) <= t then Some(KResult)
    else if Tag(KHeartbeat) <= t then Some(KHeartbeat)
    else if Tag(KAttestRequest) <= t then Some(KAttestRequest)
    else if Tag(KAttestVerified) <= t then Some(KAttestVerified)
    else if Tag(KAttestRejected) <= t then Some(KAttestRejected)
    else if Tag(KVaultSent) <= t then Some(KVaultSent)
    else if Tag(KVaultReceived) <= t then Some(KVaultReceived)
    else if Tag(KDbSent) <= t then Some(KDbSent)
    else if Tag(KDbReceived) <= t then Some(KDbReceived)
    else if Tag(KDbRejected) <= t then Some(KDbRejected)
    else if Tag(KRecoveryRequest) <= t then Some(KRecoveryRequest)
    else if Tag(KRecoveryServed) <= t then Some(KRecoveryServed)
    else if Tag(KPeerAdded) <= t then Some(KPeerAdded)
    else if Tag(KPeerRemoved) <= t then Some(KPeerRemoved)
    else None
  }

  /** The fields a kind asks for; any one missing makes the message unreadable. */
  function ParseBody(k: Kind, r: string): Option<Message> {
    match k
    case KAgent =>
      var e, t, c := ExtractField(r, "endpoint"), ExtractField(r, "teeId"), ExtractField(r, "codeHash");
      if e.None? || t.None? || c.None? then None else Some(AgentAnnounce(e.value, t.value, c.value))
    case KGuardian =>
      var a, e, s := ExtractField(r, "address"), ExtractField(r, "endpoint"), ExtractField(r, "sentry");
      if a.None? || e.None? || s.None? then None else Some(GuardianAnnounce(a.value, e.value, s.value == "true"))
    case KRequest => Some(DiscoverRequest)
    case KResponse =>
      var a, e, s := ExtractField(r, "address"), ExtractField(r, "endpoint"), ExtractField(r, "sentry");
      if a.None? || e.None? || s.None? then None else Some(DiscoverResponse(a.value, e.value, s.value == "true"))
    case KNew =>
      var i, t, p, d := ExtractField(r, "id"), ExtractField(r, "type"),
                        ExtractPercentField(r, "threshold"), ExtractField(r, "deadline");
      if i.None? || t.None? || p.None? || d.None? then None else Some(ProposalNew(i.value, t.value, p.value, d.value))
    case KResult =>
      var i, s, p := ExtractField(r, "id"), ExtractField(r, "status"), ExtractPercentField(r, "approval");
      if i.None? || s.None? || p.None? || (s.value != "approved" && s.value != "rejected") then None
      else Some(ProposalResult(i.value, s.value == "approved", p.value))
    case KHeartbeat =>
      var a, u := ExtractField(r, "active"), ExtractField(r, "uptime");
      if a.None? || u.None? then None else Some(HeartbeatStatus(a.value == "true", ReadNumber(u.value)))
    case KAttestRequest =>
      var p, k := ExtractField(r, "peerId"), ExtractField(r, "pubkey");
      if p.None? || k.None? then None else Some(AttestationRequest(p.value, k.value))
    case KAttestVerified =>
      var p, k, s := ExtractField(r, "peerId"), ExtractField(r, "pubkey"), ExtractField(r, "sentry");
      if p.None? || k.None? || s.None? then None else Some(AttestationVerified(p.value, k.value, s.value == "true"))
    case KAttestRejected =>
      var p, t := ExtractField(r, "peerId"), ExtractField(r, "reason");
      if p.None? || t.None? then None else Some(AttestationRejected(p.value, t.value))
    case KVaultSent =>
      var p := ExtractField(r, "toPeerId");
      if p.None? then None else Some(VaultKeySent(p.value))
    case KVaultReceived =>
      var p := ExtractField(r, "fromPeerId");
      if p.None? then None else Some(VaultKeyReceived(p.value))
    case KDbSent =>
      var s, p, z := ExtractField(r, "seq"), ExtractField(r, "peers"), ExtractField(r, "sizeKB");
      if s.None? || p.None? || z.None? then None
      else Some(DbSyncSent(ReadNumber(s.value), ReadNumber(p.value), ReadNumber(z.value)))
    case KDbReceived =>
      var p, s := ExtractField(r, "fromPeerId"), ExtractField(r, "seq");
      if p.None? || s.None? then None else Some(DbSyncReceived(p.value, ReadNumber(s.value)))
    case KDbRejected =>
      var p, t := ExtractField(r, "fromPeerId"), ExtractField(r, "reason");
      if p.None? || t.None? then None else Some(DbSyncRejected(p.value, t.value))
    case KRecoveryRequest =>
      var p := ExtractField(r, "fromPeerId");
      if p.None? then None else Some(RecoveryRequest(p.value))
    case KRecoveryServed =>
      var p, s := ExtractField(r, "toPeerId"), ExtractField(r, "seq");
      if p.None? || s.None? then None else Some(RecoveryServed(p.value, ReadNumber(s.value)))
    case KPeerAdded =>
      var p, s := ExtractField(r, "peerId"), ExtractField(r, "sentry");
      if p.None? || s.None? then None else Some(TrustPeerAdded(p.value, s.value == "true"))
    case KPeerRemoved =>
      var p := ExtractField(r, "peerId");
      if p.None? then None else Some(TrustPeerRemoved(p.value))
  }

  lemma RecognizedIsPrefix(t: string)
    ensures Recognize(t).Some? ==> Tag(Recognize(t).value) <= t
  {
  }

  /** `parseProtocolMessage`. */
  function Parse(text: string): Option<Message> {
    var t := Trim(text);
    var k := Recognize(t);
    if k.None? then None
    else
      RecognizedIsPrefix(t);
      ParseBody(k.value, t[|Tag(k.value)|..])
  }

  // ---------------------------------------------------------------- Tags

  /** The second, third, twelfth and fourteenth letters of each tag. */
  function Letters(k: Kind): (char, char, char, char) {
    match k
    case KAgent => ('A', 'N', 'G', 'N')
    case KGuardian => ('A', 'N', 'U', 'R')
    case KRequest => ('D', 'I', 'E', 'U')
    case KResponse => ('D', 'I', 'E', 'P')
    case KNew => ('P', 'R', 'E', ']')
    case KResult => ('P', 'R', 'E', 'U')
    case KHeartbeat => ('H', 'E', 'S', 'A')
    case KAttestRequest => ('A', 'T', 'N', 'R')
    case KAttestVerified => ('A', 'T', 'N', 'V')
    case KAttestRejected => ('A', 'T', 'N', 'R')
    case KVaultSent => ('V', 'A', 'S', 'N')
    case KVaultReceived => ('V', 'A', 'R', 'C')
    case KDbSent => ('D', 'B', 'N', ']')
    case KDbReceived => ('D', 'B', 'C', 'I')
    case KDbRejected => ('D', 'B', 'J', 'C')
    case KRecoveryRequest => ('R', 'E', 'E', 'U')
    case KRecoveryServed => ('R', 'E', 'E', 'V')
    case KPeerAdded => ('T', 'R', '_', 'D')
    case KPeerRemoved => ('T', 'R', '_', 'E')
  }

  lemma LettersOfTag(k: Kind)
    ensures |Tag(k)| >= 14
    ensures Letters(k) == (Tag(k)[1], Tag(k)[2], Tag(k)[11], Tag(k)[13])
    ensures k.KAttestRequest? ==> |Tag(k)| > 15 && Tag(k)[15] == 'Q'
    ensures k.KAttestRejected? ==> |Tag(k)| > 15 && Tag(k)[15] == 'J'
  {
  }

  /** Only two tags share all four letters. */
  lemma LettersTell(j: Kind, k: Kind)
    requires Letters(j) == Letters(k)
    ensures j == k || {j, k} == {KAttestRequest, KAttestRejected}
  {
  }

  /** No tag is mistaken for another, whatever follows. */
  lemma TagIsUnmistakable(j: Kind, k: Kind, rest: string)
    ensures Tag(j) <= Tag(k) + rest <==> j == k
  {
    hide *;
    var text := Tag(k) + rest;
    if j == k {
      assert text[..|Tag(j)|] == Tag(j);
    } else if Tag(j) <= text {
      LettersOfTag(j);
      LettersOfTag(k);
      assert forall i :: 0 <= i < |Tag(j)| && i < |Tag(k)| ==> Tag(j)[i] == text[i] == Tag(k)[i];
      LettersTell(j, k);
      assert false;
    }
  }

  lemma TagFound(k: Kind, rest: string)
    requires k.KRequest? ==> rest == ""
    ensures Recognize(Tag(k) + rest) == Some(k)
  {
    hide Tag;
    forall j: Kind
      ensures Tag(j) <= Tag(k) + rest <==> j == k
    {
      TagIsUnmistakable(j, k, rest);
    }
    assert k.KRequest? ==> Tag(k) + rest == Tag(k);
  }

  // ---------------------------------------------------------------- Values

  lemma DigitsAreClean(s: string)
    requires AllDigits(s)
    ensures NoSpace(s)
  {
    assert forall i :: 0 <= i < |s| ==> IsDigit(s[i]);
  }

  lemma {:induction false} DigitsOf(d: string, tail: string)
    requires AllDigits(d) && (tail == "" || !IsDigit(tail[0]))
    ensures Digits(d + tail) == d
  {
    if d == "" {
      assert d + tail == tail;
    } else {
      assert (d + tail)[1..] == d[1..] + tail;
      DigitsOf(d[1..], tail);
    }
  }

  lemma NumberReadsBack(n: Number)
    requires n.Natural?
    ensures Clean(PrintNumber(n)) && ReadNumber(PrintNumber(n)) == n
  {
    Decimal.RoundTrip(n.n);
    DigitsAreClean(PrintNumber(n));
  }

  lemma {:induction false} DigitsAreLongest(s: string)
    ensures Digits(s) <= s && (|Digits(s)| < |s| ==> !IsDigit(s[|Digits(s)|]))
  {
    if s == "" || !IsDigit(s[0]) {
    } else {
      DigitsAreLongest(s[1..]);
    }
  }

  lemma ReadWhole(d: string, tail: string)
    requires d != "" && AllDigits(d)
    ensures ReadPercent(d + "%" + tail) == Some(Value(d) as real)
  {
    hide Decimal.Value;
    var text, rest := d + "%" + tail, "%" + tail;
    assert text == d + rest && text[|d|..] == rest;
    DigitsOf(d, rest);
  }

  lemma OneDigit()
    ensures Pow10(1) == 10
  {
    assert Pow10(1) == 10 * Pow10(0);
  }

  lemma ForTwoDigits()
    ensures Pow10(2) == 100
  {
    OneDigit();
    assert Pow10(2) == 10 * Pow10(1);
  }

  lemma ReadFraction(d: string, f: string, end: string)
    requires d != "" && AllDigits(d) && f != "" && AllDigits(f) && end != "" && end[0] == '%'
    ensures Pow10(|f|) > 0
    ensures ReadPercent(d + ("." + (f + end))) == Some(Value(d) as real + Value(f) as real / Pow10(|f|) as real)
  {
    hide Decimal.Value, Pow10, Digits;
    var rest := "." + (f + end);
    Pow10Positive(|f|);
    DigitsOf(d, rest);
    DigitsOf(f, end);
    assert (d + rest)[|d|..] == rest && rest[1..] == f + end && rest[1 + |f|..] == end;
  }

  lemma SignBehind(rest: string, f: string)
    requires |f| + 1 < |rest| && f <= rest[1..] && rest[0] == '.' && rest[1 + |f|] == '%'
    ensures rest == "." + f + ("%" + rest[2 + |f|..])
  {
    assert rest == [rest[0]] + rest[1..1 + |f|] + ([rest[1 + |f|]] + rest[2 + |f|..]);
  }

  /** Nothing else is a percentage: digits, perhaps a point and more digits, and the sign. */
  lemma PercentShape(s: string) returns (d: string, f: string, tail: string)
    requires ReadPercent(s).Some?
    ensures d != "" && AllDigits(d) && AllDigits(f)
    ensures s == d + ((if f == "" then "" else "." + f) + ("%" + tail))
    ensures f == "" ==> ReadPercent(s) == Some(Value(d) as real)
    ensures f != "" ==> Pow10(|f|) > 0
    ensures f != "" ==> ReadPercent(s) == Some(Value(d) as real + Value(f) as real / Pow10(|f|) as real)
  {
    hide Value, Pow10, Digits;
    DigitsAreLongest(s);
    d := Digits(s);
    var rest := s[|d|..];
    if rest[0] == '%' {
      f, tail := "", rest[1..];
      hide ReadPercent;
      assert rest == "" + ("%" + tail);
    } else {
      f := Digits(rest[1..]);
      Pow10Positive(|f|);
      DigitsAreLongest(rest[1..]);
      tail := rest[2 + |f|..];
      hide ReadPercent;
      SignBehind(rest, f);
    }
    assert s == d + rest;
  }

  lemma PercentPrints()
    ensures OneDecimal(50.0) && PrintPercent(50.0) == "50%"
    ensures OneDecimal(66.7) && PrintPercent(66.7) == "66.7%"
  {
    assert (50.0 * 10.0).Floor == 500 && (66.7 * 10.0).Floor == 667;
    Decimal.TwoDigits(50);
    Decimal.TwoDigits(66);
  }

  /** Two decimals are read as hundredths. */
  lemma TwoDecimals(a: nat, b: nat, tail: string)
    requires 10 <= b < 100
    ensures ReadPercent(Decimal.Print(a) + ("." + (Decimal.Print(b) + ("%" + tail))))
         == Some(a as real + b as real / 100.0)
  {
    hide ReadPercent, Value, AllDigits, Pow10, Decimal.Print;
    var d, f := Decimal.Print(a), Decimal.Print(b);
    Decimal.RoundTrip(a);
    Decimal.RoundTrip(b);
    Decimal.TwoDigits(b);
    ForTwoDigits();
    ReadFraction(d, f, "%" + tail);
    assert Pow10(|f|) == 100;
    assert Value(f) as real / Pow10(|f|) as real == b as real / 100.0;
  }

  /** A percentage with at most one decimal is read back exactly, whatever follows it. */
  lemma PercentReadsBack(p: real, tail: string)
    requires OneDecimal(p)
    ensures Clean(PrintPercent(p))
    ensures ReadPercent(PrintPercent(p) + tail) == Some(p)
  {
    hide ReadPercent, Decimal.Value, AllDigits;
    var tenths := (p * 10.0).Floor;
    var d, f := Decimal.Print(tenths / 10), Decimal.Print(tenths % 10);
    var text := PrintTenths(tenths);
    Decimal.RoundTrip(tenths / 10);
    Decimal.RoundTrip(tenths % 10);
    DigitsAreClean(d);
    DigitsAreClean(f);
    assert p == (tenths / 10) as real + (tenths % 10) as real / 10.0;
    if tenths % 10 == 0 {
      assert text == d + "%";
      ReadWhole(d, tail);
    } else {
      assert text + tail == d + ("." + (f + ("%" + tail)));
      OneDigit();
      ReadFraction(d, f, "%" + tail);
    }
  }

  lemma PercentFound(kvs: seq<Field>, i: nat, p: real)
    requires Wellformed(kvs) && i < |kvs| && OneDecimal(p) && kvs[i].1 == PrintPercent(p)
    ensures ExtractPercentField(Fields(kvs), kvs[i].0) == Some(p)
  {
    PercentReadsBack(p, Fields(kvs[i + 1..]));
    FindField(kvs, i, true, ReadPercent);
  }

  // ---------------------------------------------------------------- Round trip

  /** Every free-text field is non-empty and free of white space. */
  predicate CleanText(m: Message) {
    match m
    case AgentAnnounce(e, t, c) => Clean(e) && Clean(t) && Clean(c)
    case GuardianAnnounce(a, e, _) => Clean(a) && Clean(e)
    case DiscoverRequest => true
    case DiscoverResponse(a, e, _) => Clean(a) && Clean(e)
    case ProposalNew(i, k, _, d) => Clean(i) && Clean(k) && Clean(d)
    case ProposalResult(i, _, _) => Clean(i)
    case HeartbeatStatus(_, _) => true
    case AttestationRequest(p, k) => Clean(p) && Clean(k)
    case AttestationVerified(p, k, _) => Clean(p) && Clean(k)
    case AttestationRejected(p, r) => Clean(p) && Clean(r)
    case VaultKeySent(p) => Clean(p)
    case VaultKeyReceived(p) => Clean(p)
    case DbSyncSent(_, _, _) => true
    case DbSyncReceived(p, _) => Clean(p)
    case DbSyncRejected(p, r) => Clean(p) && Clean(r)
    case RecoveryRequest(p) => Clean(p)
    case RecoveryServed(p, _) => Clean(p)
    case TrustPeerAdded(p, _) => Clean(p)
    case TrustPeerRemoved(p) => Clean(p)
  }

  lemma {:induction false} WordIsClean(s: string)
    ensures NoSpace(Word(s))
  {
    if s != "" && !IsSpace(s[0]) {
      WordIsClean(s[1..]);
    }
  }

  /** Whatever text is searched, a value that is found is clean. */
  lemma {:induction false} FoundIsClean(text: string, key: string, boundary: bool)
    ensures var f := Find(text, key, boundary, ReadWord); f.Some? ==> Clean(f.value)
    decreases |text|
  {
    if boundary && key + "=" <= text {
      WordIsClean(text[|key| + 1..]);
    }
    if text == "" {
    } else {
      FoundIsClean(text[1..], key, IsSpace(text[0]));
    }
  }

  /** No text at all is read as a message with an empty or broken field. */
  lemma ParsedIsClean(text: string)
    ensures Parse(text).Some? ==> CleanText(Parse(text).value)
  {
    hide Recognize, Tag, Trim, Find, ReadNumber, ExtractPercentField, Clean;
    var t := Trim(text);
    if Recognize(t).Some? {
      RecognizedIsPrefix(t);
      var r := t[|Tag(Recognize(t).value)|..];
      forall key
        ensures ExtractField(r, key).Some? ==> Clean(ExtractField(r, key).value)
      {
        FoundIsClean(r, key, true);
      }
    }
  }

  lemma LongKeys()
    ensures IsKey("endpoint") && IsKey("codeHash") && IsKey("address") && IsKey("sentry") && IsKey("threshold")
    ensures IsKey("deadline") && IsKey("approval") && IsKey("toPeerId") && IsKey("fromPeerId")
  {
  }

  lemma ShortKeys()
    ensures IsKey("teeId") && IsKey("id") && IsKey("type") && IsKey("status") && IsKey("active") && IsKey("uptime")
    ensures IsKey("peerId") && IsKey("pubkey") && IsKey("reason") && IsKey("seq") && IsKey("peers") && IsKey("sizeKB")
  {
  }

  lemma FixedValues(b: bool)
    ensures Clean(PrintBool(b)) && Clean("approved") && Clean("rejected")
  {
  }

  /** What a message's own values print to is clean when its text is. */
  lemma ValuesAreClean(m: Message)
    requires Printable(m) && CleanText(m)
    ensures forall i :: 0 <= i < |FieldsOf(m)| ==> Clean(FieldsOf(m)[i].1)
  {
    hide Clean, OneDecimal, PrintPercent, PrintBool, PrintNumber;
    FixedValues(true);
    FixedValues(false);
    match m
    case ProposalNew(_, _, p, _) => PercentReadsBack(p, "");
    case ProposalResult(_, _, p) => PercentReadsBack(p, "");
    case HeartbeatStatus(_, n) => NumberReadsBack(n);
    case DbSyncSent(a, b, c) => NumberReadsBack(a); NumberReadsBack(b); NumberReadsBack(c);
    case DbSyncReceived(_, n) => NumberReadsBack(n);
    case RecoveryServed(_, n) => NumberReadsBack(n);
    case _ =>
  }

  lemma FieldsAreWellformed(m: Message)
    requires Printable(m) && CleanText(m)
    ensures Wellformed(FieldsOf(m))
  {
    ValuesAreClean(m);
    hide Clean, CleanText, OneDecimal, PrintPercent, PrintBool, PrintNumber, IsKey;
    LongKeys();
    ShortKeys();
  }

  lemma {:induction false} LastOfFields(kvs: seq<Field>)
    requires Wellformed(kvs) && kvs != []
    ensures var s := Fields(kvs); s != "" && !IsSpace(s[|s| - 1])
  {
    var s, tail := Fields(kvs), Fields(kvs[1..]);
    if |kvs| > 1 {
      LastOfFields(kvs[1..]);
      assert s[|s| - 1] == tail[|tail| - 1];
    } else {
      assert tail == "";
      assert s[|s| - 1] == kvs[0].1[|kvs[0].1| - 1];
    }
  }

  lemma TagEdges(k: Kind)
    ensures Tag(k) != "" && Tag(k)[0] == '[' && Tag(k)[|Tag(k)| - 1] == ']'
  {
  }

  lemma NothingToTrim(m: Message)
    requires Printable(m) && Wellformed(FieldsOf(m))
    ensures Trim(Format(m)) == Format(m)
  {
    hide Tag, Wellformed, FieldsOf;
    var tag, fields := Tag(KindOf(m)), Fields(FieldsOf(m));
    var s := tag + fields;
    TagEdges(KindOf(m));
    if FieldsOf(m) != [] {
      LastOfFields(FieldsOf(m));
      assert s[|s| - 1] == fields[|fields| - 1];
    }
    assert s[0] == '[' && !IsSpace(s[0]) && !IsSpace(s[|s| - 1]);
  }

  lemma BoolReadsBack(b: bool)
    ensures (PrintBool(b) == "true") == b
  {
  }

  predicate Announces(m: Message) {
    m.AgentAnnounce? || m.GuardianAnnounce? || m.DiscoverRequest? || m.DiscoverResponse? || m.ProposalNew?
    || m.ProposalResult? || m.HeartbeatStatus? || m.TrustPeerAdded? || m.TrustPeerRemoved?
  }

  lemma FieldsFound(kvs: seq<Field>)
    requires Wellformed(kvs)
    ensures forall i :: 0 <= i < |kvs| ==> ExtractField(Fields(kvs), kvs[i].0) == Some(kvs[i].1)
  {
    forall i | 0 <= i < |kvs|
      ensures ExtractField(Fields(kvs), kvs[i].0) == Some(kvs[i].1)
    {
      FieldFound(kvs, i);
    }
  }

  /** The parser asks each kind for the fields the printer wrote, and reads every one of them back. */
  lemma AnnouncementReadsBack(m: Message)
    requires Printable(m) && Wellformed(FieldsOf(m)) && Announces(m)
    ensures ParseBody(KindOf(m), Fields(FieldsOf(m))) == Some(m)
  {
    hide Wellformed, Fields, ExtractField, ExtractPercentField;
    hide OneDecimal, PrintPercent, PrintBool, PrintNumber, ReadNumber;
    var kvs := FieldsOf(m);
    FieldsFound(kvs);
    BoolReadsBack(true);
    BoolReadsBack(false);
    match m
    case AgentAnnounce(_, _, _) => assert kvs[0].0 == "endpoint" && kvs[1].0 == "teeId" && kvs[2].0 == "codeHash";
    case GuardianAnnounce(_, _, _) => assert kvs[0].0 == "address" && kvs[1].0 == "endpoint" && kvs[2].0 == "sentry";
    case DiscoverRequest =>
    case DiscoverResponse(_, _, _) => assert kvs[0].0 == "address" && kvs[1].0 == "endpoint" && kvs[2].0 == "sentry";
    case ProposalNew(_, _, p, _) =>
      PercentFound(kvs, 2, p);
      assert kvs[0].0 == "id" && kvs[1].0 == "type" && kvs[2].0 == "threshold" && kvs[3].0 == "deadline";
    case ProposalResult(_, _, p) =>
      PercentFound(kvs, 2, p);
      assert kvs[0].0 == "id" && kvs[1].0 == "status" && kvs[2].0 == "approval";
    case HeartbeatStatus(_, n) =>
      NumberReadsBack(n);
      assert kvs[0].0 == "active" && kvs[1].0 == "uptime";
    case TrustPeerAdded(_, _) => assert kvs[0].0 == "peerId" && kvs[1].0 == "sentry";
    case TrustPeerRemoved(_) => assert kvs[0].0 == "peerId";
  }

  lemma TrustEventReadsBack(m: Message)
    requires Printable(m) && Wellformed(FieldsOf(m)) && !Announces(m)
    ensures ParseBody(KindOf(m), Fields(FieldsOf(m))) == Some(m)
  {
    hide Wellformed, Fields, ExtractField, ExtractPercentField;
    hide OneDecimal, PrintPercent, PrintBool, PrintNumber, ReadNumber;
    var kvs := FieldsOf(m);
    FieldsFound(kvs);
    BoolReadsBack(true);
    BoolReadsBack(false);
    match m
    case AttestationRequest(_, _) => assert kvs[0].0 == "peerId" && kvs[1].0 == "pubkey";
    case AttestationVerified(_, _, _) => assert kvs[0].0 == "peerId" && kvs[1].0 == "pubkey" && kvs[2].0 == "sentry";
    case AttestationRejected(_, _) => assert kvs[0].0 == "peerId" && kvs[1].0 == "reason";
    case VaultKeySent(_) => assert kvs[0].0 == "toPeerId";
    case VaultKeyReceived(_) => assert kvs[0].0 == "fromPeerId";
    case DbSyncSent(a, b, c) =>
      NumberReadsBack(a);
      NumberReadsBack(b);
      NumberReadsBack(c);
      assert kvs[0].0 == "seq" && kvs[1].0 == "peers" && kvs[2].0 == "sizeKB";
    case DbSyncReceived(_, n) =>
      NumberReadsBack(n);
      assert kvs[0].0 == "fromPeerId" && kvs[1].0 == "seq";
    case DbSyncRejected(_, _) => assert kvs[0].0 == "fromPeerId" && kvs[1].0 == "reason";
    case RecoveryRequest(_) => assert kvs[0].0 == "fromPeerId";
    case RecoveryServed(_, n) =>
      NumberReadsBack(n);
      assert kvs[0].0 == "toPeerId" && kvs[1].0 == "seq";
  }

  lemma BodyReadsBack(m: Message)
    requires Printable(m) && Wellformed(FieldsOf(m))
    ensures ParseBody(KindOf(m), Fields(FieldsOf(m))) == Some(m)
  {
    hide *;
    if Announces(m) {
      AnnouncementReadsBack(m);
    } else {
      TrustEventReadsBack(m);
    }
  }

  lemma FormatParses(m: Message)
    requires Printable(m) && Trim(Format(m)) == Format(m)
    ensures Parse(Format(m)) == ParseBody(KindOf(m), Fields(FieldsOf(m)))
  {
    hide Trim, Recognize, Tag, ParseBody, Printable, IsSpace;
    var tag, fields := Tag(KindOf(m)), Fields(FieldsOf(m));
    TagFound(KindOf(m), fields);
    assert (tag + fields)[|tag|..] == fields;
  }

  /**
   * A message whose numbers are naturals and whose percentages have at most one decimal
   * survives printing and parsing exactly when its text fields are non-empty and have no white space.
   */
  lemma RoundTrip(m: Message)
    requires Printable(m)
    ensures Parse(Format(m)) == Some(m) <==> CleanText(m)
  {
    hide *;
    ParsedIsClean(Format(m));
    if CleanText(m) {
      FieldsAreWellformed(m);
      NothingToTrim(m);
      BodyReadsBack(m);
      FormatParses(m);
    }
  }

  // ---------------------------------------------------------------- Reasons in words

  lemma {:induction false} WordWithoutBlank(s: string, c: char)
    requires IsSpace(c)
    ensures Word(s + [c]) == Word(s)
  {
    if s == "" {
    } else {
      assert (s + [c])[1..] == s[1..] + [c];
      WordWithoutBlank(s[1..], c);
    }
  }

  /** Trimming the end of a text that does not begin with a blank keeps its first word. */
  lemma {:induction false} TrimKeepsWord(front: string, s: string)
    requires s != "" && !IsSpace(s[0])
    ensures TrimEnd(front + s) == front + TrimEnd(s) && Word(TrimEnd(s)) == Word(s)
  {
    var n := |s| - 1;
    if IsSpace(s[n]) {
      assert (front + s)[..|front + s| - 1] == front + s[..n];
      assert s == s[..n] + [s[n]];
      TrimKeepsWord(front, s[..n]);
      WordWithoutBlank(s[..n], s[n]);
    } else {
      assert (front + s)[|front + s| - 1] == s[n];
    }
  }

  lemma FoundHere<T>(key: string, rest: string, read: string -> Option<T>)
    requires read(rest).Some?
    ensures Find(key + "=" + rest, key, true, read) == read(rest)
  {
    var text := key + "=" + rest;
    assert text[..|key| + 1] == key + "=" && text[|key| + 1..] == rest;
  }

  lemma WordOfPeer(peer: string, tail: string)
    requires Clean(peer) && tail != "" && IsSpace(tail[0])
    ensures ReadWord(peer + tail) == Some(peer)
  {
    WordOf(peer, tail);
  }

  /** The two fields of a rejection, whatever the reason says. */
  lemma RejectionFields(peer: string, reason: string)
    requires Clean(peer) && Word(reason) != ""
    ensures var text := " " + ("fromPeerId=" + (peer + (" " + ("reason=" + reason))));
      ParseBody(KDbRejected, text) == Some(DbSyncRejected(peer, Word(reason)))
  {
    LongKeys();
    ShortKeys();
    hide IsKey, Clean, Word, Find;
    var tail := " " + ("reason=" + reason);
    var chunk := "fromPeerId=" + (peer + tail);
    assert "fromPeerId" + "=" == "fromPeerId=" && "reason" + "=" == "reason=";
    assert IsSpace(tail[0]);
    WordOfPeer(peer, tail);
    StepIn(chunk, "fromPeerId", true, ReadWord);
    FoundHere("fromPeerId", peer + tail, ReadWord);
    StepIn(chunk, "reason", true, ReadWord);
    StepOver("fromPeerId", peer, tail, "reason", ReadWord);
    StepIn("reason=" + reason, "reason", false, ReadWord);
    FoundHere("reason", reason, ReadWord);
  }

  lemma ParseTrimmed(text: string, k: Kind, rest: string)
    requires Trim(text) == Tag(k) + rest && !k.KRequest?
    ensures Parse(text) == ParseBody(k, rest)
  {
    hide Trim, Recognize, Tag, ParseBody;
    TagFound(k, rest);
    assert (Tag(k) + rest)[|Tag(k)|..] == rest;
  }

  lemma PrintedRejection(peer: string, reason: string)
    ensures Format(DbSyncRejected(peer, reason))
         == Tag(KDbRejected) + (" " + ("fromPeerId=" + (peer + " reason="))) + reason
  {
    hide Tag;
    var m := DbSyncRejected(peer, reason);
    var kvs := [("fromPeerId", peer), ("reason", reason)];
    assert kvs[1..] == [("reason", reason)] && kvs[1..][1..] == [];
    assert Fields(kvs[1..]) == " " + "reason" + "=" + reason;
    assert FieldsOf(m) == kvs;
    assert Fields(kvs) == (" " + ("fromPeerId=" + (peer + " reason="))) + reason;
  }

  lemma StartIsKept(front: string, s: string)
    requires front != "" && front[0] == '['
    ensures Trim(front + s) == TrimEnd(front + s)
  {
    assert (front + s)[0] == '[';
  }

  lemma Regrouped(tag: string, peer: string, reason: string)
    ensures tag + (" " + ("fromPeerId=" + (peer + " reason="))) + reason
         == tag + (" " + ("fromPeerId=" + (peer + (" " + ("reason=" + reason)))))
  {
    assert " reason=" + reason == " " + ("reason=" + reason);
    assert (peer + " reason=") + reason == peer + (" reason=" + reason);
  }

  lemma WordBegins(s: string)
    requires Word(s) != ""
    ensures s != "" && !IsSpace(s[0])
  {
  }

  /** A rejection with a reason in words is read back with the reason cut at its first blank. */
  lemma ReasonIsCut(peer: string, reason: string)
    requires Clean(peer) && Word(reason) != ""
    ensures Parse(Format(DbSyncRejected(peer, reason))) == Some(DbSyncRejected(peer, Word(reason)))
  {
    hide *;
    var front := Tag(KDbRejected) + (" " + ("fromPeerId=" + (peer + " reason=")));
    var text, cut := front + reason, TrimEnd(reason);
    TagEdges(KDbRejected);
    WordBegins(reason);
    TrimKeepsWord(front, reason);
    PrintedRejection(peer, reason);
    StartIsKept(front, reason);
    Regrouped(Tag(KDbRejected), peer, cut);
    RejectionFields(peer, cut);
    ParseTrimmed(text, KDbRejected, " " + ("fromPeerId=" + (peer + (" " + ("reason=" + cut)))));
  }

  const CHECKSUM_MISMATCH := "Checksum mismatch after decryption"

  lemma FirstWord(s: string, n: nat)
    requires n < |s| && IsSpace(s[n]) && NoSpace(s[..n])
    ensures Word(s) == s[..n]
  {
    assert s == s[..n] + s[n..];
    WordOf(s[..n], s[n..]);
  }

  lemma SpokenReason()
    ensures !Clean(CHECKSUM_MISMATCH) && Word(CHECKSUM_MISMATCH) == "Checksum"
  {
    assert IsSpace(CHECKSUM_MISMATCH[8]);
    assert CHECKSUM_MISMATCH[..8] == "Checksum";
    FirstWord(CHECKSUM_MISMATCH, 8);
  }

  /** What the receiver of snapshots publishes for a bad checksum is read back as one word. */
  lemma SpokenReasonIsCut(peer: string)
    ensures var m := DbSyncRejected(peer, CHECKSUM_MISMATCH);
      && Printable(m) && Parse(Format(m)) != Some(m)
      && (Clean(peer) ==> Parse(Format(m)) == Some(DbSyncRejected(peer, "Checksum")))
  {
    hide Clean, Format, Parse, Word;
    SpokenReason();
    RoundTrip(DbSyncRejected(peer, CHECKSUM_MISMATCH));
    if Clean(peer) {
      ReasonIsCut(peer, CHECKSUM_MISMATCH);
    }
  }

  // ---------------------------------------------------------------- What the parser accepts

  /** `key=` stands at `i`, at a boundary, and what follows can be read. */
  predicate ReadableAt<T>(text: string, key: string, boundary: bool, read: string -> Option<T>, i: nat) {
    && i + |key| + 1 <= |text| && text[i..i + |key| + 1] == key + "="
    && (if i == 0 then boundary else IsSpace(text[i - 1]))
    && read(text[i + |key| + 1..]).Some?
  }

  lemma PrefixHere(text: string, key: string)
    ensures key + "=" <= text <==> |key| + 1 <= |text| && text[0..|key| + 1] == key + "="
  {
  }

  lemma OneFurther<T>(text: string, key: string, boundary: bool, read: string -> Option<T>, j: nat)
    requires text != "" && j > 0
    ensures ReadableAt(text, key, boundary, read, j)
      <==> ReadableAt(text[1..], key, IsSpace(text[0]), read, j - 1)
  {
    var n := |key| + 1;
    if j + n <= |text| {
      assert text[1..][j - 1..j - 1 + n] == text[j..j + n];
      assert text[1..][j - 1 + n..] == text[j + n..];
    }
  }

  /** The search finds the leftmost place that can be read, and nothing exactly when there is none. */
  lemma {:induction false} FindIsLeftmost<T>(text: string, key: string, boundary: bool, read: string -> Option<T>)
    returns (i: nat)
    ensures Find(text, key, boundary, read).None? ==> forall j :: !ReadableAt(text, key, boundary, read, j)
    ensures Find(text, key, boundary, read).Some? ==>
      && ReadableAt(text, key, boundary, read, i)
      && Find(text, key, boundary, read) == read(text[i + |key| + 1..])
      && forall j :: 0 <= j < i ==> !ReadableAt(text, key, boundary, read, j)
    decreases |text|
  {
    i := 0;
    PrefixHere(text, key);
    if boundary && key + "=" <= text && read(text[|key| + 1..]).Some? {
    } else if text == "" {
    } else {
      i := FindIsLeftmost(text[1..], key, IsSpace(text[0]), read);
      forall j: nat | j > 0
        ensures ReadableAt(text, key, boundary, read, j)
          <==> ReadableAt(text[1..], key, IsSpace(text[0]), read, j - 1)
      {
        OneFurther(text, key, boundary, read, j);
      }
      i := i + 1;
    }
  }

  /** A word ends at the first white space. */
  lemma {:induction false} WordIsLongest(s: string)
    ensures Word(s) <= s && NoSpace(Word(s)) && (|Word(s)| < |s| ==> IsSpace(s[|Word(s)|]))
  {
    if s == "" || IsSpace(s[0]) {
    } else {
      WordIsLongest(s[1..]);
      assert s == [s[0]] + s[1..];
    }
  }

  lemma {:induction false} TrimStartCuts(s: string) returns (before: string)
    ensures s == before + TrimStart(s) && forall i :: 0 <= i < |before| ==> IsSpace(before[i])
    ensures TrimStart(s) != "" ==> !IsSpace(TrimStart(s)[0])
  {
    hide IsSpace;
    if s != "" && IsSpace(s[0]) {
      assert TrimStart(s) == TrimStart(s[1..]);
      var rest := TrimStartCuts(s[1..]);
      before := [s[0]] + rest;
      hide TrimStart;
      assert s == [s[0]] + (rest + TrimStart(s[1..])) == before + TrimStart(s[1..]);
    } else {
      before := "";
    }
  }

  lemma {:induction false} TrimEndCuts(s: string)
    ensures TrimEnd(s) <= s && forall i :: |TrimEnd(s)| <= i < |s| ==> IsSpace(s[i])
    ensures TrimEnd(s) != "" ==> !IsSpace(TrimEnd(s)[|TrimEnd(s)| - 1])
  {
    hide IsSpace;
    if s != "" && IsSpace(s[|s| - 1]) {
      TrimEndCuts(s[..|s| - 1]);
    }
  }

  /** Trimming cuts white space off both ends and nothing else. */
  lemma TrimCuts(s: string) returns (before: string, after: string)
    ensures s == before + Trim(s) + after
    ensures forall i :: 0 <= i < |before| ==> IsSpace(before[i])
    ensures forall i :: 0 <= i < |after| ==> IsSpace(after[i])
    ensures var t := Trim(s); t != "" ==> !IsSpace(t[0]) && !IsSpace(t[|t| - 1])
  {
    hide IsSpace, TrimStart, TrimEnd;
    before := TrimStartCuts(s);
    var rest := TrimStart(s);
    TrimEndCuts(rest);
    after := rest[|TrimEnd(rest)|..];
    assert rest == TrimEnd(rest) + after;
    assert TrimEnd(rest) != "" ==> TrimEnd(rest)[0] == rest[0];
  }

  /** Exactly one of the tests of the parser succeeds on a text that begins with a tag. */
  lemma RecognizesTag(t: string, k: Kind)
    ensures Recognize(t) == Some(k) <==> Tag(k) <= t && (k.KRequest? ==> t == Tag(KRequest))
  {
    RecognizedIsPrefix(t);
    hide Tag;
    if Tag(k) <= t && (k.KRequest? ==> t == Tag(KRequest)) {
      var rest := t[|Tag(k)|..];
      assert t == Tag(k) + rest;
      TagFound(k, rest);
    }
  }

  predicate IsTrue(found: Option<string>, b: bool) { found.Some? && b == (found.value == "true") }

  predicate IsNumber(found: Option<string>, n: Number) { found.Some? && n == ReadNumber(found.value) }

  /** Every field of the message stands in the text under its own key. */
  predicate Reads(m: Message, r: string) {
    match m
    case AgentAnnounce(e, t, c) =>
      && ExtractField(r, "endpoint") == Some(e) && ExtractField(r, "teeId") == Some(t)
      && ExtractField(r, "codeHash") == Some(c)
    case GuardianAnnounce(a, e, s) =>
      && ExtractField(r, "address") == Some(a) && ExtractField(r, "endpoint") == Some(e)
      && IsTrue(ExtractField(r, "sentry"), s)
    case DiscoverRequest => true
    case DiscoverResponse(a, e, s) =>
      && ExtractField(r, "address") == Some(a) && ExtractField(r, "endpoint") == Some(e)
      && IsTrue(ExtractField(r, "sentry"), s)
    case ProposalNew(i, k, p, d) =>
      && ExtractField(r, "id") == Some(i) && ExtractField(r, "type") == Some(k)
      && ExtractPercentField(r, "threshold") == Some(p) && ExtractField(r, "deadline") == Some(d)
    case ProposalResult(i, a, p) =>
      && ExtractField(r, "id") == Some(i)
      && ExtractField(r, "status") == Some(if a then "approved" else "rejected")
      && ExtractPercentField(r, "approval") == Some(p)
    case HeartbeatStatus(a, u) => IsTrue(ExtractField(r, "active"), a) && IsNumber(ExtractField(r, "uptime"), u)
    case AttestationRequest(p, k) => ExtractField(r, "peerId") == Some(p) && ExtractField(r, "pubkey") == Some(k)
    case AttestationVerified(p, k, s) =>
      && ExtractField(r, "peerId") == Some(p) && ExtractField(r, "pubkey") == Some(k)
      && IsTrue(ExtractField(r, "sentry"), s)
    case AttestationRejected(p, w) => ExtractField(r, "peerId") == Some(p) && ExtractField(r, "reason") == Some(w)
    case VaultKeySent(p) => ExtractField(r, "toPeerId") == Some(p)
    case VaultKeyReceived(p) => ExtractField(r, "fromPeerId") == Some(p)
    case DbSyncSent(s, p, z) =>
      && IsNumber(ExtractField(r, "seq"), s) && IsNumber(ExtractField(r, "peers"), p)
      && IsNumber(ExtractField(r, "sizeKB"), z)
    case DbSyncReceived(p, s) => ExtractField(r, "fromPeerId") == Some(p) && IsNumber(ExtractField(r, "seq"), s)
    case DbSyncRejected(p, w) => ExtractField(r, "fromPeerId") == Some(p) && ExtractField(r, "reason") == Some(w)
    case RecoveryRequest(p) => ExtractField(r, "fromPeerId") == Some(p)
    case RecoveryServed(p, s) => ExtractField(r, "toPeerId") == Some(p) && IsNumber(ExtractField(r, "seq"), s)
    case TrustPeerAdded(p, s) => ExtractField(r, "peerId") == Some(p) && IsTrue(ExtractField(r, "sentry"), s)
    case TrustPeerRemoved(p) => ExtractField(r, "peerId") == Some(p)
  }

  lemma StatusWords(s: string)
    ensures "approved" != "rejected"
    ensures s == "approved" ==> s != "rejected"
  {
    assert |"approved"| == |"rejected"| == 8 && "approved"[0] == 'a' && "rejected"[0] == 'r';
  }

  lemma BodyReads(k: Kind, r: string, m: Message)
    ensures ParseBody(k, r) == Some(m) <==> KindOf(m) == k && Reads(m, r)
  {
    hide ExtractField, ExtractPercentField, ReadNumber;
    StatusWords("");
  }

  /**
   * What the parser answers to any text at all: a message exactly when the trimmed text
   * begins with its tag (and is nothing but the tag for a discover request) and every field
   * stands behind the tag under its own key.
   */
  lemma ParseExactly(text: string, m: Message)
    ensures Parse(text) == Some(m) <==>
      var tag, t := Tag(KindOf(m)), Trim(text);
      tag <= t && (m.DiscoverRequest? ==> t == tag) && Reads(m, t[|tag|..])
  {
    hide Tag, Trim, Recognize, ParseBody, Reads;
    var k, t := KindOf(m), Trim(text);
    RecognizesTag(t, k);
    RecognizedIsPrefix(t);
    if Recognize(t).Some? {
      BodyReads(Recognize(t).value, t[|Tag(Recognize(t).value)|..], m);
      RecognizesTag(t, Recognize(t).value);
    }
  }

  /** A text that begins with no tag is no message. */
  lemma NoTagNoMessage(text: string)
    requires forall k: Kind :: !(Tag(k) <= Trim(text))
    ensures Parse(text) == None
  {
    if Parse(text).Some? {
      ParseExactly(text, Parse(text).value);
      assert false;
    }
  }

  /** The keys of text fields that each kind asks for. */
  function KeysOf(k: Kind): set<string> {
    match k
    case KAgent => {"endpoint", "teeId", "codeHash"}
    case KGuardian => {"address", "endpoint", "sentry"}
    case KRequest => {}
    case KResponse => {"address", "endpoint", "sentry"}
    case KNew => {"id", "type", "deadline"}
    case KResult => {"id", "status"}
    case KHeartbeat => {"active", "uptime"}
    case KAttestRequest => {"peerId", "pubkey"}
    case KAttestVerified => {"peerId", "pubkey", "sentry"}
    case KAttestRejected => {"peerId", "reason"}
    case KVaultSent => {"toPeerId"}
    case KVaultReceived => {"fromPeerId"}
    case KDbSent => {"seq", "peers", "sizeKB"}
    case KDbReceived => {"fromPeerId", "seq"}
    case KDbRejected => {"fromPeerId", "reason"}
    case KRecoveryRequest => {"fromPeerId"}
    case KRecoveryServed => {"toPeerId", "seq"}
    case KPeerAdded => {"peerId", "sentry"}
    case KPeerRemoved => {"peerId"}
  }

  /** The rest of the text behind a kind's tag answers each of its keys, and well. */
  predicate Complete(k: Kind, r: string) {
    && (forall key :: key in KeysOf(k) ==> ExtractField(r, key).Some?)
    && (k.KNew? ==> ExtractPercentField(r, "threshold").Some?)
    && (k.KResult? ==> ExtractPercentField(r, "approval").Some?
                       && ExtractField(r, "status").Some?
                       && ExtractField(r, "status").value in {"approved", "rejected"})
  }

  lemma BodyIsComplete(k: Kind, r: string)
    ensures ParseBody(k, r).Some? <==> Complete(k, r)
  {
    hide ExtractField, ExtractPercentField, ReadNumber;
  }

  /**
   * A text is a message exactly when it begins with a tag and answers every key of that
   * kind: one missing key, an unreadable percentage or an unknown status makes it nothing.
   */
  lemma MessageExactly(text: string)
    ensures Parse(text).Some? <==>
      var t := Trim(text);
      exists k: Kind :: Tag(k) <= t && (k.KRequest? ==> t == Tag(k)) && Complete(k, t[|Tag(k)|..])
  {
    hide Tag, Trim, Recognize, ParseBody, Complete;
    var t := Trim(text);
    RecognizedIsPrefix(t);
    if Recognize(t).Some? {
      var k := Recognize(t).value;
      RecognizesTag(t, k);
      BodyIsComplete(k, t[|Tag(k)|..]);
    }
    forall k: Kind | Tag(k) <= t && (k.KRequest? ==> t == Tag(k))
      ensures Recognize(t) == Some(k)
    {
      RecognizesTag(t, k);
    }
  }

  /** Chat is not a message. */
  lemma ChatIsNoMessage()
    ensures Parse("hi") == None
  {
    var before, after := TrimCuts("hi");
    forall k: Kind
      ensures !(Tag(k) <= Trim("hi"))
    {
      hide Trim, Tag;
      LettersOfTag(k);
      assert |Trim("hi")| <= 2;
    }
    hide Parse, Tag, Trim;
    NoTagNoMessage("hi");
  }

  // ---------------------------------------------------------------- The wire text

  /** The templates of the nineteen printers, as they stand on the wire. */
  function Template(m: Message): string
    requires Printable(m)
  {
    match m
    case AgentAnnounce(e, t, c) => "[ANNOUNCE:AGENT] endpoint=" + e + " teeId=" + t + " codeHash=" + c
    case GuardianAnnounce(a, e, s) =>
      "[ANNOUNCE:GUARDIAN] address=" + a + " endpoint=" + e + " sentry=" + PrintBool(s)
    case DiscoverRequest => "[DISCOVER:REQUEST]"
    case DiscoverResponse(a, e, s) =>
      "[DISCOVER:RESPONSE] address=" + a + " endpoint=" + e + " sentry=" + PrintBool(s)
    case ProposalNew(i, k, p, d) =>
      "[PROPOSAL:NEW] id=" + i + " type=" + k + " threshold=" + PrintPercent(p) + " deadline=" + d
    case ProposalResult(i, a, p) =>
      "[PROPOSAL:RESULT] id=" + i + " status=" + (if a then "approved" else "rejected") + " approval=" + PrintPercent(p)
    case HeartbeatStatus(a, u) => "[HEARTBEAT:STATUS] active=" + PrintBool(a) + " uptime=" + PrintNumber(u)
    case AttestationRequest(p, k) => "[ATTESTATION:REQUEST] peerId=" + p + " pubkey=" + k
    case AttestationVerified(p, k, s) =>
      "[ATTESTATION:VERIFIED] peerId=" + p + " pubkey=" + k + " sentry=" + PrintBool(s)
    case AttestationRejected(p, r) => "[ATTESTATION:REJECTED] peerId=" + p + " reason=" + r
    case VaultKeySent(p) => "[VAULT:KEY_SENT] toPeerId=" + p
    case VaultKeyReceived(p) => "[VAULT:KEY_RECEIVED] fromPeerId=" + p
    case DbSyncSent(s, p, z) =>
      "[DB:SYNC_SENT] seq=" + PrintNumber(s) + " peers=" + PrintNumber(p) + " sizeKB=" + PrintNumber(z)
    case DbSyncReceived(p, s) => "[DB:SYNC_RECEIVED] fromPeerId=" + p + " seq=" + PrintNumber(s)
    case DbSyncRejected(p, r) => "[DB:SYNC_REJECTED] fromPeerId=" + p + " reason=" + r
    case RecoveryRequest(p) => "[RECOVERY:REQUEST] fromPeerId=" + p
    case RecoveryServed(p, s) => "[RECOVERY:SERVED] toPeerId=" + p + " seq=" + PrintNumber(s)
    case TrustPeerAdded(p, s) => "[TRUST:PEER_ADDED] peerId=" + p + " sentry=" + PrintBool(s)
    case TrustPeerRemoved(p) => "[TRUST:PEER_REMOVED] peerId=" + p
  }

  lemma OneField(tag: string, k: string, v: string)
    ensures tag + Fields([(k, v)]) == (tag + (" " + k + "=")) + v
  {
    assert Fields([]) == "";
  }

  lemma TwoFields(tag: string, a: Field, b: Field)
    ensures tag + Fields([a, b]) == (tag + (" " + a.0 + "=")) + a.1 + (" " + b.0 + "=") + b.1
  {
    assert [a, b][1..] == [b];
    OneField("", b.0, b.1);
    assert Fields([b]) == (" " + b.0 + "=") + b.1;
  }

  lemma ThreeFields(tag: string, a: Field, b: Field, c: Field)
    ensures tag + Fields([a, b, c])
         == (tag + (" " + a.0 + "=")) + a.1 + (" " + b.0 + "=") + b.1 + (" " + c.0 + "=") + c.1
  {
    assert [a, b, c][1..] == [b, c];
    TwoFields("", b, c);
    assert Fields([b, c]) == (" " + b.0 + "=") + b.1 + (" " + c.0 + "=") + c.1;
  }

  lemma Shift(x: string, y: string, z: string)
    ensures x + (y + z) == x + y + z
  {
  }

  lemma FirstField(a: Field, rest: seq<Field>)
    ensures Fields([a] + rest) == (" " + a.0 + "=") + a.1 + Fields(rest)
  {
    assert ([a] + rest)[1..] == rest;
  }

  lemma FourFields(tag: string, a: Field, b: Field, c: Field, d: Field)
    ensures tag + Fields([a, b, c, d])
         == (tag + (" " + a.0 + "=")) + a.1 + (" " + b.0 + "=") + b.1
             + (" " + c.0 + "=") + c.1 + (" " + d.0 + "=") + d.1
  {
    hide Fields;
    var h, s2, s3, s4 := " " + a.0 + "=", " " + b.0 + "=", " " + c.0 + "=", " " + d.0 + "=";
    var x := tag + h + a.1;
    FirstField(a, [b, c, d]);
    assert [a] + [b, c, d] == [a, b, c, d];
    Shift(tag, h + a.1, Fields([b, c, d]));
    Shift(tag, h, a.1);
    ThreeFields(x, b, c, d);
  }

  lemma Separators()
    ensures " " + "teeId" + "=" == " teeId="
    ensures " " + "codeHash" + "=" == " codeHash="
    ensures " " + "endpoint" + "=" == " endpoint="
    ensures " " + "sentry" + "=" == " sentry="
    ensures " " + "type" + "=" == " type="
    ensures " " + "threshold" + "=" == " threshold="
    ensures " " + "deadline" + "=" == " deadline="
    ensures " " + "status" + "=" == " status="
    ensures " " + "approval" + "=" == " approval="
    ensures " " + "uptime" + "=" == " uptime="
    ensures " " + "pubkey" + "=" == " pubkey="
    ensures " " + "reason" + "=" == " reason="
    ensures " " + "peers" + "=" == " peers="
    ensures " " + "sizeKB" + "=" == " sizeKB="
    ensures " " + "seq" + "=" == " seq="
  {
  }

  lemma AnnouncementHeads()
    ensures Tag(KAgent) + (" " + "endpoint" + "=") == "[ANNOUNCE:AGENT] endpoint="
    ensures Tag(KGuardian) + (" " + "address" + "=") == "[ANNOUNCE:GUARDIAN] address="
    ensures Tag(KResponse) + (" " + "address" + "=") == "[DISCOVER:RESPONSE] address="
    ensures Tag(KNew) + (" " + "id" + "=") == "[PROPOSAL:NEW] id="
    ensures Tag(KResult) + (" " + "id" + "=") == "[PROPOSAL:RESULT] id="
    ensures Tag(KHeartbeat) + (" " + "active" + "=") == "[HEARTBEAT:STATUS] active="
  {
  }

  lemma AttestationHeads()
    ensures Tag(KAttestRequest) + (" " + "peerId" + "=") == "[ATTESTATION:REQUEST] peerId="
    ensures Tag(KAttestVerified) + (" " + "peerId" + "=") == "[ATTESTATION:VERIFIED] peerId="
    ensures Tag(KAttestRejected) + (" " + "peerId" + "=") == "[ATTESTATION:REJECTED] peerId="
  {
  }

  lemma VaultHeads()
    ensures Tag(KVaultSent) + (" " + "toPeerId" + "=") == "[VAULT:KEY_SENT] toPeerId="
    ensures Tag(KVaultReceived) + (" " + "fromPeerId" + "=") == "[VAULT:KEY_RECEIVED] fromPeerId="
    ensures Tag(KDbSent) + (" " + "seq" + "=") == "[DB:SYNC_SENT] seq="
  {
  }

  lemma SyncHeads()
    ensures Tag(KDbReceived) + (" " + "fromPeerId" + "=") == "[DB:SYNC_RECEIVED] fromPeerId="
    ensures Tag(KDbRejected) + (" " + "fromPeerId" + "=") == "[DB:SYNC_REJECTED] fromPeerId="
    ensures Tag(KRecoveryRequest) + (" " + "fromPeerId" + "=") == "[RECOVERY:REQUEST] fromPeerId="
  {
  }

  lemma RecoveryHeads()
    ensures Tag(KRecoveryServed) + (" " + "toPeerId" + "=") == "[RECOVERY:SERVED] toPeerId="
    ensures Tag(KPeerAdded) + (" " + "peerId" + "=") == "[TRUST:PEER_ADDED] peerId="
    ensures Tag(KPeerRemoved) + (" " + "peerId" + "=") == "[TRUST:PEER_REMOVED] peerId="
  {
  }

  lemma AnnouncementIsTemplate(m: Message)
    requires Printable(m) && Announces(m) && !m.TrustPeerAdded? && !m.TrustPeerRemoved?
    ensures Format(m) == Template(m)
  {
    AnnouncementHeads();
    Separators();
    assert Tag(KRequest) + Fields([]) == "[DISCOVER:REQUEST]";
    hide Tag, Fields, OneDecimal, PrintPercent, PrintBool, PrintNumber;
    var f, tag := FieldsOf(m), Tag(KindOf(m));
    match m
    case AgentAnnounce(_, _, _) => ThreeFields(tag, f[0], f[1], f[2]);
    case GuardianAnnounce(_, _, _) => ThreeFields(tag, f[0], f[1], f[2]);
    case DiscoverRequest =>
    case DiscoverResponse(_, _, _) => ThreeFields(tag, f[0], f[1], f[2]);
    case ProposalNew(_, _, _, _) => FourFields(tag, f[0], f[1], f[2], f[3]);
    case ProposalResult(_, _, _) => ThreeFields(tag, f[0], f[1], f[2]);
    case HeartbeatStatus(_, _) => TwoFields(tag, f[0], f[1]);
  }

  lemma EventIsTemplate(m: Message)
    requires Printable(m) && (!Announces(m) || m.TrustPeerAdded? || m.TrustPeerRemoved?)
    ensures Format(m) == Template(m)
  {
    AttestationHeads();
    VaultHeads();
    SyncHeads();
    RecoveryHeads();
    Separators();
    hide Tag, Fields, PrintBool, PrintNumber;
    var f, tag := FieldsOf(m), Tag(KindOf(m));
    match m
    case AttestationRequest(_, _) => TwoFields(tag, f[0], f[1]);
    case AttestationVerified(_, _, _) => ThreeFields(tag, f[0], f[1], f[2]);
    case AttestationRejected(_, _) => TwoFields(tag, f[0], f[1]);
    case VaultKeySent(_) => OneField(tag, f[0].0, f[0].1);
    case VaultKeyReceived(_) => OneField(tag, f[0].0, f[0].1);
    case DbSyncSent(_, _, _) => ThreeFields(tag, f[0], f[1], f[2]);
    case DbSyncReceived(_, _) => TwoFields(tag, f[0], f[1]);
    case DbSyncRejected(_, _) => TwoFields(tag, f[0], f[1]);
    case RecoveryRequest(_) => OneField(tag, f[0].0, f[0].1);
    case RecoveryServed(_, _) => TwoFields(tag, f[0], f[1]);
    case TrustPeerAdded(_, _) => TwoFields(tag, f[0], f[1]);
    case TrustPeerRemoved(_) => OneField(tag, f[0].0, f[0].1);
  }

  /** What is printed is the template, character by character. */
  lemma FormatIsTemplate(m: Message)
    requires Printable(m)
    ensures Format(m) == Template(m)
  {
    if Announces(m) && !m.TrustPeerAdded? && !m.TrustPeerRemoved? {
      AnnouncementIsTemplate(m);
    } else {
      EventIsTemplate(m);
    }
  }
}
