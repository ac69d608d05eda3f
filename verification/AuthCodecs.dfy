/**
 The stored form of the web credentials and of the persistent sessions (src/network/auth_platform.cpp): two
 byte codecs and the store that keeps one blob of each.
 */
module AuthCodecs {
  import opened Prelude

  const CRED_VERSION: byte := 1
  const CRED_HEADER: nat := 54
  const CRED_MAX: nat := 86

  datatype Credential = Credential(username: seq<byte>, salt: seq<byte>, hash: seq<byte>, iterations: nat) {
    predicate Valid() {
      |salt| == 16 && |hash| == 32 && iterations < TWO_32
    }
  }

  datatype Session = Session(hash: seq<byte>, number: nat) {
    predicate Valid() {
      |hash| == 32 && number < TWO_32
    }
  }

  // ----- 32-bit numbers, least significant octet first -----

  /** (uint8_t)(n >> (8 * i)) */
  function ByteOf(n: nat, i: nat): (r: byte) {
    if i == 0 then n % 256 else ByteOf(n / 256, i - 1)
  }

  function Octets(n: nat): (r: seq<byte>)
    ensures |r| == 4
  {
    [ByteOf(n, 0), ByteOf(n, 1), ByteOf(n, 2), ByteOf(n, 3)]
  }

  function Little(a: int, b: int, c: int, d: int): (r: int) {
    a + 256 * (b + 256 * (c + 256 * d))
  }

  function Number(b: seq<byte>): (n: nat)
    requires |b| == 4
    ensures n < TWO_32
  {
    Little(b[0], b[1], b[2], b[3])
  }

  lemma OctetsAre(n: nat)
    ensures Octets(n) == [n % 256, n / 256 % 256, n / 256 / 256 % 256, n / 256 / 256 / 256 % 256]
  {
    assert ByteOf(n, 1) == ByteOf(n / 256, 0) && ByteOf(n, 2) == ByteOf(n / 256, 1) == ByteOf(n / 256 / 256, 0);
    assert ByteOf(n, 3) == ByteOf(n / 256, 2) == ByteOf(n / 256 / 256, 1) == ByteOf(n / 256 / 256 / 256, 0);
  }

  lemma NumberOfOctets(n: nat)
    requires n < TWO_32
    ensures Number(Octets(n)) == n
  {
    OctetsAre(n);
    assert n / 256 / 256 / 256 < 256;
  }

  lemma Split(a: nat, rest: nat)
    requires a < 256
    ensures (a + 256 * rest) % 256 == a && (a + 256 * rest) / 256 == rest
  {
  }

  lemma OctetsOfNumber(b: seq<byte>)
    requires |b| == 4
    ensures Octets(Number(b)) == b
  {
    OctetsAre(Number(b));
    Split(b[0], b[1] as int + 256 * (b[2] as int + 256 * (b[3] as int)));
    Split(b[1], b[2] as int + 256 * (b[3] as int));
    Split(b[2], b[3]);
    assert b == [b[0], b[1], b[2], b[3]];
  }

  // ----- Credentials -----

  /** [version][iterations][salt][hash][length][name]; no blob for a name that is empty or too long. */
  function EncodeCredential(c: Credential): (r: Option<seq<byte>>) {
    if c.username == [] || CRED_HEADER + |c.username| > CRED_MAX then None
    else Some(([CRED_VERSION] + Octets(c.iterations)) + (c.salt + (c.hash + ([|c.username|] + c.username))))
  }

  /** Whether the blob is one loadCredentials() accepts. */
  predicate Accepted(b: seq<byte>) {
    && CRED_HEADER + 1 <= |b| <= CRED_MAX && b[0] == CRED_VERSION
    && b[53] > 0 && CRED_HEADER + b[53] == |b|
    && Number(b[1..5]) > 0
  }

  function DecodeCredential(b: seq<byte>): (r: Option<Credential>)
    ensures r.Some? ==> r.value.Valid()
  {
    if !Accepted(b) then None else Some(Credential(b[54..], b[5..21], b[21..53], Number(b[1..5])))
  }

  lemma CredentialLayout(c: Credential)
    requires c.Valid() && EncodeCredential(c).Some?
    ensures var b := EncodeCredential(c).value;
      && |b| == CRED_HEADER + |c.username| && b[0] == CRED_VERSION && b[1..5] == Octets(c.iterations)
      && b[5..21] == c.salt && b[21..53] == c.hash && b[53] == |c.username| && b[54..] == c.username
  {
  }

  /** The least significant octet first. */
  function LittleEndian(n: nat): (r: seq<byte>)
    ensures |r| == 4
  {
    [n % 256, n / 0x100 % 256, n / 0x1_0000 % 256, n / 0x100_0000 % 256]
  }

  lemma Shifted(n: nat)
    ensures n / 256 / 256 == n / 0x1_0000 && n / 256 / 256 / 256 == n / 0x100_0000
  {
  }

  lemma OctetsAreLittleEndian(n: nat)
    ensures Octets(n) == LittleEndian(n)
  {
    OctetsAre(n);
    Shifted(n);
  }

  /** The blob octet by octet: version 1, the iterations, the salt, the hash, the length of the name, the name. */
  lemma BlobExactly(c: Credential)
    requires c.Valid()
    ensures EncodeCredential(c) ==
      if 1 <= |c.username| <= 32
      then Some([1] + LittleEndian(c.iterations) + c.salt + c.hash + [|c.username|] + c.username) else None
  {
    OctetsAreLittleEndian(c.iterations);
    if 1 <= |c.username| <= 32 {
      var head: seq<byte> := [1] + LittleEndian(c.iterations);
      assert head + (c.salt + (c.hash + ([|c.username|] + c.username)))
          == head + c.salt + c.hash + [|c.username|] + c.username;
    }
  }

  /** Loading what was saved gives the record back exactly when it has iterations. */
  lemma LoadUndoesSave(c: Credential)
    requires c.Valid() && 1 <= |c.username| <= 32
    ensures EncodeCredential(c).Some?
    ensures DecodeCredential(EncodeCredential(c).value) == if c.iterations > 0 then Some(c) else None
  {
    CredentialLayout(c);
    NumberOfOctets(c.iterations);
  }

  /** A blob that is accepted is byte for byte what saving the loaded record would write. */
  lemma SaveUndoesLoad(b: seq<byte>)
    requires DecodeCredential(b).Some?
    ensures EncodeCredential(DecodeCredential(b).value) == Some(b)
  {
    OctetsOfNumber(b[1..5]);
    assert b == ([b[0]] + b[1..5]) + (b[5..21] + (b[21..53] + ([b[53]] + b[54..])));
  }

  /** The blobs that are accepted are exactly those that saving a record with iterations writes. */
  lemma AcceptedExactly(b: seq<byte>)
    ensures Accepted(b) <==>
      exists c: Credential :: c.Valid() && c.iterations > 0 && EncodeCredential(c) == Some(b)
  {
    if Accepted(b) {
      SaveUndoesLoad(b);
      assert DecodeCredential(b).value.Valid();
    }
    forall c: Credential | c.Valid() && c.iterations > 0 && EncodeCredential(c) == Some(b) ensures Accepted(b) {
      LoadUndoesSave(c);
    }
  }

  // ----- Sessions: 36 octets each, the hash and the number -----

  function EncodeSession(s: Session): (r: seq<byte>)
    ensures s.Valid() ==> |r| == 36
  {
    s.hash + Octets(s.number)
  }

  function EncodeSessions(sessions: seq<Session>): (r: seq<byte>) {
    if sessions == [] then [] else EncodeSessions(sessions[..|sessions| - 1]) + EncodeSession(sessions[|sessions| - 1])
  }

  /** The record of a session: its hash and its number, least significant octet first. */
  lemma SessionExactly(s: Session)
    requires s.Valid()
    ensures EncodeSession(s) == s.hash + LittleEndian(s.number) && |EncodeSession(s)| == 36
  {
    OctetsAreLittleEndian(s.number);
  }

  predicate AllValid(sessions: seq<Session>) {
    forall s <- sessions :: s.Valid()
  }

  function DecodeSession(b: seq<byte>): (s: Session)
    requires |b| == 36
    ensures s.Valid()
  {
    Session(b[..32], Number(b[32..36]))
  }

  function Records(b: seq<byte>): (r: seq<Session>)
    ensures AllValid(r)
    decreases |b|
  {
    if |b| < 36 then []
    else Records(b[..|b| - 36]) + [DecodeSession(b[|b| - 36..])]
  }

  predicate Sound(b: seq<byte>, max: nat) {
    b != [] && |b| % 36 == 0 && |b| / 36 <= max
  }

  /** What loadSessions() reads: nothing from a blob that is damaged or too long. */
  function DecodeSessions(b: seq<byte>, max: nat): (r: seq<Session>) {
    if Sound(b, max) then Records(b) else []
  }

  lemma SessionRoundTrip(s: Session)
    requires s.Valid()
    ensures DecodeSession(EncodeSession(s)) == s
  {
    var b := EncodeSession(s);
    assert b[..32] == s.hash && b[32..36] == Octets(s.number);
    NumberOfOctets(s.number);
  }

  lemma {:induction false} SessionsLength(sessions: seq<Session>)
    requires AllValid(sessions)
    ensures |EncodeSessions(sessions)| == |sessions| * 36
    decreases |sessions|
  {
    if sessions != [] {
      SessionsLength(sessions[..|sessions| - 1]);
      assert sessions[|sessions| - 1] in sessions;
    }
  }

  lemma RecordsAppend(b: seq<byte>, r: seq<byte>)
    requires |r| == 36
    ensures Records(b + r) == Records(b) + [DecodeSession(r)]
  {
    assert (b + r)[..|b|] == b && (b + r)[|b|..] == r;
  }

  lemma LastRecord(b: seq<byte>, s: Session)
    requires s.Valid()
    ensures Records(b + EncodeSession(s)) == Records(b) + [s]
  {
    RecordsAppend(b, EncodeSession(s));
    SessionRoundTrip(s);
  }

  lemma {:induction false} RecordsOfEncoded(sessions: seq<Session>)
    requires AllValid(sessions)
    ensures Records(EncodeSessions(sessions)) == sessions
    decreases |sessions|
  {
    if sessions != [] {
      var n := |sessions|;
      var front, last := sessions[..n - 1], sessions[n - 1];
      assert last in sessions && sessions == front + [last];
      RecordsOfEncoded(front);
      LastRecord(EncodeSessions(front), last);
    }
  }

  lemma SoundExactly(b: seq<byte>, n: nat, max: nat)
    requires |b| == n * 36
    ensures Sound(b, max) <==> 0 < n <= max
  {
  }

  /** Loading the saved sessions gives them back exactly when there are no more than the loader asks for. */
  lemma LoadUndoesSaveSessions(sessions: seq<Session>, max: nat)
    requires AllValid(sessions)
    ensures DecodeSessions(EncodeSessions(sessions), max) == sessions <==> |sessions| <= max
  {
    SessionsLength(sessions);
    SoundExactly(EncodeSessions(sessions), |sessions|, max);
    if 0 < |sessions| <= max {
      RecordsOfEncoded(sessions);
    }
  }

  lemma EncodedSession(b: seq<byte>)
    requires |b| == 36
    ensures EncodeSession(DecodeSession(b)) == b
  {
    OctetsOfNumber(b[32..36]);
    assert b == b[..32] + b[32..36];
  }

  lemma {:induction false} EncodedRecords(b: seq<byte>)
    requires |b| % 36 == 0
    ensures EncodeSessions(Records(b)) == b
    decreases |b|
  {
    if |b| >= 36 {
      var front, last := b[..|b| - 36], b[|b| - 36..];
      EncodedRecords(front);
      EncodedSession(last);
      assert b == front + last;
    }
  }

  /** A blob read as sessions is byte for byte what saving them would write. */
  lemma SaveUndoesLoadSessions(b: seq<byte>, max: nat)
    requires DecodeSessions(b, max) != []
    ensures EncodeSessions(DecodeSessions(b, max)) == b
  {
    EncodedRecords(b);
  }

  // ----- The store -----

  /** memcpy() of a buffer that is filled from its start. */
  method Append(buf: array<byte>, at: nat, bytes: seq<byte>)
    requires at + |bytes| <= buf.Length
    modifies buf
    ensures buf[..at + |bytes|] == old(buf[..at]) + bytes
  {
    for i := 0 to |bytes|
      invariant buf[..at + i] == old(buf[..at]) + bytes[..i]
    {
      buf[at + i] := bytes[i];
    }
  }

  /** The 36 octets of one session after those of the others. */
  method AppendNumber(buf: array<byte>, at: nat, n: nat)
    requires at + 4 <= buf.Length
    modifies buf
    ensures buf[..at + 4] == old(buf[..at]) + Octets(n)
  {
    for i := 0 to 4
      invariant buf[..at + i] == old(buf[..at]) + Octets(n)[..i]
    {
      buf[at + i] := ByteOf(n, i);
    }
  }

  lemma Nested(a: seq<byte>, b: seq<byte>, c: seq<byte>, d: seq<byte>, e: seq<byte>)
    ensures (((a + b) + c) + d) + e == a + (b + (c + (d + e)))
  {
  }

  /** The fields of the blob, one after the other. */
  method FillCredential(buf: array<byte>, c: Credential)
    requires c.Valid() && 1 <= |c.username| <= 32 && buf.Length == CRED_MAX
    modifies buf
    ensures EncodeCredential(c) == Some(buf[..CRED_HEADER + |c.username|])
  {
    buf[0] := CRED_VERSION;
    assert buf[..1] == [CRED_VERSION];
    AppendNumber(buf, 1, c.iterations);
    Append(buf, 5, c.salt);
    Append(buf, 21, c.hash);
    Append(buf, 53, [|c.username|]);
    Append(buf, 54, c.username);
    Nested([CRED_VERSION] + Octets(c.iterations), c.salt, c.hash, [|c.username|], c.username);
  }

  /** The loop of saveSessions(). */
  method FillSessions(buf: array<byte>, input: array<Session>, count: nat)
    requires count <= input.Length && AllValid(input[..count]) && buf.Length == count * 36
    modifies buf
    ensures buf[..] == EncodeSessions(input[..count])
  {
    for i := 0 to count
      invariant buf[..i * 36] == EncodeSessions(input[..i])
    {
      var at := i * 36;
      assert input[i] in input[..count];
      Append(buf, at, input[i].hash);
      AppendNumber(buf, at + 32, input[i].number);
      assert input[..i + 1][..i] == input[..i];
      assert buf[..at + 36] == EncodeSessions(input[..i]) + EncodeSession(input[i]);
    }
    assert buf[..count * 36] == buf[..];
  }

  /** The NVS namespace "web_auth": its two keys, once something was written. */
  class Storage {
    var created: bool
    var cred: Option<seq<byte>>
    var sessions: Option<seq<byte>>

    ghost predicate Valid()
      reads this
    {
      !created ==> cred.None? && sessions.None?
    }

    constructor ()
      ensures Valid() && cred.None? && sessions.None?
    {
      created, cred, sessions := false, None, None;
    }

    /** saveCredentials(); begin and put are whether NVS opens and takes the blob. */
    method SaveCredentials(c: Credential, begin: bool, put: bool) returns (ok: bool)
      requires Valid() && c.Valid()
      modifies this`created, this`cred
      ensures Valid() && (ok <==> 1 <= |c.username| <= 32 && begin && put)
      ensures cred == if ok then EncodeCredential(c) else old(cred)
    {
      var length := |c.username|;
      if length == 0 || CRED_HEADER + length > CRED_MAX {
        return false;
      }
      var buf := new byte[CRED_MAX](_ => 0);
      FillCredential(buf, c);
      if !begin {
        return false;
      }
      created := true;
      if put {
        cred := Some(buf[..CRED_HEADER + length]);
      }
      return put;
    }

    /** loadCredentials() */
    method LoadCredentials(get: bool) returns (r: Option<Credential>)
      requires Valid()
      ensures r == if cred.Some? && get then DecodeCredential(cred.value) else None
    {
      if !created {
        return None;
      }
      var len := if cred.Some? then |cred.value| else 0;
      if len < CRED_HEADER + 1 || len > CRED_MAX || !get {
        return None;
      }
      var buf := cred.value;
      if buf[0] != CRED_VERSION {
        return None;
      }
      var userLen := buf[CRED_HEADER - 1];
      if userLen == 0 || CRED_HEADER + userLen != len {
        return None;
      }
      var iterations := Little(buf[1], buf[2], buf[3], buf[4]);
      var name: seq<byte> := [];
      for i := 0 to userLen
        invariant name == buf[54..54 + i]
      {
        name := name + [buf[CRED_HEADER + i]];
      }
      assert Number(buf[1..5]) == iterations && buf[54..54 + userLen] == buf[54..];
      if iterations == 0 {
        return None;
      }
      return Some(Credential(name, buf[5..21], buf[21..53], iterations));
    }

    /** saveSessions(); removed is whether NVS removes a key that is there. */
    method SaveSessions(input: array<Session>, count: nat, begin: bool, put: bool, removed: bool, memory: bool)
      returns (ok: bool)
      requires Valid() && count <= input.Length && AllValid(input[..count])
      modifies this`created, this`sessions
      ensures Valid()
      ensures ok && count > 0 ==> sessions == Some(EncodeSessions(input[..count]))
      ensures ok && count == 0 ==> sessions.None?
      ensures !ok ==> sessions == old(sessions)
      ensures ok <==> begin && (if count == 0 then old(sessions).None? || removed else put && memory)
    {
      if !begin {
        return false;
      }
      created := true;
      if count == 0 {
        ok := sessions.None? || removed;
        if removed {
          sessions := None;
        }
        return;
      }
      if !memory {
        return false;
      }
      var buf := new byte[count * 36](_ => 0);
      FillSessions(buf, input, count);
      if put {
        sessions := Some(buf[..]);
      }
      return put;
    }

    /** loadSessions() into an array of max entries; false when the blob cannot be read. */
    method LoadSessions(out: array<Session>, max: nat, memory: bool, get: bool) returns (ok: bool, count: nat)
      requires Valid() && max <= out.Length
      modifies out
      ensures count <= max
      ensures var all := if sessions.Some? then DecodeSessions(sessions.value, max) else [];
        if ok then out[..count] == all else count == 0 && all != []
      ensures ok <==> sessions.None? || !Sound(sessions.value, max) || (memory && get)
    {
      count := 0;
      if !created || sessions.None? {
        return true, 0;
      }
      var buf := sessions.value;
      var len := |buf|;
      if len == 0 || len % 36 != 0 || len / 36 > max {
        return true, 0;
      }
      if !memory || !get {
        return false, 0;
      }
      var n := len / 36;
      for i := 0 to n
        invariant out[..i] == Records(buf[..i * 36])
      {
        var rec := buf[i * 36..(i + 1) * 36];
        RecordsAppend(buf[..i * 36], rec);
        assert buf[..(i + 1) * 36] == buf[..i * 36] + rec;
        out[i] := Session(rec[..32], Little(rec[32], rec[33], rec[34], rec[35]));
        assert Number(rec[32..36]) == out[i].number;
        assert out[..i + 1] == out[..i] + [out[i]];
      }
      assert buf[..n * 36] == buf;
      return true, n;
    }
  }
}
