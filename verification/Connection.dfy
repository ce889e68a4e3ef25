// src/network.rs: reading a connection in whatever pieces the transport delivers, serving
// its frames, and the client side of a remote resolve.
module Connection {
  import opened Pids
  import opened Mailbox
  import opened Wire
  import Utf8

  const PROTOCOL_VERSION: Byte := 1

  /** Registered names, by their bytes; a pid has 64 bits. */
  type Registry = m: map<Bytes, Pid> | forall n <- m :: m[n] < WORD * WORD witness map[]

  function Lookup(reg: Registry, name: Bytes): Option<Pid> {
    if name in reg then Some(reg[name]) else None
  }

  /** What serving a frame does: hand a payload to the runtime, or write a reply. */
  datatype Effect = Deliver(pid: nat, data: Bytes) | Reply(bytes: Bytes)

  /** `unwrap_or(0)`, big-endian. */
  function PidReply(reg: Registry, name: Bytes): Bytes {
    BE(if name in reg then reg[name] else 0, 8)
  }

  const PONG: Bytes := [3]

  function EffectOf(f: Frame, reg: Registry): Effect {
    match f
    case UserFrame(pid, data) => Deliver(pid, data)
    case ResolveFrame(name) => Reply(PidReply(reg, name))
    case PingFrame => Reply(PONG)
  }

  /** The effects of serving `fs` in order: `reg(k)` is the registry when frame `k` is
      served, and `ok(k)` whether its reply can be written. A failed write ends it all. */
  function Effects(fs: seq<Frame>, reg: nat -> Registry, ok: nat -> bool): seq<Effect> {
    if fs == [] then []
    else
      var n := |fs| - 1;
      var before := Effects(fs[..n], reg, ok);
      if Survives(fs[..n], ok) && (fs[n].UserFrame? || ok(n)) then before + [EffectOf(fs[n], reg(n))] else before
  }

  predicate Survives(fs: seq<Frame>, ok: nat -> bool) {
    forall k :: 0 <= k < |fs| ==> fs[k].UserFrame? || ok(k)
  }

  /** The effects of a connection whose bytes, until it closes, fails or times out, are `s`,
      and whose limits are `lim(k)` when frame `k` is read. */
  function Served(s: Bytes, lim: nat -> Limits, reg: nat -> Registry, ok: nat -> bool): seq<Effect> {
    if s == [] || s[0] != PROTOCOL_VERSION then [] else Effects(ParseAll(s[1..], lim, 0).0, reg, ok)
  }

  // Reading.

  /** `read_exact_with_timeout`: reads of any sizes the transport chooses fill the buffer
      with the next `len` bytes, or the stream ends first. */
  method ReadExact(s: Bytes, pos: nat, len: nat) returns (ok: bool, buf: Bytes, pos': nat)
    requires pos <= |s|
    ensures ok <==> pos + len <= |s|
    ensures ok ==> pos' == pos + len && buf == s[pos..pos']
    ensures pos <= pos' <= |s|
  {
    buf, pos' := [], pos;
    while |buf| < len
      invariant pos <= pos' <= |s| && buf == s[pos..pos'] && |buf| <= len
      decreases len - |buf|
    {
      if pos' == |s| {
        return false, buf, pos';
      }
      var n: nat :| 1 <= n <= len - |buf| && n <= |s| - pos';
      buf := buf + s[pos'..pos' + n];
      pos' := pos' + n;
    }
    ok := true;
  }

  /** One frame of the connection loop, read field by field. */
  method ReadFrame(s: Bytes, pos: nat, lim: Limits) returns (r: Parsed, pos': nat)
    requires pos <= |s|
    ensures r == ParseOne(s[pos..], lim)
    ensures r.Parsed? ==> pos' == pos + r.size
    ensures pos <= pos' <= |s|
  {
    var t := s[pos..];
    var ok, header, p := ReadExact(s, pos, 1);
    if !ok {
      return Failed(Ended), p;
    }
    assert header[0] == t[0];
    if header[0] == 0 {
      r, pos' := ReadUser(s, pos, p, lim);
    } else if header[0] == 1 {
      r, pos' := ReadResolve(s, pos, p, lim);
    } else if header[0] == 2 {
      return Parsed(PingFrame, 1), p;
    } else {
      return Failed(UnknownType), p;
    }
  }

  method ReadUser(s: Bytes, start: nat, pos: nat, lim: Limits) returns (r: Parsed, pos': nat)
    requires start < |s| && pos == start + 1 && s[start] == 0
    ensures r == ParseOne(s[start..], lim)
    ensures r.Parsed? ==> pos' == start + r.size
    ensures start <= pos' <= |s|
  {
    var t := s[start..];
    var ok, meta, p := ReadExact(s, pos, 12);
    if !ok {
      return Failed(Ended), p;
    }
    assert meta == t[1..13];
    assert meta[0..8] == t[1..9];
    assert meta[8..12] == t[9..13];
    var pid, len := FromBE(meta[0..8]), FromBE(meta[8..12]);
    if len > lim.payload {
      return Failed(TooLarge), p;
    }
    var ok', data, q := ReadExact(s, p, len);
    if !ok' {
      return Failed(Ended), q;
    }
    assert data == t[13..13 + len];
    return Parsed(UserFrame(pid, data), 13 + len), q;
  }

  method ReadResolve(s: Bytes, start: nat, pos: nat, lim: Limits) returns (r: Parsed, pos': nat)
    requires start < |s| && pos == start + 1 && s[start] == 1
    ensures r == ParseOne(s[start..], lim)
    ensures r.Parsed? ==> pos' == start + r.size
    ensures start <= pos' <= |s|
  {
    var t := s[start..];
    var ok, lenBuf, p := ReadExact(s, pos, 4);
    if !ok {
      return Failed(Ended), p;
    }
    assert lenBuf == t[1..5];
    var len := FromBE(lenBuf);
    if len > lim.name {
      return Failed(TooLarge), p;
    }
    var ok', name, q := ReadExact(s, p, len);
    if !ok' {
      return Failed(Ended), q;
    }
    assert name == t[5..5 + len];
    if !Utf8.WellFormed(name) {
      return Failed(BadUtf8), q;
    }
    return Parsed(ResolveFrame(name), 5 + len), q;
  }

  /** The frames left in the stream from `pos` on, the first of them number `k`. */
  function Left(s: Bytes, pos: nat, lim: nat -> Limits, k: nat): seq<Frame>
    requires pos <= |s|
  {
    ParseAll(s[pos..], lim, k).0
  }

  lemma {:induction false} LeftStep(s: Bytes, pos: nat, lim: nat -> Limits, k: nat, r: Parsed)
    requires pos <= |s| && r == ParseOne(s[pos..], lim(k))
    ensures r.Failed? ==> Left(s, pos, lim, k) == []
    ensures r.Parsed? ==> 0 < r.size <= |s| - pos && Left(s, pos, lim, k) == [r.f] + Left(s, pos + r.size, lim, k + 1)
  {
    if r.Parsed? {
      ParsedIsEncoded(s[pos..], lim(k));
      assert s[pos..][r.size..] == s[pos + r.size..];
    }
  }

  lemma {:induction false} EffectsStop(fs: seq<Frame>, gs: seq<Frame>, reg: nat -> Registry, ok: nat -> bool)
    requires !Survives(fs, ok)
    ensures Effects(fs + gs, reg, ok) == Effects(fs, reg, ok)
    decreases |gs|
  {
    if gs == [] {
      assert fs + gs == fs;
    } else {
      var n := |gs| - 1;
      EffectsStop(fs, gs[..n], reg, ok);
      var all := fs + gs;
      assert all[..|all| - 1] == fs + gs[..n];
      var k :| 0 <= k < |fs| && !(fs[k].UserFrame? || ok(k));
      assert (fs + gs[..n])[k] == fs[k];
    }
  }

  lemma {:induction false} EffectsSnoc(fs: seq<Frame>, f: Frame, left: seq<Frame>, reg: nat -> Registry,
                                       ok: nat -> bool)
    requires Survives(fs, ok)
    ensures var alive := f.UserFrame? || ok(|fs|);
      && (alive ==> Survives(fs + [f], ok))
      && (alive ==> Effects(fs + [f], reg, ok) == Effects(fs, reg, ok) + [EffectOf(f, reg(|fs|))])
      && (!alive ==> Effects(fs + [f] + left, reg, ok) == Effects(fs, reg, ok))
  {
    var all := fs + [f];
    assert all[..|fs|] == fs && all[|fs|] == f;
    if !(f.UserFrame? || ok(|fs|)) {
      assert !Survives(all, ok);
      EffectsStop(all, left, reg, ok);
    }
  }

  /** One turn of the connection loop, after the frames `fs`: `left` are the frames left before
      it, `left'` those after it. */
  lemma {:induction false} FrameStep(fs: seq<Frame>, all: seq<Frame>, left: seq<Frame>, left': seq<Frame>, r: Parsed,
                                     reg: nat -> Registry, ok: nat -> bool)
    requires Survives(fs, ok) && all == fs + left
    requires left == if r.Parsed? then [r.f] + left' else []
    ensures r.Failed? ==> all == fs
    ensures r.Parsed? ==> all == fs + [r.f] + left'
    ensures r.Parsed? && (r.f.UserFrame? || ok(|fs|)) ==>
      Survives(fs + [r.f], ok) && Effects(fs + [r.f], reg, ok) == Effects(fs, reg, ok) + [EffectOf(r.f, reg(|fs|))]
    ensures r.Parsed? && !(r.f.UserFrame? || ok(|fs|)) ==> Effects(all, reg, ok) == Effects(fs, reg, ok)
  {
    if r.Parsed? {
      EffectsSnoc(fs, r.f, left', reg, ok);
      assert fs + ([r.f] + left') == fs + [r.f] + left';
    }
  }

  /** The connection loop. However the bytes are split into reads, its effects are those of
      the complete acceptable frames before the first failure. */
  method HandleConnection(s: Bytes, lim: nat -> Limits, reg: nat -> Registry, ok: nat -> bool)
    returns (effects: seq<Effect>)
    ensures effects == Served(s, lim, reg, ok)
  {
    effects := [];
    var got, version, pos := ReadExact(s, 0, 1);
    if !got || version[0] != PROTOCOL_VERSION {
      return;
    }
    ghost var fs: seq<Frame>, all := [], Left(s, 1, lim, 0);
    var k, more := 0, true;
    while more
      invariant 1 <= pos <= |s| && k == |fs|
      invariant more ==> all == fs + Left(s, pos, lim, k) && Survives(fs, ok) && effects == Effects(fs, reg, ok)
      invariant !more ==> effects == Effects(all, reg, ok)
      decreases more, |s| - pos
    {
      more, pos, effects, fs := HandleFrame(s, pos, lim, k, reg, ok, effects, fs, all);
      k := if more then k + 1 else k;
    }
  }

  /** One turn of the loop: reads and serves frame `k`. */
  method HandleFrame(s: Bytes, pos: nat, lim: nat -> Limits, k: nat, reg: nat -> Registry, ok: nat -> bool,
                     effects: seq<Effect>, ghost fs: seq<Frame>, ghost all: seq<Frame>)
    returns (more: bool, pos': nat, effects': seq<Effect>, ghost fs': seq<Frame>)
    requires pos <= |s| && k == |fs| && all == fs + Left(s, pos, lim, k)
    requires Survives(fs, ok) && effects == Effects(fs, reg, ok)
    ensures pos <= pos' <= |s| && |fs'| == if more then k + 1 else k
    ensures more ==> pos < pos' && all == fs' + Left(s, pos', lim, k + 1)
    ensures more ==> Survives(fs', ok) && effects' == Effects(fs', reg, ok)
    ensures !more ==> effects' == Effects(all, reg, ok)
  {
    var r, p := ReadFrame(s, pos, lim(k));
    LeftStep(s, pos, lim, k, r);
    ghost var left' := if r.Parsed? then Left(s, p, lim, k + 1) else [];
    FrameStep(fs, all, Left(s, pos, lim, k), left', r, reg, ok);
    if r.Failed? {
      return false, p, effects, fs;
    }
    var alive, e := ServeFrame(r.f, k, reg, ok, effects);
    return alive, p, e, if alive then fs + [r.f] else fs;
  }

  /** Serves one frame; false when its reply cannot be written. */
  method ServeFrame(f: Frame, k: nat, reg: nat -> Registry, ok: nat -> bool, effects: seq<Effect>)
    returns (alive: bool, effects': seq<Effect>)
    ensures alive == (f.UserFrame? || ok(k))
    ensures effects' == if alive then effects + [EffectOf(f, reg(k))] else effects
  {
    match f
    case UserFrame(pid, data) =>
      return true, effects + [Deliver(pid, data)];
    case ResolveFrame(name) =>
      var pid := if name in reg(k) then reg(k)[name] else 0;
      return ok(k), if ok(k) then effects + [Reply(BE(pid, 8))] else effects;
    case PingFrame =>
      return ok(k), if ok(k) then effects + [Reply(PONG)] else effects;
  }

  // What the other side sees.

  /** `e` is the right answer to frame `f`: a User is handed on with the pid and the payload it
      carries; a Resolve is answered with eight bytes that decode to the entry of its name,
      or to 0; a Ping is answered with the byte 3. */
  predicate Answers(f: Frame, reg: Registry, e: Effect) {
    match f
    case UserFrame(pid, data) => e == Deliver(pid, data)
    case ResolveFrame(name) =>
      e.Reply? && |e.bytes| == 8 && FromBE(e.bytes) == if name in reg then reg[name] else 0
    case PingFrame => e == Reply([3])
  }

  lemma EffectAnswers(f: Frame, reg: Registry)
    ensures Answers(f, reg, EffectOf(f, reg))
  {
    if f.ResolveFrame? {
      Pows();
      FromBEofBE(if f.name in reg then reg[f.name] else 0, 8);
    }
  }

  /** `effects` are those of the frames before the first whose reply cannot be written. */
  ghost predicate UntilFailure(effects: seq<Effect>, fs: seq<Frame>, reg: nat -> Registry, ok: nat -> bool) {
    var n := |effects|;
    && n <= |fs| && Survives(fs[..n], ok) && (n < |fs| ==> !fs[n].UserFrame? && !ok(n))
    && (n == |fs| <==> Survives(fs, ok))
    && forall k :: 0 <= k < n ==> Answers(fs[k], reg(k), effects[k])
  }

  lemma {:induction false} EffectsUntilFailure(fs: seq<Frame>, reg: nat -> Registry, ok: nat -> bool)
    ensures UntilFailure(Effects(fs, reg, ok), fs, reg, ok)
  {
    if fs != [] {
      var m := |fs| - 1;
      EffectsUntilFailure(fs[..m], reg, ok);
      var n := |Effects(fs[..m], reg, ok)|;
      EffectAnswers(fs[m], reg(m));
      if Survives(fs[..m], ok) {
        assert n == m;
        assert fs[..m + 1] == fs;
      } else {
        assert fs[..m][..n] == fs[..n];
      }
    }
  }

  lemma {:induction false} ServedBytes(t: Bytes, lim: nat -> Limits, reg: nat -> Registry, ok: nat -> bool,
                                       fs: seq<Frame>)
    requires ParseAll(t, lim, 0).0 == fs
    ensures Served([PROTOCOL_VERSION] + t, lim, reg, ok) == Effects(fs, reg, ok)
  {
    assert ([PROTOCOL_VERSION] + t)[1..] == t;
  }

  lemma VersionFirst(a: Bytes, b: Bytes)
    ensures [PROTOCOL_VERSION] + a + b == [PROTOCOL_VERSION] + (a + b)
  {
  }

  lemma {:induction false} ServedFrames(fs: seq<Frame>, junk: Bytes, t: Bytes, taken: (seq<Frame>, Failure, Bytes),
                                        lim: nat -> Limits, reg: nat -> Registry, ok: nat -> bool)
    requires AllAcceptable(fs, lim, 0) && t == EncodeAll(fs) + junk && ParseAll(junk, lim, 0 + |fs|) == taken
    ensures Served([PROTOCOL_VERSION] + t, lim, reg, ok) == Effects(fs + taken.0, reg, ok)
  {
    FramesThenAnything(fs, junk, t, lim, 0, taken.0, taken.1, taken.2);
    ServedBytes(t, lim, reg, ok, fs + taken.0);
  }

  /** A connection that sends the version and any acceptable frames, then anything at all,
      has every frame served as sent, in order, up to the first whose reply cannot be
      written; what follows is read as if it stood alone. */
  lemma {:induction false} ServedAsSent(fs: seq<Frame>, junk: Bytes, lim: nat -> Limits, reg: nat -> Registry,
                                        ok: nat -> bool)
    requires AllAcceptable(fs, lim, 0)
    ensures UntilFailure(Served([PROTOCOL_VERSION] + EncodeAll(fs) + junk, lim, reg, ok),
                         fs + ParseAll(junk, lim, |fs|).0, reg, ok)
  {
    var t, taken := EncodeAll(fs) + junk, ParseAll(junk, lim, |fs|);
    VersionFirst(EncodeAll(fs), junk);
    ServedFrames(fs, junk, t, taken, lim, reg, ok);
    EffectsUntilFailure(fs + taken.0, reg, ok);
  }

  /** Cut anywhere inside frame `m`, the connection has served exactly the frames before it. */
  lemma {:induction false} ServedWhenCut(fs: seq<Frame>, m: nat, cut: nat, lim: nat -> Limits,
                                         reg: nat -> Registry, ok: nat -> bool)
    requires AllAcceptable(fs, lim, 0) && m < |fs| && cut < |Encode(fs[m])|
    ensures var n := |EncodeAll(fs[..m])| + cut;
      && n < |EncodeAll(fs)|
      && UntilFailure(Served([PROTOCOL_VERSION] + EncodeAll(fs)[..n], lim, reg, ok), fs[..m], reg, ok)
  {
    CutYieldsPrefix(fs, m, cut, lim, 0);
    var t := EncodeAll(fs)[..|EncodeAll(fs[..m])| + cut];
    ServedBytes(t, lim, reg, ok, fs[..m]);
    EffectsUntilFailure(fs[..m], reg, ok);
  }

  /** A peer that does not start with the byte 1 is not served. */
  lemma OtherVersions(s: Bytes, lim: nat -> Limits, reg: nat -> Registry, ok: nat -> bool)
    ensures s == [] || s[0] != 1 ==> Served(s, lim, reg, ok) == []
  {
  }

  /** The bytes 1 and 2 are answered with the byte 3, if it can be written. */
  lemma {:induction false} PingPong(lim: nat -> Limits, reg: nat -> Registry, ok: nat -> bool)
    ensures Served([1, 2], lim, reg, ok) == if ok(0) then [Reply([3])] else []
  {
    var fs := [PingFrame];
    assert EncodeAll(fs) == [2] by {
      EncodeAllOne(PingFrame);
    }
    assert [1] + [2] == [1, 2];
    RoundTrip(fs, lim, 0);
    ServedBytes([2], lim, reg, ok, fs);
    EffectsUntilFailure(fs, reg, ok);
    assert Survives(fs, ok) <==> ok(0);
  }

  // What the actors receive.

  /** The payloads handed to the runtime, with the pids they are for. */
  function Deliveries(effects: seq<Effect>): seq<(nat, Bytes)> {
    if effects == [] then []
    else
      var e := effects[|effects| - 1];
      Deliveries(effects[..|effects| - 1]) + (if e.Deliver? then [(e.pid, e.data)] else [])
  }

  function Payloads(fs: seq<Frame>): seq<(nat, Bytes)> {
    if fs == [] then []
    else
      var f := fs[|fs| - 1];
      Payloads(fs[..|fs| - 1]) + (if f.UserFrame? then [(f.pid, f.data)] else [])
  }

  lemma {:induction false} AnswersDeliver(effects: seq<Effect>, fs: seq<Frame>, reg: nat -> Registry)
    requires |effects| == |fs| && forall k :: 0 <= k < |fs| ==> Answers(fs[k], reg(k), effects[k])
    ensures Deliveries(effects) == Payloads(fs)
  {
    if fs != [] {
      var n := |fs| - 1;
      AnswersDeliver(effects[..n], fs[..n], reg);
      assert Answers(fs[n], reg(n), effects[n]);
    }
  }

  /** End to end: a connection that carries acceptable frames delivers, in order and nothing
      else, the pids and payloads of the User frames sent, up to the first frame whose
      reply cannot be written, and of all of them if all replies can. */
  lemma {:induction false} DeliveredAsSent(fs: seq<Frame>, lim: nat -> Limits, reg: nat -> Registry, ok: nat -> bool)
    requires AllAcceptable(fs, lim, 0)
    ensures var effects := Served([PROTOCOL_VERSION] + EncodeAll(fs), lim, reg, ok);
      && |effects| <= |fs| && Deliveries(effects) == Payloads(fs[..|effects|])
      && (Survives(fs, ok) ==> Deliveries(effects) == Payloads(fs))
  {
    RoundTrip(fs, lim, 0);
    ServedBytes(EncodeAll(fs), lim, reg, ok, fs);
    EffectsUntilFailure(fs, reg, ok);
    var effects := Effects(fs, reg, ok);
    AnswersDeliver(effects, fs[..|effects|], reg);
    assert Survives(fs, ok) ==> fs[..|effects|] == fs;
  }

  // Remote resolve.

  function Fixed<T>(x: T): nat -> T {
    _ => x
  }

  /** What `resolve_remote` writes before it waits for the answer; a name beyond its own
      limit makes it stop after the frame type. */
  function Request(name: Bytes, limit: nat): Bytes {
    if |name| > limit then [PROTOCOL_VERSION, 1] else [PROTOCOL_VERSION] + Encode(ResolveFrame(name))
  }

  /** All bytes the server writes back. */
  function Replies(effects: seq<Effect>): Bytes {
    if effects == [] then []
    else
      var n := |effects| - 1;
      Replies(effects[..n]) + (if effects[n].Reply? then effects[n].bytes else [])
  }

  /** `resolve_remote_async` against a server with limits `lim` and registry `reg`. */
  method ResolveRemote(name: Bytes, limit: nat, lim: Limits, reg: Registry) returns (r: Option<Pid>)
    ensures r == RemoteAnswer(name, limit, lim, reg)
  {
    var effects := HandleConnection(Request(name, limit), Fixed(lim), Fixed(reg), Fixed(true));
    if |name| > limit {
      return None;
    }
    var answer := Replies(effects);
    var ok, buf, _ := ReadExact(answer, 0, 8);
    if !ok {
      return None;
    }
    assert buf == answer[..8];
    var pid := FromBE(buf);
    return if pid == 0 then None else Some(pid);
  }

  function RemoteAnswer(name: Bytes, limit: nat, lim: Limits, reg: Registry): Option<Pid> {
    var answer := Replies(Served(Request(name, limit), Fixed(lim), Fixed(reg), Fixed(true)));
    if |name| > limit || |answer| < 8 || FromBE(answer[..8]) == 0 then None else Some(FromBE(answer[..8]))
  }

  /** The name the server sees: the length field holds 32 bits, so of a longer name only the
      remainder counts; the rest of the name is read as further frames. */
  function SeenName(name: Bytes): (t: Bytes)
    ensures t <= name && |t| < WORD && (|name| < WORD ==> t == name)
  {
    name[..|name| % WORD]
  }

  // The length field keeps the low 32 bits of a length.

  lemma LowByte(x: nat, m: nat, r: nat)
    requires m in {0x100, 0x1_0000, 0x100_0000} && r == x % (256 * m)
    ensures r % 256 == x % 256 && r / 256 == (x / 256) % m
  {
    if m == 0x100 {
      LowByte2(x);
    } else if m == 0x1_0000 {
      LowByte3(x);
    } else {
      LowByte4(x);
    }
  }

  lemma LowByte2(x: nat)
    ensures (x % 0x1_0000) % 256 == x % 256 && (x % 0x1_0000) / 256 == (x / 256) % 0x100
  {
  }

  lemma LowByte3(x: nat)
    ensures (x % 0x100_0000) % 256 == x % 256 && (x % 0x100_0000) / 256 == (x / 256) % 0x1_0000
  {
  }

  lemma LowByte4(x: nat)
    ensures (x % 0x1_0000_0000) % 256 == x % 256 && (x % 0x1_0000_0000) / 256 == (x / 256) % 0x100_0000
  {
  }

  lemma CutByte(x: nat, r: nat, n: nat)
    requires n > 0 && r % 256 == x % 256 && BE(r / 256, n - 1) == BE(x / 256, n - 1)
    ensures BE(r, n) == BE(x, n)
  {
  }

  lemma {:induction false} Cut(x: nat, n: nat, m: nat)
    requires (n, m) in {(1, 0x100), (2, 0x1_0000), (3, 0x100_0000), (4, 0x1_0000_0000)}
    ensures BE(x % m, n) == BE(x, n)
    decreases n
  {
    if n > 1 {
      LowByte(x, m / 256, x % m);
      Cut(x / 256, n - 1, m / 256);
    } else {
      assert BE((x % m) / 256, 0) == BE(x / 256, 0);
    }
    CutByte(x, x % m, n);
  }

  lemma {:induction false} RequestIsPrefix(name: Bytes, t: Bytes)
    requires t == SeenName(name)
    ensures Encode(ResolveFrame(name)) == Encode(ResolveFrame(t)) + name[|t|..]
  {
    Cut(|name|, 4, 0x1_0000_0000);
    assert name == t + name[|t|..];
  }

  lemma {:induction false} FirstReply(b: Bytes, effects: seq<Effect>)
    requires effects != [] && effects[0] == Reply(b)
    ensures b <= Replies(effects)
  {
    if |effects| == 1 {
      assert effects[..0] == [];
    } else {
      FirstReply(b, effects[..|effects| - 1]);
    }
  }

  /** The server finds the seen name, and it is bound to a pid. */
  predicate Finds(t: Bytes, lim: Limits, reg: Registry) {
    |t| <= lim.name && Utf8.WellFormed(t) && t in reg && reg[t] != 0
  }

  /** The effect of the first frame, whatever follows it. */
  lemma {:induction false} FirstEffect(f: Frame, rest: Bytes, lim: nat -> Limits, reg: nat -> Registry, ok: nat -> bool)
    requires Acceptable(f, lim(0)) && ok(0)
    ensures var effects := Served([PROTOCOL_VERSION] + (Encode(f) + rest), lim, reg, ok);
      effects != [] && Answers(f, reg(0), effects[0])
  {
    EncodeAllOne(f);
    var s := [PROTOCOL_VERSION] + EncodeAll([f]) + rest;
    assert s == [PROTOCOL_VERSION] + (Encode(f) + rest);
    ServedAsSent([f], rest, lim, reg, ok);
  }

  /** A name the server takes gets its entry as the first reply. */
  lemma {:induction false} TakenNameAnswers(name: Bytes, t: Bytes, lim: Limits, reg: Registry)
    requires t == SeenName(name) && |t| <= lim.name && Utf8.WellFormed(t)
    ensures var request := [PROTOCOL_VERSION] + Encode(ResolveFrame(name));
      var answer := Replies(Served(request, Fixed(lim), Fixed(reg), Fixed(true)));
      |answer| >= 8 && FromBE(answer[..8]) == if t in reg then reg[t] else 0
  {
    RequestIsPrefix(name, t);
    FirstEffect(ResolveFrame(t), name[|t|..], Fixed(lim), Fixed(reg), Fixed(true));
    var effects := Served([PROTOCOL_VERSION] + Encode(ResolveFrame(name)), Fixed(lim), Fixed(reg), Fixed(true));
    FirstReply(effects[0].bytes, effects);
    assert Replies(effects)[..8] == effects[0].bytes;
  }

  /** A name the server refuses gets none. */
  lemma {:induction false} RefusedNameIsSilent(name: Bytes, t: Bytes, lim: Limits, reg: Registry)
    requires t == SeenName(name) && !(|t| <= lim.name && Utf8.WellFormed(t))
    ensures Served([PROTOCOL_VERSION] + Encode(ResolveFrame(name)), Fixed(lim), Fixed(reg), Fixed(true)) == []
  {
    var e, rest := Encode(ResolveFrame(name)), name[|t|..];
    RequestIsPrefix(name, t);
    assert ([PROTOCOL_VERSION] + e)[1..] == e;
    ResolveParts(BE(|t|, 4), t, rest);
    Pows();
    FromBEofBE(|t|, 4);
    assert ParseOne(e, lim).Failed?;
    assert ParseAll(e, Fixed(lim), 0).0 == [];
  }

  /** Whatever the name and the limits, the answer is the entry of the name the server sees,
      if the request is sent and the server finds it. */
  lemma {:induction false} RemoteAnswerExactly(name: Bytes, limit: nat, lim: Limits, reg: Registry)
    ensures var t := SeenName(name);
      RemoteAnswer(name, limit, lim, reg) == if |name| <= limit && Finds(t, lim, reg) then Some(reg[t]) else None
  {
    var t := SeenName(name);
    if |name| <= limit {
      if |t| <= lim.name && Utf8.WellFormed(t) {
        TakenNameAnswers(name, t, lim, reg);
      } else {
        RefusedNameIsSilent(name, t, lim, reg);
      }
    }
  }

  /** Resolving a name remotely agrees with the server's own registry if and only if: it is
      bound, and the request is sent and the server finds the name it sees, bound to the same
      pid; or it is unbound, and no such name is found. For names below 2^32 bytes the
      name seen is the name itself (SeenName), and no slab allocates pid 0 before its
      generation wraps (NonZeroBeforeWrap). */
  lemma {:induction false} RemoteResolveExactly(name: Bytes, limit: nat, lim: Limits, reg: Registry)
    ensures var t := SeenName(name); var found := |name| <= limit && Finds(t, lim, reg);
      RemoteAnswer(name, limit, lim, reg) == Lookup(reg, name) <==>
      if name in reg then found && reg[t] == reg[name] else !found
  {
    RemoteAnswerExactly(name, limit, lim, reg);
  }

  /** A name of 2^32 bytes that is not registered resolves to the pid of the empty name. */
  lemma {:induction false} LongNameAliases(name: Bytes, limit: nat, lim: Limits, reg: Registry)
    requires |name| == WORD <= limit && name !in reg && [] in reg && reg[[]] != 0
    ensures RemoteAnswer(name, limit, lim, reg) == Some(reg[[]]) != Lookup(reg, name)
  {
    assert SeenName(name) == [];
    RemoteAnswerExactly(name, limit, lim, reg);
  }

  /** Every actor registered under a name within the limits is found. */
  lemma {:induction false} IssuedPidsResolve(h: SlabHistory, a: nat, name: Bytes, limit: nat, lim: Limits,
                                             reg: Registry)
    requires Inv(h) && NoWrap(h) && a < |h.log| && name in reg && reg[name] == h.log[a].pid
    requires |name| < WORD && Utf8.WellFormed(name) && |name| <= limit && |name| <= lim.name
    ensures RemoteAnswer(name, limit, lim, reg) == Some(h.log[a].pid)
  {
    NonZeroBeforeWrap(h, a);
    RemoteAnswerExactly(name, limit, lim, reg);
  }
}
