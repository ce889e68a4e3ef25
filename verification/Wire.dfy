// src/network.rs: the frames of the wire protocol, their encoding, and the parser as a
// function on the bytes of a connection.
module Wire {
  import opened Pids
  import opened Mailbox
  import Utf8

  // Big-endian integers.

  function Pow256(n: nat): nat {
    if n == 0 then 1 else 256 * Pow256(n - 1)
  }

  /** The low `n` bytes of `x`, most significant first; higher bytes are cut off. */
  function BE(x: nat, n: nat): (b: Bytes)
    ensures |b| == n
  {
    if n == 0 then [] else BE(x / 256, n - 1) + [x % 256]
  }

  function FromBE(b: Bytes): nat {
    if b == [] then 0 else FromBE(b[..|b| - 1]) * 256 + b[|b| - 1]
  }

  lemma {:induction false} FromBEofBE(x: nat, n: nat)
    requires x < Pow256(n)
    ensures FromBE(BE(x, n)) == x
  {
    if n > 0 {
      FromBEofBE(x / 256, n - 1);
      assert BE(x, n)[..n - 1] == BE(x / 256, n - 1);
    }
  }

  lemma {:induction false} BEofFromBE(b: Bytes)
    ensures BE(FromBE(b), |b|) == b && FromBE(b) < Pow256(|b|)
  {
    if b != [] {
      BEofFromBE(b[..|b| - 1]);
      assert b == b[..|b| - 1] + [b[|b| - 1]];
    }
  }

  function Shift(x: nat, bytes: nat): nat {
    if bytes == 0 then x else Shift(x / 256, bytes - 1)
  }

  /** Byte `j` of an `n`-byte field is the one `n` - 1 - `j` bytes up: most significant first. */
  lemma {:induction false} BEByte(x: nat, n: nat, j: nat)
    requires j < n
    ensures BE(x, n)[j] == Shift(x, n - 1 - j) % 256
  {
    if j < n - 1 {
      BEByte(x / 256, n - 1, j);
    }
  }

  lemma Pows()
    ensures Pow256(4) == WORD && Pow256(8) == WORD * WORD
  {
    assert Pow256(2) == 65536;
    assert Pow256(4) == 256 * 256 * Pow256(2);
    assert Pow256(6) == 256 * 256 * Pow256(4);
    assert Pow256(8) == 256 * 256 * Pow256(6);
  }

  // Frames.

  datatype Frame = UserFrame(pid: nat, data: Bytes) | ResolveFrame(name: Bytes) | PingFrame

  /** `send_remote`, `resolve_remote` and `monitor_remote`; the length is cut to 32 bits. */
  function Encode(f: Frame): Bytes {
    match f
    case UserFrame(pid, data) => [0] + BE(pid, 8) + BE(|data|, 4) + data
    case ResolveFrame(name) => [1] + BE(|name|, 4) + name
    case PingFrame => [2]
  }

  /** The layout of each frame: a type byte 0, 1 or 2, then big-endian fields, then the payload. */
  lemma Layout(f: Frame)
    ensures match f
      case UserFrame(pid, data) =>
        && |Encode(f)| == 13 + |data| && Encode(f)[0] == 0 && Encode(f)[13..] == data
        && (forall j :: 0 <= j < 8 ==> Encode(f)[1 + j] == BE(pid, 8)[j])
        && (forall j :: 0 <= j < 4 ==> Encode(f)[9 + j] == BE(|data|, 4)[j])
      case ResolveFrame(name) =>
        && |Encode(f)| == 5 + |name| && Encode(f)[0] == 1 && Encode(f)[5..] == name
        && (forall j :: 0 <= j < 4 ==> Encode(f)[1 + j] == BE(|name|, 4)[j])
      case PingFrame => Encode(f) == [2]
  {
  }

  datatype Limits = Limits(payload: nat, name: nat)

  /** What the receiver accepts. */
  predicate Acceptable(f: Frame, lim: Limits) {
    match f
    case UserFrame(pid, data) => pid < WORD * WORD && |data| < WORD && |data| <= lim.payload
    case ResolveFrame(name) => |name| < WORD && |name| <= lim.name && Utf8.WellFormed(name)
    case PingFrame => true
  }

  /** Why a frame cannot be taken from the stream. */
  datatype Failure = Ended | UnknownType | TooLarge | BadUtf8

  datatype Parsed = Parsed(f: Frame, size: nat) | Failed(why: Failure)

  /** The next frame of a stream, as the receiver reads it. */
  function ParseOne(s: Bytes, lim: Limits): Parsed {
    if s == [] then Failed(Ended)
    else if s[0] == 0 then
      if |s| < 13 then Failed(Ended)
      else
        var len := FromBE(s[9..13]);
        if len > lim.payload then Failed(TooLarge)
        else if |s| < 13 + len then Failed(Ended)
        else Parsed(UserFrame(FromBE(s[1..9]), s[13..13 + len]), 13 + len)
    else if s[0] == 1 then
      if |s| < 5 then Failed(Ended)
      else
        var len := FromBE(s[1..5]);
        if len > lim.name then Failed(TooLarge)
        else if |s| < 5 + len then Failed(Ended)
        else if !Utf8.WellFormed(s[5..5 + len]) then Failed(BadUtf8)
        else Parsed(ResolveFrame(s[5..5 + len]), 5 + len)
    else if s[0] == 2 then Parsed(PingFrame, 1)
    else Failed(UnknownType)
  }

  lemma ParsedIsEncoded(s: Bytes, lim: Limits)
    requires ParseOne(s, lim).Parsed?
    ensures var Parsed(f, size) := ParseOne(s, lim);
      Acceptable(f, lim) && 0 < size == |Encode(f)| <= |s| && s[..size] == Encode(f)
  {
    Pows();
    if s[0] == 0 {
      BEofFromBE(s[1..9]);
      BEofFromBE(s[9..13]);
      UserWhole(s, FromBE(s[9..13]));
    } else if s[0] == 1 {
      BEofFromBE(s[1..5]);
      ResolveWhole(s, FromBE(s[1..5]));
    }
  }

  lemma UserWhole(s: Bytes, len: nat)
    requires 13 + len <= |s| && s[0] == 0
    ensures s[..13 + len] == [0] + s[1..9] + s[9..13] + s[13..13 + len]
  {
  }

  lemma ResolveWhole(s: Bytes, len: nat)
    requires 5 + len <= |s| && s[0] == 1
    ensures s[..5 + len] == [1] + s[1..5] + s[5..5 + len]
  {
  }

  lemma Parts(a: Bytes, b: Bytes, c: Bytes)
    ensures (a + b + c)[..|a|] == a && (a + b + c)[|a|..|a| + |b|] == b && (a + b + c)[|a| + |b|..] == c
  {
  }

  lemma UserParts(p: Bytes, n: Bytes, data: Bytes, rest: Bytes)
    requires |p| == 8 && |n| == 4
    ensures var s := [0] + p + n + data + rest;
      s[0] == 0 && s[1..9] == p && s[9..13] == n && s[13..13 + |data|] == data
  {
    assert [0] + p + n + data + rest == [0] + p + (n + data + rest);
    Parts([0], p, n + data + rest);
    assert [0] + p + n + data + rest == ([0] + p) + n + (data + rest);
    Parts([0] + p, n, data + rest);
    Parts([0] + p + n, data, rest);
  }

  lemma ResolveParts(n: Bytes, name: Bytes, rest: Bytes)
    requires |n| == 4
    ensures var s := [1] + n + name + rest;
      s[0] == 1 && s[1..5] == n && s[5..5 + |name|] == name
  {
    assert [1] + n + name + rest == [1] + n + (name + rest);
    Parts([1], n, name + rest);
    Parts([1] + n, name, rest);
  }

  lemma EncodedParses(f: Frame, rest: Bytes, lim: Limits)
    requires Acceptable(f, lim)
    ensures ParseOne(Encode(f) + rest, lim) == Parsed(f, |Encode(f)|)
  {
    Pows();
    match f
    case UserFrame(pid, data) =>
      FromBEofBE(pid, 8);
      FromBEofBE(|data|, 4);
      UserParts(BE(pid, 8), BE(|data|, 4), data, rest);
    case ResolveFrame(name) =>
      FromBEofBE(|name|, 4);
      ResolveParts(BE(|name|, 4), name, rest);
    case PingFrame =>
  }

  /** A frame can be taken from a stream exactly when the stream starts with the encoding
      of an acceptable frame, and then it is that frame. */
  lemma ParseOneExactly(s: Bytes, lim: Limits)
    ensures ParseOne(s, lim).Parsed? <==> exists f :: Acceptable(f, lim) && Encode(f) <= s
    ensures forall f :: Acceptable(f, lim) && Encode(f) <= s ==> ParseOne(s, lim) == Parsed(f, |Encode(f)|)
  {
    if ParseOne(s, lim).Parsed? {
      ParsedIsEncoded(s, lim);
    }
    forall f | Acceptable(f, lim) && Encode(f) <= s
      ensures ParseOne(s, lim) == Parsed(f, |Encode(f)|)
    {
      EncodedParses(f, s[|Encode(f)|..], lim);
      assert s == Encode(f) + s[|Encode(f)|..];
    }
  }

  /** `send_remote` lets any payload within the limit through, but the length field holds
      32 bits: the frame arrives as sent exactly when the payload is shorter than 2^32. */
  lemma PayloadArrivesExactly(pid: nat, data: Bytes, lim: Limits)
    requires pid < WORD * WORD && |data| <= lim.payload
    ensures ParseOne(Encode(UserFrame(pid, data)), lim) == Parsed(UserFrame(pid, data), 13 + |data|) <==> |data| < WORD
  {
    var f := UserFrame(pid, data);
    if |data| < WORD {
      EncodedParses(f, [], lim);
      assert Encode(f) + [] == Encode(f);
    } else if ParseOne(Encode(f), lim).Parsed? {
      ParsedIsEncoded(Encode(f), lim);
    }
  }

  // Whole streams.

  function FlatMap(enc: Frame -> Bytes, fs: seq<Frame>): Bytes
    decreases |fs|
  {
    if fs == [] then [] else enc(fs[0]) + FlatMap(enc, fs[1..])
  }

  function EncodeAll(fs: seq<Frame>): Bytes {
    FlatMap(Encode, fs)
  }

  lemma {:induction false} FlatMapConcat(enc: Frame -> Bytes, fs: seq<Frame>, gs: seq<Frame>)
    ensures FlatMap(enc, fs + gs) == FlatMap(enc, fs) + FlatMap(enc, gs)
    decreases |fs|
  {
    if fs == [] {
      assert fs + gs == gs;
    } else {
      FlatMapConcat(enc, fs[1..], gs);
      assert (fs + gs)[1..] == fs[1..] + gs;
    }
  }

  lemma FlatMapOne(enc: Frame -> Bytes, f: Frame)
    ensures FlatMap(enc, [f]) == enc(f)
  {
    assert [f][1..] == [];
  }

  lemma EncodeAllConcat(fs: seq<Frame>, gs: seq<Frame>)
    ensures EncodeAll(fs + gs) == EncodeAll(fs) + EncodeAll(gs)
  {
    FlatMapConcat(Encode, fs, gs);
  }

  lemma EncodeAllOne(f: Frame)
    ensures EncodeAll([f]) == Encode(f)
  {
    FlatMapOne(Encode, f);
  }

  /** `lim(k)` are the limits in force when frame `k` of the connection is read; `fs` are the
      frames from number `k` on. */
  predicate AllAcceptable(fs: seq<Frame>, lim: nat -> Limits, k: nat) {
    forall i: nat :: i < |fs| ==> Acceptable(fs[i], lim(k + i))
  }

  /** The frames before the first failure, why it failed, and what was left. */
  function ParseAll(s: Bytes, lim: nat -> Limits, k: nat): (seq<Frame>, Failure, Bytes)
    decreases |s|
  {
    match ParseOne(s, lim(k))
    case Failed(why) => ([], why, s)
    case Parsed(f, size) =>
      ParsedIsEncoded(s, lim(k));
      var (fs, why, rest) := ParseAll(s[size..], lim, k + 1);
      ([f] + fs, why, rest)
  }

  /** No frame number `k` can be taken from `s`, because of `why`. */
  predicate Halts(s: Bytes, lim: nat -> Limits, k: nat, why: Failure) {
    ParseOne(s, lim(k)) == Failed(why)
  }

  /** `s` is the encoding of `fs`, acceptable from number `k` on, and of a rest that starts none. */
  ghost predicate Decomposes(s: Bytes, lim: nat -> Limits, k: nat, fs: seq<Frame>, why: Failure, rest: Bytes) {
    AllAcceptable(fs, lim, k) && s == EncodeAll(fs) + rest && Halts(rest, lim, k + |fs|, why)
  }

  lemma AcceptableTail(fs: seq<Frame>, lim: nat -> Limits, k: nat)
    requires fs != [] && AllAcceptable(fs, lim, k)
    ensures Acceptable(fs[0], lim(k)) && AllAcceptable(fs[1..], lim, k + 1)
  {
    assert lim(k + 0) == lim(k);
    forall i: nat | i < |fs[1..]| ensures Acceptable(fs[1..][i], lim(k + 1 + i)) {
      assert Acceptable(fs[i + 1], lim(k + (i + 1)));
    }
  }

  lemma AcceptableCons(f: Frame, fs: seq<Frame>, lim: nat -> Limits, k: nat)
    requires Acceptable(f, lim(k)) && AllAcceptable(fs, lim, k + 1)
    ensures AllAcceptable([f] + fs, lim, k)
  {
    forall i: nat | i < |[f] + fs| ensures Acceptable(([f] + fs)[i], lim(k + i)) {
      if i > 0 {
        assert Acceptable(fs[i - 1], lim(k + 1 + (i - 1)));
      }
    }
  }

  lemma {:induction false} DecomposesCons(s: Bytes, t: Bytes, lim: nat -> Limits, k: nat, f: Frame,
                                          fs: seq<Frame>, why: Failure, rest: Bytes)
    requires Acceptable(f, lim(k)) && s == Encode(f) + t && Decomposes(t, lim, k + 1, fs, why, rest)
    ensures Decomposes(s, lim, k, [f] + fs, why, rest)
  {
    AcceptableCons(f, fs, lim, k);
    EncodeAllCons(f, fs);
    Assoc(Encode(f), EncodeAll(fs), rest);
    assert k + 1 + |fs| == k + |[f] + fs|;
  }

  /** Any stream is the encoding of the frames taken from it, all acceptable, followed by
      bytes that start no acceptable frame. */
  lemma {:induction false} ParseAllSound(s: Bytes, lim: nat -> Limits, k: nat)
    ensures var (fs, why, rest) := ParseAll(s, lim, k); Decomposes(s, lim, k, fs, why, rest)
    decreases |s|
  {
    if ParseOne(s, lim(k)).Parsed? {
      var Parsed(f, size) := ParseOne(s, lim(k));
      assert Acceptable(f, lim(k)) && 0 < size <= |s| && s == Encode(f) + s[size..] by {
        ParsedIsEncoded(s, lim(k));
      }
      var t := s[size..];
      ParseAllSound(t, lim, k + 1);
      var (fs, why, rest) := ParseAll(t, lim, k + 1);
      DecomposesCons(s, t, lim, k, f, fs, why, rest);
    } else {
      assert EncodeAll([]) + s == s;
    }
  }

  lemma EncodeAllCons(f: Frame, fs: seq<Frame>)
    ensures EncodeAll([f] + fs) == Encode(f) + EncodeAll(fs)
  {
    EncodeAllConcat([f], fs);
    EncodeAllOne(f);
  }

  lemma Assoc(a: Bytes, b: Bytes, c: Bytes)
    ensures a + b + c == a + (b + c) && (a + b + c)[|a|..] == b + c
  {
  }

  /** What the receiver does first with a stream that starts with acceptable frames. */
  ghost predicate Takes(s: Bytes, lim: nat -> Limits, k: nat, f: Frame, rest: Bytes) {
    |rest| < |s| && ParseOne(s, lim(k)) == Parsed(f, |s| - |rest|) && s[|s| - |rest|..] == rest
  }

  lemma {:induction false} HeadParses(s: Bytes, lim: nat -> Limits, k: nat, fs: seq<Frame>, rest: Bytes)
    requires fs != [] && AllAcceptable(fs, lim, k) && s == EncodeAll(fs) + rest
    ensures Takes(s, lim, k, fs[0], EncodeAll(fs[1..]) + rest)
  {
    var e, es := Encode(fs[0]), EncodeAll(fs[1..]);
    assert fs == [fs[0]] + fs[1..];
    EncodeAllCons(fs[0], fs[1..]);
    Assoc(e, es, rest);
    AcceptableTail(fs, lim, k);
    EncodedParses(fs[0], es + rest, lim(k));
  }

  lemma TakesOne(s: Bytes, lim: nat -> Limits, k: nat, f: Frame, x: Bytes, g: Frame, y: Bytes)
    requires Takes(s, lim, k, f, x) && Takes(s, lim, k, g, y)
    ensures f == g && x == y
  {
  }

  lemma TakesOrHalts(s: Bytes, lim: nat -> Limits, k: nat, f: Frame, x: Bytes, why: Failure)
    requires Takes(s, lim, k, f, x)
    ensures !Halts(s, lim, k, why)
  {
  }

  lemma {:induction false} DecomposesTail(s: Bytes, lim: nat -> Limits, k: nat, fs: seq<Frame>, why: Failure,
                                          rest: Bytes)
    requires fs != [] && Decomposes(s, lim, k, fs, why, rest)
    ensures var t := EncodeAll(fs[1..]) + rest;
      Takes(s, lim, k, fs[0], t) && Decomposes(t, lim, k + 1, fs[1..], why, rest)
  {
    HeadParses(s, lim, k, fs, rest);
    AcceptableTail(fs, lim, k);
    assert k + 1 + |fs[1..]| == k + |fs|;
  }

  lemma DecomposesNone(s: Bytes, lim: nat -> Limits, k: nat, why: Failure, rest: Bytes)
    requires Decomposes(s, lim, k, [], why, rest)
    ensures s == rest && Halts(s, lim, k, why)
  {
    assert EncodeAll([]) + rest == rest;
  }

  lemma HaltsOnce(s: Bytes, lim: nat -> Limits, k: nat, v: Failure, w: Failure)
    requires Halts(s, lim, k, v) && Halts(s, lim, k, w)
    ensures v == w
  {
  }

  /** The decomposition of a stream into acceptable frames and a rest that starts none is unique. */
  lemma {:induction false} OneDecomposition(s: Bytes, lim: nat -> Limits, k: nat, fs: seq<Frame>, v: Failure, x: Bytes,
                                            gs: seq<Frame>, w: Failure, y: Bytes)
    requires Decomposes(s, lim, k, fs, v, x) && Decomposes(s, lim, k, gs, w, y)
    ensures fs == gs && v == w && x == y
    decreases |fs|
  {
    if fs == [] {
      DecomposesNone(s, lim, k, v, x);
      if gs == [] {
        DecomposesNone(s, lim, k, w, y);
        HaltsOnce(s, lim, k, v, w);
      } else {
        DecomposesTail(s, lim, k, gs, w, y);
        TakesOrHalts(s, lim, k, gs[0], EncodeAll(gs[1..]) + y, v);
      }
    } else {
      DecomposesTail(s, lim, k, fs, v, x);
      TakesOrHalts(s, lim, k, fs[0], EncodeAll(fs[1..]) + x, w);
      if gs == [] {
        DecomposesNone(s, lim, k, w, y);
      } else {
        DecomposesTail(s, lim, k, gs, w, y);
        TakesOne(s, lim, k, fs[0], EncodeAll(fs[1..]) + x, gs[0], EncodeAll(gs[1..]) + y);
        OneDecomposition(EncodeAll(fs[1..]) + x, lim, k + 1, fs[1..], v, x, gs[1..], w, y);
        assert fs == [fs[0]] + fs[1..] && gs == [gs[0]] + gs[1..];
      }
    }
  }

  lemma {:induction false} ParseAllUnique(s: Bytes, lim: nat -> Limits, k: nat, fs: seq<Frame>, why: Failure,
                                          rest: Bytes)
    requires Decomposes(s, lim, k, fs, why, rest)
    ensures ParseAll(s, lim, k) == (fs, why, rest)
  {
    ParseAllSound(s, lim, k);
    var (gs, w, y) := ParseAll(s, lim, k);
    OneDecomposition(s, lim, k, gs, w, y, fs, why, rest);
  }

  lemma AcceptableConcat(fs: seq<Frame>, gs: seq<Frame>, lim: nat -> Limits, k: nat)
    requires AllAcceptable(fs, lim, k) && AllAcceptable(gs, lim, k + |fs|)
    ensures AllAcceptable(fs + gs, lim, k)
  {
    forall i: nat | i < |fs + gs| ensures Acceptable((fs + gs)[i], lim(k + i)) {
      if i >= |fs| {
        assert Acceptable(gs[i - |fs|], lim(k + |fs| + (i - |fs|)));
      }
    }
  }

  lemma {:induction false} DecomposesConcat(fs: seq<Frame>, s: Bytes, lim: nat -> Limits, k: nat,
                                            gs: seq<Frame>, why: Failure,
                         rest: Bytes)
    requires AllAcceptable(fs, lim, k) && Decomposes(s, lim, k + |fs|, gs, why, rest)
    ensures Decomposes(EncodeAll(fs) + s, lim, k, fs + gs, why, rest)
  {
    AcceptableConcat(fs, gs, lim, k);
    assert k + |fs| + |gs| == k + |fs + gs|;
    EncodeAllConcat(fs, gs);
    Assoc(EncodeAll(fs), EncodeAll(gs), rest);
  }

  lemma {:induction false} ParsedDecomposes(s: Bytes, lim: nat -> Limits, k: nat, gs: seq<Frame>, why: Failure,
                                            rest: Bytes)
    requires ParseAll(s, lim, k) == (gs, why, rest)
    ensures Decomposes(s, lim, k, gs, why, rest)
  {
    ParseAllSound(s, lim, k);
  }

  lemma {:induction false} FramesThenDecomposed(fs: seq<Frame>, s: Bytes, t: Bytes, lim: nat -> Limits, k: nat,
                                                gs: seq<Frame>, why: Failure, rest: Bytes)
    requires AllAcceptable(fs, lim, k) && t == EncodeAll(fs) + s && Decomposes(s, lim, k + |fs|, gs, why, rest)
    ensures ParseAll(t, lim, k) == (fs + gs, why, rest)
  {
    DecomposesConcat(fs, s, lim, k, gs, why, rest);
    ParseAllUnique(t, lim, k, fs + gs, why, rest);
  }

  /** Whatever follows them, well-sent frames are taken as sent, and the rest is read as if
      it stood alone. In particular corruption behind them cannot touch them. */
  lemma {:induction false} FramesThenAnything(fs: seq<Frame>, s: Bytes, t: Bytes, lim: nat -> Limits, k: nat,
                                              gs: seq<Frame>, why: Failure, rest: Bytes)
    requires AllAcceptable(fs, lim, k) && t == EncodeAll(fs) + s
    requires ParseAll(s, lim, k + |fs|) == (gs, why, rest)
    ensures ParseAll(t, lim, k) == (fs + gs, why, rest)
  {
    ParsedDecomposes(s, lim, k + |fs|, gs, why, rest);
    FramesThenDecomposed(fs, s, t, lim, k, gs, why, rest);
  }

  lemma EncodeAllSplit(fs: seq<Frame>, m: nat)
    requires m < |fs|
    ensures EncodeAll(fs) == EncodeAll(fs[..m]) + Encode(fs[m]) + EncodeAll(fs[m + 1..])
  {
    assert fs == fs[..m] + [fs[m]] + fs[m + 1..];
    EncodeAllConcat(fs[..m] + [fs[m]], fs[m + 1..]);
    EncodeAllConcat(fs[..m], [fs[m]]);
    EncodeAllOne(fs[m]);
  }

  /** A proper prefix of the encoding of an acceptable frame starts no acceptable frame:
      the receiver can only find that the stream ended. */
  lemma CutFrameEnds(f: Frame, k: nat, lim: Limits)
    requires Acceptable(f, lim) && k < |Encode(f)|
    ensures ParseOne(Encode(f)[..k], lim) == Failed(Ended)
  {
    Pows();
    var s := Encode(f)[..k];
    match f
    case UserFrame(pid, data) =>
      FromBEofBE(|data|, 4);
      UserParts(BE(pid, 8), BE(|data|, 4), data, []);
      assert k > 0 ==> s[0] == 0;
      if k >= 13 {
        assert s[9..13] == Encode(f)[9..13] == (Encode(f) + [])[9..13];
      }
    case ResolveFrame(name) =>
      FromBEofBE(|name|, 4);
      ResolveParts(BE(|name|, 4), name, []);
      assert k > 0 ==> s[0] == 1;
      if k >= 5 {
        assert s[1..5] == Encode(f)[1..5] == (Encode(f) + [])[1..5];
      }
    case PingFrame =>
  }

  /** A stream cut anywhere yields exactly the frames that arrived complete: a prefix of
      what was sent, in order. So does a writer that dies in the middle of a frame. */
  lemma {:induction false} CutYieldsPrefix(fs: seq<Frame>, m: nat, cut: nat, lim: nat -> Limits, k: nat)
    requires AllAcceptable(fs, lim, k) && m < |fs| && cut < |Encode(fs[m])|
    ensures var n := |EncodeAll(fs[..m])| + cut;
      n < |EncodeAll(fs)| && ParseAll(EncodeAll(fs)[..n], lim, k) == (fs[..m], Ended, Encode(fs[m])[..cut])
  {
    EncodeAllSplit(fs, m);
    TakeConcat(EncodeAll(fs[..m]), Encode(fs[m]), EncodeAll(fs[m + 1..]), cut);
    CutFrameEnds(fs[m], cut, lim(k + m));
    ParseAllUnique(EncodeAll(fs[..m]) + Encode(fs[m])[..cut], lim, k, fs[..m], Ended, Encode(fs[m])[..cut]);
  }

  lemma TakeConcat(a: Bytes, b: Bytes, c: Bytes, k: nat)
    requires k < |b|
    ensures |a| + k < |a + b + c| && (a + b + c)[..|a| + k] == a + b[..k]
  {
  }

  /** Uncut, the stream yields everything. */
  lemma RoundTrip(fs: seq<Frame>, lim: nat -> Limits, k: nat)
    requires AllAcceptable(fs, lim, k)
    ensures ParseAll(EncodeAll(fs), lim, k) == (fs, Ended, [])
  {
    assert EncodeAll(fs) + [] == EncodeAll(fs);
    ParseAllUnique(EncodeAll(fs), lim, k, fs, Ended, []);
  }
}
