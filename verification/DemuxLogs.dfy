/**
 Taking the frame headers out of a container's log stream: each frame is an eight-byte
 header (stream, three zeros, big-endian length) and its payload.
 */
module DemuxLogs {
  type Byte = b: int | 0 <= b < 256

  const HEADER := 8

  predicate GoodHeader(raw: seq<Byte>)
    requires |raw| >= HEADER
  {
    raw[0] in {0, 1, 2} && raw[1] == 0 && raw[2] == 0 && raw[3] == 0
  }

  /** The length a header announces. */
  function Announced(raw: seq<Byte>): nat
    requires |raw| >= HEADER
  {
    raw[4] as int * 0x100_0000 + raw[5] as int * 0x1_0000 + raw[6] as int * 0x100 + raw[7] as int
  }

  /** What the loop returns from `raw`, with `out` already taken out. */
  function Demuxed(out: seq<Byte>, raw: seq<Byte>): seq<Byte>
    decreases |raw|
  {
    if |raw| < HEADER then out
    else if !GoodHeader(raw) then raw
    else if HEADER + Announced(raw) > |raw| then out + raw[HEADER..]
    else Demuxed(out + raw[HEADER..HEADER + Announced(raw)], raw[HEADER + Announced(raw)..])
  }

  method Demux(raw0: seq<Byte>) returns (text: seq<Byte>)
    ensures text == Demuxed([], raw0)
  {
    var raw := raw0;
    var out: seq<Byte> := [];
    while |raw| >= HEADER
      invariant Demuxed(out, raw) == Demuxed([], raw0)
      decreases |raw|
    {
      var stream := raw[0];
      if (stream != 0 && stream != 1 && stream != 2) || raw[1] != 0 || raw[2] != 0 || raw[3] != 0 {
        return raw;
      }
      var size := raw[4] as int * 0x100_0000 + raw[5] as int * 0x1_0000 + raw[6] as int * 0x100 + raw[7] as int;
      if HEADER + size > |raw| {
        return out + raw[HEADER..];
      }
      out := out + raw[HEADER..HEADER + size];
      raw := raw[HEADER + size..];
    }
    text := out;
  }

  // ---------- the framing it undoes ----------

  datatype Frame = Frame(stream: Byte, payload: seq<Byte>)

  predicate WellSized(f: Frame) {
    f.stream in {0, 1, 2} && |f.payload| < 0x1_0000_0000
  }

  predicate AllSized(frames: seq<Frame>) {
    frames == [] || (WellSized(frames[0]) && AllSized(frames[1..]))
  }

  function Header(stream: Byte, n: nat): (h: seq<Byte>)
    requires n < 0x1_0000_0000
    ensures |h| == HEADER
  {
    [stream, 0, 0, 0, n / 0x100_0000, n / 0x1_0000 % 0x100, n / 0x100 % 0x100, n % 0x100]
  }

  function Encoded(frames: seq<Frame>): seq<Byte>
    requires AllSized(frames)
  {
    if frames == [] then []
    else
      assert WellSized(frames[0]);
      Header(frames[0].stream, |frames[0].payload|) + frames[0].payload + Encoded(frames[1..])
  }

  function Payloads(frames: seq<Frame>): seq<Byte> {
    if frames == [] then [] else frames[0].payload + Payloads(frames[1..])
  }

  /** Four bytes hold any length under 2^32. */
  lemma BigEndian(n: nat)
    requires n < 0x1_0000_0000
    ensures n / 0x100_0000 * 0x100_0000 + n / 0x1_0000 % 0x100 * 0x1_0000 + n / 0x100 % 0x100 * 0x100 + n % 0x100 == n
  {
    assert n / 0x100 / 0x100 == n / 0x1_0000 && n / 0x1_0000 / 0x100 == n / 0x100_0000;
  }

  lemma HeaderAnnounces(stream: Byte, n: nat, rest: seq<Byte>)
    requires n < 0x1_0000_0000 && stream in {0, 1, 2}
    ensures var raw := Header(stream, n) + rest;
            |raw| >= HEADER && GoodHeader(raw) && Announced(raw) == n
  {
    BigEndian(n);
  }

  /** One frame in front: its payload is taken out and the rest goes on. */
  lemma DemuxedFrame(out: seq<Byte>, f: Frame, rest: seq<Byte>)
    requires WellSized(f)
    ensures Demuxed(out, Header(f.stream, |f.payload|) + f.payload + rest) == Demuxed(out + f.payload, rest)
  {
    var raw := Header(f.stream, |f.payload|) + f.payload + rest;
    assert raw == Header(f.stream, |f.payload|) + (f.payload + rest);
    HeaderAnnounces(f.stream, |f.payload|, f.payload + rest);
    assert raw[HEADER..HEADER + |f.payload|] == f.payload;
    assert raw[HEADER + |f.payload|..] == rest;
  }

  /** Whatever follows whole frames is read as if it came first, with their payloads taken out. */
  lemma {:induction false} DemuxedFrames(out: seq<Byte>, frames: seq<Frame>, rest: seq<Byte>)
    requires AllSized(frames)
    ensures Demuxed(out, Encoded(frames) + rest) == Demuxed(out + Payloads(frames), rest)
    decreases frames
  {
    if frames == [] {
      assert Encoded(frames) + rest == rest && out + Payloads(frames) == out;
    } else {
      var f, more := frames[0], frames[1..];
      assert Encoded(frames) + rest == Header(f.stream, |f.payload|) + f.payload + (Encoded(more) + rest);
      DemuxedFrame(out, f, Encoded(more) + rest);
      DemuxedFrames(out + f.payload, more, rest);
      assert out + f.payload + Payloads(more) == out + Payloads(frames);
    }
  }

  /** Demultiplexing undoes framing. */
  lemma DemuxUndoesFraming(frames: seq<Frame>)
    requires AllSized(frames)
    ensures Demuxed([], Encoded(frames)) == Payloads(frames)
  {
    DemuxedFrames([], frames, []);
    DemuxedWhole(Encoded(frames), Payloads(frames));
  }

  lemma DemuxedWhole(raw: seq<Byte>, all: seq<Byte>)
    requires Demuxed([], raw + []) == Demuxed([] + all, [])
    ensures Demuxed([], raw) == all
  {
    assert raw + [] == raw && [] + all == all;
    assert Demuxed(all, []) == all;
  }

  /** A cut inside the first frame: nothing of a cut header, and what arrived of the payload. */
  lemma DemuxedCutFrame(out: seq<Byte>, f: Frame, rest: seq<Byte>, cut: nat)
    requires WellSized(f) && cut < HEADER + |f.payload|
    ensures var raw := Header(f.stream, |f.payload|) + (f.payload + rest);
            Demuxed(out, raw[..cut]) == if cut < HEADER then out else out + f.payload[..cut - HEADER]
  {
    if cut >= HEADER {
      var kept := f.payload[..cut - HEADER];
      var head := Header(f.stream, |f.payload|);
      assert (head + (f.payload + rest))[..cut] == head + kept;
      HeaderAnnounces(f.stream, |f.payload|, kept);
      assert (head + kept)[HEADER..] == kept;
    }
  }

  /** A cut after the first frame. */
  lemma DemuxedLaterCut(out: seq<Byte>, f: Frame, rest: seq<Byte>, left: nat)
    requires WellSized(f) && left <= |rest|
    ensures var raw := Header(f.stream, |f.payload|) + (f.payload + rest);
            Demuxed(out, raw[..HEADER + |f.payload| + left]) == Demuxed(out + f.payload, rest[..left])
  {
    var head := Header(f.stream, |f.payload|);
    assert (head + (f.payload + rest))[..HEADER + |f.payload| + left] == head + f.payload + rest[..left];
    DemuxedFrame(out, f, rest[..left]);
  }

  /** How many payload bytes are among the first `cut` bytes of the encoding. */
  function Arrived(frames: seq<Frame>, cut: nat): (n: nat)
    ensures n <= |Payloads(frames)|
  {
    if frames == [] then 0
    else if cut < HEADER + |frames[0].payload| then if cut < HEADER then 0 else cut - HEADER
    else |frames[0].payload| + Arrived(frames[1..], cut - HEADER - |frames[0].payload|)
  }

  /** Payload bytes up to somewhere in the first frame, and up to somewhere after it. */
  lemma PayloadsUpTo(out: seq<Byte>, frames: seq<Frame>, n: nat, m: nat)
    requires frames != [] && n <= |frames[0].payload| && m <= |Payloads(frames[1..])|
    ensures frames[0].payload[..n] == Payloads(frames)[..n]
    ensures out + frames[0].payload + Payloads(frames[1..])[..m] == out + Payloads(frames)[..|frames[0].payload| + m]
  {
    UpTo(out, frames[0].payload, Payloads(frames[1..]), n, m);
  }

  lemma UpTo(out: seq<Byte>, first: seq<Byte>, more: seq<Byte>, n: nat, m: nat)
    requires n <= |first| && m <= |more|
    ensures first[..n] == (first + more)[..n]
    ensures out + first + more[..m] == out + (first + more)[..|first| + m]
  {
  }

  lemma EncodedFirst(frames: seq<Frame>)
    requires frames != [] && AllSized(frames)
    ensures var f := frames[0];
            Encoded(frames) == Header(f.stream, |f.payload|) + (f.payload + Encoded(frames[1..]))
  {
  }

  lemma TruncatedInFirst(out: seq<Byte>, frames: seq<Frame>, cut: nat)
    requires frames != [] && AllSized(frames)
    requires cut < HEADER + |frames[0].payload| && cut <= |Encoded(frames)|
    ensures Demuxed(out, Encoded(frames)[..cut]) == out + Payloads(frames)[..Arrived(frames, cut)]
  {
    EncodedFirst(frames);
    DemuxedCutFrame(out, frames[0], Encoded(frames[1..]), cut);
    PayloadsUpTo(out, frames, if cut < HEADER then 0 else cut - HEADER, 0);
    assert out + [] == out;
  }

  lemma TruncatedAfterFirst(out: seq<Byte>, frames: seq<Frame>, left: nat)
    requires frames != [] && AllSized(frames)
    requires left <= |Encoded(frames[1..])|
    ensures var f := frames[0];
            var cut := HEADER + |f.payload| + left;
            cut <= |Encoded(frames)|
            && Demuxed(out, Encoded(frames)[..cut]) == Demuxed(out + f.payload, Encoded(frames[1..])[..left])
  {
    EncodedFirst(frames);
    DemuxedLaterCut(out, frames[0], Encoded(frames[1..]), left);
  }

  /** A truncated stream gives exactly the payload bytes that arrived: a prefix of all of them. */
  lemma {:induction false} TruncatedGivesPrefix(out: seq<Byte>, frames: seq<Frame>, cut: nat)
    requires AllSized(frames)
    requires cut <= |Encoded(frames)|
    ensures Demuxed(out, Encoded(frames)[..cut]) == out + Payloads(frames)[..Arrived(frames, cut)]
    decreases |frames|
  {
    if frames == [] {
      assert out + [] == out;
    } else if cut < HEADER + |frames[0].payload| {
      TruncatedInFirst(out, frames, cut);
    } else {
      var f, left := frames[0], cut - HEADER - |frames[0].payload|;
      TruncatedReaches(frames, left);
      TruncatedGivesPrefix(out + f.payload, frames[1..], left);
      TruncatedGoesOn(out, frames, left);
    }
  }

  lemma TruncatedReaches(frames: seq<Frame>, left: nat)
    requires frames != [] && AllSized(frames)
    requires HEADER + |frames[0].payload| + left <= |Encoded(frames)|
    ensures left <= |Encoded(frames[1..])|
  {
    EncodedFirst(frames);
  }

  /** What holds after the first frame holds with it. */
  lemma TruncatedGoesOn(out: seq<Byte>, frames: seq<Frame>, left: nat)
    requires frames != [] && AllSized(frames)
    requires left <= |Encoded(frames[1..])| && HEADER + |frames[0].payload| + left <= |Encoded(frames)|
    requires Demuxed(out + frames[0].payload, Encoded(frames[1..])[..left])
             == out + frames[0].payload + Payloads(frames[1..])[..Arrived(frames[1..], left)]
    ensures var cut := HEADER + |frames[0].payload| + left;
            Demuxed(out, Encoded(frames)[..cut]) == out + Payloads(frames)[..Arrived(frames, cut)]
  {
    TruncatedAfterFirst(out, frames, left);
    PayloadsUpTo(out, frames, 0, Arrived(frames[1..], left));
  }

  // ---------- text that was never framed ----------

  lemma {:induction false} DemuxedShrinks(out: seq<Byte>, raw: seq<Byte>)
    ensures |Demuxed(out, raw)| <= |out| + |raw|
    decreases |raw|
  {
    if |raw| >= HEADER && GoodHeader(raw) && HEADER + Announced(raw) <= |raw| {
      DemuxedShrinks(out + raw[HEADER..HEADER + Announced(raw)], raw[HEADER + Announced(raw)..]);
    }
  }

  /**
   Text comes back as it is exactly when it is empty, or has eight bytes or more that do not
   look like a header.  Shorter text without a header is lost, although it is meant to be
   returned as it came.
   */
  lemma ReturnedAsIsIff(raw: seq<Byte>)
    ensures Demuxed([], raw) == raw <==> raw == [] || (|raw| >= HEADER && !GoodHeader(raw))
    ensures |raw| < HEADER ==> Demuxed([], raw) == []
  {
    if |raw| >= HEADER && GoodHeader(raw) && HEADER + Announced(raw) <= |raw| {
      var n := Announced(raw);
      DemuxedShrinks([] + raw[HEADER..HEADER + n], raw[HEADER + n..]);
    }
  }

  // ---------- headers that are wrong later on ----------

  /** Taking frames off the front comes to eight bytes that are no header. */
  predicate EndsBadly(raw: seq<Byte>)
    decreases |raw|
  {
    |raw| >= HEADER &&
    (!GoodHeader(raw) || (HEADER + Announced(raw) <= |raw| && EndsBadly(raw[HEADER + Announced(raw)..])))
  }

  /** What was taken out so far stays in front, or is dropped whole. */
  lemma {:induction false} DemuxedKeeps(out: seq<Byte>, raw: seq<Byte>)
    ensures Demuxed(out, raw) == if EndsBadly(raw) then Demuxed([], raw) else out + Demuxed([], raw)
    decreases |raw|
  {
    if |raw| >= HEADER && GoodHeader(raw) && HEADER + Announced(raw) <= |raw| {
      var payload, rest := raw[HEADER..HEADER + Announced(raw)], raw[HEADER + Announced(raw)..];
      assert [] + payload == payload && out + payload + Demuxed([], rest) == out + (payload + Demuxed([], rest));
      DemuxedKeeps(out + payload, rest);
      DemuxedKeeps(payload, rest);
    } else {
      assert out + [] == out && out + ([] + raw) == out + raw;
    }
  }

  /**
   The payloads of whole frames survive in front of what their successors give exactly when
   there is nothing in them to lose or no header further on is wrong.
   */
  lemma PayloadsSurviveIff(frames: seq<Frame>, rest: seq<Byte>)
    requires AllSized(frames)
    ensures Demuxed([], Encoded(frames) + rest) == Payloads(frames) + Demuxed([], rest)
            <==> Payloads(frames) == [] || !EndsBadly(rest)
  {
    DemuxedFrames([], frames, rest);
    assert [] + Payloads(frames) == Payloads(frames);
    DemuxedKeeps(Payloads(frames), rest);
    assert Payloads(frames) == [] ==> Payloads(frames) + Demuxed([], rest) == Demuxed([], rest);
    assert Payloads(frames) != [] ==> |Payloads(frames) + Demuxed([], rest)| > |Demuxed([], rest)|;
  }

  /** No whole frame begins the text: it is too short, begins with no header, or its payload was cut. */
  predicate NoWholeFrame(rest: seq<Byte>) {
    |rest| < HEADER || !GoodHeader(rest) || HEADER + Announced(rest) > |rest|
  }

  /** Everything is whole frames and what follows the last of them. */
  lemma {:induction false} EveryTextIsFramesAndRest(raw: seq<Byte>) returns (frames: seq<Frame>, rest: seq<Byte>)
    ensures AllSized(frames)
    ensures raw == Encoded(frames) + rest && NoWholeFrame(rest)
    ensures EndsBadly(raw) <==> |rest| >= HEADER && !GoodHeader(rest)
    decreases |raw|
  {
    if NoWholeFrame(raw) {
      frames, rest := [], raw;
      assert [] + raw == raw;
    } else {
      var n := Announced(raw);
      var more;
      more, rest := EveryTextIsFramesAndRest(raw[HEADER + n..]);
      FrameInFront(raw, more, rest);
      frames := [Frame(raw[0], raw[HEADER..HEADER + n])] + more;
    }
  }

  /** A text that begins with a whole frame is that frame and the rest. */
  lemma FrameInFront(raw: seq<Byte>, more: seq<Frame>, rest: seq<Byte>)
    requires !NoWholeFrame(raw) && AllSized(more)
    requires raw[HEADER + Announced(raw)..] == Encoded(more) + rest
    ensures var frames := [Frame(raw[0], raw[HEADER..HEADER + Announced(raw)])] + more;
            AllSized(frames) && raw == Encoded(frames) + rest
  {
    var n := Announced(raw);
    var f := Frame(raw[0], raw[HEADER..HEADER + n]);
    AnnouncedFits(raw);
    HeaderReadsBack(raw);
    var frames := [f] + more;
    assert WellSized(f) && frames[1..] == more;
    Rejoined(raw, Header(f.stream, n), f.payload, Encoded(more), rest);
  }

  lemma Rejoined(raw: seq<Byte>, head: seq<Byte>, payload: seq<Byte>, more: seq<Byte>, rest: seq<Byte>)
    requires |head| == HEADER && HEADER + |payload| <= |raw|
    requires raw[..HEADER] == head && raw[HEADER..HEADER + |payload|] == payload && raw[HEADER + |payload|..] == more + rest
    ensures raw == head + payload + more + rest
  {
    assert raw == raw[..HEADER] + raw[HEADER..HEADER + |payload|] + raw[HEADER + |payload|..];
  }

  lemma AnnouncedFits(raw: seq<Byte>)
    requires |raw| >= HEADER
    ensures Announced(raw) < 0x1_0000_0000
  {
  }

  /** A good header is the header of what it announces. */
  lemma HeaderReadsBack(raw: seq<Byte>)
    requires |raw| >= HEADER && GoodHeader(raw) && Announced(raw) < 0x1_0000_0000
    ensures raw[..HEADER] == Header(raw[0], Announced(raw))
  {
    Digits(raw[4], raw[5], raw[6], raw[7]);
  }

  lemma Digits(a: Byte, b: Byte, c: Byte, d: Byte)
    ensures var n := a as int * 0x100_0000 + b as int * 0x1_0000 + c as int * 0x100 + d as int;
            n / 0x100_0000 == a && n / 0x1_0000 % 0x100 == b && n / 0x100 % 0x100 == c && n % 0x100 == d
  {
    var n := a as int * 0x100_0000 + b as int * 0x1_0000 + c as int * 0x100 + d as int;
    assert n / 0x100 == a as int * 0x1_0000 + b as int * 0x100 + c as int;
    assert n / 0x1_0000 == a as int * 0x100 + b as int;
  }

  /** A header that is wrong right after whole frames: only what follows them is returned, as it is. */
  lemma LateBadHeaderDropsFrames(frames: seq<Frame>, rest: seq<Byte>)
    requires AllSized(frames)
    requires |rest| >= HEADER && !GoodHeader(rest)
    ensures Demuxed([], Encoded(frames) + rest) == rest
  {
    DemuxedFrames([], frames, rest);
  }
}
