/** Length-prefixed frames over a byte stream that arrives in arbitrary pieces. */
module Frames {
  import opened LittleEndian

  /** What a read returns is never empty; an empty read is the end of the stream. */
  type Piece = b: Bytes | b != [] witness [0]

  /** What the transport will do, in order: deliver a piece, be interrupted, or fail. */
  datatype Event = Data(bytes: Piece) | Interrupted | Broken

  type Stream = seq<Event>

  datatype Status = Full | Eof | Failed

  datatype Taken = Taken(got: Bytes, rest: Stream, status: Status)

  datatype Fault = Io | ShortHeader | TooLong | ShortPayload

  datatype Result = Frame(payload: Bytes) | End | Fail(fault: Fault)

  function Flat(s: Stream): Bytes {
    if s == [] then [] else (if s[0].Data? then s[0].bytes else []) + Flat(s[1..])
  }

  /** Reads until `n` bytes are in; the header loop retries interruptions, `read_exact` does not. */
  function Take(s: Stream, n: nat, patient: bool): (r: Taken)
    ensures |r.got| <= n && (r.status == Full <==> |r.got| == n) && (r.status == Eof ==> r.rest == [])
    decreases n, |s|
  {
    if n == 0 then Taken([], s, Full)
    else if s == [] then Taken([], s, Eof)
    else
      match s[0]
      case Data(b) =>
        if |b| > n then Taken(b[..n], [Data(b[n..])] + s[1..], Full)
        else var r := Take(s[1..], n - |b|, patient); Taken(b + r.got, r.rest, r.status)
      case Interrupted => if patient then Take(s[1..], n, patient) else Taken([], s[1..], Failed)
      case Broken => Taken([], s[1..], Failed)
  }

  function ReadFrame(s: Stream, max: nat): (Result, Stream) {
    var h := Take(s, 4, true);
    if h.status == Failed then (Fail(Io), h.rest)
    else if |h.got| == 0 then (End, h.rest)
    else if |h.got| < 4 then (Fail(ShortHeader), h.rest)
    else if OfLe(h.got) > max then (Fail(TooLong), h.rest)
    else
      var p := Take(h.rest, OfLe(h.got), false);
      match p.status
      case Full => (Frame(p.got), p.rest)
      case Eof => (Fail(ShortPayload), p.rest)
      case Failed => (Fail(Io), p.rest)
  }

  // ---------------------------------------------------------------- pieces do not show

  /** No failure, and no interruption while the next `n` bytes come in. */
  ghost predicate Undisturbed(s: Stream, n: nat, patient: bool) { Take(s, n, patient).status != Failed }

  ghost predicate Whole(s: Stream) { forall i :: 0 <= i < |s| ==> s[i].Data? }

  /** What was taken is the front of what was to come. */
  ghost predicate IsFront(all: Bytes, n: nat, got: Bytes, left: Bytes, status: Status) {
    && all == got + left
    && (status == Eof ==> left == [])
    && (status == Full <==> |all| >= n)
    && got == if |all| >= n then all[..n] else all
  }

  lemma {:induction false} TakeIsPrefix(s: Stream, n: nat, patient: bool)
    requires Undisturbed(s, n, patient)
    ensures var t := Take(s, n, patient); IsFront(Flat(s), n, t.got, Flat(t.rest), t.status)
    decreases n, |s|
  {
    hide IsFront;
    if n == 0 {
      FrontOfNone(Flat(s));
    } else if s == [] {
      FrontOfNothing(n);
    } else {
      match s[0]
      case Data(b) =>
        assert Flat(s) == b + Flat(s[1..]);
        if |b| > n {
          SplitPiece(b, n, s[1..]);
          FrontOfPiece(b, n, Flat(s[1..]));
        } else {
          TakeIsPrefix(s[1..], n - |b|, patient);
          var r := Take(s[1..], n - |b|, patient);
          FrontAfter(b, Flat(s[1..]), n - |b|, r.got, Flat(r.rest), r.status);
        }
      case Interrupted =>
        assert Flat(s) == Flat(s[1..]);
        TakeIsPrefix(s[1..], n, patient);
    }
  }

  lemma FrontOfNone(all: Bytes)
    ensures IsFront(all, 0, [], all, Full)
  {
    assert all == [] + all;
  }

  lemma FrontOfNothing(n: nat)
    requires n > 0
    ensures IsFront([], n, [], [], Eof)
  {}

  lemma FrontOfPiece(b: Bytes, n: nat, more: Bytes)
    requires n < |b|
    ensures IsFront(b + more, n, b[..n], b[n..] + more, Full)
  {
    assert b + more == b[..n] + (b[n..] + more);
  }

  lemma FrontAfter(b: Bytes, all: Bytes, n: nat, got: Bytes, left: Bytes, status: Status)
    requires IsFront(all, n, got, left, status)
    ensures IsFront(b + all, |b| + n, b + got, left, status)
  {
    assert b + (got + left) == (b + got) + left;
    if |all| >= n { assert b + all[..n] == (b + all)[..|b| + n]; }
  }

  lemma SplitPiece(b: Piece, n: nat, s: Stream)
    requires n < |b|
    ensures Flat([Data(b[n..])] + s) == b[n..] + Flat(s)
  {
    assert ([Data(b[n..])] + s)[1..] == s;
  }

  // ---------------------------------------------------------------- whole conversations

  function Encoded(p: Bytes): Bytes { ToLe(|p|, 4) + p }

  function EncodedAll(ps: seq<Bytes>): Bytes {
    if ps == [] then [] else Encoded(ps[0]) + EncodedAll(ps[1..])
  }

  /** Every frame that can be read, and how the reading ended. */
  ghost function ReadAll(s: Stream, max: nat): (seq<Bytes>, Result)
    decreases |Flat(s)|
  {
    var (r, rest) := ReadFrame(s, max);
    if r.Frame? then
      FrameConsumes(s, max);
      var (ps, end) := ReadAll(rest, max);
      ([r.payload] + ps, end)
    else ([], r)
  }

  lemma FrameConsumes(s: Stream, max: nat)
    requires ReadFrame(s, max).0.Frame?
    ensures |Flat(ReadFrame(s, max).1)| < |Flat(s)|
  {
    var h := Take(s, 4, true);
    TakeIsPrefix(s, 4, true);
    TakeIsPrefix(h.rest, OfLe(h.got), false);
  }

  // ---------------------------------------------------------------- where an interruption does no harm

  /** Byte offset `o` of the frames of `ps`, and of one more after them, is in a length prefix. */
  predicate InHeader(ps: seq<Bytes>, o: nat) {
    o < 4 || (ps != [] && o >= 4 + |ps[0]| && InHeader(ps[1..], o - 4 - |ps[0]|))
  }

  /** From offset `o` on the transport never fails, and interrupts only where a header is due. */
  ghost predicate Steady(s: Stream, ps: seq<Bytes>, o: nat)
    decreases |s|
  {
    s == [] ||
    match s[0]
    case Data(b) => Steady(s[1..], ps, o + |b|)
    case Interrupted => InHeader(ps, o) && Steady(s[1..], ps, o)
    case Broken => false
  }

  /** Within one header or one payload, the read fails exactly where the stream is not steady. */
  lemma {:induction false} TakeSteady(s: Stream, n: nat, patient: bool, ps: seq<Bytes>, o: nat)
    requires forall i :: o <= i < o + n ==> (InHeader(ps, i) <==> patient)
    ensures var t := Take(s, n, patient);
            Steady(s, ps, o) <==> t.status != Failed && Steady(t.rest, ps, o + |t.got|)
    decreases n, |s|
  {
    hide InHeader;
    if n > 0 && s != [] {
      match s[0]
      case Data(b) =>
        if |b| > n {
          SteadyPiece(b, n, s[1..], ps, o);
        } else {
          TakeSteady(s[1..], n - |b|, patient, ps, o + |b|);
        }
      case Interrupted =>
        assert InHeader(ps, o) <==> patient;
        if patient { TakeSteady(s[1..], n, patient, ps, o); }
      case Broken =>
    }
  }

  lemma SteadyPiece(b: Piece, n: nat, s: Stream, ps: seq<Bytes>, o: nat)
    requires n < |b|
    ensures Steady([Data(b[n..])] + s, ps, o + n) == Steady(s, ps, o + |b|)
  {
    assert ([Data(b[n..])] + s)[1..] == s;
  }

  /** Past a frame its successors start at offset zero. */
  lemma {:induction false} SteadyShift(s: Stream, ps: seq<Bytes>, o: nat)
    requires ps != []
    ensures Steady(s, ps, 4 + |ps[0]| + o) == Steady(s, ps[1..], o)
    decreases |s|
  {
    if s != [] {
      SteadyShift(s[1..], ps, if s[0].Data? then o + |s[0].bytes| else o);
    }
  }

  /** A header that can be read, and the length it gives. */
  lemma HeaderGives(s: Stream, p: Bytes)
    requires Undisturbed(s, 4, true) && |Flat(s)| >= 4 && Flat(s)[..4] == ToLe(|p|, 4) && |p| < 0x1_0000_0000
    ensures var h := Take(s, 4, true);
            h.status == Full && OfLe(h.got) == |p| && Flat(h.rest) == Flat(s)[4..]
  {
    hide Take, Flat, ToLe, OfLe;
    TakeIsPrefix(s, 4, true);
    Widths();
    LeRoundTrip(|p|, 4);
    var h := Take(s, 4, true);
    assert Flat(h.rest) == (h.got + Flat(h.rest))[4..];
  }

  /** Reading a frame fails for the transport's sake exactly where the stream is not steady. */
  lemma FrameSteady(s: Stream, max: nat, p: Bytes, ps: seq<Bytes>)
    requires |p| <= max < 0x1_0000_0000 && (ps != [] ==> ps[0] == p)
    requires if ps != [] then Encoded(p) <= Flat(s) else Flat(s) < Encoded(p)
    ensures Steady(s, ps, 0)
       <==> ReadFrame(s, max).0 != Fail(Io) && (ps != [] ==> Steady(ReadFrame(s, max).1, ps[1..], 0))
  {
    hide Take, Flat, ToLe, OfLe, Steady;
    TakeSteady(s, 4, true, ps, 0);
    var h := Take(s, 4, true);
    if h.status != Failed {
      TakeIsPrefix(s, 4, true);
      if |Flat(s)| >= 4 {
        assert Flat(s)[..4] == Encoded(p)[..4] == ToLe(|p|, 4);
        HeaderGives(s, p);
        TakeSteady(h.rest, |p|, false, ps, 4);
        var t := Take(h.rest, |p|, false);
        if t.status != Failed {
          TakeIsPrefix(h.rest, |p|, false);
          if ps != [] { SteadyShift(t.rest, ps, 0); } else { SteadyEnd(ps, 4 + |t.got|); }
        }
      } else {
        SteadyEnd(ps, |h.got|);
      }
    }
  }

  lemma SteadyEnd(ps: seq<Bytes>, o: nat)
    ensures Steady([], ps, o)
  {}

  /** One complete frame at the head of the stream. */
  lemma ReadsOne(s: Stream, max: nat, p: Bytes, more: Bytes)
    requires ReadFrame(s, max).0 != Fail(Io) && Flat(s) == Encoded(p) + more && |p| <= max < 0x1_0000_0000
    ensures ReadFrame(s, max).0 == Frame(p) && Flat(ReadFrame(s, max).1) == more
  {
    hide Take, Flat, ToLe, OfLe;
    var h := Take(s, 4, true);
    assert Flat(s) == ToLe(|p|, 4) + (p + more);
    HeaderGives(s, p);
    TakeIsPrefix(h.rest, |p|, false);
    assert (p + more)[..|p|] == p && (p + more)[|p|..] == more;
    var t := Take(h.rest, |p|, false);
    assert Flat(t.rest) == (t.got + Flat(t.rest))[|p|..];
  }

  /** Nothing, or a frame cut short, and then the end of the stream. */
  lemma ReadsCut(s: Stream, max: nat, p: Bytes, part: Bytes)
    requires ReadFrame(s, max).0 != Fail(Io) && Flat(s) == part && part < Encoded(p) && |p| <= max < 0x1_0000_0000
    ensures var r := ReadFrame(s, max).0;
            r == if part == [] then End else if |part| < 4 then Fail(ShortHeader) else Fail(ShortPayload)
  {
    hide Take, Flat, ToLe, OfLe;
    TakeIsPrefix(s, 4, true);
    if |part| >= 4 {
      assert part[..4] == Encoded(p)[..4] == ToLe(|p|, 4);
      HeaderGives(s, p);
      TakeIsPrefix(Take(s, 4, true).rest, |p|, false);
    }
  }

  /** How a stream that ends with `part` of a frame ends for the reader. */
  function Ending(part: Bytes): Result {
    if part == [] then End else if |part| < 4 then Fail(ShortHeader) else Fail(ShortPayload)
  }

  /** However the bytes are cut into reads: a stream of complete frames gives exactly their payloads
      and a clean end; cut inside a frame, the complete ones and an error. Interruptions do no harm
      exactly where headers are due; anywhere else, or if the transport fails, the reader reports it. */
  lemma {:induction false} EverySegmentation(s: Stream, max: nat, ps: seq<Bytes>, p: Bytes, part: Bytes)
    requires max < 0x1_0000_0000 && forall i :: 0 <= i < |ps| ==> |ps[i]| <= max
    requires |p| <= max && part < Encoded(p) && Flat(s) == EncodedAll(ps) + part
    ensures Steady(s, ps, 0) ==> ReadAll(s, max) == (ps, Ending(part))
    ensures !Steady(s, ps, 0) ==> ReadAll(s, max).0 <= ps && ReadAll(s, max).1 == Fail(Io)
    decreases |ps|
  {
    hide Encoded, ReadFrame, Flat, Steady;
    if ps == [] {
      assert Flat(s) == part;
      FrameSteady(s, max, p, ps);
      if Steady(s, ps, 0) { ReadsCut(s, max, p, part); }
    } else {
      var more := EncodedAll(ps[1..]) + part;
      assert Flat(s) == Encoded(ps[0]) + more;
      FrameSteady(s, max, ps[0], ps);
      if ReadFrame(s, max).0 != Fail(Io) {
        ReadsOne(s, max, ps[0], more);
        EverySegmentation(ReadFrame(s, max).1, max, ps[1..], p, part);
        assert ps == [ps[0]] + ps[1..];
      }
    }
  }

  /** A transport that only delivers is steady, whatever its pieces. */
  lemma {:induction false} WholeIsSteady(s: Stream, ps: seq<Bytes>, o: nat)
    requires Whole(s)
    ensures Steady(s, ps, o)
    decreases |s|
  {
    if s != [] { WholeIsSteady(s[1..], ps, o + |s[0].bytes|); }
  }

  /** So no cutting of the bytes into reads shows. */
  lemma SegmentationDoesNotShow(s: Stream, max: nat, ps: seq<Bytes>, p: Bytes, part: Bytes)
    requires Whole(s) && max < 0x1_0000_0000 && forall i :: 0 <= i < |ps| ==> |ps[i]| <= max
    requires |p| <= max && part < Encoded(p) && Flat(s) == EncodedAll(ps) + part
    ensures ReadAll(s, max) == (ps, Ending(part))
  {
    WholeIsSteady(s, ps, 0);
    EverySegmentation(s, max, ps, p, part);
  }

  function WithoutInterruptions(s: Stream): Stream {
    if s == [] then [] else (if s[0] == Interrupted then [] else [s[0]]) + WithoutInterruptions(s[1..])
  }

  /** Interruptions while a header is read leave no trace, however many and wherever. */
  lemma {:induction false} InterruptionsDoNotShow(s: Stream, n: nat)
    ensures var t, u := Take(s, n, true), Take(WithoutInterruptions(s), n, true);
            && t.got == u.got && t.status == u.status
            && WithoutInterruptions(t.rest) == u.rest
    decreases n, |s|
  {
    if n > 0 && s != [] {
      var rest := WithoutInterruptions(s[1..]);
      if s[0] == Interrupted {
        assert WithoutInterruptions(s) == rest;
        InterruptionsDoNotShow(s[1..], n);
      } else {
        assert WithoutInterruptions(s)[0] == s[0] && WithoutInterruptions(s)[1..] == rest;
        if s[0].Data? {
          var b := s[0].bytes;
          if |b| > n {
            assert ([Data(b[n..])] + s[1..])[1..] == s[1..];
          } else {
            InterruptionsDoNotShow(s[1..], n - |b|);
          }
        }
      }
    }
  }

  /** A length over the limit is refused on sight, before any of the payload is asked for. */
  lemma TooLongIsRefusedEarly(s: Stream, max: nat, n: nat, more: Bytes)
    requires max < n < 0x1_0000_0000 && Flat(s) == ToLe(n, 4) + more && Undisturbed(s, 4, true)
    ensures ReadFrame(s, max).0 == Fail(TooLong) && Flat(ReadFrame(s, max).1) == more
  {
    var h := Take(s, 4, true);
    TakeIsPrefix(s, 4, true);
    Widths();
    LeRoundTrip(n, 4);
    assert Flat(s)[..4] == ToLe(n, 4);
    assert Flat(h.rest) == (h.got + Flat(h.rest))[4..];
  }

  // ---------------------------------------------------------------- the reader and the writer

  datatype Got = Some(bytes: Bytes) | Interrupt | Error

  class Reader {
    var stream: Stream

    constructor (s: Stream)
      ensures stream == s
    {
      stream := s;
    }

    /** One read into a buffer with room for `n` bytes; no bytes means the end. */
    method Read(n: nat) returns (g: Got)
      requires n > 0
      modifies this
      ensures g.Some? ==> |g.bytes| <= n && (g.bytes == [] <==> old(stream) == [])
      ensures g.Some? && g.bytes == [] ==> stream == []
      ensures g.Some? && g.bytes != [] ==> old(stream)[0].Data? && Piecewise(old(stream), n, g.bytes, stream)
      ensures g == Interrupt ==> old(stream) != [] && old(stream)[0] == Interrupted && stream == old(stream)[1..]
      ensures g == Error ==> old(stream) != [] && old(stream)[0] == Broken && stream == old(stream)[1..]
    {
      if stream == [] { return Some([]); }
      match stream[0]
      case Interrupted => stream, g := stream[1..], Interrupt;
      case Broken => stream, g := stream[1..], Error;
      case Data(b) =>
        if |b| > n {
          g := Some(b[..n]);
          stream := [Data(b[n..])] + stream[1..];
        } else {
          stream, g := stream[1..], Some(b);
        }
    }

    /** Up to four bytes of length, retrying interruptions; fewer only where the stream ends. */
    method ReadHeader(header: array<Byte>) returns (filled: nat, status: Status)
      requires header.Length == 4
      modifies this, header
      ensures filled <= 4 && Taken(header[..filled], stream, status) == Take(old(stream), 4, true)
    {
      hide Take, Onward, Piecewise;
      filled := 0;
      OnwardNothing(Take(stream, 4, true));
      assert header[..0] == [];
      while filled < 4
        invariant filled <= 4
        invariant Onward(header[..filled], Take(stream, 4 - filled, true)) == Take(old(stream), 4, true)
        decreases 4 - filled, |stream|
      {
        ghost var before := stream;
        var g := Read(4 - filled);
        match g
        case Some(b) =>
          if b == [] {
            OnwardEnd(header[..filled], 4 - filled, true);
            return filled, Eof;
          }
          TakeAfter(before, 4 - filled, true, b, stream);
          ghost var had := header[..filled];
          forall i | 0 <= i < |b| { header[filled + i] := b[i]; }
          assert header[..filled + |b|] == had + b;
          OnwardTwice(had, b, Take(stream, 4 - filled - |b|, true));
          filled := filled + |b|;
        case Interrupt => TakeSkips(before, 4 - filled);
        case Error =>
          OnwardFails(header[..filled], before, 4 - filled);
          return filled, Failed;
      }
      OnwardFull(header[..filled], stream);
      status := Full;
    }

    method ReadFrameLimited(max: nat) returns (r: Result)
      modifies this
      ensures (r, stream) == ReadFrame(old(stream), max)
    {
      var header := new Byte[4](_ => 0);
      var filled, status := ReadHeader(header);
      if status == Failed { return Fail(Io); }
      if filled == 0 { return End; }
      if filled < 4 { return Fail(ShortHeader); }
      var len := OfLe(header[..filled]);
      if len > max { return Fail(TooLong); }
      var payload: Bytes;
      payload, status := ReadExact(len);
      match status
      case Full => r := Frame(payload);
      case Eof => r := Fail(ShortPayload);
      case Failed => r := Fail(Io);
    }

    /** Fills a buffer of `n` bytes, passing on whatever the transport reports. */
    method ReadExact(n: nat) returns (got: Bytes, status: Status)
      modifies this
      ensures Taken(got, stream, status) == Take(old(stream), n, false)
    {
      got := [];
      while |got| < n
        invariant |got| <= n
        invariant Onward(got, Take(stream, n - |got|, false)) == Take(old(stream), n, false)
        decreases n - |got|, |stream|
      {
        ghost var before := stream;
        var g := Read(n - |got|);
        match g
        case Some(b) =>
          if b == [] { return got, Eof; }
          TakeAfter(before, n - |got|, false, b, stream);
          OnwardTwice(got, b, Take(stream, n - |got| - |b|, false));
          got := got + b;
        case Interrupt => return got, Failed;
        case Error => return got, Failed;
      }
      status := Full;
    }
  }

  /** A read took `b` off the front of the stream. */
  ghost predicate Piecewise(s: Stream, n: nat, b: Bytes, rest: Stream)
    requires s != [] && s[0].Data?
  {
    var all := s[0].bytes;
    if |all| > n then b == all[..n] && rest == [Data(all[n..])] + s[1..] else b == all && rest == s[1..]
  }

  ghost function Onward(got: Bytes, t: Taken): Taken { t.(got := got + t.got) }

  lemma OnwardTwice(a: Bytes, b: Bytes, t: Taken)
    ensures Onward(a, Onward(b, t)) == Onward(a + b, t)
  {
    assert a + (b + t.got) == (a + b) + t.got;
  }

  lemma OnwardNothing(t: Taken)
    ensures Onward([], t) == t
  {
    assert [] + t.got == t.got;
  }

  lemma OnwardFull(got: Bytes, s: Stream)
    ensures Onward(got, Take(s, 0, true)) == Taken(got, s, Full)
  {
    assert got + [] == got;
  }

  lemma TakeSkips(s: Stream, n: nat)
    requires n > 0 && s != [] && s[0] == Interrupted
    ensures Take(s, n, true) == Take(s[1..], n, true)
  {}

  lemma OnwardEnd(got: Bytes, n: nat, patient: bool)
    requires n > 0
    ensures Onward(got, Take([], n, patient)) == Taken(got, [], Eof)
  {
    assert got + [] == got;
  }

  lemma OnwardFails(got: Bytes, s: Stream, n: nat)
    requires n > 0 && s != [] && s[0] == Broken
    ensures Onward(got, Take(s, n, true)) == Taken(got, s[1..], Failed)
  {
    assert got + [] == got;
  }

  lemma TakeAfter(s: Stream, n: nat, patient: bool, b: Bytes, rest: Stream)
    requires n > 0 && s != [] && s[0].Data? && Piecewise(s, n, b, rest)
    ensures |b| <= n && Take(s, n, patient) == Onward(b, Take(rest, n - |b|, patient))
  {}

  /** A frame within the limit goes out as its length and its bytes; a longer one not at all. */
  method WriteFrameLimited(out: Bytes, payload: Bytes, max: nat) returns (r: Bytes, ok: bool)
    requires max < 0x1_0000_0000
    ensures ok <==> |payload| <= max
    ensures r == if ok then out + Encoded(payload) else out
  {
    hide ToLe;
    if |payload| > max { return out, false; }
    r := out + ToLe(|payload| % 0x1_0000_0000, 4);
    r := r + payload;
    ok := true;
  }
}
