/**
 * The receive-window loop of `main` (src/main.rs:363-408): resynchronise on
 * the frame marker, decode, drop what was consumed, and forward changed
 * slider summaries to the MIDI sink.
 */
module StreamLoop {
  import opened LedTypes
  import opened Decoder
  import DrumPads

  /** `window.iter().position(|&b| b == LED_PACKET_FRAMING)`. */
  function FramingPosition(w: seq<Byte>): (pos: Option<nat>)
    ensures pos.Some? ==> pos.value < |w| && w[pos.value] == FRAMING
  {
    if |w| == 0 then None
    else if w[0] == FRAMING then Some(0)
    else match FramingPosition(w[1..])
      case None => None
      case Some(k) => Some(k + 1)
  }

  /** The position found is that of the first marker, and none is found exactly when there is none. */
  lemma {:induction false} FramingPositionFirst(w: seq<Byte>)
    ensures FramingPosition(w).Some? ==> FRAMING !in w[..FramingPosition(w).value]
    ensures FramingPosition(w).None? <==> FRAMING !in w
    decreases |w|
  {
    if |w| > 0 && w[0] != FRAMING {
      FramingPositionFirst(w[1..]);
      assert w == [w[0]] + w[1..];
      if FramingPosition(w[1..]).Some? {
        var k := FramingPosition(w[1..]).value;
        assert w[..k + 1] == [w[0]] + w[1..][..k];
      }
    }
  }

  /** What the inner loop leaves behind: the window, the packets decoded on the way, and whether it panicked. */
  datatype Drained = Drained(rest: seq<Byte>, packets: seq<LedPacket>, panicked: bool)

  function Prepend(ps: seq<LedPacket>, d: Drained): Drained {
    Drained(d.rest, ps + d.packets, d.panicked)
  }

  /** The inner loop stops only on a window without a marker, or on a marker whose frame is incomplete. */
  predicate Settled(p: Profile, w: seq<Byte>) {
    FRAMING !in w || (w[0] == FRAMING && ParsePacket(p, w).Incomplete?)
  }

  /**
   * The specification of the inner loop on window `w`: drop the bytes before
   * the first marker, then decode; drain `used` bytes on success and one byte
   * on Invalid, and stop on Incomplete (or on a panic).
   */
  function Drain(p: Profile, w: seq<Byte>): (d: Drained)
    ensures |d.rest| <= |w|
    decreases |w|
  {
    match FramingPosition(w)
    case None => Drained(w, [], false)
    case Some(pos) =>
      var s := w[pos..];
      match ParsePacket(p, s)
      case Incomplete => Drained(s, [], false)
      case Panicked => Drained(s, [], true)
      case Invalid => Drain(p, s[1..])
      case Parsed(packet, used) => Prepend([packet], Drain(p, s[used..]))
  }

  /** A window without a marker is left as it is. */
  lemma DrainNoMarker(p: Profile, w: seq<Byte>)
    requires FRAMING !in w
    ensures Drain(p, w) == Drained(w, [], false)
  {
    FramingPositionFirst(w);
  }

  /** The loop stops only where the program would: see `Settled`; a panic happens on a marker. */
  lemma {:induction false} DrainStops(p: Profile, w: seq<Byte>)
    ensures !Drain(p, w).panicked ==> Settled(p, Drain(p, w).rest)
    ensures Drain(p, w).panicked ==>
      |Drain(p, w).rest| > 0 && Drain(p, w).rest[0] == FRAMING && ParsePacket(p, Drain(p, w).rest).Panicked?
    decreases |w|
  {
    match FramingPosition(w)
    case None =>
      FramingPositionFirst(w);
    case Some(pos) =>
      match ParsePacket(p, w[pos..])
      case Incomplete =>
        DrainStep(p, w, pos);
      case Panicked =>
        DrainStep(p, w, pos);
      case Invalid =>
        DrainStops(p, w[pos..][1..]);
        DrainStep(p, w, pos);
      case Parsed(packet, used) =>
        DrainStops(p, w[pos..][used..]);
        DrainStep(p, w, pos);
  }

  /** One turn of the inner loop, from the first marker at `pos`. */
  lemma DrainStep(p: Profile, w: seq<Byte>, pos: nat)
    requires FramingPosition(w) == Some(pos)
    ensures ParsePacket(p, w[pos..]).Incomplete? ==> Drain(p, w) == Drained(w[pos..], [], false)
    ensures ParsePacket(p, w[pos..]).Panicked? ==> Drain(p, w) == Drained(w[pos..], [], true)
    ensures ParsePacket(p, w[pos..]).Invalid? ==> Drain(p, w) == Drain(p, w[pos..][1..])
    ensures ParsePacket(p, w[pos..]).Parsed? ==>
      Drain(p, w) == Prepend([ParsePacket(p, w[pos..]).packet],
                             Drain(p, w[pos..][ParsePacket(p, w[pos..]).used..]))
  {
  }

  lemma PrependPrepend(ps: seq<LedPacket>, qs: seq<LedPacket>, d: Drained)
    ensures Prepend(ps, Prepend(qs, d)) == Prepend(ps + qs, d)
  {
    assert ps + (qs + d.packets) == (ps + qs) + d.packets;
  }

  /** `r` is a tail of `w`. */
  predicate IsSuffix(r: seq<Byte>, w: seq<Byte>) {
    |r| <= |w| && r == w[|w| - |r|..]
  }

  lemma SuffixOfSuffix(r: seq<Byte>, w: seq<Byte>, k: nat)
    requires k <= |w| && IsSuffix(r, w[k..])
    ensures IsSuffix(r, w)
  {
  }

  /** The loop only ever removes bytes from the head of the window. */
  lemma {:induction false} DrainRestIsSuffix(p: Profile, w: seq<Byte>)
    ensures IsSuffix(Drain(p, w).rest, w)
    decreases |w|
  {
    match FramingPosition(w)
    case None =>
    case Some(pos) =>
      var s := w[pos..];
      DrainStep(p, w, pos);
      match ParsePacket(p, s)
      case Incomplete =>
        SuffixOfSuffix(s, w, pos);
      case Panicked =>
        SuffixOfSuffix(s, w, pos);
      case Invalid =>
        DrainRestIsSuffix(p, s[1..]);
        SuffixOfSuffix(Drain(p, s[1..]).rest, s, 1);
        SuffixOfSuffix(s, w, pos);
        SuffixTrans(Drain(p, s[1..]).rest, s, w);
      case Parsed(packet, used) =>
        DrainRestIsSuffix(p, s[used..]);
        SuffixOfSuffix(Drain(p, s[used..]).rest, s, used);
        SuffixOfSuffix(s, w, pos);
        SuffixTrans(Drain(p, s[used..]).rest, s, w);
  }

  lemma SuffixTrans(r: seq<Byte>, s: seq<Byte>, w: seq<Byte>)
    requires IsSuffix(r, s) && IsSuffix(s, w)
    ensures IsSuffix(r, w)
  {
  }

  /** Bytes before the first marker make no difference. */
  lemma DrainSkipsGarbage(p: Profile, w: seq<Byte>, pos: nat)
    requires FramingPosition(w) == Some(pos)
    ensures Drain(p, w) == Drain(p, w[pos..])
  {
    assert w[pos..][0..] == w[pos..];
  }

  lemma {:induction false} FramingPositionAppend(a: seq<Byte>, b: seq<Byte>)
    requires FramingPosition(a).Some?
    ensures FramingPosition(a + b) == FramingPosition(a)
    decreases |a|
  {
    if a[0] != FRAMING {
      assert (a + b)[1..] == a[1..] + b;
      FramingPositionAppend(a[1..], b);
    }
  }

  /** Marker-free bytes in front of a marker only move it. */
  lemma {:induction false} FramingPositionAfterGarbage(garbage: seq<Byte>, w: seq<Byte>)
    requires FRAMING !in garbage && |w| > 0 && w[0] == FRAMING
    ensures FramingPosition(garbage + w) == Some(|garbage|)
    decreases |garbage|
  {
    if garbage == [] {
      assert garbage + w == w;
    } else {
      assert (garbage + w)[0] == garbage[0];
      assert (garbage + w)[1..] == garbage[1..] + w;
      FramingPositionAfterGarbage(garbage[1..], w);
    }
  }

  /** A decodable frame behind marker-free garbage is decoded, and then the loop carries on after it. */
  lemma GarbageThenFrame(p: Profile, garbage: seq<Byte>, board: Byte, payload: seq<Byte>,
                         escaped: set<Byte>, tail: seq<Byte>)
    requires FRAMING !in garbage
    requires board < BOARDS_TOTAL && |payload| == BOARD_DATA_LENS[board] && ESCAPE in escaped
    requires Assemble(p, board, payload, |Frame(board, payload, escaped)|).Parsed?
    ensures Drain(p, garbage + Frame(board, payload, escaped) + tail)
         == Prepend([Assemble(p, board, payload, |Frame(board, payload, escaped)|).packet], Drain(p, tail))
  {
    var f := Frame(board, payload, escaped);
    var w := garbage + f + tail;
    assert w == garbage + (f + tail);
    FramingPositionAfterGarbage(garbage, f + tail);
    assert w[|garbage|..] == f + tail;
    ParseFrame(p, board, payload, escaped, tail);
    assert (f + tail)[|f|..] == tail;
    DrainStep(p, w, |garbage|);
  }

  /** Appending bytes to a window keeps its first marker where it was. */
  lemma SkipAppend(p: Profile, a: seq<Byte>, b: seq<Byte>, pos: nat)
    requires FramingPosition(a) == Some(pos)
    ensures Drain(p, a + b) == Drain(p, a[pos..] + b)
    ensures FramingPosition(a[pos..] + b) == Some(0)
  {
    FramingPositionAppend(a, b);
    assert (a + b)[pos..] == a[pos..] + b;
    DrainSkipsGarbage(p, a + b, pos);
    FramingPositionAppend(a[pos..], b);
  }

  /** With a lone marker waiting, a decode that is not Incomplete is not changed by later bytes. */
  lemma SettledStepAppend(p: Profile, s: seq<Byte>, b: seq<Byte>)
    requires p.loneMarkerWaits && FramingPosition(s) == Some(0)
    requires !ParsePacket(p, s).Incomplete?
    ensures ParsePacket(p, s).Invalid? ==> Drain(p, s + b) == Drain(p, s[1..] + b)
    ensures ParsePacket(p, s).Parsed? ==>
      Drain(p, s + b) == Prepend([ParsePacket(p, s).packet], Drain(p, s[ParsePacket(p, s).used..] + b))
  {
    assert |s| >= 2;
    FramingPositionAppend(s, b);
    ParsePrefixStable(p, s, b);
    if ParsePacket(p, s).Parsed? {
      ParsedAppend(p, s, b);
    } else if ParsePacket(p, s).Invalid? {
      InvalidAppend(p, s, b);
    }
  }

  lemma InvalidAppend(p: Profile, s: seq<Byte>, b: seq<Byte>)
    requires FramingPosition(s + b) == Some(0) && |s| >= 1
    requires ParsePacket(p, s + b).Invalid?
    ensures Drain(p, s + b) == Drain(p, s[1..] + b)
  {
    assert (s + b)[0..] == s + b;
    DrainStep(p, s + b, 0);
    assert (s + b)[1..] == s[1..] + b;
  }

  lemma ParsedAppend(p: Profile, s: seq<Byte>, b: seq<Byte>)
    requires FramingPosition(s + b) == Some(0)
    requires ParsePacket(p, s).Parsed? && ParsePacket(p, s + b) == ParsePacket(p, s)
    ensures Drain(p, s + b) == Prepend([ParsePacket(p, s).packet], Drain(p, s[ParsePacket(p, s).used..] + b))
  {
    var r := ParsePacket(p, s);
    assert (s + b)[0..] == s + b;
    DrainStep(p, s + b, 0);
    assert (s + b)[r.used..] == s[r.used..] + b;
  }

  lemma ChunkedIncomplete(p: Profile, a: seq<Byte>, b: seq<Byte>, pos: nat)
    requires FramingPosition(a) == Some(pos)
    requires ParsePacket(p, a[pos..]).Incomplete?
    ensures Drain(p, a + b) == Prepend(Drain(p, a).packets, Drain(p, Drain(p, a).rest + b))
  {
    SkipAppend(p, a, b, pos);
    DrainStep(p, a, pos);
  }

  lemma ChunkedInvalid(p: Profile, a: seq<Byte>, b: seq<Byte>, pos: nat)
    requires p.loneMarkerWaits
    requires FramingPosition(a) == Some(pos)
    requires ParsePacket(p, a[pos..]).Invalid?
    requires var t := a[pos..][1..];
      Drain(p, t + b) == Prepend(Drain(p, t).packets, Drain(p, Drain(p, t).rest + b))
    ensures Drain(p, a + b) == Prepend(Drain(p, a).packets, Drain(p, Drain(p, a).rest + b))
  {
    SkipAppend(p, a, b, pos);
    assert a[pos..][0..] == a[pos..];
    SettledStepAppend(p, a[pos..], b);
    DrainStep(p, a, pos);
  }

  lemma ChunkedParsed(p: Profile, a: seq<Byte>, b: seq<Byte>, pos: nat)
    requires p.loneMarkerWaits
    requires FramingPosition(a) == Some(pos)
    requires ParsePacket(p, a[pos..]).Parsed?
    requires var t := a[pos..][ParsePacket(p, a[pos..]).used..];
      Drain(p, t + b) == Prepend(Drain(p, t).packets, Drain(p, Drain(p, t).rest + b))
    ensures Drain(p, a + b) == Prepend(Drain(p, a).packets, Drain(p, Drain(p, a).rest + b))
  {
    var s := a[pos..];
    var t := s[ParsePacket(p, s).used..];
    SkipAppend(p, a, b, pos);
    assert s[0..] == s;
    SettledStepAppend(p, s, b);
    DrainStep(p, a, pos);
    PrependPrepend([ParsePacket(p, s).packet], Drain(p, t).packets, Drain(p, Drain(p, t).rest + b));
  }

  /**
   * With a lone marker treated as incomplete, the loop does not depend on how
   * the stream is cut into reads: draining `a`, then draining what is left
   * together with `b`, decodes the same packets as draining `a + b`.
   */
  lemma {:induction false} DrainChunked(p: Profile, a: seq<Byte>, b: seq<Byte>)
    requires p.loneMarkerWaits
    requires !Drain(p, a).panicked
    ensures Drain(p, a + b) == Prepend(Drain(p, a).packets, Drain(p, Drain(p, a).rest + b))
    decreases |a|
  {
    match FramingPosition(a)
    case None =>
    case Some(pos) =>
      var s := a[pos..];
      DrainStep(p, a, pos);
      match ParsePacket(p, s)
      case Incomplete =>
        ChunkedIncomplete(p, a, b, pos);
      case Invalid =>
        DrainChunked(p, s[1..], b);
        ChunkedInvalid(p, a, b, pos);
      case Parsed(packet, used) =>
        DrainChunked(p, s[used..], b);
        ChunkedParsed(p, a, b, pos);
  }

  /**
   * As written, a read that ends right after a frame marker loses that frame:
   * the lone marker is Invalid and dropped, and the rest of the frame then
   * arrives without a marker in front of it.
   */
  lemma LoneMarkerLosesFrame()
    ensures Drain(AS_WRITTEN, [FRAMING]) == Drained([], [], false)
    ensures Drain(AS_WRITTEN, [] + HeadlessSliderFrame()).packets == []
    ensures |Drain(AS_WRITTEN, [FRAMING] + HeadlessSliderFrame()).packets| == 1
  {
    LoneMarkerDropped();
    HeadlessFrameIgnored();
    WholeFrameDecoded();
  }

  /** A slider frame of zero bytes without its leading marker. */
  function HeadlessSliderFrame(): seq<Byte> {
    [2] + seq(BOARD_DATA_LENS[2], _ => 0)
  }

  lemma LoneMarkerDropped()
    ensures Drain(AS_WRITTEN, [FRAMING]) == Drained([], [], false)
  {
    assert FramingPosition([FRAMING]) == Some(0);
    assert [FRAMING][0..][1..] == [];
    DrainStep(AS_WRITTEN, [FRAMING], 0);
  }

  lemma HeadlessFrameIgnored()
    ensures Drain(AS_WRITTEN, [] + HeadlessSliderFrame()).packets == []
  {
    var b := HeadlessSliderFrame();
    assert [] + b == b;
    assert forall k :: 0 <= k < |b| ==> b[k] != FRAMING;
    DrainNoMarker(AS_WRITTEN, b);
  }

  lemma WholeFrameDecoded()
    ensures |Drain(AS_WRITTEN, [FRAMING] + HeadlessSliderFrame()).packets| == 1
  {
    var zeros: seq<Byte> := seq(BOARD_DATA_LENS[2], _ => 0);
    var w := [FRAMING] + HeadlessSliderFrame();
    assert w == [FRAMING, 2] + zeros;
    LiteralSliderFrame(AS_WRITTEN, zeros);
    assert FramingPosition(w) == Some(0);
    assert w[0..] == w;
    assert w[|w|..] == [];
    DrainStep(AS_WRITTEN, w, 0);
  }

  /** The slider summaries of a run of packets, in order: a slider gives the pads it is reduced to, any other board nothing. */
  function Summaries(ps: seq<LedPacket>): (sums: seq<seq<Rgb>>)
    ensures |sums| <= |ps|
    ensures forall k :: 0 <= k < |sums| ==> |sums[k]| == DrumPads.PADS
  {
    if ps == [] then [] else Summaries(ps[..|ps| - 1]) + SummaryOf(ps[|ps| - 1])
  }

  /** A slider packet gives the eight pads it is reduced to; any other packet gives nothing. */
  function SummaryOf(pk: LedPacket): (sums: seq<seq<Rgb>>)
    ensures |sums| == if pk.payload.Slider? && |pk.payload.leds| == SLIDER_LEDS then 1 else 0
    ensures forall k :: 0 <= k < |sums| ==> |sums[k]| == DrumPads.PADS
  {
    if pk.payload.Slider? && |pk.payload.leds| == SLIDER_LEDS
    then [DrumPads.Summary(pk.payload.leds)] else []
  }

  lemma SummariesSingle(pk: LedPacket)
    ensures Summaries([pk]) == SummaryOf(pk)
  {
    assert [pk][..0] == [];
  }

  lemma SummariesSnoc(ps: seq<LedPacket>, pk: LedPacket)
    ensures Summaries(ps + [pk]) == Summaries(ps) + SummaryOf(pk)
  {
    assert (ps + [pk])[..|ps|] == ps;
  }

  /** One attempt to send a summary to the MIDI sink, with the summary last delivered before it. */
  datatype Emission = Emission(pads: seq<Rgb>, previous: Option<seq<Rgb>>, delivered: bool)

  /** The summary last delivered, starting from `before`, after the attempts `sent`. */
  function After(before: Option<seq<Rgb>>, sent: seq<Emission>): Option<seq<Rgb>> {
    if sent == [] then before
    else if sent[|sent| - 1].delivered then Some(sent[|sent| - 1].pads)
    else After(before, sent[..|sent| - 1])
  }

  /** The pads last delivered are the initial ones or those of a delivered attempt. */
  lemma {:induction false} AfterIsDelivered(before: Option<seq<Rgb>>, sent: seq<Emission>)
    ensures After(before, sent) == before
         || exists k :: 0 <= k < |sent| && sent[k].delivered && After(before, sent) == Some(sent[k].pads)
    decreases |sent|
  {
    if sent != [] && !sent[|sent| - 1].delivered {
      var init := sent[..|sent| - 1];
      AfterIsDelivered(before, init);
      if After(before, init) != before {
        var k :| 0 <= k < |init| && init[k].delivered && After(before, init) == Some(init[k].pads);
        assert sent[k] == init[k];
      }
    }
  }

  /** Every attempt was made against the summary last delivered and differs from it. */
  ghost predicate DedupLog(log: seq<Emission>) {
    forall k :: 0 <= k < |log| ==>
      log[k].previous == After(None, log[..k]) && log[k].previous != Some(log[k].pads)
  }

  /**
   * `sent` are the attempts made for the summaries `sums`, starting with
   * `before` delivered: a summary equal to the one last delivered is skipped,
   * any other is sent.
   */
  ghost predicate SentFor(before: Option<seq<Rgb>>, sums: seq<seq<Rgb>>, sent: seq<Emission>): (ok: bool)
    ensures ok ==> |sent| <= |sums|
    decreases |sums|
  {
    if sums == [] then sent == []
    else
      var s := sums[|sums| - 1];
      var earlier := sums[..|sums| - 1];
      (After(before, sent) == Some(s) && SentFor(before, earlier, sent))
      || (sent != [] && SentFor(before, earlier, sent[..|sent| - 1])
          && sent[|sent| - 1].pads == s
          && sent[|sent| - 1].previous == After(before, sent[..|sent| - 1])
          && After(before, sent[..|sent| - 1]) != Some(s))
  }

  /** A summary equal to the one last delivered adds no attempt. */
  lemma SentForSkip(before: Option<seq<Rgb>>, sums: seq<seq<Rgb>>, sent: seq<Emission>, s: seq<Rgb>)
    requires SentFor(before, sums, sent) && After(before, sent) == Some(s)
    ensures SentFor(before, sums + [s], sent)
  {
    assert (sums + [s])[..|sums|] == sums;
  }

  /** A summary that differs from the one last delivered adds one attempt. */
  lemma SentForSend(before: Option<seq<Rgb>>, sums: seq<seq<Rgb>>, sent: seq<Emission>, e: Emission)
    requires SentFor(before, sums, sent)
    requires e.previous == After(before, sent) && e.previous != Some(e.pads)
    ensures SentFor(before, sums + [e.pads], sent + [e])
    ensures After(before, sent + [e]) == if e.delivered then Some(e.pads) else After(before, sent)
  {
    assert (sums + [e.pads])[..|sums|] == sums;
    assert (sent + [e])[..|sent|] == sent;
  }

  /** After a delivery, the same summary is not sent again until a different one is delivered. */
  lemma NoResendUntilChange(log: seq<Emission>, i: nat, j: nat)
    requires DedupLog(log)
    requires i < j < |log| && log[i].delivered
    requires forall k :: i < k < j ==> !log[k].delivered
    ensures log[j].pads != log[i].pads
  {
    AfterSkipsUndelivered(log[..j], i);
    assert log[..j][..i + 1] == log[..i + 1];
  }

  lemma {:induction false} AfterSkipsUndelivered(sent: seq<Emission>, i: nat)
    requires i < |sent| && sent[i].delivered
    requires forall k :: i < k < |sent| ==> !sent[k].delivered
    ensures After(None, sent) == Some(sent[i].pads)
    decreases |sent|
  {
    if i < |sent| - 1 {
      AfterSkipsUndelivered(sent[..|sent| - 1], i);
    }
  }

  /** The attempts for a single summary: none if it was already delivered, else one. */
  lemma SentForSingle(before: Option<seq<Rgb>>, s: seq<Rgb>, sent: seq<Emission>)
    requires SentFor(before, [s], sent)
    ensures sent == [] ==> before == Some(s)
    ensures sent != [] ==> |sent| == 1 && sent[0].pads == s && sent[0].previous == before && before != Some(s)
  {
    assert [s][..0] == [];
    if sent != [] {
      assert SentFor(before, [], sent[..|sent| - 1]);
      assert |sent| == 1;
    }
  }

  /** Two equal summaries in a row: the first is sent if it changed, the second only if the first was not delivered. */
  lemma RepeatedSummary(before: Option<seq<Rgb>>, s: seq<Rgb>, sent: seq<Emission>)
    requires SentFor(before, [s, s], sent)
    ensures |sent| <= 2
    ensures before != Some(s) ==> sent != [] && sent[0].pads == s
    ensures sent != [] && sent[0].delivered ==> |sent| == 1
  {
    assert [s, s][..1] == [s];
    if After(before, sent) == Some(s) && SentFor(before, [s], sent) {
      SentForSingle(before, s, sent);
    } else {
      var x := sent[..|sent| - 1];
      SentForSingle(before, s, x);
      if x != [] {
        assert sent == [x[0], sent[1]];
      }
    }
  }

  /** The summaries of two runs of packets are those of the first followed by those of the second. */
  lemma {:induction false} SummariesAppend(ps: seq<LedPacket>, qs: seq<LedPacket>)
    ensures Summaries(ps + qs) == Summaries(ps) + Summaries(qs)
    decreases |qs|
  {
    if qs == [] {
      assert ps + qs == ps;
      assert Summaries(ps) + [] == Summaries(ps);
    } else {
      var q := qs[|qs| - 1];
      var qs' := qs[..|qs| - 1];
      assert qs == qs' + [q];
      assert ps + qs == (ps + qs') + [q];
      SummariesSnoc(ps + qs', q);
      SummariesSnoc(qs', q);
      SummariesAppend(ps, qs');
      assert (Summaries(ps) + Summaries(qs')) + SummaryOf(q) == Summaries(ps) + (Summaries(qs') + SummaryOf(q));
    }
  }

  /** Delivery bookkeeping composes: attempts starting from what the first run left delivered. */
  lemma {:induction false} AfterAppend(before: Option<seq<Rgb>>, x: seq<Emission>, y: seq<Emission>)
    ensures After(before, x + y) == After(After(before, x), y)
    decreases |y|
  {
    if y == [] {
      assert x + y == x;
    } else {
      assert (x + y)[..|x + y| - 1] == x + y[..|y| - 1];
      AfterAppend(before, x, y[..|y| - 1]);
    }
  }

  /** The attempts for two runs of summaries are those for the first followed by those for the second. */
  lemma {:induction false} SentForAppend(before: Option<seq<Rgb>>, s1: seq<seq<Rgb>>, x: seq<Emission>,
                                          s2: seq<seq<Rgb>>, y: seq<Emission>)
    requires SentFor(before, s1, x)
    requires SentFor(After(before, x), s2, y)
    ensures SentFor(before, s1 + s2, x + y)
    decreases |s2|
  {
    var mid := After(before, x);
    if s2 == [] {
      assert s1 + s2 == s1 && x + y == x;
    } else {
      var s := s2[|s2| - 1];
      var s2' := s2[..|s2| - 1];
      assert (s1 + s2)[..|s1 + s2| - 1] == s1 + s2';
      assert (s1 + s2)[|s1 + s2| - 1] == s;
      AfterAppend(before, x, y);
      if After(mid, y) == Some(s) && SentFor(mid, s2', y) {
        SentForAppend(before, s1, x, s2', y);
      } else {
        var y' := y[..|y| - 1];
        assert (x + y)[..|x + y| - 1] == x + y';
        assert (x + y)[|x + y| - 1] == y[|y| - 1];
        AfterAppend(before, x, y');
        SentForAppend(before, s1, x, s2', y');
      }
    }
  }

  /** The program's window and the last summary delivered to the MIDI device. */
  class LedStream {
    const profile: Profile
    var window: seq<Byte>
    var last: Option<seq<Rgb>>
    /** Every send attempt so far, in order. */
    ghost var log: seq<Emission>

    ghost predicate Valid()
      reads this
    {
      last == After(None, log) && DedupLog(log)
      && forall k :: 0 <= k < |log| ==> |log[k].pads| == DrumPads.PADS
    }

    constructor (profile: Profile)
      ensures Valid()
      ensures this.profile == profile && window == [] && last == None && log == []
    {
      this.profile := profile;
      window := [];
      last := None;
      log := [];
    }

    /** `send_rgb_to_launchkey`: the device may accept or refuse the pads. */
    method Send(pads: seq<Rgb>) returns (ok: bool)
      requires |pads| == DrumPads.PADS
    {
      ok := *;
    }

    /**
     * The slider branch (src/main.rs:375-399): reduce the slider to its pads and
     * send them unless they equal the pads last delivered; a delivery updates
     * `last`, a failed send leaves it.
     */
    method Forward(leds: seq<Rgb>) returns (ghost attempts: seq<Emission>)
      requires Valid() && |leds| == SLIDER_LEDS
      modifies this
      ensures Valid()
      ensures window == old(window)
      ensures log == old(log) + attempts
      ensures last == After(old(last), attempts)
      ensures SentFor(old(last), [DrumPads.Summary(leds)], attempts)
    {
      var pads := DrumPads.SliderToDrumPads(leds);
      var shouldSend := match last
        case None => true
        case Some(l) => l != pads;
      attempts := [];
      if shouldSend {
        var ok := Send(pads);
        ghost var e := Emission(pads, last, ok);
        AppendPreservesDedup(log, e);
        SentForSend(old(last), [], [], e);
        log := log + [e];
        attempts := [e];
        if ok {
          last := Some(pads);
        }
      } else {
        SentForSkip(old(last), [], [], pads);
        assert log + [] == log;
      }
    }

    /**
     * One turn of the inner loop (src/main.rs:369-406): drop the bytes before
     * the first marker, decode, and act on the outcome. A decoded slider is
     * reduced to its pads, which are sent unless they equal the pads last
     * delivered. `stop` reports that the loop ends here.
     */
    method Turn() returns (stop: bool, panicked: bool, ghost decoded: seq<LedPacket>, ghost attempts: seq<Emission>)
      requires Valid()
      modifies this
      ensures Valid()
      ensures stop ==> decoded == [] && Drain(profile, old(window)) == Drained(window, [], panicked)
      ensures !stop ==> (!panicked && |window| < |old(window)|
                         && Drain(profile, old(window)) == Prepend(decoded, Drain(profile, window)))
      ensures !stop ==> FramingPosition(old(window)).Some?
      ensures !stop ==> (var s := old(window)[FramingPosition(old(window)).value..];
                         (ParsePacket(profile, s).Invalid? && window == s[1..])
                         || (ParsePacket(profile, s).Parsed? && window == s[ParsePacket(profile, s).used..]))
      ensures log == old(log) + attempts
      ensures last == After(old(last), attempts)
      ensures SentFor(old(last), Summaries(decoded), attempts)
    {
      decoded, attempts := [], [];
      assert log + [] == log;
      var pos := FramingPosition(window);
      if pos.None? {
        return true, false, decoded, attempts;
      }
      ghost var w := window;
      window := window[pos.value..];
      var r := TryParsePacket(profile, window);
      DrainStep(profile, w, pos.value);
      match r {
        case Incomplete =>
          return true, false, decoded, attempts;
        case Panicked =>
          return true, true, decoded, attempts;
        case Invalid =>
          window := window[1..];
          assert Summaries([]) == [];
          return false, false, decoded, attempts;
        case Parsed(packet, used) =>
          decoded := [packet];
          SummariesSingle(packet);
          if packet.payload.Slider? {
            attempts := Forward(packet.payload.leds);
          } else {
            assert log + [] == log;
          }
          window := window[used..];
          return false, false, decoded, attempts;
      }
    }

    /**
     * One read of `chunk` (src/main.rs:363-408): append it to the window and
     * run the inner loop until it stops. `panicked` reports that the program
     * aborted while shaping a payload.
     */
    method Feed(chunk: seq<Byte>) returns (panicked: bool)
      requires Valid()
      modifies this
      ensures Valid()
      ensures window == Drain(profile, old(window) + chunk).rest
      ensures panicked == Drain(profile, old(window) + chunk).panicked
      ensures |old(log)| <= |log| && log[..|old(log)|] == old(log)
      ensures SentFor(old(last), Summaries(Drain(profile, old(window) + chunk).packets), log[|old(log)|..])
    {
      window := window + chunk;
      ghost var goal := Drain(profile, window);
      ghost var log0 := log;
      ghost var sent: seq<Emission> := [];
      ghost var seen: seq<LedPacket> := [];
      assert log0 + [] == log0;
      assert Prepend([], goal) == goal;
      while true
        invariant Valid()
        invariant goal == Prepend(seen, Drain(profile, window))
        invariant log == log0 + sent
        invariant last == After(old(last), sent)
        invariant SentFor(old(last), Summaries(seen), sent)
        decreases |window|
      {
        ghost var lastBefore := last;
        ghost var rest := Drain(profile, window);
        var stop, crashed, decoded, attempts := Turn();
        SentForAppend(old(last), Summaries(seen), sent, Summaries(decoded), attempts);
        AfterAppend(old(last), sent, attempts);
        SummariesAppend(seen, decoded);
        LogAppend(log0, sent, attempts);
        if stop {
          PrependNothing(seen, window, crashed);
          seen, sent := seen + decoded, sent + attempts;
          panicked := crashed;
          break;
        }
        PrependPrepend(seen, decoded, Drain(profile, window));
        seen, sent := seen + decoded, sent + attempts;
      }
      LogSuffix(log0, sent);
    }
  }

  lemma LogAppend(log0: seq<Emission>, sent: seq<Emission>, more: seq<Emission>)
    ensures (log0 + sent) + more == log0 + (sent + more)
  {
  }

  lemma LogSuffix(log0: seq<Emission>, sent: seq<Emission>)
    ensures (log0 + sent)[..|log0|] == log0 && (log0 + sent)[|log0|..] == sent
  {
  }

  lemma PrependNothing(seen: seq<LedPacket>, w: seq<Byte>, panicked: bool)
    ensures Prepend(seen, Drained(w, [], panicked)) == Drained(w, seen, panicked)
    ensures seen + [] == seen
  {
    assert seen + [] == seen;
  }

  lemma AppendPreservesDedup(log: seq<Emission>, e: Emission)
    requires DedupLog(log)
    requires e.previous == After(None, log) && e.previous != Some(e.pads)
    ensures DedupLog(log + [e])
    ensures After(None, log + [e]) == if e.delivered then Some(e.pads) else After(None, log)
  {
    assert (log + [e])[..|log|] == log;
    forall k | 0 <= k < |log| ensures (log + [e])[..k] == log[..k] {
    }
  }
}
