/**
 * The frame decoder `try_parse_packet` and the board payload mapper
 * (src/main.rs:14, 231-286).
 */
module Decoder {
  import opened LedTypes
  import opened Colors
  import opened Stuffing

  /** The outcome of shaping the decoded colours into a board payload. */
  datatype MapResult =
    | ShapeMismatch            // a `try_from(..).unwrap()` or `split_at` would panic
    | Mapped(payload: LedBoard)

  /** Number of colours the board's payload arrays hold together. */
  function BoardColors(leftMain: nat, board: nat): nat
    requires board < BOARDS_TOTAL
  {
    if board == 0 then leftMain + SIDES
    else if board == 1 then RIGHT_MAIN + SIDES
    else SLIDER_LEDS
  }

  /**
   * The `match board` of `try_parse_packet`. Boards 0 and 1 are split into a
   * main and a side array; board 2 is reversed into physical order.
   */
  function MapPayload(leftMain: nat, board: Byte, rgb: seq<Rgb>): (m: MapResult)
    requires board < BOARDS_TOTAL
    ensures m.Mapped? <==> |rgb| == BoardColors(leftMain, board)
    ensures m.Mapped? ==> m.payload.Index() == board && m.payload.Shaped(leftMain)
    ensures m.Mapped? && board < 2 ==> m.payload.main + m.payload.sides == rgb
    ensures m.Mapped? && board == 2 ==> m.payload.leds == Reversed(rgb)
  {
    if board == 0 then
      if |rgb| < leftMain || |rgb| - leftMain != SIDES then ShapeMismatch
      else Mapped(BillboardLeft(rgb[..leftMain], rgb[leftMain..]))
    else if board == 1 then
      if |rgb| < RIGHT_MAIN || |rgb| - RIGHT_MAIN != SIDES then ShapeMismatch
      else Mapped(BillboardRight(rgb[..RIGHT_MAIN], rgb[RIGHT_MAIN..]))
    else
      if |rgb| != SLIDER_LEDS then ShapeMismatch
      else Mapped(Slider(Reversed(rgb)))
  }

  /** The outcome of one decode attempt. */
  datatype ParseResult =
    | Invalid
    | Incomplete
    | Panicked                               // the program aborts while shaping the payload
    | Parsed(packet: LedPacket, used: nat)   // `used` raw bytes were consumed

  /** The decoded bytes of a complete frame, shaped into a packet. */
  function Assemble(p: Profile, board: Byte, decoded: seq<Byte>, used: nat): (r: ParseResult)
    requires board < BOARDS_TOTAL
    ensures r.Panicked? <==> |decoded| / 3 != BoardColors(p.leftMain, board)
    ensures !r.Panicked? ==> r.Parsed? && r.used == used && r.packet.board == board
    ensures r.Parsed? ==> r.packet.payload.Index() == board && r.packet.payload.Shaped(p.leftMain)
  {
    match MapPayload(p.leftMain, board, BytesToRgb(decoded))
    case ShapeMismatch => Panicked
    case Mapped(payload) => Parsed(LedPacket(board, payload), used)
  }

  /** The specification of one decode attempt on the head of `buf`. */
  function ParsePacket(p: Profile, buf: seq<Byte>): (r: ParseResult)
    ensures r.Invalid? <==>
      |buf| == 0 || buf[0] != FRAMING || (|buf| == 1 && !p.loneMarkerWaits)
      || (|buf| >= 2 && buf[1] >= BOARDS_TOTAL)
    ensures r.Parsed? ==>
      |buf| >= 2 && buf[1] < BOARDS_TOTAL && 2 + BOARD_DATA_LENS[buf[1]] <= r.used <= |buf|
    ensures r.Parsed? ==>
      r.packet.board == buf[1] && r.packet.payload.Index() == buf[1]
      && r.packet.payload.Shaped(p.leftMain)
  {
    if |buf| == 0 || buf[0] != FRAMING then Invalid
    else if |buf| == 1 then (if p.loneMarkerWaits then Incomplete else Invalid)
    else if buf[1] >= BOARDS_TOTAL then Invalid
    else
      match Unstuff(buf[2..], BOARD_DATA_LENS[buf[1]])
      case Filled(decoded, n) => Assemble(p, buf[1], decoded, 2 + n)
      case _ => Incomplete
  }

  /** A frame with a good header is Incomplete until its payload is un-stuffed, and then shaped. */
  lemma ParseWellHeaded(p: Profile, buf: seq<Byte>, u: Unstuffed)
    requires |buf| >= 2 && buf[0] == FRAMING && buf[1] < BOARDS_TOTAL
    requires u == Unstuff(buf[2..], BOARD_DATA_LENS[buf[1]])
    ensures !u.Filled? ==> ParsePacket(p, buf) == Incomplete
    ensures u.Filled? ==> ParsePacket(p, buf) == Assemble(p, buf[1], u.decoded, 2 + u.used)
  {
  }

  /** `try_parse_packet`: header checks, the un-stuffing loop, then the payload shaping. */
  method TryParsePacket(p: Profile, buf: seq<Byte>) returns (r: ParseResult)
    ensures r == ParsePacket(p, buf)
  {
    if |buf| < 2 || buf[0] != FRAMING {
      if p.loneMarkerWaits && |buf| == 1 && buf[0] == FRAMING {
        return Incomplete;
      }
      return Invalid;
    }
    var board := buf[1];
    if board >= BOARDS_TOTAL {
      return Invalid;
    }
    var u := UnstuffLoop(buf[2..], BOARD_DATA_LENS[board]);
    ParseWellHeaded(p, buf, u);
    if !u.Filled? {
      return Incomplete;
    }
    var decoded := u.decoded;
    var rgb := BytesToRgb(decoded);
    var m := MapPayload(p.leftMain, board, rgb);
    if m.ShapeMismatch? {
      return Panicked;
    }
    return Parsed(LedPacket(board, m.payload), 2 + u.used);
  }

  /** The program's header check: invalid exactly on a short buffer, a wrong marker or an unknown board. */
  lemma InvalidHeaderAsWritten(buf: seq<Byte>)
    ensures ParsePacket(AS_WRITTEN, buf).Invalid? <==>
      |buf| < 2 || buf[0] != FRAMING || buf[1] >= BOARDS_TOTAL
  {
  }

  /** Once a decode attempt has an answer other than Incomplete, more input does not change it. */
  lemma ParsePrefixStable(p: Profile, buf: seq<Byte>, tail: seq<Byte>)
    requires |buf| >= 2 && !ParsePacket(p, buf).Incomplete?
    ensures ParsePacket(p, buf + tail) == ParsePacket(p, buf)
  {
    assert (buf + tail)[..2] == buf[..2];
    if buf[0] == FRAMING && buf[1] < BOARDS_TOTAL {
      assert (buf + tail)[2..] == buf[2..] + tail;
      UnstuffPrefixStable(buf[2..], tail, BOARD_DATA_LENS[buf[1]]);
    }
  }

  /** A frame as a sender puts it on the wire. */
  function Frame(board: Byte, payload: seq<Byte>, escaped: set<Byte>): (f: seq<Byte>)
    ensures |f| == 2 + |Stuff(payload, escaped)| && f[0] == FRAMING && f[1] == board
  {
    [FRAMING, board] + Stuff(payload, escaped)
  }

  /** Round trip: a stuffed frame of the board's length decodes to its payload, consuming exactly the frame. */
  lemma ParseFrame(p: Profile, board: Byte, payload: seq<Byte>, escaped: set<Byte>, tail: seq<Byte>)
    requires board < BOARDS_TOTAL && |payload| == BOARD_DATA_LENS[board]
    requires ESCAPE in escaped
    ensures ParsePacket(p, Frame(board, payload, escaped) + tail)
         == Assemble(p, board, payload, |Frame(board, payload, escaped)|)
  {
    var buf := Frame(board, payload, escaped) + tail;
    assert buf[2..] == Stuff(payload, escaped) + tail;
    UnstuffStuffed(payload, escaped, tail);
  }

  /**
   * A frame stuffed as a sender must, with both markers escaped, decodes back
   * to its payload, and no frame marker follows its leading one.
   */
  lemma WireFrame(p: Profile, board: Byte, payload: seq<Byte>, tail: seq<Byte>)
    requires board < BOARDS_TOTAL && |payload| == BOARD_DATA_LENS[board]
    ensures FRAMING !in Frame(board, payload, WIRE_ESCAPED)[1..]
    ensures ParsePacket(p, Frame(board, payload, WIRE_ESCAPED) + tail)
         == Assemble(p, board, payload, 2 + |Stuff(payload, WIRE_ESCAPED)|)
  {
    StuffedAvoidsFraming(payload, WIRE_ESCAPED);
    ParseFrame(p, board, payload, WIRE_ESCAPED, tail);
    assert Frame(board, payload, WIRE_ESCAPED)[1..] == [board] + Stuff(payload, WIRE_ESCAPED);
  }

  /** Every strict prefix of a frame that holds the board byte decodes as Incomplete. */
  lemma FramePrefixIncomplete(p: Profile, board: Byte, payload: seq<Byte>, escaped: set<Byte>, k: nat)
    requires board < BOARDS_TOTAL && |payload| == BOARD_DATA_LENS[board]
    requires ESCAPE in escaped
    requires 2 <= k < |Frame(board, payload, escaped)|
    ensures ParsePacket(p, Frame(board, payload, escaped)[..k]) == Incomplete
  {
    var f := Frame(board, payload, escaped);
    assert f[..k][2..] == Stuff(payload, escaped)[..k - 2];
    StuffedPrefixIncomplete(payload, escaped, k - 2);
  }

  /** Under the corrected profile a lone frame marker also waits for more input. */
  lemma LoneMarkerWaits(p: Profile)
    requires p.loneMarkerWaits
    ensures ParsePacket(p, [FRAMING]) == Incomplete
  {
  }

  /** Board 2: the slider colours in physical order; LED j is wire triple 30 - j, channels reordered. */
  lemma SliderDecoded(p: Profile, decoded: seq<Byte>, used: nat)
    requires |decoded| == BOARD_DATA_LENS[2]
    ensures Assemble(p, 2, decoded, used).Parsed?
    ensures Assemble(p, 2, decoded, used).used == used
    ensures Assemble(p, 2, decoded, used).packet.payload.Slider?
    ensures forall j :: 0 <= j < SLIDER_LEDS ==>
      Assemble(p, 2, decoded, used).packet.payload.leds[j]
      == Rgb(decoded[3 * (30 - j) + 1], decoded[3 * (30 - j) + 2], decoded[3 * (30 - j)])
  {
    var rgb := BytesToRgb(decoded);
    assert |rgb| == SLIDER_LEDS;
  }

  /** Board 1: colours 0..60 form the main array and colours 60..63 the side array. */
  lemma RightBillboardDecoded(p: Profile, decoded: seq<Byte>, used: nat)
    requires |decoded| == BOARD_DATA_LENS[1]
    ensures Assemble(p, 1, decoded, used).Parsed?
    ensures Assemble(p, 1, decoded, used).used == used
    ensures Assemble(p, 1, decoded, used).packet.payload
         == BillboardRight(BytesToRgb(decoded)[..RIGHT_MAIN], BytesToRgb(decoded)[RIGHT_MAIN..])
  {
    assert |BytesToRgb(decoded)| == RIGHT_MAIN + SIDES;
  }

  /** Board 0 as written: 159 bytes give 53 colours, `split_at(53)` leaves no side colour, and the unwrap panics. */
  lemma LeftBillboardAlwaysPanics(buf: seq<Byte>)
    requires |buf| >= 2 && buf[0] == FRAMING && buf[1] == 0
    requires Unstuff(buf[2..], BOARD_DATA_LENS[0]).Filled?
    ensures ParsePacket(AS_WRITTEN, buf) == Panicked
  {
    var d := Unstuff(buf[2..], BOARD_DATA_LENS[0]).decoded;
    assert |BytesToRgb(d)| == 53;
  }

  /** As written, no packet for board 0 is ever produced. */
  lemma AsWrittenNeverYieldsLeft(buf: seq<Byte>)
    ensures ParsePacket(AS_WRITTEN, buf).Parsed? ==> ParsePacket(AS_WRITTEN, buf).packet.board != 0
  {
    if |buf| >= 2 && buf[0] == FRAMING && buf[1] == 0 {
      match Unstuff(buf[2..], BOARD_DATA_LENS[0])
      case Filled(d, _) => LeftBillboardAlwaysPanics(buf);
      case _ =>
    }
  }

  /** Board 0 corrected: the 53 colours split as 50 main and 3 side colours. */
  lemma LeftBillboardDecoded(decoded: seq<Byte>, used: nat)
    requires |decoded| == BOARD_DATA_LENS[0]
    ensures Assemble(CORRECTED, 0, decoded, used).Parsed?
    ensures Assemble(CORRECTED, 0, decoded, used).packet.payload
         == BillboardLeft(BytesToRgb(decoded)[..50], BytesToRgb(decoded)[50..])
  {
    assert |BytesToRgb(decoded)| == 53;
  }

  /** The corrected decoder never panics: every complete frame of every board is shaped. */
  lemma CorrectedNeverPanics(buf: seq<Byte>)
    ensures ParsePacket(CORRECTED, buf) != Panicked
  {
    if |buf| >= 2 && buf[0] == FRAMING && buf[1] < BOARDS_TOTAL {
      match Unstuff(buf[2..], BOARD_DATA_LENS[buf[1]])
      case Filled(d, _) =>
        assert |BytesToRgb(d)| == BoardColors(CORRECTED.leftMain, buf[1]);
      case _ =>
    }
  }

  /** A slider frame with no escapes: physical LED 0 is the last wire triple, channels reordered. */
  lemma LiteralSliderFrame(p: Profile, d: seq<Byte>)
    requires |d| == BOARD_DATA_LENS[2]
    requires forall k :: 0 <= k < |d| ==> d[k] != ESCAPE
    ensures ParsePacket(p, [FRAMING, 2] + d).Parsed?
    ensures ParsePacket(p, [FRAMING, 2] + d).used == 2 + |d|
    ensures ParsePacket(p, [FRAMING, 2] + d).packet.payload.Slider?
    ensures ParsePacket(p, [FRAMING, 2] + d).packet.payload.leds[0] == Rgb(d[91], d[92], d[90])
  {
    var buf := [FRAMING, 2] + d;
    assert buf[2..] == d;
    UnstuffLiteral(d, |d|);
    assert d[..|d|] == d;
    SliderDecoded(p, d, 2 + |d|);
  }
}
