/** Wire constants and the value types of the LED protocol (src/main.rs:11-40). */
module LedTypes {

  /** An unsigned 8-bit value (Rust `u8`). */
  type Byte = x: int | 0 <= x < 0x100

  /** An unsigned 32-bit value (Rust `u32`), used by the zone reducer's accumulators. */
  type U32 = x: int | 0 <= x < 0x1_0000_0000

  datatype Option<T> = None | Some(value: T)

  /** The frame marker that starts every packet. */
  const FRAMING: Byte := 0xE0
  /** The escape marker: the byte after it is sent decremented by one. */
  const ESCAPE: Byte := 0xD0
  /** Number of LED boards a packet can address. */
  const BOARDS_TOTAL: nat := 3

  /** Decoded payload length in bytes per board: LED count times three channels. */
  type LenTable = s: seq<nat> | |s| == BOARDS_TOTAL witness [0, 0, 0]
  const BOARD_DATA_LENS: LenTable := [53 * 3, 63 * 3, 31 * 3]

  /** Shapes of the three board payloads. */
  const RIGHT_MAIN: nat := 60
  const SIDES: nat := 3
  const SLIDER_LEDS: nat := 31

  /** One LED colour. */
  datatype Rgb = Rgb(r: Byte, g: Byte, b: Byte)

  /** The decoded payload of one board. */
  datatype LedBoard =
    | BillboardLeft(main: seq<Rgb>, sides: seq<Rgb>)
    | BillboardRight(main: seq<Rgb>, sides: seq<Rgb>)
    | Slider(leds: seq<Rgb>)
  {
    /** The board index this variant belongs to. */
    function Index(): nat {
      match this
      case BillboardLeft(_, _) => 0
      case BillboardRight(_, _) => 1
      case Slider(_) => 2
    }

    /** The array lengths the Rust types fix (`[Rgb; N]`), given the left billboard's main width. */
    predicate Shaped(leftMain: nat) {
      match this
      case BillboardLeft(main, sides) => |main| == leftMain && |sides| == SIDES
      case BillboardRight(main, sides) => |main| == RIGHT_MAIN && |sides| == SIDES
      case Slider(leds) => |leds| == SLIDER_LEDS
    }
  }

  datatype LedPacket = LedPacket(board: Byte, payload: LedBoard)

  /**
   * The two points where this model departs from the program on purpose.
   * `leftMain` is the width of the left billboard's main array, at which the
   * decoded colours are split; `loneMarkerWaits` says whether a buffer holding
   * only the frame marker is reported as incomplete rather than invalid.
   */
  datatype Profile = Profile(leftMain: nat, loneMarkerWaits: bool)

  /** The program as written: `split_at(53)` and `buf.len() < 2` reported as invalid. */
  const AS_WRITTEN: Profile := Profile(53, false)

  /** The corrected decoder: a 50 + 3 split of the 53 left-billboard colours, and a lone marker waits. */
  const CORRECTED: Profile := Profile(50, true)
}
