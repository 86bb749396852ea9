/**
 * The part of Sony's VISCA camera-control protocol that the PTZ controller
 * speaks: the four command frames it builds, their byte layout (defined once,
 * by Encode) and a decoder that recovers the command from a frame.
 *
 * Every frame starts with the address byte 0x81 (camera 1) and ends with the
 * terminator 0xFF; a command is Valid when none of its parameter bytes is the
 * terminator, so that the frame cannot be cut short on the wire.
 */
module Visca {
  import opened Wrappers

  type Frame = seq<bv8>

  const Address: bv8 := 0x81
  const Terminator: bv8 := 0xFF

  datatype Command =
    | PanTiltDrive(panSpeed: bv8, tiltSpeed: bv8, panDir: bv8, tiltDir: bv8)  // 81 01 06 01 VV WW XX YY FF
    | CamZoom(code: bv8)                                                      // 81 01 04 07 pp FF
    | PanTiltHome                                                             // 81 01 06 04 FF
    | MenuToggle                                                              // 81 01 06 06 02 FF

  /** No parameter byte of the command collides with the terminator. */
  predicate ValidCommand(c: Command) {
    match c
    case PanTiltDrive(ps, ts, pd, td) =>
      ps != Terminator && ts != Terminator && pd != Terminator && td != Terminator
    case CamZoom(b) => b != Terminator
    case PanTiltHome => true
    case MenuToggle => true
  }

  /**
   * The framing rule every frame the controller emits obeys: address first,
   * terminator last and nowhere else, and one of the three lengths used.
   */
  predicate WellFramed(f: Frame) {
    && (|f| == 5 || |f| == 6 || |f| == 9)
    && f[0] == Address
    && f[|f| - 1] == Terminator
    && forall i :: 0 <= i < |f| - 1 ==> f[i] != Terminator
  }

  /** The byte layout of each command. */
  function Encode(c: Command): (f: Frame)
    ensures ValidCommand(c) ==> WellFramed(f)
  {
    match c
    case PanTiltDrive(ps, ts, pd, td) => [Address, 0x01, 0x06, 0x01, ps, ts, pd, td, Terminator]
    case CamZoom(b) => [Address, 0x01, 0x04, 0x07, b, Terminator]
    case PanTiltHome => [Address, 0x01, 0x06, 0x04, Terminator]
    case MenuToggle => [Address, 0x01, 0x06, 0x06, 0x02, Terminator]
  }

  /** Recognises the four frames; anything else is rejected. */
  function Decode(f: Frame): (r: Option<Command>)
    ensures r.Some? ==> ValidCommand(r.value) && Encode(r.value) == f
  {
    if |f| == 9 && f[..4] == [Address, 0x01, 0x06, 0x01] && f[8] == Terminator
       && f[4] != Terminator && f[5] != Terminator && f[6] != Terminator && f[7] != Terminator then
      Some(PanTiltDrive(f[4], f[5], f[6], f[7]))
    else if |f| == 6 && f[..4] == [Address, 0x01, 0x04, 0x07] && f[5] == Terminator && f[4] != Terminator then
      Some(CamZoom(f[4]))
    else if f == [Address, 0x01, 0x06, 0x04, Terminator] then
      Some(PanTiltHome)
    else if f == [Address, 0x01, 0x06, 0x06, 0x02, Terminator] then
      Some(MenuToggle)
    else
      None
  }

  /** Decoding undoes encoding for every valid command. */
  lemma DecodeEncode(c: Command)
    requires ValidCommand(c)
    ensures Decode(Encode(c)) == Some(c)
  {
  }

  /** Encoding is one-to-one on valid commands. */
  lemma EncodeInjective(c: Command, d: Command)
    requires ValidCommand(c) && ValidCommand(d)
    requires Encode(c) == Encode(d)
    ensures c == d
  {
    DecodeEncode(c);
    DecodeEncode(d);
  }
}
