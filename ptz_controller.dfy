/**
 * The PTZ controller: turns pan/tilt, zoom, home, stop and menu requests
 * into VISCA frames, and suppresses a pan/tilt or zoom request that repeats
 * the values last sent.
 *
 * The serial port is modelled by the field `sent`, the frames written in
 * order; a frame is written only while the controller is connected.
 */
module PTZ {
  import opened Wrappers
  import opened Visca
  import HexText

  /** The C++ `int` of the source's parameters and fields. */
  newtype int32 = x: int | -0x8000_0000 <= x < 0x8000_0000

  const MaxPanSpeed: nat := 24
  const MaxTiltSpeed: nat := 20
  const MaxZoomSpeed: nat := 7

  function Abs(x: int32): nat {
    if x < 0 then -(x as int) else x as int
  }

  /** The byte of a small number (the C++ cast to unsigned char). */
  function ByteOf(n: nat): (b: bv8)
    requires n <= MaxPanSpeed
    ensures b as int == n
  {
    n as bv8
  }

  /**
   * std::min(std::abs(v), cap), as a byte: the magnitude saturated at cap
   * (the caps used are 24, 20 and 7).
   */
  function SpeedByte(v: int32, cap: nat): (b: bv8)
    requires cap <= MaxPanSpeed
    ensures b as int <= cap
    ensures Abs(v) <= cap ==> b as int == Abs(v)
    ensures Abs(v) >= cap ==> b as int == cap
    ensures cap > 0 ==> (b == 0 <==> v == 0)
  {
    ByteOf(if Abs(v) < cap then Abs(v) else cap)
  }

  /** Pan direction byte: 0x02 right for positive, 0x01 left for negative, 0x03 stop. */
  function PanDir(pan: int32): (d: bv8)
    ensures d == 0x02 <==> pan > 0
    ensures d == 0x01 <==> pan < 0
    ensures d == 0x03 <==> pan == 0
  {
    if pan > 0 then 0x02 else if pan < 0 then 0x01 else 0x03
  }

  /** Tilt direction byte: 0x01 up for positive, 0x02 down for negative, 0x03 stop. */
  function TiltDir(tilt: int32): (d: bv8)
    ensures d == 0x01 <==> tilt > 0
    ensures d == 0x02 <==> tilt < 0
    ensures d == 0x03 <==> tilt == 0
  {
    if tilt > 0 then 0x01 else if tilt < 0 then 0x02 else 0x03
  }

  /** The drive command panTilt(pan, tilt) sends. */
  function DriveFor(pan: int32, tilt: int32): (c: Command)
    ensures ValidCommand(c)
    ensures c.PanTiltDrive? && c.panSpeed as int <= MaxPanSpeed && c.tiltSpeed as int <= MaxTiltSpeed
  {
    PanTiltDrive(SpeedByte(pan, MaxPanSpeed), SpeedByte(tilt, MaxTiltSpeed), PanDir(pan), TiltDir(tilt))
  }

  /** The frame stop() sends: the drive frame with speeds 00 and directions 03. */
  const StopDrive: Command := PanTiltDrive(0x00, 0x00, 0x03, 0x03)

  /**
   * The CAM_Zoom parameter byte zoom(speed) sends: the high nibble says the
   * direction (2 tele, 3 wide, 0 stop), the low nibble the saturated speed.
   */
  function ZoomCode(speed: int32): (b: bv8)
    ensures speed > 0 ==> 0x21 <= b <= 0x27
    ensures speed < 0 ==> 0x31 <= b <= 0x37
    ensures speed == 0 ==> b == 0x00
    ensures b >> 4 == (if speed > 0 then 0x2 else if speed < 0 then 0x3 else 0x0)
    ensures b & 0x0F == SpeedByte(speed, MaxZoomSpeed)
  {
    if speed > 0 then 0x20 | SpeedByte(speed, MaxZoomSpeed)
    else if speed < 0 then 0x30 | SpeedByte(speed, MaxZoomSpeed)
    else 0x00
  }

  /**
   * The drive command the head was last given, reading the log backwards;
   * the head is taken to be standing still before the first drive frame.
   */
  function LastDrive(log: seq<Frame>): (c: Command)
    ensures c.PanTiltDrive?
  {
    if |log| == 0 then StopDrive
    else match Decode(log[|log| - 1])
      case Some(PanTiltDrive(ps, ts, pd, td)) => PanTiltDrive(ps, ts, pd, td)
      case _ => LastDrive(log[..|log| - 1])
  }

  /** The frame decodes to a drive command. */
  predicate IsDriveFrame(f: Frame) {
    Decode(f).Some? && Decode(f).value.PanTiltDrive?
  }

  /** Frame k of the log is the drive frame for c, and no drive frame follows it. */
  ghost predicate LastDriveAt(log: seq<Frame>, k: int, c: Command) {
    && 0 <= k < |log|
    && Decode(log[k]) == Some(c)
    && forall j :: k < j < |log| ==> !IsDriveFrame(log[j])
  }

  /** One step of LastDrive: the last frame decides if it is a drive frame. */
  lemma LastDriveStep(log: seq<Frame>)
    requires |log| > 0
    ensures LastDrive(log) == if IsDriveFrame(log[|log| - 1]) then Decode(log[|log| - 1]).value
                              else LastDrive(log[..|log| - 1])
  {
  }

  /** With no drive frame in the log, LastDrive is the stop order. */
  lemma {:induction false} LastDriveWithoutDrives(log: seq<Frame>)
    requires forall j :: 0 <= j < |log| ==> !IsDriveFrame(log[j])
    ensures LastDrive(log) == StopDrive
  {
    if |log| > 0 {
      var p := log[..|log| - 1];
      LastDriveStep(log);
      assert forall j :: 0 <= j < |p| ==> p[j] == log[j];
      LastDriveWithoutDrives(p);
    }
  }

  /** When the log holds drive frames, LastDrive is the decoded last one of them. */
  lemma {:induction false} LastDriveIsLastDriveFrame(log: seq<Frame>, i: nat)
    requires i < |log| && IsDriveFrame(log[i])
    ensures exists k :: LastDriveAt(log, k, LastDrive(log))
  {
    var n := |log| - 1;
    LastDriveStep(log);
    if IsDriveFrame(log[n]) {
      assert LastDriveAt(log, n, LastDrive(log));
    } else {
      var p := log[..n];
      assert p[i] == log[i];
      LastDriveIsLastDriveFrame(p, i);
      var k :| LastDriveAt(p, k, LastDrive(p));
      assert forall j :: k < j < n ==> p[j] == log[j];
      assert LastDriveAt(log, k, LastDrive(log));
    }
  }

  /** The zoom byte the lens was last given; 0x00 (stop) before the first zoom frame. */
  function LastZoomCode(log: seq<Frame>): bv8 {
    if |log| == 0 then 0x00
    else match Decode(log[|log| - 1])
      case Some(CamZoom(b)) => b
      case _ => LastZoomCode(log[..|log| - 1])
  }

  /** What one more valid frame does to the head's and the lens's last orders. */
  lemma AfterSending(log: seq<Frame>, c: Command)
    requires ValidCommand(c)
    ensures (forall k :: 0 <= k < |log| ==> WellFramed(log[k])) ==>
            forall k :: 0 <= k < |log| + 1 ==> WellFramed((log + [Encode(c)])[k])
    ensures LastDrive(log + [Encode(c)]) == if c.PanTiltDrive? then c else LastDrive(log)
    ensures LastZoomCode(log + [Encode(c)]) == if c.CamZoom? then c.code else LastZoomCode(log)
  {
    DecodeEncode(c);
    assert (log + [Encode(c)])[..|log|] == log;
  }

  /** The nine successive appends that build a drive frame. */
  lemma DriveFrameLayout(ps: bv8, ts: bv8, pd: bv8, td: bv8)
    ensures [] + [0x81] + [0x01] + [0x06] + [0x01] + [ps] + [ts] + [pd] + [td] + [0xFF]
            == Encode(PanTiltDrive(ps, ts, pd, td))
  {
  }

  /** The six successive appends that build a zoom frame. */
  lemma ZoomFrameLayout(b: bv8)
    ensures [] + [0x81] + [0x01] + [0x04] + [0x07] + [b] + [0xFF] == Encode(CamZoom(b))
  {
  }

  class Controller {
    var connected: bool
    var lastPan: int32
    var lastTilt: int32
    var lastZoom: int32
    var sent: seq<Frame>

    /**
     * Every frame written is well framed; the head's last drive order is the
     * one for the remembered pan/tilt pair; while a zoom speed other than 0 is
     * remembered, the lens's last order is the one for it; and a controller
     * whose port did not open never writes.
     */
    ghost predicate Valid()
      reads this
    {
      && (forall k :: 0 <= k < |sent| ==> WellFramed(sent[k]))
      && LastDrive(sent) == DriveFor(lastPan, lastTilt)
      && (lastZoom != 0 ==> LastZoomCode(sent) == ZoomCode(lastZoom))
      && (!connected ==> sent == [])
    }

    /** `portOpened` is whether opening the serial port succeeded. */
    constructor (portOpened: bool)
      ensures Valid()
      ensures connected == portOpened
      ensures lastPan == 0 && lastTilt == 0 && lastZoom == 0
      ensures sent == []
    {
      connected := portOpened;
      lastPan, lastTilt, lastZoom := 0, 0, 0;
      sent := [];
    }

    /** The destructor: a stop, then the port is closed (not modelled). */
    method Dispose()
      requires Valid()
      modifies this
      ensures Valid()
      ensures connected == old(connected)
      ensures if connected
              then lastPan == 0 && lastTilt == 0 && lastZoom == 0 && sent == old(sent) + [Encode(StopDrive)]
              else lastPan == old(lastPan) && lastTilt == old(lastTilt) && lastZoom == old(lastZoom) && sent == old(sent)
    {
      Stop();
    }

    method PanTilt(pan: int32, tilt: int32)
      requires Valid()
      modifies this
      ensures Valid()
      ensures connected == old(connected) && lastZoom == old(lastZoom)
      ensures if !connected || (pan == old(lastPan) && tilt == old(lastTilt))
              then lastPan == old(lastPan) && lastTilt == old(lastTilt) && sent == old(sent)
              else lastPan == pan && lastTilt == tilt && sent == old(sent) + [Encode(DriveFor(pan, tilt))]
    {
      if !connected { return; }
      if pan == lastPan && tilt == lastTilt { return; }

      lastPan := pan;
      lastTilt := tilt;

      var panSpd := SpeedByte(pan, MaxPanSpeed);
      var tiltSpd := SpeedByte(tilt, MaxTiltSpeed);
      var panDir := PanDir(pan);
      var tiltDir := TiltDir(tilt);

      var cmd: Frame := [];
      cmd := cmd + [0x81];
      cmd := cmd + [0x01];
      cmd := cmd + [0x06];
      cmd := cmd + [0x01];
      cmd := cmd + [panSpd];
      cmd := cmd + [tiltSpd];
      cmd := cmd + [panDir];
      cmd := cmd + [tiltDir];
      cmd := cmd + [0xFF];

      DriveFrameLayout(panSpd, tiltSpd, panDir, tiltDir);
      ghost var c := DriveFor(pan, tilt);
      assert cmd == Encode(c);
      AfterSending(sent, c);
      SendCommand(cmd);
    }

    method Zoom(speed: int32)
      requires Valid()
      modifies this
      ensures Valid()
      ensures connected == old(connected) && lastPan == old(lastPan) && lastTilt == old(lastTilt)
      ensures if !connected || speed == old(lastZoom)
              then lastZoom == old(lastZoom) && sent == old(sent)
              else lastZoom == speed && sent == old(sent) + [Encode(CamZoom(ZoomCode(speed)))]
    {
      if !connected { return; }
      if speed == lastZoom { return; }
      lastZoom := speed;

      var cmd: Frame := [];
      cmd := cmd + [0x81];
      cmd := cmd + [0x01];
      cmd := cmd + [0x04];
      cmd := cmd + [0x07];

      ghost var code: bv8;
      if speed > 0 {
        var spd := SpeedByte(speed, MaxZoomSpeed);
        cmd := cmd + [0x20 | spd];
        code := 0x20 | spd;
      } else if speed < 0 {
        var spd := SpeedByte(speed, MaxZoomSpeed);
        cmd := cmd + [0x30 | spd];
        code := 0x30 | spd;
      } else {
        cmd := cmd + [0x00];
        code := 0x00;
      }

      cmd := cmd + [0xFF];
      ZoomFrameLayout(code);
      assert code == ZoomCode(speed);
      assert cmd == Encode(CamZoom(code));
      AfterSending(sent, CamZoom(code));
      SendCommand(cmd);
    }

    method Home()
      requires Valid()
      modifies this
      ensures Valid()
      ensures connected == old(connected)
      ensures lastPan == old(lastPan) && lastTilt == old(lastTilt) && lastZoom == old(lastZoom)
      ensures sent == if connected then old(sent) + [Encode(PanTiltHome)] else old(sent)
    {
      if !connected { return; }

      var cmd: Frame := [];
      cmd := cmd + [0x81];
      cmd := cmd + [0x01];
      cmd := cmd + [0x06];
      cmd := cmd + [0x04];
      cmd := cmd + [0xFF];

      assert cmd == Encode(PanTiltHome);
      AfterSending(sent, PanTiltHome);
      SendCommand(cmd);
    }

    method Stop()
      requires Valid()
      modifies this
      ensures Valid()
      ensures connected == old(connected)
      ensures if connected
              then lastPan == 0 && lastTilt == 0 && lastZoom == 0 && sent == old(sent) + [Encode(StopDrive)]
              else lastPan == old(lastPan) && lastTilt == old(lastTilt) && lastZoom == old(lastZoom) && sent == old(sent)
    {
      if !connected { return; }

      lastPan := 0;
      lastTilt := 0;
      lastZoom := 0;

      var cmd: Frame := [];
      cmd := cmd + [0x81];
      cmd := cmd + [0x01];
      cmd := cmd + [0x06];
      cmd := cmd + [0x01];
      cmd := cmd + [0x00];
      cmd := cmd + [0x00];
      cmd := cmd + [0x03];
      cmd := cmd + [0x03];
      cmd := cmd + [0xFF];

      DriveFrameLayout(0x00, 0x00, 0x03, 0x03);
      assert StopDrive == DriveFor(0, 0);
      AfterSending(sent, StopDrive);
      SendCommand(cmd);
    }

    method OpenMenu()
      requires Valid()
      modifies this
      ensures Valid()
      ensures connected == old(connected)
      ensures lastPan == old(lastPan) && lastTilt == old(lastTilt) && lastZoom == old(lastZoom)
      ensures sent == if connected then old(sent) + [Encode(MenuToggle)] else old(sent)
    {
      if !connected { return; }

      var cmd: Frame := [];
      cmd := cmd + [0x81];
      cmd := cmd + [0x01];
      cmd := cmd + [0x06];
      cmd := cmd + [0x06];
      cmd := cmd + [0x02];
      cmd := cmd + [0xFF];

      assert cmd == Encode(MenuToggle);
      AfterSending(sent, MenuToggle);
      SendCommand(cmd);
    }

    /** Writes the frame when the port is open, which is when the controller is connected. */
    method SendCommand(cmd: Frame)
      modifies this
      ensures connected == old(connected)
      ensures lastPan == old(lastPan) && lastTilt == old(lastTilt) && lastZoom == old(lastZoom)
      ensures sent == if connected then old(sent) + [cmd] else old(sent)
    {
      if connected {
        sent := sent + [cmd];
      }
    }

    /** The log text of a frame: each byte's pair followed by a blank, then trimmed. */
    static method CommandToString(cmd: Frame) returns (text: string)
      ensures text == HexText.Render(cmd)
    {
      var hex: string := "";
      var i := 0;
      while i < |cmd|
        invariant 0 <= i <= |cmd|
        invariant hex == HexText.Padded(cmd[..i])
      {
        HexText.PaddedStep(cmd[..i], cmd[i]);
        assert cmd[..i + 1] == cmd[..i] + [cmd[i]];
        hex := hex + HexText.ByteText(cmd[i]) + " ";
        i := i + 1;
      }
      assert cmd[..|cmd|] == cmd;
      text := HexText.Trimmed(hex);
      HexText.TrimmedPadded(cmd);
    }
  }
}
