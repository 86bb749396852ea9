/**
 * Call sequences on a controller and the frames they write, proved from the
 * controller's contracts alone.
 */
module Scenarios {
  import opened Visca
  import opened PTZ

  /** The remembered pair starts at (0, 0), so panTilt(0, 0) right after construction writes nothing. */
  method IdleDriveAfterConstruction(portOpened: bool) returns (frames: seq<Frame>)
    ensures frames == []
  {
    var c := new Controller(portOpened);
    c.PanTilt(0, 0);
    frames := c.sent;
  }

  /** The same pan/tilt request twice is written at most once. */
  method RepeatedDrive(pan: int32, tilt: int32) returns (frames: seq<Frame>)
    ensures frames == if pan == 0 && tilt == 0 then [] else [Encode(DriveFor(pan, tilt))]
  {
    var c := new Controller(true);
    c.PanTilt(pan, tilt);
    c.PanTilt(pan, tilt);
    frames := c.sent;
  }

  /** A controller whose port did not open writes nothing, whatever it is asked. */
  method DisconnectedIsSilent(pan: int32, tilt: int32, speed: int32) returns (frames: seq<Frame>)
    ensures frames == []
  {
    var c := new Controller(false);
    c.PanTilt(pan, tilt);
    c.Zoom(speed);
    c.Home();
    c.Stop();
    c.OpenMenu();
    frames := c.sent;
  }

  /**
   * stop() writes the stop frame whatever was sent before, and afterwards
   * panTilt(0, 0) and zoom(0) count as repeats.
   */
  method StopThenIdle(pan: int32, tilt: int32, speed: int32) returns (frames: seq<Frame>)
    ensures frames == [Encode(StopDrive)]
  {
    var c := new Controller(true);
    c.PanTilt(pan, tilt);
    c.Zoom(speed);
    var before := |c.sent|;
    c.Stop();
    c.PanTilt(0, 0);
    c.Zoom(0);
    frames := c.sent[before..];
  }

  /** stop() is never suppressed: two stops write two stop frames. */
  method StopTwice() returns (frames: seq<Frame>)
    ensures frames == [Encode(StopDrive), Encode(StopDrive)]
  {
    var c := new Controller(true);
    c.Stop();
    c.Stop();
    frames := c.sent;
  }

  /**
   * home() and openMenu() leave the remembered pair alone: repeating the
   * drive request after them is still suppressed, although home() moved the head.
   */
  method RepeatAfterHome(pan: int32, tilt: int32) returns (frames: seq<Frame>)
    requires pan != 0 || tilt != 0
    ensures frames == [Encode(DriveFor(pan, tilt)), Encode(PanTiltHome), Encode(MenuToggle)]
  {
    var c := new Controller(true);
    c.PanTilt(pan, tilt);
    c.Home();
    c.OpenMenu();
    c.PanTilt(pan, tilt);
    frames := c.sent;
  }

  /**
   * stop() resets the remembered zoom speed without writing a zoom frame,
   * so a following zoom(0) is suppressed and the lens's last order is still
   * the zoom that was running.
   */
  method ZoomAcrossStop(speed: int32) returns (frames: seq<Frame>, lensOrder: bv8)
    requires speed != 0
    ensures frames == [Encode(CamZoom(ZoomCode(speed))), Encode(StopDrive)]
    ensures lensOrder == ZoomCode(speed) && lensOrder != 0x00
  {
    var c := new Controller(true);
    c.Zoom(speed);
    c.Stop();
    c.Zoom(0);
    frames := c.sent;
    AfterSending([], CamZoom(ZoomCode(speed)));
    AfterSending([Encode(CamZoom(ZoomCode(speed)))], StopDrive);
    lensOrder := LastZoomCode(frames);
  }
}
