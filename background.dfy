// The scrolling star field: two copies of the image scroll down one pixel per
// tick and the image cycles through six frames.
module Background {
  import Common

  const Frames: nat := 6
  const ScrollSpeed: int := 1
  const CyclePeriod: nat := 10

  /** The star image shown for a frame counter. */
  function FrameIndex(frame: nat): (i: nat)
    ensures i < Frames
  {
    (frame / CyclePeriod) % Frames
  }

  class Background {
    var frame: nat
    var y: int

    ghost predicate Valid()
      reads this
    {
      0 <= y < Common.ScreenHeight
    }

    constructor ()
      ensures Valid() && frame == 0 && y == 0
    {
      frame := 0;
      y := 0;
    }

    method Update()
      requires Valid()
      modifies this
      ensures Valid()
      ensures frame == old(frame) + 1
      ensures y == (old(y) + 1) % Common.ScreenHeight
    {
      frame := frame + 1;
      y := y + ScrollSpeed;
      if y >= Common.ScreenHeight {
        y := y - Common.ScreenHeight;
      }
    }
  }
}
