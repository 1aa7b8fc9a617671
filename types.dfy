/** Value types shared by the command-line front end and the controller model. */
module AuraTypes {

  datatype Option<+T> = None | Some(value: T)

  lemma AppendAssoc<T>(a: seq<T>, b: seq<T>, c: seq<T>)
    ensures (a + b) + c == a + (b + c)
  {
  }

  /** An `unsigned char`. */
  type Byte = x: int | 0 <= x < 256

  const Int32Min: int := -0x8000_0000
  const Int32Max: int := 0x7FFF_FFFF

  /** A C++ `int`. */
  type Int32 = x: int | Int32Min <= x <= Int32Max

  /** One `(r, g, b)` tuple of the colour list. */
  datatype Color = Color(r: Byte, g: Byte, b: Byte)

  /** The eight Aura effect modes the front end can name. */
  datatype Mode =
    | Off
    | Static
    | Breathing
    | Flashing
    | SpectrumCycle
    | Rainbow
    | SpectrumCycleBreathing
    | ChaseFade

  /**
   * The value of an `Options` record. `mode` is `None` while the field has
   * never been written: the record gives it no initialiser, so reading it
   * then yields an indeterminate byte.
   */
  datatype Settings = Settings(device: Int32, colors: seq<Color>, mode: Option<Mode>, direct: bool)

  /** The value of a freshly constructed `Options` record. */
  const Defaults: Settings := Settings(-1, [], None, true)

  /** The `Options` record that the argument loop fills in through a pointer. */
  class Options {
    var device: Int32
    var colors: seq<Color>
    var mode: Option<Mode>
    var direct: bool

    constructor ()
      ensures Snapshot() == Defaults
    {
      device := -1;
      colors := [];
      mode := None;
      direct := true;
    }

    function Snapshot(): Settings
      reads this
    {
      Settings(device, colors, mode, direct)
    }
  }
}
