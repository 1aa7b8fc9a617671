/**
 * `ApplyOptions` and the device-selection loop of `main`: the calls one
 * `Options` record makes on a controller, and on which controllers.
 */
module Dispatcher {
  import opened AuraTypes
  import opened Controller

  /** The colour LED `i` receives: its own entry, or the last one once the list runs out. */
  function FillColor(colors: seq<Color>, i: nat): Color
    requires colors != []
  {
    colors[if i < |colors| then i else |colors| - 1]
  }

  /** The write of colour `c` to LED `led` on the path `direct` selects. */
  function LedWrite(direct: bool, led: nat, c: Color): Event {
    if direct then DirectWrite(led, c) else EffectWrite(led, c)
  }

  /** The LED writes for LEDs `0 .. n - 1`, in that order. */
  function LedWrites(direct: bool, colors: seq<Color>, n: nat): seq<Event>
    requires colors != []
  {
    if n == 0 then [] else LedWrites(direct, colors, n - 1) + [LedWrite(direct, n - 1, FillColor(colors, n - 1))]
  }

  /** The calls `ApplyOptions` makes on a controller with `n` LEDs for the record value `st`. */
  function DispatchTrace(st: Settings, n: nat): seq<Event> {
    [DirectFlag(st.direct)]
    + (if st.colors == [] then [] else LedWrites(st.direct, st.colors, n))
    + (if st.direct then [] else [ModeWrite(st.mode)])
  }

  /** The k-th LED write goes to LED k, on the path `direct` selects, with the filled-forward colour. */
  lemma {:induction false} LedWritesAt(direct: bool, colors: seq<Color>, n: nat)
    requires colors != []
    ensures |LedWrites(direct, colors, n)| == n
    ensures forall k :: 0 <= k < n ==>
              var e := LedWrites(direct, colors, n)[k];
              IsLedWrite(e) && e.led == k && (e.DirectWrite? <==> direct) &&
              e.color == (if k < |colors| then colors[k] else colors[|colors| - 1])
  {
    if n > 0 {
      LedWritesAt(direct, colors, n - 1);
    }
  }

  /** `SetDirect(direct)` is the first call and the only one of its kind. */
  lemma DispatchSetsDirectFirst(st: Settings, n: nat)
    ensures var t := DispatchTrace(st, n);
            t[0] == DirectFlag(st.direct) && forall k :: 0 < k < |t| ==> !t[k].DirectFlag?
  {
    if st.colors != [] {
      LedWritesAt(st.direct, st.colors, n);
    }
  }

  /**
   * With a non-empty colour list, calls 1 to n are the LED writes, one per
   * LED in ascending order, each with the filled-forward colour on the path
   * `direct` selects; with an empty list there is no LED write at all.
   */
  lemma DispatchWritesEveryLed(st: Settings, n: nat)
    ensures |DispatchTrace(st, n)| == 1 + (if st.colors == [] then 0 else n) + (if st.direct then 0 else 1)
    ensures var t := DispatchTrace(st, n);
            forall k :: 0 <= k < |t| ==> (IsLedWrite(t[k]) <==> st.colors != [] && 1 <= k <= n)
    ensures var t := DispatchTrace(st, n);
            st.colors != [] ==>
              forall k :: 1 <= k <= n ==>
                t[k].led == k - 1 && (t[k].DirectWrite? <==> st.direct) &&
                t[k].color == st.colors[if k - 1 < |st.colors| then k - 1 else |st.colors| - 1]
  {
    if st.colors != [] {
      LedWritesAt(st.direct, st.colors, n);
    }
  }

  /**
   * `SetMode` is called iff `direct` is false, then exactly once, as the last
   * call, with the record's mode (possibly never initialised).
   */
  lemma DispatchSetsModeLast(st: Settings, n: nat)
    ensures var t := DispatchTrace(st, n);
            (exists k :: 0 <= k < |t| && t[k].ModeWrite?) <==> !st.direct
    ensures var t := DispatchTrace(st, n);
            !st.direct ==> t[|t| - 1] == ModeWrite(st.mode) && forall k :: 0 <= k < |t| - 1 ==> !t[k].ModeWrite?
  {
    if st.colors != [] {
      LedWritesAt(st.direct, st.colors, n);
    }
    var t := DispatchTrace(st, n);
    if !st.direct {
      assert t[|t| - 1].ModeWrite?;
    }
  }

  /** Five LEDs, red then green, direct: LED 0 red, LEDs 1 to 4 green, no mode write. */
  lemma FiveLedsDirect()
    ensures var red, green := Color(255, 0, 0), Color(0, 255, 0);
            DispatchTrace(Settings(-1, [red, green], None, true), 5)
            == [DirectFlag(true), DirectWrite(0, red), DirectWrite(1, green), DirectWrite(2, green),
                DirectWrite(3, green), DirectWrite(4, green)]
  {
    var red, green := Color(255, 0, 0), Color(0, 255, 0);
    var cs := [red, green];
    assert LedWrites(true, cs, 1) == [DirectWrite(0, red)];
    assert LedWrites(true, cs, 2) == [DirectWrite(0, red), DirectWrite(1, green)];
    assert LedWrites(true, cs, 3) == [DirectWrite(0, red), DirectWrite(1, green), DirectWrite(2, green)];
    assert LedWrites(true, cs, 4) == [DirectWrite(0, red), DirectWrite(1, green), DirectWrite(2, green), DirectWrite(3, green)];
  }

  /** Three LEDs, magenta, breathing: three effect writes, then one `SetMode(Breathing)`. */
  lemma ThreeLedsBreathing()
    ensures var magenta := Color(255, 0, 255);
            DispatchTrace(Settings(-1, [magenta], Some(Breathing), false), 3)
            == [DirectFlag(false), EffectWrite(0, magenta), EffectWrite(1, magenta), EffectWrite(2, magenta),
                ModeWrite(Some(Breathing))]
  {
  }

  /** Makes on `controllers[deviceIndex]` the calls `DispatchTrace` gives for `options`. */
  method ApplyOptions(controllers: seq<AuraController>, deviceIndex: int, options: Options, hw: HardwareLog)
    requires 0 <= deviceIndex < |controllers|
    requires controllers[deviceIndex].hw == hw
    modifies hw
    ensures hw.entries
            == old(hw.entries) + Tagged(controllers[deviceIndex],
                                        DispatchTrace(options.Snapshot(), controllers[deviceIndex].ledCount))
  {
    var device := controllers[deviceIndex];
    ghost var done := [DirectFlag(options.direct)];
    device.SetDirect(options.direct);

    if |options.colors| != 0 {
      // The source leaves `last_set_color` uninitialised; -1 is never read.
      var lastSetColor := -1;
      var i := 0;
      while i < device.ledCount
        invariant 0 <= i <= device.ledCount
        invariant i > 0 ==> lastSetColor == (if i - 1 < |options.colors| then i - 1 else |options.colors| - 1)
        invariant done == [DirectFlag(options.direct)] + LedWrites(options.direct, options.colors, i)
        invariant hw.entries == old(hw.entries) + Tagged(device, done)
      {
        if i < |options.colors| {
          lastSetColor := i;
        }

        var c := options.colors[lastSetColor];
        assert c == FillColor(options.colors, i);
        if options.direct {
          device.SetLEDColorDirect(i, c.r, c.g, c.b);
        } else {
          device.SetLEDColorEffect(i, c.r, c.g, c.b);
        }
        TaggedSnoc(device, done, LedWrite(options.direct, i, c));
        done := done + [LedWrite(options.direct, i, c)];
        i := i + 1;
      }
    }

    if !options.direct {
      device.SetMode(options.mode);
      TaggedSnoc(device, done, ModeWrite(options.mode));
      done := done + [ModeWrite(options.mode)];
    }
    assert done == DispatchTrace(options.Snapshot(), device.ledCount);
  }

  /** The log `main` leaves after applying `st` to `controllers[0 .. count - 1]` in index order. */
  ghost function AllDevicesLog(controllers: seq<AuraController>, st: Settings, count: nat): seq<Entry>
    requires count <= |controllers|
  {
    if count == 0 then []
    else AllDevicesLog(controllers, st, count - 1)
         + Tagged(controllers[count - 1], DispatchTrace(st, controllers[count - 1].ledCount))
  }

  /** Only the first `count` controllers receive calls. */
  lemma {:induction false} AllDevicesLogControllers(controllers: seq<AuraController>, st: Settings, count: nat)
    requires count <= |controllers|
    ensures forall j :: 0 <= j < |AllDevicesLog(controllers, st, count)| ==>
              AllDevicesLog(controllers, st, count)[j].controller in controllers[..count]
  {
    if count > 0 {
      AllDevicesLogControllers(controllers, st, count - 1);
      var earlier := AllDevicesLog(controllers, st, count - 1);
      var last := Tagged(controllers[count - 1], DispatchTrace(st, controllers[count - 1].ledCount));
      var log := AllDevicesLog(controllers, st, count);
      assert log == earlier + last;
      forall j | 0 <= j < |log|
        ensures log[j].controller in controllers[..count]
      {
        if j < |earlier| {
          assert log[j] == earlier[j];
          assert earlier[j].controller in controllers[..count - 1];
          assert controllers[..count - 1] <= controllers[..count];
        } else {
          assert log[j] == last[j - |earlier|];
          assert controllers[..count][count - 1] == controllers[count - 1];
        }
      }
    }
  }

  /** The controllers that received a `SetDirect`, in the order the log records them. */
  ghost function SetDirectTargets(log: seq<Entry>): seq<AuraController> {
    if log == [] then []
    else SetDirectTargets(log[..|log| - 1])
         + (if log[|log| - 1].event.DirectFlag? then [log[|log| - 1].controller] else [])
  }

  lemma {:induction false} SetDirectTargetsAppend(a: seq<Entry>, b: seq<Entry>)
    decreases |b|
    ensures SetDirectTargets(a + b) == SetDirectTargets(a) + SetDirectTargets(b)
  {
    if b == [] {
      assert a + b == a;
    } else {
      assert (a + b)[..|a + b| - 1] == a + b[..|b| - 1];
      SetDirectTargetsAppend(a, b[..|b| - 1]);
    }
  }

  lemma {:induction false} SetDirectTargetsOfDispatch(c: AuraController, st: Settings, n: nat)
    ensures SetDirectTargets(Tagged(c, DispatchTrace(st, n))) == [c]
  {
    var t := DispatchTrace(st, n);
    DispatchSetsDirectFirst(st, n);
    var log := Tagged(c, t);
    assert log == [log[0]] + log[1..];
    SetDirectTargetsAppend([log[0]], log[1..]);
    assert SetDirectTargets([log[0]]) == [c] by {
      assert [log[0]][..0] == [];
    }
    NoSetDirect(log[1..]);
  }

  lemma {:induction false} NoSetDirect(log: seq<Entry>)
    requires forall k :: 0 <= k < |log| ==> !log[k].event.DirectFlag?
    ensures SetDirectTargets(log) == []
  {
    if log != [] {
      NoSetDirect(log[..|log| - 1]);
    }
  }

  /**
   * Applying to all devices calls `SetDirect` once per controller, in index
   * order: each controller's calls come after those of every lower index.
   */
  lemma {:induction false} AllDevicesInIndexOrder(controllers: seq<AuraController>, st: Settings, count: nat)
    requires count <= |controllers|
    ensures SetDirectTargets(AllDevicesLog(controllers, st, count)) == controllers[..count]
  {
    if count > 0 {
      var c := controllers[count - 1];
      AllDevicesInIndexOrder(controllers, st, count - 1);
      SetDirectTargetsOfDispatch(c, st, c.ledCount);
      TargetsStep(AllDevicesLog(controllers, st, count - 1), Tagged(c, DispatchTrace(st, c.ledCount)), controllers, count);
    }
  }

  lemma TargetsStep(earlier: seq<Entry>, last: seq<Entry>, controllers: seq<AuraController>, count: nat)
    requires 0 < count <= |controllers|
    requires SetDirectTargets(earlier) == controllers[..count - 1]
    requires SetDirectTargets(last) == [controllers[count - 1]]
    ensures SetDirectTargets(earlier + last) == controllers[..count]
  {
    SetDirectTargetsAppend(earlier, last);
    assert controllers[..count] == controllers[..count - 1] + [controllers[count - 1]];
  }

  /** One more controller's calls extend the all-devices log by one controller. */
  lemma AllDevicesStep(start: seq<Entry>, before: seq<Entry>, after: seq<Entry>,
                       controllers: seq<AuraController>, st: Settings, i: nat)
    requires i < |controllers|
    requires before == start + AllDevicesLog(controllers, st, i)
    requires after == before + Tagged(controllers[i], DispatchTrace(st, controllers[i].ledCount))
    ensures after == start + AllDevicesLog(controllers, st, i + 1)
  {
    AppendAssoc(start, AllDevicesLog(controllers, st, i),
                Tagged(controllers[i], DispatchTrace(st, controllers[i].ledCount)));
  }

  /** The loop in `main` that applies the record to every controller, in index order. */
  method ApplyToAllDevices(controllers: seq<AuraController>, options: Options, hw: HardwareLog)
    requires forall k :: 0 <= k < |controllers| ==> controllers[k].hw == hw
    modifies hw
    ensures hw.entries == old(hw.entries) + AllDevicesLog(controllers, options.Snapshot(), |controllers|)
  {
    ghost var st := options.Snapshot();
    var i := 0;
    while i < |controllers|
      invariant 0 <= i <= |controllers|
      invariant options.Snapshot() == st
      invariant hw.entries == old(hw.entries) + AllDevicesLog(controllers, st, i)
    {
      ghost var before := hw.entries;
      ApplyOptions(controllers, i, options, hw);
      AllDevicesStep(old(hw.entries), before, hw.entries, controllers, st, i);
      i := i + 1;
    }
  }

  /** The selection in `main`: every controller in index order when `device` is -1, else the one selected. */
  method ApplyToDevices(controllers: seq<AuraController>, options: Options, hw: HardwareLog)
    requires forall k :: 0 <= k < |controllers| ==> controllers[k].hw == hw
    requires options.device == -1 || 0 <= options.device < |controllers|
    modifies hw
    ensures options.device == -1 ==> hw.entries == old(hw.entries) + AllDevicesLog(controllers, options.Snapshot(), |controllers|)
    ensures options.device != -1 ==>
              hw.entries == old(hw.entries) + Tagged(controllers[options.device],
                                                     DispatchTrace(options.Snapshot(), controllers[options.device].ledCount))
  {
    if options.device == -1 {
      ApplyToAllDevices(controllers, options, hw);
    } else {
      ApplyOptions(controllers, options.device, options, hw);
    }
  }
}
