/**
 * `ProcessOptions`: the loop over `argv` that fills in an `Options` record.
 * Every option that is accepted takes the next `argv` entry as its argument;
 * `-l` and `-h` end the process instead.
 */
module ArgumentLoop {
  import opened AuraTypes
  import opened StdStoi
  import opened ColorList
  import opened EffectNames

  datatype ExitReason = ListDevices | Help

  /** How the loop ends: it returns its boolean, or the process exits with status 0 from inside it. */
  datatype Outcome = Returned(ok: bool) | Exited(reason: ExitReason)

  predicate IsDeviceOption(option: string) { option == "--device" || option == "-d" }
  predicate IsColorOption(option: string) { option == "--color" || option == "-c" }
  predicate IsEffectOption(option: string) { option == "--effect" || option == "-e" }

  predicate TakesArgument(option: string) {
    IsDeviceOption(option) || IsColorOption(option) || IsEffectOption(option)
  }

  /** The options that print and exit before looking for an argument. */
  function ExitOption(option: string): Option<ExitReason> {
    if option == "--list-devices" || option == "-l" then Some(ListDevices)
    else if option == "--help" || option == "-h" then Some(Help)
    else None
  }

  /** What `-e name` does to the record. */
  function WithEffect(st: Settings, name: string): Settings {
    st.(direct := false, mode := if EffectMode(name).Some? then EffectMode(name) else st.mode)
  }

  /**
   * The loop from `argv[i]` on, with the record's value `st` and the two
   * flags that say whether a colour or an effect parse has succeeded.
   */
  function Process(argv: seq<string>, i: nat, st: Settings, colorInit: bool, effectInit: bool): (Outcome, Settings)
    decreases |argv| - i
  {
    if i >= |argv| then (Returned(colorInit || effectInit), st)
    else
      var option := argv[i];
      if ExitOption(option).Some? then (Exited(ExitOption(option).value), st)
      else if i + 1 < |argv| then
        var argument := argv[i + 1];
        if IsDeviceOption(option) then
          match Stoi(argument, 10)
          case None => (Returned(false), st)
          case Some(d) => Process(argv, i + 2, st.(device := d), colorInit, effectInit)
        else if IsColorOption(option) then
          var colors := st.colors + ParsedColors(argument);
          Process(argv, i + 2, st.(colors := colors), colorInit || |colors| > 0, effectInit)
        else if IsEffectOption(option) then
          Process(argv, i + 2, WithEffect(st, argument), colorInit, effectInit || EffectMode(argument).Some?)
        else (Returned(false), st)
      else (Returned(false), st)
  }

  // The loop read as option/argument pairs

  /** `argv[k]` is read as an option when the loop starts at `i`: every second entry from `i` on. */
  predicate IsSlot(argv: seq<string>, i: nat, k: int) {
    i <= k < |argv| && (k - i) % 2 == 0
  }

  /** The option at `argv[k]` is one the loop takes, with its argument, before going on. */
  predicate SlotAccepted(argv: seq<string>, k: nat)
    requires k < |argv|
  {
    k + 1 < |argv| && TakesArgument(argv[k]) && (IsDeviceOption(argv[k]) ==> Stoi(argv[k + 1], 10).Some?)
  }

  ghost predicate AllAccepted(argv: seq<string>, i: nat) {
    forall k :: IsSlot(argv, i, k) ==> SlotAccepted(argv, k)
  }

  ghost predicate AcceptedBefore(argv: seq<string>, i: nat, k: int) {
    forall j :: IsSlot(argv, i, j) && j < k ==> SlotAccepted(argv, j)
  }

  /**
   * The option at `argv[k]` makes its parse function return true, when the
   * colour list holds `prior` before it: a colour option whose list is then
   * non-empty, or an effect option with a recognised name.
   */
  predicate SlotSucceeds(argv: seq<string>, k: nat, prior: seq<Color>)
    requires k < |argv|
  {
    k + 1 < |argv| &&
    ((IsColorOption(argv[k]) && (prior != [] || ParsedColors(argv[k + 1]) != [])) ||
     (IsEffectOption(argv[k]) && EffectMode(argv[k + 1]).Some?))
  }

  /** `argv[k]` is an effect option with a recognised name. */
  predicate IsModeSlot(argv: seq<string>, k: nat)
    requires k < |argv|
  {
    k + 1 < |argv| && IsEffectOption(argv[k]) && EffectMode(argv[k + 1]).Some?
  }

  /** The colours of the colour options from slot `i` on, in order. */
  function SlotColors(argv: seq<string>, i: nat): seq<Color>
    decreases |argv| - i
  {
    if i + 1 < |argv| then
      (if IsColorOption(argv[i]) then ParsedColors(argv[i + 1]) else []) + SlotColors(argv, i + 2)
    else []
  }

  lemma SlotStep(argv: seq<string>, i: nat)
    ensures forall k :: IsSlot(argv, i, k) <==> (k == i && i < |argv|) || IsSlot(argv, i + 2, k)
  {
  }

  /**
   * A slot after the first succeeds with the colours the first pair leaves
   * exactly when it does with the colours before it, or the first pair
   * already made the colour list non-empty.
   */
  lemma SucceedsStep(argv: seq<string>, i: nat, prior: seq<Color>, next: seq<Color>, colorInit: bool, effectInit: bool, ci: bool, ei: bool, ok: bool)
    requires i < |argv| && SlotAccepted(argv, i)
    requires next == prior + if IsColorOption(argv[i]) then ParsedColors(argv[i + 1]) else []
    requires ci == (colorInit || (IsColorOption(argv[i]) && |next| > 0))
    requires ei == (effectInit || IsModeSlot(argv, i))
    requires ok == (ci || ei || exists k :: IsSlot(argv, i + 2, k) && SlotSucceeds(argv, k, next))
    ensures ok == (colorInit || effectInit || exists k :: IsSlot(argv, i, k) && SlotSucceeds(argv, k, prior))
  {
    SlotStep(argv, i);
    if IsColorOption(argv[i]) && |next| > 0 {
      assert IsSlot(argv, i, i) && SlotSucceeds(argv, i, prior);
    } else if IsModeSlot(argv, i) {
      assert IsSlot(argv, i, i) && SlotSucceeds(argv, i, prior);
    } else {
      assert next == prior;
      assert !SlotSucceeds(argv, i, prior);
    }
  }

  /** With every pair accepted, the loop returns true iff some colour or effect parse succeeded. */
  lemma {:induction false} ProcessAccepted(argv: seq<string>, i: nat, st: Settings, colorInit: bool, effectInit: bool)
    requires AllAccepted(argv, i)
    decreases |argv| - i
    ensures Process(argv, i, st, colorInit, effectInit).0
            == Returned(colorInit || effectInit || exists k :: IsSlot(argv, i, k) && SlotSucceeds(argv, k, st.colors))
  {
    if i < |argv| {
      SlotStep(argv, i);
      assert SlotAccepted(argv, i);
      var next, ci, ei := ProcessStep(argv, i, st, colorInit, effectInit);
      ProcessAccepted(argv, i + 2, next, ci, ei);
      var ok := ci || ei || exists k :: IsSlot(argv, i + 2, k) && SlotSucceeds(argv, k, next.colors);
      SucceedsStep(argv, i, st.colors, next.colors, colorInit, effectInit, ci, ei, ok);
    }
  }

  /** When some pair is not accepted, the loop returns false or the process exits. */
  lemma {:induction false} ProcessRejected(argv: seq<string>, i: nat, st: Settings, colorInit: bool, effectInit: bool)
    requires !AllAccepted(argv, i)
    decreases |argv| - i
    ensures Process(argv, i, st, colorInit, effectInit).0 in {Returned(false), Exited(ListDevices), Exited(Help)}
  {
    SlotStep(argv, i);
    if i < |argv| && SlotAccepted(argv, i) {
      var next, ci, ei := ProcessStep(argv, i, st, colorInit, effectInit);
      ProcessRejected(argv, i + 2, next, ci, ei);
    }
  }

  /** One accepted pair: the loop goes on at `i + 2` with the record and flags that pair produces. */
  lemma ProcessStep(argv: seq<string>, i: nat, st: Settings, colorInit: bool, effectInit: bool)
      returns (next: Settings, ci: bool, ei: bool)
    requires i < |argv| && SlotAccepted(argv, i)
    ensures Process(argv, i, st, colorInit, effectInit) == Process(argv, i + 2, next, ci, ei)
    ensures next.direct == (st.direct && !IsEffectOption(argv[i]))
    ensures next.mode == if IsModeSlot(argv, i) then EffectMode(argv[i + 1]) else st.mode
    ensures next.colors == st.colors + if IsColorOption(argv[i]) then ParsedColors(argv[i + 1]) else []
    ensures next.device == if IsDeviceOption(argv[i]) then Stoi(argv[i + 1], 10).value else st.device
    ensures ci == (colorInit || (IsColorOption(argv[i]) && |next.colors| > 0))
    ensures ei == (effectInit || IsModeSlot(argv, i))
  {
    var option, argument := argv[i], argv[i + 1];
    next := if IsDeviceOption(option) then st.(device := Stoi(argument, 10).value)
            else if IsColorOption(option) then st.(colors := st.colors + ParsedColors(argument))
            else WithEffect(st, argument);
    ci := colorInit || (IsColorOption(option) && |next.colors| > 0);
    ei := effectInit || IsModeSlot(argv, i);
  }

  /** The process exits from the loop exactly at the first `-l`/`-h` slot that every earlier pair lets it reach. */
  lemma {:induction false} ProcessExits(argv: seq<string>, i: nat, st: Settings, colorInit: bool, effectInit: bool, r: ExitReason)
    decreases |argv| - i
    ensures Process(argv, i, st, colorInit, effectInit).0 == Exited(r)
            <==> exists k :: IsSlot(argv, i, k) && ExitOption(argv[k]) == Some(r) && AcceptedBefore(argv, i, k)
  {
    SlotStep(argv, i);
    if i < |argv| {
      var option := argv[i];
      if ExitOption(option).Some? {
        assert IsSlot(argv, i, i) && AcceptedBefore(argv, i, i);
        if ExitOption(option) != Some(r) {
          forall k | IsSlot(argv, i, k) && ExitOption(argv[k]) == Some(r)
            ensures !AcceptedBefore(argv, i, k)
          {
            assert i < k && !SlotAccepted(argv, i);
          }
        }
      } else if !SlotAccepted(argv, i) {
        forall k | IsSlot(argv, i, k) && ExitOption(argv[k]) == Some(r)
          ensures !AcceptedBefore(argv, i, k)
        {
          assert i < k;
        }
      } else {
        var next, ci, ei := ProcessStep(argv, i, st, colorInit, effectInit);
        ProcessExits(argv, i + 2, next, ci, ei, r);
        forall k | IsSlot(argv, i + 2, k)
          ensures AcceptedBefore(argv, i, k) <==> AcceptedBefore(argv, i + 2, k)
        {
        }
      }
    }
  }

  /** `argv[k]` is a `-d` slot from `i` on with no `-d` slot after it. */
  ghost predicate IsLastDeviceSlot(argv: seq<string>, i: nat, k: int) {
    IsSlot(argv, i, k) && IsDeviceOption(argv[k]) &&
    forall j :: IsSlot(argv, i, j) && k < j ==> !IsDeviceOption(argv[j])
  }

  /**
   * `d` is the device the pairs from slot `i` on leave behind, starting from
   * `initial`: the number the last `-d` names, or `initial` without any `-d`.
   */
  ghost predicate NamesLastDevice(argv: seq<string>, i: nat, initial: Int32, d: Int32) {
    ((forall m :: IsSlot(argv, i, m) ==> !IsDeviceOption(argv[m])) ==> d == initial) &&
    forall k :: IsLastDeviceSlot(argv, i, k) ==> k + 1 < |argv| && Stoi(argv[k + 1], 10) == Some(d)
  }

  lemma DeviceStep(argv: seq<string>, i: nat, initial: Int32, next: Int32, d: Int32)
    requires i < |argv| && SlotAccepted(argv, i)
    requires next == if IsDeviceOption(argv[i]) then Stoi(argv[i + 1], 10).value else initial
    requires NamesLastDevice(argv, i + 2, next, d)
    ensures NamesLastDevice(argv, i, initial, d)
  {
    SlotStep(argv, i);
    forall k | IsLastDeviceSlot(argv, i, k)
      ensures k + 1 < |argv| && Stoi(argv[k + 1], 10) == Some(d)
    {
      if k == i {
        assert forall m :: IsSlot(argv, i + 2, m) ==> !IsDeviceOption(argv[m]);
      } else {
        assert IsLastDeviceSlot(argv, i + 2, k);
      }
    }
  }

  /** With every pair accepted, the device is the one the last `-d` names, or the initial one without any `-d`. */
  lemma {:induction false} ProcessDevice(argv: seq<string>, i: nat, st: Settings, colorInit: bool, effectInit: bool)
    requires AllAccepted(argv, i)
    decreases |argv| - i
    ensures NamesLastDevice(argv, i, st.device, Process(argv, i, st, colorInit, effectInit).1.device)
  {
    if i < |argv| {
      SlotStep(argv, i);
      assert SlotAccepted(argv, i);
      var next, ci, ei := ProcessStep(argv, i, st, colorInit, effectInit);
      ProcessDevice(argv, i + 2, next, ci, ei);
      DeviceStep(argv, i, st.device, next.device, Process(argv, i, st, colorInit, effectInit).1.device);
    }
  }

  /** With every pair accepted, `direct` stays as it was exactly when no `-e` is given, whatever its name. */
  lemma {:induction false} ProcessDirect(argv: seq<string>, i: nat, st: Settings, colorInit: bool, effectInit: bool)
    requires AllAccepted(argv, i)
    decreases |argv| - i
    ensures Process(argv, i, st, colorInit, effectInit).1.direct
            == (st.direct && forall k :: IsSlot(argv, i, k) ==> !IsEffectOption(argv[k]))
  {
    if i < |argv| {
      SlotStep(argv, i);
      assert SlotAccepted(argv, i);
      var next, ci, ei := ProcessStep(argv, i, st, colorInit, effectInit);
      ProcessDirect(argv, i + 2, next, ci, ei);
    }
  }

  /** With every pair accepted, the mode is the one the last recognised `-e` names, or the initial one without any. */
  lemma {:induction false} ProcessMode(argv: seq<string>, i: nat, st: Settings, colorInit: bool, effectInit: bool)
    requires AllAccepted(argv, i)
    decreases |argv| - i
    ensures (forall k :: IsSlot(argv, i, k) ==> !IsModeSlot(argv, k))
            ==> Process(argv, i, st, colorInit, effectInit).1.mode == st.mode
    ensures forall k :: (IsSlot(argv, i, k) && IsModeSlot(argv, k) &&
                         (forall j :: IsSlot(argv, i, j) && k < j ==> !IsModeSlot(argv, j)))
                        ==> Process(argv, i, st, colorInit, effectInit).1.mode == EffectMode(argv[k + 1])
  {
    if i < |argv| {
      SlotStep(argv, i);
      assert SlotAccepted(argv, i);
      var next, ci, ei := ProcessStep(argv, i, st, colorInit, effectInit);
      ProcessMode(argv, i + 2, next, ci, ei);
    }
  }

  lemma ColorsStep(argv: seq<string>, i: nat, initial: seq<Color>, next: seq<Color>, colors: seq<Color>)
    requires i + 1 < |argv|
    requires next == initial + if IsColorOption(argv[i]) then ParsedColors(argv[i + 1]) else []
    requires colors == next + SlotColors(argv, i + 2)
    ensures colors == initial + SlotColors(argv, i)
  {
    var own := if IsColorOption(argv[i]) then ParsedColors(argv[i + 1]) else [];
    assert SlotColors(argv, i) == own + SlotColors(argv, i + 2);
    assert initial + (own + SlotColors(argv, i + 2)) == (initial + own) + SlotColors(argv, i + 2);
  }

  /** With every pair accepted, the colour list is the initial one followed by every `-c` list in order. */
  lemma {:induction false} ProcessColors(argv: seq<string>, i: nat, st: Settings, colorInit: bool, effectInit: bool)
    requires AllAccepted(argv, i)
    decreases |argv| - i
    ensures Process(argv, i, st, colorInit, effectInit).1.colors == st.colors + SlotColors(argv, i)
  {
    if i < |argv| {
      SlotStep(argv, i);
      assert SlotAccepted(argv, i);
      var next, ci, ei := ProcessStep(argv, i, st, colorInit, effectInit);
      ProcessColors(argv, i + 2, next, ci, ei);
      ColorsStep(argv, i, st.colors, next.colors, Process(argv, i, st, colorInit, effectInit).1.colors);
    }
  }

  /**
   * For the fresh record `main` passes: the loop returns true iff every pair
   * is accepted and some `-c` list is non-empty or some `-e` name is
   * recognised.
   */
  lemma AcceptedIff(argv: seq<string>)
    ensures Process(argv, 1, Defaults, false, false).0 == Returned(true)
            <==> AllAccepted(argv, 1) && exists k :: IsSlot(argv, 1, k) && SlotSucceeds(argv, k, [])
  {
    if AllAccepted(argv, 1) {
      ProcessAccepted(argv, 1, Defaults, false, false);
    } else {
      ProcessRejected(argv, 1, Defaults, false, false);
    }
  }

  /** Runs the loop over `argv` from index 1 and updates `res` in place. */
  method ProcessOptions(argv: seq<string>, res: Options) returns (outcome: Outcome)
    modifies res
    ensures (outcome, res.Snapshot()) == Process(argv, 1, old(res.Snapshot()), false, false)
  {
    var colorInit := false;
    var effectInit := false;
    var argIndex := 1;

    while argIndex < |argv|
      invariant 1 <= argIndex
      invariant Process(argv, argIndex, res.Snapshot(), colorInit, effectInit)
                == Process(argv, 1, old(res.Snapshot()), false, false)
      decreases |argv| - argIndex
    {
      var option := argv[argIndex];

      if option == "--list-devices" || option == "-l" {
        return Exited(ListDevices);
      } else if option == "--help" || option == "-h" {
        return Exited(Help);
      } else if argIndex + 1 < |argv| {
        var argument := argv[argIndex + 1];

        if option == "--device" || option == "-d" {
          var device := Stoi(argument, 10);
          if device.None? {
            return Returned(false);
          }
          res.device := device.value;
        } else if option == "--color" || option == "-c" {
          var parsed := ParseColors(argument, res);
          if parsed {
            colorInit := true;
          }
        } else if option == "--effect" || option == "-e" {
          var parsed := ParseEffect(argument, res);
          if parsed {
            effectInit := true;
          }
        } else {
          return Returned(false);
        }

        argIndex := argIndex + 1;
      } else {
        return Returned(false);
      }
      argIndex := argIndex + 1;
    }

    return Returned(colorInit || effectInit);
  }
}
