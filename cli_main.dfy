/**
 * `main`: print help when there are no arguments, run the argument loop on a
 * fresh `Options` record, then apply the record to the selected controllers.
 * The detected controllers are an input; detection itself is not modelled.
 */
module CliMain {
  import opened AuraTypes
  import opened ColorList
  import opened EffectNames
  import opened ArgumentLoop
  import opened Controller
  import opened Dispatcher

  /** The loop's result for the fresh record `main` builds. */
  function Parsed(argv: seq<string>): (Outcome, Settings) {
    Process(argv, 1, Defaults, false, false)
  }

  /**
   * `ApplyOptions` indexes the controller list without a check, so a
   * selected device must be a valid index whenever the loop succeeds.
   */
  predicate DeviceInRange(argv: seq<string>, count: nat) {
    var (outcome, st) := Parsed(argv);
    outcome == Returned(true) && st.device != -1 ==> 0 <= st.device < count
  }

  /** The status `main` returns, or `exit(0)` gives from inside the loop. */
  function ExitCode(argv: seq<string>): int {
    if |argv| == 1 then 0
    else match Parsed(argv).0
      case Exited(_) => 0
      case Returned(ok) => if ok then 0 else -1
  }

  /** The controller calls `main` makes. */
  ghost function CliLog(argv: seq<string>, controllers: seq<AuraController>): seq<Entry>
    requires DeviceInRange(argv, |controllers|)
  {
    var (outcome, st) := Parsed(argv);
    if |argv| == 1 || outcome != Returned(true) then []
    else if st.device == -1 then AllDevicesLog(controllers, st, |controllers|)
    else Tagged(controllers[st.device], DispatchTrace(st, controllers[st.device].ledCount))
  }

  method RunCli(argv: seq<string>, controllers: seq<AuraController>, hw: HardwareLog) returns (exitCode: int)
    requires forall k :: 0 <= k < |controllers| ==> controllers[k].hw == hw
    requires DeviceInRange(argv, |controllers|)
    modifies hw
    ensures exitCode == ExitCode(argv)
    ensures hw.entries == old(hw.entries) + CliLog(argv, controllers)
  {
    if |argv| == 1 {
      return 0;
    }

    var options := new Options();
    var outcome := ProcessOptions(argv, options);
    if outcome.Exited? {
      return 0;
    }
    if !outcome.ok {
      return -1;
    }

    ApplyToDevices(controllers, options, hw);
    return 0;
  }

  /**
   * `main` returns -1 exactly when `argc` is not 1, no `-l`/`-h` is
   * reached, and either some pair is not accepted or no `-c` list and no
   * `-e` name parses.
   */
  lemma ExitCodeFailure(argv: seq<string>)
    ensures ExitCode(argv) == -1
            <==> |argv| != 1
                 && (forall k, r :: !(IsSlot(argv, 1, k) && ExitOption(argv[k]) == Some(r) && AcceptedBefore(argv, 1, k)))
                 && !(AllAccepted(argv, 1) && exists k :: IsSlot(argv, 1, k) && SlotSucceeds(argv, k, []))
  {
    AcceptedIff(argv);
    ProcessExits(argv, 1, Defaults, false, false, ListDevices);
    ProcessExits(argv, 1, Defaults, false, false, Help);
    var outcome := Parsed(argv).0;
    if outcome.Exited? {
      var r := outcome.reason;
      ProcessExits(argv, 1, Defaults, false, false, r);
    } else {
      forall k, r | IsSlot(argv, 1, k) && ExitOption(argv[k]) == Some(r)
        ensures !AcceptedBefore(argv, 1, k)
      {
        ProcessExits(argv, 1, Defaults, false, false, r);
      }
    }
  }

  /**
   * `-c FF0000 -e bogus`: the colour makes the loop succeed, the unknown
   * effect name still clears `direct`, and every controller then receives
   * `SetMode` with a mode that was never written.
   */
  lemma UnsetModeReachesController(n: nat)
    ensures var argv := ["OpenAuraCLI", "-c", "FF0000", "-e", "bogus"];
            Parsed(argv) == (Returned(true), Settings(-1, [Color(255, 0, 0)], None, false))
            && var t := DispatchTrace(Parsed(argv).1, n); t[|t| - 1] == ModeWrite(None)
  {
    BogusEffectParses();
    DispatchSetsModeLast(Settings(-1, [Color(255, 0, 0)], None, false), n);
  }

  lemma BogusEffectParses()
    ensures Parsed(["OpenAuraCLI", "-c", "FF0000", "-e", "bogus"])
            == (Returned(true), Settings(-1, [Color(255, 0, 0)], None, false))
  {
    var argv := ["OpenAuraCLI", "-c", "FF0000", "-e", "bogus"];
    var st := Settings(-1, [Color(255, 0, 0)], None, false);
    RedColorStep(argv);
    BogusEffectStep(argv);
    assert Process(argv, 5, st, true, false) == (Returned(true), st);
  }

  lemma RedColorStep(argv: seq<string>)
    requires argv == ["OpenAuraCLI", "-c", "FF0000", "-e", "bogus"]
    ensures Process(argv, 1, Defaults, false, false)
            == Process(argv, 3, Defaults.(colors := [Color(255, 0, 0)]), true, false)
  {
    RedParses();
    assert !IsDeviceOption(argv[1]) && IsColorOption(argv[1]) && ExitOption(argv[1]).None?;
    assert Defaults.(colors := Defaults.colors + ParsedColors(argv[2])) == Defaults.(colors := [Color(255, 0, 0)]);
  }

  lemma BogusEffectStep(argv: seq<string>)
    requires argv == ["OpenAuraCLI", "-c", "FF0000", "-e", "bogus"]
    ensures Process(argv, 3, Defaults.(colors := [Color(255, 0, 0)]), true, false)
            == Process(argv, 5, Settings(-1, [Color(255, 0, 0)], None, false), true, false)
  {
    assert EffectMode(argv[4]) == None;
    assert !IsDeviceOption(argv[3]) && !IsColorOption(argv[3]) && IsEffectOption(argv[3]) && ExitOption(argv[3]).None?;
  }

  lemma RedParses()
    ensures ParsedColors("FF0000") == [Color(255, 0, 0)]
  {
    ParsedColorsOfFormatted([Color(255, 0, 0)]);
    assert FormatColors([Color(255, 0, 0)]) == "FF0000";
  }
}
