/** The `--effect` argument: eight names, each selecting one Aura mode. */
module EffectNames {
  import opened AuraTypes

  /** The mode a name selects, `None` for a name outside the eight. */
  function EffectMode(name: string): (m: Option<Mode>)
    ensures m.Some? ==> EffectName(m.value) == name
  {
    if name == "off" then Some(Off)
    else if name == "static" then Some(Static)
    else if name == "breathing" then Some(Breathing)
    else if name == "flashing" then Some(Flashing)
    else if name == "spectrum" then Some(SpectrumCycle)
    else if name == "rainbow" then Some(Rainbow)
    else if name == "spectrum-breathing" then Some(SpectrumCycleBreathing)
    else if name == "chase" then Some(ChaseFade)
    else None
  }

  /** The name the help text lists for each mode. */
  function EffectName(m: Mode): string {
    match m
    case Off => "off"
    case Static => "static"
    case Breathing => "breathing"
    case Flashing => "flashing"
    case SpectrumCycle => "spectrum"
    case Rainbow => "rainbow"
    case SpectrumCycleBreathing => "spectrum-breathing"
    case ChaseFade => "chase"
  }

  const EffectNameSet: set<string> :=
    {"off", "static", "breathing", "flashing", "spectrum", "rainbow", "spectrum-breathing", "chase"}

  /** A name selects a mode exactly when it is the name of that mode, so each of the eight names has its own mode. */
  lemma EffectModeInverse(name: string, m: Mode)
    ensures EffectMode(name) == Some(m) <==> name == EffectName(m)
  {
  }

  /** Exactly the eight listed names are recognised. */
  lemma EffectModeDomain(name: string)
    ensures EffectMode(name).Some? <==> name in EffectNameSet
  {
  }

  /**
   * Clears `direct` whatever the name; sets `mode` and returns true for a
   * recognised name, leaves `mode` as it was and returns false otherwise.
   */
  method ParseEffect(effect: string, options: Options) returns (ok: bool)
    modifies options`direct, options`mode
    ensures !options.direct
    ensures ok <==> EffectMode(effect).Some?
    ensures options.mode == if ok then EffectMode(effect) else old(options.mode)
  {
    options.direct := false;

    if effect == "off" {
      options.mode := Some(Off);
    } else if effect == "static" {
      options.mode := Some(Static);
    } else if effect == "breathing" {
      options.mode := Some(Breathing);
    } else if effect == "flashing" {
      options.mode := Some(Flashing);
    } else if effect == "spectrum" {
      options.mode := Some(SpectrumCycle);
    } else if effect == "rainbow" {
      options.mode := Some(Rainbow);
    } else if effect == "spectrum-breathing" {
      options.mode := Some(SpectrumCycleBreathing);
    } else if effect == "chase" {
      options.mode := Some(ChaseFade);
    } else {
      return false;
    }

    return true;
  }
}
