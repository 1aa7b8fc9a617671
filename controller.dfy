/**
 * The Aura controller as the front end sees it: a fixed number of LEDs and
 * four calls that set the direct flag, an LED colour on the direct or the
 * effect path, and the effect mode. The register writes behind these calls
 * are not modelled; every call is recorded instead, with the controller
 * that received it, in one hardware log shared by all controllers, so that
 * the order of calls across controllers is visible.
 */
module Controller {
  import opened AuraTypes

  /** One call made on a controller. */
  datatype Event =
    | DirectFlag(enable: bool)
    | DirectWrite(led: nat, color: Color)
    | EffectWrite(led: nat, color: Color)
    | ModeWrite(mode: Option<Mode>)

  /** A write of one LED colour, on either path. */
  predicate IsLedWrite(e: Event) {
    e.DirectWrite? || e.EffectWrite?
  }

  /** One logged call: the controller that received it and what it was. */
  datatype Entry = Entry(controller: AuraController, event: Event)

  /** Every controller call made so far, oldest first. */
  class HardwareLog {
    ghost var entries: seq<Entry>

    constructor ()
      ensures entries == []
    {
      entries := [];
    }
  }

  /** The events `events`, each marked as made on `c`. */
  function Tagged(c: AuraController, events: seq<Event>): seq<Entry> {
    seq(|events|, k requires 0 <= k < |events| => Entry(c, events[k]))
  }

  lemma TaggedSnoc(c: AuraController, events: seq<Event>, e: Event)
    ensures Tagged(c, events + [e]) == Tagged(c, events) + [Entry(c, e)]
  {
  }

  lemma TaggedAppend(c: AuraController, a: seq<Event>, b: seq<Event>)
    ensures Tagged(c, a + b) == Tagged(c, a) + Tagged(c, b)
  {
  }

  /** A controller; `ledCount` is what `GetLEDCount()` answers, which never changes. */
  class AuraController {
    const ledCount: nat
    const hw: HardwareLog

    constructor (ledCount: nat, hw: HardwareLog)
      ensures this.ledCount == ledCount && this.hw == hw
    {
      this.ledCount := ledCount;
      this.hw := hw;
    }

    method SetDirect(direct: bool)
      modifies hw
      ensures hw.entries == old(hw.entries) + [Entry(this, DirectFlag(direct))]
    {
      hw.entries := hw.entries + [Entry(this, DirectFlag(direct))];
    }

    method SetLEDColorDirect(led: nat, red: Byte, green: Byte, blue: Byte)
      modifies hw
      ensures hw.entries == old(hw.entries) + [Entry(this, DirectWrite(led, Color(red, green, blue)))]
    {
      hw.entries := hw.entries + [Entry(this, DirectWrite(led, Color(red, green, blue)))];
    }

    method SetLEDColorEffect(led: nat, red: Byte, green: Byte, blue: Byte)
      modifies hw
      ensures hw.entries == old(hw.entries) + [Entry(this, EffectWrite(led, Color(red, green, blue)))]
    {
      hw.entries := hw.entries + [Entry(this, EffectWrite(led, Color(red, green, blue)))];
    }

    method SetMode(mode: Option<Mode>)
      modifies hw
      ensures hw.entries == old(hw.entries) + [Entry(this, ModeWrite(mode))]
    {
      hw.entries := hw.entries + [Entry(this, ModeWrite(mode))];
    }
  }
}
