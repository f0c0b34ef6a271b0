/** The trigger gate of the effects manager: a smile starts an effect only
    when none is running, the effects layer has a size, and at least
    `COOLDOWN_MS` have passed since the last effect started. The animations
    themselves are not part of this model. */
module SmileEffects {

  const COOLDOWN_MS: int := 2800

  /** The two control fields, `lastEffectTime` and `effectRunning`. */
  datatype Gate = Gate(lastEffectTime: int, effectRunning: bool)

  /** The state of a freshly constructed manager. */
  const INITIAL: Gate := Gate(0, false)

  /** When `onSmileDetected` gets past its three early returns. */
  predicate Fires(g: Gate, layerWidth: int, layerHeight: int, now: int) {
    && !g.effectRunning
    && layerWidth != 0 && layerHeight != 0
    && now - g.lastEffectTime >= COOLDOWN_MS
  }

  /** The state after `onSmileDetected` at clock value `now`. */
  function OnSmile(g: Gate, layerWidth: int, layerHeight: int, now: int): (g': Gate)
    ensures Fires(g, layerWidth, layerHeight, now) ==> g' == Gate(now, true)
    ensures !Fires(g, layerWidth, layerHeight, now) ==> g' == g
  {
    if g.effectRunning then g
    else if layerWidth == 0 || layerHeight == 0 then g
    else if now - g.lastEffectTime < COOLDOWN_MS then g
    else Gate(now, true)
  }

  /** The state after the callback that `finishLater` posts has run. */
  function Finish(g: Gate): (g': Gate)
    ensures !g'.effectRunning && g'.lastEffectTime == g.lastEffectTime
  {
    g.(effectRunning := false)
  }

  /** The manager: the two fields the gate reads and overwrites. */
  class SmileEffectsManager {
    var lastEffectTime: int
    var effectRunning: bool

    function State(): Gate
      reads this
    {
      Gate(lastEffectTime, effectRunning)
    }

    constructor ()
      ensures State() == INITIAL
    {
      lastEffectTime := 0;
      effectRunning := false;
    }

    /** `onSmileDetected` up to the start of the animations; `now` is the
        value of `SystemClock.uptimeMillis()`, and `fired` says whether the
        animations start. */
    method OnSmileDetected(layerWidth: int, layerHeight: int, now: int) returns (fired: bool)
      modifies this
      ensures fired == Fires(old(State()), layerWidth, layerHeight, now)
      ensures State() == OnSmile(old(State()), layerWidth, layerHeight, now)
    {
      if effectRunning {
        return false;
      }
      if layerWidth == 0 || layerHeight == 0 {
        return false;
      }
      if now - lastEffectTime < COOLDOWN_MS {
        return false;
      }
      lastEffectTime := now;
      effectRunning := true;
      return true;
    }

    /** The delayed callback of `finishLater`. */
    method FinishLater()
      modifies this
      ensures State() == Finish(old(State()))
    {
      effectRunning := false;
    }
  }

  // ---------------------------------------------------------------------------
  // Sequences of events

  datatype Event =
    | Smile(layerWidth: int, layerHeight: int, now: int)
    | EffectDone

  /** The state after a sequence of events, and the clock values at which an
      effect fired, in order. */
  function Run(g: Gate, events: seq<Event>): (r: (Gate, seq<int>))
    decreases |events|
  {
    if events == [] then (g, [])
    else
      match events[0]
      case Smile(w, h, now) =>
        var rest := Run(OnSmile(g, w, h, now), events[1..]);
        if Fires(g, w, h, now) then (rest.0, [now] + rest.1) else rest
      case EffectDone => Run(Finish(g), events[1..])
  }

  /** Any two effects fire at least `COOLDOWN_MS` apart (`k` cooldowns for
      effects `k` apart), and the first one at least `COOLDOWN_MS` after the
      starting `lastEffectTime`. No assumption about the clock is needed,
      because `lastEffectTime` moves only when an effect fires. */
  lemma {:induction false} FiresSpacedByCooldown(g: Gate, events: seq<Event>)
    ensures var fires := Run(g, events).1;
      && (|fires| > 0 ==> fires[0] - g.lastEffectTime >= COOLDOWN_MS)
      && forall i, j :: 0 <= i < j < |fires| ==> fires[j] - fires[i] >= COOLDOWN_MS * (j - i)
    decreases |events|
  {
    if events != [] {
      match events[0]
      case Smile(w, h, now) =>
        var g' := OnSmile(g, w, h, now);
        FiresSpacedByCooldown(g', events[1..]);
        var rest := Run(g', events[1..]).1;
        if Fires(g, w, h, now) {
          var fires := [now] + rest;
          assert fires == Run(g, events).1;
          forall i, j | 0 <= i < j < |fires|
            ensures fires[j] - fires[i] >= COOLDOWN_MS * (j - i)
          {
            if i == 0 {
              assert fires[j] == rest[j - 1];
              if j > 1 {
                assert rest[j - 1] - rest[0] >= COOLDOWN_MS * (j - 1);
              }
            } else {
              assert fires[j] - fires[i] == rest[j - 1] - rest[i - 1];
            }
          }
        }
      case EffectDone =>
        FiresSpacedByCooldown(Finish(g), events[1..]);
    }
  }

  /** `lastEffectTime` ends at the last firing time, or where it started if nothing fired. */
  lemma {:induction false} LastEffectTimeTracksFires(g: Gate, events: seq<Event>)
    ensures var r := Run(g, events);
      r.0.lastEffectTime == if r.1 == [] then g.lastEffectTime else r.1[|r.1| - 1]
    decreases |events|
  {
    if events != [] {
      match events[0]
      case Smile(w, h, now) =>
        LastEffectTimeTracksFires(OnSmile(g, w, h, now), events[1..]);
      case EffectDone =>
        LastEffectTimeTracksFires(Finish(g), events[1..]);
    }
  }

  predicate NoEffectDone(events: seq<Event>) {
    forall i :: 0 <= i < |events| ==> events[i].Smile?
  }

  /** While an effect is running and its finish callback has not come, no
      smile fires anything and the state does not change. */
  lemma {:induction false} BusyIgnoresSmiles(g: Gate, events: seq<Event>)
    requires g.effectRunning && NoEffectDone(events)
    ensures Run(g, events) == (g, [])
    decreases |events|
  {
    if events != [] {
      BusyIgnoresSmiles(g, events[1..]);
    }
  }

  /** A smile that fires, followed by any number of further smiles and no
      finish callback, fires exactly one effect. */
  lemma OneEffectPerSmileRun(g: Gate, w: int, h: int, now: int, more: seq<Event>)
    requires Fires(g, w, h, now) && NoEffectDone(more)
    ensures Run(g, [Smile(w, h, now)] + more) == (Gate(now, true), [now])
  {
    var events := [Smile(w, h, now)] + more;
    assert events[0] == Smile(w, h, now) && events[1..] == more;
    BusyIgnoresSmiles(Gate(now, true), more);
    assert Run(g, events) == (Gate(now, true), [now] + []);
    assert [now] + [] == [now];
  }

  /** From the initial state, smiles before clock value 2800 are rejected. */
  lemma InitialCooldown(w: int, h: int, now: int)
    requires now < COOLDOWN_MS
    ensures !Fires(INITIAL, w, h, now) && OnSmile(INITIAL, w, h, now) == INITIAL
  {
  }
}
