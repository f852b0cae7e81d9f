/**
 * The per-frame state of the `Sky` component: the three cloud colours held in
 * component state, overwritten on every frame, and the yaw of the first cloud,
 * which every frame turns a little further by the time the frame took.
 */
module SkyFrame {
  import opened PaletteCycle

  /** Radians the first cloud turns per second of frame time. */
  const SpinRate: real := 0.1

  /** The colours the component shows before its first frame. */
  const InitialColors: Palette := Palette("#ff8c42", "#d2691e", "#ff6b35")

  /** The sum of a sequence of frame times. */
  function Sum(deltas: seq<real>): real
    decreases |deltas|
  {
    if deltas == [] then 0.0 else deltas[0] + Sum(deltas[1..])
  }

  /** The yaw after the frames `deltas`, one after another, starting from `spin`:
      a left fold of `spin - delta * SpinRate`. */
  function SpinAfter(spin: real, deltas: seq<real>): real
    decreases |deltas|
  {
    if deltas == [] then spin else SpinAfter(spin - deltas[0] * SpinRate, deltas[1..])
  }

  /** One more frame turns the cloud by that frame's share. */
  lemma {:induction false} SpinAfterAppend(spin: real, deltas: seq<real>, delta: real)
    ensures SpinAfter(spin, deltas + [delta]) == SpinAfter(spin, deltas) - delta * SpinRate
    decreases |deltas|
  {
    if deltas != [] {
      assert (deltas + [delta])[1..] == deltas[1..] + [delta];
      SpinAfterAppend(spin - deltas[0] * SpinRate, deltas[1..], delta);
    }
  }

  /** After frames `d1, ..., dk` the yaw has dropped by `SpinRate * (d1 + ... + dk)`. */
  lemma {:induction false} SpinAfterClosedForm(spin: real, deltas: seq<real>)
    ensures SpinAfter(spin, deltas) == spin - SpinRate * Sum(deltas)
    decreases |deltas|
  {
    if deltas != [] {
      SpinAfterClosedForm(spin - deltas[0] * SpinRate, deltas[1..]);
    }
  }

  /** Frames that take no negative time never turn the cloud back. */
  lemma {:induction false} SpinNeverIncreases(spin: real, deltas: seq<real>)
    requires forall i :: 0 <= i < |deltas| ==> deltas[i] >= 0.0
    ensures SpinAfter(spin, deltas) <= spin
    decreases |deltas|
  {
    if deltas != [] {
      SpinNeverIncreases(spin - deltas[0] * SpinRate, deltas[1..]);
    }
  }

  /** Frames of 1, 2 and 3 seconds from rest leave the yaw at -0.6. */
  lemma SpinExample()
    ensures SpinAfter(0.0, [1.0, 2.0, 3.0]) == -0.6
  {
    SpinAfterClosedForm(0.0, [1.0, 2.0, 3.0]);
  }

  /** The state the frame callback touches. */
  class Sky {
    /** The `colors` state of the component. */
    var colors: Palette
    /** `rotation.y` of the first cloud. */
    var spin: real
    /** The frame times applied to `spin` so far, oldest first. */
    ghost var deltas: seq<real>

    /** The yaw is the fold of the frame times applied so far. */
    ghost predicate Valid()
      reads this
    {
      spin == SpinAfter(0.0, deltas)
    }

    constructor ()
      ensures Valid()
      ensures colors == InitialColors && spin == 0.0 && deltas == []
    {
      colors := InitialColors;
      spin := 0.0;
      deltas := [];
    }

    /** One frame: the colours are recomputed from the value `sine` of
        `Math.sin(time * 0.1)` and, when the first cloud is mounted, it turns by
        `delta * SpinRate`. */
    method Tick(sine: real, delta: real, cloudMounted: bool)
      requires Valid() && -1.0 <= sine <= 1.0
      modifies this
      ensures Valid()
      ensures colors == FrameColors(sine)
      ensures spin == if cloudMounted then old(spin) - delta * SpinRate else old(spin)
      ensures deltas == if cloudMounted then old(deltas) + [delta] else old(deltas)
      ensures spin == -SpinRate * Sum(deltas)
    {
      SetColors(FrameColors(sine));
      if cloudMounted {
        Turn(delta);
      }
      SpinAfterClosedForm(0.0, deltas);
    }

    /** `setColors(next)`: the colours are replaced and nothing else changes. */
    method SetColors(next: Palette)
      modifies this
      ensures colors == next
      ensures spin == old(spin) && deltas == old(deltas)
    {
      colors := next;
    }

    /** `cloud0.current.rotation.y -= delta * 0.1`, recorded in the history. */
    method Turn(delta: real)
      requires Valid()
      modifies this
      ensures Valid()
      ensures spin == old(spin) - delta * SpinRate
      ensures deltas == old(deltas) + [delta]
      ensures colors == old(colors)
    {
      SpinAfterAppend(0.0, deltas, delta);
      spin := spin - delta * SpinRate;
      deltas := deltas + [delta];
    }
  }
}
