/**
 * The palette cycling of the sky animation: a value in [0, 1] that swings with
 * time picks a pair of neighbouring palettes out of a fixed table of five and a
 * blend factor between them, and the three colours of the frame are the three
 * colours of that pair blended by that factor.
 */
module PaletteCycle {
  import opened JsBuiltins
  import opened ColorBlend

  /** The three colours of one mood of the sky. */
  datatype Palette = Palette(primary: string, secondary: string, accent: string)

  /** The palette table, in the order the cycle walks it. */
  const Palettes: seq<Palette> := [
    Palette("#8B7D8B", "#A9A9A9", "#696969"),  // stormy grays
    Palette("#FFB6C1", "#FFA07A", "#FFD700"),  // bright morning
    Palette("#9370DB", "#8A2BE2", "#4B0082"),  // deep purples
    Palette("#CD5C5C", "#B22222", "#8B0000"),  // stormy reds
    Palette("#87CEEB", "#4682B4", "#1E90FF")   // soft blues
  ]

  predicate IsHexPalette(p: Palette)
  {
    IsHexColor(p.primary) && IsHexColor(p.secondary) && IsHexColor(p.accent)
  }

  /** A palette with every colour in lower case. */
  function LowerPalette(p: Palette): Palette
  {
    Palette(LowerCase(p.primary), LowerCase(p.secondary), LowerCase(p.accent))
  }

  /** The table has five palettes, each made of `#RRGGBB` colours. */
  lemma PalettesAreHex()
    ensures |Palettes| == 5
    ensures forall i :: 0 <= i < |Palettes| ==> IsHexPalette(Palettes[i])
  {
    assert IsHexPalette(Palettes[0]);
    assert IsHexPalette(Palettes[1]);
    assert IsHexPalette(Palettes[2]);
    assert IsHexPalette(Palettes[3]);
    assert IsHexPalette(Palettes[4]);
  }

  /** `Math.sin(time * 0.1) * 0.5 + 0.5`, given the value of the sine. */
  function ColorCycle(sine: real): (c: real)
    requires -1.0 <= sine <= 1.0
    ensures 0.0 <= c <= 1.0
    ensures sine == 0.0 ==> c == 0.5
    ensures sine == 1.0 ==> c == 1.0
  {
    sine * 0.5 + 0.5
  }

  /** Where the cycle stands: the palette it comes from, the one it moves to,
      and how far along it is. */
  datatype CycleState = CycleState(index: int, next: int, blend: real)

  /** `paletteIndex`, `nextPaletteIndex` and `blendFactor` for a table of `count`
      palettes: the floor of `colorCycle * (count - 1)`, that index plus one
      modulo `count`, and the fractional part by `% 1`. */
  function Cycle(colorCycle: real, count: nat): CycleState
    requires count >= 1
  {
    CycleAt(colorCycle * (count - 1) as real, count)
  }

  /** The cycle state at a position `colorCycle * (count - 1)` on the table. */
  function CycleAt(position: real, count: nat): CycleState
    requires count >= 1
  {
    var index := Floor(position);
    CycleState(index, IntRemainder(index + 1, count), RealRemainder(position, 1.0))
  }

  /** `st` is a well-placed cycle state for `count` palettes at `position`: both
      indices are inside the table, the next index follows the current one
      cyclically, the blend factor is in [0, 1), and index and blend together
      give back the position. */
  predicate Placed(st: CycleState, count: nat, position: real)
    requires count >= 1
  {
    && 0 <= st.index < count
    && 0 <= st.next < count
    && st.next == (st.index + 1) % count
    && 0.0 <= st.blend < 1.0
    && st.index as real + st.blend == position
  }

  /** For a cycle value in [0, 1] the cycle state is well placed at
      `colorCycle * (count - 1)`. */
  lemma {:induction false} CycleInRange(colorCycle: real, count: nat)
    requires 0.0 <= colorCycle <= 1.0 && count >= 1
    ensures Placed(Cycle(colorCycle, count), count, colorCycle * (count - 1) as real)
  {
    var position := colorCycle * (count - 1) as real;
    assert 0.0 <= position <= (count - 1) as real by {
      PositionInRange(colorCycle, (count - 1) as real);
    }
    PositionParts(position, count);
  }

  /** The cycle state read off a position inside the table is well placed. */
  lemma {:induction false} PositionParts(position: real, count: nat)
    requires count >= 1 && 0.0 <= position <= (count - 1) as real
    ensures Placed(CycleAt(position, count), count, position)
  {
    FloorInRange(position, count - 1);
    IntRemainderWraps(Floor(position) + 1, count);
    FractionalPart(position);
  }

  /** A fraction of a non-negative span lies inside the span. */
  lemma PositionInRange(colorCycle: real, span: real)
    requires 0.0 <= colorCycle <= 1.0 && 0.0 <= span
    ensures 0.0 <= colorCycle * span <= span
  {
    assert 0.0 <= (1.0 - colorCycle) * span;
  }

  /** The floor of a position inside `[0, top]` is an index inside `[0, top]`. */
  lemma FloorInRange(position: real, top: int)
    requires 0.0 <= position <= top as real
    ensures 0 <= Floor(position) <= top
  {
  }

  /** At the top of the swing the index is the last palette, the next index wraps
      to the first one, and the blend is 0: the index is not clamped. */
  lemma CycleAtTop(count: nat)
    requires count >= 1
    ensures Cycle(1.0, count) == CycleState(count - 1, 0, 0.0)
  {
    CycleInRange(1.0, count);
    assert Floor(1.0 * (count - 1) as real) == count - 1;
  }

  /** With a single palette the cycle stands still on it. */
  lemma CycleSinglePalette(colorCycle: real)
    requires 0.0 <= colorCycle <= 1.0
    ensures Cycle(colorCycle, 1) == CycleState(0, 0, 0.0)
  {
    CycleInRange(colorCycle, 1);
  }

  /** The three colours of the frame for a given value of the sine. */
  function FrameColors(sine: real): Palette
    requires -1.0 <= sine <= 1.0
  {
    var st := Cycle(ColorCycle(sine), |Palettes|);
    CycleInRange(ColorCycle(sine), |Palettes|);
    var current := Palettes[st.index];
    var next := Palettes[st.next];
    Palette(BlendColor(current.primary, next.primary, st.blend),
            BlendColor(current.secondary, next.secondary, st.blend),
            BlendColor(current.accent, next.accent, st.blend))
  }

  /** Each of the frame's three colours is a well-formed lower-case colour, the
      blend of the same-named colours of the current and next palette, all three
      with the same blend factor. */
  lemma {:induction false} FrameColorsBlend(sine: real)
    requires -1.0 <= sine <= 1.0
    ensures var st := Cycle(ColorCycle(sine), |Palettes|);
      && 0 <= st.index < |Palettes| && 0 <= st.next < |Palettes|
      && var current, next, out := Palettes[st.index], Palettes[st.next], FrameColors(sine);
      && IsHexPalette(current) && IsHexPalette(next)
      && IsBlendOf(out.primary, current.primary, next.primary, st.blend)
      && IsBlendOf(out.secondary, current.secondary, next.secondary, st.blend)
      && IsBlendOf(out.accent, current.accent, next.accent, st.blend)
  {
    var st := Cycle(ColorCycle(sine), |Palettes|);
    CycleInRange(ColorCycle(sine), |Palettes|);
    PalettesAreHex();
    var current, next := Palettes[st.index], Palettes[st.next];
    BlendColorIsBlend(current.primary, next.primary, st.blend);
    BlendColorIsBlend(current.secondary, next.secondary, st.blend);
    BlendColorIsBlend(current.accent, next.accent, st.blend);
  }

  /** When the blend factor is 0 the frame shows the current palette exactly,
      in lower case. */
  lemma {:induction false} FrameColorsAtBlendZero(sine: real)
    requires -1.0 <= sine <= 1.0
    requires Cycle(ColorCycle(sine), |Palettes|).blend == 0.0
    ensures var st := Cycle(ColorCycle(sine), |Palettes|);
      && 0 <= st.index < |Palettes|
      && FrameColors(sine) == LowerPalette(Palettes[st.index])
  {
    var st := Cycle(ColorCycle(sine), |Palettes|);
    CycleInRange(ColorCycle(sine), |Palettes|);
    PalettesAreHex();
    var current, next := Palettes[st.index], Palettes[st.next];
    BlendColorAtZero(current.primary, next.primary);
    BlendColorAtZero(current.secondary, next.secondary);
    BlendColorAtZero(current.accent, next.accent);
  }

  /** At the top of the swing (sine 1) the frame shows the last palette. */
  lemma FrameColorsAtTop()
    ensures Cycle(ColorCycle(1.0), |Palettes|) == CycleState(4, 0, 0.0)
    ensures FrameColors(1.0) == LowerPalette(Palettes[4])
  {
    PalettesAreHex();
    CycleAtTop(|Palettes|);
    FrameColorsAtBlendZero(1.0);
  }

  /** At time 0 (sine 0) the cycle value is one half, which lands exactly on
      the middle of five palettes. */
  lemma CycleAtStart()
    ensures Cycle(ColorCycle(0.0), 5) == CycleState(2, 3, 0.0)
  {
    CycleInRange(0.5, 5);
    assert 0.5 * 4.0 == 2.0;
  }

  /** At time 0 the frame shows the middle palette exactly. */
  lemma FrameColorsAtStart()
    ensures FrameColors(0.0) == LowerPalette(Palettes[2])
  {
    PalettesAreHex();
    CycleAtStart();
    FrameColorsAtBlendZero(0.0);
  }
}
