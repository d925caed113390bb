/** A model of `ChristmasMarquee3` from LightController/Program.cs: three
    16-colour palettes built by a rotate-and-append loop, then an animation
    loop that advances a frame index modulo 3 and applies that palette to
    both JRAINBOW headers. Waiting for the exit signal is replaced by a
    number of frames; style switching and frame timing are not modelled. */
module Marquee {
  import opened UInts
  import opened ColorArrays
  import opened LedNames

  /** The three starting colours: grey, red, green. */
  const Base: seq<Color> := [Color(64, 64, 64), Color(255, 0, 0), Color(0, 255, 0)]

  const PaletteLength: nat := 16

  const Device: string := "MSI_MB"

  /** Closed form of palette `j`: position `k` holds `Base[(j + k) % 3]`. */
  function Palette(j: nat): (p: seq<Color>)
    requires j < 3
  {
    seq(PaletteLength, k requires 0 <= k < PaletteLength => Base[(j + k) % 3])
  }

  /** `a` holds the first `n` colours of palette `j`. */
  predicate PalettePrefix(a: ColorArray, j: nat, n: nat)
    requires j < 3
  {
    |a.colors| == n && forall k :: 0 <= k < n ==> a.colors[k] == Base[(j + k) % 3]
  }

  lemma AppendPaletteColor(a: ColorArray, j: nat, n: nat, c: Color)
    requires j < 3 && PalettePrefix(a, j, n) && c == Base[(j + n) % 3]
    ensures PalettePrefix(AddColor(a, c), j, n + 1)
  {
  }

  /** `Colors.Last()`: the most recently added colour. */
  function Last(a: ColorArray): Color
    requires a.colors != []
  {
    a.colors[|a.colors| - 1]
  }

  /** One pass of the build loop extends all three palettes by their next colour. */
  lemma RotateStep(a0: ColorArray, a1: ColorArray, a2: ColorArray, i: nat)
    requires 1 <= i
    requires PalettePrefix(a0, 0, i) && PalettePrefix(a1, 1, i) && PalettePrefix(a2, 2, i)
    ensures PalettePrefix(AddColor(a0, Last(a1)), 0, i + 1)
    ensures PalettePrefix(AddColor(a1, Last(a2)), 1, i + 1)
    ensures PalettePrefix(AddColor(a2, Last(a0)), 2, i + 1)
  {
    ModStep(i);
    assert Last(a1) == Base[(1 + (i - 1)) % 3];
    assert Last(a2) == Base[(2 + (i - 1)) % 3];
    assert Last(a0) == Base[(i - 1) % 3];
    AppendPaletteColor(a0, 0, i, Last(a1));
    AppendPaletteColor(a1, 1, i, Last(a2));
    AppendPaletteColor(a2, 2, i, Last(a0));
  }

  /** The three single-colour buffers the build loop starts from. */
  lemma FirstColors()
    ensures PalettePrefix(AddRgb(New(), 64, 64, 64), 0, 1)
    ensures PalettePrefix(AddRgb(New(), 255, 0, 0), 1, 1)
    ensures PalettePrefix(AddRgb(New(), 0, 255, 0), 2, 1)
  {
  }

  /** Three full-length prefixes are the three palettes in closed form. */
  lemma FullPalettes(ca: seq<ColorArray>)
    requires |ca| == 3
    requires PalettePrefix(ca[0], 0, PaletteLength) && PalettePrefix(ca[1], 1, PaletteLength)
    requires PalettePrefix(ca[2], 2, PaletteLength)
    ensures forall j :: 0 <= j < 3 ==> ca[j].colors == Palette(j)
    ensures forall j :: 0 <= j < 3 ==> |ca[j].colors| == PaletteLength
    ensures forall j, k :: 0 <= j < 3 && 0 <= k < PaletteLength ==> ca[j].colors[k] == Base[(j + k) % 3]
  {
    forall j | 0 <= j < 3
      ensures ca[j].colors == Palette(j)
    {
      assert PalettePrefix(ca[j], j, PaletteLength);
    }
  }

  /** The build loop: each palette starts with one base colour; then, fifteen
      times, palette 0 appends palette 1's last colour, palette 1 appends
      palette 2's last colour and palette 2 appends palette 0's former last
      colour. The result is the closed form, with every buffer dirty. */
  method BuildPalettes() returns (ca: seq<ColorArray>)
    ensures |ca| == 3
    ensures forall j :: 0 <= j < 3 ==> ca[j].colors == Palette(j)
    ensures forall j :: 0 <= j < 3 ==> |ca[j].colors| == PaletteLength
    ensures forall j, k :: 0 <= j < 3 && 0 <= k < PaletteLength ==> ca[j].colors[k] == Base[(j + k) % 3]
    ensures forall j :: 0 <= j < 3 ==> ca[j].dirty && Consistent(ca[j])
  {
    FirstColors();
    var a0 := AddRgb(New(), 64, 64, 64);
    var a1 := AddRgb(New(), 255, 0, 0);
    var a2 := AddRgb(New(), 0, 255, 0);
    var i := 1;
    while i < PaletteLength
      invariant 1 <= i <= PaletteLength
      invariant PalettePrefix(a0, 0, i) && PalettePrefix(a1, 1, i) && PalettePrefix(a2, 2, i)
      invariant a0.dirty && a1.dirty && a2.dirty
      invariant Consistent(a0) && Consistent(a1) && Consistent(a2)
    {
      RotateStep(a0, a1, a2, i);
      var first := Last(a0);
      a0 := AddColor(a0, Last(a1));
      a1 := AddColor(a1, Last(a2));
      a2 := AddColor(a2, first);
      i := i + 1;
    }
    ca := [a0, a1, a2];
    FullPalettes(ca);
  }

  lemma ModStep(i: nat)
    requires i >= 1
    ensures (1 + (i - 1)) % 3 == i % 3
    ensures (2 + (i - 1)) % 3 == (1 + i) % 3
    ensures (i - 1) % 3 == (2 + i) % 3
  {
    assert 2 + i == (i - 1) + 3;
  }

  /** Consecutive palettes are one LED apart: palette `(j + 1) % 3` is
      palette `j` shifted left by one position, so stepping the frame index
      makes the pattern scroll by one LED. */
  lemma PaletteShift(j: nat)
    requires j < 3
    ensures Palette((j + 1) % 3)[..PaletteLength - 1] == Palette(j)[1..]
  {
    var next, tail := Palette((j + 1) % 3)[..PaletteLength - 1], Palette(j)[1..];
    forall k | 0 <= k < PaletteLength - 1
      ensures next[k] == tail[k]
    {
      assert ((j + 1) % 3 + k) % 3 == (j + (k + 1)) % 3;
    }
  }

  /** The sixteen names of header `which` as the marquee uses them. */
  function JRainbowNames(which: u32): seq<string>
  {
    seq(16, k requires 0 <= k < 16 => JRainbowName(which, k + 1))
  }

  /** The frame index after `n` steps of `i = (i + 1) % ca.Length` from 0. */
  function FrameIndex(n: nat): nat
  {
    if n == 0 then 0 else (FrameIndex(n - 1) + 1) % 3
  }

  /** The frame index is always `n % 3`: it stays in [0, 3) and runs 0, 1, 2, 0, ... */
  lemma {:induction false} FrameIndexCycles(n: nat)
    ensures FrameIndex(n) == n % 3
    ensures FrameIndex(n) < 3
  {
    if n > 0 {
      FrameIndexCycles(n - 1);
    }
  }

  /** The three buffers hold the three palettes and keep the cache invariant. */
  predicate Ready(ca: seq<ColorArray>)
  {
    |ca| == 3 && forall j :: 0 <= j < 3 ==> ca[j].colors == Palette(j) && Consistent(ca[j])
  }

  /** The two SDK calls of one frame: palette `p` to header 1, then to header 2. */
  predicate FrameCalls(c1: LedColorsCall, c2: LedColorsCall, names1: seq<string>, names2: seq<string>, p: seq<Color>)
  {
    c1.device == Device && c1.area == 1 && c1.names == names1 && CarriesColors(c1, p) &&
    c2.device == Device && c2.area == 2 && c2.names == names2 && CarriesColors(c2, p)
  }

  /** The body of one frame: apply palette `i` to both headers. */
  function ShowFrame(ca: seq<ColorArray>, i: nat, names1: seq<string>, names2: seq<string>)
    : (r: (seq<ColorArray>, LedColorsCall, LedColorsCall))
    requires Ready(ca) && i < 3
    ensures Ready(r.0)
    ensures FrameCalls(r.1, r.2, names1, names2, Palette(i))
  {
    var r1 := Apply(ca[i], Device, names1, 1);
    var r2 := Apply(r1.0, Device, names2, 2);
    (ca[i := r2.0], r1.1, r2.1)
  }

  /** `calls` holds the SDK calls of the first `f` frames, frame `g`
      showing palette `(g + 1) % 3`. */
  predicate FramesSoFar(calls: seq<LedColorsCall>, names1: seq<string>, names2: seq<string>, f: nat)
  {
    |calls| == 2 * f &&
    forall g :: 0 <= g < f ==>
      FrameCalls(calls[2 * g], calls[2 * g + 1], names1, names2, Palette((g + 1) % 3))
  }

  lemma ExtendFrames(calls: seq<LedColorsCall>, names1: seq<string>, names2: seq<string>, f: nat,
                     c1: LedColorsCall, c2: LedColorsCall)
    requires FramesSoFar(calls, names1, names2, f)
    requires FrameCalls(c1, c2, names1, names2, Palette((f + 1) % 3))
    ensures FramesSoFar(calls + [c1, c2], names1, names2, f + 1)
  {
    var next := calls + [c1, c2];
    assert next[2 * f] == c1 && next[2 * f + 1] == c2;
    forall g | 0 <= g < f
      ensures next[2 * g] == calls[2 * g] && next[2 * g + 1] == calls[2 * g + 1]
    {
    }
  }

  /** The frame index after one more step of the loop. */
  lemma NextFrameIndex(f: nat, i: nat)
    requires i == FrameIndex(f)
    ensures (i + 1) % 3 == FrameIndex(f + 1) == (f + 1) % 3
  {
    FrameIndexCycles(f + 1);
  }

  /** The animation for `frames` frames: each frame first steps the index,
      then applies that palette to header 1 (area 1) and to header 2 (area 2).
      Frame `f` shows palette `(f + 1) % 3` on both headers, so LED `k` shows
      `Base[(f + 1 + k) % 3]`. */
  method RunMarquee(frames: nat) returns (calls: seq<LedColorsCall>)
    ensures |calls| == 2 * frames
    ensures forall f :: 0 <= f < frames ==>
      FrameCalls(calls[2 * f], calls[2 * f + 1], JRainbowNames(1), JRainbowNames(2), Palette((f + 1) % 3))
  {
    var names1 := GetJRainbowNames(1, 16);
    var names2 := GetJRainbowNames(2, 16);
    assert names1 == JRainbowNames(1) && names2 == JRainbowNames(2);
    var ca := BuildPalettes();
    var i := 0;
    var f := 0;
    calls := [];
    while f < frames
      invariant 0 <= f <= frames
      invariant i == FrameIndex(f)
      invariant Ready(ca)
      invariant FramesSoFar(calls, names1, names2, f)
    {
      NextFrameIndex(f, i);
      i := (i + 1) % |ca|;
      var r := ShowFrame(ca, i, names1, names2);
      ExtendFrames(calls, names1, names2, f, r.1, r.2);
      ca := r.0;
      calls := calls + [r.1, r.2];
      f := f + 1;
    }
  }
}
