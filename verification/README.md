# MSI Mystic Light marquee controller — Dafny model

This project models the logic of `LightController/Program.cs`, a small
utility that animates two JRAINBOW LED headers on an MSI motherboard
through the vendor's Mystic Light SDK. Three pieces are modelled:

- `ColorArray` (module `ColorArrays`): a list of colours with three
  parallel channel arrays (red, green, blue). The arrays are rebuilt from
  the list only when a `dirty` flag is set. `addColor` appends and sets the
  flag, `prepare` rebuilds and clears it, and `apply` prepares and hands the
  arrays to the SDK. The object is an immutable datatype here; a
  never-assigned C# array is `None`. The cache invariant `Consistent` says
  what a reachable object looks like: a dirty buffer holds at least one
  colour; a clean one either has arrays matching its colours, or is still
  in its initial state with null arrays. That initial state is a real edge
  case: `dirty` starts false, so `apply` on a fresh object hands the SDK
  null arrays.
- `GetJRainbowNames` (module `LedNames`): the LED names
  `JRAINBOW<which>_<n>`, with numbers in decimal. A parser `ParseName` is
  the partner definition: every name reads back to the numbers it was
  built from, so names are pairwise distinct.
- `ChristmasMarquee3` (module `Marquee`): the rotate-and-append loop that
  builds three 16-colour palettes, and the animation loop. That loop
  advances the frame index `i = (i + 1) % 3` and applies palette `i` to
  both headers. The SDK calls are collected as `LedColorsCall` records.

The buffer's invariant covers two cases. Once a colour has been added,
each array has one entry per colour and holds that channel of every colour.
Before any colour is added, the arrays are null. The model keeps that
second case visible. The code also steps
the frame index before applying, so frame `f` (from 0) shows palette
`(f + 1) % 3`, and the first frame shows palette 1, not palette 0.

## Model

| member | source | states |
|---|---|---|
| ColorArrays.New | LightController/Program.cs:13-19 | A new object has no colours, a clear `dirty` flag and null arrays, and satisfies the cache invariant |
| ColorArrays.AddColor | LightController/Program.cs:35-39 | The colour list grows by exactly one: the new colour is last and earlier entries are unchanged. The flag becomes set, the arrays are untouched and the invariant holds |
| ColorArrays.AddRgb | LightController/Program.cs:40-43 | `addColor(r, g, b)` appends the colour `(r, g, b)` as the last entry and sets the flag. The arrays are untouched and the invariant holds |
| ColorArrays.AddRgbIsAddColor | LightController/Program.cs:40-43 | `addColor(r, g, b)` has the same effect as `addColor(new Color(r, g, b))` |
| ColorArrays.Project | LightController/Program.cs:29-31 | The LINQ channel projection has one entry per colour, and entry k is that channel of colour k |
| ColorArrays.Prepare | LightController/Program.cs:26-33 | Afterwards the flag is clear and the list is unchanged. If the flag was set, each array has the list's length and holds that channel of every colour in order. If it was clear, nothing changes. So a second `prepare` with no `addColor` in between changes nothing. The invariant is preserved |
| ColorArrays.Apply | LightController/Program.cs:45-52 | `apply` prepares, then hands the SDK its device, area and names. On a consistent buffer, the arrays it hands over match the current colours when there is at least one colour, and are null when there are none |
| ColorArrays.RunInvariant | LightController/Program.cs:13-48 | After any sequence of `addColor`/`apply` calls on a new object, the colour list is exactly the colours added, in order, and the cache invariant holds |
| ColorArrays.AddedColorsEmpty | LightController/Program.cs:35-43 | The colour list is empty exactly when no `addColor` of either form happened |
| ColorArrays.ApplyAfterHistory | LightController/Program.cs:14-48 | After any history, `apply` hands arrays matching the colours added once an `addColor` has occurred. With no `addColor` at all it hands null arrays. The predicate `ApplyMatchesHistory` spells out both cases |
| LedNames.NatToString | LightController/Program.cs:96 | Decimal formatting gives a non-empty string of digits only. The first digit is `0` only for zero, and zero is written `0`, so there are no leading zeros |
| LedNames.ParseNatToString | LightController/Program.cs:96 | Reading back the decimal text of n gives n |
| LedNames.NameRoundTrip | LightController/Program.cs:96 | Each `JRAINBOW{which}_{n}` name parses back to exactly `(which, n)` |
| LedNames.NameInjective | LightController/Program.cs:90-98 | Two names are equal exactly when their header numbers and LED numbers are equal, including across different headers |
| LedNames.GetJRainbowNames | LightController/Program.cs:90-98 | Returns exactly `count` names. Name i is `JRAINBOW{which}_{i+1}` and parses back to `(which, i+1)`. The names are pairwise distinct |
| Marquee.BuildPalettes | LightController/Program.cs:105-117 | After the build loop each of the three palettes has 16 colours, palette j at position k is `Base[(j+k) % 3]`, and every buffer is dirty and consistent |
| Marquee.PaletteShift | LightController/Program.cs:111-129 | The first 15 colours of palette `(j+1) % 3` are colours 1 to 15 of palette j. So palette `(j+1) % 3` is palette j shifted left by one LED, and each frame step scrolls the pattern by one LED |
| Marquee.FrameIndexCycles | LightController/Program.cs:122-127 | The frame index after n steps of `i = (i + 1) % 3` from 0 is `n % 3`: it stays in [0, 3) and runs 0, 1, 2, 0, ... |
| Marquee.ShowFrame | LightController/Program.cs:128-129 | One frame applies palette i to header 1 (area 1), then to header 2 (area 2). The SDK receives that palette's channels, and the three buffers stay consistent and keep their palettes |
| Marquee.RunMarquee | LightController/Program.cs:100-133 | Over `frames` frames the SDK receives exactly two calls per frame. In frame f both headers, with the 16 names of headers 1 and 2, get the channels of palette `(f+1) % 3` |

## Left out

- The vendor SDK calls `MLAPI_Initialize`, `MLAPI_SetLedStyle` and `MLAPI_SetLedColors`, and `LightController.API_OK`, are foreign native code whose source is not part of this model. `apply` is modelled as producing a `LedColorsCall` record for an abstract sink. The style switches to "Direct Lighting Control" and back to "Marquee" are not modelled.
- The error strings printed when an SDK call fails, and all other console output, are left out.
- The console control handler, the `exitSignal` flag and its polling, the worker thread in `Main`, and the 125 ms frame timing with `DateTime`/`Thread.Sleep` are OS plumbing, concurrency and wall-clock time. The animation loop runs for a given number of frames instead of until the exit signal.
- ColorArrays.Apply: the names are handed to the SDK by `ref`, and the SDK receives the object's own channel arrays. The model assumes the SDK neither reassigns the names array through `ref` nor writes into the channel arrays. So Marquee.RunMarquee's promise that every frame uses the same 16 names of each header rests on that assumption.
- The commented-out `ChristmasMarquee1`, `ChristmasMarquee2` and `main` at the end of the file are dead code.
- The `Color` type is not in the source; the model takes it to be three unsigned 32-bit channels `R`, `G`, `B` with no range checks.
- The `Colors` property returns the live list, so a caller could append through it without setting `dirty`. No caller in the source does that (it only reads `Last()`), so the model exposes the list read-only.
- LedNames.GetJRainbowNames: `count` is a `u32`, but the loop counter is an unbounded integer rather than the C# `int`. For a `count` above the .NET array-length limit, `new string[count]` throws; the model instead returns `count` names. The program only asks for 16.
- LedNames.NatToString: models the decimal text C# writes for a non-negative integer. It does not model any culture-specific formatting.
