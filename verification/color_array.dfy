/** A model of `ColorArray` from LightController/Program.cs: a list of colours
    that is lazily flattened into three parallel channel arrays (red, green,
    blue) which are handed to the lighting SDK. The flattening is redone only
    when the `dirty` flag is set; `addColor` sets it, `prepare` clears it. */
module ColorArrays {
  import opened Options
  import opened UInts

  /** The SDK's colour record: three unsigned channels, no range checks. */
  datatype Color = Color(R: u32, G: u32, B: u32)

  datatype Channel = Red | Green | Blue

  function Component(c: Color, ch: Channel): u32
  {
    match ch
    case Red => c.R
    case Green => c.G
    case Blue => c.B
  }

  /** The state of one `ColorArray` object. The channel arrays are `None`
      until the first `prepare` that finds the buffer dirty. */
  datatype ColorArray = ColorArray(
    colors: seq<Color>,
    dirty: bool,
    red: Option<seq<u32>>,
    green: Option<seq<u32>>,
    blue: Option<seq<u32>>)

  /** One call of the SDK's "set LED colours" entry point, as `apply` makes it.
      The SDK itself is not modelled; this record is what it is handed. */
  datatype LedColorsCall = LedColorsCall(
    device: string,
    area: u32,
    names: seq<string>,
    red: Option<seq<u32>>,
    green: Option<seq<u32>>,
    blue: Option<seq<u32>>)

  /** `arr` is an assigned array holding channel `ch` of every colour of `cs`, in order. */
  predicate Matches(arr: Option<seq<u32>>, cs: seq<Color>, ch: Channel)
  {
    arr.Some? && |arr.value| == |cs| &&
    forall k :: 0 <= k < |cs| ==> arr.value[k] == Component(cs[k], ch)
  }

  /** All three channel arrays agree with the colour list. */
  predicate InSync(c: ColorArray)
  {
    Matches(c.red, c.colors, Red) && Matches(c.green, c.colors, Green) && Matches(c.blue, c.colors, Blue)
  }

  /** The state of a freshly constructed object: no colours, arrays never assigned. */
  predicate Unset(c: ColorArray)
  {
    c.colors == [] && c.red == None && c.green == None && c.blue == None
  }

  /** The cache invariant: a dirty buffer has had a colour added; a clean one
      either has arrays matching its colours or is still in its initial state. */
  predicate Consistent(c: ColorArray)
  {
    if c.dirty then c.colors != [] else (c.colors != [] && InSync(c)) || Unset(c)
  }

  /** The array a LINQ `select` over the colour list produces for one channel. */
  function Project(cs: seq<Color>, ch: Channel): (r: seq<u32>)
    ensures |r| == |cs|
    ensures forall k :: 0 <= k < |cs| ==> r[k] == Component(cs[k], ch)
  {
    if cs == [] then [] else [Component(cs[0], ch)] + Project(cs[1..], ch)
  }

  /** `new ColorArray()`: `dirty` starts false and the arrays are null. */
  function New(): (c: ColorArray)
    ensures Unset(c) && !c.dirty
    ensures Consistent(c)
  {
    ColorArray([], false, None, None, None)
  }

  /** `addColor(Color)`: append the colour and mark the buffer dirty. */
  function AddColor(c: ColorArray, color: Color): (d: ColorArray)
    ensures |d.colors| == |c.colors| + 1
    ensures d.colors[|c.colors|] == color
    ensures d.colors[..|c.colors|] == c.colors
    ensures d.dirty
    ensures d.red == c.red && d.green == c.green && d.blue == c.blue
    ensures Consistent(d)
  {
    c.(colors := c.colors + [color], dirty := true)
  }

  /** `addColor(r, g, b)`: the same as adding `new Color(r, g, b)`. */
  function AddRgb(c: ColorArray, r: u32, g: u32, b: u32): (d: ColorArray)
    ensures d.colors == c.colors + [Color(r, g, b)] && d.dirty
    ensures d.red == c.red && d.green == c.green && d.blue == c.blue
    ensures Consistent(d)
  {
    AddColor(c, Color(r, g, b))
  }

  /** Adding the channels `r, g, b` has the same effect as adding the colour
      built from them. */
  lemma AddRgbIsAddColor(c: ColorArray, r: u32, g: u32, b: u32)
    ensures AddRgb(c, r, g, b) == AddColor(c, Color(r, g, b))
  {
    var d, e := AddRgb(c, r, g, b), AddColor(c, Color(r, g, b));
    assert d.colors == e.colors;
  }

  /** `prepare()`: a no-op on a clean buffer; otherwise rebuild the three
      arrays from the colour list and clear the flag. */
  function Prepare(c: ColorArray): (d: ColorArray)
    ensures d.colors == c.colors
    ensures !d.dirty
    ensures c.dirty ==> InSync(d)
    ensures !c.dirty ==> d == c
    ensures Consistent(c) ==> Consistent(d)
  {
    if !c.dirty then c
    else c.(red := Some(Project(c.colors, Red)),
             green := Some(Project(c.colors, Green)),
             blue := Some(Project(c.colors, Blue)),
             dirty := false)
  }

  /** The SDK was handed arrays holding the channels of `cs`. */
  predicate CarriesColors(call: LedColorsCall, cs: seq<Color>)
  {
    Matches(call.red, cs, Red) && Matches(call.green, cs, Green) && Matches(call.blue, cs, Blue)
  }

  /** The SDK was handed the never-assigned (null) arrays. */
  predicate CarriesNothing(call: LedColorsCall)
  {
    call.red == None && call.green == None && call.blue == None
  }

  /** `apply(device, names, area)`: prepare, then hand the three arrays to the
      SDK. On a consistent buffer the SDK receives arrays matching the current
      colour list, unless no colour was ever added, in which case it receives
      the never-assigned (null) arrays. */
  function Apply(c: ColorArray, device: string, names: seq<string>, area: u32): (res: (ColorArray, LedColorsCall))
    ensures res.0.colors == c.colors && !res.0.dirty
    ensures res.1.device == device && res.1.area == area && res.1.names == names
    ensures res.1.red == res.0.red && res.1.green == res.0.green && res.1.blue == res.0.blue
    ensures Consistent(c) ==> Consistent(res.0)
    ensures Consistent(c) && c.colors != [] ==> CarriesColors(res.1, c.colors)
    ensures Consistent(c) && c.colors == [] ==> CarriesNothing(res.1)
  {
    var d := Prepare(c);
    (d, LedColorsCall(device, area, names, d.red, d.green, d.blue))
  }

  /** The public operations a caller can perform on a `ColorArray`. */
  datatype Op =
    | AddColorOp(color: Color)
    | AddRgbOp(r: u32, g: u32, b: u32)
    | ApplyOp(device: string, names: seq<string>, area: u32)

  function Step(c: ColorArray, op: Op): ColorArray
  {
    match op
    case AddColorOp(color) => AddColor(c, color)
    case AddRgbOp(r, g, b) => AddRgb(c, r, g, b)
    case ApplyOp(device, names, area) => Apply(c, device, names, area).0
  }

  /** The state of a new object after the operations `ops`, in order. */
  function Run(ops: seq<Op>): ColorArray
  {
    if ops == [] then New() else Step(Run(ops[..|ops| - 1]), ops[|ops| - 1])
  }

  /** The colours the operations `ops` add, in order: a reference definition
      independent of the object's state. */
  function AddedColors(ops: seq<Op>): seq<Color>
  {
    if ops == [] then []
    else
      var last := ops[|ops| - 1];
      AddedColors(ops[..|ops| - 1]) +
        match last
        case AddColorOp(color) => [color]
        case AddRgbOp(r, g, b) => [Color(r, g, b)]
        case ApplyOp(_, _, _) => []
  }

  predicate IsAdd(op: Op)
  {
    op.AddColorOp? || op.AddRgbOp?
  }

  /** Some operation of `ops` adds a colour. */
  predicate HasAdd(ops: seq<Op>)
  {
    exists k :: 0 <= k < |ops| && IsAdd(ops[k])
  }

  /** Every reachable state keeps the cache invariant, and its colour list is
      exactly the colours added so far. */
  lemma {:induction false} RunInvariant(ops: seq<Op>)
    ensures Run(ops).colors == AddedColors(ops)
    ensures Consistent(Run(ops))
  {
    if ops != [] {
      RunInvariant(ops[..|ops| - 1]);
    }
  }

  /** No colour has been added exactly when no add operation occurred. */
  lemma {:induction false} AddedColorsEmpty(ops: seq<Op>)
    ensures AddedColors(ops) == [] <==> !HasAdd(ops)
  {
    if ops != [] {
      var init := ops[..|ops| - 1];
      AddedColorsEmpty(init);
      assert forall k :: 0 <= k < |init| ==> init[k] == ops[k];
    }
  }

  /** What `apply` hands the SDK after the history `ops`: the channels of the
      colours added, once an add has occurred, and null arrays before that. */
  predicate ApplyMatchesHistory(ops: seq<Op>, device: string, names: seq<string>, area: u32)
  {
    var call := Apply(Run(ops), device, names, area).1;
    (HasAdd(ops) ==> CarriesColors(call, AddedColors(ops))) &&
    (!HasAdd(ops) ==> CarriesNothing(call))
  }

  /** Whatever happened to an object before, `apply` hands the SDK channel
      arrays that match the current colour list as soon as one colour has been
      added; before any `addColor` it hands the unassigned arrays. */
  lemma {:induction false} ApplyAfterHistory(ops: seq<Op>, device: string, names: seq<string>, area: u32)
    ensures ApplyMatchesHistory(ops, device, names, area)
  {
    RunInvariant(ops);
    AddedColorsEmpty(ops);
  }
}
