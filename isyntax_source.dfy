/**
 * Opening an iSyntax file as a tile source: the embedded XML header is read
 * and flattened, the engine's view of the whole-slide image is checked for
 * the axes and component count the source can serve, and the pyramid level
 * count and level table are worked out.
 *
 * The engine is outside the model: what the source reads from its
 * `source_view` is the `SourceView` value passed in.
 */
module IsyntaxSource {
  import opened Wrappers
  import opened PhilipsTags
  import opened XmlScan
  import opened LevelTable
  import opened Numbers

  /**
   * The parts of the engine's `source_view` the source reads: the dimension
   * names, the pixel size along each dimension, and the `[start, step, stop]`
   * ranges of each native (derived) level.
   */
  datatype SourceView = SourceView(dimensionNames: seq<string>, pixelSize: seq<nat>, derived: seq<Ranges>)

  /** The engine reports one size per dimension and one triple per dimension and level. */
  predicate WellFormed(view: SourceView) {
    && |view.pixelSize| == |view.dimensionNames|
    && forall l :: 0 <= l < |view.derived| ==>
         && |view.derived[l]| == |view.dimensionNames|
         && forall a :: 0 <= a < |view.derived[l]| ==> |view.derived[l][a]| == 3
  }

  /** `list.index`: the first position of `name`, or None where Python raises ValueError. */
  function IndexOf(names: seq<string>, name: string): (i: Option<nat>)
    ensures i.Some? ==> i.value < |names| && names[i.value] == name
    ensures i.Some? ==> forall j :: 0 <= j < i.value ==> names[j] != name
    ensures i.None? <==> name !in names
  {
    if names == [] then None
    else if names[0] == name then Some(0)
    else match IndexOf(names[1..], name)
      case None => None
      case Some(i) => Some(i + 1)
  }

  /** The positions of the `x`, `y` and `component` dimensions, when all three exist. */
  function AxesOf(names: seq<string>): (axes: Option<Axes>)
    ensures axes.Some? <==> "x" in names && "y" in names && "component" in names
    ensures axes.Some? ==> axes.value.x < |names| && axes.value.y < |names| && axes.value.component < |names|
  {
    match (IndexOf(names, "x"), IndexOf(names, "y"), IndexOf(names, "component"))
    case (Some(x), Some(y), Some(c)) => Some(Axes(x, y, c))
    case _ => None
  }

  /** Every native level of a well-formed view holds a triple for the found axes. */
  lemma ViewShaped(view: SourceView, axes: Axes)
    requires WellFormed(view)
    requires AxesOf(view.dimensionNames) == Some(axes)
    ensures forall l :: 0 <= l < |view.derived| ==> Shaped(view.derived[l], axes)
  {
  }

  /** The state an opened source keeps. */
  datatype Source = Source(
    metadata: Metadata,
    axes: Axes,
    sizeX: nat,
    sizeY: nat,
    levels: nat,
    table: seq<Option<Slot>>)

  /**
   * What opening guarantees: a level for every tile level, a coarsest level
   * that covers the image, slot 0 filled, and every filled slot holding a
   * native level with equal x and y steps whose rounded logarithm is the slot.
   */
  predicate Valid(s: Source) {
    && s.levels >= 1
    && |s.table| == s.levels
    && s.table[0].Some?
    && TileSize * Pow2(s.levels - 1) >= Max(s.sizeX, s.sizeY)
    && forall k :: 0 <= k < s.levels && s.table[k].Some? ==>
         && Shaped(s.table[k].value.dim, s.axes)
         && s.table[k].value.dim[s.axes.x][1] == s.table[k].value.dim[s.axes.y][1] >= 1
         && RoundLog2(s.table[k].value.dim[s.axes.x][1]) == k
  }

  datatype OpenError =
    | NotIsyntax            // the XML header could not be read
    | UnexpectedAxes        // no `x`, `y` or `component` dimension
    | UnexpectedComponents  // fewer than 1 or more than 4 components
    | MathDomainError       // `math.log` of an image size or a step that is not positive
    | NoScaleOneLevel       // slot 0 stayed empty

  /** The component count is one the source can render. */
  predicate ComponentsOk(view: SourceView, axes: Axes)
    requires axes.component < |view.pixelSize|
  {
    1 <= view.pixelSize[axes.component] <= 4
  }

  /** The larger side of the image. */
  function LargerSide(view: SourceView, axes: Axes): (size: nat)
    requires axes.x < |view.pixelSize| && axes.y < |view.pixelSize|
    ensures size == view.pixelSize[axes.x] || size == view.pixelSize[axes.y]
    ensures size >= view.pixelSize[axes.x] && size >= view.pixelSize[axes.y]
  {
    Max(view.pixelSize[axes.x], view.pixelSize[axes.y])
  }

  /** No candidate native level has a step that makes `math.log` raise. */
  predicate StepsOk(view: SourceView, axes: Axes)
    requires forall l :: 0 <= l < |view.derived| ==> Shaped(view.derived[l], axes)
  {
    forall l :: 0 <= l < |view.derived| ==> !StepFails(view.derived[l], axes)
  }

  /**
   * `ISyntaxFileTileSource.__init__`, from the XML header to the level table,
   * with the engine's view of the image as an input. Each error is raised
   * exactly when every earlier check passed and its own check fails.
   */
  method Open(file: seq<Byte>, parse: seq<Byte> -> Option<Container>, view: SourceView)
    returns (r: Result<Source, OpenError>)
    requires WellFormed(view)
    ensures r == Failure(NotIsyntax) <==> ReadXmlSpec(file, parse).Failure?
    ensures r == Failure(UnexpectedAxes) <==>
      ReadXmlSpec(file, parse).Success? && AxesOf(view.dimensionNames).None?
    ensures r == Failure(UnexpectedComponents) <==>
      && ReadXmlSpec(file, parse).Success?
      && AxesOf(view.dimensionNames).Some?
      && !ComponentsOk(view, AxesOf(view.dimensionNames).value)
    ensures r == Failure(MathDomainError) <==>
      && ReadXmlSpec(file, parse).Success?
      && AxesOf(view.dimensionNames).Some?
      && var axes := AxesOf(view.dimensionNames).value;
      && ComponentsOk(view, axes)
      && (LargerSide(view, axes) == 0 || (ViewShaped(view, axes); !StepsOk(view, axes)))
    ensures r == Failure(NoScaleOneLevel) <==>
      && ReadXmlSpec(file, parse).Success?
      && AxesOf(view.dimensionNames).Some?
      && var axes := AxesOf(view.dimensionNames).value;
      && ComponentsOk(view, axes)
      && LargerSide(view, axes) > 0
      && (ViewShaped(view, axes); StepsOk(view, axes))
      && SlotAfter(view.derived, axes, LevelCount(LargerSide(view, axes)), |view.derived|, 0).None?
    ensures r.Success? ==>
      && Valid(r.value)
      && ReadXmlSpec(file, parse) == Success(r.value.metadata)
      && AxesOf(view.dimensionNames) == Some(r.value.axes)
      && r.value.sizeX == view.pixelSize[r.value.axes.x]
      && r.value.sizeY == view.pixelSize[r.value.axes.y]
      && r.value.levels == LevelCount(LargerSide(view, r.value.axes))
      && (ViewShaped(view, r.value.axes);
          forall k :: 0 <= k < r.value.levels ==>
            r.value.table[k] == SlotAfter(view.derived, r.value.axes, r.value.levels, |view.derived|, k))
  {
    var xml := ReadXml(file, parse);
    if xml.Failure? {
      return Failure(NotIsyntax);
    }
    var found := AxesOf(view.dimensionNames);
    if found.None? {
      return Failure(UnexpectedAxes);
    }
    var axes := found.value;
    var sizeX := view.pixelSize[axes.x];
    var sizeY := view.pixelSize[axes.y];
    if !ComponentsOk(view, axes) {
      return Failure(UnexpectedComponents);
    }
    var larger := LargerSide(view, axes);
    if larger == 0 {
      return Failure(MathDomainError);
    }
    var levels := LevelCount(larger);
    ViewShaped(view, axes);
    var resolved := ResolveLevels(view.derived, axes, levels);
    if resolved.Failure? {
      return Failure(MathDomainError);
    }
    var table := resolved.value;
    if table[0].None? {
      return Failure(NoScaleOneLevel);
    }
    r := Success(Source(xml.value, axes, sizeX, sizeY, levels, table));
    ResolvedTableValid(r.value, view.derived);
  }

  /** A source whose table is the resolved `_levelIdx` of shaped native levels, with slot 0 filled, is valid. */
  lemma ResolvedTableValid(s: Source, dims: seq<Ranges>)
    requires forall l :: 0 <= l < |dims| ==> Shaped(dims[l], s.axes)
    requires s.levels >= 1 && TileSize * Pow2(s.levels - 1) >= Max(s.sizeX, s.sizeY)
    requires |s.table| == s.levels && s.table[0].Some?
    requires forall k :: 0 <= k < s.levels ==> s.table[k] == SlotAfter(dims, s.axes, s.levels, |dims|, k)
    ensures Valid(s)
  {
    forall k | 0 <= k < s.levels && s.table[k].Some?
      ensures Shaped(s.table[k].value.dim, s.axes)
      ensures s.table[k].value.dim[s.axes.x][1] == s.table[k].value.dim[s.axes.y][1] >= 1
      ensures RoundLog2(s.table[k].value.dim[s.axes.x][1]) == k
    {
      SlotHoldsItsStep(dims, s.axes, s.levels, k);
    }
  }

  /** The native level in slot 0 is at full resolution: its step is 1. */
  lemma SlotZeroFullResolution(s: Source)
    requires Valid(s)
    ensures s.table[0].value.dim[s.axes.x][1] == 1
    ensures s.table[0].value.dim[s.axes.y][1] == 1
  {
    RoundLog2Zero(s.table[0].value.dim[s.axes.x][1]);
  }
}
