/**
 * app/services/visualization_service.py: the colour of a solubility value,
 * the scatter points built from the solvent records, and the common axis
 * range of the 3D plot. The sphere mesh (sines and cosines) is a parameter
 * given as its three coordinate grids; the Plotly trace and layout
 * dictionaries are not modelled.
 */
module Visualization {

  import opened Common
  import opened TableIndex

  // ------------------------------------------------- get_solubility_color

  /** A solubility value as the records carry it: a string, a number (an
      `int`, a `float` or a `bool`), or anything else (None, say). */
  datatype Solubility = Label(s: string) | Number(x: real) | Other

  const Blue: string := "#1976d2"
  const Orange: string := "#ff9800"
  const Red: string := "#d32f2f"
  const Gray: string := "#666666"

  /** `get_solubility_color`. */
  function SolubilityColor(v: Solubility): string
  {
    match v
    case Label(s) =>
      if s == "soluble" then Blue
      else if s == "partial" then Orange
      else if s == "insoluble" then Red
      else Gray
    case Number(x) =>
      if x >= 0.7 then Blue
      else if x >= 0.3 then Orange
      else Red
    case Other => Gray
  }

  /** A number is blue from 0.7 up, orange from 0.3 up to below 0.7, red
      below 0.3; the bands are disjoint and every number has one, so a
      number is never gray. */
  lemma NumberBands(x: real)
    ensures SolubilityColor(Number(x)) == Blue <==> x >= 0.7
    ensures SolubilityColor(Number(x)) == Orange <==> 0.3 <= x < 0.7
    ensures SolubilityColor(Number(x)) == Red <==> x < 0.3
    ensures SolubilityColor(Number(x)) != Gray
  {
  }

  /** The three labels have their colours and those alone; any other
      string, and any value that is neither a string nor a number, is
      gray. */
  lemma LabelColors(s: string)
    ensures SolubilityColor(Label(s)) == Blue <==> s == "soluble"
    ensures SolubilityColor(Label(s)) == Orange <==> s == "partial"
    ensures SolubilityColor(Label(s)) == Red <==> s == "insoluble"
    ensures SolubilityColor(Label(s)) == Gray <==> s != "soluble" && s != "partial" && s != "insoluble"
    ensures SolubilityColor(Other) == Gray
  {
  }

  // ------------------------------------------------ create_solvent_points

  /** A solvent record: each key is present (Some) or absent. */
  datatype SolventEntry = SolventEntry(
    deltaD: Option<real>,
    deltaP: Option<real>,
    deltaH: Option<real>,
    solubility: Option<Solubility>,
    solventName: Option<string>)

  /** The record has all four keys the points need. */
  predicate Plottable(e: SolventEntry)
  {
    e.deltaD.Some? && e.deltaP.Some? && e.deltaH.Some? && e.solubility.Some?
  }

  /** The six lists of the `points` dictionary. */
  datatype Points = Points(
    x: seq<real>,
    y: seq<real>,
    z: seq<real>,
    names: seq<string>,
    colors: seq<string>,
    solubility: seq<Solubility>)

  /** One record appended to each list. */
  function AddPoint(p: Points, e: SolventEntry): Points
    requires Plottable(e)
  {
    Points(p.x + [e.deltaD.value], p.y + [e.deltaP.value], p.z + [e.deltaH.value],
           p.names + [if e.solventName.Some? then e.solventName.value else "Unknown"],
           p.colors + [SolubilityColor(e.solubility.value)], p.solubility + [e.solubility.value])
  }

  /** The points of the records, in order, skipping those missing a key. */
  function PointsOf(entries: seq<SolventEntry>): Points
  {
    if |entries| == 0 then Points([], [], [], [], [], [])
    else
      var p := PointsOf(entries[..|entries| - 1]);
      var e := entries[|entries| - 1];
      if Plottable(e) then AddPoint(p, e) else p
  }

  /** Point `i` is the `i`-th plottable record. */
  predicate PointIs(p: Points, i: int, e: SolventEntry)
  {
    && Plottable(e) && 0 <= i < |p.x| && i < |p.y| && i < |p.z| && i < |p.names| && i < |p.colors| && i < |p.solubility|
    && p.x[i] == e.deltaD.value && p.y[i] == e.deltaP.value && p.z[i] == e.deltaH.value
    && p.names[i] == (if e.solventName.Some? then e.solventName.value else "Unknown")
    && p.solubility[i] == e.solubility.value && p.colors[i] == SolubilityColor(e.solubility.value)
  }

  /** The six lists have one entry per plottable record, in order; each
      point carries its record's coordinates, name ("Unknown" when
      absent), solubility and the colour of that solubility. */
  lemma {:induction false} PointsMeaning(entries: seq<SolventEntry>)
    ensures var p := PointsOf(entries); var n := Count(entries, Plottable);
      |p.x| == n && |p.y| == n && |p.z| == n && |p.names| == n && |p.colors| == n && |p.solubility| == n
    ensures forall i :: 0 <= i < |Where(entries, Plottable)| ==> PointIs(PointsOf(entries), i, Where(entries, Plottable)[i])
  {
    if |entries| > 0 {
      var init := entries[..|entries| - 1];
      var e := entries[|entries| - 1];
      PointsMeaning(init);
      assert entries == init + [e];
      var w := Where(init, Plottable);
      WhereMeaning(init, Plottable);
      if Plottable(e) {
        assert Where(entries, Plottable) == w + [e];
        forall i | 0 <= i < |w| + 1 ensures PointIs(PointsOf(entries), i, (w + [e])[i]) {
          if i < |w| {
            assert PointIs(PointsOf(init), i, w[i]);
          }
        }
      } else {
        assert Where(entries, Plottable) == w;
      }
    }
  }

  /** `create_solvent_points`: the loop over the records. */
  method CreateSolventPoints(entries: seq<SolventEntry>) returns (points: Points)
    ensures points == PointsOf(entries)
  {
    points := Points([], [], [], [], [], []);
    for i := 0 to |entries|
      invariant points == PointsOf(entries[..i])
    {
      assert entries[..i + 1][..i] == entries[..i];
      var e := entries[i];
      if !Plottable(e) {
        continue;
      }
      points := AddPoint(points, e);
    }
    assert entries[..|entries|] == entries;
  }

  // -------------------------------------------------------- axis ranges

  /** The rows of a grid, one after another. */
  function Flatten(grid: seq<seq<real>>): seq<real>
  {
    if |grid| == 0 then [] else Flatten(grid[..|grid| - 1]) + grid[|grid| - 1]
  }

  /** A value is in the flattened grid exactly when it is in some row. */
  lemma {:induction false} FlattenMeaning(grid: seq<seq<real>>)
    ensures forall v :: v in Flatten(grid) <==> exists r :: 0 <= r < |grid| && v in grid[r]
  {
    if |grid| > 0 {
      FlattenMeaning(grid[..|grid| - 1]);
    }
  }

  /** The `extend` loops: the sphere grid's rows, then the points. */
  method AllCoordinates(grid: seq<seq<real>>, points: seq<real>) returns (all: seq<real>)
    ensures all == Flatten(grid) + points
  {
    all := [];
    for r := 0 to |grid|
      invariant all == Flatten(grid[..r])
    {
      assert grid[..r + 1][..r] == grid[..r];
      all := all + grid[r];
    }
    assert grid[..|grid|] == grid;
    all := all + points;
  }

  /** `max` of a non-empty list. */
  function MaxOf(s: seq<real>): (m: real)
    requires |s| > 0
  {
    if |s| == 1 then s[0] else Max(MaxOf(s[..|s| - 1]), s[|s| - 1])
  }

  /** The maximum is one of the values and no value exceeds it. */
  lemma {:induction false} MaxOfMeaning(s: seq<real>)
    requires |s| > 0
    ensures MaxOf(s) in s
    ensures forall i :: 0 <= i < |s| ==> s[i] <= MaxOf(s)
  {
    if |s| > 1 {
      MaxOfMeaning(s[..|s| - 1]);
    }
  }

  /** The upper end of all three axis ranges: 25, or two above the largest
      coordinate on any axis, whichever is larger. None where `min` of an
      empty list raises, before the fallback of 25 could apply. */
  function AxisMax(allX: seq<real>, allY: seq<real>, allZ: seq<real>): Option<real>
  {
    if |allX| == 0 || |allY| == 0 || |allZ| == 0 then None
    else Some(Max(Max(Max(25.0, MaxOf(allX) + 2.0), Max(25.0, MaxOf(allY) + 2.0)), Max(25.0, MaxOf(allZ) + 2.0)))
  }

  /** The range is at least 25 and at least two above every coordinate,
      and it is the least such value: it is 25 or two above some
      coordinate. */
  lemma AxisMaxMeaning(allX: seq<real>, allY: seq<real>, allZ: seq<real>)
    requires |allX| > 0 && |allY| > 0 && |allZ| > 0
    ensures AxisMax(allX, allY, allZ).Some?
    ensures var m := AxisMax(allX, allY, allZ).value;
      && m >= 25.0
      && (forall v :: v in allX || v in allY || v in allZ ==> v + 2.0 <= m)
      && (m == 25.0 || exists v :: (v in allX || v in allY || v in allZ) && m == v + 2.0)
  {
    MaxOfMeaning(allX);
    MaxOfMeaning(allY);
    MaxOfMeaning(allZ);
  }

  /** The axis range of `generate_plotly_visualization`: every axis runs
      from 0 to the same maximum, computed over the sphere mesh and the
      solvent points. */
  method AxisRange(gridX: seq<seq<real>>, gridY: seq<seq<real>>, gridZ: seq<seq<real>>, entries: seq<SolventEntry>)
    returns (range: Option<(real, real)>)
    ensures var p := PointsOf(entries);
      range.Some? == AxisMax(Flatten(gridX) + p.x, Flatten(gridY) + p.y, Flatten(gridZ) + p.z).Some?
    ensures range.Some? ==>
      var p := PointsOf(entries);
      range.value == (0.0, AxisMax(Flatten(gridX) + p.x, Flatten(gridY) + p.y, Flatten(gridZ) + p.z).value)
  {
    var points := CreateSolventPoints(entries);
    var allX := AllCoordinates(gridX, points.x);
    var allY := AllCoordinates(gridY, points.y);
    var allZ := AllCoordinates(gridZ, points.z);
    if |allX| == 0 || |allY| == 0 || |allZ| == 0 {
      return None;
    }
    var axisMaxD := Max(25.0, MaxOf(allX) + 2.0);
    var axisMaxP := Max(25.0, MaxOf(allY) + 2.0);
    var axisMaxH := Max(25.0, MaxOf(allZ) + 2.0);
    var axisMax := Max(Max(axisMaxD, axisMaxP), axisMaxH);
    range := Some((0.0, axisMax));
  }
}
