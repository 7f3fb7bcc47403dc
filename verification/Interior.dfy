/**
When a local edit cannot move a region boundary (src/image23mf/invalidation.py:71-109), and what
that guarantees about connected regions (src/image23mf/engine/regions.py: regions are the connected
components of active pixels with one label).
*/
module Interior {

  type Plane = seq<nat>      // one byte per pixel, row-major
  type Grid = seq<seq<nat>>  // the same plane as rows

  datatype Pixel = Pixel(x: int, y: int)

  lemma RowBounds(width: nat, height: nat, y: nat)
    requires y < height
    ensures y * width + width <= width * height
  {
    assert (height - y - 1) * width >= 0;
    assert (height - y - 1) * width == height * width - y * width - width;
  }

  /** `numpy.reshape((height, width))`. */
  function Reshaped(plane: Plane, width: nat, height: nat): (grid: Grid)
    requires |plane| == width * height
    ensures |grid| == height && forall y :: 0 <= y < height ==> |grid[y]| == width
    ensures forall x, y :: 0 <= x < width && 0 <= y < height ==>
      y * width + x < |plane| && grid[y][x] == plane[y * width + x]
  {
    assert forall y: nat :: y < height ==> y * width + width <= width * height by {
      forall y: nat | y < height ensures y * width + width <= width * height { RowBounds(width, height, y); }
    }
    seq(height, y requires 0 <= y < height => plane[y * width .. y * width + width])
  }

  /** Labels and activity of one canvas. */
  datatype Canvas = Canvas(width: nat, height: nat, labels: Grid, active: Grid) {
    predicate Valid() {
      && |labels| == height && |active| == height
      && (forall y :: 0 <= y < height ==> |labels[y]| == width && |active[y]| == width)
    }

    predicate Contains(p: Pixel) {
      0 <= p.x < width && 0 <= p.y < height
    }

    function Label(p: Pixel): nat
      requires Valid() && Contains(p)
    {
      labels[p.y][p.x]
    }

    predicate Active(p: Pixel)
      requires Valid() && Contains(p)
    {
      active[p.y][p.x] > 0
    }
  }

  function Selected(mask: Grid, width: nat, height: nat): set<Pixel>
    requires |mask| == height && forall y :: 0 <= y < height ==> |mask[y]| == width
  {
    set x, y | 0 <= x < width && 0 <= y < height && mask[y][x] > 0 :: Pixel(x, y)
  }

  // Within one step in x and in y: the 3x3 block around a pixel.
  predicate Near(p: Pixel, q: Pixel) {
    -1 <= q.x - p.x <= 1 && -1 <= q.y - p.y <= 1
  }

  function Moved(p: Pixel, dx: int, dy: int): Pixel {
    Pixel(p.x + dx, p.y + dy)
  }

  function LabelsOn(c: Canvas, selected: set<Pixel>): set<nat>
    requires c.Valid() && forall p :: p in selected ==> c.Contains(p)
  {
    set p | p in selected :: c.Label(p)
  }

  predicate OffTheEdge(c: Canvas, p: Pixel) {
    p.x != 0 && p.y != 0 && p.x != c.width - 1 && p.y != c.height - 1
  }

  // One turn of the 3x3 loop: at this offset every neighbor is active and carries the target label.
  predicate BlockUniform(c: Canvas, selected: set<Pixel>, dx: int, dy: int, target: nat)
    requires c.Valid()
  {
    forall p :: p in selected ==>
      c.Contains(Moved(p, dx, dy)) && c.Active(Moved(p, dx, dy)) && c.Label(Moved(p, dx, dy)) == target
  }

  lemma OneElement(s: set<nat>)
    requires |s| == 1
    ensures exists x :: x in s && s == {x}
  {
    var x :| x in s;
    assert |s - {x}| == 0;
    assert s == {x} + (s - {x});
  }

  // `int(selected_labels[0])`: the one label there is.
  function Target(c: Canvas, selected: set<Pixel>): (target: nat)
    requires c.Valid() && (forall p :: p in selected ==> c.Contains(p)) && |LabelsOn(c, selected)| == 1
    ensures target in LabelsOn(c, selected)
  {
    OneElement(LabelsOn(c, selected));
    var target: nat :| target in LabelsOn(c, selected) && LabelsOn(c, selected) == {target};
    target
  }

  // The tests after the size checks, in the order of the code.
  predicate PassesTests(c: Canvas, selected: set<Pixel>)
    requires c.Valid() && forall p :: p in selected ==> c.Contains(p)
  {
    && selected != {}
    && (forall p :: p in selected ==> c.Active(p))
    && |LabelsOn(c, selected)| == 1
    && (forall p :: p in selected ==> OffTheEdge(c, p))
    && (forall dx, dy :: -1 <= dx <= 1 && -1 <= dy <= 1 ==> BlockUniform(c, selected, dx, dy, Target(c, selected)))
  }

  /** `is_strictly_interior_selection`. */
  predicate IsStrictlyInterior(mask: Plane, labels: Plane, active: Plane, width: nat, height: nat) {
    var size := width * height;
    if width < 3 || height < 3 || |mask| != size || |labels| != size || |active| != size then false
    else
      PassesTests(Canvas(width, height, Reshaped(labels, width, height), Reshaped(active, width, height)),
                  Selected(Reshaped(mask, width, height), width, height))
  }

  /** The promise: one label L such that the whole block around every selected pixel is active L. */
  ghost predicate InsideLabel(c: Canvas, selected: set<Pixel>, target: nat)
    requires c.Valid()
  {
    forall p, q :: p in selected && Near(p, q) ==> c.Contains(q) && c.Active(q) && c.Label(q) == target
  }

  lemma TestsMeanInside(c: Canvas, selected: set<Pixel>)
    requires c.Valid() && forall p :: p in selected ==> c.Contains(p)
    ensures PassesTests(c, selected) <==> selected != {} && exists target: nat :: InsideLabel(c, selected, target)
  {
    if PassesTests(c, selected) {
      var target := Target(c, selected);
      forall p, q | p in selected && Near(p, q) ensures c.Contains(q) && c.Active(q) && c.Label(q) == target {
        assert BlockUniform(c, selected, q.x - p.x, q.y - p.y, target);
        assert Moved(p, q.x - p.x, q.y - p.y) == q;
      }
      assert InsideLabel(c, selected, target);
    }
    if selected != {} && exists target: nat :: InsideLabel(c, selected, target) {
      var target: nat :| InsideLabel(c, selected, target);
      InsidePassesTests(c, selected, target);
    }
  }

  lemma InsidePassesTests(c: Canvas, selected: set<Pixel>, target: nat)
    requires c.Valid() && (forall p :: p in selected ==> c.Contains(p))
    requires selected != {} && InsideLabel(c, selected, target)
    ensures PassesTests(c, selected)
  {
    forall p | p in selected ensures c.Active(p) && c.Label(p) == target && OffTheEdge(c, p) {
      assert Near(p, p) && Near(p, Moved(p, -1, -1)) && Near(p, Moved(p, 1, 1));
    }
    var any :| any in selected;
    assert LabelsOn(c, selected) == {target} by {
      assert c.Label(any) == target;
    }
    forall dx, dy | -1 <= dx <= 1 && -1 <= dy <= 1 ensures BlockUniform(c, selected, dx, dy, target) {
      forall p | p in selected
        ensures c.Contains(Moved(p, dx, dy)) && c.Active(Moved(p, dx, dy)) && c.Label(Moved(p, dx, dy)) == target
      {
        assert Near(p, Moved(p, dx, dy));
      }
    }
  }

  /**
  For planes of the canvas's size, whatever that size is, the test accepts exactly the non-empty
  selections whose pixels all lie one full pixel inside one region's label.
  */
  lemma StrictlyInteriorExactly(mask: Plane, labels: Plane, active: Plane, width: nat, height: nat)
    requires |mask| == width * height && |labels| == width * height && |active| == width * height
    ensures IsStrictlyInterior(mask, labels, active, width, height) <==>
      var c := Canvas(width, height, Reshaped(labels, width, height), Reshaped(active, width, height));
      var selected := Selected(Reshaped(mask, width, height), width, height);
      selected != {} && exists target: nat :: InsideLabel(c, selected, target)
  {
    var c := Canvas(width, height, Reshaped(labels, width, height), Reshaped(active, width, height));
    var selected := Selected(Reshaped(mask, width, height), width, height);
    TestsMeanInside(c, selected);
    if (width < 3 || height < 3) && selected != {} {
      var p :| p in selected;
      forall target: nat ensures !InsideLabel(c, selected, target) {
        assert Near(p, Moved(p, -1, -1)) && Near(p, Moved(p, 1, 1));
      }
    }
  }

  // ----- what the test protects: connected regions

  /** The two adjacencies in use: edges for regions, edges and corners for the guard. */
  datatype Adjacency = Edges | EdgesAndCorners

  predicate Adjacent(adjacency: Adjacency, p: Pixel, q: Pixel) {
    && p != q && Near(p, q)
    && (adjacency.Edges? ==> p.x == q.x || p.y == q.y)
  }

  /** A walk through active pixels of one label. */
  ghost predicate Walk(c: Canvas, adjacency: Adjacency, path: seq<Pixel>)
    requires c.Valid()
  {
    && |path| > 0
    && (forall i :: 0 <= i < |path| ==> c.Contains(path[i]) && c.Active(path[i]))
    && (forall i :: 0 <= i < |path| ==> c.Label(path[i]) == c.Label(path[0]))
    && (forall i :: 0 < i < |path| ==> Adjacent(adjacency, path[i - 1], path[i]))
  }

  /** Two pixels are in one region. */
  ghost predicate Connected(c: Canvas, adjacency: Adjacency, p: Pixel, q: Pixel)
    requires c.Valid()
  {
    exists path :: Walk(c, adjacency, path) && path[0] == p && path[|path| - 1] == q
  }

  /** `after` differs from `before` only in the label of selected pixels: a fill or a color cleanup. */
  ghost predicate RelabelsWithin(before: Canvas, after: Canvas, selected: set<Pixel>)
    requires before.Valid() && after.Valid()
  {
    && before.width == after.width && before.height == after.height && before.active == after.active
    && forall p :: before.Contains(p) && p !in selected ==> after.Label(p) == before.Label(p)
  }

  // A walk that starts outside the selection on another label never steps into the selection:
  // the step before would be next to a selected pixel, so it would carry the target label.
  lemma {:induction false} WalkAvoidsSelection(before: Canvas, after: Canvas, selected: set<Pixel>, target: nat,
                                               adjacency: Adjacency, path: seq<Pixel>, i: nat)
    requires before.Valid() && after.Valid() && RelabelsWithin(before, after, selected)
    requires InsideLabel(before, selected, target)
    requires Walk(after, adjacency, path) && i < |path|
    requires path[0] !in selected && before.Label(path[0]) != target
    ensures path[i] !in selected
  {
    if i > 0 {
      WalkAvoidsSelection(before, after, selected, target, adjacency, path, i - 1);
      if path[i] in selected {
        assert Adjacent(adjacency, path[i - 1], path[i]) && Near(path[i], path[i - 1]);
        assert false;
      }
    }
  }

  lemma WalkSurvives(before: Canvas, after: Canvas, selected: set<Pixel>, target: nat, adjacency: Adjacency,
                     path: seq<Pixel>)
    requires before.Valid() && after.Valid() && RelabelsWithin(before, after, selected)
    requires InsideLabel(before, selected, target)
    requires |path| > 0 && before.Contains(path[0]) && path[0] !in selected && before.Label(path[0]) != target
    ensures Walk(before, adjacency, path) <==> Walk(after, adjacency, path)
  {
    if Walk(after, adjacency, path) {
      forall i | 0 <= i < |path| ensures path[i] !in selected {
        WalkAvoidsSelection(before, after, selected, target, adjacency, path, i);
      }
    }
    if Walk(before, adjacency, path) {
      forall i | 0 <= i < |path| ensures path[i] !in selected {
        assert Near(path[i], path[i]);
      }
    }
  }

  /**
  Relabelling within a strictly interior selection leaves the regions of every other label as
  they were: an unselected pixel that does not carry the selection's label is connected to the
  same pixels before and after, under either adjacency.
  */
  lemma InteriorEditKeepsOtherRegions(before: Canvas, after: Canvas, selected: set<Pixel>, target: nat,
                                      adjacency: Adjacency, p: Pixel, q: Pixel)
    requires before.Valid() && after.Valid() && RelabelsWithin(before, after, selected)
    requires InsideLabel(before, selected, target)
    requires before.Contains(p) && p !in selected && before.Label(p) != target
    ensures Connected(before, adjacency, p, q) <==> Connected(after, adjacency, p, q)
  {
    if Connected(before, adjacency, p, q) {
      var path :| Walk(before, adjacency, path) && path[0] == p && path[|path| - 1] == q;
      WalkSurvives(before, after, selected, target, adjacency, path);
    }
    if Connected(after, adjacency, p, q) {
      var path :| Walk(after, adjacency, path) && path[0] == p && path[|path| - 1] == q;
      WalkSurvives(before, after, selected, target, adjacency, path);
    }
  }

  lemma {:induction false} EditedWalkStaysSelected(before: Canvas, after: Canvas, selected: set<Pixel>, target: nat,
                                                   adjacency: Adjacency, path: seq<Pixel>, i: nat)
    requires before.Valid() && after.Valid() && RelabelsWithin(before, after, selected)
    requires InsideLabel(before, selected, target)
    requires Walk(after, adjacency, path) && i < |path|
    requires path[0] in selected && after.Label(path[0]) != target
    ensures path[i] in selected
  {
    if i > 0 {
      EditedWalkStaysSelected(before, after, selected, target, adjacency, path, i - 1);
      assert Adjacent(adjacency, path[i - 1], path[i]) && Near(path[i - 1], path[i]);
      assert before.Label(path[i]) == target;
      assert after.Label(path[i]) == after.Label(path[0]);
    }
  }

  /** A recolored pixel joins no region that was there: whatever it is connected to was selected too. */
  lemma EditedPixelsFormTheirOwnRegions(before: Canvas, after: Canvas, selected: set<Pixel>, target: nat,
                                        adjacency: Adjacency, p: Pixel, q: Pixel)
    requires before.Valid() && after.Valid() && RelabelsWithin(before, after, selected)
    requires InsideLabel(before, selected, target)
    requires p in selected && after.Contains(p) && after.Label(p) != target && Connected(after, adjacency, p, q)
    ensures q in selected
  {
    var path :| Walk(after, adjacency, path) && path[0] == p && path[|path| - 1] == q;
    EditedWalkStaysSelected(before, after, selected, target, adjacency, path, |path| - 1);
  }

  /** The region that was edited can only fall apart: what is still connected on its label was connected before. */
  lemma InteriorEditOnlySplitsItsRegion(before: Canvas, after: Canvas, selected: set<Pixel>, target: nat,
                                        adjacency: Adjacency, p: Pixel, q: Pixel)
    requires before.Valid() && after.Valid() && RelabelsWithin(before, after, selected)
    requires InsideLabel(before, selected, target)
    requires after.Contains(p) && after.Label(p) == target && before.Label(p) == target
    requires Connected(after, adjacency, p, q)
    ensures Connected(before, adjacency, p, q)
  {
    var path :| Walk(after, adjacency, path) && path[0] == p && path[|path| - 1] == q;
    forall i | 0 <= i < |path| ensures before.Label(path[i]) == target {
      assert after.Label(path[i]) == after.Label(path[0]);
      assert Near(path[i], path[i]);
    }
    assert Walk(before, adjacency, path);
  }

  // ----- when the edited region stays whole

  lemma WalksJoin(c: Canvas, adjacency: Adjacency, p: Pixel, q: Pixel, r: Pixel)
    requires c.Valid() && Connected(c, adjacency, p, q) && Connected(c, adjacency, q, r)
    ensures Connected(c, adjacency, p, r)
  {
    var first :| Walk(c, adjacency, first) && first[0] == p && first[|first| - 1] == q;
    var second :| Walk(c, adjacency, second) && second[0] == q && second[|second| - 1] == r;
    var path := first + second[1..];
    assert path[|path| - 1] == r;
    assert Walk(c, adjacency, path);
  }

  lemma OneStep(c: Canvas, adjacency: Adjacency, p: Pixel, q: Pixel)
    requires c.Valid() && c.Contains(p) && c.Contains(q) && c.Active(p) && c.Active(q)
    requires c.Label(p) == c.Label(q) && Adjacent(adjacency, p, q)
    ensures Connected(c, adjacency, p, q)
  {
    assert Walk(c, adjacency, [p, q]);
  }

  lemma PartOfAWalk(c: Canvas, adjacency: Adjacency, path: seq<Pixel>, i: nat, j: nat)
    requires c.Valid() && Walk(c, adjacency, path) && i <= j < |path|
    ensures Connected(c, adjacency, path[i], path[j])
  {
    var part := path[i..j + 1];
    assert Walk(c, adjacency, part) && part[0] == path[i] && part[|part| - 1] == path[j];
  }

  predicate On(c: Canvas, target: nat, p: Pixel)
    requires c.Valid()
  {
    c.Contains(p) && c.Active(p) && c.Label(p) == target
  }

  /** A pixel that keeps the label, next to one that loses it. */
  ghost predicate OnRim(before: Canvas, after: Canvas, target: nat, p: Pixel)
    requires before.Valid() && after.Valid()
  {
    On(before, target, p) && On(after, target, p)
    && exists q :: Near(p, q) && On(before, target, q) && !On(after, target, q)
  }

  ghost predicate StaysConnected(before: Canvas, after: Canvas, adjacency: Adjacency, p: Pixel, q: Pixel)
    requires before.Valid() && after.Valid()
  {
    Connected(before, adjacency, p, q) ==> Connected(after, adjacency, p, q)
  }

  /** What is left of every region of the label is still one region. */
  ghost predicate RegionsStayWhole(before: Canvas, after: Canvas, target: nat, adjacency: Adjacency)
    requires before.Valid() && after.Valid()
  {
    forall p, q :: On(before, target, p) && On(after, target, p) && On(before, target, q) && On(after, target, q) ==>
      StaysConnected(before, after, adjacency, p, q)
  }

  /** The same of the rim alone. */
  ghost predicate RimStaysWhole(before: Canvas, after: Canvas, target: nat, adjacency: Adjacency)
    requires before.Valid() && after.Valid()
  {
    forall p, q :: OnRim(before, after, target, p) && OnRim(before, after, target, q) ==>
      StaysConnected(before, after, adjacency, p, q)
  }

  // The last pixel of a walk that kept the label before the walk ran into recolored pixels.
  ghost predicate Entry(before: Canvas, after: Canvas, target: nat, adjacency: Adjacency, path: seq<Pixel>, i: nat,
                        j: nat)
    requires before.Valid() && after.Valid()
  {
    j < i < |path| && OnRim(before, after, target, path[j]) && Connected(after, adjacency, path[0], path[j])
  }

  lemma StandsStill(c: Canvas, target: nat, adjacency: Adjacency, p: Pixel)
    requires c.Valid() && On(c, target, p)
    ensures Connected(c, adjacency, p, p)
  {
    assert Walk(c, adjacency, [p]);
  }

  lemma WalkGoesOn(after: Canvas, target: nat, adjacency: Adjacency, start: Pixel, last: Pixel, next: Pixel)
    requires after.Valid() && Connected(after, adjacency, start, last)
    requires On(after, target, last) && On(after, target, next) && Adjacent(adjacency, last, next)
    ensures Connected(after, adjacency, start, next)
  {
    OneStep(after, adjacency, last, next);
    WalksJoin(after, adjacency, start, last, next);
  }

  lemma WalkComesOut(before: Canvas, after: Canvas, target: nat, adjacency: Adjacency, path: seq<Pixel>, i: nat, j: nat)
    requires before.Valid() && after.Valid() && Walk(before, adjacency, path) && j < i < |path|
    requires OnRim(before, after, target, path[i])
    requires StaysConnected(before, after, adjacency, path[j], path[i])
    requires Connected(after, adjacency, path[0], path[j])
    ensures Connected(after, adjacency, path[0], path[i])
  {
    PartOfAWalk(before, adjacency, path, j, i);
    WalksJoin(after, adjacency, path[0], path[j], path[i]);
  }

  // Where the walk is after its i-th pixel.
  ghost predicate Reached(before: Canvas, after: Canvas, target: nat, adjacency: Adjacency, path: seq<Pixel>, i: nat,
                          j: nat)
    requires before.Valid() && after.Valid() && i < |path|
  {
    && On(before, target, path[i])
    && if On(after, target, path[i]) then Connected(after, adjacency, path[0], path[i])
       else Entry(before, after, target, adjacency, path, i, j)
  }

  lemma WalkGoesOneFurther(before: Canvas, after: Canvas, target: nat, adjacency: Adjacency, path: seq<Pixel>, i: nat,
                           k: nat) returns (j: nat)
    requires before.Valid() && after.Valid() && RimStaysWhole(before, after, target, adjacency)
    requires Walk(before, adjacency, path) && 0 < i < |path|
    requires Reached(before, after, target, adjacency, path, i - 1, k)
    ensures Reached(before, after, target, adjacency, path, i, j)
  {
    var last, next := path[i - 1], path[i];
    assert Adjacent(adjacency, last, next) && Near(last, next) && Near(next, last);
    assert On(before, target, next);
    j := k;
    if On(after, target, last) && On(after, target, next) {
      WalkGoesOn(after, target, adjacency, path[0], last, next);
    } else if On(after, target, last) {
      j := i - 1;
      assert OnRim(before, after, target, last);
    } else if On(after, target, next) {
      assert OnRim(before, after, target, next);
      WalkComesOut(before, after, target, adjacency, path, i, k);
    }
  }

  lemma WalkGoesAround(before: Canvas, after: Canvas, target: nat, adjacency: Adjacency, path: seq<Pixel>)
    requires before.Valid() && after.Valid() && RimStaysWhole(before, after, target, adjacency)
    requires Walk(before, adjacency, path) && On(before, target, path[0]) && On(after, target, path[0])
    ensures On(after, target, path[|path| - 1]) ==> Connected(after, adjacency, path[0], path[|path| - 1])
  {
    StandsStill(after, target, adjacency, path[0]);
    var j := 0;
    for i := 1 to |path|
      invariant Reached(before, after, target, adjacency, path, i - 1, j)
    {
      j := WalkGoesOneFurther(before, after, target, adjacency, path, i, j);
    }
  }

  /**
  The edited regions stay whole exactly when their rim does: two unrecolored pixels next to recolored
  ones that were connected still are. Nothing farther away need be looked at.
  */
  lemma EditedRegionStaysWholeExactly(before: Canvas, after: Canvas, target: nat, adjacency: Adjacency)
    requires before.Valid() && after.Valid()
    ensures RegionsStayWhole(before, after, target, adjacency) <==> RimStaysWhole(before, after, target, adjacency)
  {
    if RimStaysWhole(before, after, target, adjacency) {
      forall p, q | On(before, target, p) && On(after, target, p) && On(before, target, q) && On(after, target, q)
        ensures StaysConnected(before, after, adjacency, p, q)
      {
        if Connected(before, adjacency, p, q) {
          var path :| Walk(before, adjacency, path) && path[0] == p && path[|path| - 1] == q;
          WalkGoesAround(before, after, target, adjacency, path);
        }
      }
    }
  }

  // ----- what the test does not protect: the selected region itself

  function Filled(width: nat, height: nat, value: nat): (grid: Grid)
    ensures |grid| == height && forall y :: 0 <= y < height ==> |grid[y]| == width
    ensures forall x, y :: 0 <= x < width && 0 <= y < height ==> grid[y][x] == value
  {
    seq(height, y => seq(width, x => value))
  }

  // The eight pixels around (3, 3).
  predicate OnRing(x: int, y: int) {
    2 <= x <= 4 && 2 <= y <= 4 && !(x == 3 && y == 3)
  }

  function RingGrid(): (grid: Grid)
    ensures |grid| == 7 && forall y :: 0 <= y < 7 ==> |grid[y]| == 7
    ensures forall x, y :: 0 <= x < 7 && 0 <= y < 7 ==> grid[y][x] == if OnRing(x, y) then 1 else 0
  {
    seq(7, y => seq(7, x => if OnRing(x, y) then 1 else 0))
  }

  lemma NeighboursOfTheCenterDiffer(after: Canvas, q: Pixel)
    requires after == Canvas(7, 7, RingGrid(), Filled(7, 7, 1))
    requires Adjacent(EdgesAndCorners, Pixel(3, 3), q) && after.Contains(q)
    ensures after.Label(q) != after.Label(Pixel(3, 3))
  {
  }

  lemma FirstStep(canvas: Canvas, adjacency: Adjacency, path: seq<Pixel>)
    requires canvas.Valid() && Walk(canvas, adjacency, path) && |path| > 1
    ensures canvas.Contains(path[0]) && canvas.Contains(path[1])
    ensures Adjacent(adjacency, path[0], path[1]) && canvas.Label(path[1]) == canvas.Label(path[0])
  {
  }

  lemma CenterIsJoinedBefore()
    ensures Connected(Canvas(7, 7, Filled(7, 7, 0), Filled(7, 7, 1)), Edges, Pixel(3, 3), Pixel(0, 3))
  {
    var before := Canvas(7, 7, Filled(7, 7, 0), Filled(7, 7, 1));
    assert Walk(before, Edges, [Pixel(3, 3), Pixel(2, 3), Pixel(1, 3), Pixel(0, 3)]);
  }

  lemma CenterIsCutOffAfter()
    ensures !Connected(Canvas(7, 7, RingGrid(), Filled(7, 7, 1)), EdgesAndCorners, Pixel(3, 3), Pixel(0, 3))
  {
    var after := Canvas(7, 7, RingGrid(), Filled(7, 7, 1));
    forall q | Adjacent(EdgesAndCorners, Pixel(3, 3), q) && after.Contains(q)
      ensures after.Label(q) != after.Label(Pixel(3, 3))
    {
      NeighboursOfTheCenterDiffer(after, q);
    }
    if Connected(after, EdgesAndCorners, Pixel(3, 3), Pixel(0, 3)) {
      var walk :| Walk(after, EdgesAndCorners, walk) && walk[0] == Pixel(3, 3) && walk[|walk| - 1] == Pixel(0, 3);
      if |walk| > 1 { FirstStep(after, EdgesAndCorners, walk); }
      assert false;
    }
  }

  lemma RingIsInside()
    ensures var before := Canvas(7, 7, Filled(7, 7, 0), Filled(7, 7, 1));
      var selected := Selected(RingGrid(), 7, 7);
      selected != {} && InsideLabel(before, selected, 0)
  {
    assert OnRing(2, 2) && Pixel(2, 2) in Selected(RingGrid(), 7, 7);
  }

  /**
  The selected region itself may split. Filling a closed ring inside a 7x7 region passes the test
  and cuts the pixel in the middle off from the corner it was connected to.
  */
  lemma InteriorEditMaySplitItsOwnRegion()
    ensures var before := Canvas(7, 7, Filled(7, 7, 0), Filled(7, 7, 1));
      var after := Canvas(7, 7, RingGrid(), Filled(7, 7, 1));
      var selected := Selected(RingGrid(), 7, 7);
      && selected != {} && InsideLabel(before, selected, 0) && RelabelsWithin(before, after, selected)
      && Connected(before, Edges, Pixel(3, 3), Pixel(0, 3))
      && !Connected(after, EdgesAndCorners, Pixel(3, 3), Pixel(0, 3))
  {
    RingIsInside();
    CenterIsJoinedBefore();
    CenterIsCutOffAfter();
  }
}
