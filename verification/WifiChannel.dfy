/** The spatial radio index of src/devices/wifi/ovnis-wifi-channel.cc.

A grid of square cells holds the radios.  `Send` visits the 3x3 block of cells around the
sender instead of scanning every radio.  The class below keeps the mutable cells, radios and
grid of the source; its invariant says that every member of the radio list sits in exactly one
cell, the one its last recorded position belongs to.
*/
module WifiChannel {
  import opened Collections

  datatype Point = Point(x: real, y: real)

  /** The source converts a double with `(int)`, which truncates toward zero. */
  function Truncate(r: real): int {
    if r >= 0.0 then r.Floor else -((-r).Floor)
  }

  function CellIndex(x: real, range: real): int
    requires range > 0.0
  {
    Truncate(x / range)
  }

  function Ceiling(r: real): int {
    -((-r).Floor)
  }

  function Max(a: int, b: int): int { if a < b then b else a }

  function Min(a: int, b: int): int { if a < b then a else b }

  function SquaredDistance(p: Point, q: Point): real {
    (p.x - q.x) * (p.x - q.x) + (p.y - q.y) * (p.y - q.y)
  }

  // ---------------------------------------------------------------- geometry

  lemma DivideOrder(a: real, b: real, r: real)
    requires r > 0.0 && a <= b
    ensures a / r <= b / r
  {
  }

  lemma QuotientUnique(x: real, q: real, r: real)
    requires r > 0.0 && x == q * r
    ensures x / r == q
  {
  }

  lemma ShiftQuotient(a: real, k: real, r: real)
    requires r > 0.0
    ensures (a + k * r) / r == a / r + k
  {
    var q := a / r;
    assert a + k * r == q * r + k * r == (q + k) * r;
    QuotientUnique(a + k * r, q + k, r);
  }

  /** Coordinates at most one range apart fall in the same or in neighbouring columns. */
  lemma NearIndices(a: real, b: real, range: real)
    requires range > 0.0
    requires -range <= a - b <= range
    ensures -1 <= CellIndex(a, range) - CellIndex(b, range) <= 1
  {
    DivideOrder(a, b + 1.0 * range, range);
    DivideOrder(b, a + 1.0 * range, range);
    ShiftQuotient(a, 1.0, range);
    ShiftQuotient(b, 1.0, range);
  }

  /** Coordinates two ranges apart fall at least two columns apart, except that truncation merges
      (-range, range) into column 0: from below zero the other one has to be two ranges above zero. */
  lemma FarIndicesIff(a: real, b: real, range: real)
    requires range > 0.0 && -range < a && 2.0 * range <= b - a
    ensures CellIndex(b, range) - CellIndex(a, range) >= 2 <==> 0.0 <= a || 2.0 * range <= b
  {
    if 0.0 <= a {
      DivideOrder(a + 2.0 * range, b, range);
      ShiftQuotient(a, 2.0, range);
      DivideOrder(0.0, a, range);
    } else {
      QuotientSides(a, -1.0, range);
      QuotientSides(a, 0.0, range);
      QuotientSides(b, 2.0, range);
      QuotientSides(b, 0.0, range);
    }
  }

  lemma QuotientSides(x: real, k: real, range: real)
    requires range > 0.0
    ensures x / range < k <==> x < k * range
    ensures k < x / range <==> k * range < x
  {
    var q := x / range;
    assert q * range == x;
    OrderTimes(q, k, range);
    OrderTimes(k, q, range);
  }

  lemma OrderTimes(a: real, b: real, r: real)
    requires r > 0.0
    ensures a < b <==> a * r < b * r
  {
    if a < b { assert (b - a) * r > 0.0; }
    if b < a { assert (a - b) * r > 0.0; }
  }

  /** Two ranges apart, and not across the merged strip below zero. */
  predicate FarApart(a: real, b: real, range: real) {
    || (2.0 * range <= b - a && (0.0 <= a || 2.0 * range <= b))
    || (2.0 * range <= a - b && (0.0 <= b || 2.0 * range <= a))
  }

  /** Columns of coordinates two ranges apart are neighbours exactly when they are not far apart. */
  lemma AxisGap(a: real, b: real, range: real)
    requires range > 0.0 && -range < a && -range < b
    ensures FarApart(a, b, range) ==> !(-1 <= CellIndex(a, range) - CellIndex(b, range) <= 1)
    ensures !(-2.0 * range < a - b < 2.0 * range) ==>
              (FarApart(a, b, range) <==> !(-1 <= CellIndex(a, range) - CellIndex(b, range) <= 1))
  {
    hide CellIndex;
    if 2.0 * range <= a - b {
      IndicesAscend(b, a, range);
      FarIndicesIff(b, a, range);
    }
    if 2.0 * range <= b - a {
      IndicesAscend(a, b, range);
      FarIndicesIff(a, b, range);
    }
  }

  lemma IndicesAscend(a: real, b: real, range: real)
    requires range > 0.0 && a <= b
    ensures CellIndex(a, range) <= CellIndex(b, range)
  {
    DivideOrder(a, b, range);
  }

  lemma SquareGrows(d: real, r: real)
    requires 0.0 <= r < d
    ensures r * r < d * d
  {
    OrderTimes(0.0, d - r, d + r);
    assert (d - r) * (d + r) == d * d - r * r;
  }

  lemma SquareOrder(d: real, r: real)
    requires r >= 0.0 && d * d <= r * r
    ensures -r <= d <= r
  {
    if d > r { SquareGrows(d, r); }
    if -d > r { SquareGrows(-d, r); }
  }

  lemma WithinRangeBoundsAxes(p: Point, q: Point, range: real)
    requires range > 0.0
    requires SquaredDistance(p, q) <= range * range
    ensures -range <= p.x - q.x <= range && -range <= p.y - q.y <= range
  {
    SquareOrder(p.x - q.x, range);
    SquareOrder(p.y - q.y, range);
  }

  lemma PositiveCeiling(x: real, r: real)
    requires x > 0.0 && r > 0.0
    ensures Ceiling(x / r) >= 1
  {
  }

  /** As many cells as cover a length, and no more. */
  lemma CeilingIff(x: real, r: real, n: int)
    requires r > 0.0
    ensures Ceiling(x / r) <= n <==> x <= n as real * r
    ensures n <= Ceiling(x / r) <==> (n - 1) as real * r < x
  {
    QuotientSides(x, n as real, r);
    QuotientSides(x, (n - 1) as real, r);
    var q := x / r;
    assert q <= n as real <==> -(n as real) <= -q;
  }

  /** A coordinate's index is the number of whole cells below it. */
  lemma IndexBelow(x: real, r: real, length: real)
    requires r > 0.0 && -r < x < length && 0.0 < length
    ensures 0 <= CellIndex(x, r) && CellIndex(x, r) as real * r < length
  {
    LegalIndexIff(x, r, 1);
    var k := CellIndex(x, r);
    if x >= 0.0 {
      DivideOrder(0.0, x, r);
      QuotientSides(x, k as real, r);
    } else {
      QuotientSides(x, -1.0, r);
      QuotientSides(x, 0.0, r);
    }
  }

  lemma IndexNotNegative(x: real, r: real)
    requires r > 0.0 && -r < x
    ensures 0 <= CellIndex(x, r)
  {
    QuotientSides(x, -1.0, r);
  }

  /** Fewer whole cells than cover the length. */
  lemma IndexCovered(k: int, r: real, length: real, n: int)
    requires r > 0.0 && k as real * r < length <= n as real * r
    ensures k < n
  {
    OrderTimes(k as real, n as real, r);
  }

  /** The indices a position may legally have are exactly those of the strip (-r, n*r). */
  lemma LegalIndexIff(x: real, range: real, n: int)
    requires range > 0.0 && n >= 1
    ensures 0 <= CellIndex(x, range) < n <==> -range < x < n as real * range
  {
    var q := x / range;
    QuotientSides(x, -1.0, range);
    QuotientSides(x, n as real, range);
    if q < 0.0 {
      assert -1.0 < q <==> (-q).Floor == 0;
    } else {
      assert q < n as real <==> q.Floor < n;
    }
  }

  /** The legal positions for a new area: those in cells that begin inside it. */
  predicate InsideArea(p: Point, x: real, y: real, r: real)
    requires r > 0.0
  {
    && -r < p.x && CellIndex(p.x, r) as real * r < x
    && -r < p.y && CellIndex(p.y, r) as real * r < y
  }

  lemma PointsAreInside(p: Point, x: real, y: real, r: real)
    requires r > 0.0 && x > 0.0 && y > 0.0 && -r < p.x < x && -r < p.y < y
    ensures InsideArea(p, x, y, r)
  {
    IndexBelow(p.x, r, x);
    IndexBelow(p.y, r, y);
  }

  lemma InsideIndices(p: Point, x: real, y: real, r: real)
    requires r > 0.0 && InsideArea(p, x, y, r)
    ensures 0 <= CellIndex(p.x, r) < Ceiling(x / r) && 0 <= CellIndex(p.y, r) < Ceiling(y / r)
  {
    hide CellIndex, Ceiling;
    IndexNotNegative(p.x, r);
    IndexNotNegative(p.y, r);
    CeilingIff(x, r, CellIndex(p.x, r) + 1);
    CeilingIff(y, r, CellIndex(p.y, r) + 1);
  }

  // ---------------------------------------------------------------- objects

  class ChannelCell {
    var i: int
    var j: int
    var content: seq<OvnisWifiPhy>

    constructor (i: int, j: int)
      ensures this.i == i && this.j == j && content == []
    {
      this.i, this.j, content := i, j, [];
    }
  }

  /** A radio, as the channel sees it.  `position` stands for what the mobility model reports;
      the ghost `placed` remembers the position used by the last `UpdatePhy`. */
  class OvnisWifiPhy {
    var cell: ChannelCell?
    var channelNumber: int
    var position: Point
    ghost var placed: Point

    constructor (position: Point, channelNumber: int)
      ensures this.cell == null && this.position == position && this.channelNumber == channelNumber
    {
      this.cell, this.position, this.channelNumber, placed := null, position, channelNumber, position;
    }

    ghost function CurrentCell(): set<ChannelCell>
      reads this
    {
      if cell == null then {} else {cell}
    }
  }

  /** The cell carries the number of its row, stores nothing twice, and everything in it is a member
      whose `cell` points back. */
  ghost predicate CellInOrder(c: ChannelCell, a: int, members: seq<OvnisWifiPhy>)
    reads c, members`cell
  {
    && c.i == a
    && NoDuplicates(c.content)
    && forall q :: q in c.content ==> q in members && q.cell == c
  }

  class OvnisWifiChannel {
    var areaX: real
    var areaY: real
    var range: real
    var cells: seq<seq<ChannelCell>>
    var phyList: seq<OvnisWifiPhy>

    ghost function CellSet(): set<ChannelCell>
      reads this`cells
    {
      set a, b | 0 <= a < |cells| && 0 <= b < |cells[a]| :: cells[a][b]
    }

    ghost predicate CellConsistent(a: int, b: int)
      requires 0 <= a < |cells| && 0 <= b < |cells[a]|
      reads this`cells, this`phyList, cells[a][b], phyList`cell
    {
      CellInOrder(cells[a][b], a, phyList)
    }

    /** Every cell carries the number of its column. */
    ghost predicate ColumnsNumbered()
      reads this`cells, CellSet()`j
    {
      forall a, b :: 0 <= a < |cells| && 0 <= b < |cells[a]| ==> cells[a][b].j == b
    }

    /** No cell carries a number beyond its column, which is as much as regridding can promise. */
    ghost predicate NumbersLow()
      reads this`cells, CellSet()`j
    {
      forall a, b :: 0 <= a < |cells| && 0 <= b < |cells[a]| ==> 0 <= cells[a][b].j <= b
    }

    /** No row lists a cell twice. */
    ghost predicate Separate()
      reads this`cells
    {
      forall a, b, c :: 0 <= a < |cells| && 0 <= b < c < |cells[a]| ==> cells[a][b] != cells[a][c]
    }

    ghost predicate Consistent()
      reads this`cells, this`phyList, this`range, CellSet(), phyList`cell
    {
      && range > 0.0
      && NoDuplicates(phyList)
      && forall a, b :: 0 <= a < |cells| && 0 <= b < |cells[a]| ==> CellConsistent(a, b)
    }

    ghost predicate HasCell(p: Point)
      requires range > 0.0
      reads this`cells, this`range
    {
      && 0 <= CellIndex(p.x, range) < |cells|
      && 0 <= CellIndex(p.y, range) < |cells[CellIndex(p.x, range)]|
    }

    ghost function CellAt(p: Point): ChannelCell
      requires range > 0.0 && HasCell(p)
      reads this`cells, this`range
    {
      cells[CellIndex(p.x, range)][CellIndex(p.y, range)]
    }

    /** The radio is stored in the cell it points to. */
    ghost predicate Located(p: OvnisWifiPhy)
      reads p`cell, p.cell
    {
      p.cell != null && p in p.cell.content
    }

    /** The radio is stored in the cell its last recorded position belongs to. */
    ghost predicate Home(p: OvnisWifiPhy)
      requires range > 0.0
      reads this`cells, this`range, p`cell, p`placed, p.cell
    {
      HasCell(p.placed) && p.cell == CellAt(p.placed) && Located(p)
    }

    ghost predicate Rectangular()
      reads this`cells
    {
      && |cells| >= 1 && |cells[0]| >= 1
      && forall a :: 0 <= a < |cells| ==> |cells[a]| == |cells[0]|
    }

    /** Every member is stored in its home cell and nowhere else, whatever numbers the cells carry. */
    ghost predicate Stored()
      reads this`cells, this`phyList, this`range
      reads CellSet(), phyList`cell, phyList`placed, set p | p in phyList :: p.cell
    {
      && Consistent() && Rectangular() && Separate() && NumbersLow()
      && forall p :: p in phyList ==> Home(p)
    }

    /** Moreover the numbers are right, which `Send` relies on. */
    ghost predicate Valid()
      reads this`cells, this`phyList, this`range
      reads CellSet(), phyList`cell, phyList`placed, set p | p in phyList :: p.cell
    {
      Stored() && ColumnsNumbered()
    }

    /** The grid has exactly the cells the current area and range call for. */
    ghost predicate ExactGrid()
      reads this
    {
      && Rectangular() && range > 0.0 && areaX > 0.0 && areaY > 0.0
      && (|cells| - 1) as real * range < areaX <= |cells| as real * range
      && (|cells[0]| - 1) as real * range < areaY <= |cells[0]| as real * range
    }

    constructor ()
      ensures Valid() && ExactGrid() && phyList == []
      ensures areaX == areaY == range == 1.0
      ensures fresh(CellSet())
    {
      areaX, areaY, range := 1.0, 1.0, 1.0;
      var c := new ChannelCell(0, 0);
      cells, phyList := [[c]], [];
      new;
      assert CellSet() == {c} by { assert cells[0][0] == c; }
    }

    /** `std::find` and `erase` on the cell the radio points to. */
    method LeaveCell(phy: OvnisWifiPhy)
      requires phy.cell != null
      modifies phy.cell`content
      ensures phy.cell.content == Erase(old(phy.cell.content), phy)
      ensures NoDuplicates(old(phy.cell.content)) ==> NoDuplicates(phy.cell.content) && phy !in phy.cell.content
      ensures forall q :: q != phy ==> (q in phy.cell.content <==> q in old(phy.cell.content))
    {
      EraseKeepsOthers(phy.cell.content, phy);
      if NoDuplicates(phy.cell.content) { EraseFromDistinct(phy.cell.content, phy); }
      phy.cell.content := Erase(phy.cell.content, phy);
    }

    method UpdatePhy(phy: OvnisWifiPhy)
      requires Consistent() && phy in phyList && HasCell(phy.position)
      modifies phy`cell, phy`placed, phy.CurrentCell()`content, CellAt(phy.position)`content
      ensures Consistent()
      ensures phy.placed == phy.position && phy.cell == CellAt(phy.placed)
      ensures Located(phy) <==> old(phy.cell) != CellAt(phy.position) || old(Located(phy))
      ensures forall p :: p in phyList && p != phy && old(Located(p)) ==> Located(p)
    {
      hide Erase;
      var nx := CellIndex(phy.position.x, range);
      var ny := CellIndex(phy.position.y, range);
      var home := cells[nx][ny];
      assert CellConsistent(nx, ny);
      if phy.cell == null {
        home.content := home.content + [phy];
        phy.cell := home;
      } else if phy.cell != home {
        LeaveCell(phy);
        home.content := home.content + [phy];
        phy.cell := home;
      }
      phy.placed := phy.position;
      forall a, b | 0 <= a < |cells| && 0 <= b < |cells[a]| ensures CellConsistent(a, b) {
        assert old(CellConsistent(a, b));
      }
    }

    /** `updatePhy` as it is called between steps: it keeps every member in its home cell. */
    method MovePhy(phy: OvnisWifiPhy)
      requires Stored() && phy in phyList && HasCell(phy.position)
      modifies phy`cell, phy`placed, CellSet()`content
      ensures Stored() && phy.placed == phy.position
      ensures Valid() <==> old(Valid())
      ensures phy.cell in CellSet()
    {
      assert Home(phy) && phy.cell in CellSet();
      assert CellAt(phy.position) in CellSet();
      UpdatePhy(phy);
      forall p | p in phyList ensures Home(p) {
        assert old(Home(p));
      }
    }

    /** Adding a radio stores it exactly when its `cell` does not already name the cell it belongs
        to, which happens when the radio was removed and is added again. */
    method Add(phy: OvnisWifiPhy)
      requires Stored() && phy !in phyList && HasCell(phy.position)
      modifies this`phyList, phy`cell, phy`placed, phy.CurrentCell()`content, CellAt(phy.position)`content
      ensures phyList == old(phyList) + [phy]
      ensures phy.placed == phy.position && phy.cell == CellAt(phy.placed)
      ensures Located(phy) <==> old(phy.cell) != CellAt(phy.position)
      ensures Stored() <==> Located(phy)
      ensures Valid() <==> Stored() && old(Valid())
    {
      assert phy.cell == CellAt(phy.position) ==> !Located(phy) by {
        assert CellConsistent(CellIndex(phy.position.x, range), CellIndex(phy.position.y, range));
      }
      phyList := phyList + [phy];
      assert Consistent() by {
        AppendDistinct(old(phyList), phy);
        forall a, b | 0 <= a < |cells| && 0 <= b < |cells[a]| ensures CellConsistent(a, b) {
          assert old(CellConsistent(a, b));
        }
      }
      UpdatePhy(phy);
    }

    /** A radio at the origin, where new nodes start, always has a cell. */
    lemma OriginHasCell()
      requires Stored()
      ensures HasCell(Point(0.0, 0.0)) && CellAt(Point(0.0, 0.0)) in CellSet()
    {
      assert 0.0 / range == 0.0;
    }

    /** Removal erases the radio from its cell and from the list, and leaves `phy.cell` as it is. */
    method Remove(phy: OvnisWifiPhy)
      requires Stored()
      modifies this`phyList, phy.CurrentCell()`content
      ensures Stored() && phy.cell == old(phy.cell)
      ensures Valid() <==> old(Valid())
      ensures phyList == Erase(old(phyList), phy) && phy !in phyList
    {
      hide Erase, CellIndex, HasCell, NoDuplicates;
      ghost var before := phyList;
      if phy.cell != null {
        LeaveCell(phy);
      }
      phyList := Erase(phyList, phy);
      EraseFromDistinct(before, phy);
      forall a, b | 0 <= a < |cells| && 0 <= b < |cells[a]| ensures CellConsistent(a, b) {
        assert old(CellConsistent(a, b));
      }
      forall p | p in phyList ensures Home(p) {
        assert p in before;
        assert old(Home(p));
      }
    }

    /** A member that is taken off and put back where it stood is no longer in any cell. */
    method RemoveAndAddAgain(phy: OvnisWifiPhy)
      requires Stored() && phy in phyList && phy.position == phy.placed
      modifies this`phyList, phy`cell, phy`placed, CellSet()`content
      ensures phyList == Erase(old(phyList), phy) + [phy]
      ensures !Located(phy) && !Stored()
    {
      hide Erase;
      assert Home(phy) && phy.cell in CellSet();
      Remove(phy);
      assert phy.cell == CellAt(phy.position);
      Add(phy);
    }

    ghost predicate NeighbouringCells(p: OvnisWifiPhy, q: OvnisWifiPhy)
      reads p, q, p.cell, q.cell
    {
      && p.cell != null && q.cell != null
      && -1 <= p.cell.i - q.cell.i <= 1 && -1 <= p.cell.j - q.cell.j <= 1
    }

    /** Where a member's home cell is in the grid. */
    ghost function Row(p: OvnisWifiPhy): int
      requires range > 0.0
      reads this`range, p`placed
    {
      CellIndex(p.placed.x, range)
    }

    ghost function Column(p: OvnisWifiPhy): int
      requires range > 0.0
      reads this`range, p`placed
    {
      CellIndex(p.placed.y, range)
    }

    lemma SameCell(a: int, b: int, c: int, d: int)
      requires Consistent() && Separate()
      requires 0 <= a < |cells| && 0 <= b < |cells[a]| && 0 <= c < |cells| && 0 <= d < |cells[c]|
      ensures cells[a][b] == cells[c][d] <==> a == c && b == d
    {
      assert CellConsistent(a, b) && CellConsistent(c, d);
    }

    /** A member's cell carries the number of its row, and where columns are numbered that one too. */
    lemma MemberCell(p: OvnisWifiPhy)
      requires Stored() && p in phyList
      ensures 0 <= Row(p) < |cells| && 0 <= Column(p) < |cells[0]| && p.cell == cells[Row(p)][Column(p)]
      ensures p.cell != null && p.cell.i == Row(p) && 0 <= p.cell.j <= Column(p)
      ensures ColumnsNumbered() ==> p.cell.j == Column(p)
    {
      assert Home(p);
      assert CellConsistent(Row(p), Column(p));
    }

    /** A cell stores exactly the members whose home it is. */
    lemma CellHoldsItsMembers(a: int, b: int)
      requires Stored() && 0 <= a < |cells| && 0 <= b < |cells[a]|
      ensures NoDuplicates(cells[a][b].content)
      ensures forall q :: q in cells[a][b].content <==> q in phyList && Row(q) == a && Column(q) == b
    {
      assert CellConsistent(a, b);
      forall q | q in phyList ensures q in cells[a][b].content <==> Row(q) == a && Column(q) == b {
        MemberCell(q);
        assert Home(q);
        SameCell(a, b, Row(q), Column(q));
      }
    }

    /** The index never misses: members within one range of each other are in neighbouring cells. */
    lemma CloseMembersAreNeighbours(p: OvnisWifiPhy, q: OvnisWifiPhy)
      requires Valid() && p in phyList && q in phyList
      requires SquaredDistance(p.placed, q.placed) <= range * range
      ensures NeighbouringCells(p, q)
    {
      MemberCell(p);
      MemberCell(q);
      WithinRangeBoundsAxes(p.placed, q.placed, range);
      NearIndices(p.placed.x, q.placed.x, range);
      NearIndices(p.placed.y, q.placed.y, range);
    }

    /** The index never reaches far: neighbours are not far apart along either axis.  Members two
        ranges apart along both are neighbours exactly when they are far apart along none, which
        takes the strip below zero. */
    lemma NeighboursAreClose(p: OvnisWifiPhy, q: OvnisWifiPhy)
      requires Valid() && p in phyList && q in phyList
      ensures NeighbouringCells(p, q) ==>
                !FarApart(p.placed.x, q.placed.x, range) && !FarApart(p.placed.y, q.placed.y, range)
      ensures !(-2.0 * range < p.placed.x - q.placed.x < 2.0 * range) &&
              !(-2.0 * range < p.placed.y - q.placed.y < 2.0 * range) ==>
                (NeighbouringCells(p, q) <==>
                  !FarApart(p.placed.x, q.placed.x, range) && !FarApart(p.placed.y, q.placed.y, range))
    {
      hide FarApart;
      MemberIsInside(p);
      MemberIsInside(q);
      MemberCell(p);
      MemberCell(q);
      AxisGap(p.placed.x, q.placed.x, range);
      AxisGap(p.placed.y, q.placed.y, range);
    }

    /** A member's coordinates are above minus one range. */
    lemma MemberIsInside(p: OvnisWifiPhy)
      requires Stored() && p in phyList
      ensures -range < p.placed.x && -range < p.placed.y
    {
      assert Home(p);
      LegalIndexIff(p.placed.x, range, |cells|);
      LegalIndexIff(p.placed.y, range, |cells[0]|);
    }

    /** Another radio on the sender's channel. */
    ghost predicate Hears(q: OvnisWifiPhy, sender: OvnisWifiPhy)
      reads q, sender
    {
      q != sender && q.channelNumber == sender.channelNumber
    }

    /** Whatever a full scan for radios within one range would find is delivered to. */
    ghost predicate ReachesInRange(sender: OvnisWifiPhy, delivered: seq<OvnisWifiPhy>)
      reads this, phyList, sender
    {
      forall q :: q in phyList && q != sender && q.channelNumber == sender.channelNumber ==>
        SquaredDistance(q.placed, sender.placed) <= range * range ==> q in delivered
    }

    /** Nothing far apart along an axis is delivered to. */
    ghost predicate StaysInBlock(sender: OvnisWifiPhy, delivered: seq<OvnisWifiPhy>)
      reads this, delivered, sender
    {
      forall q :: q in delivered ==>
        !FarApart(q.placed.x, sender.placed.x, range) && !FarApart(q.placed.y, sender.placed.y, range)
    }

    /** What the loops of `Send` visit: the block around the numbers of the sender's cell. */
    ghost predicate InBlock(q: OvnisWifiPhy, sender: OvnisWifiPhy)
      requires range > 0.0
      reads this`range, q`placed, sender`cell, sender.cell
    {
      && sender.cell != null
      && -1 <= Row(q) - sender.cell.i <= 1 && -1 <= Column(q) - sender.cell.j <= 1
    }

    lemma BlockIsNeighbours(q: OvnisWifiPhy, sender: OvnisWifiPhy)
      requires Valid() && q in phyList && sender in phyList
      ensures InBlock(q, sender) <==> NeighbouringCells(q, sender)
    {
      MemberCell(q);
      MemberCell(sender);
    }

    /** Members within one range of each other have homes next to each other. */
    lemma CloseHomesAdjoin(q: OvnisWifiPhy, sender: OvnisWifiPhy)
      requires range > 0.0 && SquaredDistance(q.placed, sender.placed) <= range * range
      ensures -1 <= Row(q) - Row(sender) <= 1 && -1 <= Column(q) - Column(sender) <= 1
    {
      WithinRangeBoundsAxes(q.placed, sender.placed, range);
      NearIndices(q.placed.x, sender.placed.x, range);
      NearIndices(q.placed.y, sender.placed.y, range);
    }

    /** A wrong number is too low, so what is missed is what lies too far right of it. */
    ghost predicate LeftOfReach(q: OvnisWifiPhy, sender: OvnisWifiPhy)
      requires range > 0.0
      reads this`range, q`placed, sender`cell, sender.cell
    {
      sender.cell != null && Column(q) <= sender.cell.j + 1
    }

    /** A full scan is covered if and only if nobody it finds is out of reach; with right numbers
        nobody is, and nothing far apart is delivered to either. */
    lemma DeliveryRefinesScan(sender: OvnisWifiPhy, delivered: seq<OvnisWifiPhy>)
      requires Stored() && sender in phyList
      requires forall q :: q in delivered <==> q in phyList && Hears(q, sender) && InBlock(q, sender)
      ensures ReachesInRange(sender, delivered) <==>
                forall q :: q in phyList && Hears(q, sender) ==>
                  SquaredDistance(q.placed, sender.placed) <= range * range ==> LeftOfReach(q, sender)
      ensures Valid() ==>
                && (forall q :: q in delivered <==> q in phyList && Hears(q, sender) && NeighbouringCells(q, sender))
                && ReachesInRange(sender, delivered) && StaysInBlock(sender, delivered)
    {
      hide CellIndex, SquaredDistance, FarApart;
      forall q | q in phyList && SquaredDistance(q.placed, sender.placed) <= range * range
        ensures InBlock(q, sender) <==> LeftOfReach(q, sender)
        ensures ColumnsNumbered() ==> LeftOfReach(q, sender)
      {
        MemberCell(sender);
        CloseHomesAdjoin(q, sender);
      }
      forall q | q in phyList && ColumnsNumbered()
        ensures InBlock(q, sender) <==> NeighbouringCells(q, sender)
        ensures InBlock(q, sender) ==>
                  !FarApart(q.placed.x, sender.placed.x, range) && !FarApart(q.placed.y, sender.placed.y, range)
      {
        BlockIsNeighbours(q, sender);
        NeighboursAreClose(q, sender);
      }
    }

    /** The innermost loop of `Send`: the radios of one cell that hear the sender. */
    method Listeners(content: seq<OvnisWifiPhy>, sender: OvnisWifiPhy) returns (heard: seq<OvnisWifiPhy>)
      requires NoDuplicates(content)
      ensures NoDuplicates(heard)
      ensures forall q :: q in heard <==> q in content && Hears(q, sender)
    {
      heard := [];
      for k := 0 to |content|
        invariant NoDuplicates(heard)
        invariant forall q :: q in heard <==> q in content[..k] && Hears(q, sender)
      {
        var q := content[k];
        assert q !in content[..k];
        if sender != q {
          if q.channelNumber == sender.channelNumber {
            AppendDistinct(heard, q);
            heard := heard + [q];
          }
        }
      }
    }

    /** Members already visited: all rows from `firstI` before `i`, and row `i` before column `j`. */
    ghost predicate Visited(q: OvnisWifiPhy, firstI: int, i: int, firstJ: int, lastJ: int, j: int)
      requires range > 0.0
      reads this`range, q`placed
    {
      || (firstI <= Row(q) < i && firstJ <= Column(q) <= lastJ)
      || (Row(q) == i && firstJ <= Column(q) < j)
    }

    /** The inner loop of `Send`: one row of the block. */
    method SendToRow(sender: OvnisWifiPhy, before: seq<OvnisWifiPhy>, i: int,
                     firstJ: int, lastJ: int, ghost firstI: int)
      returns (delivered: seq<OvnisWifiPhy>)
      requires Stored() && 0 <= firstI <= i < |cells| && 0 <= firstJ <= lastJ < |cells[0]|
      requires NoDuplicates(before)
      requires forall q :: q in before <==>
                 q in phyList && Hears(q, sender) && Visited(q, firstI, i, firstJ, lastJ, firstJ)
      ensures Stored() && NoDuplicates(delivered)
      ensures forall q :: q in delivered <==>
                q in phyList && Hears(q, sender) && Visited(q, firstI, i + 1, firstJ, lastJ, firstJ)
    {
      hide CellIndex;
      delivered := before;
      var j := firstJ;
      while j <= lastJ
        invariant firstJ <= j <= lastJ + 1
        invariant NoDuplicates(delivered)
        invariant forall q :: q in delivered <==>
                    q in phyList && Hears(q, sender) && Visited(q, firstI, i, firstJ, lastJ, j)
      {
        CellHoldsItsMembers(i, j);
        var heard := Listeners(cells[i][j].content, sender);
        AppendAllDistinct(delivered, heard);
        delivered := delivered + heard;
        j := j + 1;
      }
    }

    /** The bounds of the loops of `Send`: they stay inside the grid and visit the block, nothing else. */
    lemma BlockVisited(sender: OvnisWifiPhy, firstI: int, lastI: int, firstJ: int, lastJ: int)
      requires Stored() && sender in phyList && sender.cell != null
      requires firstI == if sender.cell.i - 1 > 0 then sender.cell.i - 1 else 0
      requires lastI == if sender.cell.i + 1 < |cells| then sender.cell.i + 1 else |cells| - 1
      requires firstJ == if sender.cell.j - 1 > 0 then sender.cell.j - 1 else 0
      requires lastJ == if sender.cell.j + 1 < |cells[0]| then sender.cell.j + 1 else |cells[0]| - 1
      ensures range > 0.0 && 0 <= firstI <= lastI < |cells| && 0 <= firstJ <= lastJ < |cells[0]|
      ensures forall q :: q in phyList ==> !Visited(q, firstI, firstI, firstJ, lastJ, firstJ)
      ensures forall q :: q in phyList ==>
                (InBlock(q, sender) <==> Visited(q, firstI, lastI + 1, firstJ, lastJ, firstJ))
    {
      hide Row, Column;
      MemberCell(sender);
      forall q | q in phyList
        ensures InBlock(q, sender) <==> Visited(q, firstI, lastI + 1, firstJ, lastJ, firstJ)
      {
        MemberCell(q);
      }
    }

    /** The receivers for which `Send` schedules a reception, in scheduling order.  It goes by the
        numbers of the sender's cell; when they are right it covers a full scan. */
    method Send(sender: OvnisWifiPhy) returns (delivered: seq<OvnisWifiPhy>)
      requires Stored() && sender in phyList
      ensures Stored() && NoDuplicates(delivered)
      ensures forall q :: q in delivered <==>
                q in phyList && q != sender && q.channelNumber == sender.channelNumber && InBlock(q, sender)
      ensures ReachesInRange(sender, delivered) <==>
                forall q :: q in phyList && Hears(q, sender) ==>
                  SquaredDistance(q.placed, sender.placed) <= range * range ==> LeftOfReach(q, sender)
      ensures Valid() ==>
                && (forall q :: q in delivered <==> q in phyList && Hears(q, sender) && NeighbouringCells(q, sender))
                && ReachesInRange(sender, delivered) && StaysInBlock(sender, delivered)
    {
      hide Stored, Row, Column, InBlock, LeftOfReach, SquaredDistance, NeighbouringCells, ReachesInRange,
           StaysInBlock, Visited;
      MemberCell(sender);
      var si, sj := sender.cell.i, sender.cell.j;
      delivered := [];
      var i := if si - 1 > 0 then si - 1 else 0;
      ghost var firstI := i;
      var lastI := if si + 1 < |cells| then si + 1 else |cells| - 1;
      var firstJ := if sj - 1 > 0 then sj - 1 else 0;
      var lastJ := if sj + 1 < |cells[0]| then sj + 1 else |cells[0]| - 1;
      BlockVisited(sender, firstI, lastI, firstJ, lastJ);
      while i <= lastI
        invariant firstI <= i <= lastI + 1
        invariant range > 0.0 && Stored() && NoDuplicates(delivered)
        invariant forall q :: q in delivered <==>
                    q in phyList && Hears(q, sender) && Visited(q, firstI, i, firstJ, lastJ, firstJ)
      {
        delivered := SendToRow(sender, delivered, i, firstJ, lastJ, firstI);
        i := i + 1;
      }
      DeliveryRefinesScan(sender, delivered);
    }

    // -------------------------------------------------------------- regridding

    /** A cell just created by `updateArea` for row `a`, column `b`. */
    static ghost predicate Blank(c: ChannelCell, a: int, b: int)
      reads c
    {
      c.i == a && c.j == b && c.content == []
    }

    /** Both creation loops of `updateArea`: fresh empty cells for columns `from` up to `to` of
        row `i`; `next` is the value the loop counter ends with. */
    static method NewCells(i: int, from: int, to: int) returns (row: seq<ChannelCell>, next: int)
      requires 0 <= from
      ensures next == Max(from, to) && |row| == next - from
      ensures forall b :: 0 <= b < |row| ==> fresh(row[b]) && Blank(row[b], i, from + b)
    {
      row, next := [], from;
      while next < to
        invariant from <= next <= Max(from, to) && |row| == next - from
        invariant forall b :: 0 <= b < |row| ==> fresh(row[b]) && Blank(row[b], i, from + b)
      {
        var c := new ChannelCell(i, next);
        row := row + [c];
        next := next + 1;
      }
    }

    /** How long a row is when the growth loops have come to row `mx`: rows within the recorded area
        get the columns missing from the recorded width; every later row gets all of them. */
    static function GrownLength(rows: int, width: int, nx: int, ny: int, mx: int, my: int, a: int): int {
      OldWidth(rows, width, a) + if a < nx then Max(0, my - ny) else if a < mx then my else 0
    }

    /** Every cell of row `a` beyond the old ones is fresh and empty; their columns are counted from
        the recorded width, or from zero. */
    static ghost predicate RowGrown(row: seq<ChannelCell>, before: int, from: int, a: int)
      requires 0 <= before <= |row|
      reads row
    {
      forall b :: before <= b < |row| ==> Blank(row[b], a, from + b - before)
    }

    /** A grid after the growth loops have come to row `upto`. */
    static ghost predicate Grown(grid: seq<seq<ChannelCell>>, before: seq<seq<ChannelCell>>, width: int,
                                 nx: int, ny: int, upto: int, my: int)
      requires 0 <= nx && 0 <= ny <= width
      reads set a, b | 0 <= a < |grid| && 0 <= b < |grid[a]| :: grid[a][b]
    {
      && GrownShape(grid, before, width, nx, ny, upto, my)
      && (forall a :: 0 <= a < |grid| ==>
            RowGrown(grid[a], OldWidth(|before|, width, a), if a < nx then ny else 0, a))
    }

    static ghost predicate GrownShape(grid: seq<seq<ChannelCell>>, before: seq<seq<ChannelCell>>, width: int,
                                      nx: int, ny: int, upto: int, my: int) {
      && |grid| == |before| + Max(0, upto - nx)
      && (forall a :: 0 <= a < |grid| ==>
            |grid[a]| == GrownLength(|before|, width, Min(nx, upto), ny, upto, my, a))
      && (forall a :: 0 <= a < |before| ==> before[a] <= grid[a])
      && (forall a :: 0 <= a < |grid| ==> OldWidth(|before|, width, a) <= |grid[a]|)
    }

    static lemma ShapeStep(grid: seq<seq<ChannelCell>>, base: seq<seq<ChannelCell>>, row: seq<ChannelCell>,
                           before: seq<seq<ChannelCell>>, width: int, nx: int, ny: int, i: int, my: int)
      requires 1 <= nx <= |before| && 1 <= ny <= width && 1 <= my && 0 <= i
      requires GrownShape(grid, before, width, nx, ny, i, my)
      requires base == if nx <= i then grid + [[]] else grid
      requires var from := if i < nx then ny else 0; |row| == Max(from, my) - from
      ensures i < |base| && |base[i]| == OldWidth(|before|, width, i)
      ensures |before| <= |grid| && forall a :: 0 <= a < |base| ==> OldWidth(|before|, width, a) <= |base[a]|
      ensures GrownShape(base[i := base[i] + row], before, width, nx, ny, i + 1, my)
    {
    }

    static function OldWidth(rows: int, width: int, a: int): int {
      if a < rows then width else 0
    }

    /** The cells that were not there before. */
    static ghost predicate NewCell(grid: seq<seq<ChannelCell>>, rows: int, width: int, a: int, b: int) {
      0 <= a < |grid| && OldWidth(rows, width, a) <= b < |grid[a]|
    }

    /** One turn of either growth loop, as far as the shape of the grid goes. */
    static lemma GrownStep(grid: seq<seq<ChannelCell>>, base: seq<seq<ChannelCell>>, row: seq<ChannelCell>,
                           before: seq<seq<ChannelCell>>, width: int, nx: int, ny: int, i: int, my: int)
      requires 1 <= nx <= |before| && 1 <= ny <= width && 1 <= my && 0 <= i
      requires Grown(grid, before, width, nx, ny, i, my)
      requires base == if nx <= i then grid + [[]] else grid
      requires var from := if i < nx then ny else 0;
               |row| == Max(from, my) - from && forall b :: 0 <= b < |row| ==> Blank(row[b], i, from + b)
      ensures i < |base| && Grown(base[i := base[i] + row], before, width, nx, ny, i + 1, my)
      ensures |base[i]| == OldWidth(|before|, width, i)
    {
      hide RowGrown, GrownShape;
      ShapeStep(grid, base, row, before, width, nx, ny, i, my);
      var grown := base[i := base[i] + row];
      var from := if i < nx then ny else 0;
      RowFilled(grown[i], OldWidth(|before|, width, i), i, row, from);
      EmptyRowGrown(|grid|);
      forall a | 0 <= a < |grown|
        ensures OldWidth(|before|, width, a) <= |grown[a]|
        ensures RowGrown(grown[a], OldWidth(|before|, width, a), if a < nx then ny else 0, a)
      {
        assert a != i && a < |grid| ==> grown[a] == grid[a];
      }
    }

    static lemma RowFilled(row: seq<ChannelCell>, before: int, a: int, added: seq<ChannelCell>, from: int)
      requires 0 <= before <= |row| && row[before..] == added
      requires forall b :: 0 <= b < |added| ==> Blank(added[b], a, from + b)
      ensures RowGrown(row, before, from, a)
    {
      forall b | before <= b < |row| ensures Blank(row[b], a, from + b - before) {
        assert row[b] == added[b - before];
      }
    }

    static lemma EmptyRowGrown(a: int)
      ensures RowGrown([], 0, 0, a)
    {
    }

    static lemma NothingGrown(before: seq<seq<ChannelCell>>, width: int, nx: int, ny: int, my: int)
      requires 1 <= nx <= |before| && 1 <= ny <= width
      requires forall a :: 0 <= a < |before| ==> |before[a]| == width
      ensures Grown(before, before, width, nx, ny, 0, my)
    {
    }

    /** The first loop: recorded rows get the columns missing from the recorded width. */
    static method WidenRows(before: seq<seq<ChannelCell>>, ghost width: int, nx: int, ny: int, my: int)
      returns (grid: seq<seq<ChannelCell>>, i: int, j: int)
      requires 1 <= nx <= |before| && 1 <= ny <= width && 1 <= my
      requires forall a :: 0 <= a < |before| ==> |before[a]| == width
      ensures i == nx && j == Max(ny, my)
      ensures Grown(grid, before, width, nx, ny, nx, my)
      ensures forall a, b :: NewCell(grid, |before|, width, a, b) ==> fresh(grid[a][b])
    {
      hide Grown;
      grid := before;
      i, j := 0, 0;
      NothingGrown(before, width, nx, ny, my);
      while i < nx
        invariant 0 <= i <= nx && (i > 0 ==> j == Max(ny, my))
        invariant Grown(grid, before, width, nx, ny, i, my)
        invariant forall a, b :: NewCell(grid, |before|, width, a, b) ==> fresh(grid[a][b])
      {
        var row, next := NewCells(i, ny, my);
        GrownStep(grid, grid, row, before, width, nx, ny, i, my);
        grid := grid[i := grid[i] + row];
        j := next;
        i := i + 1;
      }
    }

    /** Both growth loops of `updateArea` on a grid of `nx` recorded rows and `ny` recorded columns,
        which may have more of both; `i` and `j` are the counters kept for the trimming loops.  The
        second loop appends an empty row but fills row `i`, which may be an earlier one. */
    static method Grow(before: seq<seq<ChannelCell>>, ghost width: int, nx: int, ny: int, mx: int, my: int)
      returns (grid: seq<seq<ChannelCell>>, i: int, j: int)
      requires 1 <= nx <= |before| && 1 <= ny <= width && 1 <= my
      requires forall a :: 0 <= a < |before| ==> |before[a]| == width
      ensures i == Max(nx, mx) && j == if mx > nx then my else Max(ny, my)
      ensures Grown(grid, before, width, nx, ny, i, my)
      ensures forall a, b :: NewCell(grid, |before|, width, a, b) ==> fresh(grid[a][b])
    {
      hide Grown;
      grid, i, j := WidenRows(before, width, nx, ny, my);
      while i < mx
        invariant nx <= i <= Max(nx, mx)
        invariant j == if i > nx then my else Max(ny, my)
        invariant Grown(grid, before, width, nx, ny, i, my)
        invariant forall a, b :: NewCell(grid, |before|, width, a, b) ==> fresh(grid[a][b])
      {
        var row, next := NewCells(i, 0, my);
        GrownStep(grid, grid + [[]], row, before, width, nx, ny, i, my);
        grid := grid + [[]];
        grid := grid[i := grid[i] + row];
        j := next;
        i := i + 1;
      }
    }

    /** Pops the cells of a row beyond column `width`; `lost` counts the popped cells that still
        held a radio (the source logs an error for each of them). */
    static method TrimRow(row: seq<ChannelCell>, width: int) returns (kept: seq<ChannelCell>, lost: nat)
      requires 0 <= width <= |row|
      ensures kept == row[..width]
      ensures lost == 0 <==> forall b :: width <= b < |row| ==> row[b].content == []
    {
      kept, lost := row, 0;
      var surplus := |row| - width;
      for n := 0 to surplus
        invariant kept == row[..|row| - n]
        invariant lost == 0 <==> forall b :: |row| - n <= b < |row| ==> row[b].content == []
      {
        if kept[|kept| - 1].content != [] {
          lost := lost + 1;
        }
        kept := kept[..|kept| - 1];
      }
    }

    /** The outer trimming loop: the first `i` rows are cut to `j` columns. */
    static method TrimRows(grid: seq<seq<ChannelCell>>, i: int, j: int)
      returns (kept: seq<seq<ChannelCell>>, lost: nat)
      requires 0 <= i <= |grid| && 0 <= j
      requires forall a :: 0 <= a < i ==> j <= |grid[a]|
      ensures |kept| == |grid|
      ensures forall a :: 0 <= a < |grid| ==> kept[a] == if a < i then grid[a][..j] else grid[a]
      ensures lost == 0 <==> forall a, b :: 0 <= a < i && j <= b < |grid[a]| ==> grid[a][b].content == []
    {
      kept, lost := grid, 0;
      for ii := 0 to i
        invariant |kept| == |grid|
        invariant forall a :: 0 <= a < |grid| ==> kept[a] == if a < ii then grid[a][..j] else grid[a]
        invariant lost == 0 <==> forall a, b :: 0 <= a < ii && j <= b < |grid[a]| ==> grid[a][b].content == []
      {
        var row, dropped := TrimRow(kept[ii], j);
        kept := kept[ii := row];
        lost := lost + dropped;
      }
    }

    /** Drops every row from `i` on; `lost` counts dropped cells that still held a radio. */
    static method DropRows(grid: seq<seq<ChannelCell>>, i: int) returns (kept: seq<seq<ChannelCell>>, lost: nat)
      requires 0 <= i <= |grid|
      ensures kept == grid[..i]
      ensures lost == 0 <==>
                forall a, b :: i <= a < |grid| && 0 <= b < |grid[a]| ==> grid[a][b].content == []
    {
      kept, lost := grid, 0;
      var iii := |grid| - 1;
      while iii >= i
        invariant i - 1 <= iii < |grid| && kept == grid[..iii + 1]
        invariant lost == 0 <==>
                    forall a, b :: iii < a < |grid| && 0 <= b < |grid[a]| ==> grid[a][b].content == []
      {
        ghost var lostAfter := lost;
        for b := 0 to |kept[iii]|
          invariant lost >= lostAfter
          invariant lost == lostAfter <==> forall b' :: 0 <= b' < b ==> grid[iii][b'].content == []
        {
          if kept[iii][b].content != [] {
            lost := lost + 1;
          }
        }
        kept := kept[..iii];
        iii := iii - 1;
      }
    }

    /** The update loop of `updateArea`: every member is moved to the cell its current position
        belongs to under the range now in force. */
    method RehomeAll()
      requires Consistent()
      requires forall p :: p in phyList ==> Located(p) && p.cell in CellSet() && HasCell(p.position)
      modifies CellSet()`content, phyList`cell, phyList`placed
      ensures Consistent()
      ensures forall p :: p in phyList ==> p.placed == p.position && Home(p)
    {
      for k := 0 to |phyList|
        invariant Consistent()
        invariant forall p :: p in phyList ==> Located(p) && p.cell in CellSet()
        invariant forall p :: p in phyList[..k] ==> p.placed == p.position && Home(p)
      {
        assert phyList[k] !in phyList[..k];
        assert CellAt(phyList[k].position) in CellSet();
        UpdatePhy(phyList[k]);
      }
    }

    /** Cells outside the part of the grid that homes use are empty. */
    lemma UnusedCellIsEmpty(a: int, b: int, rows: int, columns: int)
      requires Consistent() && Separate() && 0 <= a < |cells| && 0 <= b < |cells[a]|
      requires forall p :: p in phyList ==>
                 Home(p) && CellIndex(p.placed.x, range) < rows && CellIndex(p.placed.y, range) < columns
      requires rows <= a || columns <= b
      ensures cells[a][b].content == []
    {
      assert CellConsistent(a, b);
      if cells[a][b].content != [] {
        var p := cells[a][b].content[0];
        SameCell(a, b, CellIndex(p.placed.x, range), CellIndex(p.placed.y, range));
      }
    }

    /** The number of a cell that is not an old one. */
    static function FreshNumber(rows: int, width: int, nx: int, ny: int, a: int, b: int): int {
      (if a < nx then ny else 0) + b - OldWidth(rows, width, a)
    }

    /** Old cells stay where they were; the others are numbered from the recorded width, or from zero. */
    static ghost predicate Renumbered(grid: seq<seq<ChannelCell>>, before: seq<seq<ChannelCell>>, nx: int, ny: int)
      requires before != []
      reads (set a, b | 0 <= a < |grid| && 0 <= b < |grid[a]| :: grid[a][b])`j
    {
      forall a, b :: 0 <= a < |grid| && 0 <= b < |grid[a]| ==>
        if a < |before| && b < |before[0]|
        then b < |before[a]| && grid[a][b] == before[a][b]
        else grid[a][b].j == FreshNumber(|before|, |before[0]|, nx, ny, a, b)
    }

    static lemma RenumberedCut(grid: seq<seq<ChannelCell>>, kept: seq<seq<ChannelCell>>, j: nat,
                               before: seq<seq<ChannelCell>>, nx: int, ny: int)
      requires before != [] && Renumbered(grid, before, nx, ny)
      requires |kept| <= |grid| && forall a :: 0 <= a < |kept| ==> j <= |grid[a]| && kept[a] == grid[a][..j]
      ensures Renumbered(kept, before, nx, ny)
    {
      hide FreshNumber;
      forall a, b | 0 <= a < |kept| && 0 <= b < |kept[a]|
        ensures if a < |before| && b < |before[0]|
                then b < |before[a]| && kept[a][b] == before[a][b]
                else kept[a][b].j == FreshNumber(|before|, |before[0]|, nx, ny, a, b)
      {
        assert kept[a][b] == grid[a][b];
      }
    }

    /** Keeping the part of the grid that homes use keeps every member at home. */
    method KeepSubgrid(grid: seq<seq<ChannelCell>>, j: int)
      requires Consistent() && Separate() && NumbersLow() && 1 <= |grid| <= |cells| && 1 <= j
      requires forall a :: 0 <= a < |grid| ==> j <= |cells[a]| && grid[a] == cells[a][..j]
      requires forall p :: p in phyList ==>
                 Home(p) && CellIndex(p.placed.x, range) < |grid| && CellIndex(p.placed.y, range) < j
      modifies this`cells
      ensures cells == grid && Stored() && CellSet() <= old(CellSet())
    {
      cells := grid;
      assert forall a, b :: 0 <= a < |cells| && 0 <= b < |cells[a]| ==> cells[a][b] == old(cells)[a][b];
      forall a, b | 0 <= a < |cells| && 0 <= b < |cells[a]|
        ensures CellConsistent(a, b) && cells[a][b] in old(CellSet())
      {
        assert old(CellConsistent(a, b));
      }
    }

    /** The trimming loops of `updateArea`.  Nothing that homes use is trimmed, so nothing is lost. */
    method Trim(i: int, j: int) returns (lost: nat)
      requires Consistent() && Separate() && NumbersLow() && 1 <= i <= |cells| && 1 <= j
      requires forall a :: 0 <= a < i ==> j <= |cells[a]|
      requires forall p :: p in phyList ==>
                 Home(p) && CellIndex(p.placed.x, range) < i && CellIndex(p.placed.y, range) < j
      modifies this`cells
      ensures Stored() && |cells| == i && |cells[0]| == j
      ensures forall a :: 0 <= a < i ==> cells[a] == old(cells)[a][..j]
      ensures CellSet() <= old(CellSet())
      ensures lost == 0
    {
      forall a, b | 0 <= a < |cells| && 0 <= b < |cells[a]| && (i <= a || j <= b)
        ensures cells[a][b].content == []
      {
        UnusedCellIsEmpty(a, b, i, j);
      }
      var trimmed, lostCells := TrimRows(cells, i, j);
      var kept, lostRows := DropRows(trimmed, i);
      lost := lostCells + lostRows;
      KeepSubgrid(kept, j);
    }

    /** On a grid that covers its area every position inside the area has a cell. */
    lemma InsideHasCell(p: Point)
      requires CoversArea() && -range < p.x < areaX && -range < p.y < areaY
      ensures HasCell(p)
    {
      PointsAreInside(p, areaX, areaY, range);
      InsideIndices(p, areaX, areaY, range);
      CoverIff();
      hide CellIndex, Ceiling;
    }

    /** Covering and exact grids, counted. */
    lemma CoverIff()
      requires Rectangular() && range > 0.0 && areaX > 0.0 && areaY > 0.0
      ensures CoversArea() <==> Ceiling(areaX / range) <= |cells| && Ceiling(areaY / range) <= |cells[0]|
      ensures ExactGrid() <==> Ceiling(areaX / range) == |cells| && Ceiling(areaY / range) == |cells[0]|
    {
      hide Ceiling;
      CeilingIff(areaX, range, |cells|);
      CeilingIff(areaY, range, |cells[0]|);
    }

    /** The grid covers the recorded area, and may be left with more. */
    ghost predicate CoversArea()
      reads this
    {
      && Rectangular() && range > 0.0 && areaX > 0.0 && areaY > 0.0
      && areaX <= |cells| as real * range && areaY <= |cells[0]| as real * range
    }

    /** A grown row is long enough for what the trimming loops leave, and for every new home. */
    static lemma GrownLongEnough(rows: int, width: int, nx: int, ny: int, mx: int, my: int, a: int)
      requires 1 <= nx <= rows && 1 <= ny <= width && 1 <= mx && 1 <= my && 0 <= a
      ensures var i := Max(nx, mx);
              var length := GrownLength(rows, width, Min(nx, i), ny, i, my, a);
              && (a < i ==> (if mx > nx then my else Max(ny, my)) <= length)
              && (a < mx ==> my <= length)
    {
    }

    /** What a grown grid holds at one place. */
    static lemma GrownCell(grid: seq<seq<ChannelCell>>, before: seq<seq<ChannelCell>>, width: int,
                           nx: int, ny: int, upto: int, my: int, a: int, b: int)
      requires 0 <= nx && 0 <= ny <= width && Grown(grid, before, width, nx, ny, upto, my)
      requires forall c :: 0 <= c < |before| ==> |before[c]| == width
      requires 0 <= a < |grid| && 0 <= b < |grid[a]|
      ensures a < |before| && b < width ==> grid[a][b] == before[a][b]
      ensures !(a < |before| && b < width) ==>
                Blank(grid[a][b], a, (if a < nx then ny else 0) + b - OldWidth(|before|, width, a))
    {
      if a < |before| && b < width {
        assert before[a] <= grid[a];
      } else {
        assert RowGrown(grid[a], OldWidth(|before|, width, a), if a < nx then ny else 0, a);
      }
    }

    /** The grown grid takes the place of the old one. */
    method Install(grid: seq<seq<ChannelCell>>, ghost nx: int, ghost ny: int, ghost upto: int, ghost my: int)
      requires Stored() && 1 <= nx <= |cells| && 1 <= ny <= |cells[0]|
      requires Grown(grid, cells, |cells[0]|, nx, ny, upto, my)
      requires forall a, b :: NewCell(grid, |cells|, |cells[0]|, a, b) ==> grid[a][b] !in CellSet()
      modifies this`cells
      ensures cells == grid && Consistent() && Separate() && NumbersLow()
      ensures Renumbered(grid, old(cells), nx, ny)
      ensures forall p :: p in phyList ==> Located(p) && p.cell in old(CellSet()) * CellSet()
    {
      hide Grown, FreshNumber, CellInOrder, Located, CellIndex, Home;
      ghost var before := cells;
      forall a, b | 0 <= a < |grid| && 0 <= b < |grid[a]|
        ensures CellInOrder(grid[a][b], a, phyList) && 0 <= grid[a][b].j <= b
        ensures if a < |before| && b < |before[0]| then b < |before[a]| && grid[a][b] == before[a][b]
                else grid[a][b].j == FreshNumber(|before|, |before[0]|, nx, ny, a, b)
      {
        InstalledCell(grid, nx, ny, upto, my, a, b);
      }
      MembersStay(grid, nx, ny, upto, my);
      RowsSeparate(grid, nx, ny, upto, my);
      cells := grid;
      assert forall p :: p in phyList ==> p.cell in CellSet();
      assert forall a, b :: 0 <= a < |cells| && 0 <= b < |cells[a]| ==> CellConsistent(a, b);
    }

    /** A cell of the grown grid is in order, and is either an old one or carries its fresh number. */
    lemma InstalledCell(grid: seq<seq<ChannelCell>>, nx: int, ny: int, upto: int, my: int, a: int, b: int)
      requires Stored() && 1 <= nx <= |cells| && 1 <= ny <= |cells[0]|
      requires Grown(grid, cells, |cells[0]|, nx, ny, upto, my)
      requires 0 <= a < |grid| && 0 <= b < |grid[a]|
      ensures CellInOrder(grid[a][b], a, phyList) && 0 <= grid[a][b].j <= b
      ensures if a < |cells| && b < |cells[0]| then b < |cells[a]| && grid[a][b] == cells[a][b]
              else grid[a][b].j == FreshNumber(|cells|, |cells[0]|, nx, ny, a, b)
    {
      GrownCell(grid, cells, |cells[0]|, nx, ny, upto, my, a, b);
      if a < |cells| && b < |cells[0]| {
        assert CellConsistent(a, b);
      }
    }

    /** Every member's cell is an old one and is in the grown grid. */
    lemma MembersStay(grid: seq<seq<ChannelCell>>, nx: int, ny: int, upto: int, my: int)
      requires Stored() && 1 <= nx <= |cells| && 1 <= ny <= |cells[0]|
      requires Grown(grid, cells, |cells[0]|, nx, ny, upto, my)
      ensures forall p :: p in phyList ==> Located(p) && p.cell in CellSet()
      ensures forall p :: p in phyList ==>
                0 <= Row(p) < |grid| && 0 <= Column(p) < |grid[Row(p)]| && p.cell == grid[Row(p)][Column(p)]
    {
      hide Row, Column;
      forall p | p in phyList
        ensures Located(p) && p.cell in CellSet()
        ensures 0 <= Row(p) < |grid| && 0 <= Column(p) < |grid[Row(p)]| && p.cell == grid[Row(p)][Column(p)]
      {
        assert Home(p);
        MemberCell(p);
        assert cells[Row(p)] <= grid[Row(p)];
      }
    }

    lemma RowsSeparate(grid: seq<seq<ChannelCell>>, nx: int, ny: int, upto: int, my: int)
      requires Stored() && 1 <= nx <= |cells| && 1 <= ny <= |cells[0]|
      requires Grown(grid, cells, |cells[0]|, nx, ny, upto, my)
      requires forall a, b :: NewCell(grid, |cells|, |cells[0]|, a, b) ==> grid[a][b] !in CellSet()
      ensures forall a, b, c :: 0 <= a < |grid| && 0 <= b < c < |grid[a]| ==> grid[a][b] != grid[a][c]
    {
      var width := |cells[0]|;
      forall a, b, c | 0 <= a < |grid| && 0 <= b < c < |grid[a]| ensures grid[a][b] != grid[a][c] {
        GrownCell(grid, cells, width, nx, ny, upto, my, a, b);
        GrownCell(grid, cells, width, nx, ny, upto, my, a, c);
        if a < |cells| && b < width {
          assert grid[a][b] == cells[a][b] && cells[a][b] in CellSet();
          if width <= c {
            assert NewCell(grid, |cells|, width, a, c);
          }
        }
      }
    }

    /** The growth loops of `updateArea`, on the grid in place. */
    method GrowInPlace(nx: int, ny: int, mx: int, my: int) returns (i: int, j: int)
      requires Stored() && 1 <= nx <= |cells| && 1 <= ny <= |cells[0]| && 1 <= mx && 1 <= my
      modifies this`cells
      ensures Consistent() && Separate() && NumbersLow() && Renumbered(cells, old(cells), nx, ny)
      ensures i == Max(nx, mx) && j == if mx > nx then my else Max(ny, my)
      ensures i <= |cells| && forall a :: 0 <= a < i ==> j <= |cells[a]|
      ensures forall a :: 0 <= a < mx ==> my <= |cells[a]|
      ensures forall p :: p in phyList ==> Located(p) && p.cell in old(CellSet()) * CellSet()
      ensures fresh(CellSet() - old(CellSet()))
    {
      hide Grown, GrownLength, Separate, Home, Renumbered;
      ghost var before, width := cells, |cells[0]|;
      var grid;
      grid, i, j := Grow(cells, |cells[0]|, nx, ny, mx, my);
      GrownRows(grid, cells, width, nx, ny, mx, my);
      Install(grid, nx, ny, i, my);
      forall a, b | 0 <= a < |grid| && 0 <= b < |grid[a]| ensures fresh(grid[a][b]) || grid[a][b] in old(CellSet()) {
        GrownCell(grid, before, width, nx, ny, i, my, a, b);
        assert !(a < |before| && b < width) ==> NewCell(grid, |before|, width, a, b);
      }
    }

    /** They are followed by the assignments to the area fields. */
    method Enlarge(x: real, y: real, r: real) returns (i: int, j: int)
      requires Stored() && CoversArea()
      requires x > 0.0 && y > 0.0 && r > 0.0
      modifies this`areaX, this`areaY, this`range, this`cells
      ensures areaX == x && areaY == y && range == r
      ensures Consistent() && Separate() && NumbersLow()
      ensures var nx, ny := Ceiling(old(areaX) / old(range)), Ceiling(old(areaY) / old(range));
              var mx, my := Ceiling(x / r), Ceiling(y / r);
              && i == Max(nx, mx) && j == (if mx > nx then my else Max(ny, my))
              && i <= |cells| && (forall a :: 0 <= a < i ==> j <= |cells[a]|)
              && (forall a :: 0 <= a < mx ==> my <= |cells[a]|)
              && Renumbered(cells, old(cells), nx, ny)
      ensures forall p :: p in phyList ==> Located(p) && p.cell in old(CellSet()) * CellSet()
      ensures fresh(CellSet() - old(CellSet()))
    {
      hide Ceiling, Stored, Separate, NumbersLow, Located, Renumbered;
      CoverIff();
      var mx := Ceiling(x / r);
      var nx, ny, my := Ceiling(areaX / range), Ceiling(areaY / range), Ceiling(y / r);
      PositiveCeiling(areaX, range);
      PositiveCeiling(areaY, range);
      PositiveCeiling(x, r);
      PositiveCeiling(y, r);
      i, j := GrowInPlace(nx, ny, mx, my);
      areaX, areaY, range := x, y, r;
    }

    static lemma GrownRows(grid: seq<seq<ChannelCell>>, before: seq<seq<ChannelCell>>, width: int,
                           nx: int, ny: int, mx: int, my: int)
      requires 1 <= nx <= |before| && 1 <= ny <= width && 1 <= mx && 1 <= my
      requires Grown(grid, before, width, nx, ny, Max(nx, mx), my)
      ensures Max(nx, mx) <= |grid|
      ensures forall a :: 0 <= a < Max(nx, mx) ==> (if mx > nx then my else Max(ny, my)) <= |grid[a]|
      ensures forall a :: 0 <= a < mx ==> my <= |grid[a]|
    {
      hide GrownLength;
      forall a | 0 <= a < Max(nx, mx)
        ensures (if mx > nx then my else Max(ny, my)) <= |grid[a]| && (a < mx ==> my <= |grid[a]|)
      {
        GrownLongEnough(|before|, width, nx, ny, mx, my, a);
      }
    }

    /** A cell added to a row that was already longer than recorded carries too low a number. */
    static predicate Misnumbered(rows: int, width: int, nx: int, ny: int, a: int, b: int) {
      a < rows && width <= b && (nx <= a || ny < width)
    }

    /** The kept grid has a fresh cell with a wrong number exactly when a row that was already longer
        than recorded had to grow. */
    static lemma MisnumberedIff(rows: int, width: int, nx: int, ny: int, mx: int, my: int)
      requires 1 <= nx <= rows && 1 <= ny <= width && 1 <= mx && 1 <= my
      ensures var i, j := Max(nx, mx), if mx > nx then my else Max(ny, my);
              (forall a, b :: 0 <= a < i && 0 <= b < j ==> !Misnumbered(rows, width, nx, ny, a, b)) <==>
                my <= width || (ny == width && (nx == rows || mx <= nx))
    {
      var i, j := Max(nx, mx), if mx > nx then my else Max(ny, my);
      if my > width {
        assert ny < width ==> Misnumbered(rows, width, nx, ny, 0, width);
        assert nx < rows ==> Misnumbered(rows, width, nx, ny, nx, width);
      }
    }

    /** The old cells that are kept carry the numbers of their columns. */
    ghost predicate KeptNumbered(before: seq<seq<ChannelCell>>)
      requires Rectangular()
      reads this`cells, (set a, b | 0 <= a < |before| && 0 <= b < |before[a]| :: before[a][b])`j
    {
      forall a, b :: 0 <= a < |before| && 0 <= b < |before[a]| ==>
        a < |cells| && b < |cells[0]| ==> before[a][b].j == b
    }

    /** Numbers are right after regridding if and only if those kept were and no fresh one is wrong. */
    lemma NumberedIff(before: seq<seq<ChannelCell>>, nx: int, ny: int, mx: int, my: int)
      requires Rectangular() && before != [] && forall a :: 0 <= a < |before| ==> |before[a]| == |before[0]|
      requires 1 <= nx <= |before| && 1 <= ny <= |before[0]| && 1 <= mx && 1 <= my
      requires |cells| == Max(nx, mx) && |cells[0]| == if mx > nx then my else Max(ny, my)
      requires Renumbered(cells, before, nx, ny)
      ensures ColumnsNumbered() <==>
                KeptNumbered(before) &&
                (my <= |before[0]| || (ny == |before[0]| && (nx == |before| || mx <= nx)))
    {
      var rows, width := |before|, |before[0]|;
      MisnumberedIff(rows, width, nx, ny, mx, my);
      forall a, b | 0 <= a < |cells| && 0 <= b < |cells[a]|
        ensures cells[a][b].j == b <==>
                  !Misnumbered(rows, width, nx, ny, a, b) && (a < rows && b < width ==> before[a][b].j == b)
      {
      }
      hide Misnumbered;
      if ColumnsNumbered() {
        forall a, b | 0 <= a < rows && 0 <= b < width && a < |cells| && b < |cells[0]|
          ensures before[a][b].j == b
        {
          assert cells[a][b].j == b;
        }
      }
    }

    /** Regridding never loses or duplicates a member, whatever the new size and whatever earlier calls
        left behind.  The numbers are right afterwards unless wrong ones are kept or a row that an
        earlier shrink left longer than recorded has to grow; and the grid has exactly the cells the
        new area calls for unless it shrinks. */
    method UpdateArea(x: real, y: real, r: real) returns (lost: nat)
      requires Stored() && CoversArea()
      requires x > 0.0 && y > 0.0 && r > 0.0
      requires forall p :: p in phyList ==> InsideArea(p.position, x, y, r)
      modifies this`areaX, this`areaY, this`range, this`cells
      modifies CellSet()`content, phyList`cell, phyList`placed
      ensures Stored() && CoversArea()
      ensures areaX == x && areaY == y && range == r && phyList == old(phyList)
      ensures forall p :: p in phyList ==> p.placed == p.position
      ensures lost == 0
      ensures forall p: Point :: -r < p.x < x && -r < p.y < y ==> HasCell(p)
      ensures var nx, ny := Ceiling(old(areaX) / old(range)), Ceiling(old(areaY) / old(range));
              var rows, width, mx, my := |old(cells)|, |old(cells[0])|, Ceiling(x / r), Ceiling(y / r);
              && |cells| == Max(nx, mx) && |cells[0]| == (if mx > nx then my else Max(ny, my))
              && Renumbered(cells, old(cells), nx, ny)
              && (ExactGrid() <==> mx >= nx && (mx > nx || my >= ny))
              && (Valid() <==>
                    KeptNumbered(old(cells)) && (my <= width || (ny == width && (nx == rows || mx <= nx))))
      ensures fresh(CellSet() - old(CellSet()))
    {
      hide Renumbered, KeptNumbered, NumbersLow, ColumnsNumbered, Ceiling, CellIndex, InsideArea;
      CoverIff();
      PositiveCeiling(areaX, range);
      PositiveCeiling(areaY, range);
      PositiveCeiling(x, r);
      PositiveCeiling(y, r);
      ghost var nx, ny := Ceiling(areaX / range), Ceiling(areaY / range);
      ghost var before := cells;
      var i, j := Enlarge(x, y, r);
      forall p | p in phyList ensures HasCell(p.position) {
        InsideIndices(p.position, x, y, r);
      }
      ghost var grown := cells;
      RehomeAll();
      forall p | p in phyList
        ensures CellIndex(p.placed.x, range) < i && CellIndex(p.placed.y, range) < j
      {
        InsideIndices(p.position, x, y, r);
      }
      lost := Trim(i, j);
      RenumberedCut(grown, cells, j, before, nx, ny);
      NumberedIff(before, nx, ny, Ceiling(x / r), Ceiling(y / r));
      CoverIff();
      forall p: Point | -r < p.x < x && -r < p.y < y ensures HasCell(p) {
        InsideHasCell(p);
      }
    }
  }

  // ---------------------------------------------------------------- a run with wrong numbers

  /** Growing to three rows and columns and shrinking the columns to one leaves all nine cells. */
  method GrowAndShrink() returns (channel: OvnisWifiChannel)
    ensures fresh(channel) && fresh(channel.CellSet()) && channel.phyList == []
    ensures channel.Valid() && channel.CoversArea()
    ensures channel.areaX == 3.0 && channel.areaY == channel.range == 1.0
    ensures |channel.cells| == 3 && |channel.cells[0]| == 3
  {
    hide OvnisWifiChannel.Stored, OvnisWifiChannel.Renumbered;
    channel := new OvnisWifiChannel();
    var lost := channel.UpdateArea(3.0, 3.0, 1.0);
    lost := channel.UpdateArea(3.0, 1.0, 1.0);
  }

  /** Growing it again to five columns leaves wrong numbers. */
  method Misnumber() returns (channel: OvnisWifiChannel)
    ensures fresh(channel) && fresh(channel.CellSet()) && channel.phyList == []
    ensures channel.Stored() && channel.ExactGrid() && !channel.Valid()
    ensures channel.range == 1.0 && |channel.cells| == 3 && |channel.cells[0]| == 5
    ensures channel.cells[0][3].j == 1
  {
    hide OvnisWifiChannel.Stored, OvnisWifiChannel.ColumnsNumbered, OvnisWifiChannel.KeptNumbered;
    channel := GrowAndShrink();
    var lost := channel.UpdateArea(3.0, 5.0, 1.0);
  }

  /** Two radios of one channel join at the same place. */
  method AddTwo(channel: OvnisWifiChannel, place: Point) returns (sender: OvnisWifiPhy, other: OvnisWifiPhy)
    requires channel.Stored() && channel.phyList == [] && channel.HasCell(place)
    requires channel.CellAt(place) in channel.CellSet()
    modifies channel`phyList, channel.CellSet()`content
    ensures channel.Stored() && channel.phyList == [sender, other] && fresh(sender) && fresh(other)
    ensures sender.placed == other.placed == sender.position == other.position == place
    ensures sender.cell == channel.CellAt(place) && channel.Hears(other, sender)
  {
    hide OvnisWifiChannel.Stored, OvnisWifiChannel.Located, CellIndex;
    sender := new OvnisWifiPhy(place, 1);
    channel.Add(sender);
    other := new OvnisWifiPhy(place, 1);
    channel.Add(other);
  }

  /** A radio whose cell carries a number too low does not reach what lies too far right of it. */
  method SendNextToOther(channel: OvnisWifiChannel, sender: OvnisWifiPhy, other: OvnisWifiPhy)
    returns (delivered: seq<OvnisWifiPhy>)
    requires channel.Stored() && channel.phyList == [sender, other] && channel.range > 0.0
    requires sender.cell != null && channel.Column(other) > sender.cell.j + 1
    ensures channel.Stored() && other !in delivered
  {
    hide OvnisWifiChannel.Stored, OvnisWifiChannel.ReachesInRange, OvnisWifiChannel.Column, OvnisWifiChannel.Row,
         OvnisWifiChannel.StaysInBlock, OvnisWifiChannel.LeftOfReach, SquaredDistance;
    delivered := channel.Send(sender);
  }

  /** On that grid a radio does not reach another one at the very same place. */
  method MissTheNearest() returns (channel: OvnisWifiChannel, sender: OvnisWifiPhy, other: OvnisWifiPhy,
                                   delivered: seq<OvnisWifiPhy>)
    ensures channel.Stored() && channel.phyList == [sender, other]
    ensures sender.placed == other.placed == sender.position == other.position
    ensures channel.Hears(other, sender) && other !in delivered
  {
    hide OvnisWifiChannel.Stored, OvnisWifiChannel.ExactGrid;
    channel := Misnumber();
    var place := Point(0.5, 3.5);
    assert channel.CellAt(place) == channel.cells[0][3] && channel.CellAt(place) in channel.CellSet();
    sender, other := AddTwo(channel, place);
    assert channel.Column(other) == 3;
    delivered := SendNextToOther(channel, sender, other);
  }
}
