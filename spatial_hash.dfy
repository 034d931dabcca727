/** The uniform-grid spatial hash (SpatialIndex in main.cpp): a table from
    integer grid cells to the list of particle indices inserted in each cell,
    queried over the 3x3x3 block of cells around a point. */
module SpatialHash {
  import opened Geometry

  /** A discretised grid coordinate, or an offset between two of them. */
  type Cell = (int, int, int)

  /** Bucket storage: cell coordinate to the particle indices inserted there. */
  type Table = map<Cell, seq<nat>>

  /** The cell size of the simulation's one index: twice the radius of support. */
  const IndexCellSize: real := R * 2.0

  predicate Distinct<T(==)>(s: seq<T>) {
    forall a, b :: 0 <= a < b < |s| ==> s[a] != s[b]
  }

  /** Every index in s is below n. */
  predicate Within(s: seq<nat>, n: nat) {
    forall k :: 0 <= k < |s| ==> s[k] < n
  }

  /** Every index stored in the table is below n. */
  predicate TableWithin(table: Table, n: nat) {
    forall c :: c in table ==> Within(table[c], n)
  }

  function CellAdd(a: Cell, b: Cell): Cell {
    (a.0 + b.0, a.1 + b.1, a.2 + b.2)
  }

  /** True when two cells are equal or touch, face, edge or corner, in the 3x3x3 block. */
  predicate Adjacent(a: Cell, b: Cell) {
    -1 <= a.0 - b.0 <= 1 && -1 <= a.1 - b.1 <= 1 && -1 <= a.2 - b.2 <= 1
  }

  /** The cell holding a point: the floor of each coordinate times the inverse cell size. */
  function Discretize(pos: Vec3, invCellSize: real): Cell {
    ((pos.x * invCellSize).Floor, (pos.y * invCellSize).Floor, (pos.z * invCellSize).Floor)
  }

  /** The n-th offset the constructor pushes: x outermost, z innermost, each from -1 to 1. */
  function OffsetAt(n: int): Cell {
    (n / 9 - 1, n / 3 % 3 - 1, n % 3 - 1)
  }

  function NeighborOffsets(): seq<Cell> {
    seq(27, n => OffsetAt(n))
  }

  /** The bucket of a cell, empty when the table has no entry for it. */
  function Bucket(table: Table, c: Cell): seq<nat> {
    if c in table then table[c] else []
  }

  /** The table after appending t to the bucket of cell c. */
  function Appended(table: Table, c: Cell, t: nat): Table {
    table[c := Bucket(table, c) + [t]]
  }

  /** The concatenation, in offset order, of the buckets present at cell + offset. */
  function Gather(table: Table, cell: Cell, offsets: seq<Cell>): (r: seq<nat>)
    ensures forall n: nat :: TableWithin(table, n) ==> Within(r, n)
  {
    if offsets == [] then []
    else Gather(table, cell, offsets[..|offsets| - 1]) + Bucket(table, CellAdd(cell, offsets[|offsets| - 1]))
  }

  /** The table obtained by inserting positions ps[0], ps[1], ... in order, each under its own index. */
  function Bucketed(ps: seq<Vec3>, invCellSize: real): (r: Table)
    ensures TableWithin(r, |ps|)
  {
    if ps == [] then map[]
    else Appended(Bucketed(ps[..|ps| - 1], invCellSize), Discretize(ps[|ps| - 1], invCellSize), |ps| - 1)
  }

  /** The neighbour offsets as the SpatialIndex constructor builds them, with its three nested loops. */
  method BuildOffsets() returns (offsets: seq<Cell>)
    ensures |offsets| == 27
    ensures forall n :: 0 <= n < 27 ==> offsets[n] == OffsetAt(n)
  {
    offsets := [];
    for i := -1 to 2
      invariant |offsets| == 9 * (i + 1)
      invariant forall n :: 0 <= n < |offsets| ==> offsets[n] == OffsetAt(n)
    {
      for j := -1 to 2
        invariant |offsets| == 9 * (i + 1) + 3 * (j + 1)
        invariant forall n :: 0 <= n < |offsets| ==> offsets[n] == OffsetAt(n)
      {
        for k := -1 to 2
          invariant |offsets| == 9 * (i + 1) + 3 * (j + 1) + (k + 1)
          invariant forall n :: 0 <= n < |offsets| ==> offsets[n] == OffsetAt(n)
        {
          assert OffsetAt(|offsets|) == (i, j, k);
          offsets := offsets + [(i, j, k)];
        }
      }
    }
  }

  class SpatialIndex {
    var table: Table
    const invCellSize: real
    const offsets: seq<Cell>

    constructor (cellSize: real)
      requires cellSize != 0.0
      ensures table == map[]
      ensures invCellSize == 1.0 / cellSize
      ensures offsets == NeighborOffsets()
    {
      var offs := BuildOffsets();
      table := map[];
      invCellSize := 1.0 / cellSize;
      offsets := offs;
    }

    /** Appends t to the bucket of the cell containing pos; every other bucket is unchanged. */
    method Insert(pos: Vec3, t: nat)
      modifies this
      ensures table == Appended(old(table), Discretize(pos, invCellSize), t)
    {
      var c := Discretize(pos, invCellSize);
      if c in table {
        table := table[c := table[c] + [t]];
      } else {
        assert [] + [t] == [t];
        table := table[c := [t]];
      }
    }

    /** Appends to ret the buckets found around the cell of pos; creates no bucket. */
    method Neighbors(pos: Vec3, ret: seq<nat>) returns (res: seq<nat>)
      ensures res == ret + Gather(table, Discretize(pos, invCellSize), offsets)
    {
      var ipos := Discretize(pos, invCellSize);
      res := ret;
      for n := 0 to |offsets|
        invariant res == ret + Gather(table, ipos, offsets[..n])
      {
        assert offsets[..n + 1][..n] == offsets[..n];
        var c := CellAdd(ipos, offsets[n]);
        if c in table {
          res := res + table[c];
        }
      }
      assert offsets[..|offsets|] == offsets;
    }

    method Clear()
      modifies this
      ensures table == map[]
    {
      table := map[];
    }
  }

  /** Every index below 27 is recovered from the offset it names. */
  lemma OffsetIndex(n: int)
    requires 0 <= n < 27
    ensures n == 9 * (OffsetAt(n).0 + 1) + 3 * (OffsetAt(n).1 + 1) + (OffsetAt(n).2 + 1)
  {
    assert n == 3 * (n / 3) + n % 3;
    assert n / 3 == 3 * (n / 3 / 3) + n / 3 % 3;
    assert n / 3 / 3 == n / 9;
  }

  /** Every offset of the 3x3x3 block is named by the index the loops give it. */
  lemma OffsetOfIndex(c: Cell)
    requires Adjacent(c, (0, 0, 0))
    ensures OffsetAt(9 * (c.0 + 1) + 3 * (c.1 + 1) + (c.2 + 1)) == c
  {
    var n := 9 * (c.0 + 1) + 3 * (c.1 + 1) + (c.2 + 1);
    var m := 3 * (c.0 + 1) + (c.1 + 1);
    assert n == 3 * m + (c.2 + 1);
    assert n / 3 == m && n % 3 == c.2 + 1;
    assert m / 3 == c.0 + 1 && m % 3 == c.1 + 1;
    assert n / 9 == m / 3;
  }

  /** The neighbour offsets are 27 distinct cells, and exactly those of the 3x3x3 block around the origin. */
  lemma OffsetsExact()
    ensures |NeighborOffsets()| == 27
    ensures Distinct(NeighborOffsets())
    ensures forall c: Cell :: c in NeighborOffsets() <==> Adjacent(c, (0, 0, 0))
  {
    var offs := NeighborOffsets();
    forall a, b | 0 <= a < b < 27 ensures offs[a] != offs[b] {
      OffsetIndex(a);
      OffsetIndex(b);
    }
    forall c: Cell | Adjacent(c, (0, 0, 0)) ensures c in offs {
      OffsetOfIndex(c);
      assert offs[9 * (c.0 + 1) + 3 * (c.1 + 1) + (c.2 + 1)] == c;
    }
  }

  /** A query can only return what some inspected bucket holds, and returns everything they hold. */
  lemma {:induction false} GatherMembers(table: Table, cell: Cell, offsets: seq<Cell>, j: nat)
    ensures j in Gather(table, cell, offsets)
        <==> exists n :: 0 <= n < |offsets| && j in Bucket(table, CellAdd(cell, offsets[n]))
  {
    if offsets != [] {
      var m := |offsets| - 1;
      var pre := offsets[..m];
      GatherMembers(table, cell, pre, j);
      if j in Gather(table, cell, offsets) {
        if j in Gather(table, cell, pre) {
          var n :| 0 <= n < |pre| && j in Bucket(table, CellAdd(cell, pre[n]));
          assert offsets[n] == pre[n];
        }
      } else {
        forall n | 0 <= n < |offsets| ensures j !in Bucket(table, CellAdd(cell, offsets[n])) {
          if n < m {
            assert offsets[n] == pre[n];
          }
        }
      }
    }
  }

  /** With an empty table a query appends nothing, whatever the point. */
  lemma {:induction false} GatherEmpty(cell: Cell, offsets: seq<Cell>)
    ensures Gather(map[], cell, offsets) == []
  {
    if offsets != [] {
      GatherEmpty(cell, offsets[..|offsets| - 1]);
    }
  }

  /** Each inserted index sits in exactly the bucket of its own cell, once. */
  lemma {:induction false} BucketedMembers(ps: seq<Vec3>, inv: real, c: Cell)
    ensures Distinct(Bucket(Bucketed(ps, inv), c))
    ensures forall j: nat :: j in Bucket(Bucketed(ps, inv), c) <==> j < |ps| && Discretize(ps[j], inv) == c
  {
    if ps != [] {
      var m := |ps| - 1;
      var pre := ps[..m];
      BucketedMembers(pre, inv, c);
      var b := Bucket(Bucketed(pre, inv), c);
      if Discretize(ps[m], inv) == c {
        assert Bucket(Bucketed(ps, inv), c) == b + [m];
        forall a | 0 <= a < |b| ensures b[a] != m {
          assert b[a] in b;
        }
      } else {
        assert Bucket(Bucketed(ps, inv), c) == b;
      }
      forall j: nat ensures j in Bucket(Bucketed(ps, inv), c) <==> j < |ps| && Discretize(ps[j], inv) == c {
        if j < m {
          assert ps[j] == pre[j];
        }
      }
    }
  }

  lemma DistinctConcat(a: seq<nat>, b: seq<nat>)
    requires Distinct(a) && Distinct(b)
    requires forall x :: x in a ==> x !in b
    ensures Distinct(a + b)
  {
    forall u, v | 0 <= u < v < |a + b| ensures (a + b)[u] != (a + b)[v] {
      if u < |a| && v >= |a| {
        assert (a + b)[u] in a;
        assert (a + b)[v] == b[v - |a|];
      }
    }
  }

  /** Over distinct offsets, a query of a table built by inserting every index once returns each index at most once. */
  lemma {:induction false} GatherDistinct(ps: seq<Vec3>, inv: real, cell: Cell, offsets: seq<Cell>)
    requires Distinct(offsets)
    ensures Distinct(Gather(Bucketed(ps, inv), cell, offsets))
  {
    if offsets != [] {
      var m := |offsets| - 1;
      var pre := offsets[..m];
      var table := Bucketed(ps, inv);
      var last := CellAdd(cell, offsets[m]);
      GatherDistinct(ps, inv, cell, pre);
      BucketedMembers(ps, inv, last);
      forall x | x in Gather(table, cell, pre) ensures x !in Bucket(table, last) {
        GatherMembers(table, cell, pre, x);
        var n :| 0 <= n < |pre| && x in Bucket(table, CellAdd(cell, pre[n]));
        assert pre[n] == offsets[n] != offsets[m];
        BucketsDisjoint(ps, inv, cell, pre[n], offsets[m], x);
      }
      DistinctConcat(Gather(table, cell, pre), Bucket(table, last));
    }
  }

  /** In a table built by inserting every index once, the buckets of two different cells share no index. */
  lemma BucketsDisjoint(ps: seq<Vec3>, inv: real, cell: Cell, a: Cell, b: Cell, x: nat)
    requires a != b && x in Bucket(Bucketed(ps, inv), CellAdd(cell, a))
    ensures x !in Bucket(Bucketed(ps, inv), CellAdd(cell, b))
  {
    BucketedMembers(ps, inv, CellAdd(cell, a));
    BucketedMembers(ps, inv, CellAdd(cell, b));
  }

  /** Two points whose scaled separation is at most one on every axis lie in adjacent cells. */
  lemma CellsAdjacent(a: Vec3, b: Vec3, inv: real)
    requires -1.0 <= (b.x - a.x) * inv <= 1.0
    requires -1.0 <= (b.y - a.y) * inv <= 1.0
    requires -1.0 <= (b.z - a.z) * inv <= 1.0
    ensures Adjacent(Discretize(b, inv), Discretize(a, inv))
  {
    assert (b.x - a.x) * inv == b.x * inv - a.x * inv;
    assert (b.y - a.y) * inv == b.y * inv - a.y * inv;
    assert (b.z - a.z) * inv == b.z * inv - a.z * inv;
  }

  /** Whatever a query of a built table returns was inserted at a cell adjacent to the query's. */
  lemma GatherBucketedSound(ps: seq<Vec3>, inv: real, cell: Cell, j: nat)
    requires j in Gather(Bucketed(ps, inv), cell, NeighborOffsets())
    ensures j < |ps| && Adjacent(Discretize(ps[j], inv), cell)
  {
    var offs := NeighborOffsets();
    var table := Bucketed(ps, inv);
    OffsetsExact();
    GatherMembers(table, cell, offs, j);
    var n :| 0 <= n < |offs| && j in Bucket(table, CellAdd(cell, offs[n]));
    BucketedMembers(ps, inv, CellAdd(cell, offs[n]));
    assert offs[n] in offs;
  }

  /** Every index inserted at a cell adjacent to the query's cell is returned. */
  lemma GatherBucketedComplete(ps: seq<Vec3>, inv: real, cell: Cell, j: nat)
    requires j < |ps| && Adjacent(Discretize(ps[j], inv), cell)
    ensures j in Gather(Bucketed(ps, inv), cell, NeighborOffsets())
  {
    var offs := NeighborOffsets();
    var table := Bucketed(ps, inv);
    var c := Discretize(ps[j], inv);
    var d: Cell := (c.0 - cell.0, c.1 - cell.1, c.2 - cell.2);
    OffsetsExact();
    BucketedMembers(ps, inv, c);
    assert d in offs;
    var n :| 0 <= n < |offs| && offs[n] == d;
    assert CellAdd(cell, offs[n]) == c;
    GatherMembers(table, cell, offs, j);
  }

  /** What a 27-cell query of a freshly built table returns: exactly the indices whose
      cells touch the query's cell, each exactly once. */
  lemma NeighborsOfBucketed(ps: seq<Vec3>, inv: real, p: Vec3)
    ensures Distinct(Gather(Bucketed(ps, inv), Discretize(p, inv), NeighborOffsets()))
    ensures forall j: nat :: j in Gather(Bucketed(ps, inv), Discretize(p, inv), NeighborOffsets())
              <==> j < |ps| && Adjacent(Discretize(ps[j], inv), Discretize(p, inv))
  {
    var cell := Discretize(p, inv);
    OffsetsExact();
    GatherDistinct(ps, inv, cell, NeighborOffsets());
    forall j: nat ensures j in Gather(Bucketed(ps, inv), cell, NeighborOffsets())
                  <==> j < |ps| && Adjacent(Discretize(ps[j], inv), cell) {
      if j in Gather(Bucketed(ps, inv), cell, NeighborOffsets()) {
        GatherBucketedSound(ps, inv, cell, j);
      } else if j < |ps| && Adjacent(Discretize(ps[j], inv), cell) {
        GatherBucketedComplete(ps, inv, cell, j);
      }
    }
  }

  /** Completeness of the query: with cells of twice the radius of support, every index
      inserted at a point within the radius of p on each axis is returned exactly once. */
  lemma NeighborsComplete(ps: seq<Vec3>, p: Vec3, j: nat)
    requires j < |ps|
    requires -R <= ps[j].x - p.x <= R && -R <= ps[j].y - p.y <= R && -R <= ps[j].z - p.z <= R
    ensures var found := Gather(Bucketed(ps, 1.0 / IndexCellSize), Discretize(p, 1.0 / IndexCellSize), NeighborOffsets());
            j in found && Distinct(found)
  {
    var inv := 1.0 / IndexCellSize;
    assert R * inv == 0.5;
    var q := ps[j];
    assert -0.5 <= (q.x - p.x) * inv <= 0.5;
    assert -0.5 <= (q.y - p.y) * inv <= 0.5;
    assert -0.5 <= (q.z - p.z) * inv <= 0.5;
    CellsAdjacent(p, q, inv);
    NeighborsOfBucketed(ps, inv, p);
  }
}
