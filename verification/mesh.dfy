/**
 * Meshes, point fields and files as the pipeline sees them through the meshio
 * library: an ordered point list, an ordered list of typed cell blocks and a
 * set of named point fields. The mesh files on disk are a finite map from
 * path to mesh, so that a missing file is a missing key.
 */
module MeshData {
  import opened Wrappers

  /** A point coordinate or a displacement vector. */
  datatype Vec3 = Vec3(x: real, y: real, z: real)

  /** One cell: the 0-based indices of its corner points, in local order. */
  type Row = seq<nat>

  /** A cell block: a type tag such as "hexahedron" or "tetra" and its cells. */
  datatype CellBlock = CellBlock(kind: string, data: seq<Row>)

  /**
   * A point field. `Magnitudes` is a scalar field each of whose values is the
   * square root of the stored square (the model keeps squares, not roots).
   */
  datatype FieldData =
    | Scalars(values: seq<real>)
    | Vectors(vectors: seq<Vec3>)
    | Magnitudes(squares: seq<real>)

  datatype Mesh = Mesh(points: seq<Vec3>, cells: seq<CellBlock>, pointData: map<string, FieldData>)

  /** A file path as its sequence of components. */
  type Path = seq<string>

  /** The files the pipeline can read, by path. */
  type FileSystem = map<Path, Mesh>

  /** `Path.parent`: the path without its last component. */
  function Parent(p: Path): (r: Path)
    ensures |p| > 0 ==> r + [p[|p| - 1]] == p
    ensures |p| == 0 ==> r == []
  {
    if |p| == 0 then [] else p[..|p| - 1]
  }

  /** Every index of every row lies in [0, n). */
  predicate RowsInRange(rows: seq<Row>, n: nat)
  {
    forall i, c :: 0 <= i < |rows| && 0 <= c < |rows[i]| ==> rows[i][c] < n
  }

  /** Every index of every cell of the mesh names one of its points. */
  predicate IndicesInRange(m: Mesh)
  {
    forall j :: 0 <= j < |m.cells| ==> RowsInRange(m.cells[j].data, |m.points|)
  }

  /** Every row of every block of type `kind` has exactly `arity` corners. */
  predicate BlocksHaveArity(cells: seq<CellBlock>, kind: string, arity: nat)
  {
    forall j, i :: 0 <= j < |cells| && cells[j].kind == kind && 0 <= i < |cells[j].data| ==>
      |cells[j].data[i]| == arity
  }

  /**
   * The keys of meshio's `cells_dict`: the type tag of every block, each
   * once, in the order the tags first appear.
   */
  function DistinctKinds(cells: seq<CellBlock>): (r: seq<string>)
    ensures forall k :: k in r <==> exists b :: 0 <= b < |cells| && cells[b].kind == k
    ensures forall i, j :: 0 <= i < j < |r| ==> r[i] != r[j]
  {
    if cells == [] then []
    else
      var init := cells[..|cells| - 1];
      var rest := DistinctKinds(init);
      var k := cells[|cells| - 1].kind;
      assert forall b :: 0 <= b < |init| ==> init[b] == cells[b];
      if k in rest then rest else rest + [k]
  }

  /**
   * First-appearance order: a tag listed before another occurs in an
   * earlier block than any block of the later tag.
   */
  lemma {:induction false} DistinctKindsOrder(cells: seq<CellBlock>, i: nat, j: nat, b: nat)
    requires i < j < |DistinctKinds(cells)| && b < |cells| && cells[b].kind == DistinctKinds(cells)[j]
    ensures exists a :: 0 <= a < b && cells[a].kind == DistinctKinds(cells)[i]
  {
    var init := cells[..|cells| - 1];
    var rest := DistinctKinds(init);
    var k := cells[|cells| - 1].kind;
    assert forall c :: 0 <= c < |init| ==> init[c] == cells[c];
    assert DistinctKinds(cells)[i] == rest[i] && rest[i] in rest;
    if j < |rest| {
      if b < |init| {
        DistinctKindsOrder(init, i, j, b);
      } else {
        var a :| 0 <= a < |init| && init[a].kind == rest[i];
      }
    } else {
      var a :| 0 <= a < |init| && init[a].kind == rest[i];
    }
  }

  /**
   * meshio's `cells_dict[kind]`: the rows of all blocks of that type,
   * concatenated in block order; absent when no block has that type.
   */
  function CellsOfKind(cells: seq<CellBlock>, kind: string): (r: Option<seq<Row>>)
    ensures r.None? <==> kind !in DistinctKinds(cells)
  {
    if cells == [] then None
    else
      var rest := CellsOfKind(cells[1..], kind);
      if cells[0].kind == kind then Some(cells[0].data + (if rest.Some? then rest.value else []))
      else rest
  }

  /** Each row of `cellsOfKind` is a row of some block of that type. */
  lemma {:induction false} CellsOfKindRows(cells: seq<CellBlock>, kind: string, i: nat)
    requires CellsOfKind(cells, kind).Some? && i < |CellsOfKind(cells, kind).value|
    ensures exists j, k ::
              && 0 <= j < |cells| && cells[j].kind == kind && 0 <= k < |cells[j].data|
              && cells[j].data[k] == CellsOfKind(cells, kind).value[i]
  {
    var rest := CellsOfKind(cells[1..], kind);
    if cells[0].kind == kind && i < |cells[0].data| {
      assert cells[0].data[i] == CellsOfKind(cells, kind).value[i];
    } else {
      var i' := if cells[0].kind == kind then i - |cells[0].data| else i;
      CellsOfKindRows(cells[1..], kind, i');
      var j, k :| 0 <= j < |cells[1..]| && cells[1..][j].kind == kind && 0 <= k < |cells[1..][j].data| &&
        cells[1..][j].data[k] == rest.value[i'];
      assert cells[j + 1].data[k] == CellsOfKind(cells, kind).value[i];
    }
  }

  /** The number of rows in the blocks of type `kind`. */
  function RowCount(cells: seq<CellBlock>, kind: string): nat
  {
    if cells == [] then 0
    else (if cells[0].kind == kind then |cells[0].data| else 0) + RowCount(cells[1..], kind)
  }

  /** `cells_dict[kind]` has as many rows as the blocks of that type together; with no such block there are none. */
  lemma {:induction false} CellsOfKindLength(cells: seq<CellBlock>, kind: string)
    ensures CellsOfKind(cells, kind).Some? ==> |CellsOfKind(cells, kind).value| == RowCount(cells, kind)
    ensures CellsOfKind(cells, kind).None? ==> RowCount(cells, kind) == 0
  {
    if cells != [] {
      CellsOfKindLength(cells[1..], kind);
    }
  }

  /**
   * Every row of every block of type `kind` is in `cells_dict[kind]`: row k
   * of block j sits after the rows of the earlier blocks of that type.
   */
  lemma {:induction false} CellsOfKindAt(cells: seq<CellBlock>, kind: string, j: nat, k: nat)
    requires j < |cells| && cells[j].kind == kind && k < |cells[j].data|
    ensures CellsOfKind(cells, kind).Some?
    ensures RowCount(cells[..j], kind) + k < |CellsOfKind(cells, kind).value|
    ensures CellsOfKind(cells, kind).value[RowCount(cells[..j], kind) + k] == cells[j].data[k]
  {
    if j > 0 {
      CellsOfKindAt(cells[1..], kind, j - 1, k);
      assert cells[..j][1..] == cells[1..][..j - 1];
      assert cells[..j][0] == cells[0];
    } else {
      assert cells[..0] == [];
    }
  }

  /** A mesh whose only block is of type `kind` gives back exactly that block's rows. */
  lemma CellsOfKindSingle(rows: seq<Row>, kind: string)
    ensures CellsOfKind([CellBlock(kind, rows)], kind) == Some(rows)
  {
    assert [CellBlock(kind, rows)][1..] == [];
    assert rows + [] == rows;
  }
}
