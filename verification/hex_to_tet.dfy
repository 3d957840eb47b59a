/**
 * The hexahedron-to-tetrahedron conversion of `prepare_mesh`: every
 * hexahedron block is regrouped into one "tetra" block by a fixed
 * five-tetrahedron template, every other block is copied, and the result is
 * written once to a destination file that thereafter serves as a cache.
 */
module HexToTet {
  import opened Wrappers
  import opened MeshData

  /** Local corner groups of the five tetrahedra, in the order they are stacked. */
  const Templates: seq<seq<nat>> := [[0, 1, 3, 4], [1, 2, 3, 6], [1, 4, 5, 6], [3, 4, 6, 7], [1, 3, 4, 6]]

  /** Every row of a hexahedron block has its eight corners. */
  predicate IsHexRows(h: seq<Row>)
  {
    forall i :: 0 <= i < |h| ==> |h[i]| == 8
  }

  /** Every hexahedron block of the mesh is well formed. */
  predicate HexBlocksWellFormed(cells: seq<CellBlock>)
  {
    BlocksHaveArity(cells, "hexahedron", 8)
  }

  /** Every entry of a template names one of the eight corners. */
  predicate CornerLists(ts: seq<seq<nat>>)
  {
    forall k, c :: 0 <= k < |ts| && 0 <= c < |ts[k]| ==> ts[k][c] < 8
  }

  /** `h[:, cols]`: the columns `cols` of every row, in the order of `cols`. */
  function Columns(h: seq<Row>, cols: seq<nat>): (r: seq<Row>)
    requires IsHexRows(h)
    requires forall c :: 0 <= c < |cols| ==> cols[c] < 8
    ensures |r| == |h|
    ensures forall i :: 0 <= i < |h| ==> |r[i]| == |cols|
  {
    seq(|h|, i requires 0 <= i < |h| => seq(|cols|, c requires 0 <= c < |cols| => h[i][cols[c]]))
  }

  /** `np.vstack` of the column selections: all rows of the first template, then of the next, and so on. */
  function Stack(h: seq<Row>, ts: seq<seq<nat>>): (r: seq<Row>)
    requires IsHexRows(h) && CornerLists(ts)
    ensures |r| == |ts| * |h|
  {
    if ts == [] then []
    else
      assert |ts| * |h| == |h| + (|ts| - 1) * |h|;
      Columns(h, ts[0]) + Stack(h, ts[1..])
  }

  /** The five tetrahedra of every hexahedron, stacked template by template. */
  function Decompose(h: seq<Row>): seq<Row>
    requires IsHexRows(h)
  {
    Stack(h, Templates)
  }

  /** Row k*H + i of a stack is hexahedron i read through template k. */
  lemma {:induction false} StackAt(h: seq<Row>, ts: seq<seq<nat>>, k: nat, i: nat)
    requires IsHexRows(h) && CornerLists(ts) && k < |ts| && i < |h|
    ensures k * |h| + i < |Stack(h, ts)|
    ensures Stack(h, ts)[k * |h| + i] == Columns(h, ts[k])[i]
  {
    var n := |h|;
    var first, rest := Columns(h, ts[0]), Stack(h, ts[1..]);
    assert Stack(h, ts) == first + rest;
    if k > 0 {
      StackAt(h, ts[1..], k - 1, i);
      var x := (k - 1) * n + i;
      assert k * n + i == n + x;
      assert (first + rest)[n + x] == rest[x];
    }
  }

  /** A stack of column selections draws its indices from the rows it selects from. */
  lemma {:induction false} StackInRange(h: seq<Row>, ts: seq<seq<nat>>, n: nat)
    requires IsHexRows(h) && CornerLists(ts) && RowsInRange(h, n)
    ensures RowsInRange(Stack(h, ts), n)
  {
    if ts != [] {
      StackInRange(h, ts[1..], n);
      var cols := Columns(h, ts[0]);
      assert RowsInRange(cols, n) by {
        forall i, c | 0 <= i < |cols| && 0 <= c < |cols[i]|
          ensures cols[i][c] < n
        {
          assert cols[i][c] == h[i][ts[0][c]];
        }
      }
    }
  }

  /**
   * Row k*H + i of the decomposition of H hexahedra is hexahedron i read
   * through template k: the output is grouped by template, not by hexahedron.
   */
  lemma DecomposeAt(h: seq<Row>, k: nat, i: nat)
    requires IsHexRows(h) && k < 5 && i < |h|
    ensures |Decompose(h)| == 5 * |h|
    ensures |Decompose(h)[k * |h| + i]| == 4
    ensures forall c :: 0 <= c < 4 ==> Decompose(h)[k * |h| + i][c] == h[i][Templates[k][c]]
  {
    StackAt(h, Templates, k, i);
  }

  /** Regrouping creates no point: indices in [0, n) stay in [0, n). */
  lemma DecomposeInRange(h: seq<Row>, n: nat)
    requires IsHexRows(h) && RowsInRange(h, n)
    ensures RowsInRange(Decompose(h), n)
  {
    StackInRange(h, Templates, n);
  }

  /** Tetrahedron k of hexahedron i: row k*H + i of the decomposition. */
  function TetraOf(h: seq<Row>, k: nat, i: nat): (r: Row)
    requires IsHexRows(h) && k < 5 && i < |h|
    ensures |r| == 4 && forall c :: 0 <= c < 4 ==> r[c] == h[i][Templates[k][c]]
  {
    DecomposeAt(h, k, i);
    Decompose(h)[k * |h| + i]
  }

  /** Together the five tetrahedra of a hexahedron use each of its eight corners. */
  lemma DecomposeCoversCorners(h: seq<Row>, i: nat, corner: nat)
    requires IsHexRows(h) && i < |h| && corner < 8
    ensures exists k :: 0 <= k < 5 && h[i][corner] in TetraOf(h, k, i)
  {
    var k, c := if corner == 0 then 0 else if corner == 2 then 1 else if corner == 5 then 2
                else if corner == 7 then 3 else 4,
                if corner == 0 then 0 else if corner == 2 then 1 else if corner == 5 then 2
                else if corner == 7 then 3 else if corner == 1 then 0 else if corner == 3 then 1
                else if corner == 4 then 2 else 3;
    assert Templates[k][c] == corner;
    assert TetraOf(h, k, i)[c] == h[i][corner];
  }

  /** The four corners of each template are distinct. */
  lemma TemplatesDistinct(k: nat, a: nat, b: nat)
    requires k < 5 && a < b < 4
    ensures Templates[k][a] != Templates[k][b]
  {
  }

  /** A hexahedron with eight distinct corners yields tetrahedra with four distinct corners. */
  lemma DecomposeDistinct(h: seq<Row>, k: nat, i: nat)
    requires IsHexRows(h) && k < 5 && i < |h|
    requires forall a, b :: 0 <= a < 8 && 0 <= b < 8 && a != b ==> h[i][a] != h[i][b]
    ensures forall a, b :: 0 <= a < b < 4 ==> TetraOf(h, k, i)[a] != TetraOf(h, k, i)[b]
  {
    DecomposeAt(h, k, i);
    forall a, b | 0 <= a < b < 4
      ensures TetraOf(h, k, i)[a] != TetraOf(h, k, i)[b]
    {
      TemplatesDistinct(k, a, b);
    }
  }

  /** The rewrite of one block: a hexahedron block becomes a "tetra" block, any other is kept. */
  function ConvertBlock(b: CellBlock): CellBlock
    requires b.kind == "hexahedron" ==> IsHexRows(b.data)
  {
    if b.kind == "hexahedron" then CellBlock("tetra", Decompose(b.data)) else b
  }

  /** The mesh written to the destination file: original points and fields, rewritten blocks. */
  function TetMesh(m: Mesh): Mesh
    requires HexBlocksWellFormed(m.cells)
  {
    Mesh(m.points, seq(|m.cells|, j requires 0 <= j < |m.cells| => ConvertBlock(m.cells[j])), m.pointData)
  }

  /**
   * The rewritten mesh keeps the points and point fields, has one block per
   * input block in the same position, turns each hexahedron block of H rows
   * into a "tetra" block of 5*H rows, and copies every other block.
   */
  lemma TetMeshShape(m: Mesh)
    requires HexBlocksWellFormed(m.cells)
    ensures TetMesh(m).points == m.points && TetMesh(m).pointData == m.pointData
    ensures |TetMesh(m).cells| == |m.cells|
    ensures forall j :: 0 <= j < |m.cells| && m.cells[j].kind == "hexahedron" ==>
      TetMesh(m).cells[j].kind == "tetra" && |TetMesh(m).cells[j].data| == 5 * |m.cells[j].data|
    ensures forall j :: 0 <= j < |m.cells| && m.cells[j].kind != "hexahedron" ==>
      TetMesh(m).cells[j] == m.cells[j]
  {
    forall j | 0 <= j < |m.cells| && m.cells[j].kind == "hexahedron"
      ensures |TetMesh(m).cells[j].data| == 5 * |m.cells[j].data|
    {
      if |m.cells[j].data| > 0 {
        DecomposeAt(m.cells[j].data, 0, 0);
      }
    }
  }

  /** If every cell of the input names one of its points, so does every cell of the output. */
  lemma TetMeshInRange(m: Mesh)
    requires HexBlocksWellFormed(m.cells) && IndicesInRange(m)
    ensures IndicesInRange(TetMesh(m))
  {
    forall j | 0 <= j < |m.cells|
      ensures RowsInRange(TetMesh(m).cells[j].data, |TetMesh(m).points|)
    {
      if m.cells[j].kind == "hexahedron" {
        DecomposeInRange(m.cells[j].data, |m.points|);
      }
    }
  }

  /** The block loop of `prepare_mesh`: one rewritten block appended per input block. */
  method ConvertCells(cells: seq<CellBlock>) returns (newCells: seq<CellBlock>)
    requires HexBlocksWellFormed(cells)
    ensures |newCells| == |cells|
    ensures forall j :: 0 <= j < |cells| ==> newCells[j] == ConvertBlock(cells[j])
  {
    newCells := [];
    for j := 0 to |cells|
      invariant |newCells| == j
      invariant forall t :: 0 <= t < j ==> newCells[t] == ConvertBlock(cells[t])
    {
      var b := cells[j];
      if b.kind == "hexahedron" {
        newCells := newCells + [CellBlock("tetra", Decompose(b.data))];
      } else {
        newCells := newCells + [b];
      }
    }
  }

  datatype FileError = SourceNotFound(path: Path)

  /**
   * What `prepare_mesh` does to the files and what it loads: an existing
   * destination is loaded as it is and the source is not consulted;
   * otherwise a missing source fails with nothing written, and a present one
   * is converted, written to the destination and loaded back.
   */
  function Prepare(fs: FileSystem, source: Path, dest: Path): (FileSystem, Result<Mesh, FileError>)
    requires dest !in fs && source in fs ==> HexBlocksWellFormed(fs[source].cells)
  {
    if dest in fs then (fs, Ok(fs[dest]))
    else if source !in fs then (fs, Err(SourceNotFound(source)))
    else
      var m := TetMesh(fs[source]);
      (fs[dest := m], Ok(m))
  }

  /** `prepare_mesh(source, dest)` over the file map. */
  method PrepareMesh(fs: FileSystem, source: Path, dest: Path) returns (fs': FileSystem, loaded: Result<Mesh, FileError>)
    requires dest !in fs && source in fs ==> HexBlocksWellFormed(fs[source].cells)
    ensures (fs', loaded) == Prepare(fs, source, dest)
    ensures dest in fs ==> fs' == fs && loaded == Ok(fs[dest])
    ensures dest !in fs && source !in fs ==> fs' == fs && loaded.Err?
    ensures dest !in fs && source in fs ==>
      && loaded.Ok? && fs' == fs[dest := loaded.value]
      && loaded.value.points == fs[source].points && loaded.value.pointData == fs[source].pointData
      && |loaded.value.cells| == |fs[source].cells|
  {
    if dest in fs {
      fs', loaded := fs, Ok(fs[dest]);
      return;
    }
    if source !in fs {
      fs', loaded := fs, Err(SourceNotFound(source));
      return;
    }
    var m := fs[source];
    var newCells := ConvertCells(m.cells);
    var mTet := Mesh(m.points, newCells, m.pointData);
    assert mTet == TetMesh(m);
    fs' := fs[dest := mTet];
    loaded := Ok(mTet);
  }

  /**
   * Memoisation: once a call has produced the destination, a second call with
   * the same destination, whatever its source, changes no file and loads the
   * same mesh.
   */
  lemma PrepareIsMemoized(fs: FileSystem, source: Path, dest: Path, source2: Path)
    requires dest !in fs && source in fs ==> HexBlocksWellFormed(fs[source].cells)
    requires Prepare(fs, source, dest).1.Ok?
    ensures var (fs1, r1) := Prepare(fs, source, dest);
      dest in fs1 && Prepare(fs1, source2, dest) == (fs1, r1)
  {
  }

  /** The hexahedron whose corners are the point indices 0 to 7 in order. */
  const IdentityHex: Row := [0, 1, 2, 3, 4, 5, 6, 7]

  /** Reading the identity hexahedron through a corner list gives the corner list. */
  lemma ColumnsOfIdentity(cols: seq<nat>)
    requires forall c :: 0 <= c < |cols| ==> cols[c] < 8
    ensures Columns([IdentityHex], cols) == [cols]
  {
    var r := Columns([IdentityHex], cols);
    forall c | 0 <= c < |cols|
      ensures r[0][c] == cols[c]
    {
      assert IdentityHex[cols[c]] == cols[c];
    }
    assert r[0] == cols;
  }

  /** Stacking the identity hexahedron through corner lists gives the corner lists. */
  lemma {:induction false} StackOfIdentity(ts: seq<seq<nat>>)
    requires CornerLists(ts)
    ensures Stack([IdentityHex], ts) == ts
  {
    if ts != [] {
      ColumnsOfIdentity(ts[0]);
      StackOfIdentity(ts[1..]);
      assert ts == [ts[0]] + ts[1..];
    }
  }

  /** The decomposition of a single hexahedron with corners 0..7 is the template itself. */
  lemma SingleHexIsTemplate()
    ensures Decompose([IdentityHex]) == Templates
  {
    StackOfIdentity(Templates);
  }
}
