/**
 * `compare_calculix.py`: the displacement field computed by FEniCS is
 * compared with the one CalculiX produced, by the L2 (root mean square) and
 * L-infinity norms of the pointwise difference, and the pointwise error is
 * attached to the reference tetrahedral mesh as a new point field.
 *
 * Both norms are kept squared, so no square root appears: the L2 norm is
 * the square root of `L2Sq` and the L-infinity norm that of `LInfSq`
 * (the square root is monotone, so the largest magnitude is the root of the
 * largest squared magnitude).
 */
module Compare {
  import opened Wrappers
  import opened MeshData

  datatype CompareError =
    | FileNotFound(path: Path)
    /** A `KeyError` naming the field that was looked for and the fields there are. */
    | MissingField(key: string, available: set<string>)
    /** A field holds data of the wrong shape for the arithmetic done on it. */
    | ShapeMismatch(key: string)
    /** `np.max` of an empty array raises. */
    | EmptyField
    /** A `RuntimeError` listing the cell types the reference mesh has. */
    | NoTetra(kinds: seq<string>)
    /** meshio's `Mesh` refuses a point field whose length is not the number of points (a `ValueError`). */
    | PointDataLength(key: string)

  /** What a successful call computes and writes. */
  datatype Report = Report(l2Sq: real, linfSq: real, errorPath: Path, errorMesh: Mesh)

  function Sub(a: Vec3, b: Vec3): Vec3
  {
    Vec3(a.x - b.x, a.y - b.y, a.z - b.z)
  }

  /** The squared Euclidean norm of one row. */
  function SqNorm(v: Vec3): (r: real)
    ensures r >= 0.0
  {
    v.x * v.x + v.y * v.y + v.z * v.z
  }

  /** `np.vstack((U1, U2, U3)).T`: row i is (U1[i], U2[i], U3[i]). */
  function StackComponents(u1: seq<real>, u2: seq<real>, u3: seq<real>): (r: seq<Vec3>)
    requires |u1| == |u2| == |u3|
    ensures |r| == |u1|
    ensures forall i :: 0 <= i < |r| ==> r[i].x == u1[i] && r[i].y == u2[i] && r[i].z == u3[i]
  {
    seq(|u1|, i requires 0 <= i < |u1| => Vec3(u1[i], u2[i], u3[i]))
  }

  /**
   * The CalculiX displacement: the vector field "U" when there is one,
   * otherwise the three scalar components "U1", "U2", "U3" stacked row-wise,
   * otherwise an error listing the fields present.
   */
  function Displacement(pd: map<string, FieldData>): (r: Result<seq<Vec3>, CompareError>)
    ensures r == Err(MissingField("U", pd.Keys)) <==> "U" !in pd && !({"U1", "U2", "U3"} <= pd.Keys)
    ensures "U" in pd ==> (r.Ok? <==> pd["U"].Vectors?)
    ensures r.Ok? && "U" in pd ==> r.value == pd["U"].vectors
    ensures r.Ok? && "U" !in pd ==>
      && "U1" in pd && "U2" in pd && "U3" in pd
      && pd["U1"].Scalars? && pd["U2"].Scalars? && pd["U3"].Scalars?
      && |r.value| == |pd["U1"].values| == |pd["U2"].values| == |pd["U3"].values|
      && forall i :: 0 <= i < |r.value| ==>
           r.value[i] == Vec3(pd["U1"].values[i], pd["U2"].values[i], pd["U3"].values[i])
  {
    if "U" in pd then
      if pd["U"].Vectors? then Ok(pd["U"].vectors) else Err(ShapeMismatch("U"))
    else if {"U1", "U2", "U3"} <= pd.Keys then
      var c1, c2, c3 := pd["U1"], pd["U2"], pd["U3"];
      if !c1.Scalars? then Err(ShapeMismatch("U1"))
      else if !c2.Scalars? then Err(ShapeMismatch("U2"))
      else if !c3.Scalars? then Err(ShapeMismatch("U3"))
      else if !(|c1.values| == |c2.values| == |c3.values|) then Err(ShapeMismatch("U1"))
      else Ok(StackComponents(c1.values, c2.values, c3.values))
    else Err(MissingField("U", pd.Keys))
  }

  /** `u_f - u_c`: the pointwise difference of two fields on the same points. */
  function Diff(a: seq<Vec3>, b: seq<Vec3>): (r: seq<Vec3>)
    requires |a| == |b|
    ensures |r| == |a|
    ensures forall i :: 0 <= i < |r| ==> r[i] == Sub(a[i], b[i])
  {
    seq(|a|, i requires 0 <= i < |a| => Sub(a[i], b[i]))
  }

  /** `np.linalg.norm(diff, axis=1)`, squared: one value per row. */
  function Squares(d: seq<Vec3>): (r: seq<real>)
    ensures |r| == |d|
    ensures forall i :: 0 <= i < |r| ==> r[i] == SqNorm(d[i]) && r[i] >= 0.0
  {
    seq(|d|, i requires 0 <= i < |d| => SqNorm(d[i]))
  }

  function Sum(s: seq<real>): real
  {
    if s == [] then 0.0 else Sum(s[..|s| - 1]) + s[|s| - 1]
  }

  /** `np.max`: the largest element of a non-empty sequence. */
  function Max(s: seq<real>): (r: real)
    requires |s| > 0
    ensures r in s
    ensures forall i :: 0 <= i < |s| ==> s[i] <= r
  {
    if |s| == 1 then s[0]
    else
      var m := Max(s[..|s| - 1]);
      assert forall i :: 0 <= i < |s| - 1 ==> s[..|s| - 1][i] == s[i];
      if s[|s| - 1] <= m then m else s[|s| - 1]
  }

  /** The squared L2 error: the squared Frobenius norm of `diff` over the row count. */
  function L2Sq(d: seq<Vec3>): real
    requires |d| > 0
  {
    Sum(Squares(d)) / (|d| as real)
  }

  /** The squared L-infinity error: the largest squared row magnitude. */
  function LInfSq(d: seq<Vec3>): real
    requires |d| > 0
  {
    Max(Squares(d))
  }

  /** A sum of terms each at most m is at most n m. */
  lemma {:induction false} SumAtMost(s: seq<real>, m: real)
    requires forall i :: 0 <= i < |s| ==> s[i] <= m
    ensures Sum(s) <= (|s| as real) * m
    decreases |s|
  {
    if s != [] {
      var init := s[..|s| - 1];
      assert forall i :: 0 <= i < |init| ==> init[i] == s[i];
      SumAtMost(init, m);
    }
  }

  /** A sum of non-negative terms is non-negative. */
  lemma {:induction false} SumNonNegative(s: seq<real>)
    requires forall i :: 0 <= i < |s| ==> s[i] >= 0.0
    ensures Sum(s) >= 0.0
    decreases |s|
  {
    if s != [] {
      var init := s[..|s| - 1];
      assert forall i :: 0 <= i < |init| ==> init[i] == s[i];
      SumNonNegative(init);
    }
  }

  /** A sum of n copies of v is n v. */
  lemma {:induction false} SumConstant(s: seq<real>, v: real)
    requires forall i :: 0 <= i < |s| ==> s[i] == v
    ensures Sum(s) == (|s| as real) * v
    decreases |s|
  {
    if s != [] {
      var init := s[..|s| - 1];
      assert forall i :: 0 <= i < |init| ==> init[i] == s[i];
      SumConstant(init, v);
    }
  }

  /** The RMS error never exceeds the largest pointwise error, and neither is negative. */
  lemma L2WithinLInf(d: seq<Vec3>)
    requires |d| > 0
    ensures 0.0 <= L2Sq(d) <= LInfSq(d)
  {
    var sq, n := Squares(d), |d| as real;
    SumAtMost(sq, LInfSq(d));
    SumNonNegative(sq);
    AverageAtMost(Sum(sq), n, LInfSq(d));
  }

  lemma AverageAtMost(total: real, n: real, m: real)
    requires n > 0.0 && 0.0 <= total <= n * m
    ensures 0.0 <= total / n <= m
  {
    assert total / n <= (n * m) / n;
  }

  /** Identical fields give both errors zero. */
  lemma IdenticalFields(u: seq<Vec3>)
    requires |u| > 0
    ensures L2Sq(Diff(u, u)) == 0.0 && LInfSq(Diff(u, u)) == 0.0
  {
    ConstantDifference(u, u, Vec3(0.0, 0.0, 0.0));
  }

  /** A difference that is the same vector delta at every point gives both errors |delta|^2. */
  lemma ConstantDifference(a: seq<Vec3>, b: seq<Vec3>, delta: Vec3)
    requires |a| == |b| > 0
    requires forall i :: 0 <= i < |a| ==> Sub(a[i], b[i]) == delta
    ensures L2Sq(Diff(a, b)) == SqNorm(delta)
    ensures LInfSq(Diff(a, b)) == SqNorm(delta)
  {
    var sq := Squares(Diff(a, b));
    SumConstant(sq, SqNorm(delta));
    assert sq[0] == SqNorm(delta);
  }

  /** The reference mesh CalculiX ran on: `<parent>/VTK/mesh_tet.xdmf`. */
  function ReferenceMeshPath(ccx: Path): (r: Path)
    ensures |r| == |Parent(ccx)| + 2 && r[..|Parent(ccx)|] == Parent(ccx)
    ensures r[|r| - 2..] == ["VTK", "mesh_tet.xdmf"]
  {
    Parent(ccx) + ["VTK", "mesh_tet.xdmf"]
  }

  /** Where the error mesh goes: `<parent>/error.vtu`, beside the CalculiX result. */
  function ErrorPath(ccx: Path): (r: Path)
    ensures |r| == |Parent(ccx)| + 1 && r[..|Parent(ccx)|] == Parent(ccx) && r[|r| - 1] == "error.vtu"
  {
    Parent(ccx) + ["error.vtu"]
  }

  /**
   * The two displacement fields have the same number of rows whenever both
   * can be read: the source subtracts them without checking.
   */
  predicate ShapesAgree(fs: FileSystem, fenics: Path, ccx: Path)
  {
    && fenics in fs && ccx in fs && "Uel" in fs[fenics].pointData
    && fs[fenics].pointData["Uel"].Vectors? && Displacement(fs[ccx].pointData).Ok?
    ==> |fs[fenics].pointData["Uel"].vectors| == |Displacement(fs[ccx].pointData).value|
  }

  /**
   * `compare(fenics_vtu, ccx_vtk)`: read the FEniCS field "Uel" and the
   * CalculiX displacement, measure their difference, find the reference
   * tetrahedral mesh and build the error mesh on it. The first failure, in
   * source order, is the result.
   */
  function Compare(fs: FileSystem, fenics: Path, ccx: Path): (r: Result<Report, CompareError>)
    requires ShapesAgree(fs, fenics, ccx)
    ensures r == Err(FileNotFound(fenics)) <==> fenics !in fs
    ensures fenics in fs ==>
      (r == Err(MissingField("Uel", fs[fenics].pointData.Keys)) <==> "Uel" !in fs[fenics].pointData)
    ensures fenics in fs && "Uel" in fs[fenics].pointData && fenics != ccx ==>
      (r == Err(FileNotFound(ccx)) <==> ccx !in fs)
    ensures (&& fenics in fs && "Uel" in fs[fenics].pointData && ccx in fs
             && Displacement(fs[ccx].pointData).Err?) ==> r == Err(Displacement(fs[ccx].pointData).error)
    ensures (&& fenics in fs && "Uel" in fs[fenics].pointData && ccx in fs
             && Displacement(fs[ccx].pointData).Ok? && !fs[fenics].pointData["Uel"].Vectors?) ==>
              r == Err(ShapeMismatch("Uel"))
    ensures (&& fenics in fs && "Uel" in fs[fenics].pointData && ccx in fs
             && Displacement(fs[ccx].pointData).Ok? && fs[fenics].pointData["Uel"].Vectors?) ==>
      && (|fs[fenics].pointData["Uel"].vectors| == 0 ==> r == Err(EmptyField))
      && (|fs[fenics].pointData["Uel"].vectors| > 0 && ReferenceMeshPath(ccx) !in fs ==>
            r == Err(FileNotFound(ReferenceMeshPath(ccx))))
      && (|fs[fenics].pointData["Uel"].vectors| > 0 && ReferenceMeshPath(ccx) in fs ==>
            var ref := fs[ReferenceMeshPath(ccx)];
            && (r.Ok? <==> "tetra" in DistinctKinds(ref.cells) && |fs[fenics].pointData["Uel"].vectors| == |ref.points|)
            && ("tetra" !in DistinctKinds(ref.cells) ==> r == Err(NoTetra(DistinctKinds(ref.cells))))
            && ("tetra" in DistinctKinds(ref.cells) && |fs[fenics].pointData["Uel"].vectors| != |ref.points| ==>
                  r == Err(PointDataLength("error"))))
    ensures r.Ok? ==>
      && fenics in fs && ccx in fs && ReferenceMeshPath(ccx) in fs
      && "Uel" in fs[fenics].pointData && fs[fenics].pointData["Uel"].Vectors?
      && Displacement(fs[ccx].pointData).Ok?
      && var uel := fs[fenics].pointData["Uel"].vectors;
         var uc := Displacement(fs[ccx].pointData).value;
         var ref := fs[ReferenceMeshPath(ccx)];
         var m := r.value.errorMesh;
         && |uel| == |uc| == |ref.points| > 0
         && r.value.errorPath == ErrorPath(ccx)
         && m.points == ref.points
         && CellsOfKind(ref.cells, "tetra").Some?
         && m.cells == [CellBlock("tetra", CellsOfKind(ref.cells, "tetra").value)]
         && m.pointData.Keys == {"error"} && m.pointData["error"].Magnitudes?
         && |m.pointData["error"].squares| == |uel|
         && (forall i :: 0 <= i < |uel| ==> m.pointData["error"].squares[i] == SqNorm(Sub(uel[i], uc[i])))
         && r.value.l2Sq == L2Sq(Diff(uel, uc)) && r.value.linfSq == LInfSq(Diff(uel, uc))
         && 0.0 <= r.value.l2Sq <= r.value.linfSq
  {
    if fenics !in fs then Err(FileNotFound(fenics))
    else
      var pf := fs[fenics].pointData;
      if "Uel" !in pf then Err(MissingField("Uel", pf.Keys))
      else if ccx !in fs then Err(FileNotFound(ccx))
      else
        var uc := Displacement(fs[ccx].pointData);
        if uc.Err? then Err(uc.error)
        else if !pf["Uel"].Vectors? then Err(ShapeMismatch("Uel"))
        else
          var diff := Diff(pf["Uel"].vectors, uc.value);
          if |diff| == 0 then Err(EmptyField)
          else
            var meshPath := ReferenceMeshPath(ccx);
            if meshPath !in fs then Err(FileNotFound(meshPath))
            else
              var ref := fs[meshPath];
              var tets := CellsOfKind(ref.cells, "tetra");
              if tets.None? then Err(NoTetra(DistinctKinds(ref.cells)))
              else if |diff| != |ref.points| then Err(PointDataLength("error"))
              else
                L2WithinLInf(diff);
                var errorMesh := Mesh(ref.points, [CellBlock("tetra", tets.value)], map["error" := Magnitudes(Squares(diff))]);
                Ok(Report(L2Sq(diff), LInfSq(diff), ErrorPath(ccx), errorMesh))
  }
}
