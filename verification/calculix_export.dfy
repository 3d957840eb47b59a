/**
 * `export_to_calculix.py`: the Lamé-to-engineering conversion of the
 * material constants and the CalculiX input deck written by `export_inp`.
 * The deck is a sequence of typed lines; the numbers on a line are kept as
 * values, and their decimal formatting is not modelled.
 */
module CalculixExport {
  import opened Wrappers
  import opened MeshData

  /** Young's modulus and Poisson's ratio. */
  datatype Elastic = Elastic(e: real, nu: real)

  datatype ExportError =
    | InputNotFound(path: Path)
    | MissingKey(key: string)
    | ZeroDivision
    | NotScalarField(key: string, written: seq<Line>)

  /**
   * `compute_E_nu(lambda_, mu)`, with `lam` the first Lamé constant: Python
   * raises ZeroDivisionError when lambda_ + mu is 0.
   */
  function ComputeENu(lam: real, mu: real): (r: Result<Elastic, ExportError>)
    ensures r.Err? <==> lam + mu == 0.0
    ensures r.Err? ==> r.error == ZeroDivision
    ensures r.Ok? ==> r.value.e * (lam + mu) == mu * (3.0 * lam + 2.0 * mu)
    ensures r.Ok? ==> 2.0 * r.value.nu * (lam + mu) == lam
  {
    if lam + mu == 0.0 then Err(ZeroDivision)
    else Ok(Elastic(mu * (3.0 * lam + 2.0 * mu) / (lam + mu), lam / (2.0 * (lam + mu))))
  }

  /**
   * The engineering constants convert back to the Lamé parameters they came
   * from: any E and nu that satisfy the two equations `ComputeENu` ensures
   * give mu = E / (2 (1 + nu)) and lam = E nu / ((1 + nu)(1 - 2 nu)),
   * whenever those denominators are not zero (mu != 0 and 3 lam + 2 mu != 0).
   */
  lemma ENuRoundTrip(lam: real, mu: real, e: real, nu: real)
    requires lam + mu != 0.0 && mu != 0.0 && 3.0 * lam + 2.0 * mu != 0.0
    requires e * (lam + mu) == mu * (3.0 * lam + 2.0 * mu)
    requires 2.0 * nu * (lam + mu) == lam
    ensures 1.0 + nu != 0.0 && 1.0 - 2.0 * nu != 0.0
    ensures e / (2.0 * (1.0 + nu)) == mu
    ensures e * nu / ((1.0 + nu) * (1.0 - 2.0 * nu)) == lam
  {
    ShearBack(lam, mu, e, nu);
    LambdaBack(lam, mu, e, nu);
  }

  /** 1 + nu = (3 lam + 2 mu) / (2 (lam + mu)) and 1 - 2 nu = mu / (lam + mu). */
  lemma PoissonFactors(lam: real, mu: real, nu: real)
    requires 2.0 * nu * (lam + mu) == lam
    ensures (1.0 + nu) * (2.0 * (lam + mu)) == 3.0 * lam + 2.0 * mu
    ensures (1.0 - 2.0 * nu) * (lam + mu) == mu
  {
    var s := lam + mu;
    assert (1.0 + nu) * (2.0 * s) == 2.0 * s + 2.0 * nu * s;
    assert (1.0 - 2.0 * nu) * s == s - 2.0 * nu * s;
  }

  /** E = 2 mu (1 + nu), so mu = E / (2 (1 + nu)). */
  lemma ShearBack(lam: real, mu: real, e: real, nu: real)
    requires lam + mu != 0.0 && 3.0 * lam + 2.0 * mu != 0.0
    requires e * (lam + mu) == mu * (3.0 * lam + 2.0 * mu)
    requires 2.0 * nu * (lam + mu) == lam
    ensures 1.0 + nu != 0.0 && e == 2.0 * mu * (1.0 + nu) && e / (2.0 * (1.0 + nu)) == mu
  {
    var s, p := lam + mu, 1.0 + nu;
    PoissonFactors(lam, mu, nu);
    assert e * s == mu * (p * (2.0 * s));
    assert (e - 2.0 * mu * p) * s == 0.0;
    assert e == mu * (2.0 * p);
    DivBack(e, 2.0 * p, mu);
  }

  /** lam = E nu / ((1 + nu)(1 - 2 nu)). */
  lemma LambdaBack(lam: real, mu: real, e: real, nu: real)
    requires lam + mu != 0.0 && mu != 0.0 && 3.0 * lam + 2.0 * mu != 0.0
    requires e * (lam + mu) == mu * (3.0 * lam + 2.0 * mu)
    requires 2.0 * nu * (lam + mu) == lam
    ensures 1.0 - 2.0 * nu != 0.0 && 1.0 + nu != 0.0
    ensures e * nu / ((1.0 + nu) * (1.0 - 2.0 * nu)) == lam
  {
    var p, q := 1.0 + nu, 1.0 - 2.0 * nu;
    ShearBack(lam, mu, e, nu);
    PoissonShear(lam, mu, nu);
    assert e * nu == (mu * nu * 2.0) * p;
    assert e * nu == lam * (p * q);
    DivBack(e * nu, p * q, lam);
  }

  /** 2 mu nu = lam (1 - 2 nu), and 1 - 2 nu is not zero. */
  lemma PoissonShear(lam: real, mu: real, nu: real)
    requires lam + mu != 0.0 && mu != 0.0
    requires 2.0 * nu * (lam + mu) == lam
    ensures 1.0 - 2.0 * nu != 0.0
    ensures mu * nu * 2.0 == lam * (1.0 - 2.0 * nu)
  {
    var s, q := lam + mu, 1.0 - 2.0 * nu;
    PoissonFactors(lam, mu, nu);
    assert q * s == mu;
    assert (2.0 * mu * nu - lam * q) * s == 0.0 by {
      assert 2.0 * mu * nu * s == mu * lam;
      assert lam * q * s == lam * mu;
    }
  }

  /** Division undoes multiplication by a non-zero factor. */
  lemma DivBack(x: real, d: real, y: real)
    requires d != 0.0 && x == y * d
    ensures x / d == y
  {
  }

  /** The defaults lambda_ = 1e11 and mu = 4e10 give nu = 5/14 and E = 76e10/7. */
  lemma DefaultMaterial()
    ensures ComputeENu(DefaultParams.lam, DefaultParams.mu) == Ok(Elastic(760000000000.0 / 7.0, 5.0 / 14.0))
  {
  }

  /** The keyword arguments of `export_inp`. */
  datatype Params = Params(lam: real, mu: real, alphaT: real, tRef: real, fixTol: real)

  const DefaultParams := Params(100000000000.0, 40000000000.0, 0.00001, 300.0, 0.00000001)

  /**
   * One line of the deck: a keyword line (one starting with a single `*`),
   * another line of fixed text, or a data line with its numbers.
   */
  datatype Line =
    | Keyword(card: Card)
    | Text(s: string)
    | Blank
    | NodeLine(id: nat, p: Vec3)
    | ElementLine(id: nat, nodes: seq<nat>)
    | ElasticLine(e: real, nu: real)
    | ExpansionLine(alpha: real)
    | SetMember(id: nat)
    | NodeValue(id: nat, value: real)

  function Abs(x: real): real
  {
    if x < 0.0 then -x else x
  }

  /** `for i, p in enumerate(points, start=1)`: one node line per point. */
  function NodeLines(points: seq<Vec3>): (r: seq<Line>)
    ensures |r| == |points|
    decreases |points|
  {
    if points == [] then []
    else NodeLines(points[..|points| - 1]) + [NodeLine(|points|, points[|points| - 1])]
  }

  /** `n = elem + 1`: the 0-based indices of a cell as 1-based node ids. */
  function Shifted(row: Row): (r: seq<nat>)
    ensures |r| == |row|
    decreases |row|
  {
    if row == [] then [] else [row[0] + 1] + Shifted(row[1..])
  }

  /** `for eid, elem in enumerate(cells, start=1)`: one element line per cell. */
  function ElementLines(rows: seq<Row>): (r: seq<Line>)
    ensures |r| == |rows|
    decreases |rows|
  {
    if rows == [] then []
    else ElementLines(rows[..|rows| - 1]) + [ElementLine(|rows|, Shifted(rows[|rows| - 1]))]
  }

  /** The FIXED_NODES members: the ids of the points with |z| below the tolerance. */
  function FixedLines(points: seq<Vec3>, tol: real): (r: seq<Line>)
    ensures |r| <= |points|
    ensures forall k :: 0 <= k < |r| ==> r[k].SetMember? && 1 <= r[k].id <= |points|
    decreases |points|
  {
    if points == [] then []
    else
      var init := FixedLines(points[..|points| - 1], tol);
      if Abs(points[|points| - 1].z) < tol then init + [SetMember(|points|)] else init
  }

  /** `for i in range(1, n + 1)`: one line `i, value` per node id. */
  function ConstantLines(n: nat, value: real): (r: seq<Line>)
    ensures |r| == n
  {
    if n == 0 then [] else ConstantLines(n - 1, value) + [NodeValue(n, value)]
  }

  /** `for i, v in enumerate(values, start=1)`: one line `i, v` per value. */
  function ValueLines(values: seq<real>): (r: seq<Line>)
    ensures |r| == |values|
    decreases |values|
  {
    if values == [] then []
    else ValueLines(values[..|values| - 1]) + [NodeValue(|values|, values[|values| - 1])]
  }

  /** The keyword cards the deck uses; `CardText` is the line written for each. */
  datatype Card =
    | HeadingCard
    | NodeCard
    | ElementCard
    | SectionCard
    | MaterialCard
    | ElasticCard
    | ExpansionCard
    | FixedCard
    | BoundaryCard
    | InitialCard
    | StepCard
    | StaticCard
    | NodeFileCard
    | ElementFileCard
    | TemperatureCard
    | EndStepCard

  function CardText(k: Card): string
  {
    match k
    case HeadingCard => "*Heading"
    case NodeCard => "*Node, nset=ALLNODES"
    case ElementCard => "*Element, type=C3D4, elset=ALL_ELEMENTS"
    case SectionCard => "*Solid Section, elset=ALL_ELEMENTS, material=MAT1"
    case MaterialCard => "*Material, name=MAT1"
    case ElasticCard => "*Elastic"
    case ExpansionCard => "*Expansion"
    case FixedCard => "*Nset, nset=FIXED_NODES"
    case BoundaryCard => "*Boundary"
    case InitialCard => "*Initial Conditions, TYPE=TEMPERATURE"
    case StepCard => "*Step, name=ThermoElastic, nlgeom=NO"
    case StaticCard => "*Static"
    case NodeFileCard => "*NODE FILE, OUTPUT=FRD"
    case ElementFileCard => "*EL FILE,   OUTPUT=FRD"
    case TemperatureCard => "*Temperature"
    case EndStepCard => "*End Step"
  }

  const HeaderLines: seq<Line> :=
    [Text("** cross-verification INP"), Keyword(HeadingCard), Text("Calculated by export_to_calculix.py"), Blank]
  const BoundaryLine := "FIXED_NODES, 1, 3, 0.0"
  const BoundaryLines: seq<Line> := [Keyword(BoundaryCard), Text(BoundaryLine), Blank]
  const StepLines: seq<Line> := [Keyword(StepCard), Keyword(StaticCard), Blank]
  const OutputLines: seq<Line> := [Keyword(NodeFileCard), Text("U"), Blank, Keyword(ElementFileCard), Blank]

  /** The material block: section, material, elastic constants and expansion coefficient. */
  function MaterialLines(c: Elastic, alphaT: real): seq<Line>
  {
    [Keyword(SectionCard), Keyword(MaterialCard), Keyword(ElasticCard), ElasticLine(c.e, c.nu),
     Keyword(ExpansionCard), ExpansionLine(alphaT), Blank]
  }

  /** The node section: keyword, one line per point, blank line. */
  function NodeSection(points: seq<Vec3>): seq<Line>
  {
    [Keyword(NodeCard)] + NodeLines(points) + [Blank]
  }

  /** The element section: keyword, one line per tetrahedron, blank line. */
  function ElementSection(rows: seq<Row>): seq<Line>
  {
    [Keyword(ElementCard)] + ElementLines(rows) + [Blank]
  }

  /** The fixed-node set and the boundary condition on it. */
  function FixedSection(points: seq<Vec3>, tol: real): seq<Line>
  {
    [Keyword(FixedCard)] + FixedLines(points, tol) + BoundaryLines
  }

  /** The initial temperature of every node. */
  function InitialSection(n: nat, tRef: real): seq<Line>
  {
    [Keyword(InitialCard)] + ConstantLines(n, tRef) + [Blank]
  }

  /** The applied temperatures, closing the step. */
  function TemperatureSection(temps: seq<real>): seq<Line>
  {
    [Keyword(TemperatureCard)] + ValueLines(temps) + [Keyword(EndStepCard)]
  }

  /** The deck `export_inp` writes, section after section. */
  function Deck(points: seq<Vec3>, rows: seq<Row>, temps: seq<real>, c: Elastic, p: Params): seq<Line>
  {
    HeaderLines + NodeSection(points) + ElementSection(rows) + MaterialLines(c, p.alphaT)
    + FixedSection(points, p.fixTol) + InitialSection(|points|, p.tRef) + StepLines + OutputLines
    + TemperatureSection(temps)
  }

  /**
   * Everything `export_inp` has written when the temperature loop formats
   * its first value: the deck up to and including the "*Temperature" card.
   */
  function DeckHead(points: seq<Vec3>, rows: seq<Row>, c: Elastic, p: Params): seq<Line>
  {
    HeaderLines + NodeSection(points) + ElementSection(rows) + MaterialLines(c, p.alphaT)
    + FixedSection(points, p.fixTol) + InitialSection(|points|, p.tRef) + StepLines + OutputLines
    + [Keyword(TemperatureCard)]
  }

  /** The deck is its head, then one line per temperature, then "*End Step". */
  lemma DeckFromHead(points: seq<Vec3>, rows: seq<Row>, temps: seq<real>, c: Elastic, p: Params)
    ensures Deck(points, rows, temps, c, p) == DeckHead(points, rows, c, p) + ValueLines(temps) + [Keyword(EndStepCard)]
    ensures Deck(points, rows, temps, c, p)[..|DeckHead(points, rows, c, p)|] == DeckHead(points, rows, c, p)
  {
    var head := HeaderLines + NodeSection(points) + ElementSection(rows) + MaterialLines(c, p.alphaT)
      + FixedSection(points, p.fixTol) + InitialSection(|points|, p.tRef) + StepLines + OutputLines;
    assert Deck(points, rows, temps, c, p) == head + TemperatureSection(temps);
    assert DeckHead(points, rows, c, p) == head + [Keyword(TemperatureCard)];
  }

  /**
   * The values the temperature loop formats with `:.6f`: those of a scalar
   * field. A vector field fails at its first row, and one without rows
   * formats nothing; a magnitude field's values are square roots the model
   * does not hold.
   */
  function TemperatureValues(f: FieldData): (r: Option<seq<real>>)
    ensures r.Some? <==> f.Scalars? || (f.Vectors? && f.vectors == [])
    ensures f.Scalars? ==> r == Some(f.values)
  {
    match f
    case Scalars(values) => Some(values)
    case Vectors(vectors) => if vectors == [] then Some([]) else None
    case Magnitudes(_) => None
  }

  /** The mesh, its "tetra" cells, the temperature file and its "T" field are all found. */
  predicate Loaded(fs: FileSystem, meshPath: Path, tempPath: Path)
  {
    && meshPath in fs && CellsOfKind(fs[meshPath].cells, "tetra").Some?
    && tempPath in fs && "T" in fs[tempPath].pointData
  }

  /**
   * `export_inp` over the file map: the mesh, its "tetra" cells, the
   * temperature file and its "T" field are looked up, in that order, and the
   * constants computed, all before the deck is opened; a failure there is the
   * error and nothing is written. A "T" field the loop cannot format fails
   * after the deck head has been written, and the error carries that head.
   */
  function Export(fs: FileSystem, meshPath: Path, tempPath: Path, p: Params): (r: Result<seq<Line>, ExportError>)
    ensures meshPath !in fs ==> r == Err(InputNotFound(meshPath))
    ensures meshPath in fs && CellsOfKind(fs[meshPath].cells, "tetra").None? ==> r == Err(MissingKey("tetra"))
    ensures meshPath in fs && CellsOfKind(fs[meshPath].cells, "tetra").Some? && tempPath !in fs ==>
              r == Err(InputNotFound(tempPath))
    ensures (&& meshPath in fs && CellsOfKind(fs[meshPath].cells, "tetra").Some? && tempPath in fs
             && "T" !in fs[tempPath].pointData) ==> r == Err(MissingKey("T"))
    ensures Loaded(fs, meshPath, tempPath) && p.lam + p.mu == 0.0 ==> r == Err(ZeroDivision)
    ensures r.Ok? <==>
      Loaded(fs, meshPath, tempPath) && TemperatureValues(fs[tempPath].pointData["T"]).Some? && p.lam + p.mu != 0.0
    ensures r.Ok? ==>
              && Loaded(fs, meshPath, tempPath) && p.lam + p.mu != 0.0
              && r.value == Deck(fs[meshPath].points, CellsOfKind(fs[meshPath].cells, "tetra").value,
                                 TemperatureValues(fs[tempPath].pointData["T"]).value, ComputeENu(p.lam, p.mu).value, p)
    ensures r.Err? && r.error.NotScalarField? ==>
              && Loaded(fs, meshPath, tempPath) && p.lam + p.mu != 0.0
              && r.error == NotScalarField("T", DeckHead(fs[meshPath].points, CellsOfKind(fs[meshPath].cells, "tetra").value,
                                                         ComputeENu(p.lam, p.mu).value, p))
  {
    if meshPath !in fs then Err(InputNotFound(meshPath))
    else
      var mesh := fs[meshPath];
      match CellsOfKind(mesh.cells, "tetra")
      case None => Err(MissingKey("tetra"))
      case Some(rows) =>
        if tempPath !in fs then Err(InputNotFound(tempPath))
        else if "T" !in fs[tempPath].pointData then Err(MissingKey("T"))
        else
          match ComputeENu(p.lam, p.mu)
          case Err(e) => Err(e)
          case Ok(c) =>
            match TemperatureValues(fs[tempPath].pointData["T"])
            case Some(temps) => Ok(Deck(mesh.points, rows, temps, c, p))
            case None => Err(NotScalarField("T", DeckHead(mesh.points, rows, c, p)))
  }

  /** Line i of the node block carries id i + 1 and point i. */
  lemma {:induction false} NodeLinesAt(points: seq<Vec3>, i: nat)
    requires i < |points|
    ensures NodeLines(points)[i] == NodeLine(i + 1, points[i])
    decreases |points|
  {
    if i < |points| - 1 {
      NodeLinesAt(points[..|points| - 1], i);
    }
  }

  /** Node id c of an element line is the 0-based index c plus one. */
  lemma {:induction false} ShiftedAt(row: Row, c: nat)
    requires c < |row|
    ensures Shifted(row)[c] == row[c] + 1
    decreases |row|
  {
    if c > 0 {
      ShiftedAt(row[1..], c - 1);
    }
  }

  /** Line i of the element block carries id i + 1 and the shifted indices of cell i. */
  lemma {:induction false} ElementLinesAt(rows: seq<Row>, i: nat)
    requires i < |rows|
    ensures ElementLines(rows)[i] == ElementLine(i + 1, Shifted(rows[i]))
    decreases |rows|
  {
    if i < |rows| - 1 {
      ElementLinesAt(rows[..|rows| - 1], i);
    }
  }

  /** With meshio's four corners per "tetra" row, every element line names four nodes. */
  lemma ElementLinesHaveFourNodes(cells: seq<CellBlock>, i: nat)
    requires BlocksHaveArity(cells, "tetra", 4)
    requires CellsOfKind(cells, "tetra").Some? && i < |CellsOfKind(cells, "tetra").value|
    ensures var l := ElementLines(CellsOfKind(cells, "tetra").value)[i];
      l.ElementLine? && |l.nodes| == 4
  {
    CellsOfKindRows(cells, "tetra", i);
    ElementLinesAt(CellsOfKind(cells, "tetra").value, i);
  }

  /** Member lines whose ids strictly increase. */
  predicate Ascending(r: seq<Line>)
    requires forall k :: 0 <= k < |r| ==> r[k].SetMember?
  {
    forall k, l :: 0 <= k < l < |r| ==> r[k].id < r[l].id
  }

  /** The FIXED_NODES ids are strictly ascending. */
  lemma {:induction false} FixedLinesAscending(points: seq<Vec3>, tol: real)
    ensures Ascending(FixedLines(points, tol))
    decreases |points|
  {
    if points != [] {
      var init := points[..|points| - 1];
      FixedLinesAscending(init, tol);
      if Abs(points[|points| - 1].z) < tol {
        assert FixedLines(points, tol) == FixedLines(init, tol) + [SetMember(|points|)];
      }
    }
  }

  /** FIXED_NODES holds exactly the ids of the points with |z| strictly below the tolerance. */
  lemma {:induction false} FixedLinesMembers(points: seq<Vec3>, tol: real, id: nat)
    ensures SetMember(id) in FixedLines(points, tol) <==> 1 <= id <= |points| && Abs(points[id - 1].z) < tol
    decreases |points|
  {
    if points != [] {
      var init := points[..|points| - 1];
      FixedLinesMembers(init, tol, id);
      if id <= |init| && 1 <= id {
        assert init[id - 1] == points[id - 1];
      }
    }
  }

  /** Line i of the initial conditions is node i + 1 at the reference temperature. */
  lemma {:induction false} ConstantLinesAt(n: nat, value: real, i: nat)
    requires i < n
    ensures ConstantLines(n, value)[i] == NodeValue(i + 1, value)
  {
    if i < n - 1 {
      ConstantLinesAt(n - 1, value, i);
    }
  }

  /** Line i of the temperature block is node i + 1 with the i-th value of the T field. */
  lemma {:induction false} ValueLinesAt(values: seq<real>, i: nat)
    requires i < |values|
    ensures ValueLines(values)[i] == NodeValue(i + 1, values[i])
    decreases |values|
  {
    if i < |values| - 1 {
      ValueLinesAt(values[..|values| - 1], i);
    }
  }

  /** The keyword a line carries, if it is a keyword line. */
  function LineKeyword(l: Line): seq<Card>
  {
    if l.Keyword? then [l.card] else []
  }

  /** The keyword lines of a deck, in order. */
  function Keywords(lines: seq<Line>): (r: seq<Card>)
    decreases |lines|
  {
    if lines == [] then []
    else LineKeyword(lines[0]) + Keywords(lines[1..])
  }

  lemma {:induction false} KeywordsAppend(a: seq<Line>, b: seq<Line>)
    ensures Keywords(a + b) == Keywords(a) + Keywords(b)
    decreases |a|
  {
    if a == [] {
      assert a + b == b;
    } else {
      var ab := a + b;
      assert ab[0] == a[0];
      assert ab[1..] == a[1..] + b;
      KeywordsAppend(a[1..], b);
      var h := LineKeyword(a[0]);
      assert Keywords(ab) == h + Keywords(a[1..] + b);
      assert Keywords(a) == h + Keywords(a[1..]);
    }
  }

  /** A block without keyword lines contributes none. */
  lemma {:induction false} NoKeywords(lines: seq<Line>)
    requires forall k :: 0 <= k < |lines| ==> !lines[k].Keyword?
    ensures Keywords(lines) == []
    decreases |lines|
  {
    if lines != [] {
      NoKeywords(lines[1..]);
    }
  }

  /** A section made of a keyword, data lines and a tail. */
  lemma SectionKeywords(head: Card, data: seq<Line>, tail: seq<Line>)
    requires forall k :: 0 <= k < |data| ==> !data[k].Keyword?
    ensures Keywords([Keyword(head)] + data + tail) == [head] + Keywords(tail)
  {
    KeywordsAppend([Keyword(head)] + data, tail);
    KeywordsAppend([Keyword(head)], data);
    NoKeywords(data);
  }

  lemma NodeSectionKeywords(points: seq<Vec3>)
    ensures Keywords(NodeSection(points)) == [NodeCard]
  {
    forall k | 0 <= k < |points| ensures !NodeLines(points)[k].Keyword? { NodeLinesAt(points, k); }
    SectionKeywords(NodeCard, NodeLines(points), [Blank]);
  }

  lemma ElementSectionKeywords(rows: seq<Row>)
    ensures Keywords(ElementSection(rows)) == [ElementCard]
  {
    forall k | 0 <= k < |rows| ensures !ElementLines(rows)[k].Keyword? { ElementLinesAt(rows, k); }
    SectionKeywords(ElementCard, ElementLines(rows), [Blank]);
  }

  lemma FixedSectionKeywords(points: seq<Vec3>, tol: real)
    ensures Keywords(FixedSection(points, tol)) == [FixedCard, BoundaryCard]
  {
    SectionKeywords(FixedCard, FixedLines(points, tol), BoundaryLines);
    var t2: seq<Line> := [Blank];
    KeywordsCons(Blank, []);
    assert [Blank] + [] == t2;
    assert Keywords(t2) == [];
    var t1 := [Text(BoundaryLine)] + t2;
    KeywordsCons(Text(BoundaryLine), t2);
    assert Keywords(t1) == [];
    var t0 := [Keyword(BoundaryCard)] + t1;
    KeywordsCons(Keyword(BoundaryCard), t1);
    assert Keywords(t0) == [BoundaryCard];
    assert t0 == BoundaryLines;
  }

  lemma InitialSectionKeywords(n: nat, tRef: real)
    ensures Keywords(InitialSection(n, tRef)) == [InitialCard]
  {
    forall k | 0 <= k < n ensures !ConstantLines(n, tRef)[k].Keyword? { ConstantLinesAt(n, tRef, k); }
    SectionKeywords(InitialCard, ConstantLines(n, tRef), [Blank]);
  }

  lemma TemperatureSectionKeywords(temps: seq<real>)
    ensures Keywords(TemperatureSection(temps)) == [TemperatureCard, EndStepCard]
  {
    forall k | 0 <= k < |temps| ensures !ValueLines(temps)[k].Keyword? { ValueLinesAt(temps, k); }
    SectionKeywords(TemperatureCard, ValueLines(temps), [Keyword(EndStepCard)]);
  }

  lemma HeaderKeywords()
    ensures Keywords(HeaderLines) == [HeadingCard]
  {
    var t3: seq<Line> := [Blank];
    KeywordsCons(Blank, []);
    assert [Blank] + [] == t3;
    assert Keywords(t3) == [];
    var t2 := [Text("Calculated by export_to_calculix.py")] + t3;
    KeywordsCons(Text("Calculated by export_to_calculix.py"), t3);
    assert Keywords(t2) == [];
    var t1 := [Keyword(HeadingCard)] + t2;
    KeywordsCons(Keyword(HeadingCard), t2);
    assert Keywords(t1) == [HeadingCard];
    var t0 := [Text("** cross-verification INP")] + t1;
    KeywordsCons(Text("** cross-verification INP"), t1);
    assert Keywords(t0) == [HeadingCard];
    assert t0 == HeaderLines;
  }

  lemma MaterialKeywords(c: Elastic, alphaT: real)
    ensures Keywords(MaterialLines(c, alphaT)) == [SectionCard, MaterialCard, ElasticCard, ExpansionCard]
  {
    KeywordsOfSeven(Keyword(SectionCard), Keyword(MaterialCard), Keyword(ElasticCard), ElasticLine(c.e, c.nu),
      Keyword(ExpansionCard), ExpansionLine(alphaT), Blank);
  }

  /** The keywords of a block of seven lines, one line at a time. */
  lemma KeywordsOfSeven(x0: Line, x1: Line, x2: Line, x3: Line, x4: Line, x5: Line, x6: Line)
    ensures Keywords([x0, x1, x2, x3, x4, x5, x6])
         == LineKeyword(x0) + (LineKeyword(x1) + (LineKeyword(x2) + (LineKeyword(x3)
          + (LineKeyword(x4) + (LineKeyword(x5) + LineKeyword(x6))))))
  {
    var k6 := LineKeyword(x6);
    var t6: seq<Line> := [x6];
    KeywordsCons(x6, []);
    assert [x6] + [] == t6;
    assert Keywords(t6) == k6;
    var t5, k5 := [x5] + t6, LineKeyword(x5) + k6;
    KeywordsCons(x5, t6);
    var t4, k4 := [x4] + t5, LineKeyword(x4) + k5;
    KeywordsCons(x4, t5);
    var t3, k3 := [x3] + t4, LineKeyword(x3) + k4;
    KeywordsCons(x3, t4);
    var t2, k2 := [x2] + t3, LineKeyword(x2) + k3;
    KeywordsCons(x2, t3);
    var t1, k1 := [x1] + t2, LineKeyword(x1) + k2;
    KeywordsCons(x1, t2);
    var t0, k0 := [x0] + t1, LineKeyword(x0) + k1;
    KeywordsCons(x0, t1);
    assert Keywords(t0) == k0;
    assert t0 == [x0, x1, x2, x3, x4, x5, x6];
  }

  /** Keywords of a line followed by a block. */
  lemma KeywordsCons(x: Line, rest: seq<Line>)
    ensures Keywords([x] + rest) == LineKeyword(x) + Keywords(rest)
  {
    assert ([x] + rest)[1..] == rest;
  }

  lemma StepKeywords()
    ensures Keywords(StepLines) == [StepCard, StaticCard]
  {
    var t2: seq<Line> := [Blank];
    KeywordsCons(Blank, []);
    assert [Blank] + [] == t2;
    assert Keywords(t2) == [];
    var t1 := [Keyword(StaticCard)] + t2;
    KeywordsCons(Keyword(StaticCard), t2);
    assert Keywords(t1) == [StaticCard];
    var t0 := [Keyword(StepCard)] + t1;
    KeywordsCons(Keyword(StepCard), t1);
    assert Keywords(t0) == [StepCard, StaticCard];
    assert t0 == StepLines;
  }

  lemma OutputKeywords()
    ensures Keywords(OutputLines) == [NodeFileCard, ElementFileCard]
  {
    var t4: seq<Line> := [Blank];
    KeywordsCons(Blank, []);
    assert [Blank] + [] == t4;
    assert Keywords(t4) == [];
    var t3 := [Keyword(ElementFileCard)] + t4;
    KeywordsCons(Keyword(ElementFileCard), t4);
    assert Keywords(t3) == [ElementFileCard];
    var t2 := [Blank] + t3;
    KeywordsCons(Blank, t3);
    assert Keywords(t2) == [ElementFileCard];
    var t1 := [Text("U")] + t2;
    KeywordsCons(Text("U"), t2);
    assert Keywords(t1) == [ElementFileCard];
    var t0 := [Keyword(NodeFileCard)] + t1;
    KeywordsCons(Keyword(NodeFileCard), t1);
    assert Keywords(t0) == [NodeFileCard, ElementFileCard];
    assert t0 == OutputLines;
  }

  /**
   * The keyword cards of the deck, in the order `export_inp` writes them:
   * heading, nodes, elements, section, material, elastic, expansion, node
   * set, boundary, initial conditions, step, static, node file, element
   * file, temperature, end of step.
   */
  const DeckCards: seq<Card> :=
    [HeadingCard, NodeCard, ElementCard, SectionCard, MaterialCard, ElasticCard,
     ExpansionCard, FixedCard, BoundaryCard, InitialCard, StepCard, StaticCard,
     NodeFileCard, ElementFileCard, TemperatureCard, EndStepCard]

  /** The keyword lines of every deck are exactly `DeckCards`, in that order. */
  lemma DeckKeywords(points: seq<Vec3>, rows: seq<Row>, temps: seq<real>, c: Elastic, p: Params)
    ensures Keywords(Deck(points, rows, temps, c, p)) == DeckCards
  {
    HeaderKeywords();
    NodeSectionKeywords(points);
    ElementSectionKeywords(rows);
    MaterialKeywords(c, p.alphaT);
    FixedSectionKeywords(points, p.fixTol);
    InitialSectionKeywords(|points|, p.tRef);
    StepKeywords();
    OutputKeywords();
    TemperatureSectionKeywords(temps);
    DeckOrder(HeaderLines, NodeSection(points), ElementSection(rows), MaterialLines(c, p.alphaT),
      FixedSection(points, p.fixTol), InitialSection(|points|, p.tRef), StepLines, OutputLines,
      TemperatureSection(temps));
  }

  /** Nine blocks whose keywords are known, one after the other. */
  lemma DeckOrder(a: seq<Line>, b: seq<Line>, c: seq<Line>, d: seq<Line>, e: seq<Line>,
                  f: seq<Line>, g: seq<Line>, h: seq<Line>, i: seq<Line>)
    requires Keywords(a) == [HeadingCard] && Keywords(b) == [NodeCard] && Keywords(c) == [ElementCard]
    requires Keywords(d) == [SectionCard, MaterialCard, ElasticCard, ExpansionCard]
    requires Keywords(e) == [FixedCard, BoundaryCard] && Keywords(f) == [InitialCard]
    requires Keywords(g) == [StepCard, StaticCard] && Keywords(h) == [NodeFileCard, ElementFileCard]
    requires Keywords(i) == [TemperatureCard, EndStepCard]
    ensures Keywords(a + b + c + d + e + f + g + h + i) == DeckCards
  {
    KeywordsOfParts(a, b, c, d, e, f, g, h, i);
    CardOrder(Keywords(a), Keywords(b), Keywords(c), Keywords(d), Keywords(e), Keywords(f), Keywords(g),
      Keywords(h), Keywords(i));
  }

  /** The cards of the nine blocks, concatenated. */
  lemma CardOrder(a: seq<Card>, b: seq<Card>, c: seq<Card>, d: seq<Card>, e: seq<Card>,
                  f: seq<Card>, g: seq<Card>, h: seq<Card>, i: seq<Card>)
    requires a == [HeadingCard] && b == [NodeCard] && c == [ElementCard]
    requires d == [SectionCard, MaterialCard, ElasticCard, ExpansionCard]
    requires e == [FixedCard, BoundaryCard] && f == [InitialCard]
    requires g == [StepCard, StaticCard] && h == [NodeFileCard, ElementFileCard]
    requires i == [TemperatureCard, EndStepCard]
    ensures a + b + c + d + e + f + g + h + i == DeckCards
  {
  }

  /** The keyword lines of nine consecutive blocks. */
  lemma KeywordsOfParts(a: seq<Line>, b: seq<Line>, c: seq<Line>, d: seq<Line>, e: seq<Line>,
                        f: seq<Line>, g: seq<Line>, h: seq<Line>, i: seq<Line>)
    ensures Keywords(a + b + c + d + e + f + g + h + i)
         == Keywords(a) + Keywords(b) + Keywords(c) + Keywords(d) + Keywords(e)
          + Keywords(f) + Keywords(g) + Keywords(h) + Keywords(i)
  {
    KeywordsAppend(a, b);
    KeywordsAppend(a + b, c);
    KeywordsAppend(a + b + c, d);
    KeywordsAppend(a + b + c + d, e);
    KeywordsAppend(a + b + c + d + e, f);
    KeywordsAppend(a + b + c + d + e + f, g);
    KeywordsAppend(a + b + c + d + e + f + g, h);
    KeywordsAppend(a + b + c + d + e + f + g + h, i);
  }

  /** The node section, written line by line to the buffer. */
  method WriteNodes(out: seq<Line>, points: seq<Vec3>) returns (out': seq<Line>)
    ensures out' == out + NodeSection(points)
  {
    out' := out + [Keyword(NodeCard)];
    for i := 0 to |points|
      invariant out' == out + [Keyword(NodeCard)] + NodeLines(points[..i])
    {
      assert points[..i + 1][..i] == points[..i];
      out' := out' + [NodeLine(i + 1, points[i])];
    }
    assert points[..|points|] == points;
    out' := out' + [Blank];
  }

  /** The element section, written line by line to the buffer. */
  method WriteElements(out: seq<Line>, rows: seq<Row>) returns (out': seq<Line>)
    ensures out' == out + ElementSection(rows)
  {
    out' := out + [Keyword(ElementCard)];
    for i := 0 to |rows|
      invariant out' == out + [Keyword(ElementCard)] + ElementLines(rows[..i])
    {
      assert rows[..i + 1][..i] == rows[..i];
      out' := out' + [ElementLine(i + 1, Shifted(rows[i]))];
    }
    assert rows[..|rows|] == rows;
    out' := out' + [Blank];
  }

  /** The fixed-node section, written line by line to the buffer. */
  method WriteFixed(out: seq<Line>, points: seq<Vec3>, tol: real) returns (out': seq<Line>)
    ensures out' == out + FixedSection(points, tol)
  {
    out' := out + [Keyword(FixedCard)];
    for i := 0 to |points|
      invariant out' == out + [Keyword(FixedCard)] + FixedLines(points[..i], tol)
    {
      assert points[..i + 1][..i] == points[..i];
      if Abs(points[i].z) < tol {
        out' := out' + [SetMember(i + 1)];
      }
    }
    assert points[..|points|] == points;
    out' := out' + BoundaryLines;
  }

  /** The initial-conditions section, written line by line to the buffer. */
  method WriteInitial(out: seq<Line>, n: nat, tRef: real) returns (out': seq<Line>)
    ensures out' == out + InitialSection(n, tRef)
  {
    out' := out + [Keyword(InitialCard)];
    for i := 1 to n + 1
      invariant out' == out + [Keyword(InitialCard)] + ConstantLines(i - 1, tRef)
    {
      out' := out' + [NodeValue(i, tRef)];
    }
    out' := out' + [Blank];
  }

  /** The temperature section, written line by line to the buffer. */
  method WriteTemperatures(out: seq<Line>, temps: seq<real>) returns (out': seq<Line>)
    ensures out' == out + TemperatureSection(temps)
  {
    out' := out + [Keyword(TemperatureCard)];
    for i := 0 to |temps|
      invariant out' == out + [Keyword(TemperatureCard)] + ValueLines(temps[..i])
    {
      assert temps[..i + 1][..i] == temps[..i];
      out' := out' + [NodeValue(i + 1, temps[i])];
    }
    assert temps[..|temps|] == temps;
    out' := out' + [Keyword(EndStepCard)];
  }

  /**
   * `export_inp`: the lookups and the constants, then the writes in order
   * into a buffer that becomes the deck; a "T" field the temperature loop
   * cannot format stops the writing after the "*Temperature" card.
   */
  method ExportInp(fs: FileSystem, meshPath: Path, tempPath: Path, p: Params) returns (r: Result<seq<Line>, ExportError>)
    ensures r == Export(fs, meshPath, tempPath, p)
  {
    if meshPath !in fs {
      return Err(InputNotFound(meshPath));
    }
    var mesh := fs[meshPath];
    var cells := CellsOfKind(mesh.cells, "tetra");
    if cells.None? {
      return Err(MissingKey("tetra"));
    }
    if tempPath !in fs {
      return Err(InputNotFound(tempPath));
    }
    if "T" !in fs[tempPath].pointData {
      return Err(MissingKey("T"));
    }
    var field := fs[tempPath].pointData["T"];
    var c := ComputeENu(p.lam, p.mu);
    if c.Err? {
      return Err(c.error);
    }
    var points, rows := mesh.points, cells.value;
    var out := HeaderLines;
    out := WriteNodes(out, points);
    out := WriteElements(out, rows);
    out := out + MaterialLines(c.value, p.alphaT);
    out := WriteFixed(out, points, p.fixTol);
    out := WriteInitial(out, |points|, p.tRef);
    out := out + StepLines;
    out := out + OutputLines;
    var temps := TemperatureValues(field);
    if temps.None? {
      return Err(NotScalarField("T", out + [Keyword(TemperatureCard)]));
    }
    out := WriteTemperatures(out, temps.value);
    return Ok(out);
  }
}
