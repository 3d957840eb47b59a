# solidification-flow: mesh conversion, dictionary edits, CalculiX export and comparison

This Dafny project models the Python glue of the solidification-flow
pipeline. The glue sits between the OpenFOAM solver, the FEniCS elasticity
solve and the CalculiX cross-check. The model covers four parts:

- **`prepare_mesh`** (`hex_to_tet.dfy`, module `HexToTet`). Every
  "hexahedron" block of the source mesh becomes its own "tetra" block: each
  hexahedron is split into five tetrahedra by a fixed template, and the
  five template blocks are stacked one after another. Other blocks are
  copied unchanged. The result is written once to a destination file, and
  later calls reuse that file.
- **OpenFOAM dictionary edits.**
  - `update_dictionary_text` (`foam_dict.dfy`, `FoamDict`) is modelled as a
    line-by-line matcher for `key [dims] value;`. It replaces only the value
    token.
  - `update_section_in_transport` (`foam_section.dfy`, `FoamSection`) finds
    the leftmost `name { ... }` section and applies the same edits to its
    block. It then rebuilds the text with `str.replace`, which rewrites
    every identical copy of the section, not only the one matched.
  - Line splitting and the `\s*` and `[^}]*` scans are in `text_scan.dfy`
    (`TextScan`).
- **Time-step choice in `run_fenics`** (`sim_dirs.dfy`, `SimDirs`). Among
  the directories named `simulation_<digits>[.<digits>]`, the latest time
  is chosen, with a stable sort and the last element.
- **CalculiX export** (`calculix_export.dfy`, `CalculixExport`).
  - `compute_E_nu` converts the Lamé constants to Young's modulus and
    Poisson's ratio.
  - `export_inp` writes the input deck. The deck is modelled as a sequence
    of typed lines appended to a buffer.
- **Comparison** (`compare.dfy`, `Compare`). `compare` resolves the
  CalculiX displacement from "U" or from "U1", "U2", "U3". It measures the
  L2 and L-infinity norms of the difference from the FEniCS field "Uel".
  It then builds the error mesh on the reference tetrahedral mesh.

Shared data are in `mesh.dfy` (`MeshData`):
- A mesh is its points, its typed cell blocks and its named point fields.
- The files on disk are a finite map from path to mesh, so a missing file is
  a missing key.
- `CellsOfKind` is meshio's `cells_dict[kind]`: the rows of every block of
  that kind, concatenated.

`wrappers.dfy` holds `Option` and `Result`. Every error the Python code
raises is an `Err` value, in the order the code would raise it, except the
errors listed under "Left out". Where the
code has written part of a file before it fails, the error carries what
was written.

## Model

| member | source | states |
|---|---|---|
| MeshData.Parent | app/compare_calculix.py:31 | The parent path followed by the last component is the original path; the empty path is its own parent. |
| MeshData.DistinctKinds | app/compare_calculix.py:37-39 | The keys of `cells_dict`: a type is listed exactly when some block has it, and no type is listed twice. |
| MeshData.DistinctKindsOrder | app/compare_calculix.py:37-39 | Types are listed in order of first appearance: a type listed earlier occurs in a block before every block of a type listed later. |
| MeshData.CellsOfKind | app/export_to_calculix.py:17 | `cells_dict[kind]` is missing exactly when no block has that type. |
| MeshData.CellsOfKindRows | app/compare_calculix.py:40 | Every row of `cells_dict[kind]` is a row of some block of that type. |
| MeshData.CellsOfKindLength | app/compare_calculix.py:40 | `cells_dict[kind]` has as many rows as the blocks of that type together. |
| MeshData.CellsOfKindAt | app/compare_calculix.py:40 | Row `k` of block `j` of the type is in `cells_dict[kind]`, at position `k` plus the row count of the earlier blocks of that type. |
| MeshData.CellsOfKindSingle | app/compare_calculix.py:46 | A mesh with the single block `("tetra", cells)` gives back exactly `cells`. |
| HexToTet.StackAt | app/client.py:94 | In the stacked result, row `k*H + i` is hexahedron `i` regrouped by template `k`. |
| HexToTet.StackInRange | app/client.py:89-94 | Stacking keeps every index inside `[0, n)` when the hexahedron indices are. |
| HexToTet.DecomposeAt | app/client.py:89-94 | A block of `H` hexahedra gives `5*H` rows. Row `k*H + i` has four corners, and corner `c` is `h[i][Templates[k][c]]`. The output is grouped by template. |
| HexToTet.DecomposeInRange | app/client.py:89-94 | No new point index appears: with all hexahedron indices below `n`, all tetrahedron indices are too. |
| HexToTet.TetraOf | app/client.py:89-93 | Tetrahedron `k` of hexahedron `i` has the four corners template `k` selects. |
| HexToTet.DecomposeCoversCorners | app/client.py:89-93 | Each of the eight corners of a hexahedron is a corner of one of its five tetrahedra. |
| HexToTet.TemplatesDistinct | app/client.py:89-93 | The four local corners of each template are pairwise distinct. |
| HexToTet.DecomposeDistinct | app/client.py:89-93 | A hexahedron with eight distinct indices yields tetrahedra with four distinct indices each. |
| HexToTet.SingleHexIsTemplate | app/client.py:89-94 | The hexahedron `[0..7]` decomposes to the template list itself, in order. |
| HexToTet.TetMeshShape | app/client.py:78-100 | Points and point data are kept. The block count is kept. Each hexahedron block becomes a "tetra" block with five times its rows, in place. Every other block is copied. |
| HexToTet.TetMeshInRange | app/client.py:89-100 | A mesh whose indices are in range converts to a mesh whose indices are in range. |
| HexToTet.ConvertCells | app/client.py:77-97 | The loop's list holds, block by block, the converted block: tetrahedra for a hexahedron block, and the block itself otherwise. |
| HexToTet.PrepareMesh | app/client.py:69-107 | An existing destination is loaded unchanged, nothing is written and the source is not consulted. A missing source fails. Otherwise the converted mesh is written to the destination and returned, with the source's points, point data and block count. |
| HexToTet.PrepareIsMemoized | app/client.py:74 | After a successful call, a second call with the same destination changes nothing and returns the same mesh, whatever its source path. |
| TextScan.SpaceEnd | app/client.py:18 | `\s*` from `i`: the end of the run is at or after `i`, and is not a space. |
| TextScan.SpaceEndAt | app/client.py:18 | The end of the space run is exactly the first non-space at or after `i`. |
| TextScan.Find | app/client.py:32 | `[^}]*` from `i`: the end is at or after `i` and, if inside the text, is the sought character. |
| TextScan.FindAt | app/client.py:32 | The scan ends exactly at the first occurrence of the character. |
| TextScan.Lines | app/client.py:20 | The lines that `^` of `re.MULTILINE` starts: at least one, and none contains a newline. |
| TextScan.UnlinesLines | app/client.py:20 | Joining the lines with newlines gives back the text. |
| TextScan.LinesUnlines | app/client.py:20 | Splitting the join of newline-free lines gives back the lines. |
| FoamDict.ValueAt | app/client.py:18 | A value token `[^\s;]+` starts at the given position and is followed by `\s*;`. |
| FoamDict.DimsPath | app/client.py:18 | The optional `[dims]` group: a `[` at the start, the first `]` after it, then only blanks (at least one) up to the value token, which is followed by `\s*;`. |
| FoamDict.MatchAfterKey | app/client.py:18 | After the key, a match has between key and value either only blanks (at least one) or blanks, one `[...]` group closed at its first `]`, and blanks (at least one); the value token is followed by `\s*;`. |
| FoamDict.MatchFrom | app/client.py:18 | With `^\s*` giving back blanks one at a time, a match has the key at some position within the leading blanks, then the gap `MatchAfterKey` describes, a value token and `\s*;`. |
| FoamDict.MatchLine | app/client.py:18 | A match has leading blanks, the key, blanks or a `[dims]` group among blanks, a value token, and `\s*;` after it; no other text comes between. |
| FoamDict.OtherTextRejected | app/client.py:18 | Text between the key and the value is not a match: `"key x 5;"` does not match the key `key`. |
| FoamDict.EmptyKeyBacktracks | app/client.py:18 | With an empty key, `^\s*` gives back a blank so that "  5;" matches with the value 5. |
| FoamDict.MatchesPlainLine | app/client.py:18 | A line `key value ;` matches, with the value exactly the token. |
| FoamDict.MatchesDimensionedLine | app/client.py:18 | A line `key [dims] value ;` matches, with the value exactly the token after the brackets. |
| FoamDict.SubstituteLines | app/client.py:19-20 | Substitution keeps the number of lines. |
| FoamDict.SubstituteLinesAt | app/client.py:19-20 | Each line is substituted on its own. |
| FoamDict.CountMatches | app/client.py:20 | The count of `re.subn` is at most the number of lines. |
| FoamDict.CountMatchesZero | app/client.py:20 | The count is zero exactly when no line matches. |
| FoamDict.SubstituteLinesNoMatch | app/client.py:20 | With no matching line, substitution changes nothing. |
| FoamDict.SubnNoMatch | app/client.py:20-22 | With a count of zero, the substituted text is the text. |
| FoamDict.StepLinewise | app/client.py:18-22 | One key's update acts on the lines one by one. |
| FoamDict.UpdateDictionaryText | app/client.py:13-26 | The loop's text is the updates applied in order. When no new value contains a newline, the number of lines is kept. |
| FoamDict.ApplyUpdatesFrame | app/client.py:17-26 | Updates keep the number of lines, and a line that no key matches is unchanged. |
| FoamDict.ApplyUpdatesNoMatch | app/client.py:17-26 | When no key matches any line, the text is returned unchanged, whatever the new values. |
| FoamDict.ApplyOne | app/client.py:17-22 | A single update is one substitution step. |
| FoamDict.UpdateReplacesValue | app/client.py:18-22 | On a matching line only the value token is replaced. The text before it and the `;` with all after it are kept. |
| FoamSection.SectionAt | app/client.py:32 | A section matched at `p` has its block inside the text, after the name, and ends at a `}`. |
| FoamSection.FindSection | app/client.py:33 | `re.search`: a found section lies at or after the start and matches there. |
| FoamSection.FindSectionLeftmost | app/client.py:33 | The found section is the leftmost one; when none is found, no position matches. |
| FoamSection.ReplaceFromNone | app/client.py:39 | With no later occurrence, `str.replace` copies the rest of the text. |
| FoamSection.ReplaceFromFirst | app/client.py:39 | `str.replace` copies up to the first occurrence, puts the replacement there, and goes on after it. |
| FoamSection.ReplaceFirst | app/client.py:39 | `str.replace` over the whole text, from its first occurrence on. |
| FoamSection.CopySection | app/client.py:32-39 | An identical later copy of a matched section is itself a match, so `str.replace` rewrites it too. |
| FoamSection.NoEarlierCopy | app/client.py:33-39 | The matched text does not occur before the leftmost section. |
| FoamSection.RewriteSection | app/client.py:37-39 | The text before the section is kept, the section gets its new block, and later copies are replaced too. |
| FoamSection.UpdateSectionInTransport | app/client.py:28-39 | Without the section, the text is returned unchanged. Otherwise the leftmost section's block is replaced by the updated block, as `str.replace` does. |
| FoamSection.RewriteInPlace | app/client.py:39 | With no later copy, only the block between the braces differs. |
| FoamSection.OnlyBlockChanges | app/client.py:28-39 | With no later copy, the result is the text with only the section's block updated. |
| SimDirs.TimeText | app/client.py:122 | A match of `^simulation_(\d+(\.\d+)?)$` is the prefix and a decimal numeral, with an optional final newline as `$` allows. |
| SimDirs.ParseTime | app/client.py:122-123 | A name parses exactly when it matches, and its time is non-negative. |
| SimDirs.NumeralValue | app/client.py:123 | `float` of `ip` or `ip.fp` is the integer part plus the fraction. |
| SimDirs.ParseTimeOfName | app/client.py:122-123 | `simulation_<ip>[.<fp>]`, with or without a final newline, parses to its exact value. |
| SimDirs.Candidates | app/client.py:121-123 | Each candidate is a listed directory whose name parses to the candidate's time. |
| SimDirs.CandidatesAppend | app/client.py:121-123 | The candidates keep the listing's order: those of a concatenated listing are the candidates of each part, one after the other. |
| SimDirs.CandidatesComplete | app/client.py:121-123 | Every listed directory whose name parses is a candidate. |
| SimDirs.Insert | app/client.py:128 | Insertion adds exactly the new element. |
| SimDirs.SortByTime | app/client.py:128 | The sort is a permutation. |
| SimDirs.InsertSorted | app/client.py:128 | Insertion keeps the list sorted by time. |
| SimDirs.SortSorted | app/client.py:128 | The result of the sort is sorted by time. |
| SimDirs.LatestIndex | app/client.py:128-129 | The index of the last candidate among those of the largest time. |
| SimDirs.SortLast | app/client.py:128-129 | The last element of the stable sort is that candidate. |
| SimDirs.LatestSimulation | app/client.py:121-129 | Nothing is chosen exactly when no directory name matches. Otherwise the choice is a candidate with the largest time. |
| SimDirs.LatestIsListed | app/client.py:121-129 | The chosen name is a listed directory and parses to the chosen time. |
| SimDirs.LatestAmongTies | app/client.py:128-129 | Among equal largest times, the one listed last is chosen. |
| CalculixExport.ComputeENu | app/export_to_calculix.py:5-8 | Fails exactly when `lam + mu` is zero. Otherwise `E*(lam+mu) = mu*(3*lam+2*mu)` and `2*nu*(lam+mu) = lam`, with `lam` the first Lamé constant. |
| CalculixExport.ENuRoundTrip | app/export_to_calculix.py:5-8 | The constants convert back: `E/(2(1+nu)) = mu` and `E*nu/((1+nu)(1-2nu)) = lam`. |
| CalculixExport.DefaultMaterial | app/export_to_calculix.py:11 | The defaults give `E = 76e10/7` and `nu = 5/14`. |
| CalculixExport.NodeLines | app/export_to_calculix.py:29-30 | One node line per point. |
| CalculixExport.NodeLinesAt | app/export_to_calculix.py:29-30 | Node line `i` carries id `i + 1` and point `i`. |
| CalculixExport.ShiftedAt | app/export_to_calculix.py:36 | Every node index is shifted by one. |
| CalculixExport.ElementLines | app/export_to_calculix.py:35-37 | One element line per tetrahedron. |
| CalculixExport.ElementLinesAt | app/export_to_calculix.py:35-37 | Element line `i` carries id `i + 1` and the row's indices plus one, in order. |
| CalculixExport.ElementLinesHaveFourNodes | app/export_to_calculix.py:34-37 | When every "tetra" row has four indices, every element line has four nodes. |
| CalculixExport.FixedLines | app/export_to_calculix.py:50-52 | At most one entry per point, and each entry is a valid 1-based id. |
| CalculixExport.FixedLinesAscending | app/export_to_calculix.py:50-52 | The FIXED_NODES ids are strictly ascending. |
| CalculixExport.FixedLinesMembers | app/export_to_calculix.py:50-52 | An id is listed exactly when its point has `|z|` below the tolerance. |
| CalculixExport.ConstantLines | app/export_to_calculix.py:58-59 | Exactly `N` initial-temperature lines. |
| CalculixExport.ConstantLinesAt | app/export_to_calculix.py:58-59 | Line `i` is `i + 1, T_ref`. |
| CalculixExport.ValueLines | app/export_to_calculix.py:73-74 | One temperature line per value of "T". |
| CalculixExport.ValueLinesAt | app/export_to_calculix.py:73-74 | Line `i` carries id `i + 1` and value `i`. |
| CalculixExport.DeckKeywords | app/export_to_calculix.py:23-75 | The keyword lines of the deck are, in order: heading, node, element, solid section, material, elastic, expansion, node set, boundary, initial conditions, step, static, node file, element file, temperature, end step. |
| CalculixExport.DeckFromHead | app/export_to_calculix.py:23-75 | The deck is the head written before the temperature loop, then one line per temperature and "*End Step"; the head is a prefix of the deck. |
| CalculixExport.Export | app/export_to_calculix.py:10-75 | The errors come in source order: missing mesh, no "tetra" block, missing temperature file, no "T" field. With every input found, `lam + mu = 0` fails with ZeroDivision before anything is written. A deck is produced exactly when the inputs are found, "T" can be formatted and `lam + mu` is not zero, and it is the `Deck` of the mesh points, the "tetra" rows, the temperatures and the computed constants. A "T" that cannot be formatted fails with the deck head written. |
| CalculixExport.WriteNodes | app/export_to_calculix.py:28-31 | The loop appends the node section to the buffer. |
| CalculixExport.WriteElements | app/export_to_calculix.py:34-38 | The loop appends the element section to the buffer. |
| CalculixExport.WriteFixed | app/export_to_calculix.py:49-54 | The loop appends the fixed-node set and the boundary condition. |
| CalculixExport.WriteInitial | app/export_to_calculix.py:57-60 | The loop appends the initial-conditions section. |
| CalculixExport.WriteTemperatures | app/export_to_calculix.py:72-75 | The loop appends the temperature section and the step end. |
| CalculixExport.ExportInp | app/export_to_calculix.py:10-75 | The buffer written section by section, and every error, are those of `Export`. |
| Compare.SqNorm | app/compare_calculix.py:42 | A squared magnitude is non-negative. |
| Compare.StackComponents | app/compare_calculix.py:19 | Row `i` of the stacked field is `(U1[i], U2[i], U3[i])`. |
| Compare.Displacement | app/compare_calculix.py:15-21 | "U" takes precedence. Without it, "U1", "U2" and "U3" are stacked. The call fails listing the field names exactly when neither encoding is there. |
| Compare.Diff | app/compare_calculix.py:24 | The difference is taken row by row. |
| Compare.Squares | app/compare_calculix.py:42 | One non-negative squared magnitude per row. |
| Compare.Max | app/compare_calculix.py:26 | The maximum is an element and bounds every element. |
| Compare.SumAtMost | app/compare_calculix.py:25 | A sum of `n` terms each at most `m` is at most `n*m`. |
| Compare.SumNonNegative | app/compare_calculix.py:25 | A sum of non-negative terms is non-negative. |
| Compare.SumConstant | app/compare_calculix.py:25 | A sum of `n` equal terms is `n` times the term. |
| Compare.L2WithinLInf | app/compare_calculix.py:24-26 | `0 <= L2^2 <= Linf^2`. |
| Compare.IdenticalFields | app/compare_calculix.py:24-26 | Identical fields give both norms zero. |
| Compare.ConstantDifference | app/compare_calculix.py:24-26 | A constant difference `d` gives both squared norms equal to `|d|^2`. |
| Compare.ReferenceMeshPath | app/compare_calculix.py:31-32 | The reference mesh is `<parent>/VTK/mesh_tet.xdmf`. |
| Compare.ErrorPath | app/compare_calculix.py:49 | The error mesh goes to `<parent>/error.vtu`. |
| Compare.Compare | app/compare_calculix.py:5-50 | Errors come in source order: missing FEniCS file, missing "Uel" listing the fields, missing CalculiX file, unresolved displacement, a "Uel" that is not a vector field, no rows, missing reference mesh, no "tetra" block listing the block types, each once, and an error field whose length is not the reference mesh's point count (the check meshio's `Mesh` makes). On success, the error mesh has the reference points and the single reference "tetra" block. Its "error" field holds the squared magnitude of each row's difference. The norms satisfy `0 <= L2^2 <= Linf^2`. |

## Left out

- File reading and writing through meshio, `open` and XDMF: files are a map from path to mesh, and the written results are returned as values.
- Numeric text formatting (`:.6e`, `:.6f`, Python's repr of coordinates): deck lines keep their numbers as exact reals.
- Floating point: all arithmetic is over exact reals, so rounding, overflow and NaN are not modelled.
- Compare.L2Sq: the L2 norm is kept squared (`sum/N`, no `np.sqrt`), because there is no square root over reals to prove with.
- Compare.LInfSq: the L-infinity norm is kept squared, for the same reason. The square root is monotone, so the maximum is the same point.
- Compare.Compare: the "error" field holds squared magnitudes (`Magnitudes(squares)`), not the magnitudes `np.linalg.norm` writes.
- Compare.SqNorm: the converse of `IdenticalFields` (zero error implies equal fields) is not stated; only non-negativity is.
- Compare.Compare: it requires the two displacement fields to have the same length (`ShapesAgree`). The code subtracts them without a check, and numpy's broadcasting error is not modelled.
- Compare.Displacement: "U1".."U3" of unequal lengths are a `ShapeMismatch` error, where Python raises a numpy `ValueError` at `np.vstack`; the exception type is not modelled.
- Compare.Displacement: a "U" that is not a vector field, or "U1".."U3" that are not all scalar fields, are a `ShapeMismatch` error as soon as they are looked up. Python takes them (app/compare_calculix.py:17-19), and for one or three rows numpy broadcasts them against "Uel" in the subtraction (app/compare_calculix.py:24) without an error; that broadcast is not modelled.
- Compare.Compare: any "Uel" that is not a vector field is a `ShapeMismatch` error. In Python a scalar "Uel" of one or three rows broadcasts against the vector field without an error and the computation goes on with a different difference; that broadcast is not modelled.
- Compare.Compare: a missing "Uel" lists the available field names as a set (`MissingField`); the order of `list(...keys())` in Python's message is not kept.
- Compare.Compare: an empty field is an `EmptyField` error, because `np.max` of an empty array raises.
- CalculixExport.Export: a "T" field with vector rows is a `NotScalarField` error carrying the lines written up to "*Temperature", where Python raises a `TypeError` from `{Tval:.6f}`; the exception type is not modelled.
- CalculixExport.Export: a "T" field held as `Magnitudes` (square roots of stored squares, only produced by `compare`) is reported as `NotScalarField`, because the model does not hold the values Python would format.
- CalculixExport.ElementLines: an element line carries every index of its row. Python writes only the first four of a longer row and raises `IndexError` on a shorter one; `ElementLinesHaveFourNodes` states the four-index case only.
- The `print` calls (the log lines of `update_dictionary_text`, `compare` and `export_inp`): they have no effect on the results.
- `update_dictionary_text`: Python's `re` is modelled as a line-by-line matcher of the one pattern used. `\s` is the ASCII whitespace set; Unicode spaces are not modelled.
- FoamDict.UpdateDictionaryText: the new value is inserted literally. Python passes `\g<1>` + value + `\g<3>` to `re.subn` as a template, so a value with a backslash has its escapes and group references expanded (a backslash followed by `t` becomes a tab), or raises `re.error` for an unknown escape; template processing is not modelled.
- FoamDict.UpdateDictionaryText: the new values are taken as strings. Python inserts `str(new_val)`, and the text `str` gives a number is not modelled.
- FoamDict.UpdateReplacesValue: states the literal insertion above, which is what Python does only for values without a backslash.
- FoamDict.MatchLine: a match is confined to one line. Python's `\s` also matches a newline, so a key and its value on different lines would match there and not here.
- SimDirs.ParseTime: `\d` is taken as ASCII `0`–`9`; Unicode digits that Python's `\d` and `float` accept are not modelled.
- `run_in_docker`, `main`, `read_scalar_field` and the FEniCS solve in `run_fenics`: subprocess control, argument parsing and calls into dolfin.
- The DOLFIN `Mesh` loaded from the XDMF file in `prepare_mesh`: the model returns the meshio mesh that was written or found.
- The OpenFOAM solver sources (`solidificationSystem.C`, `createFields.H`): they are thin wrappers over the OpenFOAM library.
- HexToTet.TetMesh: the mesh model holds no cell data, so it does not capture that `meshio.Mesh(points, cells, point_data=...)` drops the source's `cell_data`.
