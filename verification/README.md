# Verified model of openswx

Dafny proofs about the algorithmic cores of openswx: the Parasolid reader
(`libopenparasolid`), the bill-of-materials transformer (`libopenbom`) and the
profile rules of the server (`asmbox`). `dafny verify dfyconfig.toml` checks
everything.

Each core is modelled in the form of its source. Loops that update arrays, maps
and counters are methods with invariants, classes keep their fields, and every
such method is proved against a specification: a function on values, or a
property stated outright. What the source promises is then proved about the
specification.

## What is modelled

**Splines and the monotonicity certificate** (`SplineAxis`, `DeBoor`,
`SplineJet`, `Polynomial`, `SplineEvaluate`, `SplineSurface`, `SplineLaws`,
`Bernstein`, `IntervalArithmetic`, `Subdivision`, `Certificate`, `Rounding`,
`MonotoneProjection`, `ExactCertificate`). Curves are the B-curves of section
5.2.1.4 of the Parasolid XT Format Reference, July 2022. Evaluation is proved
for every degree: the in-place recursion computes value and derivative, the
tensor passes commute, and on the stored knots and values alone curves reproduce
their parameter and cylinders their curve. Blossom extraction preserves the
spline for every degree and knot vector. The certificate is sound end to end:
when it answers true, the evaluator never reports a derivative that does not
advance along the rounded unit direction. The margin of the pole test is shown
to cover its rounding. Without rounding the verdict is exact as well: true when
the pole steps point forward, or when the degree is at most seven, the Bezier
weights are positive and every piece of the derivative numerator after sixteen
halvings has positive coefficients.

**Shell incidence and boundary tracing** (`DisjointSets`, `Components`,
`BoundaryGraph`, `BoundaryGroups`, `BoundaryTracing`, `BoundaryGrouping`,
`Classes`, `Sorting`, `ShellUses`, `ShellScan`, `ShellSummary`,
`ShellIncidence`, `PathBinding`, `ShellBinding`). The union-find is proved with
its logarithmic bound. No failure exit of the tracing loop can be reached from
the grouping: this is a parity argument over trails. The whole result depends
only on the set of faces, so hash-map order cannot show. Every unbranched group
the analysis produces passes the combinatorial checks of the path binding, and
the geometric ones too where curves run between the vertices of their fins.

**Schema parser** (`BinaryReader`, `DeltaPackets`, `PacketGrammar`,
`SchemaDefinitions`, `SchemaNodes`, `SchemaReport`, `SchemaState`,
`SchemaSteps`, `SchemaPrefix`, `SchemaGrammar`, `SchemaParser`, `ReportedBytes`,
`WireBytes`). A printer stands beside the parser. Every decoder accepts exactly
the printed form of what it returns. A report prints back to its bytes, and it
is complete exactly when the body is a sequence of records that follow each
other and end in a terminator. What follows is defined by printed bytes, for
packets and for the partition and mark that open a delta stream as well. The
printed forms themselves are pinned byte by byte: widths, digits, null patterns
and the order of the parts. With a prefix exactly two nodes are read without
status framing, and in every other node a status byte stands behind each
pointer.

**Model checks** (`ModelChecks`, `ModelLinks`, `ParsedModel`). Validation and
reference linking are exact. What the parser accepts passes every check of the
builder but its budgets.

**Delta application** (`DeltaState`, `RecordLayout`, `DeltaOutcome`,
`DeltaApply`, `AppliedNodes`, `DeltaPlans`, `DeltaSources`). The record table
with tombstones, index and running totals refines a plain list, and the plain
list is a map update. On the nodes of the new snapshot every pointer of a placed
node is the target of the one reference of the plan for it. Which plans apply is
stated on the records, before any layout. Status framing decodes tags as
unsigned words and points with eleven components, which no state accepts: of all
decoded nodes exactly these do not fit their definition, and no plan puts one in
place.

**Intersection solver** (`LinearSystems`, `IntersectionSolve`). Elimination with
pivoting and column scaling returns a step exactly where both tangent planes and
the plane cross, and the step leads to their common point. The damped iteration
is characterised by its iterates; two crossing planes are solved by one update.

**Bill of materials** (`BomTree`, `BomReach`, `BomGroups`, `BomConservation`,
`BomExactness`, `BomClash`, `BomLaws`, `BomTransformer`, `BomRules`).
Aggregation conserves quantity-weighted leaf counts when instances with one key
contain the same leaves. That holds where equal keys are equally resolved, and
only there unless a file contains the leaf of an unresolved instance. One
project loses a leaf; the same project with its configuration named loses none.
The conditions are about every assembly reached, because losses in two
assemblies can balance at the root. The rule rewriting reaches a normal form and
equals a top-down reading of the tree.

Numbers are mathematical: `double` and `long double` are `real`. The interval
arithmetic of the certificate takes its rounding as a parameter of which only
`down(x) <= x <= up(x)` is assumed; plain rounding is assumed off by at most the
fraction epsilon (at most 0.001), and `std::hypot` at most that much too small.
Sizes and IDs are natural numbers; 32-bit and 64-bit wrap-around is written out
where the source depends on it (binomial coefficients, delta addresses, signed
fields). `std::sort` is a stable insertion by key. Where a class or enumeration
can hold a value outside its names (fin sense, delta operation, stream kind,
join side) there is a constructor for it.

## Model

| member | source | states |
|---|---|---|
| SplineAxes.ValidateAxis | libopenparasolid/src/nurbs_evaluate.cc:23-53 | Reports no error exactly on valid axes (degree, knot and multiplicity limits, strictly increasing knots, expanded count), and the resource limit exactly when a size limit is broken. |
| SplineAxes.PrepareAxis | libopenparasolid/src/nurbs_evaluate.cc:90-116 | Succeeds exactly for parameters inside a nonempty domain; the span it returns contains the parameter, takes the right side at an inner knot and the left side at the domain end. |
| SplineAxes.ActiveSpanIsSpan | libopenparasolid/src/nurbs_evaluate.cc:90-116 | Every span that can be selected gives positive interpolation widths and a parameter inside the span, so every division is defined. |
| SplineAxes.KnotAt | libopenparasolid/src/nurbs_evaluate.cc:231-240 | The scan over multiplicities finds entry `index` of the expanded knot vector. |
| SplineAxes.AxisDomain | libopenparasolid/src/nurbs_evaluate.cc:222-246 | The domain is the pair of expanded knots at the degree and at the control count, or an error when it is empty. |
| DeBoor.BlossomSymmetric | libopenparasolid/src/nurbs_projection.cc:74-93 | The triangular scheme with one argument per level gives the same value under any rearrangement of its arguments. |
| DeBoor.EntryAffine | libopenparasolid/src/nurbs_projection.cc:74-93 | The scheme is affine in each single argument. |
| DeBoor.ExtractionPreservesValue | libopenparasolid/src/nurbs_projection.cc:74-93 | For every degree, knot window, control row, interval and parameter: the Bernstein polynomial on the extracted poles equals the spline at the point that fraction of the way between the two ends. |
| SplineJet.SlopeIsDerivative | libopenparasolid/src/nurbs_evaluate.cc:138-167 | The derivative slot d satisfies P(t+h) = P(t) + h d + h^2 R(h) with a polynomial R, for every degree, window, row and t. |
| Polynomial.DerivativeUnique | libopenparasolid/src/nurbs_evaluate.cc:138-167 | The number in that expansion is unique, so the slot is the derivative and nothing else. |
| SplineJet.AlphaInUnit | libopenparasolid/src/nurbs_evaluate.cc:138-167 | Inside a span every interpolation factor lies between 0 and 1. |
| SplineJet.EntryWithin | libopenparasolid/src/nurbs_evaluate.cc:138-167 | An interpolated entry stays in the range of the controls it depends on. |
| SplineJet.PositiveValue | libopenparasolid/src/nurbs_evaluate.cc:138-167 | Positive weights give a positive interpolated weight. |
| SplineJet.SlopePositive | libopenparasolid/src/nurbs_projection.cc:237-257 | Strictly increasing controls give a positive derivative at every parameter of the span. |
| SplineEvaluate.Interpolate | libopenparasolid/src/nurbs_evaluate.cc:138-167 | The descending in-place loop yields the last entry of the recursive scheme, and fails exactly when a width is not positive. |
| SplineEvaluate.JetEntryComponents | libopenparasolid/src/nurbs_evaluate.cc:138-167 | Component by component: the value slot runs the value recursion, the differentiated slot its derivative, the third slot is only interpolated. |
| SplineEvaluate.Project | libopenparasolid/src/nurbs_evaluate.cc:169-194 | Success means a positive weight, the quotient rule for position and both derivatives, and representable results; with a positive weight it fails only when one of them is out of range. |
| SplineEvaluate.ValidateControls | libopenparasolid/src/nurbs_evaluate.cc:54-80 | No error exactly for allowed dimensions, counts and positive weights; which error is which limit. |
| SplineEvaluate.EvaluateNurbsCurve | libopenparasolid/src/nurbs_evaluate.cc:197-220 | A result is the rational spline point and its derivative (quotient rule) on an active span; inside the domain of a valid curve the only failure is overflow. |
| SplineEvaluate.PointInControlRange | libopenparasolid/src/nurbs_evaluate.cc:138-194 | The evaluated point lies inside the coordinate ranges of its controls. |
| SplineSurface.TensorOrder | libopenparasolid/src/nurbs_evaluate.cc:276-312 | Rows in v and then u give the same homogeneous value and the same two partials as columns in u and then v. |
| SplineSurface.EvaluateNurbsSurface | libopenparasolid/src/nurbs_evaluate.cc:276-312 | A result is the tensor product point with both partials by the quotient rule on active spans; inside the domain of a valid surface the only failure is overflow. |
| SplineSurface.PointInNetRange | libopenparasolid/src/nurbs_evaluate.cc:276-312 | The surface point lies inside the coordinate ranges of the active controls. |
| SplineLaws.KnotMeansIdentity | libopenparasolid/src/nurbs_evaluate.cc:138-194 | A nonrational curve whose stored coordinate is at every index the mean of the following knots runs through its parameter with unit speed, for every degree and knot vector. |
| SplineLaws.RationalIsQuotient | libopenparasolid/src/nurbs_evaluate.cc:126-136 | A rational coordinate is the quotient of the nonrational splines of its stored column and of the stored weights, and its derivative that of the quotient: stored values are already multiplied by the weight. |
| SplineLaws.RowsAreCurves | libopenparasolid/src/nurbs_evaluate.cc:295-308 | Each row of the tensor pass is the curve in v on the n_v consecutive controls from u * n_v on. |
| SplineLaws.CylinderAlongU | libopenparasolid/src/nurbs_evaluate.cc:301-303 | If the values stored at (u * n_v + v) * d depend on u only, the surface point and its u derivative are those of the curve on the u axis with these controls, and the v derivative is zero. |
| SplineLaws.CylinderAlongV | libopenparasolid/src/nurbs_evaluate.cc:301-303 | The same with the axes exchanged. |
| IntervalArithmetic.AddContains | libopenparasolid/src/nurbs_projection.cc:31-33 | Interval addition contains the exact sum, for any outward rounding. |
| IntervalArithmetic.SubtractContains | libopenparasolid/src/nurbs_projection.cc:34-36 | Interval subtraction contains the exact difference, for any outward rounding. |
| IntervalArithmetic.MultiplyContains | libopenparasolid/src/nurbs_projection.cc:37-44 | Interval multiplication contains the exact product, for any outward rounding. |
| IntervalArithmetic.DivideContains | libopenparasolid/src/nurbs_projection.cc:45-48 | Interval division contains the exact quotient whenever the divisor is not zero. |
| IntervalArithmetic.MixContains | libopenparasolid/src/nurbs_projection.cc:49-51 | Interval interpolation contains the exact interpolation. |
| Bernstein.ChooseStep | libopenparasolid/src/nurbs_projection.cc:61-65 | Each division of the multiplicative binomial formula is exact. |
| Bernstein.BernsteinForm | libopenparasolid/src/nurbs_projection.cc:95-114 | de Casteljau evaluation equals the sum of coefficients times Bernstein basis functions. |
| Bernstein.CasteljauDerivative | libopenparasolid/src/nurbs_projection.cc:95-114 | The derivative of a Bernstein polynomial is the degree times the polynomial on the coefficient differences. |
| Bernstein.NumeratorIsCrossDerivative | libopenparasolid/src/nurbs_projection.cc:95-114 | The double loop of products and binomial quotients yields exactly the Bernstein coefficients of A'W - AW', for every degree. |
| Certificate.Binomial | libopenparasolid/src/nurbs_projection.cc:61-65 | In 32-bit words the loop computes the binomial coefficient for all arguments the certificate uses: no wrap-around, no remainder. |
| Certificate.ExtractSpan | libopenparasolid/src/nurbs_projection.cc:74-93 | The nested descending loops compute the interval scheme once per pole. |
| Certificate.SpanPolesEnclose | libopenparasolid/src/nurbs_projection.cc:74-93 | The interval poles enclose the exact Bezier poles of every control row inside the input intervals. |
| Certificate.DerivativeNumerator | libopenparasolid/src/nurbs_projection.cc:95-114 | The accumulating double loop computes the interval coefficients pair by pair. |
| Certificate.NumeratorBoxEncloses | libopenparasolid/src/nurbs_projection.cc:95-114 | These intervals enclose the exact numerator coefficients of every polynomial pair inside the poles. |
| Subdivision.HalvesReproduce | libopenparasolid/src/nurbs_projection.cc:139-147 | The two halves of the midpoint scheme reproduce the polynomial at t/2 and at (1+t)/2. |
| Subdivision.Halve | libopenparasolid/src/nurbs_projection.cc:139-147 | The row-overwriting loop computes both interval halves. |
| Subdivision.HalvesEnclosed | libopenparasolid/src/nurbs_projection.cc:139-147 | The interval halves enclose the exact halves of every polynomial inside the box. |
| Subdivision.CertifiedPositive | libopenparasolid/src/nurbs_projection.cc:115-152 | A certified box proves every polynomial with coefficients inside it strictly positive on [0, 1], for any outward rounding. |
| Subdivision.EndRefutes | libopenparasolid/src/nurbs_projection.cc:133-136 | A box that holds a polynomial with a nonpositive end value is never certified. |
| Subdivision.StackSplit | libopenparasolid/src/nurbs_projection.cc:121-150 | Replacing the top piece by its halves keeps depths increasing towards the top, so at most depth limit + 1 pieces are pending. |
| Subdivision.CertifiedComplete | libopenparasolid/src/nurbs_projection.cc:115-152 | Without rounding a box of exact coefficients is certified exactly when all 2^16 pieces reached by sixteen halvings have positive coefficients: no other coefficient refutes. |
| Subdivision.PieceReproduces | libopenparasolid/src/nurbs_projection.cc:139-147 | Such a piece is the polynomial on its dyadic subinterval. |
| Subdivision.DipCertified | libopenparasolid/src/nurbs_projection.cc:133-136 | The derivative of a cubic whose second pole step goes backwards is certified after one split. |
| Subdivision.CostBound | libopenparasolid/src/nurbs_projection.cc:129-144 | The work of the search is at most that of 65535 splits, so such a budget always brings a verdict. |
| Subdivision.CertifyNumerator | libopenparasolid/src/nurbs_projection.cc:115-152 | The explicit stack returns the verdict of the search; the budget only decides whether there is one, and the search's own work always suffices; true implies positivity on [0, 1] under any outward rounding; without rounding the verdict on exact coefficients is whether all pieces after sixteen halvings have positive coefficients. |
| MonotoneProjection.LocalPoles | libopenparasolid/src/nurbs_projection.cc:188-209 | Translated, weight-normalized and projected poles of a span, computed in interval arithmetic with the span's largest weight as scale. |
| MonotoneProjection.LocalPolesEnclose | libopenparasolid/src/nurbs_projection.cc:188-209 | They enclose the exact translated and normalized controls. |
| MonotoneProjection.NumeratorOnSpan | libopenparasolid/src/nurbs_projection.cc:210-216 | A positive Bernstein numerator on the extracted poles makes the spline's own derivative numerator positive at every parameter of the span. |
| MonotoneProjection.FramePositive | libopenparasolid/src/nurbs_projection.cc:176-183 | Any fixed origin and positive scale leave the sign of the derivative numerator as it is. |
| MonotoneProjection.CertifySpan | libopenparasolid/src/nurbs_projection.cc:187-217 | The verdict on one span is positive weights and a certified numerator; the budget only decides whether there is one. |
| MonotoneProjection.VerdictRises | libopenparasolid/src/nurbs_projection.cc:187-217 | On a span that passes, weight and derivative numerator are positive at every parameter. |
| MonotoneProjection.CertifySpans | libopenparasolid/src/nurbs_projection.cc:153-220 | The verdict is that of all nonempty spans together (degree at most 7); within the total work it is always reached. |
| MonotoneProjection.PassingRises | libopenparasolid/src/nurbs_projection.cc:153-220 | A curve that passes rises at every parameter of its domain: no nonempty knot span is skipped. |
| ExactCertificate.SpanExact | libopenparasolid/src/nurbs_projection.cc:187-217 | Without rounding the verdict on a span is: positive Bezier weights, and only positive coefficients in all pieces of the exact derivative numerator after sixteen halvings. |
| ExactCertificate.PassesExactly | libopenparasolid/src/nurbs_projection.cc:153-220 | Without rounding a curve passes exactly when its degree is at most seven and every nonempty span settles in that sense. |
| ExactCertificate.ClearsExactly | libopenparasolid/src/nurbs_projection.cc:240-254 | Without rounding of single operations a pole step clears exactly when its projection exceeds 64 epsilon times its length. |
| ExactCertificate.CertifiedExactly | libopenparasolid/src/nurbs_projection.cc:237-260 | Without rounding the whole verdict is: all stored pole steps of a nonrational net point along the direction, or the curve passes span by span. |
| MonotoneProjection.PoleStepsRise | libopenparasolid/src/nurbs_projection.cc:237-257 | Positive pole steps of a nonrational curve of any degree make it rise everywhere. |
| Rounding.MarginCovers | libopenparasolid/src/nurbs_projection.cc:240-254 | A rounded projection of a pole step beyond 64 epsilon times the rounded length means a positive exact projection: the margin covers the rounding of the step, its products and their sum. |
| MonotoneProjection.ClearStepRises | libopenparasolid/src/nurbs_projection.cc:240-254 | A pole step that clears the margin against the rounded unit direction points along it exactly. |
| MonotoneProjection.CertifyMonotoneNurbsProjection | libopenparasolid/src/nurbs_projection.cc:222-260 | true means the curve rises along the rounded unit direction at every parameter, for any outward and near rounding, and along the given direction where the division by its length is exact; the verdict is the pole test or all spans, which CertifiedExactly states on pieces and pole steps; each error has its one cause. |
| MonotoneProjection.EvaluateCertified | libopenparasolid/src/nurbs_projection.cc:222-260 | End to end with the evaluator: every reported derivative of a certified curve has a positive component along the certified direction. |
| DisjointSetForest.DisjointSets.constructor | libopenparasolid/src/shell_incidence.cc:18-22 | Every element starts as its own class. |
| DisjointSetForest.DisjointSets.Find | libopenparasolid/src/shell_incidence.cc:23-29 | Path halving keeps the partition and returns the class root; 2 to the number of iterations is at most the class size. |
| DisjointSetForest.DisjointSets.Join | libopenparasolid/src/shell_incidence.cc:30-38 | Merges exactly the two classes, keeps sizes at roots equal to class sizes, and keeps every depth below the logarithm of its class size. |
| DisjointSetForest.Joined | libopenparasolid/src/shell_incidence.cc:30-38 | Attaching the smaller root keeps 2^depth <= class size for every node. |
| BoundaryGraph.Parity | libopenparasolid/src/shell_incidence.cc:54-104 | In a trail every vertex has an even number of used edge ends, apart from the two ends of the trail. |
| BoundaryGraph.Progress | libopenparasolid/src/shell_incidence.cc:78-99 | An unfinished trail in a connected group with degrees at most two stands at a vertex of degree two that it entered once. |
| BoundaryGraph.Finished | libopenparasolid/src/shell_incidence.cc:100-103 | A finished trail ends at the other end of a chain, or where it started. |
| BoundaryGraph.TwoEnds | libopenparasolid/src/shell_incidence.cc:144-153 | A connected group with degrees at most two has no vertex of degree one, or exactly two. |
| BoundaryTracing.TraceBoundaryPath | libopenparasolid/src/shell_incidence.cc:54-104 | The loop computes the trace of a group, including every failure exit. |
| BoundaryTracing.TraceSucceeds | libopenparasolid/src/shell_incidence.cc:54-104 | For every sound group the trace takes no failure exit, and its path is the canonical walk that uses each edge once. |
| BoundaryTracing.PathStarts | libopenparasolid/src/shell_incidence.cc:54-104 | On the group alone: a chain path runs from its smaller end vertex to its larger one; a cycle path starts with its smallest edge at that edge's smaller vertex and returns there. |
| BoundaryGroups.GroupingUnique | libopenparasolid/src/shell_incidence.cc:105-164 | Groups, member arrays and paths depend on nothing but the set of boundary edges. |
| BoundaryGrouping.GroupBoundaryEdges | libopenparasolid/src/shell_incidence.cc:105-164 | Succeeds exactly when every edge has both endpoints or none; then there is one group per connected component with its kind, sorted members and canonical path, ordered by smallest edge. |
| BoundaryGrouping.ScanEdges | libopenparasolid/src/shell_incidence.cc:105-126 | The union-find and the vertex table describe all edge ends; fails exactly on a half-missing edge. |
| BoundaryGrouping.EdgeOrderIrrelevant | libopenparasolid/src/shell_incidence.cc:105-164 | Permuting the boundary edges changes nothing. |
| Components.TouchKnownKey | libopenparasolid/src/shell_incidence.cc:105-126 | Joining the first element seen with a key keeps roots equal to connected components. |
| ShellScan.ScanFaces | libopenparasolid/src/shell_incidence.cc:193-247 | One pass over faces, loops and fins: edge table, face classes and counters describe exactly what was scanned, errors name a malformed face or an exceeded limit. |
| ShellIncidence.CollectFaces | libopenparasolid/src/shell_incidence.cc:248-261 | Faces in order, one component per class, with fin and isolated-loop totals. |
| ShellIncidence.PassEdges | libopenparasolid/src/shell_incidence.cc:262-284 | The pass over the hash map gives the same counts, tallies and boundary edges in every order. |
| ShellIncidence.GroupComponents | libopenparasolid/src/shell_incidence.cc:285-302 | Boundary groups of every component and the kind counters of the shell. |
| ShellIncidence.AnalyzeShellEdgeIncidence | libopenparasolid/src/shell_incidence.cc:166-315 | Succeeds exactly on positive limits, well-formed shells within them and paired boundary endpoints; the result is the incidence of the set of faces; each error code has its cause. |
| ShellIncidence.FaceOrderIrrelevant | libopenparasolid/src/shell_incidence.cc:166-315 | Permuting the faces changes neither success nor result. |
| ShellSummary.IncidenceUnique | libopenparasolid/src/shell_incidence.cc:166-315 | The set of faces determines the whole result, member arrays and paths included. |
| ShellSummary.SameComponentIffConnected | libopenparasolid/src/shell_incidence.cc:248-261 | Two faces share a component exactly when a chain of faces sharing edge IDs joins them. |
| ShellSummary.EdgeInOneComponent | libopenparasolid/src/shell_incidence.cc:262-284 | Every used edge is listed in exactly one component. |
| ShellSummary.ComponentTotals | libopenparasolid/README.md:2212-2214 | Component counters of fins, isolated loops, boundary, paired and higher-valence edges sum to the shell totals. |
| ShellSummary.EdgeTotals | libopenparasolid/src/shell_incidence.cc:262-284 | Forward and reverse counts over all edges sum to the number of fins. |
| ShellSummary.EdgeKinds | libopenparasolid/src/shell_incidence.cc:262-284 | On the listed counts alone: boundary edges have one use, paired edges two, higher-valence edges three or more, and these are all edges. |
| PathBinding.BindPath | libopenparasolid/src/boundary_path_binding.cc:36-104 | Binds exactly when the combinatorial and the geometric checks hold; when the former hold, an error is an evaluation error or a gap. |
| PathBinding.UseRuns | libopenparasolid/src/boundary_path_binding.cc:106-115 | For fins evaluated on their curve over [start, end], a use against its fin's sense runs the interval backwards, from the source's end to its start. |
| PathBinding.PlacedPathJoins | libopenparasolid/src/boundary_path_binding.cc:36-104 | If every fin's curve runs from its start vertex to its end vertex, every step of a bound path runs from its own start vertex to its own end vertex, and the path has no gap for any tolerance. |
| PathBinding.AnalysedGroupBinds | libopenparasolid/src/boundary_path_binding.cc:36-104 | Every unbranched group of an analysed component passes all combinatorial checks when the fins on file are the analysed ones. |
| PathBinding.SplitUnique | libopenparasolid/src/boundary_path_binding.cc:141-154 | A path parameter and join side determine the edge and the fraction. |
| PathBinding.EvaluateBoundBoundaryPath | libopenparasolid/src/boundary_path_binding.cc:116-162 | Inside the domain the result is the edge evaluation at that split with the edge's face, surface and curve; outside it is an error. |
| PathBinding.BoundPathContinuous | libopenparasolid/src/boundary_path_binding.cc:116-162 | At an inner join of a bound path both one-sided samples exist and are within the tolerance. |
| PathBinding.BoundCycleCloses | libopenparasolid/src/boundary_path_binding.cc:83-94 | The samples at both ends of a bound cycle exist and are within the tolerance, on either side. |
| ShellBinding.IndexFins | libopenparasolid/src/boundary_path_binding.cc:188-214 | The fin table exists exactly within the budgets for distinct fins that belong to their faces, and maps every fin ID to its fin. |
| ShellBinding.BindBoundaryPathsGeometry | libopenparasolid/src/boundary_path_binding.cc:163-222 | Succeeds exactly when the input is within its limits and every group binds; results in group order; otherwise only geometric errors remain for groups that pass the combinatorial checks. |
| ShellBinding.AnalysedGroupsBind | libopenparasolid/src/boundary_path_binding.cc:163-222 | Producer and consumer agree: with the analysed fins on file every unbranched analysed group binds up to geometry. |
| ShellBinding.AnalysedGroupsJoin | libopenparasolid/src/boundary_path_binding.cc:163-222 | Where every curve runs between the vertices of its fin, every unbranched analysed group binds, geometry included. |
| BinaryReader.ReadIff | libopenparasolid/src/binary_reader.h:21-31 | A big-endian read yields a value exactly when its printed bytes stand there. |
| BinaryReader.IndexIff | libopenparasolid/src/binary_reader.h:32-54 | Every compact index has exactly one encoding. |
| BinaryReader.TextIff | libopenparasolid/src/binary_reader.h:55-71 | A text is read exactly where its printable bytes with their count stand. |
| BinaryReader.LogicalIff | libopenparasolid/src/binary_reader.h:72-79 | A logical is read exactly where the byte 0 or 1 stands. |
| BinaryReader.Cursor.Read | libopenparasolid/src/binary_reader.h:21-31 | Advances by the width on success and not at all on failure. |
| BinaryReader.Cursor.Index | libopenparasolid/src/binary_reader.h:32-54 | Refines the index decoding; never moves past the input. |
| BinaryReader.Cursor.Text | libopenparasolid/src/binary_reader.h:55-71 | Refines the text decoding; never moves past the input. |
| BinaryReader.Cursor.Logical | libopenparasolid/src/binary_reader.h:72-79 | Refines the logical decoding; never moves past the input. |
| DeltaPackets.MapIff | libopenparasolid/src/delta_packets.cc:23-67 | The map grammar accepts exactly the printed packets of its kind. |
| DeltaPackets.HistoryIff | libopenparasolid/src/delta_packets.cc:68-135 | The history grammar accepts exactly the maximal runs of printed marks with their terminal. |
| DeltaPackets.PacketCap | libopenparasolid/src/delta_packets.cc:145-193 | Lowering a positive entry limit gives the same outcome or the resource limit. |
| PacketGrammar.PacketIff | libopenparasolid/src/delta_packets.cc:145-193 | A packet is accepted exactly when its printed bytes stand at the offset, neither grammar runs into the entry limit there, and every other reading ends before an impossible type while this one does not. |
| PacketGrammar.MapPastIff | libopenparasolid/src/delta_packets.cc:23-67 | The map grammar reports the resource limit exactly when as many printed entries as allowed stand there and one more begins. |
| PacketGrammar.MarksPastIff | libopenparasolid/src/delta_packets.cc:68-135 | The history grammar reports it exactly when as many printed marks as allowed are followed by the type of another. |
| DeltaPackets.PacketAccepted | libopenparasolid/src/delta_packets.cc:145-193 | An accepted packet is its canonical bytes within the cap, and the other grammar failed or ends before an impossible type. |
| DeltaPackets.ReadMap | libopenparasolid/src/delta_packets.cc:23-67 | The cursor loop computes the map decoding. |
| DeltaPackets.ReadHistory | libopenparasolid/src/delta_packets.cc:68-135 | The cursor loop computes the history decoding. |
| DeltaPackets.ReadPacket | libopenparasolid/src/delta_packets.cc:145-193 | The choice between the two grammars. |
| WireBytes.MapSample | libopenparasolid/src/delta_packets.cc:23-67 | The bytes of a map with a repeated and an extended reference. |
| WireBytes.MarkBytes | libopenparasolid/src/delta_packets.cc:76-123 | The bytes of a mark: its type, five indices, four words, a flag and a word, in this order. |
| WireBytes.FollowingMeans | libopenparasolid/src/delta_packets.cc:137-144 | What follows a packet: absent, or its two big-endian bytes between 1 and the maximum or not. |
| SchemaDefinitions.FieldIff | libopenparasolid/src/schema.cc:53-85 | A field definition has exactly one encoding. |
| SchemaDefinitions.ReadField | libopenparasolid/src/schema.cc:53-85 | The cursor code computes the field decoding. |
| SchemaDefinitions.Validate | libopenparasolid/src/schema.cc:31-52 | The loop computes the validation of a type definition. |
| SchemaDefinitions.EditsDecoded | libopenparasolid/src/schema.cc:129-188 | A decoded edit script is its bytes, fits the base, and builds what applying its edits to the base means. |
| SchemaDefinitions.EditsEncoded | libopenparasolid/src/schema.cc:129-188 | A printed script within the announced count decodes to itself. |
| SchemaDefinitions.ReadEdits | libopenparasolid/src/schema.cc:129-188 | The edit loop with its base index computes the script decoding. |
| SchemaDefinitions.DefinitionIff | libopenparasolid/src/schema.cc:86-193 | A definition has exactly one encoding relative to its base: unchanged, edited or complete. |
| SchemaDefinitions.Definition | libopenparasolid/src/schema.cc:86-193 | The cursor code computes the definition decoding. |
| WireBytes.FieldSamples | libopenparasolid/src/schema.cc:53-85 | The bytes of field definitions: name, class, elements, letter unless a class is named, flag if the length varies. |
| WireBytes.EditSample | libopenparasolid/src/schema.cc:129-188 | The bytes of a script with all five operations. |
| WireBytes.EditMeaning | libopenparasolid/src/schema.cc:129-188 | That script inserts, copies, deletes and appends fields of a two-field base as its letters say. |
| SchemaNodes.ScalarIff | libopenparasolid/src/schema.cc:194-241 | A scalar has exactly one encoding under its field type, in both codecs. |
| SchemaNodes.ReadScalar | libopenparasolid/src/schema.cc:194-241 | The cursor code computes the scalar decoding. |
| WireBytes.ScalarWire | libopenparasolid/src/schema.cc:194-241 | A scalar is read exactly where its bytes stand, written out for every field type with big-endian digits and the null patterns 8004, ffff8004 and c2bc928f996e0000, and it is one of the values the type can hold. |
| WireBytes.ScalarLength | libopenparasolid/src/schema.cc:194-241 | The encoded length of every field type. |
| WireBytes.ElementValues | libopenparasolid/src/schema.cc:642-650 | Elements and components of every field: pairs, triples, boxes of six, eleven for a status-framed intersection point. |
| WireBytes.NodeSample | libopenparasolid/src/schema.cc:606-676 | The bytes of a node with one pointer, with and without status framing. |
| SchemaNodes.FieldsDecodedIff | libopenparasolid/src/schema.cc:637-676 | Decoded fields are exactly one printed field per definition, back to back, each charged to the value budget. |
| SchemaNodes.BodyIff | libopenparasolid/src/schema.cc:618-676 | A node body has exactly one encoding under its definition. |
| SchemaNodes.ReadBody | libopenparasolid/src/schema.cc:618-676 | The cursor code computes the body decoding and stays within the budget. |
| SchemaSteps.SchemaReady | libopenparasolid/src/schema.cc:575-605 | Resolving a type at first use keeps everything printable and the budgets kept. |
| SchemaSteps.NodeInReady | libopenparasolid/src/schema.cc:606-695 | A decoded node leaves records that print back to their bytes and counters within their limits. |
| SchemaSteps.PacketReady | libopenparasolid/src/schema.cc:528-547 | A decoded packet does the same. |
| SchemaSteps.StepReady | libopenparasolid/src/schema.cc:504-696 | Every record advances; a failure leaves the end of the decoded records in place. |
| SchemaSteps.RunConsistent | libopenparasolid/src/schema.cc:504-698 | Over a whole run, what is decoded prints back to its bytes, and a finished run ends in a terminator. |
| SchemaPrefix.PartitionIff | libopenparasolid/src/schema.cc:294-308 | A partition is read exactly from a node with the fixed layout that names a distinct non-null mark; the highest ID is the four printed bytes of its field. |
| SchemaPrefix.PrefixIff | libopenparasolid/src/schema.cc:310-349 | A prefix is read exactly from the node the partition names, with the fixed layout: links are the decoded pointers, counts the four printed bytes, also where the decoded scalar is null or negative. |
| SchemaPrefix.AdministrationIff | libopenparasolid/src/schema.cc:678-688 | Partition and prefix are updated exactly as a delta stream requires, in terms of the printed fields of its first two nodes. |
| SchemaGrammar.NodeIff | libopenparasolid/src/schema.cc:561-695 | The parser decodes a node exactly when one follows: definition introduced at first use, body under it, budgets and delta rules kept, bytes printed. |
| SchemaGrammar.StepIff | libopenparasolid/src/schema.cc:504-696 | One step of the parser agrees with the grammar: it goes on to the record that follows and stops at a terminator. |
| SchemaGrammar.RunIff | libopenparasolid/src/schema.cc:496-698 | Decoding completes exactly on sequences of records that follow each other and end in a terminator, and the sequence is unique. |
| SchemaGrammar.RunStops | libopenparasolid/src/schema.cc:496-702 | A failed decoding went as far as records follow: at its last state no record follows and nothing ends the stream. |
| SchemaParser.IndexBases | libopenparasolid/src/schema.cc:472-482 | Succeeds exactly on valid, distinct base types within the field limit, and indexes them by type. |
| SchemaParser.IndexAbsent | libopenparasolid/src/schema.cc:483-487 | Succeeds exactly on distinct absent types in range that are no base types. |
| SchemaParser.Resolve | libopenparasolid/src/schema.cc:575-605 | The code for a first use computes the resolution. |
| SchemaParser.ParseNode | libopenparasolid/src/schema.cc:575-695 | The code for one node computes the node step, in outcome, state and position; that the step frames a node exactly behind the prefix is ReportPrefix and ReportPointers. |
| SchemaParser.ParsePacket | libopenparasolid/src/schema.cc:528-547 | The code for one packet computes the packet step. |
| SchemaParser.Decode | libopenparasolid/src/schema.cc:496-698 | The main loop computes the run, and consumes the input on success. |
| SchemaParser.Parse | libopenparasolid/src/schema.cc:442-703 | Reports exactly for accepted inputs; the records tile the body up to decoded_end and print back to it, a complete report prints back to all bytes, an incomplete one stops there; counters and node indices keep their limits; with a known prefix exactly two nodes are read without status framing, so every other node is a delta node. |
| SchemaParser.ReportPrefix | libopenparasolid/src/schema.cc:678-688 | Every complete report of a delta stream starts with the partition and, right behind it, the mark it names; these two are its only nodes without status framing, and the prefix holds their index, links and counts. A prefix is known as soon as two nodes are; other streams have none. |
| SchemaParser.CompleteIff | libopenparasolid/src/schema.cc:442-703 | A report is complete exactly when the body is a sequence of records with a terminator, and it then reports that sequence. |
| SchemaParser.IncompleteStops | libopenparasolid/src/schema.cc:699-702 | An incomplete report stops where no record follows and no terminator stands. |
| ParsedModel.ReportNodes | libopenparasolid/src/schema.cc:606-695 | Every node of a report has a type in range, a nonzero index and a body decoded under its own definition, status-framed exactly among the delta nodes. |
| ReportedBytes.ReportPointers | libopenparasolid/src/schema.cc:657-672 | On the report and its bytes: in every delta node each pointer index is followed by its one status byte of 0 or 1 and no other field has a status; in every other node pointers are indices only. |
| ModelChecks.ValidateAndIndex | libopenparasolid/src/model.cc:411-524 | Succeeds exactly on valid snapshots within all budgets, and indexes every node once. |
| ParsedModel.ParsedIsModel | libopenparasolid/src/model.cc:411-524 | Parser and builder agree: a complete report of a stream without deltas passes every check of the builder exactly when the builder's budgets suffice. |
| ModelLinks.LinkReferences | libopenparasolid/src/model.cc:533-586 | One link per pointer value with its status; the five counters add up to the number of references, issues are the unverified, missing and wrong ones, and the kept findings are the first of all findings; none is missing or wrong exactly when every reference is null or names a node of a class not known to be wrong. |
| ModelLinks.TallyMeans | libopenparasolid/src/model.cc:525-586 | The running counters and the capped findings describe all links seen so far. |
| ModelLinks.Checked | libopenparasolid/src/delta_apply.cc:15-24 | Succeeds exactly on valid snapshots whose references all resolve. |
| DeltaState.StepsUpdateMap | libopenparasolid/src/delta_apply.cc:92-207 | The result of the operations is the base map with each target created, replaced or erased. |
| DeltaState.StepsKeepOrder | libopenparasolid/src/delta_apply.cc:92-207 | Survivors keep the base order and creations follow in plan order. |
| DeltaState.StepsWithin | libopenparasolid/src/delta_apply.cc:149-158 | No operation leaves the node, field and value budgets. |
| DeltaApply.LoadBase | libopenparasolid/src/delta_apply.cc:75-89 | The record table of the base: the index names exactly the live records and the totals are theirs. |
| DeltaApply.Operate | libopenparasolid/src/delta_apply.cc:92-207 | One operation on the table with tombstones agrees with the step on the plain list, in outcome and result. |
| DeltaApply.Operations | libopenparasolid/src/delta_apply.cc:92-207 | Throughout, the index names exactly the live records and the running totals are exact, without wrap-around. |
| DeltaApply.IndexMappings | libopenparasolid/src/delta_apply.cc:61-70 | Succeeds exactly on unambiguous mappings, and builds their table. |
| DeltaApply.Emit | libopenparasolid/src/delta_apply.cc:208-243 | Succeeds exactly when no 64-bit address overflows, and lays the live records out in order. |
| RecordLayout.EmittedRanges | libopenparasolid/src/model.cc:436-485 | The emitted nodes tile the byte range and always pass the byte-range checks of the validation. |
| RecordLayout.EmittedTiled | libopenparasolid/src/delta_apply.cc:208-243 | The layout on the nodes alone: nodes follow each other from 0, four bytes before the fields, a byte and eight for each value per field, four bytes of terminator. |
| RecordLayout.EmittedKeeps | libopenparasolid/src/delta_apply.cc:208-243 | Emitting changes nothing but the layout: definition, type, index, framing, lengths, elements, components, values and statuses of every field stay. |
| DeltaOutcome.CheckableIff | libopenparasolid/src/delta_apply.cc:244-246 | The emitted snapshot is valid and closed exactly when the records are: each fits its definition, indices are distinct, all budgets suffice, every reference stays inside. |
| DeltaApply.ShapesPlanned | libopenparasolid/src/delta_apply.cc:92-207 | The planned records fit their definitions exactly when the source nodes put in place do. |
| DeltaApply.ApplicableIff | libopenparasolid/src/delta_apply.cc:41-247 | The final check passes exactly on applicable plans: inputs fit, operations find target and source, the sources fit their definitions, addresses fit, one definition per record and all references stay in their budgets, and every reference stays inside. |
| DeltaSources.DecodedShapedIff | libopenparasolid/src/delta_apply.cc:160-195 | A node decoded from a delta stream fits its definition exactly when it has no intersection-point field and no value in a tag field. |
| DeltaSources.ParsedSource | libopenparasolid/src/delta_apply.cc:112-128 | Every framed node of a parsed delta stream is a proper source with a framed body under a valid definition, so the statement covers all of them. |
| DeltaSources.ForeignNeverApplies | libopenparasolid/src/delta_apply.cc:160-247 | No plan that puts a node in place with an unsigned word in a tag field, or with a component count other than its field type's, applies to any base. |
| DeltaSources.LimitNeverApplies | libopenparasolid/src/schema.cc:643-648 | Creating one LIMIT node over an empty base passes every check but the last: the delta decoder gives its point eleven components where a state has three. |
| DeltaApply.CreateDeltaState | libopenparasolid/src/delta_apply.cc:34-40 | Succeeds exactly on a checkable snapshot. |
| DeltaApply.ApplyDelta | libopenparasolid/src/delta_apply.cc:41-247 | On a checkable base it succeeds exactly on applicable plans; the new state is the planned list, freshly laid out and valid again. Its nodes are those of PlacedNode and SurvivingNode. |
| DeltaApply.AppliedIsMapUpdate | libopenparasolid/src/delta_apply.cc:41-247 | The nodes of the new snapshot: under every index the record of the operation on it, or else the base node; survivors in base order, creations in plan order. What such a record holds is PlacedNode. |
| AppliedNodes.PlacedNode | libopenparasolid/src/delta_apply.cc:160-195 | On the nodes of the new snapshot and the plan's references: a created or replaced node has the type, definition, length, elements and components of its source; a null pointer stays null, any other is the target of the one reference with its wire index and status; integer and short words turn signed, every other value stays. |
| AppliedNodes.SurvivingNode | libopenparasolid/src/delta_apply.cc:92-207 | A node whose index no operation names is there with the same definition and the same values. |
| AppliedNodes.ErasedNode | libopenparasolid/src/delta_apply.cc:97-107 | No node has an erased index. |
| AppliedNodes.NodeAccounted | libopenparasolid/src/delta_apply.cc:208-243 | Every node has the index of a base node or of an operation. |
| AppliedNodes.FieldsMean | libopenparasolid/src/delta_apply.cc:160-195 | The fields of a source convert exactly when every pointer has one status and a null index or a reference, and no other field has a status. |
| DeltaPlans.PlannedIff | libopenparasolid/src/delta_apply.cc:92-207 | A plan that can be planned names new indices for creations and known ones otherwise, no index and no source twice, and sources that fit, of the replaced node's type; with room for everything, every such plan can be planned. |
| LinearSystems.Pivot | libopenparasolid/src/intersection_evaluate.cc:83-89 | A row with the largest entry of the column. |
| LinearSystems.Eliminate | libopenparasolid/src/intersection_evaluate.cc:81-96 | Fails exactly with a kernel vector; otherwise triangular rows with nonzero pivots and the same solutions, although lower entries are never zeroed. |
| LinearSystems.Substitute | libopenparasolid/src/intersection_evaluate.cc:97-103 | Solves the triangular rows, last unknown first. |
| LinearSystems.TriangularUnique | libopenparasolid/src/intersection_evaluate.cc:97-103 | A triangular system has one solution. |
| IntersectionSolve.NewtonStep | libopenparasolid/src/intersection_evaluate.cc:62-109 | Returns a step exactly when only the zero step moves both tangent planes alike and inside the plane; then both tangent planes, moved by the step, have one point, and it lies in the plane. |
| IntersectionSolve.MeetUnique | libopenparasolid/src/intersection_evaluate.cc:62-109 | Where the tangent planes cross there is no other such step. |
| IntersectionSolve.ErrorWithin | libopenparasolid/src/intersection_evaluate.cc:51-57 | The error of a sample is within the tolerance exactly when both the distance of the surface points and their distance to the plane are. |
| IntersectionSolve.StepUnique | libopenparasolid/src/intersection_evaluate.cc:62-109 | A nonsingular system has no other step. |
| IntersectionSolve.Improve | libopenparasolid/src/intersection_evaluate.cc:205-228 | The first of sixteen halved dampings that lowers the error, if there is one. |
| IntersectionSolve.Solve | libopenparasolid/src/intersection_evaluate.cc:192-234 | Ends at the last iterate; succeeds exactly when the sample there is within the tolerance, and returns that sample; the error never grows. |
| IntersectionSolve.EndsOutside | libopenparasolid/src/intersection_evaluate.cc:192-234 | The iteration makes at most 32 updates; outside the tolerance it ends there, where the tangent planes do not cross, or where none of sixteen halved steps lowers the error. |
| IntersectionSolve.UpdateHalves | libopenparasolid/src/intersection_evaluate.cc:205-228 | Every update moves by the step that meets the tangent planes, halved fewer than sixteen times, to a smaller error. |
| IntersectionSolve.PlanesSolved | libopenparasolid/src/intersection_evaluate.cc:192-234 | On two crossing planes the iteration ends within any tolerance after at most one update. |
| IntersectionSolve.EndUnique | libopenparasolid/src/intersection_evaluate.cc:192-234 | The start determines where the iteration ends. |
| BomTransformation.BomTransformer.SelectConfig | libopenbom/src/transformer.cc:409-426 | The named configuration, else the default one, else the first with a warning. |
| BomTransformation.BomTransformer.GetOrParse | libopenbom/src/transformer.cc:434-451 | Returns what the file opens as and keeps the cache in agreement with the files. |
| BomTransformation.BomTransformer.BuildPart | libopenbom/src/transformer.cc:301-339 | Computes the part item with its cut list and appends exactly its warnings. |
| BomLaws.ShownConfiguration | libopenbom/src/transformer.cc:409-426 | On the built item: a part or assembly shows the first configuration of the wanted name, or of the default name, or else the first of all with a warning for a missing name; its properties win over the document's; a part lists its cut list entries exactly when asked to. |
| BomTransformation.BomTransformer.GroupInstances | libopenbom/src/transformer.cc:217-259 | Map and order vector hold the groups of visible instances, in order of first occurrence, with their counts. |
| BomTransformation.BomTransformer.BuildAssembly | libopenbom/src/transformer.cc:185-295 | Computes the aggregated tree, restores the active set, keeps the cache in agreement and appends exactly the tree's warnings. |
| BomLaws.LeftOutAbsent | libopenbom/src/transformer.cc:217-221 | On the built item: a suppressed, hidden or excluded instance that is not included makes no difference, grouped or expanded. |
| BomLaws.OthersPresent | libopenbom/src/transformer.cc:217-293 | Any other instance is one child of the expanded tree, between those of the instances before and behind it. |
| BomLaws.QuantitiesPresent | libopenbom/src/transformer.cc:217-293 | Grouped, the quantities add up to the number of instances that are not left out. |
| BomLaws.InstanceNames | libopenbom/src/transformer.cc:24-33 | A dash and digits behind a nonempty name are dropped, and nothing else. |
| BomTransformation.BomTransformer.BuildFromPath | libopenbom/src/transformer.cc:345-403 | The same for any file; recursion ends because the openable files outside the active ones decrease, whatever the depth limit. |
| BomTransformation.BomTransformer.BuildDrawing | libopenbom/src/transformer.cc:126-179 | The same for the distinct model references of a drawing. |
| BomTransformation.BomTransformer.Build | libopenbom/src/transformer.cc:77-120 | Fails exactly when the root does not open; the tree contains every quantity-weighted leaf as often as the tree that expands every instance, when in the assemblies reached instances with one key contain the same leaves. |
| BomTree.FewerFiles | libopenbom/src/transformer.cc:352-388 | A file outside the active ones leaves fewer files to open. |
| BomGroups.GroupsAre | libopenbom/src/transformer.cc:217-259 | The groups are one per key, with the first instance that has it and the number of instances that do. |
| BomConservation.SameKeyAlike | libopenbom/src/transformer.cc:217-259 | Instances with one key that are both resolved, or both not, contain the same leaves. |
| BomConservation.GroupedCount | libopenbom/src/transformer.cc:217-259 | Quantity times the first instance of every group counts what all instances count, when instances with one key contain the same leaves. |
| BomConservation.DocumentConserves | libopenbom/src/transformer.cc:185-295 | Under that condition in every assembly reached, grouping conserves every leaf count through the whole recursion. |
| BomExactness.HarmlessExact | libopenbom/src/transformer.cc:217-259 | Every child stands for its instances exactly when instances with one key contain the same leaves. |
| BomExactness.FreshExact | libopenbom/src/transformer.cc:217-259 | While no resolved instance contains the leaf of an unresolved one, grouping conserves the leaves of a list exactly when equal keys are equally resolved. |
| BomExactness.DocumentExact | libopenbom/src/transformer.cc:185-295 | The same three statements for all assemblies reached from a document: child by child exactly under the leaf condition, which holds where equal keys are equally resolved; and in every assembly exactly there, while no file contains the leaf of an unresolved instance. |
| BomClash.ClashLosesALeaf | libopenbom/src/transformer.cc:240-259 | A project where equal keys are not equally resolved: the recorded path of an unresolved instance is the file another recorded path is substituted by, and the unresolved leaf is lost. |
| BomClash.ClashHarmless | libopenbom/src/transformer.cc:240-259 | The same project with the configuration named: the keys still clash, and every leaf is conserved. |
| BomClash.LossesBalance | libopenbom/src/transformer.cc:185-295 | Two such assemblies in opposite order: the root contains every leaf as often as its expansion, although its assemblies do not. |
| BomRules.ApplyBomRules | asmbox/src/server.cc:397-446 | The recursive loop computes the rewriting. |
| BomRules.ApplyIsNormal | asmbox/src/server.cc:397-446 | Below the root nothing matches non_bom or phantom, and every kaufgruppe match has no children. |
| BomRules.FixedIffNormal | asmbox/src/server.cc:397-446 | The fixed points are exactly the normal trees; rewriting twice is rewriting once. |
| BomRules.OutlineOfApply | asmbox/src/server.cc:390-396 | The indented list of the result is the top-down reading of the original: excluded items hide their branch, phantoms lift theirs by one level, purchased groups end theirs. |
| BomRules.ApplyKeepsOrder | asmbox/src/server.cc:397-446 | The preorder of the result is a subsequence of the preorder of the input. |
| BomRules.ChildRewritten | asmbox/src/server.cc:412-441 | On the rewritten list: a child that a non_bom rule names by property and text is gone, else a phantom one gives way to its children, else a kaufgruppe one is stripped; a child no rule names is kept with its own subtree rewritten. |
| BomRules.UnnamedStays | asmbox/src/server.cc:417-428 | An item whose named properties are absent, no text or another text stays in the outline, in its place. |

## Left out

- Rounding and special values of floating point: no NaN or infinity, `isfinite` is a size limit (`limit`, `fits`) or always true.
- `std::hypot` in the boundary path distances is compared through squares.
- `Rounding.MarginCovers`: underflow, where rounding is not a fraction of the result, is not modelled.
- Convergence of the Newton iteration: only which iterates it visits and where it ends.
- `IntersectionSolve.Solve`: surface evaluation is a parameter, and its error codes are one error.
- `EvaluateIntersectionCurve` around the solver: charts, regularity measures and tangents.
- `PathBinding.BindPath`: evaluation of a bound fin is a parameter of the model.
- `BoundaryGroup` kinds outside the three names: the source rejects them, the model's type has none.
- Error messages and source offsets inside errors; where a contract says only that a call fails, the code depends on which check comes first.
- `SchemaParser.Parse`: reading the stream header, the built-in catalog tables and file input are parameters; the node type attached to a diagnostic is left out.
- `DeltaPackets.HistoryIff`: from a printed packet to its acceptance only with the marks that follow it, because a longer run of marks is a different packet.
- `ModelLinks.LinkReferences`: the class rule is a parameter; message texts are left out.
- Geometry building, topology bytes and edge tolerances of `ModelAssembler`: attributes read beside the checks.
- `BomTransformation.BomTransformer.Build`: opening files, canonical paths and path resolution are arbitrary functions with finitely many openable files, and a canonical path opens as the path itself; item callbacks are left out.
- `BomRules.ApplyBomRules`: JSON members other than children and properties are one opaque value; rule members of a wrong JSON type, on which the source throws, are not modelled.
- Header parsing, candidate inspection, topology validation, wire and body binding, analytic surfaces, spun, swept and offset geometry: other components.
- HTTP routes, storage, archives, command lines and report writers: input and output around these cores.
- `DeltaPlans.PlannedIff`: that every fitting plan can be planned is stated with room for all sources beside the base; where the budgets are tighter the order of the operations decides.
- `ExactCertificate.PassesExactly`: completeness is about arithmetic without rounding; with rounding only soundness is promised.
