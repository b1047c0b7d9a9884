# jsonctmctree core in Dafny

jsonctmctree computes likelihoods and expectations for a continuous-time
Markov chain (CTMC) that runs along the edges of a rooted tree. The state
space is a product of finite variables, and each observation fixes one
variable at one node. The data are a set of independent, identically
distributed sites.

This project models the core of that computation:

- **Observation indicators** (`CommonLikelihood`). For each node, a 0/1
  array of shape (states, sites) built from the observations. An out-of-range
  observation is an error, modelled with `Option`.
- **The three tree passes** (`CommonLikelihood`):
  - the postorder subtree pass;
  - the postorder conditional pass, which also includes each node's upstream
    edge;
  - the preorder pass.

  Each is a loop over a table of arrays that the pass mutates. It is proved
  against a recursive reference definition, and the two postorder passes are
  proved to agree.
- **Marginal distributions and edge expectations** (`Expect`):
  - marginal distributions at every node;
  - per-site expectations of labelled transition counts on every edge, built
    from the joint endpoint distribution and the Frechet derivative of the
    matrix exponential;
  - the prior vector;
  - the feasibility test and output of `process_json_in`.
- **The block 1-norm estimator** (`OneNormEst`): Higham and Tisseur's
  algorithm 2.4, which `onenormest` uses, and its helpers.
- **The HKY paralog example script**, split across four modules:
  - `TextLines`: paragraph splitting;
  - `NestedTrees`: tree numbering;
  - `Alignment`: alignment parsing;
  - `Hky`: the HKY generator, the joint two-paralog HKY generator, the root
    prior, and the unnormalized exit-rate and transition aggregators.

Supporting modules:

| Module | What it holds |
|---|---|
| `Wrappers` | `Option` |
| `Sequences` | Python's `zip(*rows)` |
| `StateSpace` | numpy's row-major ravel and unravel of multi-indices |
| `Matrices` | matrices as sequences of rows of reals |
| `Trees` | parent/children trees and a postorder |
| `Scenes` | the unpacked input of a request |
| `ExpmOracle` | the matrix-exponential evaluators, as function values with a shape requirement |

Conventions:

- **Arrays.** numpy arrays are values (`seq<seq<real>>`, with rows as states
  and columns as sites).
  - An in-place `*=` is a reassignment.
  - Python dictionaries that a loop fills are `map` variables of a method.
  - The tree builder, whose helper mutates a shared dictionary and list, is
    a class with those two fields.
- **Errors.** Every exception the source raises on bad input (a missing
  paralog suffix, an unknown species, a bad nucleotide, a non-square
  operator, an out-of-range observation or prior state, a sibling without a
  postorder partial) is a `None` result.

## Model

| member | source | states |
|---|---|---|
| TextLines.RStrip | docs/examples/hky_paralog/yeast_geneconv_zero_tau/main.py:38 | str.rstrip: the result is a prefix ending in a non-space, and everything dropped is whitespace |
| TextLines.LStrip | docs/examples/hky_paralog/yeast_geneconv_zero_tau/main.py:115 | str.lstrip: the result is a suffix starting with a non-space, and everything dropped is whitespace |
| TextLines.Strip | docs/examples/hky_paralog/yeast_geneconv_zero_tau/main.py:115 | str.strip: the result sits inside the line with only whitespace on both sides, and starts and ends with a non-space |
| TextLines.GenParagraphs | docs/examples/hky_paralog/yeast_geneconv_zero_tau/main.py:35-46 | the generator's loop collects exactly the paragraphs of the reference splitter |
| TextLines.ParagraphsWellFormed | docs/examples/hky_paralog/yeast_geneconv_zero_tau/main.py:37-46 | every yielded paragraph is non-empty and made of non-blank, right-stripped lines |
| TextLines.ParagraphsFlatten | docs/examples/hky_paralog/yeast_geneconv_zero_tau/main.py:37-46 | read in order, the paragraphs are exactly the non-blank right-stripped lines of the file: nothing lost, nothing invented |
| TextLines.ParagraphsAtBlank | docs/examples/hky_paralog/yeast_geneconv_zero_tau/main.py:40-44 | a blank line separates: the lines before and after it split independently |
| TextLines.ParagraphsOfJoin | docs/examples/hky_paralog/yeast_geneconv_zero_tau/main.py:35-46 | round trip: writing well-formed paragraphs with one blank line between them and splitting again gives them back |
| NestedTrees.TreeBuilder.constructor | docs/examples/hky_paralog/yeast_geneconv_zero_tau/main.py:69-70 | the name map and the edge list start empty |
| NestedTrees.TreeBuilder.HelpBuildTree | docs/examples/hky_paralog/yeast_geneconv_zero_tau/main.py:49-58 | returns node plus the subtree's size; the edge list grows by exactly the subtree's edges (the parent edge first, then each child in turn); the name map gets the subtree's labels |
| NestedTrees.TreeBuilder.BuildChildren | docs/examples/hky_paralog/yeast_geneconv_zero_tau/main.py:56-57 | each child is numbered from the first number its elder siblings left free; edges and names grow accordingly |
| NestedTrees.GetTreeInfo | docs/examples/hky_paralog/yeast_geneconv_zero_tau/main.py:69-71 | one edge per non-root node; edge i has child i+1 and a smaller parent; the map's names are exactly the tree's names, each mapped to a leaf; no edge leaves a leaf |
| NestedTrees.EdgesBounded | docs/examples/hky_paralog/yeast_geneconv_zero_tau/main.py:50-57 | every edge of a subtree points from a lower to a higher number inside the subtree's range |
| NestedTrees.ChildrenPreorder | docs/examples/hky_paralog/yeast_geneconv_zero_tau/main.py:49-58 | the edges' children, in order, are the subtree's numbers in preorder: every non-root node is the child of exactly one edge |
| NestedTrees.LabelsMeaning | docs/examples/hky_paralog/yeast_geneconv_zero_tau/main.py:53-54 | the names written are exactly the subtree's names, each set to one of its name nodes; other entries are unchanged |
| NestedTrees.LeavesHaveNoChildren | docs/examples/hky_paralog/yeast_geneconv_zero_tau/main.py:52-57 | name nodes are leaves: no edge starts at one |
| Alignment.FirstSuffix | docs/examples/hky_paralog/yeast_geneconv_zero_tau/main.py:76-79 | the first paralog name that the full name ends with, or None exactly when there is none |
| Alignment.PyDropLast | docs/examples/hky_paralog/yeast_geneconv_zero_tau/main.py:78 | Python's s[:-k]: all but the last k characters for k > 0, and the empty string for k = 0 |
| Alignment.ParseFullNameAsWritten | docs/examples/hky_paralog/yeast_geneconv_zero_tau/main.py:74-80 | as written: None exactly when no paralog name is a suffix; otherwise the first matching index and the slice full_name[:-len(name)] |
| Alignment.EmptyParalogLosesSpecies | docs/examples/hky_paralog/yeast_geneconv_zero_tau/main.py:77-78 | for the name YAL001 and the paralog list [""], the species comes out empty and species + paralog is not the full name |
| Alignment.ParseFullName | docs/examples/hky_paralog/yeast_geneconv_zero_tau/main.py:74-80 | None exactly when no paralog name is a suffix; otherwise species + paralog == full name, and no earlier paralog name is a suffix |
| Alignment.ParseFullNameAgrees | docs/examples/hky_paralog/yeast_geneconv_zero_tau/main.py:74-80 | the corrected and the as-written parse agree whenever no paralog name is empty |
| Alignment.NucleotideIndex | docs/examples/hky_paralog/yeast_geneconv_zero_tau/main.py:122 | 'ACGT'.index: defined exactly for A, C, G, T, and indexing 'ACGT' with the result gives the letter back |
| Alignment.EncodeRow | docs/examples/hky_paralog/yeast_geneconv_zero_tau/main.py:122 | defined exactly when every letter is in ACGT; the states are below 4 and decode back to the line |
| Alignment.ParseRecordMeaning | docs/examples/hky_paralog/yeast_geneconv_zero_tau/main.py:111-123 | with the corrected parse: a paragraph is accepted exactly when it has two lines, a known species followed by a paralog name, and a sequence over ACGT; the record holds that node, paralog and row |
| Alignment.ParseRecordAgrees | docs/examples/hky_paralog/yeast_geneconv_zero_tau/main.py:111-123 | the paragraph step as written and the corrected one agree whenever no paralog name is empty |
| Alignment.EmptyParalogRejectsRecord | docs/examples/hky_paralog/yeast_geneconv_zero_tau/main.py:74-80 | as written, a leading empty paralog name makes the species "", so a two-line paragraph is rejected when "" names no node |
| Alignment.EmptyParalogKeepsRecord | docs/examples/hky_paralog/yeast_geneconv_zero_tau/main.py:74-80 | corrected, a leading empty paralog name takes the whole name line as the species and paralog 0, so the paragraph is read when that species is known |
| Alignment.AllRecordsMeaning | docs/examples/hky_paralog/yeast_geneconv_zero_tau/main.py:110-123 | for any paragraph step: the file is accepted exactly when every paragraph is, and the records are theirs, in order |
| Alignment.AllRecordsSameParse | docs/examples/hky_paralog/yeast_geneconv_zero_tau/main.py:110-123 | two paragraph steps that agree on every paragraph read every file alike |
| Alignment.AllRecordsPrefix | docs/examples/hky_paralog/yeast_geneconv_zero_tau/main.py:110-112 | once a prefix of the paragraphs is rejected, so is the whole file |
| Alignment.CollectRecords | docs/examples/hky_paralog/yeast_geneconv_zero_tau/main.py:107-123 | the loop succeeds exactly when every paragraph is accepted, and then holds the nodes, paralog indices and rows of the records in order |
| Alignment.GetAlignmentInfo | docs/examples/hky_paralog/yeast_geneconv_zero_tau/main.py:83-126 | with the corrected parse: None exactly when a paragraph is rejected; otherwise one node and one paralog per paragraph, and the columns are zip(*rows) |
| Alignment.AlignmentAgrees | docs/examples/hky_paralog/yeast_geneconv_zero_tau/main.py:83-126 | with no empty paralog name the corrected reader and the reader as written accept the same files with the same records |
| Sequences.Zip | docs/examples/hky_paralog/yeast_geneconv_zero_tau/main.py:125 | zip(*rows): as many tuples as the shortest row is long, and tuple j holds entry j of every row |
| Sequences.ZipTwice | docs/examples/hky_paralog/yeast_geneconv_zero_tau/main.py:125 | on a non-empty rectangle, zipping twice gives the rows back |
| StateSpace.RavelUnravel | jsonctmctree/expect.py:298 | ravel_multi_index after unravelling a flat state gives it back |
| StateSpace.UnravelRavel | jsonctmctree/expect.py:298 | unravelling the ravelled index of an in-bounds multi-index gives it back |
| StateSpace.RavelInjective | jsonctmctree/expect.py:298 | distinct in-bounds multi-indices have distinct flat indices |
| StateSpace.RavelBound | jsonctmctree/expect.py:298 | the flat index of an in-bounds multi-index is below np.prod(shape) |
| CommonLikelihood.LocalObservables | jsonctmctree/common_likelihood.py:72 | np.flatnonzero(observable_nodes == node): exactly the observables of the node, in increasing order |
| CommonLikelihood.Mask | jsonctmctree/common_likelihood.py:73-82 | the np.take mask: 1 where the observed value supports the state's coordinate on the observable's axis, 0 elsewhere |
| CommonLikelihood.MaskProductMeaning | jsonctmctree/common_likelihood.py:68-82 | the product of 0/1 masks is 1 exactly where every mask is 1, and 0 elsewhere |
| CommonLikelihood.CreateIndicatorArray | jsonctmctree/common_likelihood.py:25-92 | defined exactly when every observed value at the node is in np.take's range; the array is the node's indicator |
| CommonLikelihood.IndicatorEntry | jsonctmctree/common_likelihood.py:72-82 | with -1 for missing, an indicator entry is 1 exactly when every observation at the node is missing or equals the state's coordinate |
| CommonLikelihood.SubtreeAccStep | jsonctmctree/common_likelihood.py:133-145 | each child edge multiplies expm_mul(rate, child's subtree array) into the node's accumulator |
| CommonLikelihood.HeldConsumeChild | jsonctmctree/common_likelihood.py:137-147 | a child's array is present when its parent needs it, and consuming it drops exactly it unless everything is stored |
| CommonLikelihood.KeysAtEnd | jsonctmctree/common_likelihood.py:157-162 | after the traversal the table holds every node when storing all, and only the root otherwise |
| CommonLikelihood.MultiplyChildEdges | jsonctmctree/common_likelihood.py:125-147 | the node's array is its subtree likelihood; the table keeps its keys and values invariant |
| CommonLikelihood.GetSubtreeLikelihoods | jsonctmctree/common_likelihood.py:95-165 | defined exactly when every observation can be looked up; keys are all nodes or only the root, by store_all; every value is that node's subtree likelihood |
| CommonLikelihood.ChildToEdgeFacts | jsonctmctree/common_likelihood.py:211 | the dictionary has a key for each edge tail, mapped to an edge of the list with that tail |
| CommonLikelihood.ChildToEdgeUp | jsonctmctree/common_likelihood.py:211 | in a valid tree the edge recorded for each non-root node is its upstream edge |
| CommonLikelihood.CondAccStep | jsonctmctree/common_likelihood.py:239-240 | each child multiplies its conditional array into the node's accumulator |
| CommonLikelihood.AccAgree | jsonctmctree/common_likelihood.py:133-145 | the accumulators of the conditional and subtree passes agree at every node and child count |
| CommonLikelihood.CondIsSubtreeAlongEdge | jsonctmctree/common_likelihood.py:198-205 | a node's conditional array is its subtree array pushed through its upstream edge; the root's is its subtree array |
| CommonLikelihood.MultiplyChildren | jsonctmctree/common_likelihood.py:239-242 | the product of the indicator and the children's conditional arrays, with the table's invariant kept |
| CommonLikelihood.AlongUpEdge | jsonctmctree/common_likelihood.py:248-252 | a non-root node's product goes through expm_mul along the edge found in child_to_edge, giving its conditional array |
| CommonLikelihood.GetConditionalLikelihoods | jsonctmctree/common_likelihood.py:168-271 | defined exactly when every observation can be looked up; keys by store_all as in the subtree pass; every value is the node's conditional likelihood |
| CommonLikelihood.PreRoot | jsonctmctree/common_likelihood.py:326-329 | the root's preorder array holds the prior probability of each state at every site |
| CommonLikelihood.SiblingsExcludeSelf | jsonctmctree/common_likelihood.py:332-334 | a node's own postorder partial never enters the product over its siblings |
| CommonLikelihood.SiblingAccStep | jsonctmctree/common_likelihood.py:332-334 | one more child: a sibling multiplies in its postorder partial and the node itself is skipped |
| CommonLikelihood.SiblingProduct | jsonctmctree/common_likelihood.py:331-334 | None (the KeyError) exactly when a sibling has no postorder partial; otherwise the product of the siblings' partials, in child order |
| CommonLikelihood.ReadyWithoutSiblings | jsonctmctree/common_likelihood.py:331-334 | when no node has two children no postorder partial is read, so any map of partials, even an empty one, will do |
| CommonLikelihood.PreorderNode | jsonctmctree/common_likelihood.py:324-345 | None exactly when a non-root node's sibling has no partial; otherwise the reference preorder array: the siblings' product, times the parent's preorder array, through expm_tmul |
| CommonLikelihood.NotReady | jsonctmctree/common_likelihood.py:331-334 | one non-root node missing a sibling's partial makes the pass fail |
| CommonLikelihood.PreTableDone | jsonctmctree/common_likelihood.py:320-345 | after the whole traversal every node holds its preorder array, so no sibling's partial was missing |
| CommonLikelihood.GetPreorderConditionalLikelihoods | jsonctmctree/common_likelihood.py:273-360 | None exactly when some non-root node's sibling has no postorder partial (the KeyError) or, since nothing is deleted, when store_all is unset on a tree of two or more nodes; otherwise every node maps to its preorder array |
| Expect.PseudoReciprocal | jsonctmctree/expect.py:160-166 | 0 maps to 0, and any other x maps to r with r times x equal to 1 |
| Expect.PseudoReciprocalInvolution | jsonctmctree/expect.py:160-166 | applying the map twice gives the value back, zero or not |
| Expect.PseudoReciprocalVec | jsonctmctree/expect.py:150 | entrywise on a vector: zeros stay zero, and every other entry is inverted |
| Expect.PseudoReciprocalMat | jsonctmctree/expect.py:232 | entrywise on a matrix: zeros stay zero, and every other entry is inverted |
| Expect.NormalizedColumnScale | jsonctmctree/expect.py:150-151 | each column is scaled by the pseudo-reciprocal of its sum |
| Expect.NormalizedColumn | jsonctmctree/expect.py:150-151 | a column with nonzero sum becomes a distribution summing to 1 that is proportional to it; a column summing to 0 becomes zeros |
| Expect.PropagateEntry | jsonctmctree/expect.py:119-120 | entry (j, site) of head.T.dot(P).T is the sum over i of head[i][site] times P[i][j] |
| Expect.MarginalIsDistribution | jsonctmctree/expect.py:97-152 | at every node and site the marginal sums to 1, or is all zeros when the site carries no mass |
| Expect.RootMarginalIsPosterior | jsonctmctree/expect.py:97-152 | at the root, the mass of a site is its likelihood distn.dot(arr), and marginal times likelihood equals prior times subtree likelihood |
| Expect.MarginalNode | jsonctmctree/expect.py:97-152 | one node's step computes the reference marginal, given its parent's |
| Expect.GetNodeToMarginalDistn | jsonctmctree/expect.py:55-157 | every node gets a marginal, and each one is the reference marginal of that node |
| Expect.SiteJointIsDistribution | jsonctmctree/expect.py:240-247 | J sums to 1 when outer(d, v) times P has nonzero total, and is all zeros otherwise |
| Expect.NullSiteExpectation | jsonctmctree/expect.py:243-263 | a site whose joint has total 0 reports expectation 0 |
| Expect.SiteExpectationAveragesCounts | jsonctmctree/expect.py:208-263 | when P has no zero and K is P times the expected counts W entrywise, the site expectation is the J-weighted sum of W |
| Expect.SiteExpectations | jsonctmctree/expect.py:234-263 | the site loop: entry s is the expectation of site s, computed from column s of the head marginal and the subtree array |
| Expect.EdgeSiteExpectations | jsonctmctree/expect.py:198-265 | the expectations of every site on a node's upstream edge are the reference ones |
| Expect.GetEdgeToSiteExpectations | jsonctmctree/expect.py:169-267 | the keys are exactly the upstream edges of the non-root nodes, and each value is that edge's reference expectations |
| Expect.PutMeaning | jsonctmctree/expect.py:300 | np.put: an entry no index names keeps its value; one named last by ind[k] gets v[k mod len(v)] |
| Expect.FlatIndices | jsonctmctree/expect.py:298 | ravel_multi_index of each feasible state, in order, each below the number of states |
| Expect.PriorVectorMeaning | jsonctmctree/expect.py:298-300 | with distinct states, the prior vector holds each state's probability at its flat index and 0 elsewhere |
| Expect.PriorVector | jsonctmctree/expect.py:298-300 | an error exactly when a feasible state is out of bounds; otherwise the prior vector |
| Expect.EdgeRows | jsonctmctree/expect.py:400-403 | the per-site series of each listed edge, in edge-list order |
| Expect.AssembleOutput | jsonctmctree/expect.py:386-415 | feasible exactly when every site's log likelihood is finite; the expectations are the zip of the edge rows when feasible, and absent otherwise |
| Expect.ExpectationsLayout | jsonctmctree/expect.py:400-404 | the output has one row per site, and entry i of a row belongs to edges[i] |
| Expect.ExpectedOutput | jsonctmctree/expect.py:351-393 | feasibility means every site likelihood under the prior and the root's subtree array has a finite log |
| Expect.ProcessJsonIn | jsonctmctree/expect.py:270-417 | an error exactly when a prior state or an observation is out of range; otherwise the output built from the reference subtree arrays, marginals and expectations |
| OneNormEst.SignRoundUp | jsonctmctree/pyexp/_onenormest.py:108-110 | 1 for a nonnegative entry and -1 otherwise, so the sign times the entry is its absolute value |
| OneNormEst.SignRoundUpMat | jsonctmctree/pyexp/_onenormest.py:108-110 | the same for a matrix: a sign matrix whose entrywise product with Y is the absolute value of Y |
| OneNormEst.ElementaryVector | jsonctmctree/pyexp/_onenormest.py:113-116 | the unit vector e_i: 1 at i and 0 elsewhere |
| OneNormEst.ElementaryPicks | jsonctmctree/pyexp/_onenormest.py:113-116 | the inner product of u with e_i picks out u[i], and e_i has 1-norm 1 |
| OneNormEst.VectorsAreParallel | jsonctmctree/pyexp/_onenormest.py:119-126 | an error exactly when the vectors differ in length; otherwise the verdict of the dot-product test, which says parallel when the inner product equals the length |
| OneNormEst.SignDotBound | jsonctmctree/pyexp/_onenormest.py:119-126 | for a sign vector and a vector over 1, 0, -1 the inner product is at most the length, with equality exactly when the two are equal |
| OneNormEst.ParallelIffEqual | jsonctmctree/pyexp/_onenormest.py:119-126 | parallel means equal, and a sign vector is never parallel to its negation |
| OneNormEst.AnyParallel | jsonctmctree/pyexp/_onenormest.py:131 | some column of Y is parallel to v |
| OneNormEst.ColumnNeedsResampling | jsonctmctree/pyexp/_onenormest.py:136-147 | column i needs resampling exactly when it is parallel to an earlier column of X or any column of Y |
| OneNormEst.EveryColParallelMeansEqual | jsonctmctree/pyexp/_onenormest.py:129-133 | for sign matrices, test (2) holds exactly when every column of X equals some column of Y |
| OneNormEst.NeedsResamplingMeansRepeat | jsonctmctree/pyexp/_onenormest.py:136-147 | a column needs resampling exactly when it repeats an earlier column or a column of Y |
| OneNormEst.FreeSignVector | jsonctmctree/pyexp/_onenormest.py:150-151 | fewer than 2^n forbidden vectors always leave a sign vector that a redraw can land on |
| OneNormEst.FreshColumnSettles | jsonctmctree/pyexp/_onenormest.py:258-259 | a redrawn column avoiding the forbidden ones no longer needs resampling, and the other columns are unchanged |
| OneNormEst.ResampleParallelColumns | jsonctmctree/pyexp/_onenormest.py:254-260 | afterwards no column needs resampling; each original column survives here or in Y; without Y the first column is kept |
| OneNormEst.ScaledStart | jsonctmctree/pyexp/_onenormest.py:224-225 | dividing by n gives a first column ones/n and distinct columns of unit 1-norm |
| OneNormEst.StartingMatrix | jsonctmctree/pyexp/_onenormest.py:211-225 | the starting matrix has the first column ones/n, every entry plus or minus 1/n, and columns of unit 1-norm that are pairwise distinct |
| OneNormEst.MaxOf | jsonctmctree/pyexp/_onenormest.py:236 | np.max: an upper bound of the entries that some entry attains |
| OneNormEst.ArgMax | jsonctmctree/pyexp/_onenormest.py:237 | np.argmax: an index of the maximum, with every earlier entry strictly smaller, so it is the first one |
| OneNormEst.ColAbsSums | jsonctmctree/pyexp/_onenormest.py:235 | entry j is the 1-norm of column j |
| OneNormEst.RowMaxAbs | jsonctmctree/pyexp/_onenormest.py:264 | entry i is the largest absolute value in row i |
| OneNormEst.SortIndices | jsonctmctree/pyexp/_onenormest.py:270-271 | the sort: a permutation of the indices in descending order of (h[i], i) |
| OneNormEst.Select | jsonctmctree/pyexp/_onenormest.py:280-281 | the list comprehension: exactly the indices inside or outside the history |
| OneNormEst.SelectSorted | jsonctmctree/pyexp/_onenormest.py:279-281 | filtering keeps the order h induces |
| OneNormEst.SelectSplit | jsonctmctree/pyexp/_onenormest.py:280-282 | the two filters split the list: nothing gained or lost |
| OneNormEst.Reorder | jsonctmctree/pyexp/_onenormest.py:277-282 | a permutation of ind with every unvisited index before every visited one |
| OneNormEst.ReorderSorted | jsonctmctree/pyexp/_onenormest.py:277-282 | on an ind sorted by h, the reordered list is the unvisited indices then the visited ones, each part still in the order h induces |
| OneNormEst.SelectNoHistory | jsonctmctree/pyexp/_onenormest.py:280-282 | with an empty history the reordering changes nothing |
| OneNormEst.UnitColumnProduct | jsonctmctree/pyexp/_onenormest.py:283-284 | with unit columns, column j of A X is column ind[j] of A |
| OneNormEst.SetUnitColumns | jsonctmctree/pyexp/_onenormest.py:283-284 | column j of X becomes e_ind[j] |
| OneNormEst.FirstEstimate | jsonctmctree/pyexp/_onenormest.py:233-236 | since the first column is ones/n, the first estimate is at least the 1-norm of A times ones/n |
| OneNormEst.NotParallelToZero | jsonctmctree/pyexp/_onenormest.py:229 | at the first iteration S_old is zero, so test (2) cannot stop the loop |
| OneNormEst.FirstEstimateBelowH | jsonctmctree/pyexp/_onenormest.py:262-264 | the 1-norm of a column of Y whose sign is in S is at most the largest entry of h |
| OneNormEst.HBelowColumnNorm | jsonctmctree/pyexp/_onenormest.py:262-264 | h[i] is at most the 1-norm of column i of A |
| OneNormEst.SortedFirstIsMax | jsonctmctree/pyexp/_onenormest.py:270-271 | the first sorted index holds the largest entry of h |
| OneNormEst.FirstRoundBound | jsonctmctree/pyexp/_onenormest.py:250-271 | the column of A that the sorted h puts first has 1-norm at least that of the column of Y whose sign S holds |
| OneNormEst.FirstIteration | jsonctmctree/pyexp/_onenormest.py:232-286 | whatever the resampling keeps, the column X picks first at k = 2 has 1-norm at least every column of Y at k = 1 |
| OneNormEst.EstimateStep | jsonctmctree/pyexp/_onenormest.py:233-237 | Y = A X; the estimate is the largest column 1-norm of Y, attained first at column best_j; in the first iteration it is at least the 1-norm of A ones/n; from the second on, column best_j of Y is column ind[best_j] of A and the estimate is at least the 1-norm of column ind[0] of A |
| OneNormEst.NextIndices | jsonctmctree/pyexp/_onenormest.py:262-282 | stops exactly when test (4) or test (5) fires, and never in the first iteration while the history is empty; otherwise ind is the index order by decreasing h, unused indices first when t > 1, all below n |
| OneNormEst.OneNormEstCore | jsonctmctree/pyexp/_onenormest.py:154-288 | None exactly when itmax < 2, t < 1 or t >= n; w is column j of A and v is e_j; the estimate is the 1-norm of w and at least that of A ones/n; between 3 and 2 itmax + 1 products |
| OneNormEst.MatMulIdentity | jsonctmctree/pyexp/_onenormest.py:81 | A.dot(identity) is A |
| OneNormEst.OneNormEstimate | jsonctmctree/pyexp/_onenormest.py:13-105 | None for a non-square operator and rejected parameters; for t >= n it is exactly the largest column 1-norm (None when n = 0), with v = e_j and w the column j for the first column j attaining it, as np.argmax picks; it never exceeds the 1-norm of A; v, w certify it as in the core |
| Hky.ContainsMeaning | docs/examples/hky_paralog/yeast_geneconv_zero_tau/main.py:138 | the membership test on ts_pairs is list membership |
| Hky.TsIsSameClass | docs/examples/hky_paralog/yeast_geneconv_zero_tau/main.py:133-138 | the ts label is 0 or 1, and 1 exactly when both nucleotides are purines or both pyrimidines |
| Hky.GenHky | docs/examples/hky_paralog/yeast_geneconv_zero_tau/main.py:129-140 | 12 transitions i to j with i != j, in increasing (i, j) order, each ordered pair present, ts exactly for same-class changes and tv = 1 - ts |
| Hky.TransitionsOut | docs/examples/hky_paralog/yeast_geneconv_zero_tau/main.py:151-154 | the transitions gen_hky lists from i are the three reference transitions out of i |
| Hky.InfoIsOut | docs/examples/hky_paralog/yeast_geneconv_zero_tau/main.py:151-154 | row_idx_to_info holds, for each nucleotide, its transitions out |
| Hky.BlockFacts | docs/examples/hky_paralog/yeast_geneconv_zero_tau/main.py:157-167 | each of the six transitions of a joint state starts at that state and changes exactly one site |
| Hky.GenJointHky | docs/examples/hky_paralog/yeast_geneconv_zero_tau/main.py:143-167 | 96 joint transitions, six per joint state in itertools.product order; in each block the three changes of the first site, then the three of the second, to the other nucleotides in increasing order; each changes one site with that site's labels and new nucleotide |
| Hky.ExitSplits | docs/examples/hky_paralog/yeast_geneconv_zero_tau/main.py:213-251 | the ts exit rate plus the tv exit rate is the full exit rate |
| Hky.OutRate | docs/examples/hky_paralog/yeast_geneconv_zero_tau/main.py:207-209 | the rates of the three transitions out of i sum, by kind, to the reference exit rate of i |
| Hky.ExitsStep | docs/examples/hky_paralog/yeast_geneconv_zero_tau/main.py:208-209 | adding one transition's rate to its initial state keeps the running-sum invariant |
| Hky.AddExitRates | docs/examples/hky_paralog/yeast_geneconv_zero_tau/main.py:206-209 | entry i sums the rates of the listed transitions out of i |
| Hky.UnnormalizedUnivariateExitRates | docs/examples/hky_paralog/yeast_geneconv_zero_tau/main.py:205-210 | entry i is the HKY exit rate of nucleotide i: the sum over j != i of pi[j], weighted by kappa when i and j are of the same class |
| Hky.AccumulateSameRow | docs/examples/hky_paralog/yeast_geneconv_zero_tau/main.py:214-218 | transitions from one row state add their counted rates to that key, and touch nothing when none is counted |
| Hky.BlockSum | docs/examples/hky_paralog/yeast_geneconv_zero_tau/main.py:213-218 | the counted rates of a joint state's six transitions sum to the two sites' exit rates |
| Hky.AccumulateBlock | docs/examples/hky_paralog/yeast_geneconv_zero_tau/main.py:213-218 | one joint state's block adds exactly its joint exit rate to its key |
| Hky.AccumulateFrom | docs/examples/hky_paralog/yeast_geneconv_zero_tau/main.py:213-218 | the remaining blocks add exactly the later joint states' exit rates |
| Hky.JointExitsMap | docs/examples/hky_paralog/yeast_geneconv_zero_tau/main.py:213-251 | the dictionary's keys are exactly the 16 joint states, and each value is that state's exit rate by kind |
| Hky.AccumulateExits | docs/examples/hky_paralog/yeast_geneconv_zero_tau/main.py:242-245 | the aggregator loop builds the reference dictionary |
| Hky.ListItems | docs/examples/hky_paralog/yeast_geneconv_zero_tau/main.py:246-250 | dict items: every key once, with its value |
| Hky.UnnormalizedExits | docs/examples/hky_paralog/yeast_geneconv_zero_tau/main.py:213-251 | the row states are distinct and are all 16 joint states, each with its exit rate by kind |
| Hky.SelectPartition | docs/examples/hky_paralog/yeast_geneconv_zero_tau/main.py:254-277 | the ts and tv selections of labelled transitions partition them |
| Hky.CollectStep | docs/examples/hky_paralog/yeast_geneconv_zero_tau/main.py:258-263 | a counted transition appends its row, column and rate; an uncounted one appends nothing |
| Hky.CollectTransitions | docs/examples/hky_paralog/yeast_geneconv_zero_tau/main.py:254-264 | the parallel lists are the entries of the counted transitions, in order |
| Hky.UnnormalizedKindTransitions | docs/examples/hky_paralog/yeast_geneconv_zero_tau/main.py:254-277 | the ts or tv lists are the counted joint transitions, each one counted |
| Hky.UnnormalizedTransitions | docs/examples/hky_paralog/yeast_geneconv_zero_tau/main.py:280-286 | 96 entries, the ts lists then the tv lists; as a multiset, each of the 96 joint transitions exactly once |
| Hky.AllTransitionsOnce | docs/examples/hky_paralog/yeast_geneconv_zero_tau/main.py:280-286 | the ts and tv transitions together are all 96 joint transitions, each once |
| Hky.RootPriorVector | docs/examples/hky_paralog/yeast_geneconv_zero_tau/main.py:187-191 | the root prior states are in bounds, and the prior vector puts pi[a] on the joint state (a, a) and 0 elsewhere |

## Left out

- **File and console I/O.** File reading, `argparse`, `json`, `main`, the
  optimizer, and parameter packing and unpacking are not modelled.
  `print` calls, including the debugging prints in `expect.py`, are left out.
  Files are given as their sequences of lines.
- **Tree parsing.** The pyparsing step of `get_tree_info` (main.py:64-67) is
  left out. `NestedTrees.GetTreeInfo` starts from the parsed nested list.
- **Unnamed helpers in main.py.** `get_joint_hky_process_definition`,
  `get_expected_univariate_rate` and `get_univariate_exit_rates`
  (main.py:170-202) are outside the modelled core.
- **Input glue of `process_json_in`.** The pass inputs arrive already
  unpacked as a `Scenes.Scene`. Left out:
  - the unpacking by `get_tree_info`, `get_observables_info`,
    `get_prior_info` and `get_processes_info`;
  - the construction of the PadeExpm and ExplicitExpmFrechet objects.
- **Constant output field.** The constant `status = 'success'` field of the
  output is not part of `Expect.Output`.
- **Matrix exponentials.** `expm_mul`, `expm_tmul` and
  `get_expm_and_frechet` (from `expm_helpers`) are not part of this model.
  - They are function values in `ExpmOracle`, required to preserve shapes.
  - K is read as the Frechet derivative only through a precondition of
    `Expect.SiteExpectationAveragesCounts`.
- **Evaluation order.** `get_node_evaluation_order` (networkx) is not part of
  this model. Its order is an input, required to be a postorder.
- **Floating point.** Reals are exact: there is no rounding, overflow or NaN.
  `np.log` and `np.isfinite` are parameters of `Expect.AssembleOutput`, so
  the infinite log of a zero likelihood is whatever that pair says.
- **Python 2 typing.** The `basestring` test in `_help_build_tree` becomes the
  two constructors of `NestedTrees.Nested`.
- OneNormEst.ResampleParallelColumns: the random redraw is an oracle.
  - A column that needs resampling is replaced by some sign vector that does
    not need it; such a vector exists, by `OneNormEst.FreeSignVector`.
  - `np.random` is not modelled, and neither is the loop of redraws.
  - The `nresamples` counter is not kept.
- OneNormEst.OneNormEstCore: bounds, not exact values.
  - The contract bounds the estimate from below and certifies it.
  - It does not state which iteration the loop stops at.
  - Complex operators are not modelled: `A.H` is the transpose of a real
    matrix.
- OneNormEst.OneNormEstimate: fixed output shape.
  - The result always carries est, v and w.
  - The tuple-shaping of `compute_v` and `compute_w` (lines 97-105) is not modelled.
  - The two internal shape checks (lines 82-88) cannot fail on an explicit
    matrix, so they are not modelled.
- Alignment.GetAlignmentInfo: reads each name line with the corrected
  `Alignment.ParseFullName`, not `parse_full_name` as written (see
  "## Findings").
  - With an empty paralog name the source looks up the species "" and
    raises KeyError unless "" names a node; the model looks up the whole
    name line (`Alignment.EmptyParalogRejectsRecord`,
    `Alignment.EmptyParalogKeepsRecord`).
  - With no empty paralog name the two readers agree
    (`Alignment.AlignmentAgrees`). `Alignment.ParseRecordMeaning` and
    `Alignment.AllRecordsMeaning` describe the corrected reader.
- CommonLikelihood.GetPreorderConditionalLikelihoods: ill-shaped partials.
  - A sibling's postorder partial that is present must have shape
    (nstates, nsites); numpy's broadcasting or ValueError on another shape
    is not modelled.
  - Entries that the pass never reads are unconstrained, and a missing
    sibling's partial is the `None` result.
- Hky.UnnormalizedExits: row order left open. The order of the rows is
  unspecified, because it is the iteration order of a Python dictionary.
- **Hky: the three aggregators are one method.** The ts, tv and all-changes
  variants of the exit and transition aggregators share one method with a
  `Kind` parameter.
- Expect.PriorVector: empty list of feasible states. numpy's
  `ravel_multi_index` on an empty array is not modelled. An empty list gives
  the all-zero vector.
- **Dictionary values.** A dictionary entry's value is the Python value it is
  assigned; numpy views and copies are not distinguished.

## Findings

| source | as written | input that shows it | evidently intended | confidence | as-written member | corrected member |
|---|---|---|---|---|---|---|
| docs/examples/hky_paralog/yeast_geneconv_zero_tau/main.py:74-80 | the species is full_name[:-len(paralog_name)], which is the empty string when the matching paralog name is empty, because s[:-0] is s[:0] | full name "YAL001" with paralog names [""] gives species "" (Alignment.EmptyParalogLosesSpecies) | the species is the part of the full name before the paralog suffix, so here the whole name | low; not executed (an empty paralog name may never occur in practice) | Alignment.ParseFullNameAsWritten | Alignment.ParseFullName |
