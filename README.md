# sequoia core, modelled in Dafny

This project models the data-handling core of sequoia, a set of Go tools and
Python scripts that turn the outputs of metagenomic classifiers, aligners and
reference databases into virome abundance tables, coverage profiles and
reference sets. Each core source file is one Dafny module, named after it.
The modules are listed below by area.

- Delta encoding (`Diffs`) and deduplication (`Common`) from the shared Go
  package. `ToDiffs` and `FromDiffs` rewrite an array in place and are proved
  to be inverses.
- Kraken reports. `Kraken` covers indentation levels and the running
  hierarchy. The hierarchy is a class over a backing array, so that Go's
  cut-then-append is modelled with its capacity. `KrakenPost` covers the
  per-mode aggregation rules, `Rarefy` the viruses-section scan and the
  union table, and `Tally` the `m[k] += v` counting idiom they share.
- Abundance tables (`Abundance`, over the pandas-like `Frames`). This covers
  loading, sorting by label and by column sum, spike removal, phylum
  regrouping and normalisation.
- Coverage vectors.
  - `Coverage`: per-read histogram growth.
  - `CoverageSum`: grouped sums with zero padding, and the file-name and
    sample-name patterns.
  - `CoveragePlot2` and `CoveragePy`: the Python accumulations. `mysum` works
    in place on arrays.
  - `Padded`: the element-wise padded sum these share.
- Sample naming. `Luna` and `SampleNaming` map file names to standard sample
  names and groups; `Dragen`, `Jason` and `ReadCounts` handle the sample
  names of their scripts.
- Taxonomy and references.
  - `KrkTax`: parent-child linking and accession lists.
  - `KrkCov`: descendant closure and the read filter.
  - `Dragen`: the upward walk to a genus.
  - `RefSeq` and `TaxRef`: accession/tax-ID maps.
  - `Czid` and `Vsp2`: ID-list parsing.
  - `GenBankPlus`: record enrichment.
  - `GoTerms`: GO-line validation.
  - `NcbiXml`: nucleotide checks and host extraction.
  - `Falen`: FASTA name checks and length quantiles.
- Streaming tools.
  - `Lazy`: a buffered writer class. The file plus the buffer always equals
    the bytes accepted.
  - `CheckInterleaved`: the pairing state machine.
  - `SplitFa`: chunking and key grouping.
  - `Kmers` and `KmersCmp`: first and second sightings over bit arrays,
    repeat counts and presence matrices.
  - `Vsp2Str`: the n-gram index search.
- Analysis scripts.
  - `CompareAbnd`: the enumerator and PERMANOVA grouping.
  - `Jason2` and `Jason`: grouping, top columns, read-count filtering,
    string fixes and time ordering.
  - `ReadCounts`: the influent/solid/other partition.

`Wrappers`, `Strs` and `Seqs` are shared helpers: Option/Result, string
functions with Go and Python semantics, and sums, sorting and orders.

File reading, JSON, CSV and FASTA/FASTQ/SAM/XML decoding are outside the
model. Their results are parameters: rows, records, maps, or per-line parse
results. Go's random map iteration order is a nondeterministic choice (`:|`)
or an explicit `order` parameter, and Python's dictionary insertion order is
a sequence of pairs. A Go panic, a `common.Die` and a Python exception are
error results (`Result`/`Option`).

Where the repository's own description and its code differ, the model
follows the code:

- pandas `sort_index` and `sort_values` use an unstable quicksort. The model
  promises a permutation in the stated order, not stability.
- Normalising an all-zero row in `abundance.py` gives NaN, not zeros.
- `luna.go` builds a group pattern that anchors only its first alternative
  (see Findings).

## Model

| member | source | states |
|---|---|---|
| Abundance.CleanFileName | abundance.py:193-197 | the cleaned name is a prefix of the base name |
| Abundance.CleanFileNameOrder | abundance.py:195-196 | the suffixes are stripped once each and in order: "s1.gen.vir.json" becomes "s1", while "s1.vir.gen" keeps ".vir" |
| Abundance.CleanFileNameOfInputs | abundance.py:193-197 | for any directory and any sample name without '/' or '.', the files name.json, name.vir.json, name.gen.json and name.gen.vir.json all clean to the sample name |
| Abundance.CleanFileNameKeepsTag | abundance.py:193-197 | the files name.tid.json, name.phy.json, name.viror.json, name.allsp.json and name.allgen.json keep their tag: they clean to name plus the tag |
| Abundance.FromRecords | abundance.py:80-84 | one row per sample, indexed by the names, and each cell is the sample's count for the column, 0 when missing |
| Abundance.SortIndexSpec | abundance.py:85 | sort_index permutes the rows, each keeping its label and cells, so that the labels are in order |
| Abundance.SortColumnsSpec | abundance.py:187-190 | sort_columns permutes the columns, each keeping its cells, so that the column sums do not increase |
| Abundance.SortColumnsDistinct | abundance.py:187-190 | distinct column labels stay distinct after sorting |
| Abundance.SplitLabels | abundance.py:89-98 | phylum mode succeeds exactly when every label splits on ',' into two parts, and the parts are the species and the phylum; otherwise the error names a bad label and its part count |
| Abundance.NotSpike | abundance.py:101-107 | the keep mask is false exactly at the spike columns |
| Abundance.OnlyPosition | abundance.py:107 | a label that occurs at most once is found at its only position |
| Abundance.DistinctAtMostOnce | abundance.py:80-86 | distinct labels each label at most one column |
| Abundance.AddInto | abundance.py:106 | the residual column gains the spike column's cell in every row, and nothing else changes |
| Abundance.FoldSkip | abundance.py:103-109 | a spike taxon that is not a column, or a flag option, changes no cell |
| Abundance.FoldAdd | abundance.py:104-107 | a spike taxon that is a column is added into the residual column |
| Abundance.FoldedCells | abundance.py:100-110 | after the loop each kept cell is its old value, plus the row's spike total in the residual column |
| Abundance.RemoveSpike | abundance.py:100-110 | the spike columns are dropped and the rest kept in order; with a residual column each row's spike total is added to it; a residual column that does not exist while a spike does is an error (a KeyError in pandas) |
| Abundance.Distinct | abundance.py:116 | the distinct labels, each once |
| Abundance.PermutedDistinct | abundance.py:116 | a permutation of a repeat-free list is repeat-free with the same elements |
| Abundance.GroupSumSnoc | abundance.py:116 | one more cell adds its value to its own group's sum only |
| Abundance.RSumZero | abundance.py:116 | a row of zeros sums to zero |
| Abundance.GroupRowSnoc | abundance.py:116 | one more cell adds its value to the regrouped total when its label is a group |
| Abundance.GroupRowTotal | abundance.py:116 | regrouping over groups holding every label once keeps each row's total |
| Abundance.GroupBySpec | abundance.py:112-116 | the regrouped table has one column per distinct phylum, sorted, each cell the sum of the row's cells with that phylum, and row totals are kept |
| Abundance.NonEmpty | abundance.py:171 | the mask is true exactly for rows with a non-zero total |
| Abundance.DropEmptyRowsSpec | abundance.py:169-173 | exactly the rows with a non-zero total remain, in their order, with their labels |
| Abundance.DivSelf | abundance.py:119 | a non-zero total divided by itself is 1 |
| Abundance.Scaled | abundance.py:119 | each cell divided by the total |
| Abundance.RSumScaled | abundance.py:119 | dividing every cell by the total divides the row sum by it |
| Abundance.NormalizeSpec | abundance.py:118-119 | a row with a non-zero total becomes its cells over the total, which sum to 1; a row with total 0 has no finite cell |
| Abundance.Determined | abundance.py:74 | exactly the paths without "Undetermined" are kept |
| Abundance.NameAll | abundance.py:82 | all names, one per file, or the error of the first file that fails |
| Abundance.SortedTableRows | abundance.py:80-86 | the rows of the table are the sample names permuted into sorted order |
| Abundance.SortedTableColumns | abundance.py:80-87 | the columns are the same distinct taxa, in order of non-increasing sum |
| Abundance.SortedTableCells | abundance.py:80-87 | each cell is its sample's count for its column, 0 when missing |
| Abundance.Records | abundance.py:78 | one JSON map per file, in order |
| Abundance.Tabulate | abundance.py:80-87 | the table is indexed by the names in sorted order, has each taxon of any sample once as a column, in order of non-increasing sum, and row c is the record of the sample a permutation puts there: its name and, in each cell, its count for the taxon |
| Abundance.Finish | abundance.py:100-121 | without spike removal the result is the table (shares when normalised), or an unbound-keep error when phylum labels were split; with it, a missing residual column while a spike column is present is a KeyError, raised first as at the first spike's `+=`; then a spike label naming two columns is an error, and so is a residual label naming two columns when some spike column is present (with none, a repeated residual label is never touched); otherwise the result is the table without the spike columns (their counts added to the residual column), summed by phylum when asked, then normalised when asked |
| Abundance.NoSpikeRemoved | abundance.py:100-110 | when no spike taxon is a column, removing the spike columns leaves the table unchanged, whatever the residual column |
| Abundance.NoSpikeNoError | abundance.py:100-121 | when no spike taxon is a column, spike removal cannot fail, even if the residual label names several columns, and the result is the table itself, summed by phylum when asked, then normalised when asked |
| Abundance.LoadFrom | abundance.py:89-121 | after the table is built: in phylum mode a label that does not split on ',' in two is an error, otherwise the species parts become the labels and the phylum parts the groups; then the result is that of Finish on that table, with its error order (a missing residual column before a repeated label) |
| Abundance.LoadData | abundance.py:66-121 | a non-zero expected count different from the number of determined files is an error naming both counts; a bad name is an error; otherwise the result is that of LoadFrom on a tabulation of the named records, so the rows are the names sorted, shares when normalised, and the columns every taxon once by decreasing sum |
| Abundance.CleanNames | abundance.py:139 | each file is named by clean_file_name |
| Abundance.DropAndNormalize | abundance.py:169-182 | the result is the table without its empty rows, normalised when asked: only rows with a non-zero total remain, and when normalised each sums to 1 |
| Abundance.LoadData2 | abundance.py:124-184 | a non-zero expected count different from the number of files is an error naming both counts; otherwise, on a tabulation of the files named by clean_file_name, a missing residual column with a spike column present is the only error, and the result is the table without the spike columns (their counts added to the residual column), its empty rows dropped and normalised when asked |
| Frames.Range | abundance.py:187-190 | the positions 0 to n-1 in order |
| Frames.DistinctMultiplicity | abundance.py:187-190 | an element of a repeat-free list occurs at most once |
| Frames.RepeatedMultiplicity | abundance.py:187-190 | an element at two positions occurs at least twice |
| Frames.PermutationFacts | abundance.py:187-190 | a permutation of 0 to n-1 has n distinct entries below n |
| Frames.PermutationHits | abundance.py:187-190 | every position below n appears in a permutation of 0 to n-1 |
| Frames.Where | abundance.py:110 | a boolean mask selects exactly the positions where it is true, in increasing order |
| Frames.SelectColumns | abundance.py:110 | selecting columns keeps the index and takes each selected column's label and cells |
| Frames.SelectRows | abundance.py:171 | selecting rows keeps the columns and takes each selected row's label and cells |
| Frames.RowsByLabelSpec | abundance.py:85 | the row order is a permutation that puts the labels in order |
| Frames.Column | abundance.py:188 | a column's cells, top to bottom |
| Frames.SelectedColumnSum | abundance.py:190 | a column keeps its sum when selected |
| Frames.BySumDescendingPreorder | abundance.py:189 | ordering by non-increasing sum is a total preorder |
| Frames.ColumnsBySumSpec | abundance.py:187-190 | the column order is a permutation along which the sums do not increase |
| CheckInterleaved.Step | checkinterleaved/checkinterleaved.go:19-28 | a mismatch is counted exactly when a name is pending and the new name differs; an equal name clears the pending state, otherwise the new name becomes pending |
| CheckInterleaved.PairsMatchAppend | checkinterleaved/checkinterleaved.go:19-28 | one more name keeps the pairs matching exactly when it completes an odd-length list with the pending name |
| CheckInterleaved.ScanClean | checkinterleaved/checkinterleaved.go:16-30 | with non-empty names the scan counts no mismatch iff every mate pair (positions 2k, 2k+1) has equal names, and then the pending name is the unpaired last one |
| CheckInterleaved.Doubled | checkinterleaved/checkinterleaved.go:17-30 | the list n1,n1,n2,n2,... has twice the length and position i holds name i/2 |
| CheckInterleaved.DoubledClean | checkinterleaved/checkinterleaved.go:17-30 | the names n1,n1,n2,n2,... end the scan with nothing pending and bad = 0 |
| CheckInterleaved.Names | checkinterleaved/checkinterleaved.go:17-20 | the names of the read records, in order |
| CheckInterleaved.Check | checkinterleaved/checkinterleaved.go:13-35 | the loop computes the scan's state; the exit status is 2 at a read error, 1 iff bad > 0, else 0 |
| CheckInterleaved.StatusZero | checkinterleaved/checkinterleaved.go:32-34 | the program exits 0 iff every record was read and every mate pair matches |
| Common.SetToSeq | common/common.go:52 | the keys of a set come out each exactly once, in some order |
| Common.Dedup | common/common.go:48-53 | a slice of at most one element comes back unchanged; otherwise the result has no repeats and exactly the input's elements, and is never longer |
| Common.DistinctElems | common/common.go:52 | a repeat-free list has as many distinct elements as items |
| Common.DistinctCount | common/common.go:52 | a list never has more distinct elements than items |
| Common.DedupSlice | common/common.go:55-59 | every inner slice is replaced by a deduplication of itself, and the outer length is kept |
| Common.DedupValues | common/common.go:61-65 | the key set is kept and every value list is deduplicated |
| CompareAbnd.Firsts | compare_abnd.py:17-25 | the values the enumerator has seen, in order of first appearance, each once |
| CompareAbnd.IdsSnoc | compare_abnd.py:20-23 | giving one more value leaves the ids of the earlier values unchanged |
| CompareAbnd.IdsSpec | compare_abnd.py:17-25 | two values get the same id exactly when they are equal; a new value gets the number of distinct values before it; the ids used are exactly 0 .. k-1 |
| CompareAbnd.Enumerator.constructor | compare_abnd.py:18 | the enumerator starts with an empty dictionary |
| CompareAbnd.Enumerator.Id | compare_abnd.py:20-23 | a new value is stored with id len(e), a known value returns its stored id and leaves e unchanged; the id is the value's rank among first appearances |
| CompareAbnd.AtStart | compare_abnd.py:68 | the anchored pattern matching "1." or "2." at the start yields the first alternative the name starts with, none exactly when it starts with none |
| CompareAbnd.LeftmostSpec | compare_abnd.py:74-77 | findall's first match is an alternative occurring at a position before which no alternative occurs; there is none exactly when no alternative occurs |
| CompareAbnd.Selected | compare_abnd.py:73-79 | the selected sample positions ascend strictly and lie within the sample list |
| CompareAbnd.SelectedMembers | compare_abnd.py:73-79 | a sample is selected exactly when the pattern matches its name |
| CompareAbnd.KeysMatch | compare_abnd.py:74-78 | each grouping key is the match of the sample at the same selected position |
| CompareAbnd.Grouping | compare_abnd.py:69-79 | the grouping and index lists are parallel: the indexes are the selected positions and the grouping is the enumerator's ids of their matches |
| CompareAbnd.Sub | compare_abnd.py:84 | the submatrix holds the distances between the selected samples on both axes and is a distance matrix when the full one is |
| CompareAbnd.Run | compare_abnd.py:68-84 | for each of the three patterns, the test input is the grouping of the matching samples and the distances between them |
| Coverage.Bump | coverage/coverage.go:48-58 | the histogram is zero-grown to cover pos .. pos+ln-1, exactly those positions gain 1 and all others keep their value |
| Coverage.SumOnes | coverage/coverage.go:56-58 | a run of n increments adds n |
| Coverage.SumPointwise | coverage/coverage.go:56-58 | the total of an element-wise sum is the sum of the totals |
| Coverage.BumpSum | coverage/coverage.go:53-59 | a read raises the histogram's total by its length; the histogram never shrinks and no count drops |
| Coverage.Unnamed | coverage/coverage.go:24-30 | a reference not yet seen has no reads, no bases and its starting length (lens[ref] or 0) |
| Coverage.SnocOther | coverage/coverage.go:49-59 | a read of one reference changes nothing for the others |
| Coverage.SnocSame | coverage/coverage.go:49-59 | a read of a reference extends its extent to the read's end, adds its length to the bases and 1 to the depth of each covered position |
| Coverage.DepthPastExtent | coverage/coverage.go:53-58 | no read covers a position past the extent |
| Coverage.HistogramsSnoc | coverage/coverage.go:48-59 | one more read keeps every histogram equal to the per-position read depth, as long as its extent, summing to its bases |
| Coverage.FirstErrorExtends | coverage/coverage.go:44-47 | the first failing record of a prefix is the first failing record overall |
| Coverage.AddRead | coverage/coverage.go:49-59 | one record (new histograms starting from lens[ref] zeros, or empty) keeps the Histograms invariant |
| Coverage.Build | coverage/coverage.go:16-62 | an error exactly at the first record with an unknown or negative reference length or an unplaceable read; otherwise every reference's histogram holds at each position the number of reads covering it, and every read starting at or past the known length is logged and still counted |
| CoveragePlot2.AddInto | coverage_plot2.py:24-29 | a stored vector shorter than the incoming one is zero-extended to its length, then element i grows by v[i]: the result is the zero-padded element-wise sum |
| CoveragePlot2.LoadFile | coverage_plot2.py:19-29 | folding one file into a dictionary that holds the padded totals of the earlier files gives the padded totals of all of them; a first-seen key takes the file's vector |
| CoveragePlot2.LoadData | coverage_plot2.py:13-31 | the result's keys are the union of the files' keys and each key's vector is as long as the longest vector seen, element i the sum over the files of their element i (0 where a file is shorter) |
| CoveragePlot2.LoadedKeys | coverage_plot2.py:18-23 | a key is in the result exactly when some file holds it |
| CoveragePlot2.LoadedUnique | coverage_plot2.py:18-31 | the result does not depend on the order a file's keys are visited in |
| CoveragePlot2.VectorsOfEmpty | coverage_plot2.py:20-23 | a key has no vectors exactly when no file holds it, so the first file that holds it starts its entry |
| CoveragePy.ExtractSpecies | coverage.py:64-70 | the species key is a prefix of the file's base name |
| CoveragePy.ExtractSpeciesCovAndNz | coverage.py:64-70 | dir/spc.cov.json and dir/spc.nz.json both give back spc when spc has no '/' or '.' |
| CoveragePy.ExtractSpeciesKeepsCovs | coverage.py:64-70 | as written, dir/spc.covs.json gives "spc.covs", not spc |
| CoveragePy.ExtractSpeciesIntended | coverage.py:64-70 | with ".covs" also removed, the key is still a prefix of the base name |
| CoveragePy.ExtractSpeciesIntendedRoundTrip | coverage.py:64-70 | the corrected name function gives back spc for all three of .cov.json, .covs.json and .nz.json |
| CoveragePy.AddInPlace | coverage.py:88 | `s += x` changes only s: element i grows by x[i], by x's single element, or doubles when x is s itself |
| CoveragePy.MySum | coverage.py:80-89 | Nones are skipped; with nothing present the result is None; otherwise the first present array is returned, holding the running in-place sum of the rest, or the shape error of the first operand that cannot be broadcast |
| CoveragePy.PresentEmpty | coverage.py:82-84 | the sum is None exactly when every element is None |
| CoveragePy.AddAllTotal | coverage.py:85-88 | with equal lengths, the accumulated vector is the element-wise total of all present vectors |
| CoveragePy.OutcomeEqualLengths | coverage.py:80-89 | distinct arrays of one length sum without error to their element-wise total |
| CoveragePy.LunaGroupsPrefixFree | coverage.py:92-95 | no LUNA group name is a prefix of another, and they are pairwise distinct |
| CoveragePy.GroupsDisjoint | coverage.py:94-95 | with distinct arrays and prefix-free groups, an array belongs to at most one group's sum |
| CoveragePy.SumSpecies | coverage.py:92-96 | succeeds exactly when no group's sum meets a shape error; then the keys are exactly the groups and each group's entry is its mysum over the keys starting with it, other groups untouched; on failure the error is some group's own error |
| CoveragePy.NonZeroUpToSpec | coverage.py:132 | the comprehension succeeds exactly when every index past b's end has a[i] != 0, and keeps, ascending, exactly the indices where a or b is non-zero |
| CoveragePy.Take | coverage.py:133-134 | fancy indexing succeeds exactly when all indices are in range, and picks x at each index |
| CoveragePy.TauInputsError | coverage.py:129-134 | with both vectors present, tau_wrapper raises IndexError exactly when b is shorter than a |
| CoveragePy.TauInputsKeep | coverage.py:129-134 | with b no shorter than a, the pair passed to kendalltau is a and b at the ascending non-zero positions, of equal length, with no position zero in both |
| CoveragePy.CovAnnot | coverage.py:27-32 | the annotation is empty exactly when the species is in neither list |
| CoveragePy.TitleSuffixMarks | coverage.py:187 | the title suffix starts with " (top" exactly when the key is in the top list and ends with "vsp)" exactly when it is in the VSP v2 list |
| CoverageSum.Grow | coveragesum/coveragesum.go:176-186 | a slice at least n long comes back unchanged; a shorter one is zero-padded to exactly n with its prefix kept |
| CoverageSum.Add | coveragesum/coveragesum.go:160-166 | the result is the zero-padded element-wise sum of dst and src, as long as the longer |
| CoverageSum.Longest | coveragesum/coveragesum.go:189-192 | the result bounds every slice length and is attained unless it is 0 |
| CoverageSum.EqualizeLens | coveragesum/coveragesum.go:188-202 | same keys; empty slices stay empty; every other slice is zero-padded to the longest length with its prefix kept |
| CoverageSum.NonZeroRatio | coveragesum/coveragesum.go:204-215 | the counting loop returns NonZeroShare: 0 for an empty slice, else the non-zero count over the length |
| CoverageSum.NonZeroShareBounds | coveragesum/coveragesum.go:204-215 | the share lies between 0 and 1 |
| CoverageSum.LastAt | coveragesum/coveragesum.go:105 | the last occurrence of a substring in a range, or none in that range |
| CoverageSum.SampleEnd | coveragesum/coveragesum.go:105 | the greedy `(.+)\.cov\.json` after "__" ends at the last ".cov.json" reachable without a newline, or cannot end |
| CoverageSum.SpeciesEnd | coveragesum/coveragesum.go:105 | the greedy `([^/]+)__` ends at the last "__" that a sample can follow, or none exists |
| CoverageSum.MatchInRun | coveragesum/coveragesum.go:105 | a match starting at s has its species inside the run of non-'/' characters from s, and conversely |
| CoverageSum.MatchAtSpec | coveragesum/coveragesum.go:105 | at a start position the pattern takes the longest species and then the longest sample, and fails only when nothing matches there |
| CoverageSum.CovMatchSpec | coveragesum/coveragesum.go:105-114 | the first match found is the leftmost, with the greedy group ends; none is found only when the name matches nowhere |
| CoverageSum.CollectSnoc | coveragesum/coveragesum.go:109-116 | collecting one more file updates only its species and sample entry |
| CoverageSum.CollectNonEmpty | coveragesum/coveragesum.go:106-116 | no species maps to an empty sample map |
| CoverageSum.CollectHas | coveragesum/coveragesum.go:109-116 | every file's species and sample has an entry |
| CoverageSum.CollectLast | coveragesum/coveragesum.go:115 | every entry is the last file with that species and sample (later files overwrite) |
| CoverageSum.SortFiles | coveragesum/coveragesum.go:97-118 | an error exactly when there are no files or when one does not match, naming the first such file; otherwise the species/sample/file map |
| CoverageSum.IterSpecies | coveragesum/coveragesum.go:135-158 | ok exactly when every file reads and holds at most one species; an error names a failing file; empty objects are skipped; every one-species file yields its single coverage once |
| CoverageSum.Batch2AtEnd | coveragesum/coveragesum.go:217 | a match of `_([^_]+)_(SOL or INF)_` at p ends its first group at the first '_' after p+1 |
| CoverageSum.Batch2GroupAt | coveragesum/coveragesum.go:217-228 | a group at p exactly when the pattern matches there, and it is site "_" SOL or INF |
| CoverageSum.Batch2FromSpec | coveragesum/coveragesum.go:224-228 | the group comes from the leftmost match; none exactly when the pattern matches nowhere |
| CoverageSum.ClassifyBatch1 | coveragesum/coveragesum.go:50-61 | in batch 1 a used sample's group is one of the four luna groups, and the only failure is a name luna.FixName rejects |
| CoverageSum.ClassifyBatch2 | coveragesum/coveragesum.go:53-61 | in batch 2 the filter and the group use the same pattern, so a kept sample always has a group |
| CoverageSum.Batch1UsedGroups | coveragesum/coveragesum.go:40-61 | in batch 1 every group a sample is added to is a seeded luna group |
| CoverageSum.Batch1Groups | coveragesum/coveragesum.go:40-90 | in batch 1 the sums have exactly the four luna groups, so the length assertion never fires |
| CoverageSum.GroupCount | luna/luna.go:34-39 | there are four luna groups |
| CoverageSum.Batch1Fail | coveragesum/coveragesum.go:58-61 | in batch 1 the first error is always a rejected sample name |
| CoverageSum.Batch2NoFail | coveragesum/coveragesum.go:219-229 | batch 2 never panics on a kept sample |
| CoverageSum.NzMapBounds | coveragesum/coveragesum.go:67 | every recorded non-zero share lies between 0 and 1 |
| CoverageSum.MembersOutside | coveragesum/coveragesum.go:61-65 | a group no used sample falls in has no members |
| CoverageSum.FirstFailExtends | coveragesum/coveragesum.go:48-49 | the first error among a prefix is the first error of all samples |
| CoverageSum.AccumulateSkip | coveragesum/coveragesum.go:50-55 | a skipped sample changes neither sums, shares nor count |
| CoverageSum.AccumulateUse | coveragesum/coveragesum.go:56-67 | a used sample's coverage is added into its group's padded total, its share recorded and the count raised |
| CoverageSum.Accumulate | coveragesum/coveragesum.go:39-68 | an error exactly when some sample fails (the first one); otherwise the groups are the seeded ones plus those used, each sum is the padded total of its members, and nz and nSamples match |
| CoverageSum.DivideSlice | coveragesum/coveragesum.go:75-77 | every element is idiv of the old element by the sample count |
| CoverageSum.Divide | coveragesum/coveragesum.go:72-78 | same groups, each divided element by element |
| CoverageSum.Summarize | coveragesum/coveragesum.go:39-91 | errors as Accumulate; the groups are the seeded and used ones; every group's output is idiv of its members' padded total by nSamples, zero-padded to the width, or empty when its members are; the width is the longest member length over all groups |
| CoverageSum.WidthUnique | coveragesum/coveragesum.go:188-202 | the padding width is fixed by the groups' member lengths: any two widths that bound them and are attained agree |
| CoverageSum.Species | coveragesum/coveragesum.go:37-93 | with readable files only a batch-1 name error can stop a species; an error is one a sample file or the first unclassifiable sample raises; a result is WellFormed and is the summary (groups, shares, count, every group's mean padded to the longest group's length) of coverages iterSpecies can yield for the species' files |
| CoverageSum.AddSpecies | coveragesum/coveragesum.go:37-93 | one turn of the species loop: a summarized species joins the written ones, its summary tied to its coverages and to its width, the longest group's length; an error leaves them as they were |
| CoverageSum.AllSpecies | coveragesum/coveragesum.go:37-94 | only sorted species are written, all of them when no error occurs; every written species holds the summary of its own files, padded to its longest group's length; an error comes from a species that was not written |
| CoverageSum.Run | coveragesum/coveragesum.go:28-95 | an error and nothing written when the files do not all match; otherwise only sorted species are written, all of them when no error occurs, each the WellFormed summary of its files with every non-empty group as long as its longest group; an error comes from a species not written |
| CoverageSum.SummariesByAdd | coveragesum/coveragesum.go:91-93 | writing one more summarized species keeps every written species summarized |
| CoverageSum.SummariesByWitness | coveragesum/coveragesum.go:37-93 | every written species is a summary of coverages its own files can yield |
| Czid.ParseParts | czid/czid.go:56-64 | the pieces parse iff every one is an integer for Atoi; the result has one integer per piece, in order; an error names the first piece that failed |
| Czid.ParseTaxIDs | czid/czid.go:51-54 | input that is empty, or does not start with '[' or does not end with ']', is rejected |
| Czid.ParseFormatted | czid/czid.go:55-64 | any non-empty list of 64-bit integers, written in brackets and joined by ", ", parses back to itself |
| Czid.EmptyListRejected | czid/czid.go:55-60 | "[]" is rejected, because its single empty piece is not an integer |
| Czid.ParseTaxIDsRejects | czid/czid_test.go:15-20 | "", "[4" and "6666]" are rejected |
| Czid.ParseTaxIDsOne | czid/czid_test.go:16 | "[111]" parses to [111] |
| Czid.Tally | czid/czid.go:25-40 | the abundance map has a key exactly for each name of a tax-level-2 "viruses" row with non-zero NtRPM, holding the sum of those rows' NtRPM; the bacterial set holds exactly the names of the matching "bacteria" rows |
| Czid.SumsInTotal | czid/czid.go:39-44 | the per-name sums, added up over any listing of the names (each once), give the total NtRPM of the viral rows |
| Czid.DivideAll | czid/czid.go:45-47 | every value of the map is divided by the sum and the keys are unchanged |
| Czid.Normalize | czid/czid.go:44-47 | the values are summed in the map's visiting order and each divided by that sum; a zero sum over a non-empty map is an error |
| Czid.Run | czid/czid.go:23-47 | each viral species gets its summed NtRPM divided by the total NtRPM of all viral rows, the shares sum to 1, and the result fails only for a non-empty map with a zero total |
| Diffs.Diffs | common/diffs.go:5-13 | the encoding keeps the length, and empty or one-element slices encode to themselves |
| Diffs.PrefixSums | common/diffs.go:15-22 | the decoding keeps the length, and empty or one-element slices decode to themselves |
| Diffs.ToDiffs | common/diffs.go:5-13 | the array becomes its delta encoding: a[0] is kept and every later element becomes its old value minus the old value before it |
| Diffs.FromDiffs | common/diffs.go:15-22 | the array becomes its running prefix sums |
| Diffs.SumSnoc | common/diffs.go:19-21 | extending a prefix by one element adds that element to its sum |
| Diffs.SumOfDiffsPrefix | common/diffs.go:5-22 | summing the first k+1 deltas gives back element k |
| Diffs.FromDiffsOfToDiffs | common/diffs_test.go:8-42 | decoding an encoding gives back the original |
| Diffs.ToDiffsOfFromDiffs | common/diffs_test.go:8-42 | encoding a decoding gives back the original |
| Diffs.SquaresExample | common/diffs_test.go:15 | [1,4,9,16,25] encodes to [1,3,5,7,9], and that decodes back |
| Dragen.ToDragenName | dragen.py:32-35 | the renaming succeeds exactly when the short-label lookup does, and otherwise fails with that lookup's error |
| Dragen.ToDragenNameEuro | dragen.py:32-35 | "1.Euro_Tur_040722" becomes "Euro-Tur-1" |
| Dragen.ToDragenNameInh | dragen.py:32-35 | "2.Inh_LB_113022" becomes "Inh-LB-3" |
| Dragen.LabelsAvoidDash | dragen.py:33-35 | neither the group with its batch digit stripped nor any short label contains '-' |
| Dragen.DragenNameParts | dragen.py:35 | splitting a DRAGEN name at '-' gives back the group suffix, the label without its last character, and that character |
| Dragen.DragenNameInjective | dragen.py:35 | two kraken names get the same DRAGEN name only when their group suffixes and their short labels agree |
| Dragen.RenameRows | dragen.py:71-75 | on success every row is renamed by to_dragen_name and the names are, as a set, the DRAGEN sample names; a naming error is that of some row; the set mismatch is reported only when every row was renamed |
| Dragen.DropKeysSpec | dragen.py:40 | an item survives the key filter iff it is in the dictionary and its key is not excluded |
| Dragen.PositiveSubset | dragen.py:79-81 | the positive-count filter keeps only items of its input (and its own contract: exactly all items with a value above 0) |
| Dragen.RemoveSpike | dragen.py:38-43 | on success the keys are those left once the spike-in taxa are dropped, in the same order |
| Dragen.RemoveSpikeSpec | dragen.py:38-43 | remove_spike raises ZeroDivisionError iff something is left and it sums to 0; otherwise each value is divided by that sum and the values sum to 1 |
| Dragen.RemoveSpikeKeys | dragen.py:39-42 | every key remove_spike keeps is a key of its input and not a spike-in |
| Dragen.PositiveRemoveSpikeOk | dragen.py:79-84 | remove_spike on a kraken row with the zero counts dropped never divides by zero |
| Dragen.RemoveSpikePositive | dragen.py:79-84 | rescaling positive counts keeps every value positive |
| Dragen.Prepared | dragen.py:78-88 | a sample fails only when remove_spike fails on the DRAGEN row; every key left is a raw key, not a spike-in and not a phage genus, and the kraken values are positive |
| Dragen.Species | dragen.py:87-91 | the species axis is strictly sorted and holds exactly the keys of either row that are not phage genera |
| Dragen.WalkToGenus | dragen.py:56-62 | the walk from a phage follows parent links through species and genus levels and ends with the genus name, nothing at any other level, or the KeyError or IndexError Python raises |
| Dragen.WalksAgree | dragen.py:57-60 | a walk that stops is unique: two stopping walks from the same start are the same path |
| Dragen.EndsUnique | dragen.py:57-62 | the walk from a start has one outcome |
| Dragen.PhageStarts | dragen.py:48-54 | the first loop raises IndexError iff some entry has an empty level, and otherwise keeps exactly the species or genus entries whose lower-cased name contains "phage" |
| Dragen.GeneraOf | dragen.py:55-63 | on success the genera are exactly the genus outcomes of the phages' walks and no walk raised; an error is the outcome of some phage's walk |
| Dragen.LoadPhageGenera | dragen.py:46-63 | an empty level anywhere gives IndexError; otherwise the result is exactly the set of genus names that walks from phages end at, and any other error is the outcome of some phage's walk |
| Falen.Trimmed | falen/falen.go:32-39 | the trimmed name is a prefix of the name without spaces, cut exactly at the first space when there is one |
| Falen.TrimName | falen/falen.go:33-38 | the byte loop cuts the name at its first space, giving the trimmed name |
| Falen.TrimmedOf | falen/falen.go:32-39 | a name without spaces followed by a space and anything trims back to the name, and trimming it again changes nothing |
| Falen.LensSpec | falen/falen.go:40-43 | the run succeeds exactly when no trimmed name recurs after a record with a non-empty sequence, and then maps each name to the length of its last record |
| Falen.LensOfStep | falen/falen.go:43 | storing a record's length keeps every name mapped to its last record's length |
| Falen.AddRecords | falen/falen.go:30-44 | the records of one file extend the map built so far, stopping at the first name seen again after data |
| Falen.CollectLens | falen/falen.go:26-45 | the loop over all files and records gives the map, or the error, of all records in order |
| Falen.LensStops | falen/falen.go:40-42 | an error on a prefix of the records is the outcome of the whole run |
| Falen.PositionInRange | falen/falen.go:50-53 | each of the 21 positions is a valid index; the first is 0 and the last is the final index |
| Falen.Summary | falen/falen.go:48-55 | 21 values, the i-th at position (len-1)*i/20 of the sorted lengths, the first and last being the smallest and largest; an empty list panics |
| Falen.SortedEnds | falen/falen.go:48 | the sorted values are a permutation whose first and last elements bound every value |
| Falen.ValuesBetween | falen/falen.go:48-55 | every stored length lies between the first and last printed values |
| Falen.NoRecordsNoValues | falen/falen.go:48 | there are as many sorted values as names, and none exactly when there were no records |
| Falen.Run | falen/falen.go:21-56 | the run fails on the first name seen again after data or panics without records; otherwise it reports the map of last lengths and 21 values, value i being the sorted lengths at position idiv((n-1)*i, 20), so the ends bound every length |
| GenBankPlus.AgreeSpec | genbankplus/genbankplus.go:49-64 | the agree-or-clear scan ends with a non-empty value v iff the current value and every non-empty value agree on v and v occurs |
| GenBankPlus.AgreeOverAll | genbankplus/genbankplus.go:49-78 | from an empty start, the result is non-empty iff some non-empty value is shared by all non-empty values, and then it is that value |
| GenBankPlus.ScanTaxID | genbankplus/genbankplus.go:48-64 | the tax ID loop, with its break on a conflict, gives the agree-or-clear result over the "taxon:" db_xref values with the prefix removed |
| GenBankPlus.ScanHost | genbankplus/genbankplus.go:66-78 | the host loop, with its break on a conflict, gives the agree-or-clear result over the host qualifiers |
| GenBankPlus.LocusAt | genbankplus/genbankplus.go:81-102 | a match after a name of length k gives that prefix as the name and a non-empty digit string as the length |
| GenBankPlus.ParseLocus | genbankplus/genbankplus.go:81-102 | a parsed LOCUS line gives a non-empty name that starts the line, and a non-empty digit string |
| GenBankPlus.FindLocusSkipsName | genbankplus/genbankplus.go:102 | the lazy name group cannot end inside a name without whitespace |
| GenBankPlus.ParseLocusOf | genbankplus/genbankplus.go:81-102 | a LOCUS line "name, spaces, digits, ' bp', spaces, molecule, rest" parses to exactly its name, digits and molecule type |
| GenBankPlus.AtoiOfDigits | genbankplus/genbankplus.go:89-92 | a digit string converts to its value, or to a range error past the int64 maximum |
| GenBankPlus.PlusOfSpec | genbankplus/genbankplus.go:45-99 | the record is kept; there is no error iff the LOCUS line parses and its length is between 1 and the int64 maximum, and then the length is that value; otherwise the length stays 0 |
| GenBankPlus.ToPlus | genbankplus/genbankplus.go:45-99 | the method gives exactly the record and error of the specification: tax ID and host by agree-or-clear, LOCUS name and molecule type, length, or the first error with the fields set before it |
| GenBankPlus.Iter | genbankplus/genbankplus.go:24-43 | one item per upstream item: an upstream error passes through with its partial record, unenriched, and the scan goes on; every record is enriched by ToPlus |
| GenBankPlus.ItemErrors | genbankplus/genbankplus.go:27-39 | an upstream error is never lost; an enriched record carries an error iff its LOCUS line or length is bad |
| GoTerms.MatchAt | goterms/goterms.go:69 | a match of UniRef\d+_(\w+) at a position starts with "UniRef", a run of digits and '_', and captures a maximal non-empty run of word characters |
| GoTerms.FindIDs | goterms/goterms.go:77 | every ID the leftmost, non-overlapping matches capture is a non-empty run of word characters |
| GoTerms.FindIDsShift | goterms/goterms.go:77 | the IDs found in a text do not depend on the text before it |
| GoTerms.QueryCons | goterms/goterms.go:69-80 | a query UniRef<digits>_<id> followed by a non-word character yields exactly `id`, followed by the IDs of the rest of the line |
| GoTerms.QueriesLine | goterms/goterms.go:69-80 | a line of queries separated by blanks yields their IDs in order (the inverse of writing them) |
| GoTerms.LoadQueries | goterms/goterms.go:68-83 | each ID maps to the line numbers (from 0) that query it, in order, once per match; an ID is a key exactly when some line queries it |
| GoTerms.OccCount | goterms/goterms.go:71-80 | line k appears in an ID's list exactly as often as the ID matches on line k |
| GoTerms.OccSorted | goterms/goterms.go:71-80 | the list of an ID is non-decreasing and holds only line numbers of the file |
| GoTerms.OccNonEmpty | goterms/goterms.go:78-80 | an ID's list is non-empty exactly when some line queries it |
| GoTerms.IterEntries | goterms/goterms.go:85-119 | succeeds exactly when every record with at least 5 fields has a term starting "GO:", giving those records' entries in order; otherwise fails with the number and term of the first bad record |
| GoTerms.KeptMembers | goterms/goterms.go:99-108 | the entries are exactly the records with at least 5 fields, each mapped field by field to DB, Acc, Gene, Relation and GoTerm |
| GoTerms.Fill | goterms/goterms.go:48-56 | after the entry loop each slot holds, in entry order, the term of every entry once per occurrence of the slot in its accession's list |
| GoTerms.FoundForWanted | goterms/goterms.go:48-56 | with the lists of LoadQueries, slot i holds the term of each entry once per match of its accession on line i |
| GoTerms.WantedMembers | goterms/goterms.go:50-53 | a term is in slot i exactly when an entry with that term has an accession queried on line i |
| GoTerms.WantedAppend | goterms/goterms.go:48-56 | slots fill in file order: the slot for a concatenation of entries is the slot for the first part followed by the slot for the second |
| GoTerms.MaxIndex | goterms/goterms.go:33 | the result is the largest line number in any list, and it occurs in one |
| GoTerms.MaxIsLast | goterms/goterms.go:33-36 | the number of slots is one past the last line with a query |
| GoTerms.NoneLoaded | goterms/goterms.go:31-33 | nothing is loaded exactly when no line has a query |
| GoTerms.Slots | goterms/goterms.go:61-64 | one output line per slot, slot i's terms comma-joined |
| GoTerms.Run | goterms/goterms.go:26-66 | an error without queries or on the first bad GO term; otherwise one output line per line up to the last queried one, line i holding the wanted terms comma-joined |
| Jason.ReplStrings | jason.py:54-57 | the result is the string after each replacement of the dictionary, in order, over the whole string |
| Jason.ReplacedAppend | jason.py:55-56 | replacing with one list of pairs and then another is replacing with their concatenation |
| Jason.ReplaceAbsent | jason.py:56 | str.replace with a non-empty pattern that does not occur changes nothing |
| Jason.ReplacedUntouched | jason.py:54-57 | a string holding none of the non-empty patterns is returned unchanged |
| Jason.FixLocations | jason.py:60-66 | one renamed name per input name |
| Jason.FixLocationsSpec | jason.py:60-66 | each name is renamed on its own with the _LB_, _Tur_ and _Wod_ replacements in turn, and a name without a site marker is unchanged |
| Jason.FixDate | jason.py:70-71 | rewriting the six-digit runs never shortens a name |
| Jason.UndashedAppend | jason.py:71 | removing dashes distributes over concatenation |
| Jason.DatedUndashed | jason.py:70-71 | removing the dashes of dd-dd-dd gives back the six digits |
| Jason.FixDateOnlyDashes | jason.py:69-71 | the rewriting only inserts dashes: without dashes, the result equals the input |
| Jason.FixDateUntouched | jason.py:69-71 | a name without six digits in a row is left unchanged |
| Jason.FixDates | jason.py:69-71 | each name of the list is rewritten on its own |
| Jason.Line | jason.py:50 | (.*) stops before the first newline |
| Jason.TimePart | jason.py:50-51 | the key is the text after the first '_' up to a newline, and there is none exactly when the name has no '_' |
| Jason.FirstWithoutUnderscore | jason.py:51 | the first name whose key lookup raises, if any |
| Jason.SortedByTime | jason.py:49-51 | a name without '_' raises an IndexError; otherwise the names are sorted by their key |
| Jason.ByTimeTotal | jason.py:51 | comparing names by their time key is a total preorder |
| Jason.SortedByTimeSpec | jason.py:49-51 | the result is a permutation of the names, in ascending order of their time keys |
| Jason.DfTop | jason.py:74-79 | the result has at most n names, is the names of the top n columns by decreasing sum less one 'Other', and holds no 'Other' when those names are distinct |
| Jason.Grid | jason.py:134-137 | the grid has min(4, n) columns and the fewest rows of four that hold n panels |
| Jason.NSubplots | jason.py:43-46 | a is the ceiling of sqrt(n) and b the fewest columns with a * b >= n |
| Jason.CeilSqrt | jason.py:44 | the least a >= 1 with a * a >= n |
| Jason2.Positions | jason2.py:161-168 | a group's positions lie within the input |
| Jason2.PositionsSpec | jason2.py:161-168 | a group's list ascends strictly and holds exactly the positions whose key is that group's |
| Jason2.GroupIndices | jason2.py:161-168 | the groups are exactly the keys met, elements whose key is None are skipped, and each group holds the positions with its key in input order |
| Jason2.GroupsPartition | jason2.py:163-167 | a position is in a group exactly when its key is that group's key, so each keyed position is in exactly one group |
| Jason2.SliceTo | jason2.py:46 | l[:n] is a prefix of l of length min(n, len(l)), counting from the end when n is negative |
| Jason2.RemoveFirst | jason2.py:51-52 | list.remove drops exactly one occurrence of a present value and leaves a list without it unchanged |
| Jason2.DfTop | jason2.py:41-53 | the result is the first 10 (or ALT_TOP) names of the columns sorted by decreasing sum, or the ALT_TOP list itself, without 'Other'; a truthy ALT_TOP of another type is a TypeError |
| Jason2.TopsAreLargest | jason2.py:42-43 | the sorted columns are a permutation of the columns, the chosen ones in decreasing sum, and none left out has a larger sum than a chosen one |
| Jason2.NoOther | jason2.py:51-52 | with distinct names, 'Other' is not in the result |
| Jason2.KeptCount | jason2.py:173-175 | filtering keeps each row passing the test as often as it occurs and drops every other |
| Jason2.KeptAppend | jason2.py:175 | filtering keeps the row order |
| Jason2.FirstMissing | jason2.py:173 | the first sample without a read count, if any |
| Jason2.FilterByReadCount | jason2.py:171-175 | a sample without a read count raises a KeyError; otherwise the result is the samples, in order, whose count is at least min_count |
| Jason2.FilterByReadCountSpec | jason2.py:173-175 | on success a sample is kept, as often as it occurs, exactly when its read count is at least min_count, and nothing else is |
| Kmers.Masked | kmers/kmers.go:24-26 | a hash masked with 2^32-1 is a position below 2^32 |
| Kmers.YieldedMembers | kmers/kmers.go:79-89 | a hash is yielded iff some k-mer of the read has it as h2 and, when p > 1, h1 mod p == 0 |
| Kmers.YieldedAll | kmers/kmers.go:82-84 | with p <= 1 every k-mer is kept |
| Kmers.Limit | kmers/kmers.go:51 | at most MaxReads reads per file are used, a prefix of the file's reads |
| Kmers.Mark | kmers/kmers.go:54-58 | the first sighting of a masked position sets it in found, any later one in found2; found2 stays a subset of found |
| Kmers.MarkAll | kmers/kmers.go:53-59 | after a read's hashes, found marks positions seen at least once and found2 those seen at least twice |
| Kmers.MarkFile | kmers/kmers.go:51-61 | the same over the first MaxReads reads of a file |
| Kmers.RepeatedSpec | kmers/kmers.go:70 | the collected positions are strictly increasing and are exactly those seen at least twice |
| Kmers.Ones | kmers/kmers.go:70 | the set positions of found2, ascending |
| Kmers.Run | kmers/kmers.go:44-72 | the output is the delta encoding of the ascending positions seen at least twice over all files |
| Kmers.DecodedOutput | kmers/kmers.go:70-72 | decoding the output gives the strictly increasing list of exactly the positions seen at least twice |
| KmersCmp.ReadFile | kmerscmp/kmerscmp.go:103-116 | a file's positions are the prefix sums of its delta-encoded contents |
| KmersCmp.ReadsBackExtraction | kmerscmp/kmerscmp.go:114 | decoding what the extraction step wrote gives back its ascending positions |
| KmersCmp.OccMember | kmerscmp/kmerscmp.go:48-55 | a position occurs at least once iff it is in the list |
| KmersCmp.FlatMember | kmerscmp/kmerscmp.go:45-57 | a position is among all files' positions iff some file holds it |
| KmersCmp.CountFile | kmerscmp/kmerscmp.go:48-55 | after a file, b1 marks positions seen at least once and cnt holds occurrences minus one for those seen again |
| KmersCmp.CountAll | kmerscmp/kmerscmp.go:35-58 | after all files, cnt has exactly the positions seen twice or more, with occurrences minus one |
| KmersCmp.Whitelist | kmerscmp/kmerscmp.go:62-67 | a row exists iff cnt >= MinCount-1, and it starts as one zero per file |
| KmersCmp.MarkFile | kmerscmp/kmerscmp.go:78-87 | file i's slot becomes 1 in the rows of its positions; other slots and the row keys are unchanged |
| KmersCmp.MapSeqSpec | kmerscmp/kmerscmp.go:76-77 | the collected names are, in order, the names of the files |
| KmersCmp.FillAll | kmerscmp/kmerscmp.go:71-90 | every row slot i is 1 iff file i holds the position and 0 otherwise; the names are the base names without ".kmers" in file order |
| KmersCmp.Run | kmerscmp/kmerscmp.go:26-101 | the table has a row exactly for positions seen at least MinCount times over all files, one slot per file, 1 iff the file holds it |
| KmersCmp.KeptRowMarked | kmerscmp/kmerscmp.go:62-88 | every row of the final table marks at least one file |
| KmersCmp.Decoded | kmerscmp/kmerscmp.go:46 | every file's decoded positions, in file order |
| Kraken.LeadingSpaces | kraken/kraken.go:59-60 | the count covers exactly the spaces before the first non-space |
| Kraken.NameToLevel | kraken/kraken.go:58-68 | an even number of leading spaces before a non-space gives half that number; an odd number is an error carrying the count; an empty or all-space name is an error |
| Kraken.Hierarchy.constructor | kraken/kraken.go:17 | the hierarchy starts empty over a zeroed backing array of capacity 10 |
| Kraken.Hierarchy.Push | kraken/kraken.go:29 | cutting to the level and appending the name: the slice becomes the backing array's first level entries plus the name, which is the old hierarchy cut to level when level is within it; a level past the capacity is refused where Go panics; a full array is replaced by a zeroed one of twice the size holding the same first level entries |
| Kraken.Step | kraken/kraken.go:23-30 | one line yields exactly what StepOf gives for the backing array it finds: the nameToLevel error, a slice-bounds error for a level past the array, or an entry whose hierarchy is the slice after the append; the array afterwards is the appended one |
| Kraken.File | kraken/kraken.go:15-36 | the results are exactly FileFrom from a new hierarchy: one per row up to and including the first read or level error; hence every entry is related to its row and to the entry before it |
| Kraken.StepOfProduced | kraken/kraken.go:23-30 | from a backing array behind the previous hierarchy, a line yields an entry with its level, its trimmed name at that level and the previous names kept below it (zeroed ones before the first line), or a level error; a slice-bounds error only past the initial capacity and past the previous hierarchy |
| Kraken.FileFromProduced | kraken/kraken.go:18-34 | what kraken.File yields stops at the first error, and each result is related to its row and to the hierarchy of the entry before it |
| Kraken.FileReport | kraken/kraken.go:15-36 | a report fails exactly when kraken.File's last result is an error, with that error; otherwise there is one entry per row and they are kraken.File's results |
| KrakenPost.Contribution | krakenpost/krakenpost.go:43-113 | a rank U line with -others adds its direct reads to Unclassified; out-of-domain lines add direct reads to Other in viror mode, or clade reads under their name for level-2 lines with -others, and nothing otherwise; species modes take ranks starting with S with non-zero direct reads; genus modes take rank exactly G with clade reads; virp appends the level-4 name or "unknown"; the name is the tax ID with -tid |
| KrakenPost.Aggregate | krakenpost/krakenpost.go:35-114 | the abundance map is the result of adding each line's contribution, in report order, to an empty map |
| KrakenPost.AggregateMeaning | krakenpost/krakenpost.go:113 | each key holds the sum of what the lines add to it, and the keys are exactly those some line adds to |
| KrakenPost.Run | krakenpost/krakenpost.go:35-114 | the run fails exactly when kraken.File stops at an error (a read error, bad indentation, or a level past the capacity the hierarchy has reached), with that error; otherwise the map is the aggregation of the report's entries, one per row and each continuing the hierarchy before it; a report whose levels all fit the initial capacity never overflows |
| KrakenPost.ChainedEntries | krakenpost/krakenpost.go:35-41 | the entries of a report read without error are the rows' entries, the first from a new hierarchy and each later one continuing the previous |
| Tally.Add | krakenpost/krakenpost.go:113 | m[k] += v creates k when missing and keeps all other keys |
| Tally.AddAllValue | krakenpost/krakenpost.go:50-113 | after a sequence of additions a key holds its old value plus everything added to it |
| Tally.AddAllKeys | krakenpost/krakenpost.go:50-113 | the additions create exactly the keys they name and remove none |
| Tally.AddAllSnoc | krakenpost/krakenpost.go:113 | one more addition is applied after all the earlier ones |
| KrkCov.ClosedHoldsReachable | krkcov/krkcov.go:53-62 | a set holding the start tax ID and the children of each member holds every tax ID reachable down the child links |
| KrkCov.CycleHasNoRanking | krkcov/krkcov.go:53-63 | a cycle of child links admits no ranking, so the walk's termination argument needs an acyclic graph |
| KrkCov.DequeueStep | krkcov/krkcov.go:53-62 | dequeuing an entry and enqueuing its children lowers the queue's total visit count by exactly one |
| KrkCov.ChildrenOf | krkcov/krkcov.go:45-65 | on an acyclic taxonomy the walk ends; a result holds the start tax ID, is closed under child links and holds only reachable tax IDs; an error names a reachable tax ID missing from the taxonomy |
| KrkCov.ChildrenOfSpec | krkcov/krkcov.go:50-64 | such a result is exactly the set of reachable tax IDs, all of which are in the taxonomy |
| KrkCov.FindTaxIDFromNone | krkcov/krkcov.go:30-33 | the search finds nothing iff no "kraken:taxid" tag followed by a digit starts at or after the start position |
| KrkCov.FindTaxIDFromSome | krkcov/krkcov.go:30-33 | a found tax ID is the digit run after the leftmost such tag |
| KrkCov.FindTaxIDSpec | krkcov/krkcov.go:30-33 | a read name gives no tax ID iff it has no tag followed by a digit; otherwise the digits after the leftmost tag |
| KrkCov.FindTaxIDOf | krkcov/krkcov.go:30-33 | a name with the tag once, followed by a digit run, gives exactly that run |
| KrkCov.FilterReads | krkcov/krkcov.go:31-40 | fails iff some read has no tax ID, naming the first; otherwise gives the reads whose tax ID is in the set, in order |
| KrkCov.KeptReadsSpec | krkcov/krkcov.go:37-39 | a read is written iff its tax ID is found and is in the set |
| KrkCov.Run | krkcov/krkcov.go:23-41 | fails iff a descendant of Jouyvirus is missing from the taxonomy (the walk's error) or some read has no tax ID (the filter's error); otherwise the written reads are the input reads whose tax ID descends from Jouyvirus, in input order with their repeats |
| KrkTax.SplitBarJoin | krktax/krktax.go:111-116 | a line whose clean fields are joined by Kraken's tab-bar-tab separator splits on the whitespace-padded bar back into exactly those fields |
| KrkTax.ParseTaxLine | krktax/krktax.go:116-128 | a taxonomy line fails exactly when it does not have five bar-separated parts; a parsed entry starts with no children and no accessions |
| KrkTax.ParseTaxLineRoundTrip | krktax/krktax.go:116-128 | a five-field line as Kraken writes it parses to its tax ID and an entry with its name, level and parent |
| KrkTax.CollectOk | krktax/krktax.go:112-129 | collecting the parsed lines succeeds exactly when every line has five parts and no tax ID repeats |
| KrkTax.CollectEntries | krktax/krktax.go:112-129 | on success the map's keys are exactly the lines' tax IDs and each maps to its own line's entry |
| KrkTax.ParseTaxSpec | krktax/krktax.go:112-129 | the taxonomy map is read iff all lines parse with distinct tax IDs; then it holds exactly those lines' entries, none with children or accessions |
| KrkTax.ParseTaxFile | krktax/krktax.go:109-130 | the reading loop with its early returns gives the same result as the fold over the parsed lines |
| KrkTax.Link | krktax/krktax.go:131-137 | linking succeeds iff every non-root entry's parent exists; then each entry keeps its fields and lists each of its children once; otherwise the error names a non-root entry whose parent is missing |
| KrkTax.ReadTaxFile | krktax/krktax.go:109-140 | a parse error is returned unchanged; after parsing, the result is the linked taxonomy iff every parent exists |
| KrkTax.LinkedBothWays | krktax/krktax.go:131-137 | after linking, a non-root entry is among its parent's children, and each listed child names that entry as its parent |
| KrkTax.TrailingDigits | krktax/krktax.go:62 | the count is the longest run of digits that ends the string |
| KrkTax.ReadSeqIDs | krktax/krktax.go:60-99 | the line loop with its early error returns gives exactly the fold over the classified lines |
| KrkTax.GatherFirstError | krktax/krktax.go:64-96 | gathering fails iff some line is bad, and the error carries the first bad line and its 1-based number |
| KrkTax.GatherEntries | krktax/krktax.go:71-92 | on success, the entries are exactly the pairs of the kraken:taxid lines; two-token lines add nothing |
| KrkTax.SeqIDsSpec | krktax/krktax.go:60-99 | reading fails iff some line mismatches or matches neither pattern, naming the first such line; otherwise it yields exactly the kraken:taxid lines' pairs |
| KrkTax.SeqIDLineRoundTrip | krktax/krktax.go:62-81 | a line of the tag, T, A.V, a tab and T, separated by bars, gives tax ID T and accession A without its version |
| KrkTax.AccsForSpec | krktax/krktax.go:29-37 | an accession is listed for a tax ID iff some sequence-ID entry pairs the two |
| KrkTax.MissingBound | krktax/krktax.go:28-38 | the missing count is at most the number of entries, and zero iff every entry's tax ID is in the taxonomy |
| KrkTax.AttachAccs | krktax/krktax.go:28-38 | the keys stay; each entry gains exactly its own accessions in file order; the bad count is the number of entries whose tax ID is not in the taxonomy |
| KrkTax.SortedDistinct | krktax/krktax.go:44 | the result is strictly ascending and has the same elements as the input |
| KrkTax.StrictlySortedUnique | krktax/krktax.go:40-45 | two strictly ascending lists with the same elements are equal, so the deduplicated lists do not depend on map order |
| KrkTax.DedupAccs | krktax/krktax.go:40-45 | the keys and all other fields stay; lists of one or no accession are kept; longer ones become their distinct elements in ascending order |
| KrkTax.Run | krktax/krktax.go:19-52 | main fails on a taxonomy error, a missing parent or a bad sequence-ID line; otherwise each entry keeps its fields, lists exactly its children and the sorted distinct accessions of its sequence IDs, and the bad count is the number of unknown tax IDs |
| Lazy.Stored | lazy/lazy.go:41-45 | the bytes an append stores are a prefix of buffer+data, and all of it exactly when the open succeeds and the write is not cut short |
| Lazy.ErrorOf | lazy/lazy.go:37-45 | the append reports no error exactly when open, write and close all succeed |
| Lazy.Writer.Create | lazy/lazy.go:18-21 | Create empties the file and starts an empty buffer with limit n; the buffer/file invariant holds |
| Lazy.Writer.Append | lazy/lazy.go:24-26 | Append keeps the file's contents, starts an empty buffer with limit n, and counts the existing contents as accepted |
| Lazy.Writer.Write | lazy/lazy.go:29-46 | buffer+data within n only grows the buffer; otherwise the buffer is emptied and buffer+data (or the part a failed write stored) is appended to the file; a successful Write reports len(data); the buffer stays within n and file ++ buffer equals all accepted bytes until a call fails; a failed open or cut-short write loses bytes |
| Lazy.Writer.Flush | lazy/lazy.go:49-64 | no-op on an empty buffer; otherwise empties the buffer and appends it (or the stored part) to the file, keeping the invariant |
| Lazy.Writer.Close | lazy/lazy.go:67-69 | has exactly Flush's contract |
| Luna.MappingValuesArePrefixed | luna/luna.go:12-31 | every standard sample name in the batch-2 table starts with "Euro_" or "Inh_" |
| Luna.FixName | luna/luna.go:83-96 | after the base name and the six suffixes are stripped, a batch-1 name gets "1." in front; any other name succeeds exactly when its first two characters are a key of the table, and then becomes "2." plus the mapped name; a short or unmapped name is an error where Go panics |
| Luna.QuoteMeta | luna/luna.go:109 | quoting never shortens a key |
| Luna.QuoteAll | luna/luna.go:105-110 | each key is quoted in turn |
| Luna.JoinSnoc | luna/luna.go:106-109 | joining one more part appends the separator and the part |
| Luna.KeyOrderNonEmpty | luna/luna.go:34-39 | every group key is non-empty |
| Luna.BuildGroupRE | luna/luna.go:102-112 | the pattern is "^" followed by the quoted keys, in map order, joined by vertical bars |
| Luna.FirstPrefix | luna/luna.go:116 | the first alternative that starts the name is found, or none starts it |
| Luna.SampleGroup | luna/luna.go:115-121 | the group is a key of the group table that starts the name, and there is none (a panic in Go) only when no key starts it |
| Luna.KeysPrefixFree | luna/luna.go:34-39 | no group key is a prefix of a name another key also starts |
| Luna.GroupOrderIrrelevant | luna/luna.go:105 | trying the anchored keys in any map order finds the same group |
| Luna.AsWrittenOnGroupedNames | luna/luna.go:102-121 | on a name that starts with a group, the pattern as built finds that group whatever the map order |
| Luna.AsWrittenAcceptsUngroupedName | luna/luna.go:102-121 | with "1.Inh" not first in map order, the pattern as built finds "1.Inh" inside "x1.Inh", a name with no group |
| Luna.GroupOfMarkedName | luna/luna.go:88-95 | "1." or "2." followed by a standard sample name starts with a group |
| Luna.FixNameHasGroup | luna/luna.go:83-121 | every name FixName accepts has a group |
| NcbiXml.MakeNucTable | ncbixml/ncbixml.go:129-142 | the table has 256 entries, true exactly at a, c, g, t, n in either case |
| NcbiXml.IsNuc | ncbixml/ncbixml.go:120-127 | the scan's result is the outcome decided by the first rune that is not a nucleotide letter, a rune past the table panicking |
| NcbiXml.NucOutcomeSpec | ncbixml/ncbixml.go:120-127 | isNuc is true exactly when every rune is a nucleotide letter (so "" is); false when the first other rune is below 256; a panic when it is 256 or more |
| NcbiXml.HostAfterNone | ncbixml/ncbixml.go:65-72 | without a qualifier named "host" in any case, the host stays as it was |
| NcbiXml.HostAfterLast | ncbixml/ncbixml.go:65-72 | otherwise the host is the value of the last such qualifier over all features |
| NcbiXml.HostAfterAppend | ncbixml/ncbixml.go:66-71 | scanning the features one after another is scanning all their qualifiers in order |
| NcbiXml.ScanHost | ncbixml/ncbixml.go:66-72 | the qualifier loop writes only record i, setting its host to the scan of its qualifiers |
| NcbiXml.ExtractHosts | ncbixml/ncbixml.go:65-77 | every record gets its extracted host and loses its features in place; the count is the number of records with a non-empty host |
| NcbiXml.CountBad | ncbixml/ncbixml.go:58-64 | the bad-sequence count is the number of sequences isNuc rejects, or the first panic |
| NcbiXml.BadSeqsStops | ncbixml/ncbixml.go:60-64 | a panic in an earlier sequence is the outcome of the whole loop |
| NcbiXml.Metadata | ncbixml/ncbixml.go:102-107 | the metadata always holds name, tax and molType, and holds host exactly when it is non-empty |
| NcbiXml.MetaStep | ncbixml/ncbixml.go:101-109 | one loop step keeps the map keyed by the accessions seen, each holding its record's metadata while they are distinct |
| NcbiXml.BuildMetadata | ncbixml/ncbixml.go:100-113 | succeeds exactly when the accessions are distinct, mapping each to its record's metadata; otherwise fails with the record count and the smaller map size |
| NcbiXml.Run | ncbixml/ncbixml.go:56-113 | a panic on the first bad rune; otherwise records are extracted in place and the counts and the metadata map are reported, failing exactly on a duplicate accession |
| Padded.AtPastEnd | coveragesum/coveragesum.go:160-166 | past the end of a padded total every vector contributes zero |
| Padded.MaxLenBound | coveragesum/coveragesum.go:188-202 | no vector is longer than the longest |
| Padded.TotalPastEnd | coveragesum/coveragesum.go:160-166 | past the longest length the padded sum is zero |
| Padded.TotalSingle | coverage_plot2.py:20-23 | a single vector is its own padded total |
| Padded.TotalSnoc | coverage_plot2.py:24-29 | adding one more vector element-wise, zero-padded, to a padded total gives the padded total of all of them |
| Rarefy.Step | rarefy/rarefy.go:84-102 | rank U lines add direct reads to Other and keep the state; a name indented by at most two spaces sets the in-Viruses state to whether it is "  Viruses"; outside Viruses only four-space names with positive clade reads add to Other; inside Viruses only rank S adds clade reads under the trimmed name |
| Rarefy.ScanSnoc | rarefy/rarefy.go:80-103 | one more line advances the state and appends its addition, if any |
| Rarefy.ReadFile | rarefy/rarefy.go:74-105 | the first read error is returned, and it is returned only if some row failed; otherwise the map is the sum of all lines' additions in order |
| Rarefy.ContributionKeys | rarefy/rarefy.go:85-102 | every key of a sample's map is "Other" or the trimmed name of a rank S line |
| Rarefy.SampleName | rarefy/rarefy.go:53 | the sample name is the file's base name with a ".krk.txt" suffix removed when present, and the base name otherwise |
| Rarefy.DataRow | rarefy/rarefy.go:139-147 | a data row is the sample name followed by the value of each column, "0" when the key is missing |
| Rarefy.ToTable | rarefy/rarefy.go:125-153 | the table has 1 + number of samples rows; the header is "name" followed by each key of the union of all samples' keys exactly once; each data row holds the sample's value for each header column |
| ReadCounts.StripLeft | readcounts.py:14 | int() skips leading whitespace: the result is a suffix of the input starting with a non-space |
| ReadCounts.StripRight | readcounts.py:14 | int() skips trailing whitespace, such as the line's newline: the result is a prefix ending with a non-space |
| ReadCounts.PyIntOfIntToString | readcounts.py:14 | a count written in decimal and followed by the line's newline parses back to itself |
| ReadCounts.Quarter | readcounts.py:14 | int(v / 4) truncates toward zero: 4r is the multiple of 4 nearest v on the side of zero |
| ReadCounts.ParseLine | readcounts.py:13-14 | a line parses only when it splits on single spaces into exactly two fields, and the name is the first field |
| ReadCounts.ParseLineRoundTrip | readcounts.py:11-17 | a line holding a space-free name, a space, a count and a newline reads back as the name and a quarter of the count |
| ReadCounts.ReadLines | readcounts.py:11-17 | on success there is one item per line, each the parse of its line; otherwise the error is that of the first line that does not parse |
| ReadCounts.ToMapSpec | readcounts.py:25 | the dictionary written out has the names as keys, each with the count of the last line with that name |
| ReadCounts.Class | readcounts.py:27-29 | a class never has more items than the list |
| ReadCounts.ClassLengths | readcounts.py:27-29 | the class lengths add up to the number of items plus those whose name has both markers, which are none exactly when no name has both |
| ReadCounts.ClassMembers | readcounts.py:27-29 | inf holds the items with _INF_, sol those with _SOL_, oth those with neither |
| ReadCounts.ClassesCover | readcounts.py:27-29 | the three classes together hold exactly the items |
| ReadCounts.RepeatShrinks | readcounts.py:33 | a list with a repeated item has fewer distinct items than items |
| ReadCounts.DistinctUnion | readcounts.py:33 | the set check holds exactly when no item is repeated |
| ReadCounts.Millions | readcounts.py:36-38 | each class's counts divided by one million, in order |
| ReadCounts.CheckOk | readcounts.py:27-34 | the assertions pass exactly when each class is non-empty, no item is repeated and no name has both markers, so that the classes partition the items |
| ReadCounts.SortedCounts | readcounts.py:36-38 | each class's values come out in ascending order and as a permutation of the class's values |
| ReadCounts.SortedMillions | readcounts.py:36-38 | a class's output has one value per item, is a permutation of the items' counts divided by one million, and is in ascending order |
| ReadCounts.Check | readcounts.py:27-38 | when the assertions pass, the three classes share out the items (their lengths add up to the number of items) and each class's output is a permutation of its counts in millions, in ascending order |
| ReadCounts.Run | readcounts.py:24-38 | the script succeeds exactly when every line parses and every check passes, and then gives the checked summary; otherwise it fails with the first bad line's error, or else with the failed check |
| RefSeq.WithSequence | refseq/refseq.go:46-52 | the kept records are a subsequence of the input, every one of them with a non-empty sequence |
| RefSeq.ReadRecords | refseq/refseq.go:40-70 | succeeds iff every record with a sequence has an accession and their first accessions are distinct; then writes one uppercased FASTA record per kept record under its first accession, keeps each record without sequence, references, features and DB links, and counts the skipped ones; a duplicate error names an accession shared by two kept records |
| RefSeq.StopsAt | refseq/refseq.go:53-55 | a missing accession or a repeated first accession among the records read so far makes the whole input fail the distinctness condition |
| RefSeq.WithSequencePrefix | refseq/refseq.go:43-52 | the records kept from a prefix of the input are a prefix of those kept from all of it |
| RefSeq.TidMapSpec | refseq/refseq.go:86-89 | tid2nc has exactly the tax IDs of the records, each with the accessions of its records concatenated in record order |
| RefSeq.AccsOfTidMembers | refseq/refseq.go:89 | an accession is listed under a tax ID iff some record with that tax ID has it |
| RefSeq.PairFrom | refseq/refseq.go:86-97 | every (accession, tax ID) assignment comes from a record holding that accession and tax ID |
| RefSeq.PairOf | refseq/refseq.go:90-97 | every accession of every record is assigned that record's tax ID at some point |
| RefSeq.AssignedSpec | refseq/refseq.go:96 | an accession is in the assignment map iff it is assigned somewhere, and it maps to the tax ID of its last assignment |
| RefSeq.FlaggedSpec | refseq/refseq.go:91-95 | an accession is flagged iff it is assigned twice with a non-empty tax ID at the earlier assignment |
| RefSeq.SingleAssignment | refseq/refseq.go:90-102 | an accession assigned only once is not flagged and keeps its record's tax ID |
| RefSeq.AssignAccs | refseq/refseq.go:90-97 | the inner loop extends the assignment map and the flagged set by the record's (accession, tax ID) pairs |
| RefSeq.DeleteKeys | refseq/refseq.go:100-102 | deleting the flagged accessions one by one leaves the map minus exactly those keys |
| RefSeq.AddExtra | refseq/refseq.go:103-105 | each extra accession is appended to its tax ID's list, creating it when absent; other lists are unchanged |
| RefSeq.BuildMaps | refseq/refseq.go:83-118 | tid2nc is the per-tax-ID accession map plus the two manual accessions; nc2tid is the last-assignment map minus the flagged accessions |
| RefSeq.Run | refseq/refseq.go:40-105 | the whole program without I/O: fails iff two sequence records share a first accession, naming one; otherwise it writes the FASTA of the records with a sequence, counts those without one, and relates both maps to the kept, stripped records |
| SampleNaming.MatchAt | samplenaming.py:53 | a match of the sample-name pattern at a position spans "Euro_" or "Inh_", letters, '_' and digits, and takes every digit that follows (the greedy `[0-9]+`) |
| SampleNaming.MatchAtSpec | samplenaming.py:53 | the pattern matches at a position exactly when some sample name starts there |
| SampleNaming.FindFrom | samplenaming.py:53 | a match found from a position is a sample name contained in the string |
| SampleNaming.FindFromNone | samplenaming.py:53-63 | the search finds nothing exactly when the pattern matches at no position from the start on (the IndexError case of `findall(s)[0]`) |
| SampleNaming.FindFromFirst | samplenaming.py:53-63 | what the search finds is the match at the least position from the start on where the pattern matches, as `findall(s)[0]` takes the first match |
| SampleNaming.FindFromLeftmost | samplenaming.py:53-63 | the search succeeds exactly when a sample name starts at some position, and then finds the leftmost one with all of its digits |
| SampleNaming.FixName | samplenaming.py:60-64 | a batch-1 base name succeeds exactly when the search finds a match, and becomes "1." plus that match, a sample name contained in it; any other name succeeds exactly when its first two characters are a key of the table (a KeyError otherwise), and becomes "2." plus the mapped name |
| SampleNaming.FixNameLeftmost | samplenaming.py:60-63 | a batch-1 name succeeds exactly when its base name contains a sample name, and becomes "1." plus the leftmost one, with all of its digits |
| SampleNaming.FixName2 | samplenaming.py:67-68 | the label is looked up by the name without its first two characters, a KeyError when absent |
| SampleNaming.Mapping2PairsSites | samplenaming.py:26-45 | the Euro and Inh samples of each site and date share one label |
| SampleNaming.SampleGroup | samplenaming.py:55-57 | the group is a group key that starts the name, or "" exactly when none does |
| SampleNaming.SampleGroupAgreesWithLuna | samplenaming.py:71-72 | the Python group lookup agrees with the Go one wherever the Go one finds a group, and is "" exactly where Go panics |
| SampleNaming.FixNameHasGroup | samplenaming.py:60-72 | every name fix_name produces has a non-empty group |
| SplitFa.ChooseMode | splitfa/splitfa.go:31-36 | setting both -n and -g is an error, setting neither is an error, and otherwise the mode is the one set |
| SplitFa.OutPathInjective | splitfa/splitfa.go:49 | with a "%" in the output pattern, replacing its first "%" gives different paths for different keys |
| SplitFa.ChunkSize | splitfa/splitfa.go:48 | a chunk is closed once it holds n records, that is after every record when n < 1 |
| SplitFa.SplitByCount | splitfa/splitfa.go:40-67 | chunks of exactly n records, a non-empty trailing chunk of at most n written only when records remain, chunk k written to the pattern with k (from 1), and their concatenation is the input in order |
| SplitFa.AddChunk | splitfa/splitfa.go:48-57 | writing the next chunk appends its records and numbers it one past the last |
| SplitFa.FlattenLength | splitfa/splitfa.go:40-67 | full chunks followed by a last one hold (chunks-1)*n + last records |
| SplitFa.ChunkCount | splitfa/splitfa.go:40-67 | no input gives no chunk; otherwise the number of chunks is ceil(count/n) |
| SplitFa.ChunkPathsDistinct | splitfa/splitfa.go:49 | with a "%" in the pattern, different chunks go to different files |
| SplitFa.Key | splitfa/splitfa.go:90-93 | the key is the first capture group when the expression has one, else the whole match |
| SplitFa.PathOf | splitfa/splitfa.go:83-94 | a record has an output file exactly when its name matches |
| SplitFa.RoutedMembers | splitfa/splitfa.go:94-95 | a record is written to a file iff it matched and its key names that file |
| SplitFa.RoutedSnoc | splitfa/splitfa.go:95 | one more record extends only the file its key names |
| SplitFa.RoutedEmpty | splitfa/splitfa.go:94-95 | a file no record's key names receives nothing |
| SplitFa.RoutedNone | splitfa/splitfa.go:70-76 | a file without a writer yet has received nothing |
| SplitFa.GroupSkip | splitfa/splitfa.go:84-87 | with -ignore, a non-matching record changes no file |
| SplitFa.GroupAdd | splitfa/splitfa.go:90-95 | a matching record is appended to its file's records |
| SplitFa.AllMatchSnoc | splitfa/splitfa.go:84-88 | the first non-matching name is the one the loop stops at |
| SplitFa.SplitByGroup | splitfa/splitfa.go:68-96 | an error naming the first non-matching record iff one exists and -ignore is off; otherwise each file holds, in input order, exactly the records whose key names it |
| TaxRef.EnrichedAccs | taxref/taxref.go:18-25 | the enriched set is exactly the union of all accession lists of the VSP2 species file |
| TaxRef.SelAccsSpec | taxref/taxref.go:42-45 | an accession of a list is selected iff the list's tax ID is a top species or the accession is enriched |
| TaxRef.SelectedSpec | taxref/taxref.go:38-45 | a pair (acc, tid) is selected iff tid2nc lists acc under tid and tid is a top species, or a VSP2 species with acc enriched; tids in neither set contribute nothing |
| TaxRef.TidsOfSpec | taxref/taxref.go:51 | a tax ID is marked found iff some selected accession was assigned it |
| TaxRef.InnerPrefix | taxref/taxref.go:38-53 | the assignments made before any point of the nested loop start the full assignment sequence |
| TaxRef.Assign | taxref/taxref.go:36-53 | succeeds iff no selected accession is reached again after holding a non-empty tax ID; then the mapping is the last-assignment map and the found set is the assigned tax IDs; an error names such an accession and its earlier non-empty tax ID |
| TaxRef.AssignList | taxref/taxref.go:42-52 | the inner loop extends the mapping and found set by one list's selected pairs, or stops at the first accession already holding a non-empty tax ID |
| TaxRef.MappedSpec | taxref/taxref.go:46-50 | without an error, every selected accession maps to the non-empty tax ID it was selected under |
| TaxRef.Run | taxref/taxref.go:12-66 | the program without I/O: fails iff the selected assignments repeat an accession after a non-empty tax ID; otherwise gives the mapping and the top and VSP2 species that were never found |
| Vsp2.ReSplit | vsp2/vsp2.go:42-48 | splitting at [;,]\s* gives at least one piece, and no piece contains ';' or ',' |
| Vsp2.ReSplitCount | vsp2/vsp2.go:42-48 | the split gives one piece per ';' or ',' in the input, plus one |
| Vsp2.ReSplitCons | vsp2/vsp2.go:42-48 | a separator-free head, then ';' or ',' and blanks, then a rest not starting with a blank, splits into the head followed by the rest's pieces |
| Vsp2.ReSplitJoin | vsp2/vsp2.go:42-48 | pieces free of ';' and ',', none after the first starting with a blank, joined by any separator the pattern matches, split back into the same pieces |
| Vsp2.ParseIDs | vsp2/vsp2.go:44-49 | "" and "-" give no IDs; any other input gives one ID per separator plus one, none containing a separator; there is no error result |
| Vsp2.ParseIDsJoin | vsp2/vsp2.go:44-49 | a list of accessions written with any separator parses back to the same list, unless it is written as "" or "-" |
| Vsp2.ParseIDsEdges | vsp2/vsp2.go:48 | a lone "," gives two empty IDs and "a;" gives "a" and an empty ID: the text after the last separator is always kept |
| Vsp2.NoIDsSpec | vsp2/vsp2.go:25-27 | no row is counted as having no IDs iff no row's reference column is "" or "-" |
| Vsp2.Collect | vsp2/vsp2.go:21-30 | the map has a key exactly for each reporting name, holding the IDs of the last row with that name (rows with no IDs included), and the counter equals the number of rows with no IDs |
| Vsp2Str.LowerAll | vsp2str/vsp2str.go:58-73 | every loaded panel or query name is replaced by its lower-case form |
| Vsp2Str.Gram | vsp2str/vsp2str.go:80 | the substring at i has length n and starts at position i of s |
| Vsp2Str.Substrs | vsp2str/vsp2str.go:77-83 | the result is exactly the set of length-n substrings of s, empty when s is shorter than n |
| Vsp2Str.PostingSpec | vsp2str/vsp2str.go:24-29 | each index list is strictly increasing and holds exactly the indices of the names containing the 4-gram |
| Vsp2Str.AddName | vsp2str/vsp2str.go:26-28 | adding name i appends i to the list of each of its 4-grams, keeping the index equal to the posting lists of the names so far |
| Vsp2Str.BuildIndex | vsp2str/vsp2str.go:24-29 | the index maps exactly the 4-grams held by some name to their posting lists |
| Vsp2Str.RoundSqrt | vsp2str/vsp2str.go:85-87 | the result is the integer nearest to sqrt(n): r - 1/2 <= sqrt(n) < r + 1/2 |
| Vsp2Str.FilterIndex | vsp2str/vsp2str.go:89-99 | an entry is kept, unchanged, exactly when its list has at most mx indices |
| Vsp2Str.SearchIndex | vsp2str/vsp2str.go:101-109 | an index is found exactly when it is on the list of one of the query's 4-grams |
| Vsp2Str.HitSpec | vsp2str/vsp2str.go:32-39 | over the filtered index, a name is found exactly when it shares with the query a 4-gram held by at most mx names |
| Vsp2Str.CloseNames | vsp2str/vsp2str.go:40-45 | the names kept are exactly the found names whose alignment score exceeds minus a fifth of the longer length |
| Vsp2Str.Run | vsp2str/vsp2str.go:24-50 | each report is a query with a non-empty list holding exactly its close names that share a rare 4-gram with it; every query with such a name is reported |

## Left out

General:
- File, glob, JSON, CSV, TSV, FASTA, FASTQ, SAM, GenBank and XML reading and writing are left out; their results are parameters, and a read error is an error value where the tool dies.
- Progress timers, prints, logging and plots (matplotlib, seaborn, violin plots) are left out: they do not change any result.
- Go's fixed-width integers are unbounded integers, so a wrap-around on overflow is not modelled; the counts involved are read counts and positions.
- Floating-point values are reals, so rounding and overflow are not modelled; a division by a zero total is NaN or an infinity, or an error where noted.
- Strings are sequences of characters. Go ranges over runes and Python over code points; where the source works on bytes the model does the same on characters.
- Unicode case mapping and Unicode whitespace are ASCII only (ToLower, ToUpper, `\s`, `\d`, `\w`).
- Regular expressions are replaced by hand-written leftmost-first scanners, one per pattern used; no regular-expression engine is modelled.
- An iterator that a consumer stops early is not modelled: every tool consumes its iterators whole or dies on the first error.

Per module:
- Diffs: the generic integer type and its wrap-around are left out; the round trip is proved over unbounded integers.
- Common.DedupValues: returns the updated map instead of updating the caller's map in place, so aliasing of the map is not modelled.
- Kraken: the percentage column and its float parsing are left out. Go's growth rule for a full slice of strings is modelled as doubling. Go's runtime also rounds the new capacity up to an allocation size class; this agrees with doubling up to a capacity of 80 and first differs when a slice of capacity 80 grows (Go gives 168, the model 160), so a level between 161 and 168 reached right after that growth is a slicing error in the model and not in Go.
- KrakenPost: the final normalisation by the total (float division) and the -readcount flag are left out; Run stops before them. The `nameToLevel` in krakenpost/krakenpost.go:144-154 is the same code as the kraken package's and is modelled by Kraken.NameToLevel.
- Rarefy: the rarefaction itself (rarefy.Rarefy with random permutations) and the order of `maps.Values` are left out; useAllSpecies is the constant false of the source.
- Abundance: the print of removed taxa and of the file count are left out. In phylum mode the species parts of the labels can repeat. A repeated spike label is a DuplicateLabels error, and so is a repeated residual label when a spike column is present, because `get_loc` and the `+=` then act on several columns. A missing residual column is reported before either, as the first spike's `+=` raises it.
- Abundance: the stability of pandas' sorts is not claimed, because quicksort is not stable.
- CoverageSum: gnum.Idiv is a parameter, and the geometric mean is left out, since the constant meanType selects the linear mean. The batch is a parameter (1 or 2); the source fixes it to 1.
- CoverageSum: the glob error, jio.Write and prints are left out.
- Coverage: an unmapped record at position 0 would index a[-1] and panic; this is an error value. The output order of `bads` prints is left out.
- CoveragePlot2: the unsigned 64-bit array('Q') overflow is left out.
- CoveragePy: JSON hooks for empty lists, the int64 wrap of NumPy, main's findall of group names, the kendalltau statistic and load_data_nz are left out.
- KrkTax: the NTiles print, the JSON write and file errors are left out. A missing parent is a nil-pointer panic in Go and an error here. Children order follows map order, so it is stated as a set without repeats.
- KrkCov: childrenOf has no visited set and loops forever on a cyclic taxonomy, so the model requires an acyclic one (a ranking); the JSON read is left out.
- Dragen: load_dragen's glob and JSON, the krk[:18] slicing, log10, corrcoef and the plots, and the print of removed counts are left out. The genus walk requires a parent ranking, since the source loops forever on a cycle.
- RefSeq: the mustHaveSequence=false branch is dead and foundTIDs is only printed, so both are left out, as are the file writes.
- TaxRef: the map iteration order is a parameter, and no claim is made that the result is independent of it; the print of taxa not found is left out.
- Czid: csvdec decoding and allowempty are left out. The table-test rows "[22, 333]" and "[4, 55, 6666]" are covered by the general Czid.ParseFormatted rather than by literal lemmas.
- Vsp2: regexp.Split is modelled for the one pattern `[;,]\s*` only.
- GenBankPlus: an upstream iterator that yields a nil record with a nil error is not modelled.
- GoTerms: gnum.Max is not part of this model; an empty query list is an error value. CSV parse errors are left out.
- NcbiXml: the `if false` FASTA writing and the jio.Write are left out. Invalid UTF-8 becomes U+FFFD, which panics like any other rune of 256 or more.
- Falen: gnum.Idiv is a parameter (its rounding is stated, not defined); the map value order is a parameter; jio.Write's ignored error is left out.
- Lazy: the file system is ghost state with outcome parameters. os.Remove's error is ignored in the source and left out here. A negative buffer limit panics in Go and is excluded by requires.
- CheckInterleaved: FASTQ parsing and the progress prints are left out.
- SplitFa: the choice between Create and Append writers by -append, the GC setting and FASTA parse errors are left out. The key regular expression is a `find` function parameter. Without "%" in the output pattern all chunks go to one path, as in the source. In group mode a Die leaves lazy buffers unflushed.
- Kmers: FASTQ reading, canonical k-mers and hashing are inputs; the bit-set packing is an array<bool>; the bnry encoding and the prints are left out.
- KmersCmp: glob, bnry and JSON are left out. A position out of range panics in Go and is excluded by requires (InRange).
- Vsp2Str: JSON reading is left out. Go's Unicode ToLower is ASCII, and byte strings are characters. The float square root is modelled as exact rounding. align.Global is a parameter. Map key order and print order are left out, and duplicate names are possible, as in the source.
- CompareAbnd: Bray-Curtis distances, PCA, MDS, PERMANOVA and r² are left out: they are numerical library calls. The plots and the LUNA_GROUPS startswith selection used only for plotting are left out. The regular expressions are modelled one pattern at a time.
- Jason2: the plots and jason_plot's regex grouping are left out, as is the dict insertion order of group_indices keys. Pandas sort ties are not ordered, since its sort is not stable.
- Jason2: ListTop aliasing is left out: `remove` mutates the global ALT_TOP in the source. The JSON load is a map parameter, and the prints are left out.
- Jason: `\d` is ASCII digits. jason_plot, comparison_plot and the subplot code are left out. nsubplots' float square root is modelled exactly. The 'Other' assertion of comparison_plot is left out, and the stability of `sorted` is not proved.
- ReadCounts: file I/O is left out, as are Python int()'s underscores and Unicode whitespace and digits. The float precision of int(b)/4 for huge counts and of /1e6 is not modelled.
- ReadCounts: the ZeroDivisionError of the CDF plot for a one-item class and the unused `derive` are left out.

## Findings

| source | as written | input that shows it | evidently intended | confidence | as-written member | corrected member |
|---|---|---|---|---|---|---|
| luna/luna.go:102-112 | the group pattern is "^" followed by the alternatives joined by bars, so only the first alternative in map order is anchored | "x1.Inh" when "1.Inh" is not first in map order: the group "1.Inh" is found instead of a panic | every alternative anchored at the start of the name | not executed | Luna.AsWrittenAcceptsUngroupedName | Luna.SampleGroup |
| coverage.py:64-70 | extract_species strips ".json", ".cov" and ".nz" but not ".covs", the suffix coveragesum writes (coveragesum/coveragesum.go:92) | "d/spc.covs.json" gives "spc.covs" | the species name "spc" | not executed | CoveragePy.ExtractSpeciesKeepsCovs | CoveragePy.ExtractSpeciesIntendedRoundTrip |
