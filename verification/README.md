# savvy: regression sums, `sav export` arguments and headers, extension dispatch

This project is a Dafny model of three small, pure pieces of the savvy
genotype library and its tools. It proves properties of each.

1. **Simple linear regression of a trait on a genotype vector**
   (`linreg_ttest`, `linreg_ttest_old`, `sp_lin_reg_old` and the sparse
   `linreg_ttest` overload). The model works over exact `real` arithmetic.
   - The accumulation loops collect Σx, Σy, Σx² and Σxy. For a
     compressed (sparse) genotype vector they visit only the stored
     (index, value) pairs, while Σy still runs over the whole trait vector.
   - From those sums come the slope and intercept, the second-pass sums of
     squares `se_line` and `se_x_mean`, and `dof = n - 2` in `std::size_t`.
   - Proved:
     - the fused loops agree with the accumulate/inner_product versions;
     - the sparse sums agree with the dense sums over the zero-filled
       expansion;
     - the denominator n·Σx² − (Σx)² is non-negative, and it is zero
       exactly when every genotype is equal;
     - the fitted line passes through the mean point and satisfies the
       normal equations;
     - a successful fit has n ≥ 2, dof = n − 2 and a positive `se_x_mean`.
2. **`sav export`** (`export_prog_args::parse`, the header rewrite in
   `export_reader`, and `export_main`'s reader choice).
   - The options getopt_long reports are a sequence of (code, optarg)
     items. The comma splitters, `split_file_to_set` and
     `string_to_region` are function parameters, and so is
     `parse_header_id`.
   - Proved:
     - parse succeeds exactly when every option is accepted and the
       positional arguments resolve;
     - on failure, the error is the one of the first rejected option;
     - the format is the last `-f HDS`/`-f DS`, defaulting to allele;
     - help is set iff some option is `-h`;
     - the regions are all `-r` regions in order;
     - the sample subset is the last `-s`/`-S`;
     - the header rewrite drops exactly the FORMAT lines and the
       INFO lines with id ID, QUAL or FILTER, works line by line in order,
       and is idempotent;
     - the writer gets exactly one FORMAT line, at the end;
     - the indexed reader is used exactly when regions were given, and it
       starts at the first region.
3. **`has_extension` and the reader dispatch of the test program.**
   - `has_extension` is the suffix test. It agrees with a
     character-by-character reference.
   - No file name carries two of the five extensions the dispatch tests,
     so the first-match order never matters.

Notes on what the code does:
- The code never checks `dof` before the square roots. With two samples
  and distinct genotypes the model's `Success` has `dof = 0`; it covers
  only the quantities computed before the square roots, and the squared
  standard error is then `None` (`Regression.StdErrSquared`). What the code
  does next, with `dof = 0`, is left out (see below). Below two samples
  `n - 2` wraps in `std::size_t` (`Regression.Dof`). That case is
  unreachable, because the denominator is then zero and the fit fails
  first.
- The code has no length check between genotype and trait vectors. The
  model takes equal lengths as a precondition: with a shorter trait vector
  the code reads `y[i]` past its end, and a longer one is covered under
  "## Left out".
- A division by zero in the float code yields NaN or Inf rather than an
  error. The model reports it as `Failure(SlopeUndefined)`.

Files:
- `wrappers.dfy`: `Option` and `Result`.
- `series.dfy`: sums over `seq<real>` and their algebra.
- `sparse.dfy`: the compressed vector and its expansion.
- `accumulation.dfy`: the two accumulation loops.
- `regression.dfy`: the fit and the second pass.
- `export_args.dfy`, `export_headers.dfy` and `export_main.dfy`: `sav export`.
- `extension.dfy`: `has_extension` and the dispatch.

## Model

| member | source | states |
|---|---|---|
| Series.SumSqDev | src/linreg_ttest.cpp:41 | the sum of squared deviations from a centre (`se_x_mean`) is never negative |
| Series.SumSqDevExpand | src/linreg_ttest.cpp:68-76 | Σ(xᵢ − c)² = Σx² − 2c·Σx + n·c², for every centre c |
| Series.SumSqDevZero | src/linreg_ttest.cpp:75 | the sum of squared deviations from c is zero iff every xᵢ equals c |
| Series.SpreadNonneg | src/linreg_ttest.cpp:65 | n·Σx² − (Σx)² ≥ 0 for every sequence |
| Series.SpreadZeroIff | src/linreg_ttest.cpp:65 | n·Σx² − (Σx)² = 0 iff all elements are equal (both directions) |
| Series.CentredSpread | src/linreg_ttest.cpp:68-76 | at the mean, n·Σ(xᵢ − x̄)² equals n·Σx² − (Σx)², i.e. `se_x_mean` = s_xx − s_x²/n |
| Sparse.ExpandAt | src/linreg_ttest.cpp:97 | the dense view of a compressed vector holds each stored value at its index and 0 at every other position |
| Accumulation.DenseAccumulate | src/linreg_ttest.cpp:57-63 | the fused loop leaves s_x = Σx, s_y = Σy, s_xx = Σx², s_xy = Σxᵢyᵢ |
| Accumulation.SparseAccumulate | src/linreg_ttest.cpp:115-127 | the loop over stored pairs gives the sums of the stored values, their squares, and their products with y at their indices; s_y is the full Σy |
| Accumulation.SparseSumMatches | src/linreg_ttest.cpp:119-121 | summing the stored values equals summing the zero-filled expansion |
| Accumulation.SparseSumSqMatches | src/linreg_ttest.cpp:119-122 | summing squares of stored values equals Σx² of the expansion |
| Accumulation.SparseDotMatches | src/linreg_ttest.cpp:119-124 | the gathered product Σ vⱼ·y[idxⱼ] equals Σxᵢyᵢ of the expansion |
| Accumulation.SparseMatchesDense | src/linreg_ttest.cpp:115-127 | all four sparse sums equal the dense sums of the expansion |
| Regression.Fit | src/linreg_ttest.cpp:65-66 | the fit exists iff n > 0 and the denominator is non-zero; then slope·denominator = n·s_xy − s_x·s_y and n·intercept = s_y − slope·s_x |
| Regression.FitThroughMean | src/linreg_ttest.cpp:66-68 | the fitted line evaluated at x̄ = s_x/n gives ȳ = s_y/n |
| Regression.FitNormalEquations | src/linreg_ttest.cpp:65-66 | slope and intercept solve both least-squares normal equations |
| Regression.FitsUnlessMonomorphic | src/linreg_ttest.cpp:65-66 | a predictor that is not monomorphic always has a fitted line |
| Regression.FittedSumMatches | src/linreg_ttest.cpp:66-67 | for a predictor that is not monomorphic the fitted values sum to Σy, so the residuals sum to zero |
| Regression.FittedDotMatches | src/linreg_ttest.cpp:66-67 | for a predictor that is not monomorphic Σxᵢ·fx(xᵢ) = Σxᵢyᵢ, so the residuals are orthogonal to x |
| Regression.SSE | src/linreg_ttest.cpp:74 | the residual sum of squares `se_line` is never negative |
| Regression.Dof | src/linreg_ttest.cpp:78 | `n - 2` in `std::size_t`: n − 2 from two samples on, wrapping to 2⁶⁴ − 2 + n below |
| Regression.SecondPass | src/linreg_ttest.cpp:70-76 | the loop leaves `se_line` = Σ(yᵢ − fx(xᵢ))² and `se_x_mean` = Σ(xᵢ − x̄)² |
| Regression.FinishFused | src/linreg_ttest.cpp:65-78 | the fused fit and second pass give the estimate of the two-pass definition |
| Regression.LinRegTTest | src/linreg_ttest.cpp:50-78 | the fused dense overload returns exactly what `linreg_ttest_old` returns (src/linreg_ttest.cpp:29-42) |
| Regression.SparseLinRegTTest | src/linreg_ttest.cpp:108-141 | the sparse overload agrees with `sp_lin_reg_old` and with the dense computation on the expansion |
| Regression.DenominatorNonneg | src/linreg_ttest.cpp:65 | the slope's denominator is never negative |
| Regression.MonomorphicIffZeroDenominator | src/linreg_ttest.cpp:65 | the denominator is zero iff the genotype vector is constant |
| Regression.FailsIffMonomorphic | src/linreg_ttest.cpp:36 | the regression fails iff every genotype is equal (empty input included) |
| Regression.SuccessShape | src/linreg_ttest.cpp:40-42 | a predictor that is not monomorphic fits successfully, with n ≥ 2, dof = n − 2, n·`se_x_mean` = n·Σx² − (Σx)² and `se_x_mean` > 0 |
| Regression.StdErrSquared | src/linreg_ttest.cpp:79 | the squared standard error is defined iff dof > 0 and se_x_mean ≠ 0; it is then the value v with v·dof·se_x_mean = se_line, i.e. (se_line/dof)/se_x_mean, and non-negative when its parts are |
| Regression.StdErrDefinedIff | src/linreg_ttest.cpp:78-79 | for a predictor that is not monomorphic the standard error exists iff n > 2, and it is non-negative |
| ExportArgs.Letter | src/sav/export.cpp:67 | `opt & 0xFF` is the residue of the code modulo 256, in [0, 256) |
| ExportArgs.RegionsIn | src/sav/export.cpp:96-97 | one `-r` argument gives one region per comma-separated part, in order |
| ExportArgs.ApplyOption | src/sav/export.cpp:68-107 | one option succeeds iff it is f (with HDS, DS or GT), h, r, s or S; otherwise the error names the bad format value or the option code |
| ExportArgs.OptionsSucceedIff | src/sav/export.cpp:65-108 | the option loop succeeds iff every option is accepted |
| ExportArgs.FirstRejectionWins | src/sav/export.cpp:85-89 | the loop fails with the error of the first rejected option, whatever follows it |
| ExportArgs.FormatIsLastNamed | src/sav/export.cpp:25 | the format is the one named by the last `-f HDS`/`-f DS`, or allele when there is none; `-f GT` changes nothing |
| ExportArgs.NeverGenotypeProbability | src/sav/export.cpp:81-84 | parsing never yields genotype probabilities |
| ExportArgs.GenotypeProbabilityRejected | src/sav/export.cpp:81-89 | `-f GP` fails as an invalid format value |
| ExportArgs.HelpIff | src/sav/export.cpp:92-94 | help is set iff some option is `-h` |
| ExportArgs.RegionsAccumulate | src/sav/export.cpp:95-98 | the regions are those of every `-r` option, concatenated in order |
| ExportArgs.SubsetIsLast | src/sav/export.cpp:99-104 | the sample subset is that of the last `-s`/`-S` option, or empty |
| ExportArgs.OptionsLeavePaths | src/sav/export.cpp:22-23 | the options never set the paths |
| ExportArgs.ResolvePaths | src/sav/export.cpp:110-137 | zero, one or two positionals give stdin/stdout, (p, stdout) or (p, q); more fail with too many arguments; none fails when regions were given; no other field changes |
| ExportArgs.ParseSucceedsIff | src/sav/export.cpp:61-140 | parse succeeds iff all options are accepted, at most two positionals remain, and regions do not come without an input path |
| ExportArgs.DosageThenGenotype | src/sav/export.cpp:72-90 | `-f DS -f GT in.sav` parses to dosage, input `in.sav`, output stdout |
| ExportHeaders.Stamp | src/sav/export.cpp:194-202 | a kept fileDate line takes today's date when it is available; every other line is unchanged |
| ExportHeaders.FormatHeader | src/sav/export.cpp:208-215 | allele gets the GT line, haplotype dosage the HDS line with Number=2, dosage the DS line, each keyed FORMAT; genotype probabilities get none |
| ExportHeaders.RewriteAppend | src/sav/export.cpp:187-206 | the rewrite distributes over concatenation, so relative order is preserved |
| ExportHeaders.RewriteMembers | src/sav/export.cpp:187-206 | a line is in the output iff it is the stamped form of an input line that is not dropped |
| ExportHeaders.NothingDroppedRemains | src/sav/export.cpp:190-191 | no FORMAT line and no INFO line with id ID, QUAL or FILTER survives |
| ExportHeaders.RewriteLength | src/sav/export.cpp:187-206 | the output is as long as the input minus the dropped lines |
| ExportHeaders.RewriteIdempotent | src/sav/export.cpp:187-206 | rewriting an already rewritten list changes nothing |
| ExportHeaders.DatesStamped | src/sav/export.cpp:194-202 | with a date available, every surviving fileDate line carries it |
| ExportHeaders.OneFormatHeader | src/sav/export.cpp:208-213 | the writer's headers hold exactly one FORMAT line, the last, for the chosen format, after the rewritten input |
| ExportMain.Run | src/sav/export.cpp:221-246 | the command exports exactly when parse succeeds without help |
| ExportMain.ExitStatus | src/sav/export.cpp:224-234 | the status is success iff help was printed or an export left the output good; it is always EXIT_SUCCESS or EXIT_FAILURE |
| ExportMain.RejectedPrintsUsage | src/sav/export.cpp:224-228 | a rejected command line prints usage and fails |
| ExportMain.HelpShortCircuits | src/sav/export.cpp:230-234 | `-h` prints usage and succeeds before any reader is opened, once parse has succeeded |
| ExportMain.HelpWithTooManyArguments | src/sav/export.cpp:133-137 | `-h a b c` still fails: the argument count is checked before help |
| ExportMain.ReaderFollowsRegions | src/sav/export.cpp:236-245 | a command line that parses without help exports; the indexed reader is chosen iff regions were given, starting at the first one; either reader opens the input path in the parsed format |
| Extension.SuffixIff | src/test.cpp:15-21 | `has_extension` holds iff ext is no longer than s and equals the same number of final characters of s |
| Extension.MatchesEndsWith | src/test.cpp:15-21 | `has_extension` agrees with the character-by-character end comparison |
| Extension.ShorterNeverMatches | src/test.cpp:19-20 | an extension longer than the string never matches |
| Extension.EmptyAlwaysMatches | src/test.cpp:17-18 | the empty extension matches every string |
| Extension.AppendedMatches | src/test.cpp:17-18 | `p + e` has extension `e` for every p |
| Extension.ExtensionsExclusive | src/test.cpp:53-65 | each reader is chosen exactly when its own extension matches, so the order of the tests does not matter |
| Extension.FixtureIsCvcf | src/test.cpp:52-58 | "/foobar.cvcf" opens the cvcf reader |
| Extension.UndottedGzip | src/test.cpp:65 | "callsvcf.gz", which has no dot before vcf, still opens the vcf reader |
| Extension.CompressedFallsBack | src/test.cpp:88-94 | in the two-way dispatch every non-cvcf name, a plain vcf included, opens the m3vcf reader |

## Left out

- Float rounding and single precision: all sums are exact `real`s, so a
  different summation order (sparse against dense) cannot change a result
  here.
- `std::sqrt`, the t statistic and the Student-t p-value (Boost): the
  model stops at the squared standard error.
- The Student-t distribution built with `dof = 0` when there are exactly
  two samples: Boost's default policy rejects it with `std::domain_error`,
  so the code does not return there. The model's `Success` at n = 2 covers
  only the quantities before the square roots.
- Regression.LinRegTTest: equal to `linreg_ttest_old` only for equal
  lengths of genotype and trait vectors, which every regression member
  requires. With a longer trait vector `linreg_ttest_old` and both sparse
  overloads sum all of y, while the fused dense loop sums only the first
  n values, so the two dense versions differ there.
- `multi_lin_reg_ttest` (a stub returning `true`), `invert_matrix`,
  `print_matrix` and `run_multi`: uBLAS linear algebra and console output.
- `run_simple`, `main` and `tab_delimited_write_floats`: random
  phenotypes, file reading and printing.
- `savvy::compressed_vector` is not part of this model. It is taken to
  store strictly increasing indices below its size, with `operator[]`
  yielding the stored value or zero (`Sparse.SparseVector.Valid`, `Sparse.Expand`).
- `getopt_long`, `split_string_to_vector`, `split_string_to_set`,
  `split_file_to_set`, `string_to_region` and `savvy::parse_header_id`:
  helpers that are not part of this model. They enter as parameters.
- `print_usage` text and the error messages written to stderr: output only.
- `std::time`/`strftime`: today's date is an `Option<string>` parameter
  (None when strftime fails).
- Sample subsetting in `export_reader` (`subset_samples`), the readers,
  `export_records` and the VCF writer: streaming I/O. The exit status of an
  export is the writer's `good()` state, a parameter of `ExportMain.ExitStatus`.
- The reader loops, `handle_file_reader`, `varint_test` and the timing
  benchmarks of the test program: file I/O. Only the extension test and
  the dispatch are modelled.
- Regression.SuccessShape: states n·`se_x_mean` = n·Σx² − (Σx)² rather
  than `se_x_mean` = Σx² − (Σx)²/n; the two are equivalent for n > 0, and
  the multiplied form avoids division.
- Regression.Fit: states slope and intercept multiplied through by their
  denominators rather than as quotients; `Fit` is non-`None` only when the
  divisors are non-zero, so the statements are equivalent.
