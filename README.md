# Compare Goodreads: rating correlation, result table and result store

This Dafny project models the computational core of Compare Goodreads, a small
web application that estimates how closely a Goodreads user's taste matches each
friend's. For every friend, it takes the books both of them rated and computes a
Pearson correlation between the two rating series, and the results are formatted as
a tab-separated table. The repository also holds a two-table result store, the
`Database` class of database.py. The application code in compare_goodreads.py never
imports or calls it: the (unreachable) comparison code keeps progress and results in
the Flask session, and `/get_results` serves the file `results.tsv`.

The project has these parts:

- `rating_stats.dfy` (module `RatingStats`) holds integer sums over rating series (`Sum`, `Dot`,
  `SumSquares`). It has the variance term as the source writes it (`VarianceTerm`, with Python 2
  floor division) and as exact integers (`ExactVariance`). It also proves the algebra behind them:
  non-negativity, the zero iff constant case, and the Cauchy–Schwarz inequality.
- `pearson.dfy` (module `PearsonCorrelation`) models `pearson`. The method `Pearson` keeps the
  source's single loop with its six accumulators. It is proved equal to the specification function
  `PearsonOf`. The floating-point tail is kept symbolic: a result is either `NoCorrelation` (the
  literal 0 of the two degenerate branches) or `Ratio(num, vx, vy)`, which stands for
  `num / (sqrt(vx) * sqrt(vy))`.
- `rating_correlation.dfy` (module `RatingCorrelation`) models `compute_rating_correlation`.
  Python's `int()` is a parameter `parse: string -> Option<int>`, where `None` stands for
  `ValueError`. The method's loop drops every review with a rating that does not parse.
- `tsv_format.dfy` (module `TsvFormat`) models `make_tsv`. It also gives a reader (`ParseTsv`,
  built on a Python-style `Split`) and proves the round trip. It proves too that a tab inside a
  field breaks the round trip, because the format does no escaping.
- `result_store.dfy` (module `ResultStore`) models the `Database` class: the tables `progress`
  and `comparison` become two `map` fields keyed by user id. `set_progress` is an upsert,
  `insert_result` is insert-only, and the three getters fall back to defaults.
- `wrappers.dfy` (module `Wrappers`) defines `Option`.

Integer semantics: the source is Python 2 (`import thread`), so `pow(sum_x, 2) / n` and
`(sum_x * sum_y) / n` are integer floor divisions. The divisor `n` is always positive, so Dafny's
Euclidean `/` computes the same value. Python integers are unbounded, and so are Dafny's `int`.

The source's `denominator == 0` test is `sqrt(vx) * sqrt(vy) == 0`. The model states it as
`vx == 0 || vy == 0`. These are equal because both terms are proved non-negative integers
(`PearsonDenominator`).

## Model

| member | source | states |
|---|---|---|
| `PearsonCorrelation.Pearson` | compare_goodreads.py:180-201 | the one-pass loop's result equals `PearsonOf`: its six accumulators are `n` = the list length and the sums of x·y, x, y, x², y² over the list (loop invariants); 0 for an empty list |
| `PearsonCorrelation.PearsonDenominator` | compare_goodreads.py:197-199 | for a non-empty list neither `sqrt` argument `sum_x2 - sum_x^2 div n`, `sum_y2 - sum_y^2 div n` is negative, and a returned ratio has both variance terms strictly positive |
| `PearsonCorrelation.PearsonNoCorrelationIff` | compare_goodreads.py:183-199 | `pearson` takes a zero branch (the literal 0 returned at compare_goodreads.py:184 or :199) if and only if the list is empty, or every x is equal, or every y is equal. A `Ratio` whose integer numerator is 0 also denotes the float 0.0, for example `[(1,1),(2,2),(3,1)]` |
| `PearsonCorrelation.PearsonIdenticalRatings` | compare_goodreads.py:186-201 | when every pair has x = y (and the x are not all equal), the result is `Ratio(v, v, v)`, which denotes 1 in exact real arithmetic |
| `PearsonCorrelation.PerfectPositiveExample` | compare_goodreads.py:186-201 | `[(1,1),(2,2),(3,3)]` gives `Ratio(2, 2, 2)`, which denotes 1 in exact real arithmetic |
| `PearsonCorrelation.PerfectNegativeExample` | compare_goodreads.py:186-201 | `[(1,5),(2,4),(3,3),(4,2),(5,1)]` gives `Ratio(-10, 10, 10)`, which denotes -1 in exact real arithmetic |
| `PearsonCorrelation.ZeroNumeratorExample` | compare_goodreads.py:186-201 | `[(1,1),(2,2),(3,1)]` has no constant series, yet its floor-divided numerator is 0: `Ratio(0, 2, 1)`, the float 0.0 outside the zero branches |
| `PearsonCorrelation.AsWrittenRoundsUp` | compare_goodreads.py:197-201 | each integer term as written is the exact term divided by n and rounded up: `n * term == exact + remainder`, with the remainder of the floor division |
| `PearsonCorrelation.ExactPearsonSameDegenerateCases` | compare_goodreads.py:197-199 | the exact coefficient and the as-written one take the zero-denominator branch (the literal 0 of compare_goodreads.py:184 and :199) on exactly the same inputs |
| `PearsonCorrelation.ExactPearsonBounded` | compare_goodreads.py:197-201 | the exact coefficient has positive variance terms and `num^2 <= vx * vy`, so it lies in [-1, 1] |
| `PearsonCorrelation.ExactPearsonIdenticalRatings` | compare_goodreads.py:197-201 | when every pair has x = y and the x are not all equal, the exact coefficient is `Ratio(v, v, v)`, which is 1 in real arithmetic (a constant series takes the zero branch instead) |
| `PearsonCorrelation.ExactPearsonMirroredRatings` | compare_goodreads.py:197-201 | when every pair is mirrored (`theirs = c - mine`) and the x are not all equal, the exact coefficient is `Ratio(-v, v, v)`, which is -1 in real arithmetic (a constant series takes the zero branch instead) |
| `PearsonCorrelation.FloorDivisionHidesNegativeCorrelation` | compare_goodreads.py:197-201 | as written, `[(1,2),(2,1)]` gives `Ratio(0, 1, 1)`, which is 0, while the exact coefficient is `Ratio(-1, 1, 1)`, which is -1 in real arithmetic |
| `PearsonCorrelation.FloorDivisionExceedsOne` | compare_goodreads.py:197-201 | as written, `[(1,2),(1,2),(2,4)]` gives `Ratio(2, 1, 3)`, whose squared numerator exceeds the product of its variance terms (a coefficient above 1), while the exact coefficient is `Ratio(4, 2, 8)`, which is 1 in real arithmetic |
| `RatingStats.VarianceTermNonNegative` | compare_goodreads.py:197 | `sum_x2 - sum_x^2 div n >= 0` for every non-empty integer series |
| `RatingStats.VarianceTermZeroIff` | compare_goodreads.py:197-199 | the floor-divided variance term is zero if and only if every value in the series is equal |
| `RatingStats.VarianceTermScaled` | compare_goodreads.py:197 | `n` times the floor-divided term equals the exact `n * sum_x2 - sum_x^2` plus the dropped remainder |
| `RatingStats.ExactVarianceNonNegative` | compare_goodreads.py:197 | `n * sum_x2 >= sum_x^2` (Cauchy–Schwarz for one series) |
| `RatingStats.ExactVarianceZeroIff` | compare_goodreads.py:197-199 | `n * sum_x2 == sum_x^2` if and only if the series is constant |
| `RatingStats.CauchySchwarz` | compare_goodreads.py:197-201 | `(Σ a·b)^2 <= Σ a^2 · Σ b^2` for integer series, the inequality that bounds the exact coefficient |
| `RatingCorrelation.ParseReview` | compare_goodreads.py:171-175 | a review yields a pair if and only if both ratings parse, and then the pair is the two parsed values in order |
| `RatingCorrelation.ComputeRatingCorrelation` | compare_goodreads.py:160-178 | returns 0 for no reviews; otherwise returns `pearson` of exactly the parsed pairs the loop collects (`ParsedPairs`) |
| `RatingCorrelation.ParsedPairsSelects` | compare_goodreads.py:169-176 | the collected pairs come from an increasing list of review positions that contains every review whose two ratings parse, each pair parsed from its review: the parsing reviews in order, and no others |
| `RatingCorrelation.SelectsParsedUnique` | compare_goodreads.py:169-176 | conversely, any list of pairs that selects the parsing reviews in order is the one the loop builds |
| `RatingCorrelation.NothingParsesGivesNoCorrelation` | compare_goodreads.py:169-184 | when no review parses, the pair list is empty and `pearson` returns 0 |
| `TsvFormat.MakeTsv` | compare_goodreads.py:153-158 | the loop's text equals `Tsv(data)` and begins with `Name\tPearsons\tBooks\n` |
| `TsvFormat.TsvStartsWithHeader` | compare_goodreads.py:155-158 | the table begins with the header, and is exactly the header when there is no data |
| `TsvFormat.TsvLines` | compare_goodreads.py:155-157 | with newline-free fields, splitting the table on `\n` gives the header line, then tuple k's three fields joined by tabs as line k+1, then the empty piece after the last newline: one newline-terminated line per tuple plus the header |
| `TsvFormat.RowTextFields` | compare_goodreads.py:157 | a row line with tab-free and newline-free fields splits on `\t` into its three fields, in order |
| `TsvFormat.TsvRoundTrip` | compare_goodreads.py:155-157 | when no field holds a tab or newline, reading the table back gives exactly the original tuples |
| `TsvFormat.TabInFieldBreaksRoundTrip` | compare_goodreads.py:157 | when no field of any tuple holds a newline, a tab in any field makes the table unreadable (that line has more than three fields), because the format does no escaping. A newline in a field moves text to the next line, so the lines no longer match the tuples and this statement does not cover that case (see `NewlineInFieldMisreads`) |
| `TsvFormat.NewlineInFieldMisreads` | compare_goodreads.py:157 | a newline inside a field is not escaped either: the one tuple `("x\ty", "1\n2", "p\tq")` reads back as the two tuples `(x, y, 1)` and `(2, p, q)` |
| `ResultStore.Database.constructor` | database.py:6-27 | the store starts from whatever rows the two tables already hold (`CREATE TABLE IF NOT EXISTS`) |
| `ResultStore.Database.SetProgress` | database.py:29-37 | upsert: afterwards the user's progress is `p` whether or not a row existed; every other user's progress and the whole comparison table are unchanged |
| `ResultStore.Database.GetProgress` | database.py:39-47 | returns the stored progress, or 0 when the user has no row; modifies nothing |
| `ResultStore.Database.InsertResult` | database.py:49-53 | insert-only: succeeds exactly when the user has no result and then stores it. Otherwise the UNIQUE constraint declared at database.py:21-25 rejects it and nothing changes. Stored results never change, and progress is untouched |
| `ResultStore.Database.GetResult` | database.py:55-63 | returns the stored result, or `''` when the user has no row; modifies nothing |
| `ResultStore.Database.HasResult` | database.py:65-70 | true exactly when the user has a comparison row; modifies nothing |
| `ResultStore.SetThenGetProgress` | database.py:29-47 | after an upsert of `p` for `u`, reading `u` gives `p` and reading any other user gives what it gave before |
| `ResultStore.SetProgressIdempotent` | database.py:29-37 | upserting the same `(u, p)` twice leaves the same table as upserting it once |
| `ResultStore.UpsertThenRead` | database.py:29-47 | on the class itself: after `set_progress(u, p)`, `get_progress(u)` returns `p`, whether or not the user had a row |
| `ResultStore.InsertTwice` | database.py:49-63 | on the class itself: of two inserts for one user the second is always rejected, the first succeeds exactly when the user had no result, and `get_result` then returns the user's earlier result if there was one and the first inserted text otherwise |
| `ResultStore.InsertThenGetResult` | database.py:49-63 | a user without a result reads `''`; after the insert the user has a row and reads back the inserted text |

## Findings

| source | as written | input that shows it | evidently intended | confidence | as-written member | corrected member |
|---|---|---|---|---|---|---|
| compare_goodreads.py:197-201 | `pow(sum_x, 2) / n` and `(sum_x * sum_y) / n` are Python 2 integer floor divisions | `[(1,2),(2,1)]`: numerator `4 - 9 div 2 = 0`, so `pearson` returns 0 | true division, giving -1 for these mirrored ratings | not executed; high (Python 2 `/` on ints) | `PearsonCorrelation.FloorDivisionHidesNegativeCorrelation` | `PearsonCorrelation.ExactPearsonMirroredRatings` |
| compare_goodreads.py:197-201 | same floor divisions | `[(1,2),(1,2),(2,4)]`: `Ratio(2, 1, 3)`, i.e. 2/√3 ≈ 1.155 | a coefficient in [-1, 1], here 1 in real arithmetic | not executed; high | `PearsonCorrelation.FloorDivisionExceedsOne` | `PearsonCorrelation.ExactPearsonBounded` |

The corrected coefficient is `PearsonCorrelation.ExactPearsonOf`. It multiplies the numerator and
both variance terms by `n`, which leaves the real quotient unchanged and needs no division.
`AsWrittenRoundsUp` states the error exactly. Each term as written is its exact counterpart divided
by `n` and rounded up.

The methods `Pearson` and `ComputeRatingCorrelation` still model the code as written. A corrected
`pearson` would return `ExactPearsonOf(ratings)` from the same loop. Both versions take the
zero branch on the same inputs (`ExactPearsonSameDegenerateCases`).

## Left out

- The Flask routes, templates, redirects and session handling (compare_goodreads.py:41-116) are
  request plumbing. This includes `/get_progress`, which adds 25 to a session value, and
  `/get_results`, which reads a file.
- The Goodreads/OAuth client and its configuration (compare_goodreads.py:19-36) are calls into a
  foreign library.
- Logging (compare_goodreads.py:10-17) is left out.
- `thread.start_new_thread` (compare_goodreads.py:100-103) is concurrency.
- `compare()` (compare_goodreads.py:122-151) returns at line 128, so the orchestration after it
  never runs. That dead code would also divide by zero at `total / i` and use an undefined
  `reviews`. Its progress percentages are not part of this model. compare_goodreads.py never
  uses `Database`; the dead code keeps progress and results in the Flask session.
- `sqrt` and the final float division of `pearson` are floating point; `Ratio` keeps them symbolic.
  The float `pearson` returns can differ by rounding from the real value a `Ratio` denotes: in IEEE
  doubles `2 / (sqrt(2) * sqrt(2))` is 0.9999999999999998 rather than 1, and
  `-10 / (sqrt(10) * sqrt(10))` is -0.9999999999999998 rather than -1.
  Float overflow when a sum is too large to convert to a float is not modelled either.
- How `str.format` renders the similarity float and the book count is not modelled. Each field is
  the text it produces.
- Python `int()` string parsing is not modelled. It is the parameter `parse`. Errors other than
  `ValueError`, such as a missing key or a `None` rating, propagate in the source and are not
  modelled.
- The psycopg2 connection, cursor, commits, environment variables and `close_con` (database.py:1-13,
  72-74) are left out. So are SQL NULL values: progress is an `int` and a result a `string`.
- Two concurrent `set_progress` calls for a new user could both find no row and race on the
  INSERT. That is concurrency, and each method here is one atomic step.
- `insert_result` raises the database's unique-violation error in the source. Here that error is the
  returned outcome `UniqueViolation`.
- `ResultStore.Database.SetProgress`: `u_id` and `progress` are 32-bit Postgres `INTEGER` columns
  (database.py:17-18), so in the source a user id or progress outside [-2^31, 2^31) makes the
  UPDATE or the INSERT raise. The model stores any `int`.
- `ResultStore.Database.InsertResult`: `u_id` is a 32-bit `INTEGER` (database.py:22), and a `text`
  column rejects a string containing NUL. The source raises in both cases; the model stores any `int`
  key and any `string`.
- `ResultStore.Database.InsertResult`: after the unique-violation error (or any other database error),
  database.py does not roll back. The psycopg2 connection then stays in an aborted transaction, and
  every later call on that `Database` raises. In the model, `UniqueViolation` changes nothing and
  the object stays usable.
- `TsvFormat.MakeTsv`: in Python 2, `'{0}\t{1}\t{2}\n'.format(...)` (compare_goodreads.py:157) raises
  `UnicodeEncodeError` for a `unicode` field holding a non-ASCII character. The model formats every
  string.
