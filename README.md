# Route Logger backend: a verified model

This project models the logic of the Route Logger Flask backend (`backend/app.py`). It covers
the rules that decide what the endpoints return, and it proves the properties those rules
promise. The modules are:

- **Proximity** models `group_customers_by_proximity`. This is the greedy grouping loop: the
  first ungrouped customer is the seed, and every ungrouped customer whose postcode geocodes
  near the seed's point joins its group. Geocoding is an oracle `geocode: string -> Option<Point>`
  that takes the query text `"{postcode}, {country}"`. The geodesic test
  `distance <= max_distance_km` is an abstract predicate `near`.
- **Route** models `optimize_route` and `optimize_route_with_google_maps`:
  - the pre-check;
  - the selection by `iloc`;
  - the waypoint assembly (start, then the geocoded customers in order, then end);
  - the two-waypoint check;
  - the guard around the directions provider, which is an oracle;
  - the mapping of the provider's `waypoint_order` back onto the selected customers, in its
    four anchor cases.
- **Dates** models the proleptic Gregorian calendar of Python's `datetime`: day ordinals,
  adding days, `strftime("%Y-%m-%d")`, the `strptime` tokens `%Y`, `%m`, `%d`, and Python's
  string order.
- **Values** models a cell of a customer record (None, NaN, timestamp, bool, int, float, text).
  It also models Python's `str()`, truth value, `strip()` and `lower()` on such cells.
- **DateParse** models `_parse_date_to_iso`: the null checks and the ordered scan of the four
  formats.
- **NextDue** models `calculate_next_due_date`, which reads the frequency as `int(float(v))` and
  adds that many days to the last visit.
- **Flags** models the yes/no coercion of the `tagged_customers` and `multi_site` columns.
- **Headers** models the header normalisation:
  - strip and lower-case every name;
  - the exact `CSV_COLUMN_MAP` rename;
  - the soft pass, which matches a name with spaces for underscores.
- **Records** models three table operations: the overdue filter, the fill-in of missing next
  due dates in `_get_customers_payload`, and the bounds-checked update of `update_customer`.
- **Wrappers** holds `Option` and `Result`.

The loops of the source are methods with loop invariants. Each one is proved equal to a
function, and the properties are lemmas about that function. These loops are:
- the grouping loop, with its inner scan and its removals;
- the waypoint appends;
- the format scan;
- the overdue loop;
- the fill-in loop over an `array`, which it updates in place;
- the soft rename loop.

The reordering branches, the coercion lambdas and `calculate_next_due_date` are expressions in
the source, and they are functions here.

### Behaviour of the code worth knowing

- **A group is the seed and the customers near the seed.** `group_customers_by_proximity` compares
  every still-ungrouped customer with the group's first member only (backend/app.py:241-252).
  A customer near some other member but not near the seed goes to a later group
  (`SeedDistanceOnly`).
- **A customer that does not geocode still gets a group.** When it is the seed, the inner scan is
  skipped and it forms a group of its own (backend/app.py:230-238, `MembersNearSeed`).
- **Start+end with an out-of-range index returns `[]`.** With both a start and an end postcode, an
  entry of `waypoint_order` outside the customer list leaves `optimized_customers` empty. The
  other branches keep the original order there (backend/app.py:487-537, `ReorderFallbacks`). An
  empty order still gives the original customers.
- **Reordering indexes the selected customers, not the waypoints.** A customer that does not
  geocode has no waypoint, yet `waypoint_order` is applied to the full selection
  (backend/app.py:469-495). Its indices can then point at the wrong customers
  (`ReorderIgnoresFailedGeocodes`).
- **Failures carry a message only, where backend/test_route_optimizer.py expects more.** A start or
  end postcode that fails to geocode is answered 400 with an `error` message and nothing else
  (backend/app.py:462-479). Too few waypoints is answered the same way (backend/app.py:481-482).
  The tests expect the fields `failed_postcodes`, `valid_waypoints`, `suggestions`,
  `required_waypoints` and `current_waypoints` (backend/test_route_optimizer.py:110-308). They
  also expect status 200 after a failed start postcode (backend/test_route_optimizer.py:187-207)
  and after a failed end postcode (backend/test_route_optimizer.py:243-262). The code answers 400
  in both cases (backend/app.py:466 and backend/app.py:478). The model follows the code.

## Model

| member | source | states |
|---|---|---|
| Proximity.GroupByProximity | backend/app.py:219-259 | The `while ungrouped` loop returns exactly the groups the seed-based rule defines over the indices 0..n-1. |
| Proximity.TakeGroup | backend/app.py:226-257 | One iteration yields the seed's group and the still-ungrouped list. That list is duplicate-free, strictly shorter, and drawn from the old one. |
| Proximity.ScanNear | backend/app.py:240-252 | `to_remove` is, in list order, exactly the ungrouped customers that geocode to a point near the seed. |
| Proximity.RemoveEach | backend/app.py:254-255 | Removing the `to_remove` entries one by one is the fold of single removals. |
| Proximity.RemoveJoined | backend/app.py:254-255 | On a duplicate-free list, removing the joined customers leaves exactly the customers that did not join, in their order. |
| Proximity.GroupsPermute | backend/app.py:225-257 | Between them, the groups hold each ungrouped index exactly as often as the list did. |
| Proximity.Partition | backend/app.py:221-259 | Every index 0..n-1 lies in exactly one group, exactly once, and no other number appears. |
| Proximity.GroupsIncreasing | backend/app.py:227-251 | Every group is non-empty and lists its members in increasing index order. |
| Proximity.SeedIsLeastUngrouped | backend/app.py:225-228 | Each group's first member is at most every index not in an earlier group. |
| Proximity.SeedsIncrease | backend/app.py:225-228 | Group seeds strictly increase from one group to the next. |
| Proximity.MembersNearSeed | backend/app.py:230-255 | Every group is non-empty. A seed without coordinates forms a singleton. Every other member has coordinates near the seed's. |
| Proximity.LaterMembersNotNear | backend/app.py:241-255 | A customer in a later group is not near the point of any earlier seed that had coordinates. |
| Proximity.SeedDistanceOnly | backend/app.py:248-252 | With 0 near 1, 1 near 2 and 0 not near 2, the groups are [[0, 1], [2]]: nearness does not chain. |
| Route.Select | backend/app.py:456 | The selection succeeds exactly when every id is an `iloc` position (negative ones count from the end), and it then holds the addressed rows in id order. |
| Route.AppendCustomerPoints | backend/app.py:468-472 | The loop appends the points of the customers that geocode, in input order. |
| Route.BuildWaypoints | backend/app.py:458-479 | The append sequence produces the waypoint specification: start error, then end error, else `[start]? ++ customer points ++ [end]?`. |
| Route.ProviderCall | backend/app.py:262-291 | No key, or fewer than two waypoints, gives `([], [])` without a call. An "OK" answer passes its order and legs through. An answer that is not "OK", or a request that raises, gives `([], [])`. |
| Route.ReorderStartEnd | backend/app.py:492-495 | With start and end and an in-range order, result k is `customers[order[k]]`. |
| Route.ReorderStartOnly | backend/app.py:498-504 | With only a start, the last customer stays last after the reordered others. |
| Route.ReorderEndOnly | backend/app.py:509-515 | With only an end, the first customer stays first, followed by the reordered others. |
| Route.ReorderNoAnchor | backend/app.py:520-526 | With neither anchor and more than two customers, the first and last stay in place around the reordered middle. |
| Route.ReorderFallbacks | backend/app.py:487-537 | An empty order, no customers, too few customers, or an out-of-range index gives the original customers, except that start+end with an out-of-range index gives `[]`. |
| Route.ReorderPermutes | backend/app.py:486-537 | When the provider's order is a permutation of the intermediate positions, the result is a permutation of the selected customers. |
| Route.OptimizeRoute | backend/app.py:444-547 | The endpoint's steps produce its answer: an error in the order the checks raise them, or the optimized customers, legs and waypoints. The errors are the 400 answers, plus `CustomerIdOutOfRange` for the `IndexError` that `iloc` raises on a bad id, which Flask turns into a 500. |
| Route.PrecheckFirst | backend/app.py:452-453 | No ids and no start postcode is refused, whatever the geocoder and the provider would answer. |
| Route.EndpointFailureAborts | backend/app.py:462-479 | A start postcode that fails to geocode aborts with its error. Otherwise an end postcode that fails aborts with its error. |
| Route.TooFewWaypoints | backend/app.py:481-482 | Fewer than two assembled waypoints is refused. |
| Route.SuccessShape | backend/app.py:458-547 | A success has at least two waypoints, with the start first and the end last, one per geocoded customer between them, and the customers reordered by the provider's answer. |
| Route.CustomerPointsAligned | backend/app.py:469-472 | When every selected customer geocodes, waypoint k after the start is customer k's point. |
| Route.CustomerPointsDrop | backend/app.py:469-472 | A customer that does not geocode leaves fewer waypoints than customers. |
| Route.ReorderIgnoresFailedGeocodes | backend/app.py:469-495 | Customers a, b, c, with b not geocoding and provider order [1, 0], come back as [b, a]: the order indexes customers, not waypoints. |
| Dates.AddDays | backend/app.py:213 | Adding n days gives a valid date whose ordinal is n more. |
| Dates.OrdinalOrder | backend/app.py:213 | Ordinals order dates exactly as the calendar does, and distinct dates have distinct ordinals. |
| Dates.IsoOrder | backend/app.py:561 | ISO texts compare as strings exactly as their dates compare. |
| Dates.IsoRoundTrip | backend/app.py:211-214 | `strptime(strftime(d, "%Y-%m-%d"), "%Y-%m-%d")` is d again. |
| DateParse.ParseDateToIso | backend/app.py:65-104 | The method returns the ISO text of the specified date reading, or None. |
| DateParse.FirstMatchFirst | backend/app.py:91-95 | There is no date exactly when no format reads the text. Otherwise the date comes from the first format that reads it. |
| DateParse.NullLikeIsNone | backend/app.py:75-88 | None, NaN, blank text and nan/none/null in any letter case give no date. |
| DateParse.IsoTextRoundTrip | backend/app.py:86-93 | ISO text is read back as the date it names. |
| DateParse.ParseIdempotent | backend/app.py:65-104 | Normalising an already normalised date changes nothing. |
| DateParse.DayFirst | backend/app.py:91-93 | `DD/MM/YYYY` is read day first, even where month first would also give a date. |
| DateParse.DashDayFirst | backend/app.py:91-93 | `DD-MM-YYYY` is read day first. |
| DateParse.MonthFirstFallback | backend/app.py:91-95 | A slash date whose middle number is above 12 falls through to `%m/%d/%Y`. |
| NextDue.Trunc | backend/app.py:212 | `int(x)` truncates toward zero. |
| NextDue.NextDueIsDaysLater | backend/app.py:202-216 | There is a due date exactly when the last visit is truthy and readable, the frequency is a number, and the sum stays in range. It is then the date that many days later. |
| NextDue.FrequencyOfText | backend/app.py:212 | A whole number of days as text, with or without ".0", reads as that number. |
| Flags.CoerceFlag | backend/app.py:157-166 | The coerced cell is the cell itself or a boolean. |
| Flags.FlagWordOfFlag | backend/app.py:157-159 | A boolean spells its own answer ("True"/"False" lower-cased). |
| Flags.CoerceFlagIdempotent | backend/app.py:157-166 | Coercing twice is coercing once. |
| Flags.EmptyCellsKept | backend/app.py:157-166 | NaN and None cells are kept. |
| Flags.IntegerFlags | backend/app.py:157-160 | The integers 1 and 0 become True and False. |
| Flags.FloatFlagsKept | backend/app.py:157-160 | The floats 1.0 and 0.0 are kept, because "1.0" and "0.0" are not among the words. |
| Values.StripPadded | backend/app.py:158 | `strip` returns the text between the white space at its two ends. |
| Flags.PaddedTextFlag | backend/app.py:157-160 | A text cell holding a yes-word in any ASCII letter case, with any white space around it, becomes True. A no-word becomes False. Any other text is kept unchanged. |
| Flags.PaddedYes | backend/app.py:157-160 | " Yes " becomes True. |
| Flags.CapitalNo | backend/app.py:157-160 | "NO" followed by a tab becomes False. |
| Flags.LetterYKept | backend/app.py:157-160 | "Y" is not one of the words and is kept. |
| Headers.Exact | backend/app.py:130-131 | Each column the map knows gets its target, and the others keep their names. |
| Headers.Rename | backend/app.py:139 | Every column with the given name is renamed, and the others are kept. |
| Headers.RenameAbsent | backend/app.py:139 | Renaming a name no column has changes nothing. |
| Headers.SoftRename | backend/app.py:135-139 | The soft loop is the in-order pass over the map's items, with `lower_map` fixed before the loop. |
| Headers.NormalizeHeaders | backend/app.py:127-139 | Cleaning, the exact rename and the soft rename give the specified header list. |
| Headers.TargetsSelfMapped | backend/app.py:43-62 | Every target name is a key that the map sends to itself. |
| Headers.TargetIsTarget | backend/app.py:43-62 | Whatever the map sends a name to is a target. |
| Headers.ExactIdempotent | backend/app.py:130-131 | Renaming exactly twice is renaming once. |
| Headers.SoftIndexSound | backend/app.py:135 | `lower_map` sends each soft key to a column that has that key. |
| Headers.SoftIndexLastWins | backend/app.py:135 | Each column's soft key maps to the last column that has it. |
| Headers.SoftPassKeepsTargets | backend/app.py:136-139 | The soft pass never renames a column that already carries a target. |
| Headers.NormalizeRecognised | backend/app.py:127-139 | A column whose cleaned name the map knows ends with that name's target. |
| Headers.NormalizeUnknown | backend/app.py:127-139 | A column matched neither exactly nor softly keeps its cleaned name. |
| Headers.SoftMatch | backend/app.py:133-139 | A lone header such as "Account Number" gets the target of its underscored soft key. |
| Headers.SoftMatchIn | backend/app.py:127-139 | In a table of any width, a column that the exact pass misses gets the target t of its soft key, under three conditions. It must be the last column with that soft key. No column may already be named t. No other column's soft key may be a name the map sends to t. |
| Records.GetOverdue | backend/app.py:557-562 | The loop collects, in table order, the rows whose next due date reads and sorts before today. |
| Records.OverdueMeansEarlier | backend/app.py:559-561 | The ISO string test holds exactly when the due date is a calendar day before today. |
| Records.OverdueRowsExact | backend/app.py:557-562 | The result holds the overdue rows of the table, and only those. |
| Records.EnsureColumns | backend/app.py:298-300 | The expected columns are all present afterwards, old cells are kept, and only missing expected columns are added, holding None. |
| Records.FillNextDue | backend/app.py:303-309 | The in-place loop leaves each row as the fill-in rule specifies. |
| Records.CustomersPayload | backend/app.py:294-309 | Each row gets the missing expected columns, then its missing due date. |
| Records.FillRowEffect | backend/app.py:303-309 | A present due date is kept. A row whose last visit or frequency is falsy is unchanged. Otherwise the missing due date becomes the ISO text `calculate_next_due_date` returns, or None when it fails. Other cells are untouched. |
| Records.FillRowIdempotent | backend/app.py:303-309 | Filling twice is filling once. |
| Records.Widen | backend/app.py:345-346 | Writing a new key into one row adds that column to every row, and existing cells are kept. |
| Records.UpdateCustomer | backend/app.py:344-352 | An id inside the table has the data written into its row and widens the other rows. Any other id changes nothing and is not found. |

## Left out

- Flask routing, JSON and HTTP status plumbing, CORS and `wsgi.py`. These are I/O with no rule
  of their own: an endpoint's answer is the `Result` the model returns.
- The Nominatim geocoder and the Google Directions request are network clients. They are the
  oracles `geocode` and `directions`. The URL and parameter building (lines 268-281) is not
  modelled.
- The `lru_cache` on `geocode_postcode` is not modelled. Its only effect on these rules is that
  one query always gets one answer, and the oracle, being a function, already gives that.
  Eviction after 1000 entries is not modelled.
- The geodesic distance and floating-point coordinates. `near` is abstract and a `Point` is
  never computed with.
- `datetime.now()`. Today's date is a parameter of the overdue filter.
- `print` logging of errors.
- pandas CSV reading and writing, `load_customers`, `save_customers`, `add_customer`,
  `import_customers`, `import_customers_raw`, `export_customers` and `create_groups`. These are
  file and frame I/O around the modelled rules.
- The date and numeric column conversions of `_normalize_import_df` (lines 141-153), with
  `pd.to_numeric` and `_sanitize_df_for_json`. These are library float behaviour.
- The re-normalisation of the whole table after `update_customer` writes its cells.
- The `(IndexError, TypeError)` handler of the reordering (lines 531-533). Orders are integer
  sequences and every index is checked before use, so the handler cannot fire in the model.
- DateParse.ParseDateToIso: the best-effort `pd.to_datetime` fallback (lines 97-104) is not
  modelled. Where none of the four formats reads the text, the model gives None, where pandas
  might still find a date.
- Dates.IsoRoundTrip: `%Y` is written zero-padded to four digits. Years below 1000 would not
  be padded by every C library.
- DateParse.FirstMatchFirst: `%d`, `%m` and `%Y` accept ASCII digits only. Python's regular
  expressions also accept other Unicode decimal digits.
- Values.Lower: `str.lower()` is modelled on ASCII letters only.
- NextDue.FrequencyOfText: `float()` is modelled on plain decimal text with an optional
  exponent. Underscores, "inf"/"nan" spellings and binary rounding of floats are not modelled;
  the decimal value is truncated exactly.
- Records.EnsureColumns: adding a column to the frame is modelled row by row. An empty table
  gains no column names, because the model has no separate list of column names.
