# Radar acquisition, Level II decoding, HVVP winds and the ASCII grid dump

This project models four parts of the vortex-tracking radar pipeline in Dafny
and proves properties of them:

- **The radar factory** (`radar_factory.dfy`, with `file_names.dfy`,
  `strings.dfy`, `timestamps.dfy` and `sequences.dfy`).
  - It keeps a FIFO queue of pending volume files and a registry, a map from
    path to "analysed", for the configured radar and format.
  - It scans a directory listing for files whose name-encoded time lies in
    the configured window. NCDC, NRL and Purdue file names each encode the
    time in their own way.
  - It hands out the next file to the decoder its format selects.
  - It prunes queued files that the analysis results already cover.
  - The Qt string, list and date helpers it relies on are modelled exactly
    where they matter: `split`, `replace`, `left`, `right`, `indexOf`,
    `removeAt`, `QDate::fromString` and `QTime::fromString`.
- **Level II decoding** (`level2.dfy`).
  - The byte decoders for reflectivity, velocity and spectrum width.
  - The byte-order swaps of the volume title and the radar data header
    (`swap2`, `swap4` and `swab`), on byte arrays.
  - How sweeps and rays are recorded as the volume is assembled.
- **HVVP winds** (`gauss_jordan.dfy`, `hvvp.dfy`, `hvvp_smooth.dfy`,
  `sorting.dfy`).
  - The Gauss-Jordan solver with full pivoting, on `array2`.
  - The per-layer logic of `findHVVPWinds`: the 6500-point threshold, the
    two-sigma outlier pass and refit, the Rankine-exponent gate and the
    30 m/s plausibility limits.
  - The inverse-variance mean of vm_sin, computed by a loop.
  - The search for the layer nearest 2 km.
  - The three-level median smoothers, with their bubble sorts, on arrays.
- **`AnalyticGrid::writeAsi`** (`analytic_grid.dfy`).
  - The 510-slot header: field names packed two characters to a slot, the
    fixed slots written after the field slots, and truncating spacing slots.
  - The header printed ten eight-wide fields to a line.
  - The per-level, per-azimuth, per-field data blocks, eight values to a line.

Stateful source is modelled as classes or array methods with `modifies`
clauses. Each is proved against a specification function:
`RadarFactory.Factory`, `LevelII.Volume`, `HvvpWinds.Hvvp`, the in-place
swaps, the Gauss-Jordan passes, the smoothers and the writers. Pure logic is
modelled as functions and lemmas.

The model makes these inputs parameters:

- the directory listing;
- the list of result times;
- the design matrix and the least-squares routine (`Solver`);
- the wind formulas (`derive`);
- the grid extents;
- the printed text of each data value (`cell`).

## Model

| member | source | states |
|---|---|---|
| RadarFactory.ParseFormat | Radar/RadarFactory.cpp:50-61 | the format is NCDC or LDM Level II exactly when the configured name is "NCDCLEVELII" or "LDMLEVELII"; DORADE and netCDF are never selected, and any other name leaves the factory unconfigured |
| RadarFactory.Factory.constructor | Radar/RadarFactory.cpp:18-69 | empty queue and registry; the window and format come from the configuration; "Data format not supported" is logged exactly when the name is not recognised |
| RadarFactory.Touch | Radar/RadarFactory.cpp:202 | reading the registry inserts the path if it is missing, and changes no path's analysed status |
| RadarFactory.NumProcessedMonotone | Radar/RadarFactory.cpp:426-435 | adding analysed paths never lowers getNumProcessed |
| RadarFactory.MarkNumProcessed | Radar/RadarFactory.cpp:91-106 | dequeuing raises the processed count by one exactly when the path was not yet analysed |
| RadarFactory.DirPrefix | Radar/RadarFactory.cpp:91 | a relative name is placed after the data directory and one '/', with "." for an empty directory and no second '/' after a directory ending in one |
| RadarFactory.FilePathInjective | Radar/RadarFactory.cpp:91 | two relative names with the same path in the data directory are the same name |
| RadarFactory.Factory.HasUnprocessedData | Radar/RadarFactory.cpp:154-303 | a non-empty queue answers true and changes nothing; otherwise the queue, registry and log become those of a rescan (ScanQueue, ScanRegistry, ScanMessages), and the answer is whether the queue is non-empty |
| RadarFactory.Factory.DropExtensions | Radar/RadarFactory.cpp:174-187 | the backward removal pass leaves exactly the names without an extension after their first '/', in their original order |
| RadarFactory.Factory.EnqueueInWindow | Radar/RadarFactory.cpp:190-207 | the forward pass enqueues, in listing order, the in-window names whose path is not analysed; it touches every in-window path and logs one mismatch per mismatching name |
| RadarFactory.Factory.EnqueueOne | Radar/RadarFactory.cpp:221-258 | one listed name: warn on a mismatch, and when in the window, enqueue it if it is unanalysed and touch its path |
| RadarFactory.ScanQueueMembers | Radar/RadarFactory.cpp:190-207 | a rescan enqueues a name exactly when it is listed, matches the radar name, passes the NCDC extension filter, lies in the window and is not analysed |
| RadarFactory.ScanQueueSorted | Radar/RadarFactory.cpp:168-207 | a rescan of a name-sorted listing gives a strictly sorted queue, so no file is queued twice |
| RadarFactory.ScanTouchIsTouchAll | Radar/RadarFactory.cpp:202-205 | a rescan's registry adds exactly the in-window paths as unanalysed keys and keeps every existing entry |
| RadarFactory.ScanKeepsNumProcessed | Radar/RadarFactory.cpp:154-303 | a rescan leaves getNumProcessed unchanged |
| RadarFactory.NoRequeueOnceAnalyzed | Radar/RadarFactory.cpp:202-205 | once a listed name's path is analysed, no later rescan enqueues it |
| RadarFactory.ModelRequeuedWhenRelative | Radar/RadarFactory.cpp:269-277 | the analytic configuration is looked up under its raw name but marked under its data-directory path, so a relative name is enqueued again after it has been dequeued |
| RadarFactory.Factory.GetUnprocessedData | Radar/RadarFactory.cpp:78-152 | an empty queue logs "no new data" and returns nothing; otherwise the head is dequeued, its path is marked analysed and it goes to its format's decoder, and "Problem with radar data Factory" is logged for a format without one |
| RadarFactory.Factory.UpdateDataQueue | Radar/RadarFactory.cpp:310-424 | with no results, or a format other than Level II, nothing changes; otherwise the queue keeps exactly the entries that are not pruned, in order, and the registry marks every covered in-window path |
| RadarFactory.Factory.PruneBackward | Radar/RadarFactory.cpp:315-404 | the back-to-front pass removes the pruned entries and marks the paths as the recursive PruneMarks does, with one mismatch warning per entry |
| RadarFactory.Factory.PruneOne | Radar/RadarFactory.cpp:318-351 | one queue entry: warn on a mismatch and, in the window, hand over to the results loop |
| RadarFactory.Factory.PruneEntry | Radar/RadarFactory.cpp:335-351 | when some result is within 30 s, or the last result is later, its path is marked analysed and the entry is removed unless the path was already analysed; otherwise nothing changes |
| RadarFactory.PruneMarksIsMarkAll | Radar/RadarFactory.cpp:338-349 | the registry after the backward pass is the old one with exactly the covered in-window paths marked analysed |
| RadarFactory.PruneOutcome | Radar/RadarFactory.cpp:332-351 | a queued file is removed exactly when it is in the window, covered by a result and unanalysed; every covered in-window file ends analysed |
| RadarFactory.PruneNeedsResults | Radar/RadarFactory.cpp:312-313 | an empty result list prunes nothing |
| RadarFactory.PruneRaisesNumProcessed | Radar/RadarFactory.cpp:341 | pruning never lowers getNumProcessed |
| RadarFactory.FilterSorted | Radar/RadarFactory.cpp:174-207 | the filtering passes keep a sorted listing sorted |
| RadarFactory.BackwardFilterStep | Radar/RadarFactory.cpp:174-187 | one step of removing entries in place from the back extends the filtered suffix by one entry |
| RadarFactory.EnqueueStep | Radar/RadarFactory.cpp:190-207 | one forward step extends the queue, the registry and the log by that name alone |
| RadarFactory.PathNotLater | Radar/RadarFactory.cpp:340 | in a sorted queue of relative names no later entry shares a path, so indexOf finds the entry being pruned |
| FileNames.NcdcNameTime | Radar/RadarFactory.cpp:192-198 | an NCDC name `ID` + yyyyMMdd + `_` + hhmmss reads back as exactly that date and time |
| FileNames.NcdcNameParsed | Radar/RadarFactory.cpp:192-198 | an NCDC name whose two fields parse reads back as that date-time |
| FileNames.NcdcText | Radar/RadarFactory.cpp:194-195 | removing the radar ID and splitting on '_' gives the date and time fields |
| FileNames.NrlNameTime | Radar/RadarFactory.cpp:228-232 | an NRL name reads back its date and time from the first eight and last six characters of the second '.' field, with no warning |
| FileNames.NrlNameParsed | Radar/RadarFactory.cpp:228-232 | an NRL name whose date and time parse reads back as that date-time |
| FileNames.NrlName | Radar/RadarFactory.cpp:229-232 | the NRL dialect reads Left(8) and Right(6) of the second field |
| FileNames.PurdueNameTime | Radar/RadarFactory.cpp:233-241 | a Purdue name `ID_yyyyMMdd_hhmm` reads back as its date and hhmm time, with no warning |
| FileNames.PurdueNameParsed | Radar/RadarFactory.cpp:233-241 | a Purdue name whose fields parse reads back as that date-time |
| FileNames.PurdueName | Radar/RadarFactory.cpp:223-241 | the name reads as the Purdue form of its stamp text |
| FileNames.PurdueNameWithoutTime | Radar/RadarFactory.cpp:233-244 | a Purdue name without a time field gives midnight of its date and the "may be a NCDC file" warning |
| FileNames.LdmTimepart | Radar/RadarFactory.cpp:223-225 | the text after the last '/' with the radar ID removed is the stamp text |
| FileNames.HmsTextParses | Radar/RadarFactory.cpp:197 | a valid hhmmss text reads back as the seconds it names |
| Strings.IndexOf | Radar/RadarFactory.cpp:178 | QString::indexOf finds the first occurrence, and gives the length when there is none |
| Strings.IndexOfFirst | Radar/RadarFactory.cpp:178 | no position before the found one holds the character |
| Strings.Split | Radar/RadarFactory.cpp:195 | QString::split gives one part exactly when the separator is absent |
| Strings.SplitParts | Radar/RadarFactory.cpp:195 | no part holds the separator |
| Strings.JoinSplit | Radar/RadarFactory.cpp:195 | joining the parts with the separator gives the text back |
| Strings.SplitFirst | Radar/RadarFactory.cpp:195 | the text before the first separator is the first part, and the rest is split on |
| Strings.Left | Radar/RadarFactory.cpp:231 | QString::left gives a prefix of min(n, length) characters |
| Strings.Right | Radar/RadarFactory.cpp:232 | QString::right gives the last min(n, length) characters |
| Strings.RemoveAll | Radar/RadarFactory.cpp:194 | replace(id, "") never lengthens the text |
| Strings.RemoveAllPrefix | Radar/RadarFactory.cpp:194 | a leading radar ID is stripped |
| Strings.RemoveAllAbsent | Radar/RadarFactory.cpp:194 | a text without the ID is unchanged |
| Strings.StrictlySortedDistinct | Radar/RadarFactory.cpp:168-171 | the entries of a name-sorted listing are distinct |
| Sequences.Filter | Radar/RadarFactory.cpp:174-187 | the survivors are exactly the elements satisfying the test, and no more of them than the input |
| Sequences.FilterAppend | Radar/RadarFactory.cpp:190-207 | filtering distributes over concatenation |
| Sequences.FilterKeepsOrder | Radar/RadarFactory.cpp:174-187 | filtering keeps every pair of survivors in the order they had |
| Sequences.RemoveAt | Radar/RadarFactory.cpp:340 | QList::removeAt keeps the elements before k and shifts the rest down by one |
| Sequences.IndexOfElement | Radar/RadarFactory.cpp:340 | QList::indexOf gives the first position of the element, or the length when it is absent |
| Timestamps.DigitsValue | Radar/RadarFactory.cpp:196 | a digit string of width w is below 10^w |
| Timestamps.Digits | Radar/RadarFactory.cpp:196 | zero padding writes exactly `width` digits |
| Timestamps.DigitsRoundTrip | Radar/RadarFactory.cpp:196 | a number read back from its zero-padded digits is the number |
| Timestamps.Field | Radar/RadarFactory.cpp:196 | a field parses exactly when it has the right width and only digits |
| Timestamps.ParseDate | Radar/RadarFactory.cpp:196 | "yyyyMMdd" parses only eight characters, into a valid calendar date |
| Timestamps.ParseFormatDate | Radar/RadarFactory.cpp:196 | every valid date with a four-digit year reads back from its yyyyMMdd text |
| Timestamps.FormatDateDigits | Radar/RadarFactory.cpp:196 | a formatted date is eight digits |
| Timestamps.ParseHms | Radar/RadarFactory.cpp:197 | "hhmmss" parses only six characters, into less than a day |
| Timestamps.ParseHmsDigits | Radar/RadarFactory.cpp:197 | a valid time of day reads back from its hhmmss text |
| Timestamps.ParseHmsFields | Radar/RadarFactory.cpp:197 | three in-range two-digit fields make a valid hhmmss text |
| Timestamps.ParseHm | Radar/RadarFactory.cpp:238 | "hhmm" parses only four characters, into a whole minute less than a day |
| Timestamps.ParseHmDigits | Radar/RadarFactory.cpp:238 | a valid hour and minute read back from their hhmm text |
| Timestamps.ParseHmFields | Radar/RadarFactory.cpp:238 | two in-range two-digit fields make a valid hhmm text |
| Timestamps.Combine | Radar/RadarFactory.cpp:196-198 | the date-time is valid exactly when the date parsed; it falls within that date's day, at the parsed time, or at midnight when the time did not parse |
| Timestamps.DateTimeChronological | Radar/RadarFactory.cpp:200 | date-times compare as their calendar fields do: year, then month, day and time of day |
| LevelII.RefValue | trunk/Radar/LevelII.cpp:100-119 | codes 0 and 1 are missing (-999); a code c >= 2 decodes in half-dBZ steps from -32 to 94.5 dBZ, and 2(v+32) = c-2 |
| LevelII.VelValue | trunk/Radar/LevelII.cpp:121-144 | codes 0 and 1 are missing; resolution 2 gives 0.5 m/s steps from -63.5, any other resolution 1 m/s steps from -127 |
| LevelII.SwValue | trunk/Radar/LevelII.cpp:146-164 | codes 0 and 1 are missing; otherwise 0.5 m/s steps from -63.5 to 63 |
| LevelII.DecodedHalfSteps | trunk/Radar/LevelII.cpp:100-164 | every decoded value is a multiple of one half |
| LevelII.DecodersIncreasing | trunk/Radar/LevelII.cpp:100-164 | among the codes >= 2, the higher code decodes to a strictly higher value |
| LevelII.DecodeRef | trunk/Radar/LevelII.cpp:100-119 | a fresh array of numGates values, where gate i is RefValue of byte i |
| LevelII.DecodeVel | trunk/Radar/LevelII.cpp:121-144 | a fresh array of numGates values, where gate i is VelValue of byte i at the given resolution |
| LevelII.DecodeSw | trunk/Radar/LevelII.cpp:146-164 | a fresh array of numGates values, where gate i is SwValue of byte i |
| LevelII.LittleEndianOfReverse | trunk/Radar/LevelII.cpp:251-271 | reversing the bytes turns a big-endian image into the little-endian image of the same number |
| LevelII.Swap2 | trunk/Radar/LevelII.cpp:251-259 | on a little-endian host the two bytes read as the big-endian 16-bit value |
| LevelII.Swap4 | trunk/Radar/LevelII.cpp:261-271 | on a little-endian host the four bytes read as the big-endian 32-bit value |
| LevelII.SwapsInvolutive | trunk/Radar/LevelII.cpp:251-271 | swapping twice gives the original bytes back |
| LevelII.Swab | trunk/Radar/LevelII.cpp:177-235 | swab keeps the length and exchanges each adjacent pair of bytes |
| LevelII.SwabAt | trunk/Radar/LevelII.cpp:177-235 | byte i of the swab'd run is its pair partner in the original |
| LevelII.SwabTwice | trunk/Radar/LevelII.cpp:177-235 | swab is its own inverse |
| LevelII.SwabTwoIsSwap2 | trunk/Radar/LevelII.cpp:177-235 | swab over two bytes is swap2 |
| LevelII.SwabFour | trunk/Radar/LevelII.cpp:166-173 | swab over four bytes keeps the halfwords in tape order, so the value reads as the first big-endian halfword plus 65536 times the second |
| LevelII.SwabFourIsNotSwap4 | trunk/Radar/LevelII.cpp:166-173 | the big-endian bytes of 1 show that swab over four bytes differs from swap4 |
| LevelII.SwabInPlace | trunk/Radar/LevelII.cpp:177-235 | swab on an array: the run becomes Swab of the old run, and every byte outside it is unchanged |
| LevelII.SwabbedRun | trunk/Radar/LevelII.cpp:177-235 | a run whose pairs are all exchanged, with nothing else changed, is Swab of the old run |
| LevelII.RadarHeaderFields | trunk/Radar/LevelII.cpp:175-236 | after the swap each listed halfword reads as its big-endian tape value, the milliseconds read as their 32-bit value, and the unlisted halfwords 31-32 and 38-41 are untouched |
| LevelII.RadarHalfwordField | trunk/Radar/LevelII.cpp:180-235 | one listed halfword of the swapped header reads as its big-endian value |
| LevelII.RadarMillisecondsField | trunk/Radar/LevelII.cpp:178-179 | the milliseconds of the swapped header read as their 32-bit big-endian value |
| LevelII.SwappedRadarHeaderTwice | trunk/Radar/LevelII.cpp:175-236 | swapping the header twice restores it |
| LevelII.SwabHalfword | trunk/Radar/LevelII.cpp:180-181 | one swab call exchanges exactly the two bytes of halfword n |
| LevelII.SetSwap4 | trunk/Radar/LevelII.cpp:178-179 | the first four bytes are replaced by swap4 of themselves and the rest is unchanged |
| LevelII.SwapRadarHeader | trunk/Radar/LevelII.cpp:175-236 | the array afterwards is SwappedRadarHeader of the old header |
| LevelII.SwappedVolTitle | trunk/Radar/LevelII.cpp:166-173 | only the date and time fields of the volume title change |
| LevelII.VolTitleFields | trunk/Radar/LevelII.cpp:166-173 | after swapVolHeader the date and time each read as the first halfword's value plus 65536 times the second's |
| LevelII.SwapVolHeader | trunk/Radar/LevelII.cpp:166-173 | the array afterwards is SwappedVolTitle of the old title |
| LevelII.TruncDiv | trunk/Radar/LevelII.cpp:59 | C's integer division truncates toward zero and agrees with Euclidean division for non-negative operands |
| LevelII.NyquistAgreement | trunk/Radar/LevelII.cpp:59 | a sweep and a ray from one header agree on the Nyquist velocity exactly when it is a whole number of m/s; otherwise the sweep's is below by less than 1 m/s |
| LevelII.Volume.constructor | trunk/Radar/LevelII.cpp:14-27 | an empty volume with no sweeps and no rays |
| LevelII.Volume.AddSweep | trunk/Radar/LevelII.cpp:48-69 | counts the sweep, numbers it from 1, starts it at the next ray, records the header's geometry and changes nothing else |
| LevelII.Volume.AddRay | trunk/Radar/LevelII.cpp:71-98 | counts the ray, records it under the latest sweep with the header's fields and the current gate data, and changes nothing else |
| LevelII.RayInItsSweep | trunk/Radar/LevelII.cpp:54-55 | each ray lies between its sweep's first ray and the next sweep's first ray |
| GaussJordan.SelectPivot | trunk/HVVP/Hvvp.cpp:299-312 | the chosen entry is unpivoted in row and column, has the greatest magnitude among the candidates, and every later candidate in row-major order is strictly smaller |
| GaussJordan.ScanRow | trunk/HVVP/Hvvp.cpp:302-310 | the entry found so far is kept, or replaced by the candidate of row j that is last among those of greatest magnitude in the row and at least as large; every candidate of the row is no larger, and every later one strictly smaller |
| GaussJordan.SwapRows | trunk/HVVP/Hvvp.cpp:314-325 | a and b become their old values with rows r1 and r2 exchanged |
| GaussJordan.ExchangeRows | trunk/HVVP/Hvvp.cpp:315-319 | the array becomes its old value with rows r1 and r2 exchanged |
| GaussJordan.ScalePivotRow | trunk/HVVP/Hvvp.cpp:331-338 | a becomes its old value with the pivot set to 1 and then its row multiplied by pivinv; b has that row multiplied by pivinv |
| GaussJordan.ScaleRow | trunk/HVVP/Hvvp.cpp:333-335 | the array becomes its old value with row r multiplied by s |
| GaussJordan.EliminateRow | trunk/HVVP/Hvvp.cpp:341-348 | row ll of a, with its pivot-column entry first set to 0, and row ll of b each lose the old a[ll, icol] times the pivot row |
| GaussJordan.SubtractRow | trunk/HVVP/Hvvp.cpp:343-345 | the array becomes its old value with row ll less t times row icol |
| GaussJordan.EliminateColumn | trunk/HVVP/Hvvp.cpp:339-350 | every row but the pivot row of a and b loses its old pivot-column entry times the pivot row, and the pivot row is unchanged |
| GaussJordan.EliminationStep | trunk/HVVP/Hvvp.cpp:339-350 | reducing row ll after rows 0 to ll - 1 gives the matrix with rows 0 to ll reduced |
| GaussJordan.SwapColumns | trunk/HVVP/Hvvp.cpp:353-359 | a becomes its old value with columns c1 and c2 exchanged |
| GaussJordan.UnpivotedExists | trunk/HVVP/Hvvp.cpp:298-313 | before pass n an unpivoted column remains, so the pivot search always finds one |
| GaussJordan.AllPivoted | trunk/HVVP/Hvvp.cpp:298-351 | n distinct pivot columns are all the columns |
| GaussJordan.PlacePivot | trunk/HVVP/Hvvp.cpp:299-325 | the chosen entry follows the pivot rule on the old a, its column is now marked in ipiv, and rows irow and icol of a and b are exchanged |
| GaussJordan.Step | trunk/HVVP/Hvvp.cpp:298-350 | a and b end as one pass of the pivot rule leaves them: the pivot is the old a[irow, icol]; with a zero pivot only the row exchange happened, otherwise the pivot row is scaled and the column eliminated |
| GaussJordan.Reduce | trunk/HVVP/Hvvp.cpp:331-350 | a and b end scaled by 1 / pivot in the pivot row and eliminated in the pivot column |
| GaussJordan.Eliminate | trunk/HVVP/Hvvp.cpp:298-351 | the passes form a whole elimination from the old a and b, stopping at the first zero pivot; a and b end as the last pass left them, and on success indxr and indxc hold every pass's row and column |
| GaussJordan.RecordedStep | trunk/HVVP/Hvvp.cpp:298-327 | the pass extends the trace and records its row and column in indxr[i] and indxc[i] |
| GaussJordan.TraceExtend | trunk/HVVP/Hvvp.cpp:298-351 | appending a pass that follows the pivot rule from the last matrices keeps a trace |
| GaussJordan.Unscramble | trunk/HVVP/Hvvp.cpp:352-360 | a becomes its old value with the recorded column exchanges undone, last first |
| GaussJordan.UnscrambleStep | trunk/HVVP/Hvvp.cpp:352-360 | undoing exchanges 0 to l is undoing exchange l, then 0 to l - 1 |
| GaussJordan.GaussJordan | trunk/HVVP/Hvvp.cpp:277-364 | the passes form a whole elimination of the old a and b; it succeeds exactly when n non-zero pivots were found; success leaves a as the last matrix unscrambled and b as the last; failure leaves a and b as the failing pass left them, with every unpivoted entry 0 before that pass; the identity succeeds with a and b unchanged |
| GaussJordan.PivotChoiceUnique | trunk/HVVP/Hvvp.cpp:299-312 | the pivot rule picks a single entry |
| GaussJordan.ZeroPivotLeavesZeros | trunk/HVVP/Hvvp.cpp:328-330 | when the elimination stops at a zero pivot, every unpivoted entry before that pass was 0 |
| GaussJordan.PassUnique | trunk/HVVP/Hvvp.cpp:298-350 | a pass is determined by the matrices before it and the columns already pivoted |
| GaussJordan.RunUnique | trunk/HVVP/Hvvp.cpp:298-351 | the whole elimination is determined by the matrices it starts from |
| GaussJordan.IdentityChoice | trunk/HVVP/Hvvp.cpp:299-312 | on the identity, after p passes, the pivot rule takes the diagonal entry n - 1 - p |
| GaussJordan.IdentityReduced | trunk/HVVP/Hvvp.cpp:331-350 | on the identity, scaling by 1 and eliminating change neither a nor b |
| GaussJordan.IdentityPass | trunk/HVVP/Hvvp.cpp:298-350 | a pass over the identity pivots on a diagonal 1 and changes neither a nor b |
| GaussJordan.IdentityRun | trunk/HVVP/Hvvp.cpp:298-351 | the elimination of the identity takes the diagonal from the last row up, with every pivot 1 and no change to a or b |
| GaussJordan.UnscrambledSame | trunk/HVVP/Hvvp.cpp:352-360 | when every recorded row equals its column, unscrambling changes nothing |
| HvvpWinds.RotateAzimuth | trunk/HVVP/Hvvp.cpp:85-94 | the azimuth minus cca, lifted by one turn when negative; angles in [0, 360) stay in [0, 360) |
| HvvpWinds.RotateAzimuthBack | trunk/HVVP/Hvvp.cpp:85-94 | rotating by cca and then by 360 - cca gives the azimuth back |
| HvvpWinds.LayerHeight | trunk/HVVP/Hvvp.cpp:403-404 | the fourteen layer centres lie from 0.6 km to 1.9 km |
| HvvpWinds.RankineXtNegative | trunk/HVVP/Hvvp.cpp:639-654 | xt is negative exactly for vr > 0 with xr > 1, or for vr <= 0 with xr < -1 |
| HvvpWinds.Screened | trunk/HVVP/Hvvp.cpp:524-538 | after the outlier pass a point is missing exactly when it lies more than 2 sse from the fit; every other point keeps its velocity |
| HvvpWinds.NumGoodBound | trunk/HVVP/Hvvp.cpp:524-538 | cgood is at most count, and is below count exactly when an outlier was found |
| HvvpWinds.Kept | trunk/HVVP/Hvvp.cpp:556-572 | the surviving indices are exactly the measured points, in increasing order |
| HvvpWinds.KeptCountsGood | trunk/HVVP/Hvvp.cpp:552-571 | qc_count equals cgood |
| HvvpWinds.KeptAll | trunk/HVVP/Hvvp.cpp:556-572 | without outliers every point survives in its own place |
| HvvpWinds.KeptValues | trunk/HVVP/Hvvp.cpp:565 | the compacted velocities are the velocities at the kept indices |
| HvvpWinds.KeptRows | trunk/HVVP/Hvvp.cpp:567-569 | the compacted design matrix is the design matrix at the kept columns |
| HvvpWinds.LayerResultGated | trunk/HVVP/Hvvp.cpp:500-725 | u and v are both missing or both within 30 m/s; a missing u means a missing vm_sin; with fewer than 6500 points the layer is missing and its var is left alone |
| HvvpWinds.AcceptedExponent | trunk/HVVP/Hvvp.cpp:697-709 | accepted winds come from a non-negative xt and keep their vm_sin |
| HvvpWinds.WeightSign | trunk/HVVP/Hvvp.cpp:776-781 | a layer with u present and var non-zero has a positive weight; the others have none |
| HvvpWinds.TermBounds | trunk/HVVP/Hvvp.cpp:779 | a layer's weighted term lies between its weight times the bounds of its vm_sin |
| HvvpWinds.Squared | trunk/HVVP/Hvvp.cpp:777 | var is squared exactly in the qualifying layers and unchanged elsewhere |
| HvvpWinds.AverageStep | trunk/HVVP/Hvvp.cpp:776-781 | one loop iteration adds the layer's weight and weighted vm_sin to the sums |
| HvvpWinds.SquaredPointwise | trunk/HVVP/Hvvp.cpp:777 | a profile that agrees with var squared at every layer is Squared |
| HvvpWinds.SumWPositive | trunk/HVVP/Hvvp.cpp:778 | sumwgt is non-negative, and positive exactly when some layer qualifies |
| HvvpWinds.SumWXBounds | trunk/HVVP/Hvvp.cpp:779 | the weighted sum lies between the least and the greatest qualifying vm_sin, times sumwgt |
| HvvpWinds.MeanBetween | trunk/HVVP/Hvvp.cpp:770-796 | av_VmSin is the missing marker exactly when no layer qualifies, and otherwise lies between the least and the greatest qualifying vm_sin |
| HvvpWinds.EstimateAt | trunk/HVVP/Hvvp.cpp:527-530 | vr_est is the dot product of the coefficients with column n |
| HvvpWinds.ZeroColumn | trunk/HVVP/Hvvp.cpp:560-562 | clears column n of the compacted matrix and nothing else |
| HvvpWinds.CopyColumn | trunk/HVVP/Hvvp.cpp:567-569 | copies column n into column k and nothing else |
| HvvpWinds.CompactStep | trunk/HVVP/Hvvp.cpp:556-571 | one point clears slot n and appends the point if it survived |
| HvvpWinds.CompactedRows | trunk/HVVP/Hvvp.cpp:556-572 | the compacted buffers read back as the design matrix at the kept indices |
| HvvpWinds.CompactedValues | trunk/HVVP/Hvvp.cpp:556-572 | the compacted velocities read back as the velocities at the kept indices |
| HvvpWinds.SquaredCandidates | trunk/HVVP/Hvvp.cpp:776-801 | after the mean, a layer takes part in the nearest-2 km search exactly when its u is present |
| HvvpWinds.NearestAboveLowest | trunk/HVVP/Hvvp.cpp:799-810 | the nearest candidate is above the lowest layer exactly when some layer above the lowest is a candidate |
| HvvpWinds.Hvvp.constructor | trunk/HVVP/Hvvp.cpp:26-58 | every per-layer value starts missing |
| HvvpWinds.Hvvp.Prep | trunk/HVVP/Hvvp.cpp:395-404 | sets z[m] to the layer height; the buffer holds the layer's velocities followed by zeros; returns the point count |
| HvvpWinds.Hvvp.ScreenOutliers | trunk/HVVP/Hvvp.cpp:523-538 | yls becomes Screened; outlier is set exactly when an outlier exists; cgood is NumGood |
| HvvpWinds.Hvvp.Compact | trunk/HVVP/Hvvp.cpp:545-572 | fresh buffers hold the kept points in order, with every slot behind them cleared |
| HvvpWinds.Hvvp.ScreenAndRefit | trunk/HVVP/Hvvp.cpp:523-592 | the fit used is FinalFit: the first fit, or the refit of the survivors when there are outliers and at least 6500 good points |
| HvvpWinds.Hvvp.SolveLayer | trunk/HVVP/Hvvp.cpp:486-725 | layer m's u, v, vm_sin and var become LayerResult, and z[m] its height |
| HvvpWinds.Hvvp.SolveLayers | trunk/HVVP/Hvvp.cpp:486-728 | every layer holds its LayerResult and its height; returns the last layer's count |
| HvvpWinds.Hvvp.AverageVmSin | trunk/HVVP/Hvvp.cpp:770-796 | var becomes Squared, and av_VmSin the inverse-variance mean of vm_sin |
| HvvpWinds.Hvvp.NearestTo2Km | trunk/HVVP/Hvvp.cpp:799-807 | the candidate layer nearest 2 km, the lowest one on ties, or layer 0 when there is no candidate |
| HvvpWinds.Hvvp.FindHvvpWinds | trunk/HVVP/Hvvp.cpp:474-870 | the result is true exactly when a layer above the lowest has winds; av_VmSin is the mean over the layers' outcomes; u, v, vm_sin and var are smoothed exactly when the result is true and the last layer had more than four points |
| HvvpSmooth.ValuesInMembers | trunk/HVVP/Hvvp.cpp:900-906 | a value is gathered exactly when some level of the window holds it and it is not missing |
| HvvpSmooth.WindowHasLevel | trunk/HVVP/Hvvp.cpp:890-906 | a level that is not missing is in its own window, so the window is never empty |
| HvvpSmooth.SmoothFromKeepsPrefix | trunk/HVVP/Hvvp.cpp:889 | levels already visited are not visited again |
| HvvpSmooth.SmoothFromEntry | trunk/HVVP/Hvvp.cpp:889-932 | at its visit, the levels below a level hold their smoothed values and those above it their original ones |
| HvvpSmooth.SmoothedLevel | trunk/HVVP/Hvvp.cpp:883-934 | a level at or below -90 keeps its value; a higher one becomes the median of its window's values as they stand at its visit |
| HvvpSmooth.SmoothedWithinWindow | trunk/HVVP/Hvvp.cpp:907-930 | a smoothed level lies between the least and the greatest value of its window |
| HvvpSmooth.PairWindowEntries | trunk/HVVP/Hvvp.cpp:955-961 | each gathered pair is the (vm_sin, var) of one level of the window |
| HvvpSmooth.PairWindowKeys | trunk/HVVP/Hvvp.cpp:955-961 | the gathered vm_sin values are the single-profile window |
| HvvpSmooth.PairWindowNonEmpty | trunk/HVVP/Hvvp.cpp:944-961 | the window of a level above -90 holds at least that level's pair |
| HvvpSmooth.SmoothPairsFirst | trunk/HVVP/Hvvp.cpp:936-1002 | the vm_sin profile is smoothed exactly as smoothHvvp smooths a profile |
| HvvpSmooth.SmoothPairsKeepsInvalid | trunk/HVVP/Hvvp.cpp:944 | a level at or below -90 keeps both its vm_sin and its var |
| HvvpSmooth.SmoothedPairIsAPair | trunk/HVVP/Hvvp.cpp:962-982 | with an odd window the smoothed vm_sin and var come from one level's pair |
| HvvpSmooth.BubblePass | trunk/HVVP/Hvvp.cpp:910-916 | one inner pass moves the largest of the first k+1 values to place k and keeps the multiset |
| HvvpSmooth.BubbleStep | trunk/HVVP/Hvvp.cpp:911-915 | one comparison leaves the larger neighbour at w+1 |
| HvvpSmooth.BubbleSort | trunk/HVVP/Hvvp.cpp:909-916 | the first n values become SortReals of the values before (their sorted permutation), and the rest of the array is unchanged |
| HvvpSmooth.BubblePassPairs | trunk/HVVP/Hvvp.cpp:965-977 | one inner pass over pairs, exchanging only unequal neighbours |
| HvvpSmooth.BubbleStepPairs | trunk/HVVP/Hvvp.cpp:966-976 | one comparison moves the pair with the larger key to w+1, keeping each var with its vm_sin |
| HvvpSmooth.BubbleSortPairs | trunk/HVVP/Hvvp.cpp:964-977 | the pairs end ordered by vm_sin and then by level, each var moving with its vm_sin |
| HvvpSmooth.CollectValues | trunk/HVVP/Hvvp.cpp:900-906 | temp holds the window's non-missing values, bottom up |
| HvvpSmooth.CollectPairs | trunk/HVVP/Hvvp.cpp:954-961 | temp1 and temp2 hold the window's pairs whose vm_sin is not missing, bottom up |
| HvvpSmooth.MiddleOf | trunk/HVVP/Hvvp.cpp:917-923 | the middle value, or the mean of the two middle values, is the Median of the sorted values |
| HvvpSmooth.SortedWindow | trunk/HVVP/Hvvp.cpp:891-916 | temp holds the window's values in ascending order |
| HvvpSmooth.SortValues | trunk/HVVP/Hvvp.cpp:907-927 | more than one value is sorted, and a single value is kept |
| HvvpSmooth.SmoothLevel | trunk/HVVP/Hvvp.cpp:890-931 | the array becomes SmoothAt of the old profile at level i |
| HvvpSmooth.SmoothHvvp | trunk/HVVP/Hvvp.cpp:883-934 | the array becomes Smooth of the old profile |
| HvvpSmooth.SortedPairWindow | trunk/HVVP/Hvvp.cpp:945-977 | the window's pairs, gathered and ordered by vm_sin and level |
| HvvpSmooth.SortPairs | trunk/HVVP/Hvvp.cpp:962-992 | more than one pair is sorted, and a single pair is kept |
| HvvpSmooth.SmoothPairLevel | trunk/HVVP/Hvvp.cpp:944-998 | both arrays become SmoothPairAt of the old profiles at level i |
| HvvpSmooth.SmoothHvvpVmSin | trunk/HVVP/Hvvp.cpp:936-1002 | both arrays become SmoothPairs of the old profiles |
| Sorting.InsertRealSorted | trunk/HVVP/Hvvp.cpp:909-916 | inserting into a sorted sequence keeps it sorted and adds exactly that number |
| Sorting.SortRealsSorted | trunk/HVVP/Hvvp.cpp:909-916 | the sort reference yields a sorted permutation of its input |
| Sorting.SortedUnique | trunk/HVVP/Hvvp.cpp:909-916 | a sorted permutation is unique, so the bubble sort agrees with the reference |
| Sorting.MedianBounds | trunk/HVVP/Hvvp.cpp:917-923 | the median lies between the least and the greatest value |
| Sorting.InsertLexSorted | trunk/HVVP/Hvvp.cpp:964-977 | inserting a pair of a new level keeps the key-and-level order and adds exactly that pair |
| Sorting.SortLexSorted | trunk/HVVP/Hvvp.cpp:964-977 | sorting pairs from distinct levels yields an ordered permutation |
| Sorting.LexSortedUnique | trunk/HVVP/Hvvp.cpp:964-977 | an ordered arrangement of given pairs is unique |
| Sorting.KeysOfSortLex | trunk/HVVP/Hvvp.cpp:964-977 | the vm_sin values of the sorted pairs are the vm_sin values sorted on their own |
| AnalyticGrid.CharCode | trunk/DataObjects/AnalyticGrid.cpp:306-309 | a missing character reads as the terminating 0, and any other as its ASCII code |
| AnalyticGrid.NameCodeUnpacks | trunk/DataObjects/AnalyticGrid.cpp:310 | the packed slot is below 32768 and gives back both characters as its quotient and remainder by 256 |
| AnalyticGrid.Trunc | trunk/DataObjects/AnalyticGrid.cpp:343-368 | C's float-to-int conversion truncates toward zero |
| AnalyticGrid.SpacingSlotTruncates | trunk/DataObjects/AnalyticGrid.cpp:346 | a spacing slot is a multiple of 1000, a spacing under 1 km is written as 0, and the slot is within 1000 below the spacing in metres |
| AnalyticGrid.Initial | trunk/DataObjects/AnalyticGrid.cpp:298-301 | every slot starts at -999 |
| AnalyticGrid.WithFieldSlot | trunk/DataObjects/AnalyticGrid.cpp:310-314 | writing field n changes exactly its five slots |
| AnalyticGrid.FieldsUpToField | trunk/DataObjects/AnalyticGrid.cpp:305-315 | field n's slots hold its packed name, three pairs of blanks (8224) and a 1 |
| AnalyticGrid.FieldsUpToOther | trunk/DataObjects/AnalyticGrid.cpp:304-315 | outside the field slots, slot 175 holds the field count and every other slot -999 |
| AnalyticGrid.HeaderFieldCount | trunk/DataObjects/AnalyticGrid.cpp:304 | slot 175 holds the number of fields |
| AnalyticGrid.HeaderFieldSlots | trunk/DataObjects/AnalyticGrid.cpp:305-369 | field slots keep their values except where a fixed slot written later falls among them |
| AnalyticGrid.FewFieldsNotOverwritten | trunk/DataObjects/AnalyticGrid.cpp:305-369 | with at most 25 fields no fixed slot overlaps a field slot |
| AnalyticGrid.ManyFieldsOverwritten | trunk/DataObjects/AnalyticGrid.cpp:364 | with 26 fields or more, slot 303 of field 25 holds the radar count 1 instead of blanks |
| AnalyticGrid.HeaderUnassigned | trunk/DataObjects/AnalyticGrid.cpp:298-369 | every slot that is not fixed, the count or a field slot stays -999 |
| AnalyticGrid.HeaderFixedSlots | trunk/DataObjects/AnalyticGrid.cpp:318-369 | the file kind, zero position, scale factors, dimensions, truncated spacings, axis numbers, radar count and centre index are in their slots |
| AnalyticGrid.UnsignedDigits | trunk/DataObjects/AnalyticGrid.cpp:385 | the decimal form is the number written in exactly as many digits as it has |
| AnalyticGrid.ParseDecimal | trunk/DataObjects/AnalyticGrid.cpp:385 | a printed integer reads back as itself |
| AnalyticGrid.PadLeftShape | trunk/DataObjects/AnalyticGrid.cpp:385 | the padded text is blanks followed by the text itself |
| AnalyticGrid.FitsEight | trunk/DataObjects/AnalyticGrid.cpp:385 | every value from -9999999 to 99999999 fills exactly eight columns |
| AnalyticGrid.FieldTextParses | trunk/DataObjects/AnalyticGrid.cpp:385 | a field with its blanks dropped reads back as its number |
| AnalyticGrid.BreakLines | trunk/DataObjects/AnalyticGrid.cpp:387 | a padded line break is one line break, at its end |
| AnalyticGrid.RenderAt | trunk/DataObjects/AnalyticGrid.cpp:385 | field k of the rendered header is slot k, eight wide |
| AnalyticGrid.RenderEightWide | trunk/DataObjects/AnalyticGrid.cpp:385 | slots that fit are written exactly eight wide |
| AnalyticGrid.HeaderField | trunk/DataObjects/AnalyticGrid.cpp:383-390 | slot k is written at offset 8k plus 8 for every completed line |
| AnalyticGrid.HeaderBreak | trunk/DataObjects/AnalyticGrid.cpp:386-388 | line l of the header ends at 88l + 87 with its break |
| AnalyticGrid.HeaderReadsBack | trunk/DataObjects/AnalyticGrid.cpp:382-390 | every slot that fits reads back from its place in the header text |
| AnalyticGrid.HeaderLines | trunk/DataObjects/AnalyticGrid.cpp:382-390 | the header takes one line per ten slots |
| AnalyticGrid.HeaderTextLines | trunk/DataObjects/AnalyticGrid.cpp:382-390 | the 510 slots take 51 lines |
| AnalyticGrid.BlockLines | trunk/DataObjects/AnalyticGrid.cpp:401-412 | a block of n values takes ceil(n/8) lines and, unless it is empty, ends with a break |
| AnalyticGrid.CellsAt | trunk/DataObjects/AnalyticGrid.cpp:403 | value i of the row is the cell of field n at column i and row j |
| AnalyticGrid.AzimuthLine | trunk/DataObjects/AnalyticGrid.cpp:397 | an azimuth number line adds one line |
| AnalyticGrid.LevelLine | trunk/DataObjects/AnalyticGrid.cpp:395 | a level number line adds one line |
| AnalyticGrid.NameLine | trunk/DataObjects/AnalyticGrid.cpp:400 | a field name line adds one line |
| AnalyticGrid.FieldsStep | trunk/DataObjects/AnalyticGrid.cpp:399-413 | one field adds its name line and its block's lines |
| AnalyticGrid.RowFieldsLines | trunk/DataObjects/AnalyticGrid.cpp:399-413 | an azimuth row's field blocks take RowHeight lines |
| AnalyticGrid.RowsStep | trunk/DataObjects/AnalyticGrid.cpp:396-414 | one azimuth row adds its number line and its field lines |
| AnalyticGrid.LevelsStep | trunk/DataObjects/AnalyticGrid.cpp:394-415 | one level adds its number line and its rows' lines |
| AnalyticGrid.LevelsCount | trunk/DataObjects/AnalyticGrid.cpp:394-415 | the levels take a number line plus h lines each |
| AnalyticGrid.LevelRowsLines | trunk/DataObjects/AnalyticGrid.cpp:396-414 | one level's rows take LevelHeight lines |
| AnalyticGrid.DataLines | trunk/DataObjects/AnalyticGrid.cpp:393-415 | the data takes a number line plus LevelHeight lines per level |
| AnalyticGrid.FileLinesCount | trunk/DataObjects/AnalyticGrid.cpp:382-415 | the file is the header's 51 lines plus the data lines |
| AnalyticGrid.FileLines | trunk/DataObjects/AnalyticGrid.cpp:382-415 | the whole file is 51 header lines, then per level a number line and its rows, in closed form |
| AnalyticGrid.BuildHeader | trunk/DataObjects/AnalyticGrid.cpp:298-369 | a fresh 511-slot array whose slots 1 to 510 are Header(g) |
| AnalyticGrid.WriteField | trunk/DataObjects/AnalyticGrid.cpp:306-314 | writes field n's five slots and nothing else |
| AnalyticGrid.WriteIdentity | trunk/DataObjects/AnalyticGrid.cpp:318-340 | writes the file kind, the zero position and the scale factors, and nothing else |
| AnalyticGrid.WriteAxis | trunk/DataObjects/AnalyticGrid.cpp:343-347 | writes one axis's extents, dimension, truncated spacing and number, and nothing else |
| AnalyticGrid.WriteAxes | trunk/DataObjects/AnalyticGrid.cpp:342-361 | writes slots 160 to 174 as AxisValues, and nothing else |
| AnalyticGrid.WriteCentre | trunk/DataObjects/AnalyticGrid.cpp:363-369 | writes the radar count and the centre index, and nothing else |
| AnalyticGrid.WriteHeader | trunk/DataObjects/AnalyticGrid.cpp:382-390 | the text is slots 1 to 510 eight wide, ten to a line |
| AnalyticGrid.WriteSlot | trunk/DataObjects/AnalyticGrid.cpp:384-389 | appends slot n and, at the tenth of its line, the break, keeping the counter in step |
| AnalyticGrid.WriteBlock | trunk/DataObjects/AnalyticGrid.cpp:401-412 | the text is field n's row of cells, eight to a line, ending with a break |
| AnalyticGrid.WriteFields | trunk/DataObjects/AnalyticGrid.cpp:399-413 | the text is every field's name line and block for row j |
| AnalyticGrid.WriteRows | trunk/DataObjects/AnalyticGrid.cpp:396-414 | the text is every azimuth row of one level |
| AnalyticGrid.WriteLevels | trunk/DataObjects/AnalyticGrid.cpp:393-415 | the text is every level's number line and rows |
| AnalyticGrid.WriteAsi | trunk/DataObjects/AnalyticGrid.cpp:293-417 | the text written is AsiText: the header, then the data |

## Left out

- Network fetching, the catalog download and the file-size poll of the radar
  factory are not modelled. The directory listing is an input, taken sorted by
  name with relative names, as QDir lists them.
- The construction of radar objects is not modelled. A dequeued file is
  represented by the decoder its format selects.
- Reading the configuration (the XML lookup, latitude, longitude and
  altitude) is not modelled. The start and end times enter as seconds since
  0001-01-01 UTC.
- Comparisons with an invalid QDateTime are not modelled. A file whose name
  gives no valid date is treated as outside the window.
- The NCDC branch reads the second '_' field of a name that may have only
  one. Such a name is modelled as giving no time.
- RadarFactory.Factory.HasUnprocessedData: requires a strictly name-sorted
  listing of relative names. The source scans whatever listing QDir returns,
  and sorted relative names are QDir's behaviour.
- RadarFactory.Factory.GetUnprocessedData: returns the decoder choice, not a
  read volume. Reading the volume from disk is I/O.
- readVolume and the Level II record reader are not modelled. They are file
  I/O; the header fields and gate data they fill in are inputs of
  LevelII.Volume.
- machineBigEndian is not modelled. The model assumes a little-endian host,
  the case in which the swaps run.
- LevelII.Swap4: models a 4-byte long. On hosts where `long` is 8 bytes the
  union's upper bytes are indeterminate.
- LevelII decoders: the float results are modelled as exact reals. Every
  value is a multiple of one half, so the float computation is exact.
- hvvpPrep's geometry is not modelled: beam heights, sines, cosines and the
  filling of the design matrix. Each layer's design matrix and velocities
  are an input (`Layer`).
- Matrix::lls, the least-squares routine findHVVPWinds calls, is a parameter
  (`Solver`). Its internals are not part of this model.
- The wind formulas (square roots, sines and cosines, lines 610-691) are a
  parameter (`derive`). Only the gating of their results is modelled.
- HvvpWinds.Hvvp.FindHvvpWinds: the log text and its printing are not
  modelled. They are output only.
- GaussJordan.GaussJordan: states every pass exactly (the pivot rule, the row
  exchange, the scaling and the elimination, as `Pass`), the final a and b,
  the meaning of failure and the identity case. It does not prove that a
  ends as the inverse and b as the solution: that needs real-number matrix
  algebra beyond this model.
- Floating-point rounding throughout HVVP and writeAsi is modelled as exact
  real arithmetic.
- AnalyticGrid: the extents and centre slots computed as float products are
  inputs (`Extents`). The printed form of each data value (scientific
  notation, three digits, ten columns) is a parameter (`cell`).
- AnalyticGrid.WriteAsi: requires at most 67 fields. Field 66 fills slots
  506 to 510; with a 68th field the source writes past the end of its
  511-slot array, which has no defined meaning.
- Opening the output file and reporting failure to open it are not modelled.
  WriteAsi returns the text instead of writing it.
- The analysis thread and the vortex list are not modelled. Only the result
  times reach UpdateDataQueue.
