# SmartGroups roster normaliser and scheduling model, in Dafny

SmartGroups builds student groups in two steps.

- The roster normaliser (`backend/csv_parser.py`) takes an uploaded CSV table. Row 0 holds the headers. It finds the name column(s), checks the requested attribute columns, splits the remaining columns into attribute and availability columns and normalises the cell values to `"0"`/`"1"`. It merges two-part names and separates the students with some available time from those with none. It also turns the flat form fields into scheduling constraints with defaults.
- The scheduler (`backend/scheduler.py`) states the grouping problem to the CP-SAT solver: variables for "student in group", "group uses time", "group active", and the constraints between them. It then formats the solver's answer as groups, or explains why there is none.

This project models both steps and proves what they guarantee.

- **Normaliser.** It is modelled as functions plus the loop methods of the source: the cell-normalisation loop, the partition loop, the attribute-presence loop and the attribute-constraint loop. Each method is proved equal to a reference function. Lemmas state the error cases, the column order, the partition and the constraint defaults.
- **Scheduler.** It is modelled as a predicate `Satisfies` over a boolean valuation of the solver variables. The solver itself is not modelled. The formatter is a method over a valuation, proved equal to a reference function. Lemmas show what a satisfying valuation guarantees about the formatted groups. The infeasibility explanation is a pure function of the constraints, plus a loop method proved equal to it.

Files:

| file | module | |
|---|---|---|
| `wrappers.dfy` | `Wrappers` | `Option`, `Result` |
| `text.dfy` | `Text` | Python's `strip`, `lower`, `join`, `str(int)`, `int(str)` |
| `dict.dfy` | `Dict` | insertion-ordered dictionaries as association lists |
| `indices.dfy` | `Indices` | picking by position, filtered positions, `sum` over booleans |
| `students.dfy`, `constraints.dfy` | `Students`, `Constraints` | the records passed between the two components |
| `csv_parser.dfy` | `CsvParser` | `backend/csv_parser.py` |
| `scheduler.dfy` | `Scheduler` | `GroupScheduler`'s lookups, `max_groups`, the constraint system |
| `solution_format.dfy` | `SolutionFormat` | `_format_solution` |
| `diagnostics.dfy` | `Diagnostics` | the infeasibility reasons and the outcome of `schedule()` |
| `pipeline.dfy` | `Pipeline` | how the normaliser's output meets the scheduler's lookups |

Inputs are modelled as follows.

- The CSV table is `seq<seq<string>>`.
- `request.form` is a `map<string, int>`, with the numeric fields already read by `int()`.
- The `combined_constraints` field is `Absent`, `Malformed` (when `json.loads` fails) or `Decoded(bounds)`.
- The solver's status and valuation are inputs of `Diagnostics.Schedule`.

Three normaliser behaviours follow the code exactly.

- A missing (padded) cell becomes `'0'` through `fillna` (`backend/csv_parser.py` line 90). Among text cells, only the exactly empty one becomes `'0'` (line 91). A blank `"  "` is kept as it is.
- Only the eight spellings of line 93 are mapped, four to `'1'` and four to `'0'`. `YES` is kept as it is.
- Form keys are compared with their exact case (lines 142-176).

## Model

| member | source | states |
|---|---|---|
| CsvParser.LowerHeaders | backend/csv_parser.py:49 | each header becomes its stripped, lower-cased text, positions kept |
| CsvParser.LowerHeadersNormalised | backend/csv_parser.py:49 | every normalised header has no upper-case letter and no surrounding whitespace, so normalising the headers a second time changes nothing |
| CsvParser.FindNameIndices | backend/csv_parser.py:21-41 | fails with the 400 name-column error exactly when none of the six rules matches; a `name` header always wins; the other results are one index of `name`/`student name`/`student`, or a (first, last) pair of one of the three two-column spellings |
| CsvParser.NameDetectionFollowsRuleTable | backend/csv_parser.py:27-40 | the if/elif chain is "the first matching rule of the six-rule table wins, its columns in rule order" |
| CsvParser.FindDataAttributes | backend/csv_parser.py:43-46 | attribute indices are exactly the header positions holding a requested attribute; availability indices are exactly the positions that are neither name nor attribute columns; both lists ascend |
| CsvParser.FirstMissingAttribute | backend/csv_parser.py:57-59 | `None` iff every requested attribute is a lower-cased header, compared as given; otherwise it is the first requested attribute that is not |
| CsvParser.CheckAttributesPresent | backend/csv_parser.py:57-59 | the loop returns the first requested attribute missing from the headers |
| CsvParser.NormalizeCell | backend/csv_parser.py:89-94 | a missing cell or `''` becomes `'0'`; exactly Yes/yes/True/true become `'1'`; exactly No/no/False/false become `'0'`; any other text is unchanged |
| CsvParser.NormalizeCellIdempotent | backend/csv_parser.py:89-94 | normalising a normalised cell changes nothing |
| CsvParser.NormalizeValueColumns | backend/csv_parser.py:89-94 | the per-column loop normalises every cell except those of the name column |
| CsvParser.NoAvailabilityMeansAll | backend/csv_parser.py:108 | the partition test holds iff every availability value strips to `'0'` |
| CsvParser.RowsPartition | backend/csv_parser.py:107-120 | every student is kept or unassigned, never both, and the two counts add up to the number of students |
| CsvParser.Partition | backend/csv_parser.py:102-120 | the loop keeps the names, attribute records (none when there are no attribute columns) and availability records of the students with some availability, in input order; the unassigned list holds the others, in input order |
| CsvParser.UnassignStep | backend/csv_parser.py:108-114 | a student whose values all strip to '0' extends the unassigned list by their entry and leaves the kept lists as they are |
| CsvParser.KeepStep | backend/csv_parser.py:115-120 | a student with some available time extends the kept names and availabilities (and the attributes, when there are attribute columns) and leaves the unassigned list as it is |
| CsvParser.ParseStudentData | backend/csv_parser.py:48-132 | the imperative parse (normalisation loop, partition loop) yields the reference result `ParseStudentTable` |
| CsvParser.StudentFrameReadsRows | backend/csv_parser.py:65-99 | the DataFrame's columns are name, attributes, availabilities; its names and records are those read straight from each data row |
| CsvParser.ParseStudentTable | backend/csv_parser.py:48-132 | the reference result of `parse_student_data`: the name-column error, then the first missing attribute, then the no-availability error; otherwise the student frame, the kept names and records and the unassigned students (its properties are the `StudentTable…` lemmas below) |
| CsvParser.ShortRowsRefused | backend/csv_parser.py:65 | a header row with a trailing comma over shorter data rows, a data row shorter than every header, and an empty table are outside the admitted tables, as lines 49 and 65 raise on them |
| CsvParser.StudentTableErrors | backend/csv_parser.py:52-124 | each of the three 400 errors happens exactly when its cause holds, in the source's order: no name column; then the first missing requested attribute; then no student with any available time, which includes the case of no availability columns |
| CsvParser.StudentTableSuccess | backend/csv_parser.py:96-132 | on success the kept names, attribute records and availability records are those of the rows whose availability does not all strip to `'0'`, in input order; the unassigned students are the other rows; the column order is name, attributes, availabilities |
| CsvParser.StudentTablePartition | backend/csv_parser.py:107-124 | on success at least one student is kept; names and availabilities (and attributes, when present) are index-aligned; kept plus unassigned equals the number of data rows; kept students have some availability and unassigned ones none |
| CsvParser.KeptAndUnassigned | backend/csv_parser.py:107-120 | kept and unassigned students together are all of them; every kept student has some available time and every unassigned one has none |
| CsvParser.NoLiveRowsIff | backend/csv_parser.py:107-124 | nobody is kept exactly when every student's availability cells all strip to '0' |
| CsvParser.StudentTableMergedNames | backend/csv_parser.py:68-74 | with two name columns the name column is `'name'`, both original name columns are dropped, and each name is the first cell, one space, then the last cell |
| CsvParser.BoundFromForm | backend/csv_parser.py:138-148 | an attribute's min (max) bound is present iff its `_min_per_group` (`_max_per_group`) field is in the form, with that field's value |
| CsvParser.ParseAttributeConstraints | backend/csv_parser.py:134-154 | the loop builds the reference dictionary `AttributeBounds` |
| CsvParser.AttributeBoundsEntries | backend/csv_parser.py:150-152 | an attribute has an entry iff it was requested and the form gives at least one of its bounds; the entry holds exactly those bounds |
| CsvParser.AttributeBoundsOrder | backend/csv_parser.py:137-152 | the entries appear in the order their attributes were first requested |
| CsvParser.CombinedBounds | backend/csv_parser.py:182-187 | the combined bounds are the decoded list, or `[]` when the field is absent or not valid JSON |
| CsvParser.ParseAllConstraints | backend/csv_parser.py:156-190 | each group bound is the form's value when given; otherwise `group_size_max` defaults to the number of students, `group_size_min` and `group_count_min` to 1, and `group_count_max` to the number of availability columns; plus the attribute bounds and combined bounds above |
| Text.StripRemovesSpaces | backend/csv_parser.py:49 | `strip()` gives the slice of the text that begins and ends with a non-space, with only whitespace cut on either side |
| Text.LowerNormalises | backend/csv_parser.py:49 | `lower()` leaves no upper-case ASCII letter, keeps whitespace exactly where it was, and is idempotent |
| Text.ParseIntOfIntToStr | backend/scheduler.py:41 | `int(str(i)) == i` |
| Text.IntToStrIsOne | backend/scheduler.py:41 | `str(i) == '1'` holds exactly for the integer 1 |
| Scheduler.GroupScheduler.TimeSlots | backend/scheduler.py:19-20 | the time slots are the keys of the first availability record, in order |
| Scheduler.GroupScheduler.StudentAvailability | backend/scheduler.py:22-30 | true iff the index is in range and the stored value is exactly `"1"`; an out-of-range index or a missing key gives false |
| Scheduler.RecordAttribute | backend/scheduler.py:39-41 | the attribute test on one record: `str(int(value)) == '1'` with `0` for a missing key; `None` when `int()` raises |
| Scheduler.RecordAny | backend/scheduler.py:133 | `any(...)` of the attribute tests on one record: false for no attributes, true at the first true test, a raise at the first raising test |
| Scheduler.GroupScheduler.StudentAttribute | backend/scheduler.py:32-41 | false for an index past the attribute records, otherwise the record-level test |
| Scheduler.GroupScheduler.RecordTests | backend/scheduler.py:36-41 | the student-level tests equal the record-level tests on the student's record, with `{}` past the end |
| Scheduler.GroupScheduler.AnyAttribute | backend/scheduler.py:133 | `any(...)` of the student's attribute tests, in the listed order, stopping at the first true or raising test |
| Scheduler.GroupScheduler.AttributeMeansOne | backend/scheduler.py:32-41 | the attribute test is true iff the value is present and `int()` reads it as 1; it raises iff the value is present and `int()` cannot read it; an out-of-range index or a missing key gives false |
| Scheduler.GroupScheduler.AnyAttributeIsOr | backend/scheduler.py:130-134 | when no listed attribute raises, the combined test counts a student once iff some listed attribute holds |
| Scheduler.GroupScheduler.SlotCount | backend/scheduler.py:50 | the slot count is `min(group_count_max, n)` for a nonzero maximum and `n` otherwise; it never exceeds `n`, nor a positive maximum, and is empty for a negative one |
| Scheduler.GroupScheduler.MaxGroups | backend/scheduler.py:50 | `min(group_count_max, num_students)` when `group_count_max` is nonzero, `num_students` otherwise |
| Scheduler.GroupScheduler.Slots | backend/scheduler.py:56 | the number of slots `range(max_groups)` creates, none for a negative `max_groups` |
| Scheduler.GroupScheduler.Shape | backend/scheduler.py:52-69 | one `student_in_group` bit per student and slot, one `group_uses_time` bit per slot and time, one `group_active` bit per slot, one `group_has_students` indicator per combined bound and slot |
| Scheduler.GroupScheduler.OneGroupPerStudent | backend/scheduler.py:73-75 | constraint 1: each student's `student_in_group` bits sum to 1 |
| Scheduler.GroupScheduler.OneTimePerActiveGroup | backend/scheduler.py:77-79 | constraint 2: a slot's `group_uses_time` bits sum to its `group_active` bit |
| Scheduler.GroupScheduler.SizeBounds | backend/scheduler.py:81-91 | constraint 3: an active slot has at least `group_size_min` members and, when `group_size_max` is nonzero, at most that many; an inactive slot has none |
| Scheduler.GroupScheduler.CountBounds | backend/scheduler.py:94-98 | constraint 4: at least `group_count_min` active slots and, when `group_count_max` is nonzero, at most that many |
| Scheduler.GroupScheduler.AvailabilityRespected | backend/scheduler.py:100-107 | constraint 5: for each student, slot and time at which the student is not available, the student is not in the slot or the slot does not use the time |
| Scheduler.GroupScheduler.AttributeBoundsRespected | backend/scheduler.py:109-121 | constraint 6: in every active slot, for each attribute entry, the members whose attribute test holds number at least its `min_per_group` and at most its `max_per_group`, each when given |
| Scheduler.GroupScheduler.CombinedBoundsRespected | backend/scheduler.py:123-144 | constraint 7: with a `min`, the indicator is set iff the slot is nonempty and then the combined count is at least `min`; with a `max`, an active slot's combined count is at most `max` |
| Scheduler.GroupScheduler.Satisfies | backend/scheduler.py:71-144 | the valuation has the variables' shape and meets all seven constraints |
| Scheduler.GroupScheduler.BuildRaises | backend/scheduler.py:109-144 | building the model raises iff there is a slot and some attribute test of a bounded attribute, or some `any(...)` of a combined bound, raises for some student |
| Scheduler.GroupScheduler.StudentInOneActiveGroup | backend/scheduler.py:73-91 | in a satisfying valuation every student is in exactly one slot, and that slot is active |
| Scheduler.GroupScheduler.MembersAvailable | backend/scheduler.py:77-107 | in a satisfying valuation a member's slot is active and uses a time, and the member is available at its first used time |
| Scheduler.GroupScheduler.CombinedMinimumGuard | backend/scheduler.py:137-142 | the combined-minimum indicator is set exactly on the nonempty slots; with a size minimum of at least 1, exactly on the active ones |
| Scheduler.GroupScheduler.CombinedCountBounds | backend/scheduler.py:113-135 | a slot's combined count is at most its size, and at least each listed attribute's count when no test raises |
| Scheduler.GroupScheduler.CombinedBoundAt | backend/scheduler.py:137-144 | in an active slot of a satisfying valuation the combined count is at most a given `max` and, once the slot is nonempty, at least a given `min` |
| Scheduler.GroupScheduler.NoSlotsNoSolution | backend/scheduler.py:50-75 | with no slot and at least one student, no valuation satisfies the constraints |
| SolutionFormat.StudentEntry | backend/scheduler.py:180-190 | a member's entry holds their name and their attribute and availability records, `{}` for a missing one |
| SolutionFormat.FormatSolution | backend/scheduler.py:170-216 | the loops give the reference result `FormattedSolution` |
| SolutionFormat.SlotGroup | backend/scheduler.py:176-204 | the loop body for an active slot builds that slot's reference group |
| SolutionFormat.GroupsOfAppend | backend/scheduler.py:174-204 | appending a slot to the visited active slots appends that slot's group to the output list |
| SolutionFormat.GroupStudents | backend/scheduler.py:177-190 | the member loop lists the entries of the slot's members, in student order |
| SolutionFormat.GroupTimeSlot | backend/scheduler.py:192-197 | the time-slot loop returns the label of the first set `uses_time` bit, or "Not assigned" |
| SolutionFormat.GroupIdsAscending | backend/scheduler.py:174-213 | every output group is an active slot with id `g+1`; every active slot has a group; the ids strictly ascend, so the sort keeps the order; `size` is the length of `students`; `total_groups` is the number of active slots |
| SolutionFormat.GroupIds | backend/scheduler.py:199-204 | output group `i` has id `ActiveSlots[i] + 1`, and its `size` is its number of entries |
| SolutionFormat.TimeSlotIsFirstUsed | backend/scheduler.py:193-197 | a group's `time_slot` is the time of the first set `uses_time` bit of its slot, or "Not assigned" when none is set |
| SolutionFormat.EveryStudentInOneGroup | backend/scheduler.py:174-190 | in a satisfying valuation every student is listed, as their own entry, in the output group of exactly one active slot (output group `i` belongs to the `i`-th active slot) |
| SolutionFormat.PlacedInOneGroup | backend/scheduler.py:174-190 | a student whose only slot is the active slot `g` is listed in `g`'s output group, and no other active slot has them as a member |
| SolutionFormat.InSlotGroup | backend/scheduler.py:177-190 | a member of the `i`-th active slot is listed, as their own entry, in output group `i` |
| SolutionFormat.MembersAvailableAtTimeSlot | backend/scheduler.py:193-197 | in a satisfying valuation each group's `time_slot` is a time its slot uses, and every member is available at it |
| SolutionFormat.GroupMember | backend/scheduler.py:177-204 | the `k`-th entry of output group `i` is the entry of the `k`-th member of its slot, and the group's time is that of the slot's first set `uses_time` bit |
| SolutionFormat.OutputWithinBounds | backend/scheduler.py:82-98 | in a satisfying valuation the output has at least the minimum number of groups (at most a nonzero maximum), and every group has at least the minimum size (at most a nonzero maximum) |
| SolutionFormat.HolderCounts | backend/scheduler.py:113-135 | the entries of a slot's group whose record passes the attribute test (the `any(...)` test) are as many as the slot's `group_attr_count` (`group_combined_count`) |
| SolutionFormat.GroupCounts | backend/scheduler.py:174-204 | output group `i` belongs to an active slot, and its size and attribute and combined counts are those of the `i`-th active slot |
| SolutionFormat.OutputAttributeBounds | backend/scheduler.py:110-121 | in a satisfying valuation, in every output group and for every attribute entry, the number of entries whose record passes the attribute test is at least `min_per_group` and at most `max_per_group`, each when given |
| SolutionFormat.OutputCombinedBounds | backend/scheduler.py:125-144 | in a satisfying valuation, in every output group and for every combined bound, the number of entries passing some listed attribute is at most the group size and at most `max`, and, when the group is nonempty, at least `min` |
| Diagnostics.HasOneFlags | backend/scheduler.py:161 | the diagnostic test on a record is "the stored value is exactly `"1"`" |
| Diagnostics.Explain | backend/scheduler.py:154-168 | the reason-gathering code returns the reference `Message`: the fixed prefix, then the reasons joined by single spaces |
| Diagnostics.GatherReasons | backend/scheduler.py:154-167 | the `reasons` list is the reference `Reasons`: the global reasons, then the attribute reasons, or the generic reason alone when nothing fired |
| Diagnostics.GlobalChecks | backend/scheduler.py:155-158 | the two checks on the group bounds give the size reason, then the count reason, each when it fires |
| Diagnostics.AttributeChecks | backend/scheduler.py:160-165 | the loop over the attribute entries gives their reasons in dictionary order |
| Diagnostics.EntryReasons | backend/scheduler.py:161-165 | for one attribute entry: the minimum-per-group reason, then the maximum-below-1 reason, each when it fires |
| Diagnostics.GenericIffNoneFired | backend/scheduler.py:166-167 | the generic reason is reported iff none of the size, count or attribute checks fires, and then it is the only reason; there is always at least one reason |
| Diagnostics.ReasonsOrder | backend/scheduler.py:155-165 | the size reason comes first, then the count reason, then the attribute entries' reasons in dictionary order |
| Diagnostics.GlobalReasonsOrder | backend/scheduler.py:155-158 | the size reason, when it fires, is first; the count reason, when it fires, comes after it and is last |
| Diagnostics.AllAttributeReasonsAppend | backend/scheduler.py:160-165 | the reasons of two dictionaries laid end to end are those of the first followed by those of the second |
| Diagnostics.SingleReasonMessage | backend/scheduler.py:168 | with one reason, the message is the prefix followed by that reason |
| Diagnostics.SizeMinExample | backend/scheduler.py:155-156 | a size minimum of 4 for 3 students, with nothing else wrong, gives "…Possible reasons: Minimum group size (4) is greater than the number of students (3)." |
| Diagnostics.DiagnosticCountIsStricter | backend/scheduler.py:161 | each value the diagnostic counts also passes the constraint's `int()` test; `"01"` passes `int()` but is not counted |
| Diagnostics.Schedule | backend/scheduler.py:43-168 | a raising attribute test gives the build error; a found solution gives the formatted solution; any other status gives the diagnostic message |
| Pipeline.ParsedRosterIsSchedulable | backend/csv_parser.py:122-132 | a parsed roster has at least one student with an availability record for each, so the time slots exist; its students plus the unassigned ones are all the data rows |
| Pipeline.AvailableMeansKept | backend/csv_parser.py:108 | a value of exactly `"1"` at some slot keeps the student out of the unassigned list |
| Pipeline.SpacedOneKeptButUnavailable | backend/csv_parser.py:108 | a student whose only value is `" 1"` is kept by the partition, which strips values, yet is available at no slot, because the availability test does not strip |

## Left out

- `get_csv` (file upload, UTF-8 decoding, `csv.reader`) is I/O. The model starts from the decoded table.
- The CP-SAT search (`CpSolver().Solve`) is an external library. Its status and valuation are inputs of `Diagnostics.Schedule`, which requires that a reported solution satisfy `Satisfies`.
- The variable-creation loops of `schedule()` (lines 53-69) create solver objects. The model keeps only their shape, as `Scheduler.GroupScheduler.Shape` of the valuation.
- `int()` and `json.loads` on form fields are library parsing. The form is already typed, and JSON failure is `Malformed`. The `ValueError` that `int()` raises on a bad form field is not modelled.
- The constraint-parser class is not part of this model. It is taken as a plain record of the bounds. Its getters and the `group_size_range`/`group_count_range` fields of the formatted result are left out.
- Pandas mechanics are modelled only by their row and column effect, for example NaN, `fillna` and `to_dict`. `CsvParser.WellFormedTable` admits only tables that meet four conditions. On the other tables the source raises or relies on unmodelled pandas behaviour, and the model returns no result for them.
  - There is a header row. `backend/csv_parser.py` line 49 raises `IndexError` on an empty table.
  - No data row is longer than the header row, and, when there is a data row, the widest one is exactly as wide as the header row. Line 65 pads the shorter data rows with missing values up to the widest one, and raises `ValueError` when that width is not the number of headers. So a header row with a trailing comma over shorter data rows is refused (`CsvParser.ShortRowsRefused`).
  - A requested attribute is not also a chosen name column. The source fails once that column is selected twice or dropped.
  - No two headers are equal after lower-casing. The source does not check this. Pandas accepts duplicate labels at line 65. What happens later depends on which column is duplicated, and that pandas behaviour is not modelled. The model assumes unique headers, as the program does for its time-slot labels.
- `debug_constraint.py` reads a fixed file, prints and exits. It has no logic of its own.
- `Text.Lower` lower-cases ASCII letters only. `Text.ParseInt` reads ASCII digits only. Python does both for all of Unicode. `Text.IsSpace` does cover Python's full whitespace set.
- The sort of `_format_solution` (line 207) is not performed. `SolutionFormat.GroupIdsAscending` proves the ids already strictly ascend, so a stable sort by id leaves the list unchanged.
- An exception raised while the constraints are built ends `schedule()`. The model reports it as `BuildError`, and does not say which value was at fault.
