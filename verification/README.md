# tet-py: a verified model of its hard core

`tet-py` is a Python binding for the tetration array format: chunked N-dimensional datasets in
one file, packages of sealed generations with a `CURRENT` pointer, importers from tables and
hierarchical formats, and exporters to them. This project models the logic the repository
writes itself, on top of the tetration crate, and proves what that logic is for.

Run `dafny verify dfyconfig.toml` here to check everything.

## What is modelled

**Zero-copy reads** (`row_major`, `read_plan`, `zero_copy`, `slab_geometry`, `slab_volume`,
`zero_copy_sound`, `read_numpy`, `stored_data`, `range_read`). A `ReadPlan` is a selection box over a chunked
dataset with one record per touched tile. The reference reader (`ReadPlans.Materialize`) looks
up the tile of each selected cell and then the offset inside the tile. The detector never looks
at where the selection starts or ends; it compares one sum of payload lengths. The proofs show
that this one comparison forces the selection to be whole tiles without padding, so that a
mapped span and the reference reader give the same array for every rank, shape, chunk shape,
step and codec; and what either returns is the dataset that the file stores, cell by cell
(`StoredData.ReadDataset`).

**Column inference** (`decimals`, `tokens`, `sorted_strings`, `json_note`, `note_length`,
`note_reader`, `category`, `category_reading`, `column`, `column_order`, `column_meaning`, `table`,
`table_meaning`; `reorder` holds the lemmas about reorderings). A
table column is a six-state online machine that buffers, promotes and drops values; a label
dictionary gives first-seen codes under a cap of 1024 bytes on its JSON note, checked after every
new label. Both are classes, proved equal to a specification of the whole column, about which
losslessness and injectivity are proved, and exactly when the order of the fields matters. What is
imported is also told from the fields alone: `NoteReader` is a JSON reader written after RFC 8259,
and through it every kept table reads back to its fields.

**Path trees and NetCDF dimensions** (`path_names`, `path_tree`, `path_walk`, `path_sort`,
`export_round_trip`, `nc_dims`, `netcdf_round_trip`). Export writes slash-separated names into a
group tree; convert walks a tree back into a list sorted by name. The round trip is the identity
exactly when no name starts with a slash. The NetCDF writer keeps one length per group and
dimension name.

**The package store** (`store_runs`, `store_effects`, `default_publishers`, `package_store`). Stage, seal,
conditional publish, the three steps of a default-generation publish, and the two steps of an
open are actions of a state machine; the theorems are about every interleaving of any number of
callers. `S3Keys` (`s3_keys`) is the key map of a Zarr store under an S3 prefix.

## What the proofs show about the code

- **The detector's length sum can wrap.** `chunks.map(raw_byte_len).sum()` is a `u64` sum, which
  wraps in a release build. `ReadNumpy.Read` agrees with the reference reader if and only if the
  case `Misled` does not occur: the span is accepted and fits the file, but the last payload ends
  past the end of the file. `WrappedSumMisleads` gives well-formed plans, with payloads behind
  any catalog, and files of every length for which this happens. For plans whose payloads lie in
  the file no sum wraps.
- **The memmap size check cannot fire** on a well-formed plan (`ReadNumpy.Read`).
- **A very long integer token is an error, not text.** `int(token)` refuses more than 4300 digits
  (the interpreter's default limit), so `_classify` raises; modelled as the cell `Refused`. A
  column can be imported exactly when no such token is met before the column is dropped
  (`Columns.Readable`).
- **The order of the fields can decide whether a column imports.** `1`, `a` and a token of 4301
  digits are left out in that order and raise an error with the long token first
  (`ColumnOrder.OrderMatters`). Every reordering of a column is imported alike if and only if it
  has no refused token or does not hold both text and numbers (`ColumnOrder.OrderDecides`).
- **A blank header field can cause a duplicate-name error.** Its generated name `col<i>` may be
  spelled by another header field; `HeaderNamesDistinct` says exactly when names are distinct,
  `GeneratedNameClashes` is a concrete header. A table without a header never has the problem.
- **An abandoned seal blocks the store.** A publisher that seals the next generation and never
  flips `CURRENT` stops every later default publish (`BlockedForever`); three calls of one
  publisher on a new store are enough (`NewStoreBlocks`). Whenever that state does not hold, a
  publish can still succeed (`NotBlockedProgress`).
- **The conditional-publish wrapper does not look at the seal.** If the crate does not either, one
  raw publish makes `CURRENT` name an unsealed generation (`UnsealedPublish`); a step leaves
  `CURRENT` naming a sealed generation exactly when it is not such a publish
  (`CurrentSealedStep`).
- **A leading slash does not survive the round trip.** Convert never gives a name that starts with
  a slash, so a dataset comes back under its own name if and only if its name does not start with
  one (`ComesBackIffNotRooted`, `ExportThenConvert`). Only when the leading slash is the sole slash
  is it gone from the stored path already, so that `a` and `/a` collide (`SplitPathIsSplit`,
  `LeadingSlashIsLost`).
- **A doubled slash after an S3 prefix is lost** (`DoubledSlashIsLost`); a listed key expands to
  the object it came from if and only if it does not start with a slash (`ExpandsBack`).

## Assumptions

- `ReadPlans.WellFormed` is what the crate's planner promises: the selection lies in the dataset,
  the chunks are exactly the touched tiles (in no particular order), each payload holds at least
  its tile's cells. `ChunkRecord.extent`, the shape a payload was laid out with, is not a field of
  the source; it lets one proof cover clipped and padded edge tiles. The detector never reads it.
- `RangeRead.Honours` is what the crate promises about the catalog and query fetch plans: the
  planner reads only the catalog, and the fetched ranges cover the catalog and the payloads.
- The store primitives contribute four facts, visible in `StoreRuns.Step`: a staged part is never
  replaced, a sealed generation is never sealed again, a conditional publish succeeds only when
  `expected` is the live pointer, and the image of a generation is what merging its parts gave.
  Whether a conditional publish also refuses an unsealed generation is left open (`checksSeal`),
  and so is whether a default publish passes the pointer it read first or reads it again after
  sealing: both are steps.
- The group tree takes every component of a path as an ordinary name.
- Integers follow a release build: `u64` addition and summation wrap, checked operations give up.
- Labels and fields are sequences of Unicode scalar values. Floats are an arbitrary type with the
  operations of `Tokens.FloatLib`.

## Model

| member | source | states |
|---|---|---|
| RowMajor.UnrankRank | native/src/numpy_export.rs:157-187 | row-major rank is a bijection between the selection box and the positions of the dense array |
| RowMajor.RankAppends | native/src/numpy_export.rs:157-187 | the last axis is the fastest: an appended axis of length n multiplies the rank by n |
| RowMajor.EqualVolumeBoxes | native/src/numpy_export.rs:55-58 | a box that covers a non-empty box of the same volume is that box, for every rank |
| ReadPlans.TileIsDivision | native/src/numpy_export.rs:64-98 | the tile of a coordinate and the offset inside it are quotient and remainder by the chunk length |
| ReadPlans.MaterializeAt | native/src/lib.rs:297-299 | the dense array holds each selected cell's element at its row-major rank |
| ReadPlans.CellIsStored | native/src/lib.rs:297-298 | on a well-formed plan every selected cell has a record and lies inside that record's payload |
| StoredData.MaterializesDataset | native/src/lib.rs:297-299 | if the file stores a dataset tile by tile, raw or encoded, element `rank(cell)` of the dense array is the dataset's element at `start + cell * step`, for every plan, step and codec |
| StoredData.ReadDataset | native/src/lib.rs:287-300 | the read a caller sees succeeds and returns exactly those elements, mapped or copied |
| ZeroCopy.DetectLeadingAxisSlabs | native/src/numpy_export.rs:65-100 | true exactly when trailing axes are covered by one tile, trailing chunk indices are equal and leading ones step by 1 without overflow |
| ZeroCopy.SlabsInFields | native/src/numpy_export.rs:65-100 | the slab test in terms of shapes and chunk indices: every trailing axis fits one tile, full width included |
| ZeroCopy.WrappingTotalRaw | native/src/numpy_export.rs:55 | the length sum is the true sum modulo 2^64 |
| ZeroCopy.DetectContiguousRowMajorView | native/src/numpy_export.rs:29-62 | a span is returned exactly under `Accepts`, and it is the first payload's offset with the selection's byte length |
| ZeroCopy.OffsetsTelescope | native/src/numpy_export.rs:49-54 | adjacency makes every payload start where the sum of the payloads before it ends |
| ZeroCopy.PayloadEnd | native/src/numpy_export.rs:49-61 | the span of all payloads ends where the last payload ends |
| SlabGeometry.SlabCount | native/src/numpy_export.rs:64-100 | the listed slabs are exactly those from the selection's first row to its last row |
| SlabGeometry.SlabAt | native/src/numpy_export.rs:64-100 | record k is slab `first + k` on the leading axis and 0 elsewhere, whatever order the planner promises |
| SlabVolume.VolumeBound | native/src/numpy_export.rs:55-58 | listed payloads hold at least their rows of the dataset, and exactly those when the volumes are equal |
| SlabVolume.EqualVolume | native/src/numpy_export.rs:33-58 | the length test holds if and only if the selection starts and ends on the listed slabs, spans every trailing axis and no payload is padded |
| SlabVolume.EqualVolumeIffWholeTiles | native/src/numpy_export.rs:33-58 | the same in terms of cells: a dataset cell is selected exactly when it lies in a listed tile, and no payload holds padding |
| ZeroCopySoundness.PayloadInside | native/src/numpy_export.rs:49-61 | every payload lies inside the span |
| ZeroCopySoundness.RankInSelection | native/src/numpy_export.rs:22-28 | full slabs before a cell plus its rank in its own payload make its rank in the selection |
| ZeroCopySoundness.SpanHoldsElement | native/src/numpy_export.rs:29-62 | the bytes at `start + elem_size * rank(cell)` are the element the tile-by-tile reader returns, for every selected cell |
| ZeroCopySoundness.ViewIsMaterialized | native/src/lib.rs:287-300 | the mapped view of an accepted span is the materialized array |
| ReadNumpy.MemmapZeroCopy | native/src/numpy_export.rs:158-187 | a span of the right length inside the file maps to its elements; any returned array has the span's size |
| ReadNumpy.TryZeroCopy | native/src/numpy_export.rs:190-212 | which of view, fallback and overflow error is returned, exactly |
| ReadNumpy.Read | native/src/lib.rs:287-300 | the read agrees with tile-by-tile materialization, failures included, if and only if the wrapped sum does not mislead; the memmap errors never occur |
| ReadNumpy.AcceptsExactly | native/src/numpy_export.rs:29-100 | in terms of the plan's fields, a span whose sum does not wrap is handed out if and only if all steps are 1, one tile spans each trailing axis, leading indices count up, payloads are raw and end to end, a cell is selected exactly when it lies in a listed tile, nothing is padded and sizes fit |
| ReadNumpy.ReadAgrees | native/src/numpy_export.rs:200-211 | an accepted plan whose last payload lies in the file is read by the view; one whose last payload does not cannot be materialized |
| ReadNumpy.WrappedSumMisleads | native/src/numpy_export.rs:55-58 | for every payload offset below 2^63 - 8 and every file length from the wrapped end up to the true one, a well-formed plan whose view is handed out although the copying reader fails |
| RangeRead.SelectionImage | native/src/lib.rs:438-452 | the sparse image gives the same plan and the same array as the full object, and holds the fetched ranges and zeros elsewhere; no image means the full read fails too |
| RangeRead.ReadRemote | native/src/lib.rs:148-155 | a range read returns what a read of the whole object returns |
| Tokens.TrimSplits | python/tet/convert.py:628-631 | every field is its token with whitespace around it and byte-order marks before it |
| Tokens.TrimMeans | python/tet/convert.py:629 | exactly the whitespace at both ends and then the byte-order marks in front are cut off |
| Tokens.SpacesAre | python/tet/convert.py:629 | which characters are whitespace, by code point |
| Tokens.PlainIntegerMeans | python/tet/convert.py:645-647 | an integer token is an optional sign and at least one ASCII digit, with the signed value of its digits |
| Tokens.OtherFields | python/tet/convert.py:630-642 | exactly when a field is blank, a float or text, by its token and what `float()` makes of it |
| Tokens.NonFiniteMeans | python/tet/convert.py:650-659 | the spellings of NaN and infinity, in any mix of cases |
| Tokens.IntegerFields | python/tet/convert.py:628-647 | a field is read as the integer v if and only if it is a decimal notation of v and v fits 64 bits |
| Tokens.RefusedFields | python/tet/convert.py:632-633 | exactly the decimal notations with more digits than the interpreter converts raise an error |
| Tokens.IntegerRoundTrip | python/tet/convert.py:628-647 | every 64-bit integer survives printing, with padding and an optional plus sign, and reading |
| CategoryNote.EscapeCancel | python/tet/convert.py:694-699 | an ASCII-escaped string up to its closing quote reads back in one way only, quotes, backslashes and surrogate pairs included |
| CategoryNote.PrintCancel | python/tet/convert.py:694-699 | printed JSON values can be told apart from any text that follows them |
| CategoryNote.NoteInjective | python/tet/convert.py:694-699 | two different dictionaries never print the same note |
| NoteReader.NoteReads | python/tet/convert.py:694-699 | a JSON reader gets the dictionary and the missing code -1 back from every note |
| NoteReader.NoteText | python/tet/convert.py:694-699 | the note is an object of `codes` and `missing` without whitespace, its labels strictly increasing, nothing before or after |
| NoteReader.CharsRead | python/tet/convert.py:694-699 | an escaped label reads back, with `\uXXXX` units most significant digit first and surrogate pairs recombined |
| NoteReader.EscapeForm | python/tet/convert.py:694-699 | printable ASCII stands for itself, seven characters have a short escape, the rest take `\u` and lower-case hex |
| NoteReader.DecimalReads | python/tet/convert.py:694-699 | the text of a number has its digits most significant first and no leading zero |
| SortedStrings.SortedUnique | python/tet/convert.py:696-698 | the sorted listing of the keys is unique, so the note does not depend on insertion order |
| SortedStrings.LessMeans | python/tet/convert.py:696-698 | strings compare at the first place where they differ, by code point; a proper prefix comes first |
| NoteLength.NoteIsAscii | python/tet/convert.py:679-680 | the note is ASCII, so its encoded length is its length |
| NoteLength.NewLabelLengthens | python/tet/convert.py:677-680 | adding a new label strictly lengthens the note |
| NoteLength.LengthIgnoresOrder | python/tet/convert.py:677-680 | the same labels first seen in another order print a note of the same length |
| NoteLength.LengthIgnoresNumbering | python/tet/convert.py:694-699 | the note's length is the same for every assignment of the codes 0..n-1 |
| Categories.Category.PushMissing | python/tet/convert.py:668-670 | appends a missing cell to the abstract column and keeps the machine equal to its specification |
| Categories.Category.PushNewLabel | python/tet/convert.py:675-685 | a new label takes the next code, or the cap clears the dictionary for good |
| Categories.Category.PushLabel | python/tet/convert.py:672-685 | appends a label; the online overflow flag is the verdict on the dictionary of the whole column so far |
| Categories.Category.Finish | python/tet/convert.py:687-691 | returns what the whole-column specification says: nothing when over the cap or without labels, otherwise codes and note |
| Categories.ImportLabels | python/tet/convert.py:853-860 | a label column pushed cell by cell is imported as the specification says |
| Categories.TooLongIsOverflow | python/tet/convert.py:679-680 | the arithmetic on labels kept online is the check on the printed final note |
| Categories.OverflowStays | python/tet/convert.py:680-684 | once over the cap, every longer column is over the cap |
| Categories.OverflowIgnoresOrder | python/tet/convert.py:672-691 | the overflow verdict and whether the column is kept depend only on the set of labels |
| Categories.DictionaryIsNumbering | python/tet/convert.py:672-685 | codes are a bijection from the distinct labels onto 0..n-1 and the missing code is none of them |
| Categories.DecodeValues | python/tet/convert.py:662-691 | decoding the values gives back every label and every missing cell in order |
| Categories.FinishInjective | python/tet/convert.py:687-691 | values and note together determine the column |
| CategoryReading.FinishReadsBack | python/tet/convert.py:687-691 | from values and note a reader gets the column back: the note has at most 1024 bytes and names exactly the labels with codes 0..n-1, and each value is its cell's code or -1 |
| CategoryReading.KeptExactly | python/tet/convert.py:687-691 | a label column is kept exactly when it has a label and a note of its labels, however numbered, has at most 1024 bytes |
| CategoryReading.CodesFollowFirstOccurrence | python/tet/convert.py:675-678 | codes are given in the order of first occurrence |
| Categories.ReorderRenames | python/tet/convert.py:672-691 | reordering a column changes its codes by that reordering and one invertible renaming |
| Columns.KindStep | python/tet/convert.py:723-783 | the online transitions compute the kind that the set of occurring cell kinds decides |
| Columns.Column.PushText | python/tet/convert.py:723-736 | appends a text cell to the abstract column from every state |
| Columns.Column.PushBlank | python/tet/convert.py:738-751 | appends a blank from every state |
| Columns.Column.PushInt | python/tet/convert.py:753-766 | appends an integer from every state |
| Columns.Column.PushFloat | python/tet/convert.py:768-783 | appends a float from every state |
| Columns.Column.Push | python/tet/convert.py:710-721 | appends the classified field; fails exactly on a refused token of a column that is not dropped |
| Columns.Column.Finish | python/tet/convert.py:785-799 | returns the whole-column specification of everything pushed |
| Columns.ImportColumn | python/tet/convert.py:702-799 | succeeds exactly on readable columns, with the specified data |
| ColumnMeaning.ReadableMeans | python/tet/convert.py:710-713 | a column can be read exactly when every refused token has a text and a number before it |
| ColumnMeaning.MixedColumn | python/tet/convert.py:733-734 | text with a number is left out |
| ColumnMeaning.BlankColumn | python/tet/convert.py:786-787 | neither text nor a number is left out |
| ColumnMeaning.IntegerColumn | python/tet/convert.py:788-791 | integers only are kept as they are |
| ColumnMeaning.FloatColumn | python/tet/convert.py:792-795 | a float, or an integer beside a blank, without text: kept exactly when some number is not NaN, each value its own cell's number or NaN for a blank |
| ColumnMeaning.LabelColumnKept | python/tet/convert.py:796-799 | text without numbers is kept exactly when a note of the texts has at most 1024 bytes |
| ColumnMeaning.LabelColumnReadsBack | python/tet/convert.py:796-799 | a kept label column reads back cell by cell through its note |
| Columns.IntColumnNotEmpty | python/tet/convert.py:788-790 | the empty check of the integer state never fires |
| Columns.ReorderKeepsShape | python/tet/convert.py:723-799 | the specified data of reordered cells is left out alike or kept with one dtype |
| ColumnOrder.ReadableDecides | python/tet/convert.py:710-721 | every order of the cells can be read, or none, if and only if no token is refused or text and numbers do not both occur |
| ColumnOrder.ReorderImport | python/tet/convert.py:702-799 | under that condition reordered columns both fail, are both left out, or are both kept with one dtype |
| ColumnOrder.ReorderImportValues | python/tet/convert.py:702-799 | under that condition a kept column is kept in every order, with equal numbers for equal cells, or codes changed by one invertible renaming |
| ColumnOrder.OrderDecides | python/tet/convert.py:702-799 | every reordering of the fields has the same verdict (error, left out, kept with a dtype) if and only if that condition holds |
| ColumnOrder.OrderMatters | python/tet/convert.py:632-635 | concrete fields that are left out in one order and raise an error in another |
| Columns.ReorderNumbers | python/tet/convert.py:738-783 | reordering permutes integer and float values identically |
| Columns.ReorderLabels | python/tet/convert.py:723-736 | reordering changes label codes only by that permutation and one renaming undone by its reverse |
| Tables.PushField | python/tet/convert.py:601-602 | pushing one column changes no other column |
| Tables.PushRow | python/tet/convert.py:598-602 | every column gets its field of the row, unless some column refuses its field |
| Tables.PushRows | python/tet/convert.py:597-602 | accepted exactly when all rows have the width and all columns are readable; the error names the first bad row |
| Tables.FindDuplicate | python/tet/convert.py:620-625 | finds the first repeated name, and none exactly when the names are distinct |
| Tables.LoadTable | python/tet/convert.py:571-609 | the kept columns of an accepted table in header order; otherwise the duplicate name, or the first row that fails and why |
| Tables.KeptDenotes | python/tet/convert.py:785-799 | every value of a kept column is the denotation of its own cell |
| Tables.TableAligned | python/tet/convert.py:604-609 | imports are the kept columns in header order under distinct names, one element per data row, element i read from cell i |
| TableMeaning.RowsKept | python/tet/convert.py:582-584 | the rows that count are exactly the non-empty ones, in their order |
| TableMeaning.HeaderMeans | python/tet/convert.py:588 | the first row is a header exactly when some field is text and no refused token stands before it; an error exactly when a token is refused and no text stands before it |
| TableMeaning.NamesMean | python/tet/convert.py:589-594 | a header field names its column unless blank; other columns are `col` and their position |
| TableMeaning.AcceptedMeans | python/tet/convert.py:595-602 | accepted exactly when the names differ, rows have one field per name, and every refused token has a text and a number above it |
| TableMeaning.TableStores | python/tet/convert.py:604-609 | the imports are exactly the kept columns in header order under their own names, and every element is read from its own classified field, labels through the note |
| Tables.GeneratedNamesDistinct | python/tet/convert.py:593-595 | a table without a header never raises the duplicate error |
| Tables.HeaderNamesDistinct | python/tet/convert.py:612-625 | a header raises the duplicate error exactly when two fields spell one name or a blank's generated name is spelled |
| Tables.GeneratedNameClashes | python/tet/convert.py:612-625 | a concrete header whose generated name clashes |
| PathNames.SplitPathIsSplit | python/tet/export.py:197-208 | cutting at the last slash and splitting the parent gives exactly the components, and joins back to the name, if and only if the name's only slash is not a leading one |
| PathNames.SplitJoin | python/tet/convert.py:486-487 | joining slash-free components and splitting gives them back |
| PathNames.JoinSplit | python/tet/export.py:197-208 | splitting a name and joining gives it back |
| PathNames.LeadingSlashIsLost | python/tet/export.py:197-208 | a name with a leading slash put before it is stored at the same path if and only if it has no slash |
| PathNames.ComesBackIffNotRooted | python/tet/convert.py:486-487 | the name a walk gives to a stored dataset is its own name if and only if that does not start with a slash |
| PathNames.AboveByName | python/tet/export.py:197-208 | one path is another or lies above it exactly when the name is the other or continues it after a slash |
| PathTrees.GroupFile.EnsureGroup | python/tet/export.py:265-278 | opens or creates exactly the groups along a path; fails exactly when an array is in the way, and then has created the groups above it and nothing else |
| PathTrees.GroupFile.CreateArray | python/tet/export.py:252-256 | for any name, adds the array and the groups above it and nothing else; fails exactly when something is in the way, leaving only groups behind |
| PathTrees.BlockedIffClash | python/tet/export.py:246-278 | something is in the way exactly when an earlier dataset is stored at, above or below the new one |
| PathTrees.AddedHolds | python/tet/export.py:252-256 | the file keeps holding the datasets, the groups above them and nothing else |
| PathWalks.Walk | python/tet/convert.py:552-562 | lists every importable array below a group exactly once under its full name |
| PathWalks.WalkNc | python/tet/convert.py:524-531 | the same when the arrays of a group come before its groups |
| PathSorting.SortSorts | python/tet/convert.py:548-549 | the walked imports come out sorted by name, whatever the names |
| PathSorting.SortIsByName | python/tet/convert.py:548-549 | sorting walked imports of distinct names gives the one listing by full name, whatever order the walk took |
| ExportRoundTrip.Export | python/tet/export.py:246-262 | for any names, writing succeeds exactly when no dataset is stored at or above another, and the file then holds the datasets and nothing else |
| ExportRoundTrip.CompatibleMeans | python/tet/export.py:246-278 | in terms of names: an export succeeds exactly when, a sole leading slash aside, no two names are equal and none continues another after a slash |
| ExportRoundTrip.Load | python/tet/convert.py:534-549 | loading any file gives its importable arrays, each once, sorted by path name; the names are distinct unless a root group has an empty name |
| ExportRoundTrip.LoadNetcdf | python/tet/convert.py:514-521 | the same for the walk that takes variables first |
| ExportRoundTrip.LoadOfExport | python/tet/convert.py:534-549 | loading an exported file gives exactly the importable datasets under their own names if and only if none of these starts with a slash |
| ExportRoundTrip.ExportThenConvert | python/tet/export.py:246-262 | for any datasets, export then convert fails exactly when one is stored at or above another, and otherwise is the identity exactly when no importable name starts with a slash |
| ExportRoundTrip.RoundTripIsIdentity | python/tet/convert.py:534-562 | when every array is importable as it is, the result holds each name with its array and nothing else |
| ExportRoundTrip.ImportsMean | python/tet/convert.py:534-562 | the kept imports increase strictly by name, one for every importable dataset under its own name with its imported array, and nothing else |
| ExportRoundTrip.ByNameSorted | python/tet/convert.py:520 | the list is strictly increasing by full name, so it has no duplicates |
| ExportRoundTrip.OrderIsIrrelevant | python/tet/export.py:251-256 | for every reordering of the datasets the export fails or succeeds alike and the imports are the same |
| NcDims.NcFile.EnsureDim | python/tet/export.py:231-243 | reuses or creates the dimension and keeps the table and the file's dimensions equal; refuses exactly another length |
| NcDims.NcFile.EnsureDims | python/tet/export.py:224-243 | accepts exactly consistent uses and otherwise names the first dimension in conflict |
| NcDims.WriteNetcdf | python/tet/export.py:185-189 | the dimension side of the writer fails exactly when one name of one group is used with two lengths; otherwise every axis has its dimension of its length in its group, and no others exist |
| NcDims.DimOf | python/tet/export.py:154-159 | the dimension of an axis: its recorded name if there is one non-empty name per axis, otherwise the leaf, `_d` and the axis |
| NcDims.ConsistentMeans | python/tet/export.py:224-243 | dimensions conflict exactly when two axes of one group share a dimension and differ in length |
| NcDims.ConflictIgnoresOrder | python/tet/export.py:181-190 | whether the dimensions conflict does not depend on the order of the datasets |
| NcDims.DefaultNamesConsistent | python/tet/export.py:213-221 | without recorded dimension names there is a conflict exactly when two datasets of one place differ in shape on a common axis |
| NetcdfRoundTrip.ExportNetcdf | python/tet/export.py:178-194 | groups, dimensions and variables together: fails exactly when a place is taken or a dimension conflicts, and otherwise holds every dataset, and for every axis its recorded or default dimension of its length |
| NetcdfRoundTrip.ExportThenConvertNetcdf | python/tet/export.py:178-194 | the NetCDF round trip fails exactly then, and otherwise is the identity exactly when no importable name starts with a slash |
| NetcdfRoundTrip.DefaultDimsNeverConflict | python/tet/export.py:213-243 | datasets that do not stand in each other's way and have no recorded dimension names never conflict |
| StoreRuns.RunKeeps | python/tet/package.py:126-139 | over every interleaving staged parts and sealed images stay, and an open handle keeps its generation and bytes |
| StoreEffects.StageEffect | native/src/lib.rs:493-502 | a stage leaves the bytes of a new part and changes nothing else; a staged part stays |
| StoreEffects.SealEffect | native/src/lib.rs:530-537 | a seal leaves the merged image of a new generation and changes nothing else |
| StoreEffects.CasEffect | native/src/lib.rs:519-527 | exactly when a conditional publish moves CURRENT, and that it changes nothing else |
| StoreEffects.OpenEffect | native/src/lib.rs:480-490 | pin and copy of a sealed generation open exactly the asked generation with its bytes |
| StoreEffects.PinEffect | native/src/lib.rs:454-481 | an explicit pin takes the asked generation if it is sealed; a pin of CURRENT takes what CURRENT names |
| StoreEffects.ChooseEffect | native/src/lib.rs:471-477 | a publisher that reads CURRENT chooses the next generation in 64 bits, 1 on a new store |
| StoreEffects.SealChosenEffect | native/src/lib.rs:505-516 | a publisher seals exactly the free generation it chose, or gives up |
| StoreEffects.FlipEffect | native/src/lib.rs:505-516 | a publisher that has sealed publishes its generation conditionally and is done |
| StoreEffects.SealedOnce | python/tet/package.py:101-107 | a sealed generation keeps the image of its first seal in every later state |
| StoreEffects.StagedOnce | python/tet/package.py:82-87 | a staged part keeps the bytes of its first stage in every later state |
| StoreRuns.RunFaithful | native/src/lib.rs:480-490 | pin and copy are two steps, yet in every run the bytes are those of the pinned generation |
| StoreRuns.RunChains | python/tet/package.py:109-124 | the accepted publishes form one chain, each expecting what the one before wrote: no update of CURRENT is lost |
| StoreRuns.CurrentSealedStep | native/src/lib.rs:519-527 | a step leaves CURRENT on a sealed generation exactly when it is not a raw publish of an unsealed one to a store that does not look at the seal |
| StoreRuns.UnsealedPublish | native/src/lib.rs:519-527 | on a new store that does not look at the seal one raw publish makes CURRENT name an unsealed generation |
| StoreRuns.RunCurrentSealed | native/src/lib.rs:505-537 | in every run of guarded publishes CURRENT names a sealed generation |
| DefaultPublishers.InvStep | native/src/lib.rs:505-516 | what any number of default publishers keep: one holder at most, its conditional publish cannot miss |
| DefaultPublishers.DefaultPublishersCount | native/src/lib.rs:472-516 | over every interleaving successful publishes take CURRENT through consecutive generations, none is won twice, CURRENT is sealed |
| DefaultPublishers.EmptyStoreCounts | python/tet/package.py:95-99 | from an empty store the generations are 1, 2, 3, ... |
| DefaultPublishers.HolderWins | native/src/lib.rs:505-516 | a publisher that has sealed wins its flip: losers fail at the seal |
| DefaultPublishers.BlockedForever | native/src/lib.rs:472-516 | an abandoned seal of the next generation stops every later default publish |
| DefaultPublishers.AbandonedSealBlocks | native/src/lib.rs:505-516 | from every unblocked state without a holder, three calls of one publisher reach that state |
| DefaultPublishers.NewStoreBlocks | native/src/lib.rs:505-516 | a new store after three calls of one publisher: CURRENT stays unset over every later default run |
| DefaultPublishers.NotBlockedProgress | native/src/lib.rs:472-516 | otherwise some continuation makes a publish succeed |
| PackageStores.PackageStore.Ingest | native/src/lib.rs:493-502 | stages a part once; a collision changes nothing |
| PackageStores.PackageStore.SealParts | native/src/lib.rs:530-537 | seals a generation once without moving CURRENT; a refusal changes nothing |
| PackageStores.PackageStore.CasPublish | native/src/lib.rs:519-527 | moves CURRENT exactly when `expected` is the live pointer and the crate, if it looks, finds the seal; a rejection changes nothing |
| PackageStores.PackageStore.Publish | native/src/lib.rs:505-516 | seals and flips to the given or next generation, or changes nothing |
| PackageStores.PackageStore.Open | native/src/lib.rs:480-490 | opens exactly pins of sealed generations, with their bytes |
| PackageStores.FromPackage | native/src/lib.rs:562-585 | a fresh store with the image of the package's current generation, pointed to by CURRENT; fails exactly when there is none to read (the manifest is left out) |
| PackageStores.PublishIsItsSteps | native/src/lib.rs:505-516 | the steps of one undisturbed publisher leave exactly what the whole publish leaves |
| PackageStores.SeededStoreCounts | native/src/lib.rs:570-584 | over every run of default publishers a seeded store counts on from the package's generation, one by one, and CURRENT is sealed |
| PackageStores.SeededBytesAgree | native/src/lib.rs:570-584 | whatever happens to the package later, its generation keeps the bytes the seeded store has |
| S3Keys.S3ZarrMap.ListedKeys | python/tet/convert.py:357-364 | fetches the listing once, keeps the store keys under the prefix, and returns the same list ever after |
| S3Keys.ExpandsBack | python/tet/convert.py:322-326 | a listed key expands to the object it came from if and only if it does not start with a slash |
| S3Keys.KeysRoundTrip | python/tet/convert.py:322-364 | every iterated key is contained, distinct keys expand to distinct objects, and every store object under the prefix is iterated |
| S3Keys.StoreKeyMeans | python/tet/convert.py:367-375 | exactly the keys whose last part is a metadata name, digits, or dots and digits, and those with a part `c`, are iterated |
| S3Keys.RelativeMeans | native/src/lib.rs:805-822 | a relative key is what follows the prefix and a slash |
| S3Keys.TrimSlashesMeans | python/tet/convert.py:317 | the prefix loses exactly the slashes at its ends |
| S3Keys.DoubledSlashIsLost | native/src/lib.rs:805-822 | a concrete object whose iterated key expands to another object |

## Left out

- The tetration crate (planner, codecs, part merging, catalog, object access) is not part of this model; its promises are the predicates listed under Assumptions.
- PyO3 glue, error texts, `numpy` array construction, the actual file mapping, temporary files and file writes: bytes are sequences.
- Dtype tables: the element size is a positive number. A dtype without an element size takes the copying path, which needs no proof.
- A debug build panics where a release build wraps; only the release behaviour is modelled.
- The detectors' early-return scans are split into one helper method per scan (`HasSameTrailing`, `AreConsecutiveSlabs`, `AreRaw`, `AreAdjacent`); `f16` widening in `outcome_to_py` is not modelled.
- ReadNumpy.Read: assumes the well-formed plan of the crate's planner, and a file smaller than the address space.
- The group tree of HDF5, NetCDF and Zarr is one map from path to node inside a class, not linked group objects; attributes, chunking and compression of the written arrays are left out.
- PathTrees.GroupFile.CreateArray: what a library does itself with an empty component, `.` or a leading slash is not modelled. HDF5, which gets the whole name, resolves `a/./b` and `a//b` to `a/b`, and a library may refuse an empty group name, so for such names the theorems speak of this repository's splitting and joining only.
- PathTrees.GroupFile.EnsureGroup: group creation that fails for reasons of the library's own is not modelled.
- Arrays without dimensions or elements and arrays of skipped dtypes are the `None` case of the `wire` parameter.
- Zarr stores that are not groups at the root, and the choice between Zarr versions.
- NetcdfRoundTrip.ExportNetcdf: a dimension of length 0 is unlimited for the library, and the library may refuse a variable for reasons of its own; neither is modelled.
- CSV tokenising, file decoding and the choice of delimiter: the table starts from rows of fields. The numeric columns of Parquet need the library's null masks and are left out; its label columns are `ImportLabels`.
- Rounding of integers and decimal texts to floats, and which texts `float()` accepts, are parameters of `FloatLib`.
- Categories.Category.PushLabel: a label that is not valid Unicode (a lone surrogate) is not a `string` here.
- `str.isdigit` is the parameter `isDigit` of the S3 key map, because it depends on the Unicode tables of the interpreter.
- S3Keys.KeysRoundTrip: assumes no listed relative key starts with a slash; `ExpandsBack` says that this is exactly when a key survives.
- PackageStores.FromPackage: the manifest of the generation, which is copied when it can be read, is not part of the modelled store.
- StoreRuns.CurrentSealedStep: whether the crate refuses to publish an unsealed generation is not visible in this repository, so both behaviours are covered by `checksSeal`.
- Package `pack`, dry runs, pin-text parsing, and the local-directory and S3 variants of the store, which forward to the same wrappers.
- TetFile reductions, query building, dataset listing and the writer session, which forward to the crate.
