# lantern-image-loader, modelled in Dafny

This project models the sequential core of `LanternImageLoader`, a C++
header-only image loader that feeds a training loop. It has three parts.

- **Loader** (`loader.dfy`) models `LanternImageLoader`.
  - It keeps a registry of named datasets, each with its own state:
    - a pixel buffer of `TOTAL_IMAGES` slots of `IMG_WIDTH * IMG_HEIGHT * (3|1)` bytes;
    - a label array;
    - a list of image paths.
  - One ring buffer (`head`, `tail`, `count`) is shared by two sides:
    - the producer, `Put`, which the `Loaders` thread drives;
    - the consumer, `Get` and `GetAsAF`.
  - The class is a Dafny `class`. Its fields are those of the source: the dataset maps, the class sizes, the stop flag and the three counters.
    - Pixel buffers are `array<byte>`. Label arrays are `array<string>`.
    - A ghost `Queue` lists the images waiting in the ring, oldest first.
  - `Valid()` holds after every operation. It says three things:
    - `tail == (head + count) % TOTAL_IMAGES`;
    - every buffer has the size the constructor gives it;
    - the k-th queued image sits in slot `(head + k) % TOTAL_IMAGES` of its dataset's buffer and label array.
  - So `Put` and `Get` are proved against a FIFO queue of images.
- **Sampling** (`sampling.dfy`) models `lantern::data::GetRandomSampleClassIndex`, the stratified sampler that picks the indices of the next batch.
  - The random generator is an input stream of values.
  - The unbounded reject-on-duplicate loops end with `RetriesExhausted` when the stream runs out.
  - Every property holds for every stream.
  - Three recursive functions define the draw over the stream: `Scanned` (one reject loop), `ClassScan` (the class loop) and `Stratified` (the class loop, then the remainder). Each method is proved to return exactly what its function gives, so the result depends on the stream alone. The lemmas about the functions state the guarantees.
- **Csv** (`csv.dfy`) models `ReadCSVFile` and the `CSVFile` accessors of `headers/File.h`.
  - It covers splitting lines on `,` the way `std::getline` does, the equal-width check, and the bounds-checked `Get`, `Col`, `Row` and `GetPtrRow`.
  - `ConvertFromString` covers `std::string` and integer targets.
- `paths.dfy` holds the path pieces the loader uses: `filename()`, `extension()`, the parent directory's name and ASCII lower-casing. Paths are POSIX strings with '/' as the only separator; a run of separators before the file name counts as one, as `parent_path()` treats it. `wrappers.dfy` holds `Option`, `Result` and `Outcome`.

Each thrown `std::runtime_error` is a `Failure`/`Fail` value with its own error case. Each condition-variable wait becomes a precondition:
- `Put` requires `count < TOTAL_IMAGES || stop_thread`;
- `Get` requires `count > 0 || stop_thread`.

The outside world becomes parameters:
- decoding and resizing a file is a function from the path to what stb produced;
- a directory is its listing;
- a file is its lines plus the results of the existence and type checks;
- the random generator is a stream of values.

Where the code and its documented intent differ, the model follows the code:
- `Get` returns null whenever `stop_thread` is set, even with images waiting (`headers/Loader.h:122`).
- Class c's indices are drawn from the closed range `[prefix, prefix + size]`. That range includes the first index of the next class (`Sampling.RangesOverlap`). The remainder is drawn from `[0, sum]`.
- The small-population shuffle stops at `&ptr[size - 1]`, so the last index is never moved (`Sampling.ShuffledRange`).
- `Loaders` decrements the last class size as a `uint32_t`, so an empty last class wraps to 2^32 - 1 (`Loader.DecrementU32`).
- The class sizes are one vector shared by all datasets.
- `Put` creates the active dataset's label array before it tries to decode, so a file stb cannot load still creates it.
- `std::from_chars` ignores characters after the digits, and `ConvertFromString` never checks `ptr`. So `"12abc"` converts to 12 (`Csv.FromCharsShow`).

## Model

| member | source | states |
|---|---|---|
| Paths.FileName | headers/Loader.h:57 | the file name contains no '/', is a suffix of the path, and is preceded by '/' when shorter than the path |
| Paths.Extension | headers/Loader.h:109 | a nonempty extension starts with its only '.', and is a proper suffix of the file name |
| Paths.ExtensionFound | headers/Loader.h:109 | a file name with a '.' after its first character always has an extension |
| Paths.ParentName | headers/Loader.h:57 | the parent directory's name contains no separator; the separators between it and the file name are skipped, as `parent_path()` skips them |
| Paths.ParentNameOfEntry | headers/Loader.h:57 | a file `dir/name/file`, with one or more '/' before `file`, gets the class label `name` |
| Paths.ExtensionLower | headers/Loader.h:109-110 | lower-casing the path and then taking its extension equals lower-casing the extension |
| Paths.IsImageIgnoresCase | headers/Loader.h:107-113 | whether a path is an image does not depend on letter case |
| Csv.JoinPieces | headers/File.h:198-203 | joining the pieces of a line with ',' gives the line back |
| Csv.PiecesHaveNoComma | headers/File.h:200-203 | no piece contains the separator |
| Csv.PiecesOfJoin | headers/File.h:200-203 | splitting comma-free pieces joined by ',' gives back exactly those pieces, empty ones included |
| Csv.FieldsOfJoin | headers/File.h:198-203 | interior empty fields are kept, and a trailing comma adds no empty field |
| Csv.FieldsEmpty | headers/File.h:195-203 | a line has no fields if and only if it is empty |
| Csv.SplitLine | headers/File.h:198-203 | the character loop produces exactly the getline fields of the line |
| Csv.ReadCsvFile | headers/File.h:170-225 | each failure in the source's order (missing path, not a regular file, extension other than ".csv", open failure); otherwise success if and only if all rows are as wide as the first, with row i the fields of line i |
| Csv.ReadRows | headers/File.h:195-212 | success if and only if every line has as many fields as the first; a mismatch is ColumnCountMismatch; on success, one row per line holding that line's fields |
| Csv.FromChars | headers/File.h:26-30 | a success fits the target integer type; every failure is InvalidConversion (which inputs fail is stated by `FromCharsRun`, `FromCharsMinusRun`, `FromCharsOutOfRange` and `FromCharsNoDigits`) |
| Csv.ConvertFromString | headers/File.h:20-37 | the identity for strings; an integer result fits its type; only an integer conversion can fail |
| Csv.FromCharsShow | headers/File.h:26-31 | an integer that fits the type, written in decimal and followed by any non-digit text, converts back to itself |
| Csv.FromCharsUnsignedMinus | headers/File.h:26-30 | an unsigned target rejects a leading '-' |
| Csv.FromCharsRun | headers/File.h:26-30 | a run of digits followed by a non-digit converts to its decimal value when the type holds it, and fails with InvalidConversion otherwise |
| Csv.FromCharsMinusRun | headers/File.h:26-30 | for a signed type, '-' and a run of digits converts to the negated value when the type holds it, and fails with InvalidConversion otherwise |
| Csv.FromCharsOutOfRange | headers/File.h:26-30 | a written integer the type cannot hold is rejected with InvalidConversion |
| Csv.FromCharsNoDigits | headers/File.h:26-30 | text with no leading digit, after a '-' only for signed types, is rejected with InvalidConversion |
| Csv.ConvertAll | headers/File.h:112-119 | success if and only if every cell converts; the result has one converted value per cell, in order |
| Csv.Get | headers/File.h:80-92 | fails with ColumnOutOfBounds exactly when the column is past the first row's width, checked first; then with RowOutOfBounds exactly when the row is past the row count; otherwise it converts that cell |
| Csv.Col | headers/File.h:100-121 | a column past the first row's width fails; otherwise success if and only if every row's cell in that column converts, giving one value per row, top to bottom; an in-range column whose cell does not convert gives InvalidConversion |
| Csv.Row | headers/File.h:129-151 | a row past the row count fails; otherwise success if and only if every cell of the row converts, giving one value per cell, as many as the table is wide; an in-range row whose cell does not convert gives InvalidConversion |
| Csv.GetPtrRow | headers/File.h:153-160 | succeeds if and only if the row exists, and then returns that row |
| Sampling.Pick | headers/DataProcessing.h:102 | a draw from the closed range lands in the range |
| Sampling.PickCovers | headers/DataProcessing.h:102 | every value of the closed range can be drawn |
| Sampling.QuotaExact | headers/DataProcessing.h:98-99 | k quotas plus the remainder make up the batch size exactly |
| Sampling.DrawDistinct | headers/DataProcessing.h:104-112 | the picked indices, the stream position reached and the outcome are exactly those of the reference scan `Scanned`: read the stream, take each value not yet in the already-added set, stop at the quota or at the end of the stream; the set grows by exactly the picks |
| Sampling.DrawNew | headers/DataProcessing.h:105-111 | reads until a value not yet taken turns up; every value passed over was already taken, and a miss means the stream ran out; the rest of the reference scan continues with that value taken |
| Sampling.ScannedDistinct | headers/DataProcessing.h:105-110 | the values a scan takes stay distinct, inside the range and outside the set it started from |
| Sampling.ScannedCount | headers/DataProcessing.h:104-112 | a scan either meets its quota, or it has read the whole stream and is short of it |
| Sampling.ScannedRead | headers/DataProcessing.h:105-110 | every value a scan reads ends up used or taken: a value is passed over only when `already_add` already holds it |
| Sampling.ScanTooFew | headers/DataProcessing.h:101-112 | a range with fewer free values than the quota makes the scan fail |
| Sampling.ScanOutcome | headers/DataProcessing.h:104-112 | from an empty start: distinct new values of the range; success gives the full quota; failure only at the end of the stream and short of the quota; success exactly when the rest of the stream offers at least `quota` new values; too few free values in the range always fails |
| Sampling.DrawClasses | headers/DataProcessing.h:101-113 | the batch, the stream position and the outcome are exactly those of the reference class loop `ClassScan`, and the taken set is the batch's values |
| Sampling.ClassScanDistinct | headers/DataProcessing.h:101-113 | the class loop's batch stays distinct |
| Sampling.ClassScanChunks | headers/DataProcessing.h:101-113 | a successful class loop gives one chunk of q indices per class, in class order, each from its class's closed range |
| Sampling.ClassScanSmall | headers/DataProcessing.h:101-113 | a class whose range holds fewer than q values makes the class loop fail |
| Sampling.ClassScanExhausted | headers/DataProcessing.h:101-113 | the class loop fails only after reading the whole stream |
| Sampling.ChunksBounded | headers/DataProcessing.h:101-103 | every class-loop index is at most the sum of the sizes |
| Sampling.ChunkLayout | headers/DataProcessing.h:101-113 | the class-loop output has k*q indices, and positions c*q up to c*q+q-1 lie in class c's range |
| Sampling.RangesOverlap | headers/DataProcessing.h:102-103 | the first index of class c+1 is a legal draw for class c as well |
| Sampling.DistinctBounded | headers/DataProcessing.h:115-123 | at most hi+1 distinct indices fit in [0, hi] |
| Sampling.StratifiedSample | headers/DataProcessing.h:23-65 | the result and the stream position reached are exactly those of the reference draw `Stratified`; so a success is batch-size distinct indices, class quotas in class order, then remainder indices in [0, sum]; an unsatisfiable population fails; any failure has read the whole stream |
| Sampling.StratifiedSound | headers/DataProcessing.h:93-125 | a successful reference draw is a stratified batch: batch-size distinct indices, class quotas in class order, then the remainder in [0, sum] |
| Sampling.StratifiedUnsatisfiable | headers/DataProcessing.h:93-125 | a class range smaller than the quota, or fewer than batch-size values in [0, sum], makes every draw fail |
| Sampling.StratifiedExhausted | headers/DataProcessing.h:93-125 | a reference draw fails only after reading the whole stream |
| Sampling.ShufflePrefix | headers/DataProcessing.h:89 | the shuffle permutes the buffer and leaves everything from position n on in place |
| Sampling.ShuffledRange | headers/DataProcessing.h:83-90 | a permutation of 0..total-1 of length total, whose last element is still total-1 |
| Sampling.PermutationBounds | headers/DataProcessing.h:84-89 | a permutation of 0..n-1 holds distinct indices below n |
| Sampling.GetRandomSampleClassIndex | headers/DataProcessing.h:75-126 | for a total of at most 20, always a permutation of 0..total-1 (not batch-size long) with the last index in place; above 20, the result and stream position of the reference draw `Stratified`, with its guarantees: a stratified batch on success, failure for an unsatisfiable population, and failure only after the whole stream is read |
| Loader.FilterMembers | headers/Loader.h:149-156 | the filter keeps exactly the listed entries that the test accepts |
| Loader.FilterAppend | headers/Loader.h:149-156 | filtering is done entry by entry in listing order: filtering a concatenation concatenates the filtered parts |
| Loader.ImageFilesMembers | headers/Loader.h:149-156 | the kept paths are exactly the listed entries that IsImage accepts |
| Loader.AppendImages | headers/Loader.h:147-156 | the new path list is the old one followed by the accepted entries in listing order; the counter is their number modulo 2^32 |
| Loader.IncrementU32 | headers/Loader.h:154 | a uint32_t counter that tracks n tracks n+1 after `++` |
| Loader.DecrementU32 | headers/Loader.h:72 | the uint32_t decrement is undone by a uint32_t increment, with 0 wrapping to 2^32-1 |
| Loader.Decremented | headers/Loader.h:72 | the decrement touches only the last class size |
| Loader.SumU32 | headers/Loader.h:74-78 | the accumulated total is the sum of the class sizes modulo 2^32 |
| Loader.SumDecremented | headers/Loader.h:72-78 | when the last class is not empty, the decrement takes exactly one from the sum |
| Loader.SampledIndicesBounded | headers/DataProcessing.h:83-124 | every index the sampler returns is at most the sum of the class sizes |
| Loader.SampleBatch | headers/Loader.h:86 | called with the uint32_t total, the sampler returns only indices at most that total, and always succeeds for 20 images or fewer |
| Loader.StoredDataset | headers/Loader.h:91-94 | every image a batch puts belongs to the dataset that was active |
| Loader.StoredAllDecoded | headers/Loader.h:89-95 | when every file decodes, the batch adds one image per index, in batch order, each labelled with its file's parent directory |
| Loader.StoredAt | headers/Loader.h:89-95 | the i-th image a fully decoded batch adds comes from the i-th index |
| Loader.AheadIsMod | headers/Loader.h:64 | the ring step used by the model is `(start + k) % TOTAL_IMAGES` |
| Loader.PrevSlotAfter | headers/Loader.h:232 | `head > 0 ? head - 1 : TOTAL_IMAGES - 1`, read after Get advances head, is the slot Get handed out |
| Loader.PrevSlot | headers/Loader.h:232 | the label index is a valid slot |
| Loader.OffsetIsProduct | headers/Loader.h:52 | the byte offset of slot `tail` is `tail * W * H * C` |
| Loader.SlotFits | headers/Loader.h:24 | every slot ends inside a buffer of TOTAL_IMAGES slots |
| Loader.DisjointSlots | headers/Loader.h:52 | two different slots do not overlap |
| Loader.SpliceSlot | headers/Loader.h:49-55 | after a slot is written, that slot holds the written pixels |
| Loader.SpliceOtherSlot | headers/Loader.h:49-55 | writing one slot leaves every other slot's bytes as they were |
| Loader.CopyInto | headers/Loader.h:49-55 | the buffer gets the pixels at the offset and keeps every other byte |
| Loader.LanternImageLoader.constructor | headers/Loader.h:18-28 | no datasets, no class sizes, an empty ring with head = tail = count = 0, stop unset, and a per-dataset allocation of TOTAL_IMAGES * W * H * C bytes |
| Loader.LanternImageLoader.QueueHeldShift | headers/Loader.h:127-128 | the oldest queued image is in the slot at head, and the remaining queue is held from the next slot on |
| Loader.LanternImageLoader.QueueHeldAppend | headers/Loader.h:49-65 | an image written at the slot after the last queued one extends the queue |
| Loader.LanternImageLoader.CheckDatasetValid | headers/Loader.h:134-140 | passes if and only if a dataset is active, and then the dataset is registered; otherwise NoActiveDataset |
| Loader.LanternImageLoader.CreateDatasetForFolder | headers/Loader.h:174-181 | an existing name fails and changes nothing; a new name gets a fresh buffer of the allocation size, and every other dataset and the ring are unchanged |
| Loader.LanternImageLoader.SelectDatasetToModify | headers/Loader.h:165-172 | an unknown name fails and leaves the selection; a registered name becomes active; nothing else changes |
| Loader.LanternImageLoader.GetImagesDataFromFolder | headers/Loader.h:142-163 | fails without an active dataset, then for a missing path or a non-directory; otherwise appends exactly the listing's image files, in order, to the active dataset's paths and pushes their number as one class size |
| Loader.LanternImageLoader.AddClass | headers/Loader.h:153-157 | the active dataset's path list is replaced and one class size is appended; nothing else changes |
| Loader.LanternImageLoader.ReadCSVLabelDataFromFolder | headers/Loader.h:203-206 | fails without an active dataset; passes exactly when the CSV read succeeds, and then the active dataset's table is the file's rows; a failed read leaves every table alone |
| Loader.LanternImageLoader.SetLabels | headers/Loader.h:205 | the active dataset's table is replaced; nothing else changes |
| Loader.LanternImageLoader.GetCSVLabelAtRow | headers/Loader.h:235-239 | fails without an active dataset; a dataset without a table gets an empty one (so any row is out of bounds); otherwise success exactly when the row exists and every cell converts, giving the converted cells, and an existing row that does not convert gives InvalidConversion |
| Loader.LanternImageLoader.EnsureLabelArray | headers/Loader.h:40 | the active dataset has a label array afterwards; a new one is fresh and blank; the ring is unchanged |
| Loader.LanternImageLoader.WritePixels | headers/Loader.h:49-55 | the slot at tail of the active buffer holds the pixels and every other byte is kept; the queued images stay where they are |
| Loader.LanternImageLoader.WriteLabel | headers/Loader.h:57 | `label_data[tail]` is set and every other label is kept; the queued images stay where they are |
| Loader.LanternImageLoader.Advance | headers/Loader.h:64-65 | tail moves one slot on, count grows by one, and the image at the old tail joins the end of the queue |
| Loader.LanternImageLoader.Put | headers/Loader.h:30-67 | stopped: nothing changes; no active dataset: NoActiveDataset and nothing changes; a decode failure changes only the label array's creation; a label exception leaves the pixels in the slot but does not advance; a success writes the slot at tail and its label, advances tail, increments count and appends the image to the queue; other datasets are untouched |
| Loader.LanternImageLoader.Store | headers/Loader.h:43-66 | the decode and label cases of Put once the label array exists |
| Loader.LanternImageLoader.Get | headers/Loader.h:118-132 | stopped: null and nothing changes; otherwise the offset `head * S` of the oldest queued image's slot, head advances, count drops, and the queue loses its first image (FIFO); when the ring was full, tail equals the released slot |
| Loader.LanternImageLoader.Release | headers/Loader.h:128-129 | head advances, count drops by one, and the oldest image leaves the queue with its slot still holding it |
| Loader.LanternImageLoader.GetAsAF | headers/Loader.h:208-210 | without an active dataset it fails before Get; otherwise Get's result and effect |
| Loader.LanternImageLoader.GetAsAFLabeled | headers/Loader.h:220-233 | without an active dataset it fails; otherwise Get, then the label at index `head > 0 ? head - 1 : N - 1`, which is the label of the image Get handed out; the label array is created blank only when missing, and every other entry stays |
| Loader.LanternImageLoader.LoadersPrologue | headers/Loader.h:72-82 | the last class size is decremented as a uint32_t; the uint32_t total is returned, or EmptyDataset when it is zero; nothing else changes |
| Loader.LanternImageLoader.Feed | headers/Loader.h:94 | one Put from the loop adds to the queue exactly the image a successful decode gives; the CSV tables, the existing label arrays and every other dataset's buffer and labels are unchanged, and a new label array can only be the active dataset's |
| Loader.LanternImageLoader.LoadBatch | headers/Loader.h:88-95 | puts the images of the batch's indices in order; the queue grows by exactly the decoded ones; it stops at the stop flag (before any put) or when the ring is full; the CSV tables, the existing label arrays and every other dataset's buffer and labels are unchanged, and a new label array can only be the active dataset's |
| Loader.LanternImageLoader.SampleAndLoad | headers/Loader.h:85-96 | one pass of the loop: a batch whose indices all name files of the active dataset, then the puts of its first `done` indices added to the queue; the CSV tables, the existing label arrays and every other dataset's buffer and labels are unchanged, and a new label array can only be the active dataset's |
| Loader.LanternImageLoader.Loaders | headers/Loader.h:69-97 | the prologue's decrement always happens; an empty total fails, and a set stop flag ends the round before sampling, both with the queue unchanged; every sampled index names a file of the active dataset; the queue grows by exactly the decoded images of the indices put, in batch order; the CSV tables, the existing label arrays and every other dataset's buffer and labels are unchanged, and a new label array can only be the active dataset's |
| Loader.LanternImageLoader.Stop | headers/Loader.h:188-197 | the stop flag is set and nothing else changes |

## Left out

- Threads, the mutex, the condition variables, `notify_all`, `Run` and `join`. A wait is a precondition; the stop flag is a field.
- stb decoding and resizing. A function from path to `Decoded` stands for them; its pixels are assumed to already have the slot size.
- The directory iterator and `exists`/`is_directory`/`is_regular_file`/`is_open`. They are parameters, and the listing order is whatever the caller passes.
- `std::random_device`, `std::mt19937`, `std::uniform_int_distribution` and `std::shuffle`. A stream of values replaces them; nothing is claimed about distributions.
- The ArrayFire conversion in `GetAsAF`: splitting channels, reordering, float scaling. Only the handed-out offset and the label index are modelled.
- `GetCSVLabelAtCol`: it refers to an undeclared `_row` and does not compile when instantiated.
- The `istringstream` branch of `ConvertFromString` for non-arithmetic, non-string types, and floating-point `from_chars`.
- `CSVFile`'s move constructor and move assignment. `lantern::utility::Vector` is a Dafny `seq` or `array`; headers/Vector.h is not part of this model.
- src/main.cpp, the driver loop.
- `Loader.LanternImageLoader.Loaders`: models one pass of the `while (!stop_thread)` loop, not the endless repetition. It also requires:
  - the last class to be nonempty;
  - the class sizes to sum to at most the active dataset's number of paths;
  - the class sizes to sum to less than 2^32.
  
  The source indexes `_image_paths[index]` unchecked, so without the first two an index can fall outside the paths. Without the third, the `uint32_t` total after the decrement is no longer the plain sum minus one. `LoadersPrologue` models the wrap itself without these requirements.
- `Loader.LanternImageLoader.Get`: the offset is an unbounded natural. The source computes `head * W * H * C` in `uint32_t` before widening, and that wrap-around is not modelled. The same holds for the offset in `Put`.
- `Loader.LanternImageLoader.constructor`: `Allocation` is an unbounded natural. The source computes `allocation` (headers/Loader.h:24) as a `uint32_t` product before it becomes a `size_t`, and that wrap-around is not modelled.
- `Sampling.DrawClasses`: the running `prev_size` is an unbounded natural. The source keeps it in a `uint32_t` (headers/DataProcessing.h:94, 103), and that wrap-around is not modelled. The bounds handed to `std::uniform_int_distribution<>` are `int` in the source; their conversion is not modelled either.
- `Loader.LanternImageLoader.CreateDatasetForFolder`: nothing is promised about the new buffer's contents. `Vector<uint8_t>(allocation)` decides them, and headers/Vector.h is not part of this model.
- `Csv.ReadRows`: each row starts empty. The source builds each row as `Vector<std::string>(20)` (headers/File.h:197), and the model reads that constructor as reserving capacity without adding items. The evidence is that headers/File.h:110 and 141 call `explicitTotalItem` right after `Vector<T>(n)`. headers/Vector.h is not part of this model.
- `Sampling.GetRandomSampleClassIndex`: requires a total of at least 1 on the small path, because the source's `size() - 1` wraps for an empty batch.
- `Paths.ParentName`: paths are POSIX strings. A backslash is an ordinary character and there are no root names, as on the Linux build of `std::filesystem`.
- `Csv.Get`, `Csv.Col`: require a table with at least one row, because the source calls `data.front()` on it.
- The class's template parameters `TOTAL_IMAGES`, `IMG_WIDTH`, `IMG_HEIGHT` and `IsColor` are constructor arguments. The constructor states the slot size `W * H * C` and the allocation; the invariant carries the allocation as TOTAL_IMAGES repeated slot sizes, so its arithmetic stays linear.
- The ring steps are written as a conditional subtraction (`Loader.Ahead`), and `Loader.AheadIsMod` proves them equal to the source's `% TOTAL_IMAGES`.
