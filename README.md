# Astro scripts: star-trail stacking and timelapse frame selection

This project models the two scripts of the Astro repository that hold logic.

- `Star_trail.py` is a star-trail stacker. It keeps the entries of the working
  directory whose last four characters are ".jpg" or ".JPG". It sizes a
  zero-filled (height, width, 3) accumulator from the first of them. It folds
  every selected picture into the accumulator by an element-wise maximum. Then
  it rounds the result to 8-bit and saves it as the stacked picture.
- `create_timelapse_from_images.py` (`convert_images_to_video`) converts a
  folder to a video. It keeps the folder entries ending in ".jpg" or ".png"
  (case-sensitive) and sorts them by name. It opens a video writer sized after
  the first of them. It writes one frame per selected file, in sorted order,
  and releases the writer.

Modules:

- `Wrappers` (wrappers.dfy): `Option` and `Result`.
- `Listing` (listing.dfy): the order-preserving filter behind both list
  comprehensions, Python's `s[-n:]` and `str.endswith`.
- `StringOrder` (string_order.dfy): Python's ordering of strings and
  `sorted`, written as an insertion sort. It is proved to be the only
  ascending arrangement of its input, so it agrees with Python's algorithm.
- `StarTrail` (star_trail.dfy): the stacker. A decoded picture is a `Raster`
  with a numpy shape (height, width, channels). Its values are one flat
  sequence in numpy's row-major order, with the channel varying fastest. The
  accumulator is an `array<int>` that the method `Accumulate` updates in place.
  The method `StackTrail` is the whole script, and it is proved equal to the
  function `StackTrailSpec`. The per-cell meaning of the stack (`IsCellMax`),
  order independence and idempotence are lemmas about `Fold`, the function that
  gives the accumulator after a sequence of pictures.
- `Timelapse` (timelapse.dfy): frame selection (`FrameFiles`), the video writer
  as a class whose `frames` field records what was written, and the method
  `ConvertImagesToVideo`.

Inputs the scripts get from the outside are parameters. The directory listing
is a sequence of names. `Image.open` followed by `numpy.array` is
`decode: string -> Option<Image>`, and `cv2.imread` is
`read: string -> Option<Frame>`. In both, `None` stands for a file that cannot
be read.

## Model

| member | source | states |
|---|---|---|
| `Listing.Filter` | Star_trail.py:6 | a name is kept iff it is listed and passes the test; the result is never longer than the listing |
| `Listing.FilterConcat` | Star_trail.py:6 | filtering distributes over concatenation, so kept names stay in listing order |
| `Listing.FilterCount` | create_timelapse_from_images.py:11 | each kept name occurs exactly as often as in the listing, every other name not at all |
| `Listing.PyTail` | Star_trail.py:6 | `name[-4:]` has length min(len, 4) and is a suffix of the name (the whole name when it is shorter) |
| `Listing.EndsWith` | create_timelapse_from_images.py:11 | `str.endswith`: the name is some string followed by the suffix |
| `Listing.SplitOffSuffix` | create_timelapse_from_images.py:11 | a name is some string followed by the suffix iff its last characters are the suffix |
| `StringOrder.Le` | create_timelapse_from_images.py:11 | Python's `str` `<=`, which `sorted` uses: the first string is a prefix of the second, or has the smaller code point where they first differ |
| `StringOrder.FirstDifference` | create_timelapse_from_images.py:11 | when the first characters differ, they alone decide the order |
| `StringOrder.PrefixOfTails` | create_timelapse_from_images.py:11 | with equal first characters, one string starts the other iff the rests do |
| `StringOrder.SmallerAtTails` | create_timelapse_from_images.py:11 | with equal first characters, a first difference at i+1 is a first difference of the rests at i |
| `StringOrder.EqualHeads` | create_timelapse_from_images.py:11 | with equal first characters, the order is that of the rests |
| `StringOrder.LeReflexive` | create_timelapse_from_images.py:11 | Python's string `<=` is reflexive |
| `StringOrder.LeTotal` | create_timelapse_from_images.py:11 | any two strings are comparable |
| `StringOrder.LeAntisymmetric` | create_timelapse_from_images.py:11 | strings ordered both ways are equal |
| `StringOrder.LeTransitive` | create_timelapse_from_images.py:11 | the order is transitive |
| `StringOrder.Insert` | create_timelapse_from_images.py:11 | inserting into an ascending list keeps it ascending and adds exactly that one name |
| `StringOrder.Sort` | create_timelapse_from_images.py:11 | `sorted` returns an ascending permutation of its input |
| `StringOrder.SortedPermutationUnique` | create_timelapse_from_images.py:11 | two ascending lists with the same elements are equal, so the sorted order is unique |
| `StarTrail.Raster.Size` | Star_trail.py:7 | PIL's `Image.size` is the first two entries of the numpy shape in reverse order, so the width comes first |
| `StarTrail.OffsetInRange` | Star_trail.py:9 | every (row, col, channel) of a (height, width, 3) buffer lies inside its height*width*3 cells, so `StackedPixel` can address it |
| `StarTrail.IsStackInput` | Star_trail.py:6 | `name[-4:] in [".jpg", ".JPG"]`: an entry is stacked iff it ends with ".jpg" or ".JPG" |
| `StarTrail.StackInputExamples` | Star_trail.py:6 | ".jpeg", ".Jpg", ".png" and a bare "jpg" are excluded; ".jpg" and ".JPG" names are included |
| `StarTrail.SelectImages` | Star_trail.py:6 | the comprehension: a name is selected iff it is listed and stacked |
| `StarTrail.SelectImagesSpec` | Star_trail.py:5-6 | each matching entry is selected as often as it is listed, and listing order is kept |
| `StarTrail.SelectionScenario` | Star_trail.py:6 | from "a.jpg", "notes.txt", "b.jpg" the selection is "a.jpg", "b.jpg" |
| `StarTrail.MaxCells` | Star_trail.py:15 | each cell of `numpy.maximum` is at least both inputs' cells and equal to one of them |
| `StarTrail.Zeros` | Star_trail.py:9 | the initial accumulator has the requested number of cells, all 0 |
| `StarTrail.Fold` | Star_trail.py:9-16 | the accumulator keeps its size, and every cell stays within [0, 255] |
| `StarTrail.FoldIsCellMax` | Star_trail.py:10-16 | after k pictures each cell is the maximum of 0 and that cell over the k pictures |
| `StarTrail.CellMaxUnique` | Star_trail.py:12-15 | two picture lists with the same members have the same cell maxima |
| `StarTrail.OrderIndependent` | Star_trail.py:12-15 | the stack depends only on which pictures are stacked, not on order or repetition |
| `StarTrail.PermutationInvariant` | Star_trail.py:12-15 | stacking a permutation of the pictures gives the same stack |
| `StarTrail.DuplicateIdempotent` | Star_trail.py:12-15 | stacking a picture a second time changes nothing |
| `StarTrail.StepMonotone` | Star_trail.py:15 | one step never lowers a cell and leaves it at least the new picture's cell |
| `StarTrail.DarkerPictureIsNeutral` | Star_trail.py:15 | a picture nowhere brighter than the stack (such as an all-black one) leaves it unchanged |
| `StarTrail.TwoPictureScenario` | Star_trail.py:12-16 | 2x2 pictures of all 10 and of 5 with 50 at (0, 1) stack to 10 with 50 at (0, 1) |
| `StarTrail.ToUint8` | Star_trail.py:18 | the cast to `uint8` keeps every value in [0, 255] and is otherwise congruent modulo 256 |
| `StarTrail.Finalize` | Star_trail.py:18 | the output has shape (height, width, 3), and each in-range accumulator value is kept exactly by the rounding and the uint8 cast |
| `StarTrail.SinglePictureUnchanged` | Star_trail.py:12-18 | stacking one picture (such as a 1x1 picture of value 200) outputs that picture unchanged |
| `StarTrail.Load` | Star_trail.py:14-15 | a file loads iff it decodes to a picture of the accumulator's shape (height, width, 3), and then to that picture; otherwise the error is `DecodeError` when it cannot be read and `ShapeMismatch` with the expected and actual shapes when it can |
| `StarTrail.LoadAll` | Star_trail.py:12-15 | on success every selected file loaded, in order; on failure the error is that of the first file that did not load |
| `StarTrail.FailureSticks` | Star_trail.py:12-15 | once a file fails to load, the run ends with that error whatever follows it |
| `StarTrail.LoadAllExtend` | Star_trail.py:14-15 | loading one more file appends its picture or stops with its error |
| `StarTrail.LoadedLength` | Star_trail.py:14-15 | every loaded picture has exactly as many values as the accumulator |
| `StarTrail.StackTrailSpec` | Star_trail.py:5-18 | the whole script as a function: `NoInputImages` iff nothing is selected (line 7); `DecodeError` of the first selected file when it cannot be read (line 7); otherwise success iff every selected file decodes to the first one's (height, width) with 3 channels, and on failure the `DecodeError` or `ShapeMismatch` of the first selected file that does not; a picture it produces has the first selected file's size and three channels |
| `StarTrail.StackTrailOutcome` | Star_trail.py:5-18 | on success every selected file decoded, and each value of the output is the maximum of 0 and that value over all selected pictures |
| `StarTrail.StackedPixel` | Star_trail.py:9-18 | on success the output at (row, col, channel) is the maximum of 0 and every selected picture's value at (row, col, channel) |
| `StarTrail.ShapeMismatchScenario` | Star_trail.py:12-15 | a 2x3 second picture after a 2x2 first one (shapes numpy cannot broadcast) stops the run with ShapeMismatch |
| `StarTrail.SameSelection` | Star_trail.py:5-6 | two listings with the same entries select the same names |
| `StarTrail.LoadAllSubset` | Star_trail.py:12-15 | names drawn from a list that loads also load |
| `StarTrail.LoadAllSameMembers` | Star_trail.py:12-15 | lists of the same names load to lists of the same pictures |
| `StarTrail.StackTrailOrderIndependent` | Star_trail.py:5-18 | listing the directory in another order does not change a successful run's output |
| `StarTrail.Accumulate` | Star_trail.py:15 | the in-place step leaves the accumulator equal to the element-wise maximum of its old value and the picture |
| `StarTrail.StackTrail` | Star_trail.py:5-18 | the script's outcome equals `StackTrailSpec`: the errors above, or the finalized fold of all selected pictures |
| `Timelapse.IsFrameFile` | create_timelapse_from_images.py:11 | a name is a frame file iff its last four characters are exactly ".jpg" or ".png" |
| `Timelapse.FrameFileExamples` | create_timelapse_from_images.py:11 | ".jpg" and ".png" names are frames; ".JPG", ".PNG", ".jpeg" and a bare "jpg" are not |
| `Timelapse.FrameFiles` | create_timelapse_from_images.py:11 | the chosen names are in ascending order |
| `Timelapse.FrameFilesSelect` | create_timelapse_from_images.py:11 | the chosen names are exactly the ".jpg"/".png" entries, each as often as listed |
| `Timelapse.FrameFilesCanonical` | create_timelapse_from_images.py:11 | any ascending arrangement of the ".jpg"/".png" entries equals the chosen list |
| `Timelapse.FrameFilesIgnoreListingOrder` | create_timelapse_from_images.py:11 | the folder's listing order does not change the chosen list |
| `Timelapse.FrameFilterSkips` | create_timelapse_from_images.py:11 | a ".JPG" entry and a ".txt" entry are both dropped by the comprehension |
| `Timelapse.FrameFilterScenario` | create_timelapse_from_images.py:11 | before sorting, "b.png", "a.jpg", "c.JPG", "notes.txt" keep "b.png" then "a.jpg", in listing order |
| `Timelapse.FrameFilesScenario` | create_timelapse_from_images.py:11 | "b.png", "a.jpg", "c.JPG", "notes.txt" give "a.jpg" then "b.png" |
| `Timelapse.VideoWriter.constructor` | create_timelapse_from_images.py:16-17 | a new writer keeps its path, codec, frame rate and (width, height) and holds no frames |
| `Timelapse.VideoWriter.Write` | create_timelapse_from_images.py:22 | writing appends exactly that frame (a released writer ignores it) |
| `Timelapse.VideoWriter.Release` | create_timelapse_from_images.py:24 | releasing closes the writer and keeps its frames |
| `Timelapse.ConvertImagesToVideo` | create_timelapse_from_images.py:9-25 | no frame files fails with NoImageFiles and an unreadable first file with UnreadableFirstImage, both before any writer exists; otherwise a released "mp4v" writer sized (width, height) of the first sorted file holds one frame per chosen file, frame i read from the i-th |

## Left out

- `capture_timelapse_withinput.py` is not part of this model. It drives camera hardware, sleeps between shots and formats wall-clock time, and it has no logic to state.
- Image decoding and encoding are parameters or left out: `Image.open` plus `numpy.array` is `decode`, `cv2.imread` is `read`, and saving the stacked picture as JPEG (Star_trail.py:20-21) and the "mp4v" encoding are not modelled.
- `os.listdir`/`os.getcwd` become an input sequence of names; `os.path.join` is dropped because `read` is keyed by the entry name.
- numpy's floating-point accumulator holds integers here. Every value it ever holds is a whole number in [0, 255], so `numpy.round` does nothing.
- `StarTrail.ToUint8`: numpy's cast of an out-of-range float to `uint8` is platform-dependent; it is modelled as modulo 256, a case that never arises.
- numpy broadcasting: `numpy.maximum` accepts some differing shapes (a dimension of 1) and would broadcast them. The model treats any shape other than (height, width, 3) as a `ShapeMismatch`. A picture that decodes to a 2-D array (greyscale) is not represented.
- `numpy.float` (Star_trail.py:9, 14) no longer exists from NumPy 1.24 on; the model describes the script as it runs on earlier NumPy versions.
- Names are Dafny strings of Unicode scalar values, so the lone surrogates that `os.listdir` returns for undecodable file names are not represented, nor is their place in the `sorted` order (create_timelapse_from_images.py:11).
- `Listing.PyTail` models `s[-n:]` only for positive `n`; `s[-0:]`, which is all of `s`, is never used.
- `Star_trail.py` opens the first file twice (lines 7 and 14); with `decode` a function, the two opens agree.
- The progress message (Star_trail.py:13) is not modelled; its counter is a loop variable whose value the loop invariant states.
- `cv2.destroyAllWindows()` (create_timelapse_from_images.py:25) and the module-level call with empty arguments (lines 4-7, 30) are not modelled.
- What the video codec does with a frame (`None` from an unreadable file, or a frame of another size) is not modelled. The writer records exactly what it is given.
