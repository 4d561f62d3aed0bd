# Basketball play classifier: data preparation, verified

This project is a Dafny model of the data side of a small Keras project. The
project tells dunks from jump shots and three-pointers in basketball images. The
model covers the steps between the files on disk and the confusion matrix:

- reading a folder of images and resizing them to 240 x 240
  (`get_all_images`);
- the in-place channel clean-up of an image list (`images_to_array`);
- loading every image of every target label with its label string
  (`load_images_and_labels`);
- the label pipeline of `train_CNN`: binarize the strings, split the rows into
  train and test sides, expand each 0/1 label into a two-column target, and
  tabulate the argmax of the targets against the argmax of the predictions;
- `extract_frames`, which empties the temporary frame folder and writes the
  frames of a clip as numbered JPEG files.

Pixel values are not modelled. An image is its numpy shape plus a term that
records which library call produced it (`Imaging.Pixels`). That is enough to
state where every image came from. The library calls (skimage and OpenCV
resizing, `rgba2rgb`, colour decoding, BGR to RGB) are functions whose contracts
give only the shape facts the code relies on. The file system is a value
(`Imaging.Disk`): folder listings, the image paths `paths.list_images` yields,
and the decodable files. The frame folder and the video reader are classes,
because the code changes them in place.

Modules, one per file: `Wrappers` (Option, Result), `Imaging` (shapes, library
contracts, disk), `Text` (Python string order, decimal formatting, `os.path.join`),
`ImageProcessing`, `Dataset`, `Encoding`, `Evaluation`, `Frames`.

`src/models.py` lines 20-63 repeat `load_images_and_labels` and the first steps of
`train_CNN` from `src/train_model.py` line for line. They differ only in
comments and docstrings; the code is the same. The `Dataset` and `Encoding`
modules model both copies, and the table cites `train_model.py`.

`src/video_processing.py` lines 85-107 are indented by two spaces under a function
whose docstring is indented by four. As written, Python rejects the file with an
indentation error. The model follows the evident intent: those lines are the body
of `extract_frames`.

## Where the code and its design description differ

The model follows the code in each case.

- The design describes the channel dispatch (drop 1-channel images, convert
  RGBA, keep RGB) as part of loading a labelled dataset. In the code,
  `load_images_and_labels` reads through `cv2.imread` in colour mode, which
  always gives three channels, so no image is dropped there. The dispatch is
  in `images_to_array`, which works on the lists `get_all_images` builds, and
  there it passes over the image after each pop (first row of Findings).
- The design says a clip yields one file per frame, numbered from zero. The
  code discards the first frame and writes one extra time after the last read,
  with no frame. A 30-frame clip therefore gets 29 frame files, named 0 to 28
  (second row of Findings).
- An image file that cannot be decoded makes `cv2.cvtColor` raise during
  loading. The model returns that as an error naming the file
  (`Dataset.LoadError`).

## Model

| member | source | states |
|---|---|---|
| Imaging.SkResize | src/image_processing.py:36 | `resize(img, (240,240))` on the two- and three-axis images `imread` gives sets the first two axes and keeps the channel axis |
| Imaging.Rgba2Rgb | src/image_processing.py:62 | converting a four-channel image gives a three-channel image of the same height and width |
| Imaging.CvDecodeColor | src/train_model.py:46 | `cv2.imread` in colour mode yields three channels at the decoded size |
| Imaging.CvBgrToRgb | src/train_model.py:47 | `cv2.cvtColor(img, COLOR_BGR2RGB)` keeps the shape |
| Imaging.CvResize | src/train_model.py:48 | `cv2.resize(img, (240, 240))` on a three-channel image takes (width, height) and keeps the three channels |
| Imaging.ListImages | src/train_model.py:43 | a directory that does not exist lists no images |
| Text.LexLessTotal | src/train_model.py:78-79 | the string order `LabelBinarizer` sorts classes by is trichotomous, asymmetric and irreflexive |
| Text.LexLessTrans | src/train_model.py:78-79 | that order is transitive, so with the above it is a strict total order |
| Text.NatToString | src/video_processing.py:96-104 | `'{}'.format(n)` gives a non-empty string of digits, one digit exactly when n < 10 |
| Text.NatToStringInjective | src/video_processing.py:103-104 | different counters format to different strings |
| Text.Join | src/image_processing.py:46 | `os.path.join`: an absolute name replaces the folder; otherwise the name ends the path |
| ImageProcessing.GetImage | src/image_processing.py:31-37 | an image exactly when the file decodes; it is 240 x 240 with the file's channel axis |
| ImageProcessing.GetAllImages | src/image_processing.py:31-48 | a missing folder fails. Otherwise the result holds one 240 x 240 image per listed file, in listing order. If a file cannot be read, the error names the first such file |
| ImageProcessing.ImagesToArray | src/image_processing.py:50-65 | the list after the in-place loop is `Walk` of the old list, and the returned array is that list |
| ImageProcessing.Fates | src/image_processing.py:55-62 | one fate per image; only RGBA images are converted |
| ImageProcessing.FatesExplained | src/image_processing.py:55-62 | an image is skipped exactly when the image before it was popped; every other image gets the fate its own shape dictates |
| ImageProcessing.WalkMeetsFates | src/image_processing.py:55-62 | from any position, the enumerate/pop/replace loop equals the untouched prefix followed by the per-image fates applied to the rest |
| ImageProcessing.ImagesToArrayOutcome | src/image_processing.py:55-63 | the loop's final list equals the fates applied to the input |
| ImageProcessing.ApplyPositions | src/image_processing.py:55-63 | an image that is not popped ends up at the index equal to the number of survivors before it, transformed by its fate |
| ImageProcessing.ApplyLength | src/image_processing.py:63 | the array has one row per surviving image |
| ImageProcessing.PopCount | src/image_processing.py:59 | survivors plus popped images account for every input image |
| ImageProcessing.ImagesToArrayElement | src/image_processing.py:55-63 | per input image: popped iff gray and not right after a pop; RGBA becomes RGB at the same size; others are kept; an image right after a pop is passed over unchanged; the length is the input length minus the pops |
| ImageProcessing.GrayPairLeavesGray | src/image_processing.py:55-59 | two gray images in a row leave the second, still gray, in the array |
| ImageProcessing.NormalizeChannels | src/image_processing.py:55-63 | corrected loop: the result is `Normalized` of the input, and no image in it is gray or RGBA |
| ImageProcessing.NormalizedIsRgb | src/image_processing.py:56-62 | when every input is gray, RGB or RGBA, every image of the corrected result is RGB |
| ImageProcessing.NormalizedAgreesWithoutSkips | src/image_processing.py:55-63 | with no gray image before the last position, the code as written and the corrected loop agree |
| ImageProcessing.ApplyWithoutSkips | src/image_processing.py:55-63 | with no gray image before the last position, the per-image fates equal the corrected result |
| Dataset.ImageDirShape | src/train_model.py:38-41 | a directory exactly for the types 'google' and 'broadcast'; it lies under ../data/ and its last component, after a '/', is the label |
| Dataset.LoadOne | src/train_model.py:46-48 | an image exactly when the path decodes, and it is 240 x 240 x 3 |
| Dataset.LoadPaths | src/train_model.py:45-52 | the inner loop succeeds iff every path decodes. On success there is one decoded, RGB-swapped, 240 x 240 image per path, in order. On failure the error names the first unreadable path |
| Dataset.Repeat | src/train_model.py:52 | one copy of the label per image appended |
| Dataset.LoadLabelImages | src/train_model.py:45-52 | the inner loop computes `LoadPaths`: the images of one label in path order, or the first unreadable path |
| Dataset.LoadImagesAndLabels | src/train_model.py:19-57 | the nested loops compute `Load`: the label blocks in target order, images and labels appended together |
| Dataset.LoadPathsErrorPersists | src/train_model.py:45-47 | once a path fails, later paths cannot change the outcome |
| Dataset.LoadErrorPersists | src/train_model.py:37-52 | once a label's folder fails, later labels cannot change the outcome |
| Dataset.LoadParallel | src/train_model.py:34-57 | on success, images and labels have equal length, every label is a target, and every image is 240 x 240 x 3 |
| Dataset.LoadUnknownKind | src/train_model.py:38-42 | a type other than 'google' or 'broadcast' fails at the first label, because `image_dir` is unbound; no labels load nothing |
| Dataset.LoadSucceeds | src/train_model.py:37-52 | for a known type, loading succeeds iff every listed image of every target decodes |
| Dataset.LoadStep | src/train_model.py:37-52 | the result for a target list is the result for its prefix, extended by the last label's images and that many copies of the label |
| Dataset.LoadGrouped | src/train_model.py:37-52 | the k-th image of the j-th label sits at the number of images of the earlier labels plus k, paired with that label |
| Dataset.LoadCount | src/train_model.py:54-57 | both arrays have as many rows as there are listed images over all targets |
| Encoding.FirstOther | src/train_model.py:78-79 | finds a second class exactly when not every label is the same |
| Encoding.Binarize | src/train_model.py:78-79 | fitting succeeds iff there is at least one label and at most two classes (more would give more than one column); no labels is the 'y has 0 samples' error; one 0/1 value per label |
| Encoding.BinarizeTwoClasses | src/train_model.py:78-79 | with two classes a < b, b encodes as 1 and a as 0 |
| Encoding.BinarizeOneClass | src/train_model.py:78-79 | with a single class every label encodes as 0 |
| Encoding.Expand | src/train_model.py:87-89 | `np.hstack((y, 1-y))`: two columns, the first is y, and the two sum to 1 |
| Encoding.SplitCheck | src/train_model.py:82-85 | the split goes ahead iff images and labels have equal length, the train side is not empty, every class has at least two rows, and each side has at least as many rows as there are classes; a length mismatch is reported first |
| Encoding.Prepare | src/train_model.py:78-89 | no labels gives the 0-samples error; with at most two classes, a length mismatch gives its error; on success there are ceil(0.2 n) test rows and n - ceil(0.2 n) train rows, images and targets alike |
| Encoding.Gather | src/train_model.py:82-85 | fancy indexing picks row idx[k] for position k |
| Encoding.GatherPermutation | src/train_model.py:82-85 | taking every row exactly once keeps the multiset of rows |
| Encoding.PrepareRows | src/train_model.py:78-89 | after binarizing, the split and the expansion, the test side has ceil(0.2 n) rows and the train side the rest; every image stays beside the expanded code of its own label |
| Encoding.PrepareIsPermutation | src/train_model.py:82-89 | the train and test (image, target) pairs together are a permutation of the input pairs |
| Encoding.PairsGather | src/train_model.py:82-89 | splitting before or after pairing images with targets gives the same pairs |
| Encoding.GatherConcat | src/train_model.py:82-85 | indexing with train then test indices is indexing with their concatenation |
| Evaluation.ArgMax | src/train_model.py:135 | `argmax` gives an index holding the maximum, and the first such index |
| Evaluation.ArgMaxRows | src/train_model.py:135 | `argmax(axis=1)` gives one valid column index per row |
| Evaluation.TargetClasses | src/train_model.py:135 | the argmax of every expanded target row [y, 1-y] is 1 - y, so the true classes fed to the matrix are the flipped binarized labels |
| Evaluation.Occurring | src/train_model.py:135 | strictly increasing, and holds exactly the values below the bound that occur |
| Evaluation.Classes | src/train_model.py:135 | the matrix's labels are the sorted union of the true and predicted classes |
| Evaluation.ConfusionMatrix | src/train_model.py:135 | one row and one column per class that occurs |
| Evaluation.RowCounts | src/train_model.py:135 | entry j of row t counts the pairs (t, classes[j]) |
| Evaluation.ConfusionRowSum | src/train_model.py:135 | row i sums to the number of test rows whose true class is the i-th class |
| Evaluation.Evaluate | src/train_model.py:135 | the matrix of the target argmaxes against the prediction argmaxes is square, one row per class that occurs |
| Evaluation.EvaluateRowSum | src/train_model.py:135 | every row i of that matrix sums to the number of test rows whose target's argmax is the i-th class |
| Evaluation.DunkIsClassOne | src/train_model.py:87 | with "dunk" and a label that sorts after it, dunks get the target [0,1] and class 1, and the other label gets [1,0] and class 0 |
| Evaluation.DunkSortsFirst | src/train_model.py:87 | "dunk" sorts before "jumpshot" and before "three" |
| Frames.ClipPathShape | src/video_processing.py:96 | the clip is an .mp4 file under ../data/clips/, in a folder named after the play type (the play type followed by '/') |
| Frames.FrameNameShape | src/video_processing.py:103-104 | a frame file name starts with the play type and ends in .jpg |
| Frames.FrameNamesDistinct | src/video_processing.py:103-104 | two writes with different counters use different file names |
| Frames.FrameFolder.Clear | src/video_processing.py:85-93 | a missing folder fails the listing and changes nothing. Otherwise every regular file whose unlink succeeds is removed, and everything else stays unchanged. Failed unlinks are reported in listing order |
| Frames.FrameFolder.Write | src/video_processing.py:104 | a frame is stored under the name; a write without a frame changes nothing |
| Frames.VideoCapture.Read | src/video_processing.py:98-102 | the read succeeds iff frames remain, returns the next frame and advances; otherwise it returns (False, None) |
| Frames.WriteClipFrames | src/video_processing.py:97-107 | the priming read and the read-write loop make exactly the writes `Attempts` lists, and the folder ends up with those writes applied |
| Frames.ExtractFrames | src/video_processing.py:71-107 | a missing folder stops the call before the clip is opened, with nothing written. Otherwise the writes are `Attempts`: counter k carries frame k + 1, one write per frame after the first, plus the final empty one. The folder is the cleared folder with those writes applied |
| Frames.AfterWritesKeeps | src/video_processing.py:101-107 | a frame written under a name that no later write reuses is what the folder holds |
| Frames.AfterWritesOrigin | src/video_processing.py:101-107 | after the writes, each entry is either untouched from before or holds the frame of one of the writes |
| Frames.AsWrittenFiles | src/video_processing.py:98-107 | file k holds frame k + 1 for every k < n - 1; frame 0 is never written |
| Frames.OneFrameClip | src/video_processing.py:98-107 | a one-frame clip: as written, one write under counter 0 with no frame; corrected, frame 0 under counter 0 |
| Frames.EveryFrameFiles | src/video_processing.py:98-107 | corrected extraction: file k holds frame k for every k < n |
| Frames.WriteEveryFrame | src/video_processing.py:97-107 | corrected loop: exactly the writes `EveryFrame` lists, applied to the folder |
| Frames.ExtractEveryFrame | src/video_processing.py:71-107 | corrected extraction: the same missing-folder stop; otherwise no priming read, a stop at the first failed read, and write k carries frame k |

## Left out

- Printing (`print(filename)`, the loading message, the unlink exceptions) is not
  modelled; `Frames.FrameFolder.Clear` returns the failed names instead of
  printing them.
- `np.save` at `src/image_processing.py:64` and the scraping, downloading,
  timing and plotting functions of the repository are not modelled.
- `get_image` reads through matplotlib. The model treats any file in the disk's
  `files` map as decodable, and any other path as unreadable.
- ImageProcessing.ImagesToArray: `np.array` over images of different shapes gives
  a ragged object array (or raises, depending on the numpy version); the model
  returns the list as it is and does not model that case.
- Encoding.Binarize: with more than two classes, `LabelBinarizer` returns one
  column per class. The model returns an error there, because the rest of
  `train_CNN` assumes a single column.
- Encoding.Prepare: the stratified shuffle is a parameter (`Draw`) with the
  contract "every row exactly once, ceil(0.2 n) of them in the test side", plus
  the library's validation errors. The per-class proportions the stratified
  splitter aims for and the random choice with `random_state = 17` are not
  modelled.
- Encoding.TestSize: `ceil(0.20 * n)` is computed in floating point; the model uses
  `(n + 4) / 5`. The two agree for every dataset size below 200000.
- Everything between the split and the predictions is left out: the Keras
  model, image augmentation, compilation, fitting and prediction. The
  predictions are an input (`Evaluation.Evaluate`), given as exact reals, not
  as floats.
- Evaluation.ConfusionMatrix: the error scikit-learn raises when both class
  vectors are empty is not modelled; the model gives the empty matrix.
- `paths.list_images('../data/google_imgs/{}'.format(label))` at
  `src/train_model.py:49` builds a lazy generator and drops it unread, so it
  has no effect; it is not modelled.
- Frames.ExtractFrames: `cv2.waitKey(10) == 27` reads the keyboard; the model
  assumes no Escape key is pressed. The final `cv2.imwrite` receives `None`;
  OpenCV raises on an empty image there, after all frame files are written. The
  model records the attempt and leaves the folder unchanged, and does not model
  the exception.
- Frames.ExtractFrames: the missing-folder error is modelled as the `listed` flag
  being false, not as a Python exception.
- Imaging.SkResize: skimage refuses images with four or more axes; `imread`
  never gives one, so the model does not carry that error.
- Frames.VideoCapture: a clip is its number of decodable frames; a path that
  cannot be opened reads as a clip with no frames.

## Findings

| source | as written | input that shows it | evidently intended | confidence | as-written member | corrected member |
|---|---|---|---|---|---|---|
| src/image_processing.py:55-62 | `image_list.pop(n)` inside `enumerate(image_list)` shifts the next image into position n, and the loop moves past it without checking it | two gray images in a row: the second stays in the array, still gray (the same happens to an RGBA image right after a gray one) | every gray image is dropped and every RGBA image is converted | high (not executed) | ImageProcessing.GrayPairLeavesGray | ImageProcessing.NormalizeChannels |
| src/video_processing.py:98-107 | the first `vidcap.read()` result is thrown away, and after the failing read the loop still writes once more, with `image` set to `None` | a clip with one frame: no frame file is written and one write gets `None`; with n frames, file k holds frame k + 1 and frame 0 is never saved | file k holds frame k, for every frame of the clip | high (not executed) | Frames.AsWrittenFiles | Frames.ExtractEveryFrame |
