# Camera calibration from chessboard images

A Dafny model of the `CameraCalibration` class of a lane-finding project
(`calibration.py`). The class takes a list of RGB images of a chessboard and the board's
number of interior corners along x (`width`) and y (`height`). It then:

- builds the board's 3D object points, on the plane z = 0 (`gridspace`);
- runs the chessboard detector on every image and keeps the 3D-2D correspondences of the
  images where the whole pattern was found (`get_corners`, `get_all_corners`);
- calls the camera solver once to get the camera matrix and the distortion coefficients
  (`calibrate`);
- uses them to undistort later images (`undistort`).

Files and modules:

- `wrappers.dfy` (`Wrappers`): the `Option` type that stands for Python's `None`.
- `grid.dfy` (`Grid`): `gridspace` as a pure function. `MGrid` is `np.mgrid[0:width, 0:height]`,
  `Transpose3` is `.T` (axes reversed), `MeshT` is their composition, `Flatten` is
  `reshape(-1, 2)`, and `GridSpace` writes the pairs into a zero array of three columns. `GridSpace` is proved
  to equal the closed form used by the detector: point `i` is `(i % width, i / width, 0)`.
- `corpus.dfy` (`Corpus`): images, the detector's type, and what the gathering loop computes,
  as functions of the image list. `Indices` gives the used or the skipped image indices.
  `Detected` gives the image-point lists. Lemmas state what these mean. `LastSize` gives the recorded size.
- `calibration.dfy` (`Calibration`): the class `CameraCalibration`. Its fields are `mtx`,
  `dist`, `size`, `width`, `height` and `calibrated`, plus a ghost `skipLog` that stands for
  the skip warnings printed to standard output. `GetAllCorners` is a `while` loop proved
  against the `Corpus` functions.

The image-processing library is outside the model. Functions passed in as parameters stand
for it:

- `Detector` stands for grey conversion followed by chessboard-corner detection.
- `Solver` stands for the camera solver.
- `Remap` stands for the undistortion routine.

The recorded size is the grey image's shape reversed, i.e. `(cols, rows)`.

Error behaviour, as the code has it:

- The code has no empty-corpus error and no uninitialised-calibration error.
- `calibrated` is set to false and never made true, and `undistort` does not look at it.
- No check guards the solver call against an empty corpus. The solver call fails on such
  input, so `Calibrate`, and thus the constructor, states a non-empty corpus as a precondition.

## Model

| member | source | states |
|---|---|---|
| Grid.MeshT | calibration.py:32 | transposing the `2 x width x height` mgrid gives `height` rows of `width` entries, and entry `[y][x]` is `[x, y]`: x varies along each row |
| Grid.FlattenLength | calibration.py:32 | the row-major reshape of `n` rows of length `w` has `n * w` entries |
| Grid.FlattenAt | calibration.py:32 | the row-major reshape puts row `i / w`, column `i % w` at flat index `i` |
| Grid.GridSpace | calibration.py:26-33 | the grid has exactly `width*height` points, and point `i` is `(i % width, i / width, 0)`: row-major, x fastest, z = 0 |
| Grid.GridSpaceInBounds | calibration.py:29-32 | every grid point has `0 <= x < width`, `0 <= y < height` and z = 0 |
| Grid.GridSpaceIndexOf | calibration.py:32 | board corner `(x, y)` is point number `y*width + x`, the inverse of the closed form |
| Grid.GridSpaceInjective | calibration.py:32 | no two indices give the same grid point |
| Corpus.IndicesSound | calibration.py:57-62 | the used (or skipped) indices are strictly ascending, in range, and each one's detection succeeded (or failed) |
| Corpus.IndicesComplete | calibration.py:57-62 | every image whose detection succeeded (or failed) has its index among the used (or skipped) ones |
| Corpus.DetectedAt | calibration.py:57-65 | the image-point list has one entry per used index, and entry `k` is the detector's corners of the `k`-th used image: input order kept, skipped images left out, no placeholders |
| Corpus.IndicesPartition | calibration.py:57-65 | used and skipped indices together number the images, and no index is both |
| Corpus.DetectedEmpty | calibration.py:55-67 | the corpus is empty exactly when no image yields a detection |
| Calibration.CameraCalibration.constructor | calibration.py:14-23 | sets `width`, `height` and `calibrated = false`; `size` ends as the last image's `(cols, rows)`; one skip warning per failed index; `mtx` and `dist` are the solver's answer on the gathered corpus |
| Calibration.CameraCalibration.ObjectPoints | calibration.py:26-33 | the instance's `gridspace()`: `width*height` points, point `i` is `(i % width, i / width, 0)` |
| Calibration.CameraCalibration.GetCorners | calibration.py:36-51 | `size` becomes the image's `(cols, rows)` whatever the outcome; returns the detector's corners together with the grid, or two `None`s, never a mix; changes nothing else |
| Calibration.CameraCalibration.GetAllCorners | calibration.py:54-67 | image points are the successful detections in input order; object points are as many copies of the grid; the log gains exactly the failed indices, ascending; `size` is the last image's, or unchanged for no images |
| Calibration.CameraCalibration.Calibrate | calibration.py:70-74 | returns the solver's camera matrix and distortion coefficients for the given lists and the recorded size, dropping the poses; changes no state |
| Calibration.CameraCalibration.Undistort | calibration.py:77-78 | remaps with the stored matrix and coefficients, passing the stored matrix again as the new camera matrix; changes no state |

## Left out

- Grey conversion and chessboard detection (calibration.py:40, 46) are library calls. They are the `Detector` parameter, a total function from an image to optional corners. The channel layout of the input image is not modelled.
- The camera solver (calibration.py:73) is a floating-point nonlinear fit. It is the `Solver` parameter. Its failure on an empty corpus, a missing size, or object and image lists of different lengths is a precondition of `Calibrate`, not an error value. The only caller, the constructor, always passes lists of equal length.
- The undistortion remap (calibration.py:78) is the `Remap` parameter.
- Grid coordinates are unbounded integers rather than float32 (calibration.py:29).
- The skip warning (calibration.py:62) is recorded as its image index in the ghost field `skipLog`. The message text is not modelled.
- `width` and `height` are natural numbers. With negative dimensions the array construction in the source raises, and that error path is not modelled.
- Corner coordinates are exact reals. No arithmetic is done on them.
