/**
 The `CameraCalibration` class: it gathers 3D-2D correspondences from chessboard images,
 hands them to the camera solver once, and keeps the camera matrix and distortion
 coefficients for undistorting later images.

 The image-processing library is not part of this model: corner detection, the solver and
 the undistortion remap are passed in as functions.
 */
module Calibration {
  import opened Wrappers
  import opened Grid
  import opened Corpus

  /** A 3x3 camera matrix. */
  type Matrix = seq<seq<real>>

  /** Distortion coefficients. */
  type Coeffs = seq<real>

  /** What the camera solver returns: reprojection error, camera matrix, distortion, poses. */
  datatype SolverOutput = SolverOutput(
    rms: real, mtx: Matrix, dist: Coeffs, rvecs: seq<seq<real>>, tvecs: seq<seq<real>>)

  /** The camera solver, given object points, image points and the image size. */
  type Solver = (seq<seq<Point>>, seq<Corners>, (nat, nat)) -> SolverOutput

  /** The undistortion remap: image, camera matrix, coefficients, new camera matrix. */
  type Remap = (Image, Matrix, Coeffs, Matrix) -> Image

  class CameraCalibration {
    var mtx: Option<Matrix>
    var dist: Option<Coeffs>
    /** Size `(cols, rows)` of the image most recently processed, `None` before any. */
    var size: Option<(nat, nat)>
    /** Interior corners of the chessboard along x and along y; never reassigned. */
    const width: nat
    const height: nat
    /** Set to false at construction and never changed. */
    var calibrated: bool
    /** The skip warnings written to standard output so far, by image index. */
    ghost var skipLog: seq<nat>

    /**
     Initialises the fields, gathers the corpus from `imgs` and calibrates from it.
     The solver fails on an empty corpus, so some image must show the whole pattern.
     */
    constructor (imgs: seq<Image>, width: nat, height: nat, detect: Detector, solve: Solver)
      requires exists i :: 0 <= i < |imgs| && detect(imgs[i]).Some?
      ensures this.width == width && this.height == height
      ensures size == Some(GreySize(imgs[|imgs| - 1]))
      ensures skipLog == Indices(imgs, detect, false)
      ensures !calibrated
      ensures
        var corpus := Detected(imgs, detect);
        var out := solve(ObjectPointSets(|corpus|), corpus, GreySize(imgs[|imgs| - 1]));
        mtx == Some(out.mtx) && dist == Some(out.dist)
    {
      mtx := None;
      dist := None;
      size := None;
      this.width := width;
      this.height := height;
      calibrated := false;
      skipLog := [];
      new;
      var objpoints, imgpoints := GetAllCorners(imgs, detect);
      assert size == Some(GreySize(imgs[|imgs| - 1]));
      assert |objpoints| > 0 by { DetectedEmpty(imgs, detect); }
      var m, d := Calibrate(objpoints, imgpoints, solve);
      mtx := Some(m);
      dist := Some(d);
    }

    /** `gridspace()`: the object points of this board. */
    function ObjectPoints(): (g: seq<Point>)
      reads this
      ensures |g| == width * height
      ensures forall i :: 0 <= i < |g| ==> g[i] == (i % width, i / width, 0)
    {
      GridSpace(width, height)
    }

    /** `n` copies of the board's object points, one per image in the corpus. */
    function ObjectPointSets(n: nat): seq<seq<Point>>
      reads this
    {
      seq(n, _ => GridSpace(width, height))
    }

    /**
     `get_corners`: records the image's size, whatever the outcome, and returns the detected
     corners with the object points, or two `None`s; never one of each.
     */
    method GetCorners(img: Image, detect: Detector) returns (imgp: Option<Corners>, objp: Option<seq<Point>>)
      modifies this`size
      ensures size == Some(GreySize(img))
      ensures imgp == detect(img)
      ensures objp.Some? <==> imgp.Some?
      ensures objp.Some? ==> objp.value == GridSpace(width, height)
    {
      var grid := ObjectPoints();
      size := Some(GreySize(img));
      var found := detect(img);
      if found.Some? {
        imgp, objp := found, Some(grid);
      } else {
        imgp, objp := None, None;
      }
    }

    /**
     `get_all_corners`: walks the images in order; a detection appends to both lists, a
     failure writes one skip warning carrying the image's index.
     */
    method GetAllCorners(imgs: seq<Image>, detect: Detector)
      returns (objpoints: seq<seq<Point>>, imgpoints: seq<Corners>)
      modifies this`size, this`skipLog
      ensures imgpoints == Detected(imgs, detect)
      ensures objpoints == ObjectPointSets(|imgpoints|)
      ensures skipLog == old(skipLog) + Indices(imgs, detect, false)
      ensures size == LastSize(imgs, old(size))
    {
      objpoints, imgpoints := [], [];
      var i := 0;
      while i < |imgs|
        invariant 0 <= i <= |imgs|
        invariant imgpoints == Detected(imgs[..i], detect)
        invariant objpoints == ObjectPointSets(|imgpoints|)
        invariant skipLog == old(skipLog) + Indices(imgs[..i], detect, false)
        invariant size == LastSize(imgs[..i], old(size))
      {
        var imgp, objp := GetCorners(imgs[i], detect);
        assert imgs[..i + 1][..i] == imgs[..i];
        if imgp.None? {
          skipLog := skipLog + [i];
        } else {
          objpoints := objpoints + [objp.value];
          imgpoints := imgpoints + [imgp.value];
        }
        i := i + 1;
      }
      assert imgs[..i] == imgs;
    }

    /**
     `calibrate`: one solver call on the corpus and the recorded size; only the camera
     matrix and the distortion coefficients are kept.
     */
    method Calibrate(objpoints: seq<seq<Point>>, imgpoints: seq<Corners>, solve: Solver)
      returns (m: Matrix, d: Coeffs)
      requires size.Some? && |objpoints| == |imgpoints| && |objpoints| > 0
      ensures m == solve(objpoints, imgpoints, size.value).mtx
      ensures d == solve(objpoints, imgpoints, size.value).dist
    {
      var out := solve(objpoints, imgpoints, size.value);
      m, d := out.mtx, out.dist;
    }

    /**
     `undistort`: remaps the image with the stored coefficients, using the stored camera
     matrix also as the new camera matrix; the object is left unchanged.
     */
    method Undistort(img: Image, remap: Remap) returns (r: Image)
      requires mtx.Some? && dist.Some?
      ensures r == remap(img, mtx.value, dist.value, mtx.value)
    {
      r := remap(img, mtx.value, dist.value, mtx.value);
    }
  }
}
