/**
 What the correspondence-gathering loop of `CameraCalibration.get_all_corners` computes,
 stated as functions of the image list. The loop is proved against these in `Calibration`.
 */
module Corpus {
  import opened Wrappers

  /** Detected corner positions of one image (sub-pixel coordinates). */
  type Corners = seq<(real, real)>

  /**
   An RGB image of `rows x cols` pixels; `pixels` is whatever content the detector looks at.
   Only its shape matters to the calibration code itself.
   */
  datatype Image = Image(rows: nat, cols: nat, pixels: seq<int>)

  /**
   Grey conversion followed by chessboard detection for the configured board: the corners
   when the whole pattern is found, `None` otherwise.
   */
  type Detector = Image -> Option<Corners>

  /** The image size the solver is given: the grey image's shape reversed, `(cols, rows)`. */
  function GreySize(img: Image): (nat, nat)
  {
    (img.cols, img.rows)
  }

  predicate Ascending(s: seq<nat>)
  {
    forall j, k :: 0 <= j < k < |s| ==> s[j] < s[k]
  }

  /**
   The indices, in ascending order, of the images whose detection succeeded (`found`) or
   failed (`!found`).
   */
  function Indices(imgs: seq<Image>, detect: Detector, found: bool): seq<nat>
  {
    if imgs == [] then []
    else
      var n := |imgs| - 1;
      Indices(imgs[..n], detect, found) + (if detect(imgs[n]).Some? == found then [n] else [])
  }

  /** The corner lists of the images whose detection succeeded, in input order. */
  function Detected(imgs: seq<Image>, detect: Detector): seq<Corners>
  {
    if imgs == [] then []
    else
      var n := |imgs| - 1;
      Detected(imgs[..n], detect) + (match detect(imgs[n]) case Some(c) => [c] case None => [])
  }

  /** The recorded image size after processing `imgs`, starting from `prior`. */
  function LastSize(imgs: seq<Image>, prior: Option<(nat, nat)>): Option<(nat, nat)>
  {
    if imgs == [] then prior else Some(GreySize(imgs[|imgs| - 1]))
  }

  /** Every listed index is in range, has the required outcome, and the list ascends. */
  lemma {:induction false} IndicesSound(imgs: seq<Image>, detect: Detector, found: bool)
    ensures Ascending(Indices(imgs, detect, found))
    ensures forall k :: 0 <= k < |Indices(imgs, detect, found)| ==>
              Indices(imgs, detect, found)[k] < |imgs| &&
              detect(imgs[Indices(imgs, detect, found)[k]]).Some? == found
  {
    if imgs != [] {
      var n := |imgs| - 1;
      IndicesSound(imgs[..n], detect, found);
      assert forall k :: 0 <= k < |Indices(imgs[..n], detect, found)| ==>
               imgs[Indices(imgs[..n], detect, found)[k]] == imgs[..n][Indices(imgs[..n], detect, found)[k]];
    }
  }

  /** Every image with the required outcome is listed. */
  lemma {:induction false} IndicesComplete(imgs: seq<Image>, detect: Detector, found: bool, i: int)
    requires 0 <= i < |imgs| && detect(imgs[i]).Some? == found
    ensures i in Indices(imgs, detect, found)
  {
    var n := |imgs| - 1;
    if i < n {
      IndicesComplete(imgs[..n], detect, found, i);
    }
  }

  /** Every image is either used or skipped, never both. */
  lemma {:induction false} IndicesPartition(imgs: seq<Image>, detect: Detector)
    ensures |Indices(imgs, detect, true)| + |Indices(imgs, detect, false)| == |imgs|
    ensures forall i :: i in Indices(imgs, detect, true) ==> i !in Indices(imgs, detect, false)
  {
    if imgs != [] {
      var n := |imgs| - 1;
      IndicesPartition(imgs[..n], detect);
      IndicesSound(imgs[..n], detect, true);
      IndicesSound(imgs[..n], detect, false);
    }
  }

  /**
   Entry `k` of the corpus is the detector's answer on the `k`-th successful image: the
   lists are aligned with the used indices and keep input order.
   */
  lemma {:induction false} DetectedAt(imgs: seq<Image>, detect: Detector)
    ensures |Detected(imgs, detect)| == |Indices(imgs, detect, true)|
    ensures forall k :: 0 <= k < |Detected(imgs, detect)| ==>
              Indices(imgs, detect, true)[k] < |imgs| &&
              detect(imgs[Indices(imgs, detect, true)[k]]) == Some(Detected(imgs, detect)[k])
  {
    if imgs != [] {
      var n := |imgs| - 1;
      DetectedAt(imgs[..n], detect);
      IndicesSound(imgs[..n], detect, true);
      assert forall k :: 0 <= k < |Indices(imgs[..n], detect, true)| ==>
               imgs[Indices(imgs[..n], detect, true)[k]] == imgs[..n][Indices(imgs[..n], detect, true)[k]];
    }
  }

  /** The corpus is empty exactly when no image yields a detection. */
  lemma DetectedEmpty(imgs: seq<Image>, detect: Detector)
    ensures Detected(imgs, detect) == [] <==> forall i :: 0 <= i < |imgs| ==> detect(imgs[i]).None?
  {
    DetectedAt(imgs, detect);
    if Detected(imgs, detect) != [] {
      assert detect(imgs[Indices(imgs, detect, true)[0]]).Some?;
    } else {
      forall i | 0 <= i < |imgs| ensures detect(imgs[i]).None? {
        if detect(imgs[i]).Some? {
          IndicesComplete(imgs, detect, true, i);
        }
      }
    }
  }
}
