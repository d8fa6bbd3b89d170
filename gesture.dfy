/** The pointing-gesture classifier: a pure predicate over the 21 landmarks
    of one detected hand. Image-space y grows downward, so "above" means a
    smaller y. */
module Gesture {

  /** One normalized hand landmark as produced by the inference engine. */
  datatype Point = Point(x: real, y: real, z: real)

  const LANDMARK_COUNT: nat := 21

  /** The landmarks of one hand; the inference engine always yields 21. */
  type Landmarks = lm: seq<Point> | |lm| == LANDMARK_COUNT
    witness seq(LANDMARK_COUNT, _ => Point(0.0, 0.0, 0.0))

  // Anatomical indices compared by the classifier. The index knuckle
  // (landmark 5) is looked up by the page but never compared.
  const INDEX_PIP: nat := 6
  const INDEX_TIP: nat := 8
  const MIDDLE_PIP: nat := 10
  const MIDDLE_TIP: nat := 12
  const RING_PIP: nat := 14
  const RING_TIP: nat := 16
  const PINKY_PIP: nat := 18
  const PINKY_TIP: nat := 20

  /** A finger is extended when its tip is strictly above its middle joint. */
  predicate Extended(lm: Landmarks, tip: nat, pip: nat)
    requires tip < LANDMARK_COUNT && pip < LANDMARK_COUNT
  {
    lm[tip].y < lm[pip].y
  }

  /** A finger is folded when its tip is strictly below its middle joint. */
  predicate Folded(lm: Landmarks, tip: nat, pip: nat)
    requires tip < LANDMARK_COUNT && pip < LANDMARK_COUNT
  {
    lm[tip].y > lm[pip].y
  }

  /** Index finger extended, middle, ring and pinky folded; the thumb and
      the index knuckle play no part. */
  predicate IsPointingGesture(lm: Landmarks)
  {
    Extended(lm, INDEX_TIP, INDEX_PIP)
    && Folded(lm, MIDDLE_TIP, MIDDLE_PIP)
    && Folded(lm, RING_TIP, RING_PIP)
    && Folded(lm, PINKY_TIP, PINKY_PIP)
  }

  /** The two hands agree on the height of every tip and middle joint the
      classifier compares; nothing else about them is constrained. */
  predicate SameComparedHeights(a: Landmarks, b: Landmarks)
  {
    a[INDEX_PIP].y == b[INDEX_PIP].y && a[INDEX_TIP].y == b[INDEX_TIP].y
    && a[MIDDLE_PIP].y == b[MIDDLE_PIP].y && a[MIDDLE_TIP].y == b[MIDDLE_TIP].y
    && a[RING_PIP].y == b[RING_PIP].y && a[RING_TIP].y == b[RING_TIP].y
    && a[PINKY_PIP].y == b[PINKY_PIP].y && a[PINKY_TIP].y == b[PINKY_TIP].y
  }

  /** The classifier's exact truth condition, in raw landmark indices:
      all four strict comparisons hold, and any single failure makes it false. */
  lemma PointingExactly(lm: Landmarks)
    ensures IsPointingGesture(lm) <==>
      lm[8].y < lm[6].y && lm[12].y > lm[10].y
      && lm[16].y > lm[14].y && lm[20].y > lm[18].y
  {
  }

  /** Every comparison is strict: a tip level with its joint never points. */
  lemma LevelFingerIsNotPointing(lm: Landmarks)
    requires lm[8].y == lm[6].y || lm[12].y == lm[10].y
          || lm[16].y == lm[14].y || lm[20].y == lm[18].y
    ensures !IsPointingGesture(lm)
  {
  }

  /** Only the eight compared heights matter: x and z coordinates, the thumb,
      the wrist and the index knuckle (landmark 5) never change the answer. */
  lemma OnlyComparedHeightsMatter(a: Landmarks, b: Landmarks)
    requires SameComparedHeights(a, b)
    ensures IsPointingGesture(a) == IsPointingGesture(b)
  {
  }

  /** A hand raised with the index up and the other three fingers curled. */
  lemma RaisedIndexIsPointing(lm: Landmarks)
    requires lm[8].y == 0.3 && lm[6].y == 0.5
    requires lm[12].y == 0.6 && lm[10].y == 0.4
    requires lm[16].y == 0.6 && lm[14].y == 0.4
    requires lm[20].y == 0.6 && lm[18].y == 0.4
    ensures IsPointingGesture(lm)
  {
  }
}
