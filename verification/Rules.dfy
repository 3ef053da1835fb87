/** Hot-path rules (daemon/hotpath/hotpath_router.h). Numbers are exact reals. */
module Rules {

  datatype Kind = Detection | OCR

  datatype Roi = Roi(x: real, y: real, width: real, height: real)

  /** The numbers of the action constants. */
  const TAP := 0
  const SWIPE := 1
  const WAIT := 2
  const COMPLETE := 3

  datatype Rule = Rule(
    kind: Kind,
    classId: int,
    minConfidence: real,
    offsetX: real,
    offsetY: real,
    roi: Roi,
    target: string,
    exactMatch: bool,
    caseSensitive: bool,
    action: int,
    minInterval: int,
    swipeX2: int,
    swipeY2: int,
    swipeDuration: int,
    waitDuration: int,
    tapX: real,
    tapY: real)

  const DEFAULT := Rule(
    Detection, -1, 0.5, 0.0, 0.0, Roi(0.0, 0.0, 0.0, 0.0), "", true, false, TAP, 500, 0, 0, 300, 100, -1.0, -1.0)

  predicate ValidRoi(r: Roi) {
    r.width > 0.0 && r.height > 0.0 && r.x >= 0.0 && r.y >= 0.0 && r.x + r.width <= 1.0 && r.y + r.height <= 1.0
  }

  /** `validate_rule`. */
  predicate ValidRule(r: Rule) {
    && (r.kind == Detection ==> r.classId >= 0 && 0.0 <= r.minConfidence <= 1.0)
    && (r.kind == OCR ==> ValidRoi(r.roi) && r.target != "")
    && r.minInterval >= 0
  }
}
