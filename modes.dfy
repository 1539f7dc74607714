/** The operation-mode counter behind `AWebCamReader::ChangeOperation`. */
module Modes {
  import opened CInt

  /** The mode in which `DoProcessing` tracks the colour marker; modes 1 and
      2 are placeholders that do nothing. */
  const ColorTracking := 0

  /** The constructor's mode: outside 0..2, so nothing is tracked until the
      mode has been advanced. */
  const StartMode := 3

  /** `OperationMode++; OperationMode %= 3;` with C++'s remainder, which
      keeps the sign of a negative mode. The result is the successor of the
      mode modulo 3, represented in 0..2 from a non-negative start and in
      -2..0 from a start below -1. */
  function NextMode(mode: int): (next: int)
    ensures (next - (mode + 1)) % 3 == 0
    ensures mode + 1 >= 0 ==> 0 <= next < 3
    ensures mode + 1 < 0 ==> -3 < next <= 0
  {
    TruncRem(mode + 1, 3)
  }

  /** Within 0..2 the counter is a 3-cycle 0 -> 1 -> 2 -> 0 with no fixed point. */
  lemma ModeCycle(mode: int)
    requires 0 <= mode < 3
    ensures NextMode(mode) != mode
    ensures NextMode(NextMode(NextMode(mode))) == mode
    ensures NextMode(mode) == if mode == 2 then 0 else mode + 1
  {
  }

  /** From the constructor's mode the first change selects mode 1, not the
      tracking mode; tracking starts after the third change. */
  lemma FromStartMode()
    ensures NextMode(StartMode) == 1
    ensures NextMode(NextMode(StartMode)) == 2
    ensures NextMode(NextMode(NextMode(StartMode))) == ColorTracking
  {
  }
}
