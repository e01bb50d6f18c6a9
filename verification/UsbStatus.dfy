/**
 The status word of a USB endpoint descriptor, shared by interrupt callbacks and the polled task. A word is the
 set of its bits: `|` is union, `& ~` is difference, `&` is intersection.
 */
module UsbStatus {
  datatype Bit = Used | Transferring | Stalled | Done | SetupLow | SetupHigh | TaskPending

  type Word = set<Bit>

  const UNUSED: Word := {}
  const USED: Word := {Used}
  const TRANSFER: Word := {Transferring}
  const STALLED: Word := {Stalled}
  const DONE: Word := {Done}
  const SETUP_IN: Word := {SetupLow}
  const SETUP_STATUS: Word := {SetupHigh}
  const SETUP_OUT: Word := {SetupLow, SetupHigh}
  const SETUP: Word := {SetupLow, SetupHigh}
  const TASK_PENDING: Word := {TaskPending}

  /** What the codes of _ux_dcd_stm32_transfer_run say to the polling task. */
  datatype Verdict = Exit | Next | Wait

  /** The tests of single bits. */
  lemma StatusTests(w: Word)
    ensures w * STALLED != {} <==> Stalled in w
    ensures w * TRANSFER != {} <==> Transferring in w
    ensures w * DONE != {} <==> Done in w
  {
    assert Stalled in w ==> Stalled in w * STALLED;
    assert Transferring in w ==> Transferring in w * TRANSFER;
    assert Done in w ==> Done in w * DONE;
  }
}
