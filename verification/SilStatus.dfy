/** SIL_STATUS (Include/Sil-api.h). */
module SilStatus {

  datatype Status =
    | SilPass
    | SilUnsupportedHardware
    | SilUnsupported
    | SilInvalidParameter
    | SilAborted
    | SilOutOfResources
    | SilNotFound
    | SilOutOfBounds
    | SilDeviceError
    | SilResetRequestColdImm
    | SilResetRequestColdDef
    | SilResetRequestWarmImm
    | SilResetRequestWarmDef

  /** The numeric value of a status. */
  function Code(s: Status): (n: nat) {
    match s
    case SilPass => 0
    case SilUnsupportedHardware => 1
    case SilUnsupported => 2
    case SilInvalidParameter => 3
    case SilAborted => 4
    case SilOutOfResources => 5
    case SilNotFound => 6
    case SilOutOfBounds => 7
    case SilDeviceError => 8
    case SilResetRequestColdImm => 0xF0
    case SilResetRequestColdDef => 0xF1
    case SilResetRequestWarmImm => 0xF2
    case SilResetRequestWarmDef => 0xF3
  }

  /** The values from Include/Sil-api.h: errors are worse than success, and reset requests than errors. */
  lemma CodeOrder(s: Status)
    ensures Code(s) == 0 <==> s == SilPass
    ensures IsResetRequest(s) <==> 0xF0 <= Code(s) <= 0xF3
    ensures !IsResetRequest(s) ==> Code(s) <= 8
    ensures [Code(SilUnsupportedHardware), Code(SilUnsupported), Code(SilInvalidParameter), Code(SilAborted),
             Code(SilOutOfResources), Code(SilNotFound), Code(SilOutOfBounds), Code(SilDeviceError)]
            == [1, 2, 3, 4, 5, 6, 7, 8]
    ensures [Code(SilResetRequestColdImm), Code(SilResetRequestColdDef), Code(SilResetRequestWarmImm),
             Code(SilResetRequestWarmDef)] == [0xF0, 0xF1, 0xF2, 0xF3]
  {
  }

  predicate IsResetRequest(s: Status) {
    s.SilResetRequestColdImm? || s.SilResetRequestColdDef? || s.SilResetRequestWarmImm? || s.SilResetRequestWarmDef?
  }
}
