// The outcome of one dial attempt (custom_components/gsm_call/const.py).

module Const {

  /** Why a voice call ended; each dial attempt that reaches polling yields exactly one. */
  datatype EndedReason = NotAnswered | Declined | Answered
}
