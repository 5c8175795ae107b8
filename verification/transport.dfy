/** The status mapping of razer_send_report. The control transfer itself, its
    buffer copy and the settle delay after it are not modelled; a send is
    represented by the byte count (or negative error code) the transfer
    returned. */
module Transport {
  import opened Report

  /** The kernel's EIO error number; the driver returns its negation. */
  const EIO: int := 5

  /** razer_send_report's result: a transfer error is passed through, a short
      transfer becomes -EIO, and only a full 90-byte transfer yields 0. */
  function SendStatus(len: int): (status: int)
    ensures status <= 0
    ensures status == 0 <==> len == ReportLen
    ensures len < 0 ==> status == len
    ensures 0 <= len && len != ReportLen ==> status == -EIO
  {
    if len < 0 then len else if len != ReportLen then -EIO else 0
  }

  /** razer_set_charging_colour sends two reports but returns only the second
      send's status: a failed charging-effect send goes unreported. */
  function ChargingColourStatus(effectLen: int, colourLen: int): (status: int)
    ensures status <= 0
    ensures status == 0 <==> colourLen == ReportLen
    ensures colourLen < 0 ==> status == colourLen
    ensures 0 <= colourLen && colourLen != ReportLen ==> status == -EIO
  {
    SendStatus(colourLen)
  }

  /** Nothing about the first transfer shows in the result. */
  lemma ChargingColourStatusIgnoresEffect(effectLen: int, effectLen': int, colourLen: int)
    ensures ChargingColourStatus(effectLen, colourLen) == ChargingColourStatus(effectLen', colourLen)
  {
  }
}
