/** Per-channel calibration of the CV inputs (include/tedium/tedium.h,
    src/tt_core.c). */
module Calibration {

  datatype Channel = Channel(offset: real, scale: real)

  const MAX_CHANNELS := 8

  type Cal = c: seq<Channel> | |c| == MAX_CHANNELS witness seq(8, _ => Channel(0.0, 1.0))

  function CodeToVolts(c: Channel, code: int): real {
    (code as real - c.offset) * c.scale
  }
}
