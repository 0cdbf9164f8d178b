/** How `multiplex` puts one frame row on the LED pins: bits 8-9 of the row
    go to PORTB bits 0-1, bits 0-3 to PORTC bits 0-3 and bits 4-7 to PORTD
    bits 4-7; every other pin of the three ports keeps its value. */
module Ports {

  /** The three 8-bit output registers. */
  datatype PortImage = PortImage(portB: bv8, portC: bv8, portD: bv8)

  /** One row written to the ports (the three assignments of the scan loop). */
  function WriteRow(row: bv16, p: PortImage): PortImage {
    PortImage(
      (p.portB & 0xFC) | (((row & 0x300) >> 8) as bv8),
      (p.portC & 0xF0) | ((row & 0x0F) as bv8),
      ((row & 0xF0) as bv8) | (p.portD & 0x0F))
  }

  /** The row the LED pins of the three ports show. */
  function ShownRow(p: PortImage): bv16 {
    (((p.portB & 0x03) as bv16) << 8) | ((p.portD & 0xF0) as bv16) | ((p.portC & 0x0F) as bv16)
  }

  /** The pins a row write leaves alone are equal in two images. */
  predicate SameOtherPins(p: PortImage, q: PortImage) {
    p.portB & 0xFC == q.portB & 0xFC && p.portC & 0xF0 == q.portC & 0xF0 && p.portD & 0x0F == q.portD & 0x0F
  }

  /** Writing a row shows its low ten bits on the LED pins and nothing else;
      a frame row below 1024 is shown exactly. */
  lemma WriteRowShows(row: bv16, p: PortImage)
    ensures ShownRow(WriteRow(row, p)) == row & 0x3FF
    ensures row < 1024 ==> ShownRow(WriteRow(row, p)) == row
  {
  }

  /** Writing a row leaves PORTB bits 2-7, PORTC bits 4-7 and PORTD bits 0-3 as they were. */
  lemma WriteRowKeepsOtherPins(row: bv16, p: PortImage)
    ensures SameOtherPins(WriteRow(row, p), p)
  {
  }

  /** Rows below 1024 that show the same are the same row. */
  lemma ShownRowInjective(r1: bv16, r2: bv16, p: PortImage, q: PortImage)
    requires r1 < 1024 && r2 < 1024
    requires ShownRow(WriteRow(r1, p)) == ShownRow(WriteRow(r2, q))
    ensures r1 == r2
  {
    WriteRowShows(r1, p);
    WriteRowShows(r2, q);
  }
}
