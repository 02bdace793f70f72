/**
  readAdc (iot.cpp lines 70-85): one SPI exchange with the gateway's ADC, single-ended
  channel 0, and the merge of the two answer bytes into a 10-bit reading. The bus
  transfer itself is foreign: its answer, one byte per byte sent, is a parameter.
 */
module Adc {
  import opened Protocol

  /** The three bytes sent to the ADC: start bit, SGL/DIF = 1 with channel 0, don't care. */
  const Request: seq<byte> := [0x01, 0x80, 0x00]

  /** The reading carried by an answer: the low two bits of its second byte above
      all eight bits of its third. */
  function AdcReading(answer: seq<byte>): (v: bv16)
    requires |answer| == 3
    ensures v <= 1023
  {
    (answer[1] & 3) as bv16 * 256 + answer[2] as bv16
  }

  /** Any 10-bit reading is carried by some answer, and only the bits the merge keeps
      matter: the first byte and the top six bits of the second are ignored. */
  lemma AdcReadingOnto(v: bv16, first: byte, high: byte)
    requires v <= 1023
    ensures AdcReading([first, (high & 0xfc) | (v >> 8) as byte, (v & 0xff) as byte]) == v
  {
  }

  /** Fill the request, exchange it, and merge the answer; `sent` is what went out on the bus. */
  method ReadAdc(answer: seq<byte>) returns (sent: seq<byte>, sensorVal: bv16)
    requires |answer| == 3
    ensures sent == Request
    ensures sensorVal == AdcReading(answer)
  {
    var data := new byte[3];
    data[0] := 0x01;
    data[1] := 0x80 | ((0 & 7) << 4);
    data[2] := 0;
    sent := data[..];
    // bcm2835_aux_spi_transfern: each sent byte is replaced by the byte received
    data[0], data[1], data[2] := answer[0], answer[1], answer[2];
    sensorVal := 0;
    sensorVal := ((data[1] as bv16) << 8) & 0x300;
    sensorVal := sensorVal | (data[2] as bv16 & 0xff);
  }
}
