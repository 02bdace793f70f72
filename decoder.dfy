/**
  The packet layout read by iot.cpp's main loop (lines 190-230): byte 0 is the packet
  number, then the four tags are probed once each, in ProbeOrder, at a cursor that
  moves by 1 past a tag byte that does not match and by 5 past one that does (the
  tag and its 4 value bytes). Nothing is checked against the received length.

  An access outside the buffer is undefined behaviour in the source; here it is a
  fault that names the first offset outside the buffer, and decoding stops there.
 */
module Decoder {
  import opened Wrappers
  import opened Protocol

  /** One decoded measurement: its tag and the 4 bytes of its float, in buffer order. */
  datatype Record = Record(tag: Tag, value: seq<byte>)

  /** The outcome of the probes: the records found, the cursor afterwards, and the
      first out-of-bounds offset if the probes ran off the buffer. */
  datatype Scan = Scan(records: seq<Record>, cursor: nat, fault: Option<nat>)

  /** Probe `tags` in order starting at `cursor`. */
  function Probes(b: seq<byte>, cursor: nat, tags: seq<Tag>): Scan
    decreases |tags|
  {
    if tags == [] then Scan([], cursor, None)
    else if cursor >= |b| then Scan([], cursor, Some(cursor))
    else if b[cursor] != TagId(tags[0]) then Probes(b, cursor + 1, tags[1..])
    else if cursor + 5 > |b| then Scan([], cursor + 1, Some(|b|))
    else
      var rest := Probes(b, cursor + 5, tags[1..]);
      Scan([Record(tags[0], b[cursor + 1..cursor + 5])] + rest.records, rest.cursor, rest.fault)
  }

  /** Decode a whole buffer: skip the packet number at offset 0, probe from offset 1. */
  function Decode(b: seq<byte>): Scan
  {
    if |b| == 0 then Scan([], 0, Some(0)) else Probes(b, 1, ProbeOrder)
  }

  /** convertToFloat's copy loop: the 4 bytes at `at`, in order, into the float's storage. */
  method ConvertToFloat(buf: array<byte>, at: nat) returns (value: seq<byte>)
    requires at + 4 <= buf.Length
    ensures value == buf[at..at + 4]
  {
    var bytes := new byte[4];
    for i := 0 to 4
      invariant forall k :: 0 <= k < i ==> bytes[k] == buf[at + k]
    {
      bytes[i] := buf[at + i];
    }
    value := bytes[..];
  }

  /** Cursor arithmetic: at most one record per probe; when no access faults, each
      probe moved the cursor by 1 and each match by 4 more. */
  lemma {:induction false} ProbesShape(b: seq<byte>, cursor: nat, tags: seq<Tag>)
    ensures var s := Probes(b, cursor, tags);
      |s.records| <= |tags| &&
      (s.fault.None? ==> s.cursor == cursor + |tags| + 4 * |s.records|) &&
      (s.fault.None? && tags != [] ==> s.cursor <= |b|) &&
      (s.fault.Some? ==> s.fault.value >= |b| && cursor + 5 * |tags| > |b|)
    decreases |tags|
  {
    if tags != [] && cursor < |b| {
      if b[cursor] != TagId(tags[0]) {
        ProbesShape(b, cursor + 1, tags[1..]);
      } else if cursor + 5 <= |b| {
        ProbesShape(b, cursor + 5, tags[1..]);
      }
    }
  }

  /** Probes over a suffix of the probe order find records only of those tags, each
      at most once and in probe order. */
  lemma {:induction false} ProbesOrdered(b: seq<byte>, cursor: nat, k: nat)
    requires k <= |ProbeOrder|
    ensures var rs := Probes(b, cursor, ProbeOrder[k..]).records;
      (forall i :: 0 <= i < |rs| ==> k <= Rank(rs[i].tag)) &&
      (forall i, j :: 0 <= i < j < |rs| ==> Rank(rs[i].tag) < Rank(rs[j].tag))
    decreases |ProbeOrder| - k
  {
    if k < |ProbeOrder| && cursor < |b| {
      var tags := ProbeOrder[k..];
      assert tags[0] == ProbeOrder[k] && tags[1..] == ProbeOrder[k + 1..];
      if b[cursor] != TagId(tags[0]) {
        ProbesOrdered(b, cursor + 1, k + 1);
      } else if cursor + 5 <= |b| {
        ProbesOrdered(b, cursor + 5, k + 1);
        var rs := Probes(b, cursor, tags).records;
        assert Rank(rs[0].tag) == k;
        assert rs[1..] == Probes(b, cursor + 5, ProbeOrder[k + 1..]).records;
      }
    }
  }

  /** Every record is its tag byte followed by its 4 value bytes, copied unchanged,
      from a place between the start cursor and the end cursor. */
  lemma {:induction false} ProbesValues(b: seq<byte>, cursor: nat, tags: seq<Tag>, i: nat)
    requires i < |Probes(b, cursor, tags).records|
    ensures var s := Probes(b, cursor, tags);
      exists o :: cursor <= o && o + 5 <= |b| && (s.fault.None? ==> o + 5 <= s.cursor) &&
        b[o] == TagId(s.records[i].tag) && s.records[i].value == b[o + 1..o + 5]
    decreases |tags|
  {
    var s := Probes(b, cursor, tags);
    if b[cursor] != TagId(tags[0]) {
      ProbesValues(b, cursor + 1, tags[1..], i);
    } else if i == 0 {
      ProbesShape(b, cursor + 5, tags[1..]);
      assert b[cursor] == TagId(s.records[0].tag);
    } else {
      ProbesValues(b, cursor + 5, tags[1..], i - 1);
    }
  }

  /** The probes see only the 5 * |tags| bytes from the cursor on: two buffers that
      agree there, and are both long enough or equally long, probe alike. */
  lemma {:induction false} ProbesLocal(b: seq<byte>, c: seq<byte>, cursor: nat, tags: seq<Tag>)
    requires |b| == |c| || (|b| >= cursor + 5 * |tags| && |c| >= cursor + 5 * |tags|)
    requires forall o :: cursor <= o < cursor + 5 * |tags| && o < |b| ==> o < |c| && b[o] == c[o]
    ensures Probes(b, cursor, tags) == Probes(c, cursor, tags)
    decreases |tags|
  {
    if tags != [] && cursor < |b| {
      assert b[cursor] == c[cursor];
      if b[cursor] != TagId(tags[0]) {
        ProbesLocal(b, c, cursor + 1, tags[1..]);
      } else if cursor + 5 <= |b| {
        assert b[cursor + 1..cursor + 5] == c[cursor + 1..cursor + 5];
        ProbesLocal(b, c, cursor + 5, tags[1..]);
      }
    }
  }

  /** What a frame decodes to: at most 4 records, whose tags follow the probe order
      (ProbesValues says where their values come from); when nothing faults the
      final cursor is 5 + 4 * (number of matches), so never past 21. A buffer of at
      least 21 bytes never faults. */
  lemma DecodeShape(b: seq<byte>)
    ensures var s := Decode(b);
      |s.records| <= 4 &&
      (s.fault.None? ==> s.cursor == 5 + 4 * |s.records| <= 21) &&
      (|b| >= 21 ==> s.fault.None?) &&
      (forall i, j :: 0 <= i < j < |s.records| ==> Rank(s.records[i].tag) < Rank(s.records[j].tag))
  {
    if |b| > 0 {
      ProbesShape(b, 1, ProbeOrder);
      ProbesOrdered(b, 1, 0);
    }
  }

  /** No byte from offset 21 on is ever read, and the packet number at offset 0 is
      not interpreted: buffers of at least 21 bytes that agree on offsets 1 to 20
      decode alike. */
  lemma DecodeReadsOneToTwenty(b: seq<byte>, c: seq<byte>)
    requires |b| >= 21 && |c| >= 21 && b[1..21] == c[1..21]
    ensures Decode(b) == Decode(c)
  {
    forall o | 1 <= o < 21 ensures b[o] == c[o] {
      assert b[o] == b[1..21][o - 1];
    }
    ProbesLocal(b, c, 1, ProbeOrder);
  }

  /** The packet number at offset 0 never changes what is decoded. */
  lemma PacketNumberIgnored(b: seq<byte>, n: byte)
    requires |b| > 0
    ensures Decode(b[0 := n]) == Decode(b)
  {
    ProbesLocal(b[0 := n], b, 1, ProbeOrder);
  }

  /** A complete packet: the packet number, then one tagged 4-byte value for each
      tag in probe order. */
  function Encode(number: byte, values: seq<seq<byte>>): (b: seq<byte>)
    requires |values| == 4 && forall i :: 0 <= i < 4 ==> |values[i]| == 4
    ensures |b| == 21
  {
    [number, TempId] + values[0] + [IrId] + values[1] + [MicrophoneEnvelId] + values[2] + [Co2Id] + values[3]
  }

  /** Decoding a complete packet, followed by anything, yields its four records in
      order and stops at offset 21. */
  lemma DecodeEncode(number: byte, values: seq<seq<byte>>, rest: seq<byte>)
    requires |values| == 4 && forall i :: 0 <= i < 4 ==> |values[i]| == 4
    ensures Decode(Encode(number, values) + rest) ==
      Scan([Record(Temp, values[0]), Record(Ir, values[1]), Record(MicEnvel, values[2]), Record(Co2, values[3])], 21, None)
  {
    var b := Encode(number, values) + rest;
    assert b[1] == TempId && b[2..6] == values[0];
    assert b[6] == IrId && b[7..11] == values[1];
    assert b[11] == MicrophoneEnvelId && b[12..16] == values[2];
    assert b[16] == Co2Id && b[17..21] == values[3];
    assert ProbeOrder[1..] == [Ir, MicEnvel, Co2];
    assert ProbeOrder[1..][1..] == [MicEnvel, Co2];
    assert ProbeOrder[1..][1..][1..] == [Co2];
  }
}
