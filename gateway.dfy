/**
  One pass of iot.cpp's receive loop (lines 183-233): terminate the received bytes
  with `buf[len] = 0`, decode them, post each record to the backend sensor its
  sender and tag select, then post the gateway's own ADC reading to TEMP_PI.
  The receive call, the ADC's SPI answer and the HTTP transport are inputs or left
  out; a publish is the event (identifier, reading).
 */
module Gateway {
  import opened Wrappers
  import opened Protocol
  import opened Routing
  import opened Uplink
  import opened Decoder
  import opened Adc

  /** What recvfromAck reported: how many bytes it stored in the buffer, and the sender. */
  datatype Reception = Reception(len: byte, from: byte)

  /** The publishes of one pass, in order, and the first out-of-bounds offset if the
      pass stopped at one. */
  datatype Outcome = Outcome(events: seq<Publish>, fault: Option<nat>)

  /** The publishes for a sequence of records from `from`, in record order. */
  function Dispatch(from: byte, rs: seq<Record>): (ps: seq<Publish>)
    ensures |ps| == |rs|
  {
    if rs == [] then [] else [Publish(Route(from, rs[0].tag), Sensor(rs[0].value))] + Dispatch(from, rs[1..])
  }

  /** The i-th publish is the i-th record, posted to its routed sensor with its bytes. */
  lemma {:induction false} DispatchAt(from: byte, rs: seq<Record>)
    ensures forall i :: 0 <= i < |rs| ==> Dispatch(from, rs)[i] == Publish(Route(from, rs[i].tag), Sensor(rs[i].value))
  {
    if rs != [] {
      DispatchAt(from, rs[1..]);
    }
  }

  /** A pass over the buffer contents `b` after a frame of `len` bytes from `from`,
      with `adc` the gateway's own reading. */
  function Handle(b: seq<byte>, len: byte, from: byte, adc: bv16): Outcome
  {
    if len as int >= |b| then Outcome([], Some(len as int))
    else
      var s := Decode(b[len as int := 0]);
      if s.fault.Some? then Outcome(Dispatch(from, s.records), s.fault)
      else Outcome(Dispatch(from, s.records) + [Publish(TempPi, LocalTemp(adc))], None)
  }

  /** One turn of the loop: nothing happens unless a frame was received. */
  function Step(b: seq<byte>, rx: Option<Reception>, adc: bv16): Outcome
  {
    match rx
    case None => Outcome([], None)
    case Some(r) => Handle(b, r.len, r.from, adc)
  }

  /** The four probes of the main loop over the terminated buffer, posting as they match. */
  method DecodeAndPublish(buf: array<byte>, from: byte) returns (events: seq<Publish>, index: nat, fault: Option<nat>)
    ensures events == Dispatch(from, Decode(buf[..]).records)
    ensures index == Decode(buf[..]).cursor && fault == Decode(buf[..]).fault
  {
    ghost var whole := Decode(buf[..]);
    events, index, fault := [], 0, None;
    if buf.Length == 0 {
      fault := Some(0);
      return;
    }
    var packetNum := buf[index];  // logged only
    index := index + 1;
    var k := 0;
    assert ProbeOrder[k..] == ProbeOrder;
    while k < |ProbeOrder|
      invariant 0 <= k <= |ProbeOrder| && fault == None
      invariant var rest := Probes(buf[..], index, ProbeOrder[k..]);
        Dispatch(from, whole.records) == events + Dispatch(from, rest.records) &&
        whole.cursor == rest.cursor && whole.fault == rest.fault
    {
      var published;
      ghost var ev := events;
      published, index, fault := Probe(buf, index, k, from);
      if fault.Some? {
        return;
      }
      events := events + published;
      assert ev + (published + Dispatch(from, Probes(buf[..], index, ProbeOrder[k + 1..]).records))
          == events + Dispatch(from, Probes(buf[..], index, ProbeOrder[k + 1..]).records);
      k := k + 1;
    }
  }

  /** One `if (buf[index++] == ID) { ... }` block: probe tag `ProbeOrder[k]` at `index`
      and return the publish it makes, the next cursor, and the fault, if any. */
  method Probe(buf: array<byte>, index: nat, k: nat, from: byte) returns (published: seq<Publish>, next: nat, fault: Option<nat>)
    requires k < |ProbeOrder|
    ensures fault.Some? ==> published == [] && Probes(buf[..], index, ProbeOrder[k..]) == Scan([], next, fault)
    ensures fault.None? ==>
      var here, rest := Probes(buf[..], index, ProbeOrder[k..]), Probes(buf[..], next, ProbeOrder[k + 1..]);
      Dispatch(from, here.records) == published + Dispatch(from, rest.records) &&
      here.cursor == rest.cursor && here.fault == rest.fault
  {
    ProbeUnfold(buf[..], index, k);
    published, next, fault := [], index, None;
    if next >= buf.Length {
      fault := Some(next);
      return;
    }
    var tag := buf[next];
    next := next + 1;
    if tag == TagId(ProbeOrder[k]) {
      if next + 4 > buf.Length {
        fault := Some(buf.Length);
        return;
      }
      var value := ConvertToFloat(buf, next);
      next := next + 4;
      published := [Publish(Route(from, ProbeOrder[k]), Sensor(value))];
      DispatchCons(from, Record(ProbeOrder[k], value), Probes(buf[..], next, ProbeOrder[k + 1..]).records);
    }
  }

  /** One probe of the probe order, unfolded. */
  lemma ProbeUnfold(b: seq<byte>, cursor: nat, k: nat)
    requires k < |ProbeOrder|
    ensures var here, next := ProbeOrder[k..], ProbeOrder[k + 1..];
      var t := ProbeOrder[k];
      if cursor >= |b| then Probes(b, cursor, here) == Scan([], cursor, Some(cursor))
      else if b[cursor] != TagId(t) then Probes(b, cursor, here) == Probes(b, cursor + 1, next)
      else if cursor + 5 > |b| then Probes(b, cursor, here) == Scan([], cursor + 1, Some(|b|))
      else
        var rest := Probes(b, cursor + 5, next);
        Probes(b, cursor, here) == Scan([Record(t, b[cursor + 1..cursor + 5])] + rest.records, rest.cursor, rest.fault)
  {
    assert ProbeOrder[k..][0] == ProbeOrder[k] && ProbeOrder[k..][1..] == ProbeOrder[k + 1..];
  }

  lemma DispatchCons(from: byte, r: Record, rs: seq<Record>)
    ensures Dispatch(from, [r] + rs) == [Publish(Route(from, r.tag), Sensor(r.value))] + Dispatch(from, rs)
  {
    assert ([r] + rs)[1..] == rs;
  }

  /** The pass for a received frame; `answer` is what the ADC sends back during getTemp. */
  method HandleFrame(buf: array<byte>, len: byte, from: byte, answer: seq<byte>) returns (out: Outcome)
    requires |answer| == 3
    modifies buf
    ensures buf[..] == if len as int < buf.Length then old(buf[..])[len as int := 0] else old(buf[..])
    ensures out == Handle(old(buf[..]), len, from, AdcReading(answer))
  {
    if len as int >= buf.Length {
      // the terminator would be written past the end of buf
      return Outcome([], Some(len as int));
    }
    buf[len] := 0;
    var events, _, fault := DecodeAndPublish(buf, from);
    if fault.Some? {
      return Outcome(events, fault);
    }
    var _, sensorVal := ReadAdc(answer);
    out := Outcome(events + [Publish(TempPi, LocalTemp(sensorVal))], None);
  }

  /** One turn of the loop over the frame recvfromAck reported, if any. */
  method Poll(buf: array<byte>, rx: Option<Reception>, answer: seq<byte>) returns (out: Outcome)
    requires |answer| == 3
    modifies buf
    ensures rx.None? ==> out.events == [] && out.fault == None && buf[..] == old(buf[..])
    ensures rx.Some? ==>
      buf[..] == if rx.value.len as int < buf.Length then old(buf[..])[rx.value.len as int := 0] else old(buf[..])
    ensures out == Step(old(buf[..]), rx, AdcReading(answer))
  {
    match rx
    case None => out := Outcome([], None);
    case Some(r) => out := HandleFrame(buf, r.len, r.from, answer);
  }

  /** The terminator `buf[len] = 0` is the access that faults exactly when the frame
      fills the whole buffer (or claims more); it then happens before anything is posted.
      Every other fault is a read at or past the end of the buffer. */
  lemma TerminatorFault(b: seq<byte>, len: byte, from: byte, adc: bv16)
    ensures Handle(b, len, from, adc).fault == Some(len as int) <==> len as int >= |b|
    ensures len as int >= |b| ==> Handle(b, len, from, adc).events == []
    ensures len as int < |b| && Handle(b, len, from, adc).fault.Some? ==>
      Handle(b, len, from, adc).fault.value >= |b|
  {
    if len as int < |b| {
      ProbesShape(b[len as int := 0], 1, ProbeOrder);
    }
  }

  /** With a buffer of at least 21 bytes (RH_RF69_MAX_MESSAGE_LEN is larger), the
      only fault is the terminator of a frame that fills the buffer. */
  lemma LongBufferFaults(b: seq<byte>, len: byte, from: byte, adc: bv16)
    requires |b| >= 21
    ensures Handle(b, len, from, adc).fault.None? <==> len as int < |b|
  {
    if len as int < |b| {
      DecodeShape(b[len as int := 0]);
    }
  }

  /** Publish order of a pass that does not fault: the matched records in probe order,
      each to its routed sensor, then exactly one post of the local reading to TEMP_PI.
      A pass that faults never posts the local reading. */
  lemma PublishOrder(b: seq<byte>, len: byte, from: byte, adc: bv16)
    ensures var out := Handle(b, len, from, adc);
      var n := |out.events|;
      (out.fault.None? ==>
        1 <= n <= 5 &&
        out.events[n - 1] == Publish(TempPi, LocalTemp(adc)) &&
        out.events[..n - 1] == Dispatch(from, Decode(b[len as int := 0]).records)) &&
      (forall i, j :: 0 <= i < j < n && out.events[j].id != TempPi ==>
        exists s, t :: out.events[i].id == Route(from, s) && out.events[j].id == Route(from, t) && Rank(s) < Rank(t)) &&
      (forall i :: 0 <= i < n && (out.fault.Some? || i < n - 1) ==> out.events[i].id != TempPi)
  {
    var out := Handle(b, len, from, adc);
    if len as int < |b| {
      var s := Decode(b[len as int := 0]);
      DecodeShape(b[len as int := 0]);
      var ds := Dispatch(from, s.records);
      DispatchAt(from, s.records);
      assert out.fault.None? ==> out.events[..|out.events| - 1] == ds;
      forall i, j | 0 <= i < j < |out.events| && out.events[j].id != TempPi
        ensures exists s, t :: out.events[i].id == Route(from, s) && out.events[j].id == Route(from, t) && Rank(s) < Rank(t)
      {
        assert j < |ds| && out.events[i] == ds[i] && out.events[j] == ds[j];
        assert out.events[i].id == Route(from, s.records[i].tag);
        assert out.events[j].id == Route(from, s.records[j].tag);
      }
    }
  }

  /** No empty-frame error: a frame of length 0 overwrites the packet number with the
      terminator and is still decoded from the stale bytes after it, and the local
      reading is still posted. */
  lemma EmptyFrameStillPublishes(b: seq<byte>, from: byte, adc: bv16)
    requires |b| >= 21
    ensures var out := Handle(b, 0, from, adc);
      out.fault.None? && |out.events| >= 1 && out.events[|out.events| - 1] == Publish(TempPi, LocalTemp(adc)) &&
      out.events[..|out.events| - 1] == Dispatch(from, Decode(b).records)
  {
    LongBufferFaults(b, 0, from, adc);
    PublishOrder(b, 0, from, adc);
    PacketNumberIgnored(b, 0);
  }

  /** TEMP_ID is 0: when the terminator lands where the first tag is probed (a frame
      holding only its packet number), the probe matches TEMP and the four stale bytes
      after it are posted as a temperature. */
  lemma TerminatorReadAsTemp(b: seq<byte>, from: byte, adc: bv16)
    requires |b| >= 21
    ensures var out := Handle(b, 1, from, adc);
      |out.events| >= 2 && out.events[0] == Publish(Route(from, Temp), Sensor(b[2..6]))
  {
    var t := b[1 := 0];
    ProbeUnfold(t, 1, 0);
    assert ProbeOrder[0..] == ProbeOrder;
    assert t[2..6] == b[2..6];
    LongBufferFaults(b, 1, from, adc);
  }

  /** The received length bounds nothing but the terminator: every byte of offsets 1 to
      20 counts, stale or not, and no byte from offset 21 on. */
  lemma HandleReadsOneToTwenty(b: seq<byte>, c: seq<byte>, len: byte, from: byte, adc: bv16)
    requires |b| == |c| >= 21 && b[1..21] == c[1..21]
    ensures Handle(b, len, from, adc) == Handle(c, len, from, adc)
  {
    if len as int < |b| {
      var b', c' := b[len as int := 0], c[len as int := 0];
      forall o | 1 <= o < 21 ensures b'[o] == c'[o] {
        assert b[o] == b[1..21][o - 1] && c[o] == c[1..21][o - 1];
      }
      assert b'[1..21] == c'[1..21];
      DecodeReadsOneToTwenty(b', c');
    }
  }

  /** A complete packet received into a larger buffer is posted in full: one post per
      sensor, in probe order, to the sender's sensors, then the local reading. */
  lemma FullPacketPublished(number: byte, values: seq<seq<byte>>, stale: seq<byte>, from: byte, adc: bv16)
    requires |values| == 4 && forall i :: 0 <= i < 4 ==> |values[i]| == 4
    requires |stale| >= 1
    ensures Handle(Encode(number, values) + stale, 21, from, adc) == Outcome([
        Publish(Route(from, Temp), Sensor(values[0])), Publish(Route(from, Ir), Sensor(values[1])),
        Publish(Route(from, MicEnvel), Sensor(values[2])), Publish(Route(from, Co2), Sensor(values[3])),
        Publish(TempPi, LocalTemp(adc))], None)
  {
    var b := Encode(number, values) + stale;
    assert b[21 := 0] == Encode(number, values) + stale[0 := 0];
    DecodeEncode(number, values, stale[0 := 0]);
    DispatchAt(from, Decode(b[21 := 0]).records);
  }

  /** A frame with a temperature and a CO2 value but no IR or microphone value, from
      node 2: the IR probe lands on the CO2 tag and the last two probes on the CO2
      value's bytes, so only the temperature is posted before the local reading. */
  lemma PartialPacketAsWritten(adc: bv16)
    ensures var frame: seq<byte> := [0x07, 0x00, 0x00, 0x00, 0xBC, 0x41, 0x04, 0x9A, 0x19, 0xCD, 0x43];
      Handle(frame + seq(10, _ => 0), 11, Trinket1Id, adc) ==
        Outcome([Publish(Temp1, Sensor([0x00, 0x00, 0xBC, 0x41])), Publish(TempPi, LocalTemp(adc))], None)
  {
    var frame: seq<byte> := [0x07, 0x00, 0x00, 0x00, 0xBC, 0x41, 0x04, 0x9A, 0x19, 0xCD, 0x43];
    var b := (frame + seq(10, _ => 0))[11 := 0];
    ProbeUnfold(b, 1, 0);
    ProbeUnfold(b, 6, 1);
    ProbeUnfold(b, 7, 2);
    ProbeUnfold(b, 8, 3);
    assert ProbeOrder[0..] == ProbeOrder && ProbeOrder[4..] == [];
    assert b[2..6] == [0x00, 0x00, 0xBC, 0x41];
  }

  /** A frame with a temperature and a CO2 value whose first byte is 3, from node 2:
      the microphone probe lands on that byte and posts the next four bytes (the rest
      of the CO2 value and the terminator) as a microphone reading. */
  lemma PartialPacketMisread(adc: bv16)
    ensures var frame: seq<byte> := [0x07, 0x00, 0x00, 0x00, 0xBC, 0x41, 0x04, 0x03, 0x11, 0x22, 0x33];
      Handle(frame + seq(10, _ => 0), 11, Trinket1Id, adc) ==
        Outcome([Publish(Temp1, Sensor([0x00, 0x00, 0xBC, 0x41])), Publish(Mic1, Sensor([0x11, 0x22, 0x33, 0x00])),
          Publish(TempPi, LocalTemp(adc))], None)
  {
    var frame: seq<byte> := [0x07, 0x00, 0x00, 0x00, 0xBC, 0x41, 0x04, 0x03, 0x11, 0x22, 0x33];
    var b := (frame + seq(10, _ => 0))[11 := 0];
    ProbeUnfold(b, 1, 0);
    ProbeUnfold(b, 6, 1);
    ProbeUnfold(b, 7, 2);
    ProbeUnfold(b, 12, 3);
    assert ProbeOrder[0..] == ProbeOrder && ProbeOrder[4..] == [];
    assert b[2..6] == [0x00, 0x00, 0xBC, 0x41];
    assert b[8..12] == [0x11, 0x22, 0x33, 0x00];
    DispatchAt(Trinket1Id, Decode(b).records);
  }
}
