/**
  The mapping from (sender address, sensor tag) to the backend virtual sensor that
  receives the value, as the branches of iot.cpp's main loop choose it.
 */
module Routing {
  import opened Protocol

  const Temp1 := "N5S0"
  const Temp2 := "N9S0"
  const Mic1 := "N6S0"
  const Mic2 := "N10S0"
  const Ir1 := "N7S0"
  const Ir2 := "N11S0"
  const Co21 := "N8S0"
  const Co22 := "N12S0"

  /** The backend sensor of the gateway's own temperature probe. */
  const TempPi := "N13S0"

  /** Backend identifiers of the first node's sensors, indexed by probe rank. */
  const Trinket1Sensors: seq<string> := [Temp1, Ir1, Mic1, Co21]
  /** Backend identifiers used for every other sender, indexed by probe rank. */
  const OtherSensors: seq<string> := [Temp2, Ir2, Mic2, Co22]

  /** The backend identifier a value of tag `t` from sender `from` is posted to:
      only sender 2 selects the first set; any other address the second. */
  function Route(from: byte, t: Tag): (id: string)
    ensures from == Trinket1Id ==> id == Trinket1Sensors[Rank(t)]
    ensures from != Trinket1Id ==> id == OtherSensors[Rank(t)]
    ensures '/' !in id && id != TempPi
  {
    match t
    case Temp => if from == Trinket1Id then Temp1 else Temp2
    case Ir => if from == Trinket1Id then Ir1 else Ir2
    case MicEnvel => if from == Trinket1Id then Mic1 else Mic2
    case Co2 => if from == Trinket1Id then Co21 else Co22
  }

  /** Every (sender class, tag) pair has its own backend sensor: two values land on
      the same identifier exactly when they have the same tag and both or neither
      come from node 2. */
  lemma RouteInjective(f: byte, s: Tag, g: byte, t: Tag)
    ensures Route(f, s) == Route(g, t) <==> s == t && (f == Trinket1Id <==> g == Trinket1Id)
  {
    var a, b := Route(f, s), Route(g, t);
    if a == b {
      // the identifiers differ in their length or in their second or third character
      assert |a| == |b| && a[1] == b[1];
      assert |a| == 5 ==> a[2] == b[2];
    }
  }
}
