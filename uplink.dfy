/**
  What the gateway posts to the backend (postToServer, iot.cpp lines 95-114): one
  event per value, addressed by a backend identifier, and the request URL built
  from it. The text of the value (std::to_string of a float) is a parameter.
 */
module Uplink {
  import opened Wrappers
  import opened Protocol

  /** What a publish carries: the 4 raw bytes of a remote float, or the raw 10-bit
      reading of the gateway's own ADC (before getTemp's scaling). */
  datatype Reading = Sensor(bytes: seq<byte>) | LocalTemp(adc: bv16)

  /** One call of postToServer. */
  datatype Publish = Publish(id: string, reading: Reading)

  const UrlPrefix := "http://localhost/Api/EasyIoT/Control/Module/Virtual/"
  const LevelPath := "/ControlLevel/"

  /** The URL of the backend request that sets sensor `id` to `valueText`. */
  function Url(id: string, valueText: string): (url: string)
    ensures |url| == |UrlPrefix| + |id| + |LevelPath| + |valueText|
    ensures url[..|UrlPrefix|] == UrlPrefix
  {
    UrlPrefix + id + LevelPath + valueText
  }

  /** Index of the first '/' in `s`, or |s| if there is none. */
  function FirstSlash(s: string): (k: nat)
    ensures k <= |s|
    ensures forall i :: 0 <= i < k ==> s[i] != '/'
    ensures k < |s| ==> s[k] == '/'
  {
    if s == [] || s[0] == '/' then 0 else 1 + FirstSlash(s[1..])
  }

  /** How the backend reads a request URL: the sensor identifier runs up to the
      first '/' after the prefix, the level text follows "/ControlLevel/". */
  function ParseUrl(url: string): Option<(string, string)>
  {
    if |url| < |UrlPrefix| || url[..|UrlPrefix|] != UrlPrefix then None
    else
      var rest := url[|UrlPrefix|..];
      var k := FirstSlash(rest);
      if |rest| - k < |LevelPath| || rest[k..k + |LevelPath|] != LevelPath then None
      else Some((rest[..k], rest[k + |LevelPath|..]))
  }

  lemma {:induction false} FirstSlashBefore(id: string, tail: string)
    requires '/' !in id && tail != [] && tail[0] == '/'
    ensures FirstSlash(id + tail) == |id|
  {
    if id != [] {
      assert (id + tail)[0] == id[0];
      assert (id + tail)[1..] == id[1..] + tail;
      FirstSlashBefore(id[1..], tail);
    } else {
      assert id + tail == tail;
    }
  }

  /** A URL built for an identifier without '/' (every routed identifier) is read
      back as that identifier and that value text. */
  lemma UrlRoundTrip(id: string, valueText: string)
    requires '/' !in id
    ensures ParseUrl(Url(id, valueText)) == Some((id, valueText))
  {
    var url := Url(id, valueText);
    var rest := url[|UrlPrefix|..];
    assert rest == id + (LevelPath + valueText);
    FirstSlashBefore(id, LevelPath + valueText);
    assert rest[..|id|] == id;
    assert rest[|id|..|id| + |LevelPath|] == LevelPath;
    assert rest[|id| + |LevelPath|..] == valueText;
  }

  /** Distinct (identifier, text) pairs give distinct URLs. */
  lemma UrlInjective(id1: string, t1: string, id2: string, t2: string)
    requires '/' !in id1 && '/' !in id2
    ensures Url(id1, t1) == Url(id2, t2) <==> id1 == id2 && t1 == t2
  {
    UrlRoundTrip(id1, t1);
    UrlRoundTrip(id2, t2);
  }
}
