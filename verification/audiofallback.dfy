/** audioFallback.js: the plain-JSON key payload used when the audio modem
    is unavailable, its parser, and the tone plan of `playQuantumKeyAudio`. */
module AudioFallback {
  import opened JsValue
  import opened Codec

  const BaseTone: int := 440
  const HighTone: int := 880
  /** Only this many leading bits are played. */
  const TonesPlayed: nat := 8

  /** `{version: 1, type: 'quantum_key', timestamp, bits, length}` */
  function PayloadValue(keyBits: seq<Value>, timestamp: int): Value {
    Obj(map[
      "version" := Num(1), "type" := Str("quantum_key"), "timestamp" := Num(timestamp),
      "bits" := Arr(keyBits), "length" := Num(|keyBits|)])
  }

  /** `generateAudioPayload` for an array of key bits, with `Date.now()` as
      the parameter `timestamp`. */
  function GeneratePayload(c: Codecs, keyBits: seq<Value>, timestamp: int): string {
    c.stringify(PayloadValue(keyBits, timestamp))
  }

  /** `parseAudioPayload`: the `bits` array when the JSON has
      `type === 'quantum_key'` and an array `bits`, otherwise `null`
      (also when the text is not JSON). */
  function ParsePayload(c: Codecs, text: string): (r: Option<seq<Value>>)
    ensures r.Some? <==>
      (c.parse(text).Some?
       && Get(c.parse(text).value, "type") == Some(Str("quantum_key"))
       && Get(c.parse(text).value, "bits").Some?
       && Get(c.parse(text).value, "bits").value.Arr?)
    ensures r.Some? ==> Get(c.parse(text).value, "bits") == Some(Arr(r.value))
  {
    match c.parse(text)
    case None => None
    case Some(payload) =>
      if Get(payload, "type") == Some(Str("quantum_key")) && Get(payload, "bits").Some? && Get(payload, "bits").value.Arr?
      then Some(Get(payload, "bits").value.items)
      else None
  }

  /** Whatever array is generated is parsed back unchanged. */
  lemma GenerateParseRoundTrip(c: Codecs, keyBits: seq<Value>, timestamp: int)
    requires Lawful(c)
    ensures ParsePayload(c, GeneratePayload(c, keyBits, timestamp)) == Some(keyBits)
  {
    assert c.parse(c.stringify(PayloadValue(keyBits, timestamp))) == Some(PayloadValue(keyBits, timestamp));
  }

  /** The parser checks neither `length` nor `version` nor the elements: any
      object with the right `type` and an array `bits` yields that array as is. */
  lemma ParseIgnoresLengthAndValues(c: Codecs, fields: map<string, Value>, keyBits: seq<Value>)
    requires Lawful(c)
    requires "type" in fields && fields["type"] == Str("quantum_key")
    requires "bits" in fields && fields["bits"] == Arr(keyBits)
    ensures ParsePayload(c, c.stringify(Obj(fields))) == Some(keyBits)
  {
    assert c.parse(c.stringify(Obj(fields))) == Some(Obj(fields));
  }

  /** The frequencies `playQuantumKeyAudio` plays, in order: one tone for
      each of the first eight bits, an octave up for a truthy bit. */
  function TonePlan(keyBits: seq<Value>): (r: seq<int>)
    ensures |r| == Min(|keyBits|, TonesPlayed)
    ensures forall i :: 0 <= i < |r| ==> (r[i] == HighTone <==> Truthy(keyBits[i]))
    ensures forall i :: 0 <= i < |r| ==> (r[i] == BaseTone <==> !Truthy(keyBits[i]))
  {
    Tones(keyBits, TonesPlayed)
  }

  function Min(a: nat, b: nat): nat {
    if a < b then a else b
  }

  /** The tones for at most `budget` leading bits. */
  function Tones(keyBits: seq<Value>, budget: nat): (r: seq<int>)
    ensures |r| == Min(|keyBits|, budget)
    ensures forall i :: 0 <= i < |r| ==> (r[i] == HighTone <==> Truthy(keyBits[i]))
    ensures forall i :: 0 <= i < |r| ==> (r[i] == BaseTone <==> !Truthy(keyBits[i]))
    decreases budget
  {
    if |keyBits| == 0 || budget == 0 then []
    else [if Truthy(keyBits[0]) then BaseTone * 2 else BaseTone] + Tones(keyBits[1..], budget - 1)
  }
}
