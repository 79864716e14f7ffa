/** The key payload of ggwaveWrapper.js: key bits joined into a string of
    at most 800 characters, wrapped in `{v: 1, t: 'qkey', ts, bits, orig}`,
    serialised to JSON and base64; and the parser that sanitises, decodes and
    maps each character back to a bit. */
module KeyPayload {
  import opened JsValue
  import opened Base64Text
  import opened Codec
  import opened KeyBits

  /** Longest bit string sent, to stay within the audio modem's frame. */
  const MaxBits: nat := 800

  function Min(a: nat, b: nat): nat {
    if a < b then a else b
  }

  /** `Array.isArray(bitsArray) ? bitsArray.join('') : ''` */
  function BitString(bitsArray: Value): string {
    if bitsArray.Arr? then Join(bitsArray, |bitsArray.items|, "") else ""
  }

  /** The first 800 characters of the bit string. */
  function Truncate(s: string): (r: string)
    ensures |r| == Min(|s|, MaxBits)
    ensures r == s[..|r|]
  {
    if |s| > MaxBits then s[..MaxBits] else s
  }

  /** The payload object before serialisation. */
  function PayloadValue(bits: string, orig: nat, ts: int): Value {
    Obj(map["v" := Num(1), "t" := Str("qkey"), "ts" := Num(ts), "bits" := Str(bits), "orig" := Num(orig)])
  }

  /** `packQuantumKeyPayload`, with `Date.now()` as the parameter `ts`. */
  function Pack(c: Codecs, bitsArray: Value, ts: int): string {
    var bitString := BitString(bitsArray);
    Token(c, PayloadValue(Truncate(bitString), |bitString|, ts))
  }

  /** `s.split('').map((c) => (c === '1' ? 1 : 0))` */
  function CharsToBits(s: string): (r: seq<Value>)
    ensures |r| == |s| && AllBits(r)
    ensures forall i :: 0 <= i < |s| ==> (r[i] == Num(1) <==> s[i] == '1')
  {
    seq(|s|, i requires 0 <= i < |s| => if s[i] == '1' then Num(1) else Num(0))
  }

  /** The JSON text a pasted or received string decodes to: sanitised, then
      base64 and strict UTF-8 decoded, `''` on any decoding failure. */
  function DecodedText(c: Codecs, b64: string): string {
    TextFromBase64(c, Sanitize(b64))
  }

  /** `unpackQuantumKeyPayload`: `null` unless the decoded JSON is an object
      with `t === 'qkey'` and a string `bits`; otherwise the object with
      `bits` replaced by the array of bits it spells. */
  function Unpack(c: Codecs, b64: string): (r: Option<Value>)
    ensures r.Some? <==>
      (c.parse(DecodedText(c, b64)).Some?
       && Get(c.parse(DecodedText(c, b64)).value, "t") == Some(Str("qkey"))
       && HasString(c.parse(DecodedText(c, b64)).value, "bits"))
    ensures r.Some? ==>
      var obj := c.parse(DecodedText(c, b64)).value;
      && r.value.Obj?
      && r.value.fields.Keys == obj.fields.Keys
      && (forall k :: k in obj.fields && k != "bits" ==> r.value.fields[k] == obj.fields[k])
      && r.value.fields["bits"] == Arr(CharsToBits(obj.fields["bits"].s))
  {
    match c.parse(DecodedText(c, b64))
    case None => None
    case Some(obj) =>
      if Get(obj, "t") != Some(Str("qkey")) || !HasString(obj, "bits") then None
      else Some(Obj(obj.fields["bits" := Arr(CharsToBits(obj.fields["bits"].s))]))
  }

  /** `convertQuantumKeyToTransmittable` is `packQuantumKeyPayload`. */
  function ConvertToTransmittable(c: Codecs, bitsArray: Value, ts: int): string {
    Pack(c, bitsArray, ts)
  }

  /** `parseTransmittedQuantumKey` is `unpackQuantumKeyPayload`. */
  function ParseTransmitted(c: Codecs, b64: string): Option<Value> {
    Unpack(c, b64)
  }

  /** Unpacking looks only at the base64-alphabet characters of its input. */
  lemma UnpackIgnoresNoise(c: Codecs, s: string)
    ensures Unpack(c, s) == Unpack(c, Sanitize(s))
  {
    SanitizeIdempotent(s);
  }

  /** A 0/1 array joins to the string of its digits. */
  lemma {:induction false} JoinBits(arr: Value, n: nat)
    requires arr.Arr? && n <= |arr.items| && AllBits(arr.items)
    ensures Join(arr, n, "") == seq(n, i requires 0 <= i < n => if arr.items[i] == Num(1) then '1' else '0')
  {
    if n > 0 {
      JoinBits(arr, n - 1);
      var last := arr.items[n - 1];
      assert ElementString(last) == if last == Num(1) then "1" else "0" by {
        assert IsBit(last);
        assert DigitChar(0) == '0' && DigitChar(1) == '1';
      }
    }
  }

  lemma BitStringOfBits(items: seq<Value>)
    requires AllBits(items)
    ensures |BitString(Arr(items))| == |items|
    ensures CharsToBits(BitString(Arr(items))) == items
  {
    JoinBits(Arr(items), |items|);
  }

  /** What `Pack` puts on the wire: the JSON of the payload object, whose
      `bits` is the truncated bit string and `orig` the untruncated length;
      a non-array gives the empty bit string. */
  lemma PackContents(c: Codecs, bitsArray: Value, ts: int)
    requires Lawful(c)
    ensures IsBase64Text(Pack(c, bitsArray, ts))
    ensures c.parse(DecodedText(c, Pack(c, bitsArray, ts)))
      == Some(PayloadValue(Truncate(BitString(bitsArray)), |BitString(bitsArray)|, ts))
    ensures !bitsArray.Arr? ==> BitString(bitsArray) == ""
  {
    var payload := PayloadValue(Truncate(BitString(bitsArray)), |BitString(bitsArray)|, ts);
    TextBase64RoundTrip(c, c.stringify(payload));
    SanitizeKeepsClean(Pack(c, bitsArray, ts));
  }

  /** Packing a 0/1 array and unpacking the result gives back its first
      min(n, 800) bits, the original length `n` and the other payload fields. */
  lemma PackUnpackRoundTrip(c: Codecs, items: seq<Value>, ts: int)
    requires Lawful(c) && AllBits(items)
    ensures Unpack(c, Pack(c, Arr(items), ts)).Some?
    ensures var u := Unpack(c, Pack(c, Arr(items), ts)).value;
      && Get(u, "bits") == Some(Arr(items[..Min(|items|, MaxBits)]))
      && Get(u, "orig") == Some(Num(|items|))
      && Get(u, "t") == Some(Str("qkey"))
      && Get(u, "v") == Some(Num(1))
      && Get(u, "ts") == Some(Num(ts))
  {
    PackContents(c, Arr(items), ts);
    BitStringOfBits(items);
    var s := BitString(Arr(items));
    var m := Min(|items|, MaxBits);
    assert Truncate(s) == s[..m];
    assert CharsToBits(s[..m]) == CharsToBits(s)[..m];
  }

  /** What the transmit side sends, the receive side parses back to the
      same bits, truncated to 800, with the original length. */
  lemma TransmittableRoundTrip(c: Codecs, items: seq<Value>, ts: int)
    requires Lawful(c) && AllBits(items)
    ensures ParseTransmitted(c, ConvertToTransmittable(c, Arr(items), ts)).Some?
    ensures var u := ParseTransmitted(c, ConvertToTransmittable(c, Arr(items), ts)).value;
      && Get(u, "bits") == Some(Arr(items[..Min(|items|, MaxBits)]))
      && Get(u, "orig") == Some(Num(|items|))
  {
    PackUnpackRoundTrip(c, items, ts);
  }

  /** The acceptance test of the receive loop: a non-empty decoded string
      that unpacks to an array of at least 8 bits. */
  function AcceptDecoded(c: Codecs, decoded: string): (r: Option<Value>)
    ensures r.Some? ==> r == Unpack(c, decoded)
    ensures r.Some? ==> ValidBits(r.value.fields["bits"], MinReceivedKeyBits)
    ensures r.Some? <==>
      (|decoded| > 0 && Unpack(c, decoded).Some?
       && |Unpack(c, decoded).value.fields["bits"].items| >= MinReceivedKeyBits)
  {
    if |decoded| == 0 then None
    else match Unpack(c, decoded)
      case None => None
      case Some(u) =>
        var bits := u.fields["bits"];
        if bits.Arr? && |bits.items| >= MinReceivedKeyBits then Some(u) else None
  }

  /** A packed key is accepted by the receive loop exactly when it has at least 8 bits. */
  lemma AcceptPackedKey(c: Codecs, items: seq<Value>, ts: int)
    requires Lawful(c) && AllBits(items)
    ensures AcceptDecoded(c, Pack(c, Arr(items), ts)).Some? <==> |items| >= MinReceivedKeyBits
  {
    PackUnpackRoundTrip(c, items, ts);
    PackContents(c, Arr(items), ts);
    var p := Pack(c, Arr(items), ts);
    var json := c.stringify(PayloadValue(Truncate(BitString(Arr(items))), |BitString(Arr(items))|, ts));
    TextBase64RoundTrip(c, json);
  }
}
