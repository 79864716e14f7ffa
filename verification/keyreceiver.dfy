/** KeyReceiver.jsx, `handlePastePayload`: the pasted text is tried first as
    a base64 `qkey` payload, then as the plain-JSON `quantum_key` payload;
    anything that does not give an array of at least 16 bits is refused
    before the context sees it. The audio hook's `parseTransmittedQuantumKey`
    is a parameter. */
module KeyReceiver {
  import opened JsValue
  import opened Base64Text
  import opened Codec
  import opened KeyBits
  import KeyPayload
  import AudioFallback
  import KeyContext

  /** The bits the two parsers find in the (trimmed) text: the `bits` of the
      `qkey` parse when it is truthy, otherwise the fallback parse's array, or
      `null`. */
  function PastedBits(c: Codecs, text: string, parseTransmitted: string -> Option<Value>): (r: Value)
    ensures (parseTransmitted(text).Some? && Get(parseTransmitted(text).value, "bits").Some?
             && Truthy(Get(parseTransmitted(text).value, "bits").value)) ==>
      r == Get(parseTransmitted(text).value, "bits").value
    ensures !(parseTransmitted(text).Some? && Get(parseTransmitted(text).value, "bits").Some?
              && Truthy(Get(parseTransmitted(text).value, "bits").value)) ==>
      r == (if AudioFallback.ParsePayload(c, text).Some? then Arr(AudioFallback.ParsePayload(c, text).value) else Null)
  {
    var unpacked := parseTransmitted(text);
    if unpacked.Some? && Get(unpacked.value, "bits").Some? && Truthy(Get(unpacked.value, "bits").value) then
      Get(unpacked.value, "bits").value
    else
      match AudioFallback.ParsePayload(c, text)
      case Some(bits) => Arr(bits)
      case None => Null
  }

  /** The length gate: `!bits || !Array.isArray(bits) || bits.length < 16`
      refuses. */
  predicate PassesGate(bits: Value) {
    bits.Arr? && |bits.items| >= MinKeyBits
  }

  /** The context after the paste, the `accepted` flag, and whether the
      failure alert was shown. */
  datatype PasteOutcome = PasteOutcome(context: KeyContext.State, accepted: bool, alerted: bool)

  /** `handlePastePayload` with the clipboard read as `clipboard` (None when
      the read fails) and `acceptKey` as the context's receive. */
  function PastePayload(c: Codecs, ctx: KeyContext.State, accepted: bool, clipboard: Option<string>,
                        parseTransmitted: string -> Option<Value>): (r: PasteOutcome)
    ensures clipboard.None? ==> r == PasteOutcome(ctx, accepted, true)
    ensures clipboard.Some? && !PassesGate(PastedBits(c, Trim(clipboard.value), parseTransmitted)) ==>
      r == PasteOutcome(ctx, accepted, true)
    ensures clipboard.Some? && PassesGate(PastedBits(c, Trim(clipboard.value), parseTransmitted)) ==>
      var bits := PastedBits(c, Trim(clipboard.value), parseTransmitted);
      && r.context == KeyContext.Receive(ctx, bits).0
      && r.accepted == KeyContext.Receive(ctx, bits).1.Accepted?
      && !r.alerted
    ensures r.context != ctx ==> clipboard.Some? && PassesGate(PastedBits(c, Trim(clipboard.value), parseTransmitted))
  {
    match clipboard
    case None => PasteOutcome(ctx, accepted, true)
    case Some(text) =>
      var bits := PastedBits(c, Trim(text), parseTransmitted);
      if !PassesGate(bits) then PasteOutcome(ctx, accepted, true)
      else
        var (ctx', result) := KeyContext.Receive(ctx, bits);
        PasteOutcome(ctx', result.Accepted?, false)
  }

  /** Past the gate, the key is accepted exactly when its elements are all
      0 or 1: the context's own 8-bit threshold never bites here. */
  lemma GatedAcceptance(c: Codecs, ctx: KeyContext.State, accepted: bool, text: string, parseTransmitted: string -> Option<Value>)
    requires PassesGate(PastedBits(c, Trim(text), parseTransmitted))
    ensures PastePayload(c, ctx, accepted, Some(text), parseTransmitted).accepted
      <==> AllBits(PastedBits(c, Trim(text), parseTransmitted).items)
  {
  }

  /** A key the generator packed as a `qkey` payload, of 16 to 800 bits all
      0 or 1, pasted on the receiving side is accepted, and it matches when
      it is the key generated there. */
  lemma PastePackedKey(c: Codecs, ctx: KeyContext.State, accepted: bool, items: seq<Value>, ts: int)
    requires Lawful(c) && AllBits(items) && MinKeyBits <= |items| <= KeyPayload.MaxBits
    ensures var r := PastePayload(c, ctx, accepted, Some(KeyPayload.Pack(c, Arr(items), ts)), p => KeyPayload.ParseTransmitted(c, p));
      && r.accepted
      && r.context.received == Arr(items)
      && r.context.generated == ctx.generated
      && (r.context.status == KeyContext.Matched <==> ctx.generated == Arr(items))
  {
    var text := KeyPayload.Pack(c, Arr(items), ts);
    KeyPayload.PackContents(c, Arr(items), ts);
    Base64TextIsTrimmed(text);
    PackedBitsFound(c, items, ts);
    assert ValidBits(Arr(items), MinReceivedKeyBits);
  }

  /** The `qkey` parse of a packed key of at most 800 bits finds all of them. */
  lemma PackedBitsFound(c: Codecs, items: seq<Value>, ts: int)
    requires Lawful(c) && AllBits(items) && |items| <= KeyPayload.MaxBits
    ensures PastedBits(c, KeyPayload.Pack(c, Arr(items), ts), p => KeyPayload.ParseTransmitted(c, p)) == Arr(items)
  {
    var text := KeyPayload.Pack(c, Arr(items), ts);
    KeyPayload.PackUnpackRoundTrip(c, items, ts);
    assert items[..KeyPayload.Min(|items|, KeyPayload.MaxBits)] == items;
    var u := KeyPayload.ParseTransmitted(c, text);
    assert u.Some? && Get(u.value, "bits") == Some(Arr(items));
  }

  /** A key in the plain-JSON fallback form, when the `qkey` parser finds
      nothing in it, is passed to the context as it is. */
  lemma PasteFallbackKey(c: Codecs, ctx: KeyContext.State, accepted: bool, items: seq<Value>, ts: int,
                         parseTransmitted: string -> Option<Value>)
    requires Lawful(c) && |items| >= MinKeyBits
    requires parseTransmitted(AudioFallback.GeneratePayload(c, items, ts)).None?
    ensures var r := PastePayload(c, ctx, accepted, Some(AudioFallback.GeneratePayload(c, items, ts)), parseTransmitted);
      && r.context == KeyContext.Receive(ctx, Arr(items)).0
      && (r.accepted <==> AllBits(items))
  {
    ObjectJsonIsTrimmed(c, AudioFallback.PayloadValue(items, ts));
    AudioFallback.GenerateParseRoundTrip(c, items, ts);
  }

  /** Text neither parser understands is refused and changes nothing. */
  lemma PasteGarbage(c: Codecs, ctx: KeyContext.State, accepted: bool, text: string, parseTransmitted: string -> Option<Value>)
    requires parseTransmitted(Trim(text)).None? && c.parse(Trim(text)).None?
    ensures PastePayload(c, ctx, accepted, Some(text), parseTransmitted) == PasteOutcome(ctx, accepted, true)
  {
  }
}
