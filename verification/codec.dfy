/** The foreign text and byte codecs the application calls: `JSON.stringify`
    and `JSON.parse` (RFC 8259), `btoa`/`atob` (base64, section 4 of RFC 4648),
    `TextEncoder`/`TextDecoder` (UTF-8) and the `decodeURIComponent(escape(...))`
    strict UTF-8 decoder. None of them is re-implemented: a `Codecs` value
    bundles one implementation of each, and `Lawful` states the round-trip
    laws the application depends on. */
module Codec {
  import opened JsValue
  import opened Base64Text

  type Byte = b: int | 0 <= b < 256

  datatype Codecs = Codecs(
    /** JSON.stringify */
    stringify: Value -> string,
    /** JSON.parse; None is a thrown SyntaxError */
    parse: string -> Option<Value>,
    /** bytes to base64 text */
    base64Encode: seq<Byte> -> string,
    /** base64 text to bytes; None is a thrown InvalidCharacterError */
    base64Decode: string -> Option<seq<Byte>>,
    /** TextEncoder.encode */
    utf8Encode: string -> seq<Byte>,
    /** TextDecoder.decode, which replaces malformed input and never fails */
    utf8Decode: seq<Byte> -> string,
    /** decodeURIComponent(escape(...)); None is a thrown URIError */
    utf8DecodeStrict: seq<Byte> -> Option<string>
  )

  ghost predicate Lawful(c: Codecs) {
    && (forall v :: c.parse(c.stringify(v)) == Some(v))
    && (forall v :: |c.stringify(v)| > 0)
    && (forall v: Value :: v.Obj? ==> ObjectText(c.stringify(v)))
    && c.parse("") == None
    && (forall bs :: c.base64Decode(c.base64Encode(bs)) == Some(bs))
    && (forall bs :: IsBase64Text(c.base64Encode(bs)))
    && (forall bs :: |bs| > 0 ==> |c.base64Encode(bs)| > 0)
    && (forall s :: c.utf8Decode(c.utf8Encode(s)) == s)
    && (forall s :: c.utf8DecodeStrict(c.utf8Encode(s)) == Some(s))
    && (forall s :: |s| > 0 ==> |c.utf8Encode(s)| > 0)
  }

  /** The JSON text of an object starts with `{` and ends with `}`. */
  predicate ObjectText(s: string) {
    |s| >= 2 && s[0] == '{' && s[|s| - 1] == '}'
  }

  /** JSON text of an object survives the `trim` a paste handler applies. */
  lemma ObjectJsonIsTrimmed(c: Codecs, v: Value)
    requires Lawful(c) && v.Obj?
    ensures Trim(c.stringify(v)) == c.stringify(v)
  {
    TrimUntouched(c.stringify(v));
  }

  /** Text to base64 as ggwaveWrapper.js does it: UTF-8 bytes, then base64. */
  function TextToBase64(c: Codecs, s: string): string {
    c.base64Encode(c.utf8Encode(s))
  }

  /** Base64 to text as ggwaveWrapper.js does it: any failure yields `''`. */
  function TextFromBase64(c: Codecs, b64: string): string {
    match c.base64Decode(b64)
    case None => ""
    case Some(bytes) =>
      match c.utf8DecodeStrict(bytes)
      case None => ""
      case Some(s) => s
  }

  /** Base64 text of non-empty text is non-empty and clean, and decodes back. */
  lemma TextBase64RoundTrip(c: Codecs, s: string)
    requires Lawful(c)
    ensures IsBase64Text(TextToBase64(c, s))
    ensures |s| > 0 ==> |TextToBase64(c, s)| > 0
    ensures TextFromBase64(c, TextToBase64(c, s)) == s
  {
  }

  /** JSON text of a value, as UTF-8 bytes, as base64: the single-token form
      used for encrypted packages and key payloads. */
  function Token(c: Codecs, v: Value): string {
    TextToBase64(c, c.stringify(v))
  }

  lemma TokenShape(c: Codecs, v: Value)
    requires Lawful(c)
    ensures IsBase64Text(Token(c, v)) && |Token(c, v)| > 0
    ensures c.parse(c.utf8Decode(c.base64Decode(Token(c, v)).value)) == Some(v)
  {
  }
}
