/** MessageSender.jsx: the message-validity and can-encrypt predicates, the
    encrypt handler, the `encrypted_message` envelope put on the clipboard,
    and reset. The component's encryption hook is a parameter: `keyValid`,
    `encrypting` (its status is 'encrypting') and `encrypt`. */
module MessageSender {
  import opened JsValue
  import opened Codec

  const MaxMessageLength: nat := 2000

  /** `message.trim().length > 0 && message.length <= MAX_MESSAGE_LENGTH` */
  predicate IsMessageValid(message: string) {
    |Trim(message)| > 0 && |message| <= MaxMessageLength
  }

  /** A message is valid exactly when it is not blank and fits the limit. */
  lemma MessageValidIff(message: string)
    ensures IsMessageValid(message) <==> (!AllWhitespace(message) && |message| <= MaxMessageLength)
    ensures IsMessageValid(message) ==> |Trim(message)| <= MaxMessageLength
  {
    TrimEmptyIffBlank(message);
    TrimStartShape(message);
    TrimEndShape(TrimStart(message));
  }

  /** `isKeyValid && isMessageValid && encStatus !== 'encrypting'` */
  predicate CanEncrypt(keyValid: bool, message: string, encrypting: bool) {
    keyValid && IsMessageValid(message) && !encrypting
  }

  /** The component's own state. `package` starts as `null`. */
  datatype SenderState = SenderState(message: string, package: Value, copied: bool)

  const Initial: SenderState := SenderState("", Null, false)

  /** What the hook's `encrypt` resolves to: `{ok, package}`. */
  datatype EncryptReply = EncryptReply(ok: bool, package: Value)

  /** `handleEncrypt`: nothing unless encryption is possible; otherwise the
      trimmed message is encrypted and the package kept only on success. */
  function HandleEncrypt(s: SenderState, keyValid: bool, encrypting: bool, encrypt: string -> EncryptReply): (r: SenderState)
    ensures r.message == s.message && r.copied == s.copied
    ensures !CanEncrypt(keyValid, s.message, encrypting) ==> r == s
    ensures CanEncrypt(keyValid, s.message, encrypting) && encrypt(Trim(s.message)).ok ==>
      r.package == encrypt(Trim(s.message)).package
    ensures r.package != s.package ==>
      (CanEncrypt(keyValid, s.message, encrypting) && encrypt(Trim(s.message)).ok)
  {
    if !CanEncrypt(keyValid, s.message, encrypting) then s
    else
      var result := encrypt(Trim(s.message));
      if result.ok then s.(package := result.package) else s
  }

  /** `{version: 1, type: 'encrypted_message', timestamp, data}` */
  function Envelope(data: Value, timestamp: int): Value {
    Obj(map["version" := Num(1), "type" := Str("encrypted_message"), "timestamp" := Num(timestamp), "data" := data])
  }

  /** `handleCopyMessage`, with `Date.now()` as `now` and whether the
      clipboard write succeeds as `clipboardWorks`: the new state and the
      text written to the clipboard, if any. */
  function HandleCopy(c: Codecs, s: SenderState, now: int, clipboardWorks: bool): (r: (SenderState, Option<string>))
    ensures r.1.Some? <==> (Truthy(s.package) && clipboardWorks)
    ensures r.0.copied <==> (s.copied || r.1.Some?)
    ensures r.0.message == s.message && r.0.package == s.package
  {
    if !Truthy(s.package) || !clipboardWorks then (s, None)
    else (s.(copied := true), Some(c.stringify(Envelope(s.package, now))))
  }

  /** What is copied reads back, as JSON, as the envelope around the stored
      package, and a paste handler's `trim` leaves it intact. */
  lemma CopiedEnvelope(c: Codecs, s: SenderState, now: int)
    requires Lawful(c) && Truthy(s.package)
    ensures HandleCopy(c, s, now, true).1 == Some(c.stringify(Envelope(s.package, now)))
    ensures var text := HandleCopy(c, s, now, true).1.value;
      && c.parse(text) == Some(Envelope(s.package, now))
      && Get(c.parse(text).value, "data") == Some(s.package)
      && Trim(text) == text
  {
    ObjectJsonIsTrimmed(c, Envelope(s.package, now));
  }

  /** `handleReset` */
  function Reset(s: SenderState): (r: SenderState)
    ensures r.message == "" && r.package.Null? && !r.copied
  {
    Initial
  }

  /** After a reset nothing can be encrypted or copied. */
  lemma ResetDisables(c: Codecs, s: SenderState, keyValid: bool, encrypting: bool, now: int, clipboardWorks: bool)
    ensures !CanEncrypt(keyValid, Reset(s).message, encrypting)
    ensures HandleCopy(c, Reset(s), now, clipboardWorks).1.None?
  {
    assert Trim("") == "";
  }
}
