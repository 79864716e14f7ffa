/** The components wired to the utilities they are meant to call: the
    sender's and receiver's encryption hook backed by
    `encryptTextWithQuantumKey` and `decryptTextWithQuantumKey`, and the key
    receiver's parser backed by `parseTransmittedQuantumKey`. The two flows
    of the application are stated over them: a message copied on one side
    and pasted on the other, and a key generated, packed and pasted back. */
module EndToEnd {
  import opened JsValue
  import opened Codec
  import opened KeyBits
  import Encryption
  import KeyPayload
  import KeyContext
  import KeyReceiver
  import MessageSender
  import MessageReceiver

  const RefusedMessage: string := "Decryption failed or integrity check failed"

  /** The message of an exception the utilities throw; the platform's own
      exceptions (base64, PBKDF2, AES-GCM rejections) carry messages that are
      not modelled and appear as the empty string. */
  function FailureMessage(f: Encryption.Failure): string {
    match f
    case InvalidKeyBits => "Invalid quantum key bits (expected array of 0/1, min length 16)"
    case EmptyPlaintext => "Plaintext is empty"
    case InvalidPackage => "Invalid encrypted package"
    case _ => ""
  }

  /** The sender's `encrypt(message)`: the package object on success; a
      thrown error leaves the state as it is, as a failed reply does. */
  function SenderEncrypt(c: Codecs, cr: Encryption.Crypto, bits: Value, opts: Encryption.EncryptOptions,
                         entropy: Encryption.Entropy): string -> MessageSender.EncryptReply
  {
    m =>
      match Encryption.Encrypt(c, cr, Str(m), bits, opts, entropy)
      case Returned(e) => MessageSender.EncryptReply(true, Encryption.PackageValue(e.package))
      case Threw(_) => MessageSender.EncryptReply(false, Null)
  }

  /** The receiver's `decrypt(data)`, with no associated data. */
  function ReceiverDecrypt(c: Codecs, cr: Encryption.Crypto, bits: Value): Value -> MessageReceiver.DecryptReply {
    v =>
      match Encryption.Decrypt(c, cr, v, bits, Encryption.NoAad)
      case Returned(Opened(p)) => MessageReceiver.Opened(p)
      case Returned(DecryptionFailed) => MessageReceiver.Refused(RefusedMessage)
      case Threw(f) => MessageReceiver.Raised(FailureMessage(f))
  }

  /** With a valid message and encryption succeeding, the sender stores the
      package object of the trimmed message. */
  lemma SenderStoresPackage(c: Codecs, cr: Encryption.Crypto, bits: Value, opts: Encryption.EncryptOptions,
                            entropy: Encryption.Entropy, sender: MessageSender.SenderState)
    requires MessageSender.IsMessageValid(sender.message)
    requires Encryption.Encrypt(c, cr, Str(Trim(sender.message)), bits, opts, entropy).Returned?
    ensures KeyContext.ValidateKeyBits(bits, false)
    ensures MessageSender.HandleEncrypt(sender, true, false, SenderEncrypt(c, cr, bits, opts, entropy)).package
      == Encryption.PackageValue(Encryption.Encrypt(c, cr, Str(Trim(sender.message)), bits, opts, entropy).value.package)
  {
  }

  /** The receiver's `decrypt` opens a package object made by the sender's
      `encrypt` with the same bits. */
  lemma ReceiverOpensPackage(c: Codecs, cr: Encryption.Crypto, bits: Value, opts: Encryption.EncryptOptions,
                             entropy: Encryption.Entropy, message: string)
    requires Lawful(c) && Encryption.Sound(cr) && opts.aad == Encryption.NoAad
    requires Encryption.Encrypt(c, cr, Str(message), bits, opts, entropy).Returned?
    ensures ReceiverDecrypt(c, cr, bits)(Encryption.PackageValue(Encryption.Encrypt(c, cr, Str(message), bits, opts, entropy).value.package))
      == MessageReceiver.Opened(message)
  {
    Encryption.EncryptDecryptRoundTrip(c, cr, Str(message), bits, opts, entropy);
  }

  /** The copied envelope of a package object, pasted into the receiver's
      input, is unwrapped to that object and decrypted. */
  lemma PasteEnvelope(c: Codecs, receiver: MessageReceiver.ReceiverState, pkg: Value, copiedAt: int, pastedAt: int,
                      decrypt: Value -> MessageReceiver.DecryptReply)
    requires Lawful(c) && pkg.Obj? && decrypt(pkg).Opened?
    ensures var got := MessageReceiver.PasteFromInput(c, receiver.(pasteInput := c.stringify(MessageSender.Envelope(pkg, copiedAt))),
                                                      true, decrypt, pastedAt);
      && |got.messages| == |receiver.messages| + 1
      && got.messages[0] == MessageReceiver.Entry(pastedAt, decrypt(pkg).plaintext, MessageReceiver.Decrypted, None)
      && got.current == decrypt(pkg).plaintext
      && got.messages[1..] == receiver.messages
      && got.pasteInput == ""
  {
    var text := c.stringify(MessageSender.Envelope(pkg, copiedAt));
    ObjectJsonIsTrimmed(c, MessageSender.Envelope(pkg, copiedAt));
    assert !AllWhitespace(text) by {
      assert !IsWhitespace(text[0]);
    }
    assert MessageReceiver.Unwrap(c, text) == pkg;
  }

  /** A message encrypted and copied by the sender, pasted into the
      receiver's input with the same key bits, adds a decrypted entry whose
      content is the trimmed message and becomes the current message. */
  lemma MessageRoundTrip(c: Codecs, cr: Encryption.Crypto, bits: Value, opts: Encryption.EncryptOptions,
                         entropy: Encryption.Entropy, sender: MessageSender.SenderState,
                         receiver: MessageReceiver.ReceiverState, copiedAt: int, pastedAt: int)
    requires Lawful(c) && Encryption.Sound(cr) && opts.aad == Encryption.NoAad
    requires MessageSender.IsMessageValid(sender.message)
    requires Encryption.Encrypt(c, cr, Str(Trim(sender.message)), bits, opts, entropy).Returned?
    ensures KeyContext.ValidateKeyBits(bits, false)
    ensures var sent := MessageSender.HandleEncrypt(sender, true, false, SenderEncrypt(c, cr, bits, opts, entropy));
      var copied := MessageSender.HandleCopy(c, sent, copiedAt, true);
      && copied.1.Some?
      && var got := MessageReceiver.PasteFromInput(c, receiver.(pasteInput := copied.1.GetOr("")), true,
                                                   ReceiverDecrypt(c, cr, bits), pastedAt);
         && |got.messages| == |receiver.messages| + 1
         && got.messages[0] == MessageReceiver.Entry(pastedAt, Trim(sender.message), MessageReceiver.Decrypted, None)
         && got.current == Trim(sender.message)
         && got.messages[1..] == receiver.messages
         && got.pasteInput == ""
  {
    var message := Trim(sender.message);
    var pkg := Encryption.PackageValue(Encryption.Encrypt(c, cr, Str(message), bits, opts, entropy).value.package);
    SenderStoresPackage(c, cr, bits, opts, entropy, sender);
    var sent := MessageSender.HandleEncrypt(sender, true, false, SenderEncrypt(c, cr, bits, opts, entropy));
    assert sent.package == pkg;
    MessageSender.CopiedEnvelope(c, sent, copiedAt);
    ReceiverOpensPackage(c, cr, bits, opts, entropy, message);
    PasteEnvelope(c, receiver, pkg, copiedAt, pastedAt, ReceiverDecrypt(c, cr, bits));
  }

  /** Without a valid key the pasted message is not decrypted: the receiver
      records a processing failure and keeps its current message. */
  lemma MessageWithoutKey(c: Codecs, cr: Encryption.Crypto, bits: Value, receiver: MessageReceiver.ReceiverState, text: string, now: int)
    requires !KeyContext.ValidateKeyBits(bits, false) && !AllWhitespace(text)
    ensures var got := MessageReceiver.PasteFromInput(c, receiver.(pasteInput := text), KeyContext.ValidateKeyBits(bits, false),
                                                      ReceiverDecrypt(c, cr, bits), now);
      && |got.messages| == |receiver.messages| + 1
      && got.messages[0].status == MessageReceiver.Failed
      && got.messages[0].content == MessageReceiver.ProcessingFailed
      && got.current == receiver.current
  {
  }

  /** A key generated by a valid session of 16 to 800 bits, packed for
      transmission and pasted back into the same context, is accepted and
      matches, and both derived flags hold. */
  lemma KeyExchangeRoundTrip(c: Codecs, ctx: KeyContext.State, session: KeyContext.Session, ts: int, accepted: bool)
    requires Lawful(c)
    requires session.valid && AllBits(session.aliceKeyBits)
    requires MinKeyBits <= |session.aliceKeyBits| <= KeyPayload.MaxBits
    ensures var generated := KeyContext.Generate(ctx, KeyContext.Produced(session));
      var text := KeyPayload.ConvertToTransmittable(c, generated.0.generated, ts);
      var pasted := KeyReceiver.PastePayload(c, generated.0, accepted, Some(text), p => KeyPayload.ParseTransmitted(c, p));
      && generated.1
      && pasted.accepted
      && pasted.context.status == KeyContext.Matched
      && KeyContext.IsKeyValid(pasted.context)
      && KeyContext.AreKeysMatching(pasted.context)
  {
    var items := session.aliceKeyBits;
    var generated := KeyContext.Generate(ctx, KeyContext.Produced(session));
    assert generated.1 && generated.0.generated == Arr(items);
    var text := KeyPayload.ConvertToTransmittable(c, generated.0.generated, ts);
    assert text == KeyPayload.Pack(c, Arr(items), ts);
    KeyReceiver.PastePackedKey(c, generated.0, accepted, items, ts);
    var pasted := KeyReceiver.PastePayload(c, generated.0, accepted, Some(text), p => KeyPayload.ParseTransmitted(c, p));
    KeyContext.EqualValidKeys(pasted.context);
  }
}
