/** MessageReceiver.jsx: unwrapping pasted text (the `encrypted_message`
    envelope, the legacy `{t: 'msg'}` form, or the raw text), the history
    entry each decryption attempt adds, the paste handlers and clearing.
    The encryption hook is a parameter: `keyValid` and `decrypt`. */
module MessageReceiver {
  import opened JsValue
  import opened Codec

  /** What the hook's `decrypt` did: resolved `{ok: true, plaintext}`,
      resolved `{ok: false, error}` (an empty message standing for an error
      without one), or threw with the given message. */
  datatype DecryptReply = Opened(plaintext: string) | Refused(message: string) | Raised(message: string)

  datatype EntryStatus = Decrypted | Failed

  /** A history entry; `id` is `Date.now()` at the time it was made (the
      locale-formatted timestamp is not modelled). */
  datatype Entry = Entry(id: int, content: string, status: EntryStatus, error: Option<string>)

  datatype ReceiverState = ReceiverState(messages: seq<Entry>, pasteInput: string, decrypting: bool, current: string)

  const Initial: ReceiverState := ReceiverState([], "", false, "")

  const ProcessingFailed: string := "[Processing failed]"
  const DecryptionFailed: string := "[Decryption failed]"
  const ClipboardPasteFailed: string := "[Clipboard paste failed]"
  const NoKeyMessage: string := "No valid quantum key for decryption"
  const UnknownError: string := "Unknown error"

  /** The envelope test: JSON whose `type` is 'encrypted_message', or else
      whose `t` is 'msg', with a truthy `data`, gives that `data`; anything
      else, JSON or not, is passed on as the raw text. */
  function Unwrap(c: Codecs, data: string): (r: Value)
    ensures r != Str(data) ==>
      && c.parse(data).Some? && Get(c.parse(data).value, "data") == Some(r) && Truthy(r)
      && (Get(c.parse(data).value, "type") == Some(Str("encrypted_message")) || Get(c.parse(data).value, "t") == Some(Str("msg")))
    ensures c.parse(data).None? ==> r == Str(data)
  {
    match c.parse(data)
    case None => Str(data)
    case Some(parsed) =>
      var payload := Get(parsed, "data");
      var truthyData := payload.Some? && Truthy(payload.value);
      if Get(parsed, "type") == Some(Str("encrypted_message")) && truthyData then payload.value
      else if Get(parsed, "t") == Some(Str("msg")) && truthyData then payload.value
      else Str(data)
  }

  /** Any text that parses as either JSON form with a truthy `data`, however
      it is laid out, unwraps to that `data`. */
  lemma UnwrapForms(c: Codecs, text: string, fields: map<string, Value>, data: Value)
    requires c.parse(text) == Some(Obj(fields))
    requires Truthy(data) && "data" in fields && fields["data"] == data
    ensures "type" in fields && fields["type"] == Str("encrypted_message") ==> Unwrap(c, text) == data
    ensures "t" in fields && fields["t"] == Str("msg") ==> Unwrap(c, text) == data
  {
  }

  /** Any text that parses as JSON of another shape (neither form, or a
      falsy or missing `data`) is passed on as the raw text. */
  lemma UnwrapOtherJson(c: Codecs, text: string, v: Value)
    requires c.parse(text) == Some(v)
    requires (Get(v, "type") != Some(Str("encrypted_message")) && Get(v, "t") != Some(Str("msg")))
      || Get(v, "data").None? || !Truthy(Get(v, "data").value)
    ensures Unwrap(c, text) == Str(text)
  {
  }

  /** In particular the JSON text of any value: `JSON.stringify` output. */
  lemma UnwrapStringified(c: Codecs, v: Value)
    requires Lawful(c)
    requires Get(v, "type") != Some(Str("encrypted_message")) && Get(v, "t") != Some(Str("msg"))
    ensures Unwrap(c, c.stringify(v)) == Str(c.stringify(v))
  {
    UnwrapOtherJson(c, c.stringify(v), v);
  }

  /** The entry an error adds: `[Processing failed]` or `[Decryption failed]`
      with the error message. */
  function FailedEntry(now: int, content: string, error: string): Entry {
    Entry(now, content, Failed, Some(error))
  }

  /** `processReceivedData(data)`: exactly one entry is prepended to the
      history and the decrypting flag is cleared; a key check failure or a
      thrown decryption gives a processing-failed entry, a refused one a
      decryption-failed entry, and only a successful one changes the current
      message. */
  function Process(c: Codecs, s: ReceiverState, data: string, keyValid: bool, decrypt: Value -> DecryptReply, now: int): (r: ReceiverState)
    ensures |r.messages| == |s.messages| + 1 && r.messages[1..] == s.messages
    ensures !r.decrypting && r.pasteInput == s.pasteInput
    ensures !keyValid ==> r.messages[0] == FailedEntry(now, ProcessingFailed, NoKeyMessage) && r.current == s.current
    ensures r.messages[0].status == Decrypted <==> (keyValid && decrypt(Unwrap(c, data)).Opened?)
    ensures r.messages[0].status == Decrypted ==>
      r.messages[0] == Entry(now, decrypt(Unwrap(c, data)).plaintext, Decrypted, None) && r.current == r.messages[0].content
    ensures r.messages[0].status == Failed ==> r.current == s.current && r.messages[0].error.Some?
    ensures (r.messages[0].status == Failed && r.messages[0].content == DecryptionFailed)
      <==> (keyValid && decrypt(Unwrap(c, data)).Refused?)
    ensures (r.messages[0].status == Failed && r.messages[0].content == ProcessingFailed)
      <==> (!keyValid || decrypt(Unwrap(c, data)).Raised?)
    ensures keyValid && decrypt(Unwrap(c, data)).Refused? ==>
      var message := decrypt(Unwrap(c, data)).message;
      r.messages[0] == FailedEntry(now, DecryptionFailed, if |message| > 0 then message else UnknownError)
    ensures keyValid && decrypt(Unwrap(c, data)).Raised? ==>
      r.messages[0] == FailedEntry(now, ProcessingFailed, decrypt(Unwrap(c, data)).message)
  {
    var entry :=
      if !keyValid then FailedEntry(now, ProcessingFailed, NoKeyMessage)
      else match decrypt(Unwrap(c, data))
        case Opened(plaintext) => Entry(now, plaintext, Decrypted, None)
        case Refused(message) => FailedEntry(now, DecryptionFailed, if |message| > 0 then message else UnknownError)
        case Raised(message) => FailedEntry(now, ProcessingFailed, message);
    var current := if entry.status == Decrypted then entry.content else s.current;
    s.(messages := [entry] + s.messages, decrypting := false, current := current)
  }

  /** `handlePasteFromInput`: blank input does nothing; otherwise the trimmed
      input is processed and the input cleared. */
  function PasteFromInput(c: Codecs, s: ReceiverState, keyValid: bool, decrypt: Value -> DecryptReply, now: int): (r: ReceiverState)
    ensures AllWhitespace(s.pasteInput) ==> r == s
    ensures !AllWhitespace(s.pasteInput) ==>
      r == Process(c, s, Trim(s.pasteInput), keyValid, decrypt, now).(pasteInput := "")
  {
    TrimEmptyIffBlank(s.pasteInput);
    if |Trim(s.pasteInput)| == 0 then s
    else Process(c, s, Trim(s.pasteInput), keyValid, decrypt, now).(pasteInput := "")
  }

  /** What `navigator.clipboard.readText()` did. */
  datatype ClipboardRead = Read(text: string) | ReadFailed(message: string)

  /** `handlePasteFromClipboard`: a failed read adds a clipboard-failed entry;
      otherwise the trimmed text is processed (even when blank) and the input
      cleared. */
  function PasteFromClipboard(c: Codecs, s: ReceiverState, read: ClipboardRead, keyValid: bool, decrypt: Value -> DecryptReply, now: int): (r: ReceiverState)
    ensures |r.messages| == |s.messages| + 1 && r.messages[1..] == s.messages
    ensures read.ReadFailed? ==> r.messages[0] == FailedEntry(now, ClipboardPasteFailed, read.message) && r.pasteInput == s.pasteInput
    ensures read.ReadFailed? ==> r == s.(messages := [FailedEntry(now, ClipboardPasteFailed, read.message)] + s.messages)
    ensures read.Read? ==> r.pasteInput == ""
    ensures read.Read? ==> r == Process(c, s, Trim(read.text), keyValid, decrypt, now).(pasteInput := "")
  {
    match read
    case ReadFailed(message) => s.(messages := [FailedEntry(now, ClipboardPasteFailed, message)] + s.messages)
    case Read(text) => Process(c, s, Trim(text), keyValid, decrypt, now).(pasteInput := "")
  }

  /** Text read from the clipboard is handled as the same text pasted into
      the input, except that blank text is still processed from the
      clipboard (one more failed entry) while the input ignores it. */
  lemma ClipboardLikeInput(c: Codecs, s: ReceiverState, text: string, keyValid: bool, decrypt: Value -> DecryptReply, now: int)
    ensures !AllWhitespace(text) ==>
      PasteFromClipboard(c, s, Read(text), keyValid, decrypt, now)
      == PasteFromInput(c, s.(pasteInput := text), keyValid, decrypt, now)
    ensures AllWhitespace(text) ==>
      && PasteFromInput(c, s.(pasteInput := text), keyValid, decrypt, now) == s.(pasteInput := text)
      && |PasteFromClipboard(c, s, Read(text), keyValid, decrypt, now).messages| == |s.messages| + 1
  {
    if !AllWhitespace(text) {
      var a := Process(c, s, Trim(text), keyValid, decrypt, now);
      var b := Process(c, s.(pasteInput := text), Trim(text), keyValid, decrypt, now);
      assert a.(pasteInput := "") == b.(pasteInput := "");
    }
  }

  /** `handleClearMessages` */
  function ClearMessages(s: ReceiverState): (r: ReceiverState)
    ensures r.messages == [] && r.current == "" && r.pasteInput == ""
    ensures r.decrypting == s.decrypting
  {
    s.(messages := [], current := "", pasteInput := "")
  }

  /** Entries only accumulate: after any sequence of processed inputs the
      history is the new entries, newest first, in front of the old ones. */
  lemma {:induction false} HistoryGrows(c: Codecs, s: ReceiverState, data: seq<string>, keyValid: bool, decrypt: Value -> DecryptReply, now: int)
    ensures |ProcessAll(c, s, data, keyValid, decrypt, now).messages| == |s.messages| + |data|
    ensures ProcessAll(c, s, data, keyValid, decrypt, now).messages[|data|..] == s.messages
    decreases |data|
  {
    if |data| > 0 {
      var s' := Process(c, s, data[0], keyValid, decrypt, now);
      HistoryGrows(c, s', data[1..], keyValid, decrypt, now);
    }
  }

  /** Processing a batch of inputs one after the other. */
  function ProcessAll(c: Codecs, s: ReceiverState, data: seq<string>, keyValid: bool, decrypt: Value -> DecryptReply, now: int): ReceiverState
    decreases |data|
  {
    if |data| == 0 then s else ProcessAll(c, Process(c, s, data[0], keyValid, decrypt, now), data[1..], keyValid, decrypt, now)
  }
}
