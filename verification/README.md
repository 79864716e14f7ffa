# QuantumWhisper key and message plumbing, in Dafny

QuantumWhisper is a browser application. Two parties agree on a key made of
0/1 bits, nominally produced by a BB84 simulation. They move that key between
them as a base64 `qkey` payload (over an audio modem, or by copy and paste)
or as a plain-JSON `quantum_key` payload. They then exchange messages
encrypted with AES-256-GCM, under a key that PBKDF2-SHA256 derives from the
packed key bits.

This project models the logic around the cryptography:

- key-bit validation and MSB-first bit packing;
- the encrypted-package schema and its two-way parser;
- the control flow of encryption and decryption: what throws, what resolves
  to `{ok: false}`, and what goes into the package;
- the two key-payload codecs and the tone plan of the audio fallback;
- the 44-byte WAV header writer;
- the React state logic of the key context, the message sender, the message
  receiver and the key receiver's paste handler.

Each React component becomes a record of its state plus pure functions from
the state before an event to the state after it settles.

## Modules

- `JsValue`: JavaScript values (`null`, booleans, integer numbers, strings,
  arrays, objects) and the conversions the code relies on: truthiness,
  property reads, `Array.prototype.join` and `String.prototype.trim`.
- `KeyBits`: 0/1 key arrays and the 16-bit and 8-bit thresholds.
- `Base64Text`: the base64 alphabet of section 4 of RFC 4648 and the
  sanitiser.
- `Codec`: the platform codecs, as parameters with round-trip laws.
  - `JSON.stringify` and `JSON.parse` (RFC 8259).
  - `btoa` and `atob`.
  - `TextEncoder` and `TextDecoder`, and the strict UTF-8 decoder.
- `BitPacking`: `bitsToBytes`, with its inverse as the reference.
- `Encryption`: `assertKeyBits`, key derivation, `encryptTextWithQuantumKey`,
  `validateEncryptedPackage`, `parseEncryptedPackage` and
  `decryptTextWithQuantumKey`. PBKDF2 and AES-GCM are a `Crypto` parameter.
  Its `Sound` law says that opening what was sealed, under the same key, IV
  and associated data, gives the plaintext back.
- `KeyPayload`: `packQuantumKeyPayload` and `unpackQuantumKeyPayload`, their
  aliases, and the acceptance test of the audio receive loop.
- `AudioFallback`: `generateAudioPayload`, `parseAudioPayload` and the tone
  plan of `playQuantumKeyAudio`.
- `Wav`: the header and sample layout of `samplesToWavBlob`, with a reader
  for the same layout as the partner.
- `KeyContext`: the `QuantumContext` state machine.
- `MessageSender`, `MessageReceiver` and `KeyReceiver`: the three components'
  handlers.
- `EndToEnd`: the components wired to the real encryption and payload
  functions. It states the two flows of the application:
  - a message is encrypted, copied, pasted and decrypted;
  - a key is generated, packed, pasted back and matched.

The hooks `useEncryption` and `useAudioProcessor` in the repository are
placeholders. They do not return what the components destructure from them.
So the components take the hook's results as parameters: `keyValid`,
`encrypting`, `encrypt`, `decrypt` and `parseTransmitted`. `EndToEnd`
instantiates these with the modelled utilities.

Where the code and its comments disagree, the model follows the code:

- `handlePasteFromInput` has a `[Input processing failed]` branch. It is
  unreachable while `decrypt` rejects only with `Error` objects, because
  `processReceivedData` catches every such error itself. The model has no
  such branch: its `decrypt` reply always carries a message (see
  `MessageReceiver.PasteFromInput` under "## Left out").
- Decryption turns only AES-GCM failures and an empty plaintext into
  `{ok: false}`. An undecodable base64 field or bad key bits make it throw,
  because those steps sit outside its `try`.

## Model

| member | source | states |
|---|---|---|
| Base64Text.Sanitize | quantumwhisper/src/utils/encryption.js:37-39 | the result is entirely in the base64 alphabet and no longer than the input |
| Base64Text.SanitizeNullable | quantumwhisper/src/utils/ggwaveWrapper.js:98-100 | `null`/`undefined` sanitise to the empty string; any string sanitises as the filter does |
| Base64Text.SanitizeAppend | quantumwhisper/src/utils/encryption.js:38 | the sanitiser works character by character: sanitising a concatenation concatenates the sanitised parts |
| Base64Text.SanitizeCounts | quantumwhisper/src/utils/encryption.js:38 | every alphabet character survives as often as it occurs and every other character disappears, so the output is the in-order subsequence of alphabet characters |
| Base64Text.SanitizeKeepsClean | quantumwhisper/src/utils/encryption.js:38 | text already in the alphabet is returned unchanged |
| Base64Text.SanitizeIdempotent | quantumwhisper/src/utils/ggwaveWrapper.js:98-100 | sanitising twice equals sanitising once |
| Base64Text.Base64TextIsTrimmed | quantumwhisper/src/components/QuantumKeyExchange/KeyReceiver.jsx:69 | base64 text has no white space at either end, so the paste handler's `trim` leaves a packed key intact |
| JsValue.TrimEmptyIffBlank | quantumwhisper/src/components/MessageTransmission/MessageReceiver.jsx:43 | `s.trim()` is empty exactly when every character of `s` is white space |
| JsValue.TrimIdempotent | quantumwhisper/src/components/MessageTransmission/MessageReceiver.jsx:47 | trimming an already trimmed string changes nothing |
| Codec.ObjectJsonIsTrimmed | quantumwhisper/src/components/MessageTransmission/MessageReceiver.jsx:47 | the JSON of an object survives the receiver's `trim` |
| Codec.TextBase64RoundTrip | quantumwhisper/src/utils/ggwaveWrapper.js:78-95 | text sent through UTF-8 and base64 is clean base64, non-empty for non-empty text, and decodes back to the same text |
| Codec.TokenShape | quantumwhisper/src/utils/encryption.js:103 | the `b64` token of a value is non-empty clean base64 whose decoded JSON parses back to the value |
| BitPacking.BitAt | quantumwhisper/src/utils/encryption.js:54 | `padded[k] & 1` is 0 or 1, and 0 in the zero padding |
| BitPacking.PackBits | quantumwhisper/src/utils/encryption.js:49-50 | the output has ceil(n/8) bytes |
| BitPacking.BitsToBytes | quantumwhisper/src/utils/encryption.js:47-59 | the padding and folding loops compute exactly the packed bytes: byte i folds bits 8i..8i+7 |
| BitPacking.PackedBit | quantumwhisper/src/utils/encryption.js:53-56 | bit j of output byte i (weight 2^(7-j)) is input bit 8i+j, and 0 past the end |
| BitPacking.UnpackPackBits | quantumwhisper/src/utils/encryption.js:47-59 | reading the packed bytes back MSB-first gives every input bit, then zeros up to the next multiple of 8 |
| BitPacking.PackZeroPadding | quantumwhisper/src/utils/encryption.js:48-49 | appending zeros that do not change the byte count leaves the packed bytes unchanged |
| BitPacking.PackAlternating | quantumwhisper/src/utils/encryption.test.js:17-22 | `[1,0,1,0,1,0,1,0]` packs to the single byte 170 |
| Encryption.AssertKeyBits | quantumwhisper/src/utils/encryption.js:41-45 | passes exactly for arrays of at least 16 elements, each the number 0 or 1; otherwise it throws the invalid-key-bits error |
| Encryption.AssertKeyBitsCases | quantumwhisper/src/utils/encryption.test.js:24-28 | sixteen alternating bits pass; `[]` and `[2]` throw |
| Encryption.DeriveKey | quantumwhisper/src/utils/encryption.js:68-80 | bad bits throw before any cryptography; a rejected derivation throws; otherwise the key is PBKDF2 of the packed bits under the given salt (or the fresh one) and iteration count |
| Encryption.DeriveKeyIgnoresZeroPadding | quantumwhisper/src/utils/encryption.js:48-49 | key arrays that differ only by zero padding within the last byte derive the same key |
| Encryption.PackageValidates | quantumwhisper/src/utils/encryption.js:93-121 | every package the encrypter builds passes the schema check, which reads back the fields put in |
| Encryption.ValidateCharacterised | quantumwhisper/src/utils/encryption.js:106-121 | the schema check holds exactly for values carrying `v` 1, the two algorithm names, a numeric `iter` and string `iv`, `salt` and `ct` |
| Encryption.Validated | quantumwhisper/src/utils/encryption.js:131 | a parsed object is kept only when it validates |
| Encryption.ParsePackage | quantumwhisper/src/utils/encryption.js:123-135 | whatever the parser returns passes the schema check; a non-empty base64-alphabet string that does not decode gives `null`, and one that does is the validated JSON of its UTF-8 text |
| Encryption.ParseRawText | quantumwhisper/src/utils/encryption.js:127-128 | a string outside the base64 alphabet, or the empty string, is parsed directly as JSON |
| Encryption.ParseObject | quantumwhisper/src/utils/encryption.js:129-131 | a non-string is re-serialised and comes back as itself exactly when it validates |
| Encryption.ParseToken | quantumwhisper/src/utils/encryption.js:125-126 | a base64 token is decoded then parsed, giving the value back when it validates and `null` otherwise |
| Encryption.ParseEmpty | quantumwhisper/src/utils/encryption.js:130-133 | the empty string is not a package |
| Encryption.DecryptUndecodable | quantumwhisper/src/utils/encryption.js:125-140 | a base64-alphabet string that does not decode is not a package, so decryption throws 'Invalid encrypted package' |
| Encryption.Encrypt | quantumwhisper/src/utils/encryption.js:83-104 | it throws the empty-plaintext error exactly for a non-string or empty plaintext; bad bits throw next, then a rejected key derivation, then a rejected `subtle.encrypt`; when derivation and sealing succeed it returns, with `iv`, `salt` and `ct` the base64 of the given or fresh IV, the used salt and the sealed bytes, `iter` the requested count and `b64` the token of the package |
| Encryption.Decrypt | quantumwhisper/src/utils/encryption.js:137-158 | it throws the invalid-package error exactly when the parser gives `null`, and the malformed-base64 error when a field does not decode; with the fields decoded, bad key bits throw the invalid-key-bits error and a rejected derivation the key-derivation error; it resolves exactly when `subtle.decrypt` is reached (package parsed, fields decoded, key derived); it resolves to `{ok:false}` exactly when AES-GCM rejects or the decoded text is empty, and otherwise to the UTF-8 decoding of the opened bytes |
| Encryption.EncryptDecryptRoundTrip | quantumwhisper/src/utils/encryption.js:83-158 | decrypting what encryption produced, with the same bits and associated data, gives the plaintext back, from the token or from the package object |
| Encryption.EncryptedPackageValidates | quantumwhisper/src/utils/encryption.test.js:41-43 | the package of a successful encryption validates, and its token parses back to it |
| KeyPayload.Truncate | quantumwhisper/src/utils/ggwaveWrapper.js:108-109 | the result is the first min(len, 800) characters of the bit string |
| KeyPayload.CharsToBits | quantumwhisper/src/utils/ggwaveWrapper.js:132 | one bit per character: 1 exactly for `'1'`, else 0, so always a 0/1 array |
| KeyPayload.Unpack | quantumwhisper/src/utils/ggwaveWrapper.js:126-140 | gives an object exactly when the decoded JSON has `t` equal to `'qkey'` and a string `bits`; that object keeps every other field and replaces `bits` by its bit array |
| KeyPayload.UnpackIgnoresNoise | quantumwhisper/src/utils/ggwaveWrapper.js:126-128 | unpacking a string equals unpacking its sanitised form |
| KeyPayload.JoinBits | quantumwhisper/src/utils/ggwaveWrapper.js:105 | `join('')` of a 0/1 array is the string of its digits |
| KeyPayload.BitStringOfBits | quantumwhisper/src/utils/ggwaveWrapper.js:105 | the bit string of a 0/1 array has one character per bit and maps back to the array |
| KeyPayload.PackContents | quantumwhisper/src/utils/ggwaveWrapper.js:103-124 | the packed text is clean base64 whose JSON holds `v` 1, `t` `'qkey'`, the timestamp, the truncated bit string and `orig` equal to the untruncated length; a non-array gives the empty bit string |
| KeyPayload.PackUnpackRoundTrip | quantumwhisper/src/utils/ggwaveWrapper.js:103-140 | unpacking a packed 0/1 array gives its first min(n, 800) bits, `orig` n, and the `t`, `v` and `ts` fields |
| KeyPayload.TransmittableRoundTrip | quantumwhisper/src/utils/ggwaveWrapper.js:564-570 | what `convertQuantumKeyToTransmittable` sends, `parseTransmittedQuantumKey` reads back as the truncated bits with the original length |
| KeyPayload.AcceptDecoded | quantumwhisper/src/utils/ggwaveWrapper.js:703-710 | the receive loop accepts a decoded string exactly when it is non-empty and unpacks to an array of at least 8 bits, and then keeps the unpacked payload, whose bits are all 0 or 1 |
| KeyPayload.AcceptPackedKey | quantumwhisper/src/utils/ggwaveWrapper.js:707-710 | a packed 0/1 key is accepted by the receive loop exactly when it has at least 8 bits |
| AudioFallback.ParsePayload | quantumwhisper/src/utils/audioFallback.js:72-82 | returns the `bits` array exactly when the text is JSON with `type` equal to `'quantum_key'` and an array `bits`, and `null` otherwise |
| AudioFallback.GenerateParseRoundTrip | quantumwhisper/src/utils/audioFallback.js:59-82 | parsing a generated payload gives back the same array |
| AudioFallback.ParseIgnoresLengthAndValues | quantumwhisper/src/utils/audioFallback.js:75-76 | any object with the right `type` and an array `bits` yields that array unchanged, whatever its `length` and element values |
| AudioFallback.TonePlan | quantumwhisper/src/utils/audioFallback.js:46-57 | one tone for each of the first min(n, 8) bits: 880 Hz exactly for a truthy bit, 440 Hz exactly for a falsy one |
| AudioFallback.Tones | quantumwhisper/src/utils/audioFallback.js:52-53 | the same plan for at most `budget` leading bits |
| Wav.AsciiRoundTrip | quantumwhisper/src/utils/audioFileUtils.js:70-74 | text whose code units are below 256 is written one byte per character and reads back as itself |
| Wav.ChunkTags | quantumwhisper/src/utils/audioFileUtils.js:41-52 | the tags `RIFF`, `WAVE`, `fmt ` and `data` are written as the bytes 52 49 46 46, 57 41 56 45, 66 6d 74 20 and 64 61 74 61 |
| Wav.U16RoundTrip | quantumwhisper/src/utils/audioFileUtils.js:46-47 | a little-endian u16 write reads back as the value mod 2^16 |
| Wav.U32RoundTrip | quantumwhisper/src/utils/audioFileUtils.js:42 | a little-endian u32 write reads back as the value mod 2^32 |
| Wav.I16RoundTrip | quantumwhisper/src/utils/audioFileUtils.js:59 | a little-endian int16 write reads back as the sample |
| Wav.HeaderRoundTrip | quantumwhisper/src/utils/audioFileUtils.js:41-53 | the header is 44 bytes, with `RIFF`, `WAVE`, `fmt ` and `data` at 0, 8, 12 and 36, and every numeric field at its offset reduced to its width |
| Wav.HeaderTags | quantumwhisper/src/utils/audioFileUtils.js:41-52 | the 44-byte header carries those tag bytes at offsets 0, 8, 12 and 36 |
| Wav.HeaderConsistent | quantumwhisper/src/utils/audioFileUtils.js:42-53 | when the rate fits, byte rate = sample rate × block align, block align = channels × bits / 8, the RIFF size is the file length less 8 and the data size is 2n |
| Wav.DefaultRateHeader | quantumwhisper/src/utils/audioFileUtils.js:10 | with the default rate of 48000 the header announces 48000 samples and 96000 bytes per second |
| Wav.WriteHeader | quantumwhisper/src/utils/audioFileUtils.js:40-53 | the thirteen writes at their offsets lay down exactly the header and leave the bytes after it alone |
| Wav.SamplesToWav | quantumwhisper/src/utils/audioFileUtils.js:36-61 | the buffer is 44 + 2n bytes, starts with the header, and sample i reads back at offset 44 + 2i |
| KeyContext.GeneratedValidIsReceivedValid | quantumwhisper/src/context/QuantumContext.jsx:17-21 | a key valid for generation is valid for reception; an 8-bit key shows the converse fails |
| KeyContext.ValidateAgreesWithEncryption | quantumwhisper/src/context/QuantumContext.jsx:17-21 | the context's 16-bit rule is exactly the rule `assertKeyBits` enforces; both are modelled by the same three tests, so this records a modelling choice rather than proving one |
| KeyContext.Generate | quantumwhisper/src/context/QuantumContext.jsx:27-55 | the loading flag is cleared; a returned session and its bits are always stored; `ok` and status 'generated' hold exactly for a valid session of at least 16 bits; a returned session that is invalid or too short gives the too-short error message; a thrown error gives its message or the default |
| KeyContext.Receive | quantumwhisper/src/context/QuantumContext.jsx:57-79 | invalid bits are rejected with status 'error', keeping the received key; valid bits are stored; status is 'matched' exactly when they equal the generated key, else 'mismatch' |
| KeyContext.Clear | quantumwhisper/src/context/QuantumContext.jsx:81-88 | every field returns to its initial value |
| KeyContext.ClearResets | quantumwhisper/src/context/QuantumContext.jsx:81-102 | clearing is idempotent; afterwards there is no valid key and the two empty keys match |
| KeyContext.GeneratedKeyValid | quantumwhisper/src/context/QuantumContext.jsx:38-44 | after a generation reporting success, `isKeyValid` holds exactly when the bits are all 0 or 1: the status check looks at the length only |
| KeyContext.RejectedReceiveKeepsKeys | quantumwhisper/src/context/QuantumContext.jsx:63-73 | a rejected key leaves both keys and both derived flags as they were |
| KeyContext.AcceptedStatusAgreesWithMatching | quantumwhisper/src/context/QuantumContext.jsx:66-69 | after an accepted key, status 'matched' holds exactly when `areKeysMatching` does |
| KeyContext.GenerateThenReceiveSame | quantumwhisper/src/context/QuantumContext.jsx:27-79 | generating a valid key and then receiving the same bits ends matched, with a valid key |
| MessageSender.MessageValidIff | quantumwhisper/src/components/MessageTransmission/MessageSender.jsx:11-22 | a message is valid exactly when it is not all white space and has at most 2000 characters |
| MessageSender.HandleEncrypt | quantumwhisper/src/components/MessageTransmission/MessageSender.jsx:26-33 | nothing changes unless encryption is possible; the stored package changes only to the package of a successful encryption of the trimmed message |
| MessageSender.HandleCopy | quantumwhisper/src/components/MessageTransmission/MessageSender.jsx:35-56 | text is copied exactly when a package is stored and the clipboard works; `copied` is set exactly then |
| MessageSender.CopiedEnvelope | quantumwhisper/src/components/MessageTransmission/MessageSender.jsx:40-47 | the copied text parses back to `{version 1, type 'encrypted_message', timestamp, data: package}` and survives `trim` |
| MessageSender.Reset | quantumwhisper/src/components/MessageTransmission/MessageSender.jsx:58-62 | the message, package and copied flag are cleared |
| MessageSender.ResetDisables | quantumwhisper/src/components/MessageTransmission/MessageSender.jsx:23-24 | after a reset nothing can be encrypted or copied |
| MessageReceiver.Unwrap | quantumwhisper/src/components/MessageTransmission/MessageReceiver.jsx:67-86 | the result differs from the raw text only when the text parses as JSON whose `type` is 'encrypted_message' or whose `t` is 'msg', and whose truthy `data` is the result; text that is not JSON is passed on raw |
| MessageReceiver.UnwrapForms | quantumwhisper/src/components/MessageTransmission/MessageReceiver.jsx:70-78 | any text that parses to JSON with `type` 'encrypted_message', or with `t` 'msg', and a truthy `data` unwraps to that `data` |
| MessageReceiver.UnwrapOtherJson | quantumwhisper/src/components/MessageTransmission/MessageReceiver.jsx:79-86 | any text that parses to JSON of neither form, or with a missing or falsy `data`, is passed on as the raw text |
| MessageReceiver.Process | quantumwhisper/src/components/MessageTransmission/MessageReceiver.jsx:62-130 | exactly one entry, stamped with the current time, is prepended and `decrypting` is cleared. The entry is decrypted exactly when the key is valid and decryption succeeds, and only then does the current message change. A refusal gives '[Decryption failed]' with the refusal's message or 'Unknown error'; a missing key gives '[Processing failed]' with the no-key message, and a thrown error '[Processing failed]' with its message |
| MessageReceiver.PasteFromInput | quantumwhisper/src/components/MessageTransmission/MessageReceiver.jsx:42-60 | blank input does nothing; otherwise the trimmed input is processed and the input cleared |
| MessageReceiver.PasteFromClipboard | quantumwhisper/src/components/MessageTransmission/MessageReceiver.jsx:23-40 | a failed read only prepends a '[Clipboard paste failed]' entry, leaving the input, current message and decrypting flag as they were; a successful read processes the trimmed text, blank or not, and clears the input |
| MessageReceiver.ClipboardLikeInput | quantumwhisper/src/components/MessageTransmission/MessageReceiver.jsx:23-60 | non-blank clipboard text is handled exactly as the same text pasted into the input; blank text is ignored by the input but still processed from the clipboard |
| MessageReceiver.ClearMessages | quantumwhisper/src/components/MessageTransmission/MessageReceiver.jsx:132-136 | history, current message and input are emptied; `decrypting` is kept |
| MessageReceiver.HistoryGrows | quantumwhisper/src/components/MessageTransmission/MessageReceiver.jsx:103-126 | after any number of processed inputs the old history is intact behind one new entry per input |
| KeyReceiver.PastedBits | quantumwhisper/src/components/QuantumKeyExchange/KeyReceiver.jsx:66-79 | the `qkey` parse is used whenever it yields a truthy `bits`; only otherwise is the `quantum_key` parse tried, giving its array or `null` |
| KeyReceiver.PastePayload | quantumwhisper/src/components/QuantumKeyExchange/KeyReceiver.jsx:60-93 | a failed read, or bits that are missing, not an array or shorter than 16, alert and leave the context alone. Otherwise the context receives the bits and `accepted` is the receive's `ok` |
| KeyReceiver.GatedAcceptance | quantumwhisper/src/components/QuantumKeyExchange/KeyReceiver.jsx:81-86 | past the 16-bit gate the key is accepted exactly when its elements are all 0 or 1 |
| KeyReceiver.PastePackedKey | quantumwhisper/src/components/QuantumKeyExchange/KeyReceiver.jsx:60-93 | a packed key of 16 to 800 bits is accepted and stored, and matches exactly when it equals the generated key |
| KeyReceiver.PasteFallbackKey | quantumwhisper/src/components/QuantumKeyExchange/KeyReceiver.jsx:73-86 | a plain-JSON key the `qkey` parser rejects is handed to the context as it is, and accepted exactly when it is all 0/1 |
| KeyReceiver.PasteGarbage | quantumwhisper/src/components/QuantumKeyExchange/KeyReceiver.jsx:81-83 | text neither parser understands alerts and changes nothing |
| EndToEnd.SenderStoresPackage | quantumwhisper/src/components/MessageTransmission/MessageSender.jsx:26-33 | a valid message whose encryption succeeds stores the package object of the trimmed message |
| EndToEnd.ReceiverOpensPackage | quantumwhisper/src/utils/encryption.js:137-158 | the receiver's `decrypt` opens the sender's package object with the same bits |
| EndToEnd.PasteEnvelope | quantumwhisper/src/components/MessageTransmission/MessageReceiver.jsx:42-105 | a copied envelope pasted into the input is unwrapped and decrypted into a new current message |
| EndToEnd.MessageRoundTrip | quantumwhisper/src/components/MessageTransmission/MessageSender.jsx:26-47 | a message encrypted and copied by the sender, then pasted into the receiver with the same bits, becomes a decrypted entry holding the trimmed message |
| EndToEnd.MessageWithoutKey | quantumwhisper/src/components/MessageTransmission/MessageReceiver.jsx:88-90 | without a valid key a pasted message gives a '[Processing failed]' entry and the current message stays |
| EndToEnd.KeyExchangeRoundTrip | quantumwhisper/src/components/QuantumKeyExchange/KeyReceiver.jsx:60-93 | a valid generated key of 16 to 800 bits, packed and pasted back, is accepted and matched, and both derived flags hold |

## Left out

- PBKDF2-SHA256 and AES-256-GCM are not modelled. They are a `Crypto` parameter with one law: opening inverts sealing.
  - Wrong-key rejection and tamper detection are security properties of AES-GCM, so nothing is claimed about them.
- `randomBytes` is left out. The 16-byte salt and 12-byte IV it would draw are an `Entropy` parameter.
- JSON, base64, UTF-8 and the `unescape(encodeURIComponent())` idiom are not re-implemented. They are a `Codecs` parameter with round-trip laws.
- The Node `Buffer` fallbacks are left out. They are the non-browser branch of the same codecs.
- Numbers are integers. Non-integer numbers, `NaN` and floating-point iteration counts are not modelled.
- String lengths count Unicode scalar values, not UTF-16 code units. `split('')`, `.length` and `charCodeAt` differ from the model for characters outside the Basic Multilingual Plane.
- `Date.now()` is a parameter. `toLocaleTimeString` timestamps on history entries are not modelled, because they depend on the locale and the clock.
- The clipboard is a parameter. The exception messages of the clipboard, `atob` and WebCrypto come from the platform and are modelled as the empty string.
- React rendering and effects are left out:
  - the transient 'generating' and 'receiving' statuses, which are overwritten before an action returns;
  - stale closures over `generatedKeyBits`;
  - the three-second `setTimeout` that clears the copied flag.
- The BB84 simulation is not part of this model. `runBB84WithMinKeyLength` is an oracle that returns a session (its `valid` flag and `aliceKeyBits`) or throws.
- The source of `arraysEqual` is not part of this model either. It is taken as equality of the two arrays.
- `generateQuantumKey(length = 32)` is modelled without its `length` parameter, because the body never reads it.
- The audio transport is left out, because it is I/O, timing and a third-party modem:
  - GGWave initialisation, encoding, decoding and playback;
  - `transmitQuantumKey` retries;
  - the microphone loop and its RMS check, of which only the acceptance test is modelled.
- `playTestTone` and the Web Audio playback in `playQuantumKeyAudio` are left out. Only the sequence of frequencies is modelled.
- Wav.SamplesToWav: takes 16-bit integer samples. The Int8-to-float and float-to-int16 conversions and clamping are floating point, so they are left out, as is the `Blob` wrapper.
- `readAudioFile`, `downloadWavFile` and the file-input helpers are left out, because they are file and DOM I/O.
- `encryptMessage` and `decryptMessage` are left out. They forward to the modelled functions with default options.
- The UI components are left out: `KeyGenerator.jsx`, `AudioVisualizer.jsx`, `StatusIndicator.jsx`, the layout and the pages.
- The hooks `useEncryption`, `useAudioProcessor` and `useQuantumKey` are placeholders. Their results are parameters of the components.
- MessageReceiver.Process: the history entry's `id` is the `Date.now()` parameter, and the `timestamp` string is omitted.
- MessageReceiver.PasteFromInput: a `decrypt` that rejects with a value that is not an `Error` (`null`, `undefined`) makes `e.message` throw inside the catch of `processReceivedData`; that `TypeError` then adds an '[Input processing failed]' entry here, or a '[Clipboard paste failed]' entry on the clipboard path. The modelled `decrypt` reply always carries a message, so this path is not modelled.
- EndToEnd.MessageRoundTrip: assumes no associated data, as the receiver passes none.
