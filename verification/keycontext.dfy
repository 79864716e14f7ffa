/** QuantumContext.jsx: the shared key state. React's `useState` setters
    become a `State` record and each action a function from the state before
    the call to the state after it settles (the transient 'generating' and
    'receiving' statuses are overwritten before the call returns). The BB84
    session is an oracle result handed in as a parameter, and `arraysEqual`
    is equality of arrays. */
module KeyContext {
  import opened JsValue
  import opened KeyBits
  import Encryption

  datatype Status = Idle | Generating | Generated | Receiving | Received | Matched | Mismatch | Error

  datatype Loading = Loading(generating: bool, receiving: bool)

  /** The fields of a BB84 session this code reads. */
  datatype Session = Session(valid: bool, aliceKeyBits: seq<Value>)

  /** What `runBB84WithMinKeyLength(16)` did: returned a session, or threw
      an error with the given message (possibly empty). */
  datatype SessionRun = Produced(session: Session) | Failed(message: string)

  /** `generatedKeyBits` and `receivedKeyBits` start as `null`. */
  datatype State = State(
    generated: Value, received: Value, session: Option<Session>,
    status: Status, loading: Loading, error: Option<string>)

  const Initial: State := State(Null, Null, None, Idle, Loading(false, false), None)

  const TooShortMessage: string := "Generated key too short (< 16 bits). Try again."
  const GenerateFailedMessage: string := "Failed to generate key"
  const InvalidBitsMessage: string := "Invalid key bits (only 0/1, min length 8 for received keys)."

  /** `validateKeyBits(bits, isReceived)`: 0/1 arrays of at least 8 bits for
      received keys and at least 16 otherwise. */
  function ValidateKeyBits(bits: Value, isReceived: bool): bool {
    ValidBits(bits, if isReceived then MinReceivedKeyBits else MinKeyBits)
  }

  /** `v ?? []` */
  function OrEmptyIfNull(v: Value): Value {
    if v.Null? then Arr([]) else v
  }

  /** `v || []` */
  function OrEmptyIfFalsy(v: Value): Value {
    if Truthy(v) then v else Arr([])
  }

  /** `arraysEqual`, whose source is not part of this model: two arrays of
      equal length and equal elements. */
  predicate ArraysEqual(a: Value, b: Value) {
    a.Arr? && b.Arr? && a.items == b.items
  }

  /** `compareKeys(a, b)` */
  predicate CompareKeys(a: Value, b: Value) {
    ArraysEqual(OrEmptyIfNull(a), OrEmptyIfNull(b))
  }

  /** A key good enough to generate is good enough to receive; the converse
      fails for keys of 8 to 15 bits. */
  lemma GeneratedValidIsReceivedValid(bits: Value)
    ensures ValidateKeyBits(bits, false) ==> ValidateKeyBits(bits, true)
    ensures ValidateKeyBits(Arr(BitValues([0, 1, 0, 1, 0, 1, 0, 1])), true)
    ensures !ValidateKeyBits(Arr(BitValues([0, 1, 0, 1, 0, 1, 0, 1])), false)
  {
    assert AllBits(BitValues([0, 1, 0, 1, 0, 1, 0, 1]));
  }

  /** The context's 16-bit rule is the rule the encrypter enforces. Both
      sides are defined through `ValidBits` at 16 bits, so this holds by
      construction: the agreement is the modelling observation that
      QuantumContext.jsx and encryption.js make the same three tests, and
      the lemma records it where the two modules meet. */
  lemma ValidateAgreesWithEncryption(bits: Value)
    ensures ValidateKeyBits(bits, false) <==> Encryption.AssertKeyBits(bits).Returned?
  {
  }

  /** `generateQuantumKey`: stores the session and its bits whenever the
      oracle returns one; the status is 'generated' only for a valid session
      of at least 16 bits. Returns the `ok` of its result object. */
  function Generate(s: State, run: SessionRun): (r: (State, bool))
    ensures r.0.loading == Loading(false, s.loading.receiving)
    ensures r.0.received == s.received
    ensures r.1 <==> r.0.status == Generated
    ensures r.1 <==> (run.Produced? && run.session.valid && |run.session.aliceKeyBits| >= MinKeyBits)
    ensures !r.1 <==> r.0.status == Error
    ensures r.1 <==> r.0.error.None?
    ensures run.Produced? ==> r.0.session == Some(run.session) && r.0.generated == Arr(run.session.aliceKeyBits)
    ensures run.Failed? ==> r.0.session == s.session && r.0.generated == s.generated
    ensures run.Failed? ==> r.0.error == Some(if |run.message| > 0 then run.message else GenerateFailedMessage)
    ensures run.Produced? && !r.1 ==> r.0.error == Some(TooShortMessage)
  {
    var loading := Loading(false, s.loading.receiving);
    match run
    case Failed(message) =>
      (s.(status := Error, error := Some(if |message| > 0 then message else GenerateFailedMessage), loading := loading), false)
    case Produced(session) =>
      var s' := s.(session := Some(session), generated := Arr(session.aliceKeyBits), loading := loading);
      if !session.valid || |session.aliceKeyBits| < MinKeyBits then
        (s'.(status := Error, error := Some(TooShortMessage)), false)
      else
        (s'.(status := Generated, error := None), true)
  }

  /** The result of `receiveQuantumKey`: `{ok: true, match}` or `{ok: false, error}`. */
  datatype ReceiveResult = Accepted(matched: bool) | Rejected(message: string)

  /** `receiveQuantumKey(bits)`: invalid bits change nothing but the status
      and error; valid bits are stored and compared with the generated key. */
  function Receive(s: State, bits: Value): (r: (State, ReceiveResult))
    ensures r.0.loading == Loading(s.loading.generating, false)
    ensures r.0.generated == s.generated && r.0.session == s.session
    ensures r.1.Rejected? <==> !ValidBits(bits, MinReceivedKeyBits)
    ensures r.1.Rejected? ==>
      (r.0.status == Error && r.0.received == s.received && r.0.error == Some(InvalidBitsMessage))
    ensures r.1.Accepted? ==> r.0.received == bits && r.0.error.None?
    ensures r.1.Accepted? ==> (r.1.matched <==> s.generated == bits)
    ensures r.0.status == Matched <==> (r.1.Accepted? && r.1.matched)
    ensures r.0.status == Mismatch <==> (r.1.Accepted? && !r.1.matched)
  {
    var loading := Loading(s.loading.generating, false);
    if !ValidateKeyBits(bits, true) then
      (s.(status := Error, error := Some(InvalidBitsMessage), loading := loading), Rejected(InvalidBitsMessage))
    else
      var matched := CompareKeys(OrEmptyIfNull(s.generated), bits);
      (s.(received := bits, status := if matched then Matched else Mismatch, error := None, loading := loading),
       Accepted(matched))
  }

  /** `clearKeys` */
  function Clear(s: State): (r: State)
    ensures r.generated.Null? && r.received.Null? && r.session.None?
    ensures r.status == Idle && r.error.None? && r.loading == Loading(false, false)
  {
    Initial
  }

  /** The derived `isKeyValid`: the 16-bit rule on the generated bits. */
  predicate IsKeyValid(s: State) {
    ValidateKeyBits(OrEmptyIfFalsy(s.generated), false)
  }

  /** The derived `areKeysMatching`. */
  predicate AreKeysMatching(s: State) {
    CompareKeys(OrEmptyIfFalsy(s.generated), OrEmptyIfFalsy(s.received))
  }

  /** Clearing is idempotent and forgets everything: no valid key, and the
      two (empty) keys count as matching. */
  lemma ClearResets(s: State)
    ensures Clear(Clear(s)) == Clear(s) == Initial
    ensures !IsKeyValid(Clear(s))
    ensures AreKeysMatching(Clear(s))
  {
  }

  /** After a generation that reports success, the key is valid exactly when
      the oracle's bits are all 0 or 1: the status check looks at the length
      only. */
  lemma GeneratedKeyValid(s: State, run: SessionRun)
    requires Generate(s, run).1
    ensures IsKeyValid(Generate(s, run).0) <==> AllBits(run.session.aliceKeyBits)
  {
  }

  /** A rejected key leaves both keys and the derived flags as they were. */
  lemma RejectedReceiveKeepsKeys(s: State, bits: Value)
    requires !ValidBits(bits, MinReceivedKeyBits)
    ensures Receive(s, bits).0.generated == s.generated && Receive(s, bits).0.received == s.received
    ensures IsKeyValid(Receive(s, bits).0) == IsKeyValid(s)
    ensures AreKeysMatching(Receive(s, bits).0) == AreKeysMatching(s)
  {
  }

  /** After an accepted key, the status and the derived `areKeysMatching`
      agree: 'matched' exactly when the keys match. */
  lemma AcceptedStatusAgreesWithMatching(s: State, bits: Value)
    requires ValidBits(bits, MinReceivedKeyBits)
    ensures Receive(s, bits).0.status == Matched <==> AreKeysMatching(Receive(s, bits).0)
  {
  }

  /** Two equal keys of at least 16 bits, all 0 or 1, make both derived
      flags hold. */
  lemma EqualValidKeys(s: State)
    requires s.generated == s.received && ValidBits(s.generated, MinKeyBits)
    ensures IsKeyValid(s) && AreKeysMatching(s)
  {
  }

  /** Generating a valid key and then receiving the same bits ends matched,
      with a valid key on both sides. */
  lemma GenerateThenReceiveSame(s: State, session: Session)
    requires session.valid && |session.aliceKeyBits| >= MinKeyBits && AllBits(session.aliceKeyBits)
    ensures var g := Generate(s, Produced(session)).0;
      var r := Receive(g, Arr(session.aliceKeyBits));
      && r.1 == Accepted(true)
      && r.0.status == Matched
      && IsKeyValid(r.0)
      && AreKeysMatching(r.0)
  {
  }
}
