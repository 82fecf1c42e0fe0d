/** The data the shielded TRC20 parameter builder works on: notes, key
    material, the spend and receive intents it registers, the descriptions
    it produces, the parameter bundle, its errors, and the native backend
    it drives, given as a record of functions. */
module ZenTypes {
  import opened Wire

  datatype Option<+T> = None | Some(value: T)

  datatype Result<+T, +E> = Ok(value: T) | Err(error: E)

  /** 1 header byte, 33 sibling hashes of 32 bytes and an 8-byte position. */
  const MERKLE_TREE_PATH_LENGTH: nat := 1065

  /** The `long` handle of a native proving context. */
  type Ctx = int

  /** A shielded note: diversifier, transmission key, value, commitment
      randomness and memo. */
  datatype Note = Note(d: Bytes, pkD: Bytes, value: Int64, rcm: Bytes, memo: Bytes)

  datatype PaymentAddress = PaymentAddress(d: Bytes, pkD: Bytes)

  datatype ExpandedSpendingKey = ExpandedSpendingKey(ask: Bytes, nsk: Bytes, ovk: Bytes)

  datatype FullViewingKey = FullViewingKey(ak: Bytes, nk: Bytes, ovk: Bytes)

  /** A spend carries either an expanded spending key (the first two
      constructors of `SpendDescriptionInfo`, which leave `ak` null) or raw
      authorising-key components (the third, which leaves `expsk` null). */
  datatype KeyMaterial =
    | Full(expsk: ExpandedSpendingKey)
    | Raw(ak: Bytes, nsk: Bytes, ovk: Bytes)

  /** A registered spend intent. */
  datatype SpendDescriptionInfo =
    SpendDescriptionInfo(keys: KeyMaterial, note: Note, alpha: Bytes, anchor: Bytes, path: Bytes)

  /** A registered receive intent. */
  datatype ReceiveDescriptionInfo = ReceiveDescriptionInfo(ovk: Bytes, note: Note)

  /** `ShieldedTRC20ParametersType`: MINT, TRANSTER and BRUN in the source. */
  datatype ParametersType = Mint | Transfer | Burn

  /** A proved spend, as added to the parameter bundle. */
  datatype SpendDescription = SpendDescription(
    valueCommitment: Bytes32,
    anchor: Bytes,
    nullifier: Bytes,
    rk: Bytes32,
    zkproof: Bytes192,
    spendAuthoritySignature: Option<Bytes64>)

  /** A proved receive, as added to the parameter bundle. */
  datatype ReceiveDescription = ReceiveDescription(
    valueCommitment: Bytes32,
    noteCommitment: Bytes,
    epk: Bytes,
    cEnc: Bytes,
    cOut: Bytes,
    zkproof: Bytes192)

  /** The `ShieldedTRC20Parameters` bundle; `None` is a field never set. */
  datatype Parameters = Parameters(
    spendDescriptions: seq<SpendDescription>,
    receiveDescriptions: seq<ReceiveDescription>,
    messageHash: Option<Bytes32>,
    bindingSignature: Option<Bytes64>)

  const EMPTY_PARAMETERS: Parameters := Parameters([], [], None, None)

  /** The exceptions `build` and its helpers can raise. */
  datatype BuildError =
    | MerklePathFormat    // "Merkle tree path format is wrong"
    | SpendInvalid        // "Spend is invalid": empty cm or nullifier
    | SpendProofFailed    // "Spend proof failed"
    | OutputInvalid       // "Output is invalid": empty cm
    | NoteEncryptionFailed  // "Failed to encrypt note"
    | OutputProofFailed   // "Output proof failed"
    | OvkInvalid          // ovk is not exactly 32 bytes
    | HashFailed          // "cal transaction hash failed"
    | SpendSigFailed      // the spend-authorisation signing call threw
    | BindingSigFailed    // the binding-signature call threw
    | MissingSpendingKey  // a null `expsk` is dereferenced
    | IndexOutOfBounds    // a list is indexed past its end
    | RandomnessFailed    // the backend's random scalar generator threw

  datatype SpendProofParams = SpendProofParams(
    ctx: Ctx, ak: Bytes, nsk: Bytes, d: Bytes, rcm: Bytes, alpha: Bytes,
    value: Int64, anchor: Bytes, path: Bytes)

  datatype SpendProof = SpendProof(cv: Bytes32, rk: Bytes32, zkproof: Bytes192)

  datatype OutputProofParams = OutputProofParams(
    ctx: Ctx, esk: Bytes, d: Bytes, pkD: Bytes, rcm: Bytes, value: Int64)

  datatype OutputProof = OutputProof(cv: Bytes32, zkproof: Bytes192)

  /** The outcome of encrypting a note: ephemeral secret and public keys
      and the note ciphertext. */
  datatype NoteEncryption = NoteEncryption(esk: Bytes, epk: Bytes, encCiphertext: Bytes)

  /** Inputs of the outgoing-ciphertext encryption under the ovk. */
  datatype OutgoingParams = OutgoingParams(
    ovk: Bytes, cv: Bytes, cm: Bytes, pkD: Bytes, esk: Bytes, epk: Bytes)

  datatype SpendSigParams = SpendSigParams(ask: Bytes, alpha: Bytes, digest: Bytes32)

  datatype BindingSigParams = BindingSigParams(ctx: Ctx, valueBalance: Int64, digest: Bytes32)

  /** The cryptographic collaborators, as functions of their inputs; `None`
      is a call that reports failure or throws. */
  datatype Backend = Backend(
    initCtx: Ctx,
    noteCm: Note -> Bytes,
    fullViewingKey: ExpandedSpendingKey -> FullViewingKey,
    nskToNk: Bytes -> Bytes,
    nullifierFromKeys: (Note, Bytes, Bytes, Int64) -> Bytes,
    nullifierFromFvk: (Note, FullViewingKey, Int64) -> Bytes,
    spendProof: SpendProofParams -> Option<SpendProof>,
    encryptNote: (Note, Bytes) -> Option<NoteEncryption>,
    outputProof: OutputProofParams -> Option<OutputProof>,
    encryptOutgoing: OutgoingParams -> Bytes,
    spendSig: SpendSigParams -> Option<Bytes64>,
    bindingSig: BindingSigParams -> Option<Bytes64>,
    hash: Bytes -> Option<Bytes32>)
}
