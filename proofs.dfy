/** Proof generation for single intents (`getPositionFromPath`,
    `generateSpendProof`, `generateOutputProof`) and the first-failure
    iteration `build` runs over a list of intents. */
module ZenProofs {
  import opened Wire
  import opened ZenTypes

  /** The leaf position stored in the last 8 bytes of a Merkle path, read
      big-endian into a `long`; any path that is not exactly 1065 bytes is
      rejected. */
  function PositionFromPath(path: Bytes): (r: Result<Int64, BuildError>)
    ensures r.Err? <==> |path| != MERKLE_TREE_PATH_LENGTH
    ensures r.Err? ==> r.error == MerklePathFormat
  {
    if |path| != MERKLE_TREE_PATH_LENGTH then Err(MerklePathFormat)
    else Ok(Wrap64(FromBigEndian(path[|path| - 8..])))
  }

  /** A well-sized path whose last 8 bytes encode `pos` yields `pos`. */
  lemma PositionRoundTrip(prefix: Bytes, pos: Int64)
    requires |prefix| == MERKLE_TREE_PATH_LENGTH - 8
    ensures PositionFromPath(prefix + Be64(pos)) == Ok(pos)
  {
    var path := prefix + Be64(pos);
    assert path[|path| - 8..] == Be64(pos);
    Be64RoundTrip(pos);
  }

  /** The position read from a well-sized path is exactly what its last 8
      bytes encode, so the path is its first 1057 bytes followed by it. */
  lemma PositionDecodes(path: Bytes)
    requires |path| == MERKLE_TREE_PATH_LENGTH
    ensures PositionFromPath(path).Ok?
    ensures path == path[..MERKLE_TREE_PATH_LENGTH - 8] + Be64(PositionFromPath(path).value)
  {
    Be64OfRead(path[MERKLE_TREE_PATH_LENGTH - 8..]);
  }

  /** The authorising key, nullifier and nsk the spend proof is made with. */
  datatype SpendKeys = SpendKeys(ak: Bytes, nf: Bytes, nsk: Bytes)

  /** Lines 82-91: a non-empty raw `ak` selects the raw components and
      derives nk from nsk; otherwise the expanded spending key is used, whose
      absence (a raw-key spend with an empty `ak`) is a null dereference. */
  function ResolveSpendKeys(be: Backend, spend: SpendDescriptionInfo, pos: Int64): (r: Result<SpendKeys, BuildError>)
    ensures r.Err? <==> spend.keys.Raw? && |spend.keys.ak| == 0
    ensures r.Err? ==> r.error == MissingSpendingKey
    ensures r.Ok? && spend.keys.Raw? ==> r.value.ak == spend.keys.ak && r.value.nsk == spend.keys.nsk
    ensures r.Ok? && spend.keys.Raw? ==>
      r.value.nf == be.nullifierFromKeys(spend.note, spend.keys.ak, be.nskToNk(spend.keys.nsk), pos)
    ensures r.Ok? && spend.keys.Full? ==>
      r.value.ak == be.fullViewingKey(spend.keys.expsk).ak && r.value.nsk == spend.keys.expsk.nsk
    ensures r.Ok? && spend.keys.Full? ==>
      r.value.nf == be.nullifierFromFvk(spend.note, be.fullViewingKey(spend.keys.expsk), pos)
  {
    match spend.keys
    case Raw(ak, nsk, _) =>
      if |ak| > 0 then Ok(SpendKeys(ak, be.nullifierFromKeys(spend.note, ak, be.nskToNk(nsk), pos), nsk))
      else Err(MissingSpendingKey)
    case Full(expsk) =>
      var fvk := be.fullViewingKey(expsk);
      Ok(SpendKeys(fvk.ak, be.nullifierFromFvk(spend.note, fvk, pos), expsk.nsk))
  }

  /** `generateSpendProof`: validate the path, resolve keys, check the
      commitment and nullifier, and ask the backend for (cv, rk, proof). */
  function GenerateSpendProof(be: Backend, spend: SpendDescriptionInfo, ctx: Ctx): (r: Result<SpendDescription, BuildError>)
    // a malformed path fails before keys, nullifier or proof are looked at
    ensures |spend.path| != MERKLE_TREE_PATH_LENGTH ==> r == Err(MerklePathFormat)
    ensures |spend.path| == MERKLE_TREE_PATH_LENGTH && spend.keys.Raw? && |spend.keys.ak| == 0 ==>
      r == Err(MissingSpendingKey)
    // an empty commitment or nullifier fails before the proof is asked for
    ensures
      (&& PositionFromPath(spend.path).Ok?
       && ResolveSpendKeys(be, spend, PositionFromPath(spend.path).value).Ok?
       && (|be.noteCm(spend.note)| == 0 ||
           |ResolveSpendKeys(be, spend, PositionFromPath(spend.path).value).value.nf| == 0))
      ==> r == Err(SpendInvalid)
    ensures r.Ok? ==>
      && |spend.path| == MERKLE_TREE_PATH_LENGTH
      && |be.noteCm(spend.note)| > 0
      && r.value.nullifier == ResolveSpendKeys(be, spend, PositionFromPath(spend.path).value).value.nf
      && |r.value.nullifier| > 0
      && r.value.anchor == spend.anchor
      && r.value.spendAuthoritySignature == None
    ensures r.Err? ==> r.error in {MerklePathFormat, MissingSpendingKey, SpendInvalid, SpendProofFailed}
  {
    var cm := be.noteCm(spend.note);
    match PositionFromPath(spend.path)
    case Err(e) => Err(e)
    case Ok(pos) =>
      match ResolveSpendKeys(be, spend, pos)
      case Err(e) => Err(e)
      case Ok(keys) =>
        if |cm| == 0 || |keys.nf| == 0 then Err(SpendInvalid)
        else
          var params := SpendProofParams(ctx, keys.ak, keys.nsk, spend.note.d, spend.note.rcm,
                                         spend.alpha, spend.note.value, spend.anchor, spend.path);
          match be.spendProof(params)
          case None => Err(SpendProofFailed)
          case Some(p) => Ok(SpendDescription(p.cv, spend.anchor, keys.nf, p.rk, p.zkproof, None))
  }

  /** `generateOutputProof`: check the commitment, encrypt the note, ask the
      backend for (cv, proof), only then check the ovk, and encrypt the
      outgoing plaintext under it. */
  function GenerateOutputProof(be: Backend, output: ReceiveDescriptionInfo, ctx: Ctx): (r: Result<ReceiveDescription, BuildError>)
    ensures |be.noteCm(output.note)| == 0 ==> r == Err(OutputInvalid)
    ensures |output.ovk| != 32 ==> r.Err?
    // the ovk is rejected only once encryption and the proof have succeeded
    ensures r == Err(OvkInvalid) <==>
      && |be.noteCm(output.note)| > 0
      && be.encryptNote(output.note, output.note.pkD).Some?
      && be.outputProof(OutputProofParams(ctx, be.encryptNote(output.note, output.note.pkD).value.esk,
                                          output.note.d, output.note.pkD, output.note.rcm, output.note.value)).Some?
      && |output.ovk| != 32
    ensures r.Ok? ==>
      && r.value.noteCommitment == be.noteCm(output.note)
      && |r.value.noteCommitment| > 0
      && be.encryptNote(output.note, output.note.pkD).Some?
      && r.value.epk == be.encryptNote(output.note, output.note.pkD).value.epk
      && r.value.cEnc == be.encryptNote(output.note, output.note.pkD).value.encCiphertext
    ensures r.Err? ==> r.error in {OutputInvalid, NoteEncryptionFailed, OutputProofFailed, OvkInvalid}
  {
    var note := output.note;
    var cm := be.noteCm(note);
    if |cm| == 0 then Err(OutputInvalid)
    else
      match be.encryptNote(note, note.pkD)
      case None => Err(NoteEncryptionFailed)
      case Some(enc) =>
        match be.outputProof(OutputProofParams(ctx, enc.esk, note.d, note.pkD, note.rcm, note.value))
        case None => Err(OutputProofFailed)
        case Some(p) =>
          if |output.ovk| != 32 then Err(OvkInvalid)
          else
            var cOut := be.encryptOutgoing(OutgoingParams(output.ovk, p.cv, cm, note.pkD, enc.esk, enc.epk));
            Ok(ReceiveDescription(p.cv, cm, enc.epk, enc.encCiphertext, cOut, p.zkproof))
  }

  /** Once the path, keys, commitment and nullifier checks have passed,
      `generateSpendProof` returns exactly what the backend's spend proof
      gives for the resolved ak and nsk and the note's d, rcm and value,
      with the intent's alpha, anchor and path: its failure is "Spend proof
      failed", and its cv, rk and proof fill the description. */
  lemma SpendProofOutcome(be: Backend, spend: SpendDescriptionInfo, ctx: Ctx)
    requires PositionFromPath(spend.path).Ok?
    requires ResolveSpendKeys(be, spend, PositionFromPath(spend.path).value).Ok?
    requires |be.noteCm(spend.note)| > 0
    requires |ResolveSpendKeys(be, spend, PositionFromPath(spend.path).value).value.nf| > 0
    ensures var k := ResolveSpendKeys(be, spend, PositionFromPath(spend.path).value).value;
      var proof := be.spendProof(SpendProofParams(ctx, k.ak, k.nsk, spend.note.d, spend.note.rcm,
                                                  spend.alpha, spend.note.value, spend.anchor, spend.path));
      var r := GenerateSpendProof(be, spend, ctx);
      && (proof.None? <==> r == Err(SpendProofFailed))
      && (proof.Some? ==>
            r == Ok(SpendDescription(proof.value.cv, spend.anchor, k.nf, proof.value.rk, proof.value.zkproof, None)))
  {
  }

  /** `generateOutputProof` fails at the first of its four checks that
      fails, and succeeds exactly when all pass; the description then carries
      the proof's cv and zkproof, the encryption's epk and ciphertext, and
      the outgoing ciphertext made under the ovk over that cv and cm. */
  lemma OutputProofOutcome(be: Backend, output: ReceiveDescriptionInfo, ctx: Ctx)
    ensures var r := GenerateOutputProof(be, output, ctx);
      var cm := be.noteCm(output.note);
      var enc := be.encryptNote(output.note, output.note.pkD);
      && (|cm| > 0 && enc.None? ==> r == Err(NoteEncryptionFailed))
      && (|cm| > 0 && enc.Some? ==>
            var proof := be.outputProof(OutputProofParams(ctx, enc.value.esk, output.note.d, output.note.pkD,
                                                          output.note.rcm, output.note.value));
            && (proof.None? ==> r == Err(OutputProofFailed))
            && (r.Ok? <==> proof.Some? && |output.ovk| == 32)
            && (r.Ok? ==>
                  r.value == ReceiveDescription(proof.value.cv, cm, enc.value.epk, enc.value.encCiphertext,
                                                be.encryptOutgoing(OutgoingParams(output.ovk, proof.value.cv, cm,
                                                                                  output.note.pkD, enc.value.esk,
                                                                                  enc.value.epk)),
                                                proof.value.zkproof)))
      && (r.Ok? ==> |cm| > 0 && enc.Some?)
  {
  }

  function SpendProver(be: Backend, ctx: Ctx): (prove: SpendDescriptionInfo -> Result<SpendDescription, BuildError>)
  {
    s => GenerateSpendProof(be, s, ctx)
  }

  function OutputProver(be: Backend, ctx: Ctx): (prove: ReceiveDescriptionInfo -> Result<ReceiveDescription, BuildError>)
  {
    o => GenerateOutputProof(be, o, ctx)
  }

  /** What a loop over intents has produced: the descriptions made so far,
      and the error it stopped at, if any. */
  datatype Proved<T> = Proved(done: seq<T>, failure: Option<BuildError>)

  /** The loops of lines 228-239 from index `i` on, with `done` made so far:
      prove each item in turn and stop at the first exception. */
  function ProveFrom<I, D>(gen: I -> Result<D, BuildError>, items: seq<I>, i: nat, done: seq<D>): (p: Proved<D>)
    requires i <= |items|
    decreases |items| - i
  {
    if i == |items| then Proved(done, None)
    else match gen(items[i])
      case Err(e) => Proved(done, Some(e))
      case Ok(d) => ProveFrom(gen, items, i + 1, done + [d])
  }

  lemma {:induction false} ProveFromSpec<I, D>(gen: I -> Result<D, BuildError>, items: seq<I>, i: nat, done: seq<D>)
    requires i <= |items|
    ensures var p := ProveFrom(gen, items, i, done);
      && |done| <= |p.done|
      && p.done[..|done|] == done
      && i + |p.done| - |done| <= |items|
      && (forall k :: i <= k < i + |p.done| - |done| ==> gen(items[k]) == Ok(p.done[|done| - i + k]))
      && (p.failure.None? ==> i + |p.done| - |done| == |items|)
      && (p.failure.Some? ==>
            && i + |p.done| - |done| < |items|
            && gen(items[i + |p.done| - |done|]) == Err(p.failure.value))
    decreases |items| - i
  {
    if i < |items| {
      match gen(items[i])
      case Err(e) =>
      case Ok(d) =>
        ProveFromSpec(gen, items, i + 1, done + [d]);
        var p := ProveFrom(gen, items, i + 1, done + [d]);
        assert p.done[..|done|] == (p.done[..|done| + 1])[..|done|];
        assert p.done[|done|] == (p.done[..|done| + 1])[|done|];
    }
  }

  /** Proving a whole list from the start: it succeeds exactly when every
      item proves, and then yields each item's description in list order;
      otherwise it stops at the first item that fails, with that item's
      error, having proved exactly the items before it. */
  lemma ProveAll<I, D>(gen: I -> Result<D, BuildError>, items: seq<I>)
    ensures ProveFrom(gen, items, 0, []).failure.None? <==> forall j :: 0 <= j < |items| ==> gen(items[j]).Ok?
    ensures var p := ProveFrom(gen, items, 0, []);
      p.failure.None? ==>
        && |p.done| == |items|
        && forall j :: 0 <= j < |items| ==> gen(items[j]) == Ok(p.done[j])
    ensures var p := ProveFrom(gen, items, 0, []);
      p.failure.Some? ==>
        && |p.done| < |items|
        && gen(items[|p.done|]) == Err(p.failure.value)
        && forall j :: 0 <= j < |p.done| ==> gen(items[j]) == Ok(p.done[j])
  {
    var p := ProveFrom(gen, items, 0, []);
    ProvedPrefix(gen, items, p);
  }

  lemma ProvedPrefix<I, D>(gen: I -> Result<D, BuildError>, items: seq<I>, p: Proved<D>)
    requires p == ProveFrom(gen, items, 0, [])
    ensures |p.done| <= |items|
    ensures forall k :: 0 <= k < |p.done| ==> gen(items[k]) == Ok(p.done[k])
    ensures p.failure.None? ==> |p.done| == |items|
    ensures p.failure.Some? ==> |p.done| < |items| && gen(items[|p.done|]) == Err(p.failure.value)
  {
    ProveFromSpec(gen, items, 0, []);
  }
}
