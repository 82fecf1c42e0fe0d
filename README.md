# Shielded TRC20 parameter builder

This project is a Dafny model of `ShieldedTRC20ParametersBuilder` from
java-tron, together with proofs about the model. That class assembles the
parameters of a shielded TRC20 operation:

- MINT deposits a transparent amount into the shielded pool as one new note.
- TRANSTER (the source's spelling) moves shielded notes to new notes.
- BRUN (the source's spelling) spends one note and withdraws a transparent
  amount to an address.

The caller registers spend intents (`addSpend`) and receive intents
(`addOutput`), and each registration adjusts a running `valueBalance`. `build`
then does the following:

1. It opens a native proving context.
2. It proves the intents the operation type calls for, and appends the
   resulting spend and receive descriptions to the output bundle.
3. It adjusts the balance by the transparent amount.
4. It concatenates the canonical message bytes and hashes them.
5. If asked, it signs every spend over the hash (`createSpendAuth`).
6. It records the hash, computes the binding signature, and frees the
   context in a `finally`.

The model has six layers, one module each:

- `Wire` (wire.dfy): octets and fixed-width byte strings. It models Java
  `long` arithmetic with exact two's-complement wrap-around (`Wrap64`), and
  the big-endian coding of `ByteArray.fromLong` (`Be64`).
- `ZenTypes` (zen_types.dfy): the data.
  - Notes, keys, intents, descriptions, the parameter bundle and the errors.
  - The native backend, given as a record of functions (`Backend`). A `None`
    result is a call that throws.
  - The key material of a spend is a tagged union. `Full` holds an expanded
    spending key; `Raw` holds ak, nsk and ovk. That matches the two kinds of
    `SpendDescriptionInfo` constructor.
- `ZenProofs` (proofs.dfy): the functions for `getPositionFromPath`,
  `generateSpendProof` and `generateOutputProof`, with their checks in source
  order. It also has the first-failure loop over a list of intents
  (`ProveFrom`).
- `ZenEncoding` (encoding.dfy): `encodeSpendDescription`,
  `encodeReceiveDescription` and the three message layouts.
- `ZenBuild` (build_spec.dfy): `BuildSpec`, which gives what one `build`
  call does as a function of the state before it, and the properties of
  `BuildSpec`.
- `ParametersBuilder` (parameters_builder.dfy): the class itself.
  - Its fields are the lists, the bundle, the balance and the configuration.
  - It has two ghost counters, for proving contexts created and freed.
  - Its methods append in place and loop as the source does.
  - `Build` is proved to leave exactly the state, and return exactly the
    result, that `BuildSpec` gives.
  - The registration methods keep the invariant `BalanceConsistent`: the
    balance is the wrapped total of spend values minus receive values.

Two consequences of the code are worth spelling out:

- A MINT that registers a receive of 100 and deposits 100 attests a balance
  of 0: `addOutput` subtracts 100 (line 317) and `build` adds 100 (line 221)
  (`MintScenario`).
- The proving context is freed only once `build` reaches the binding
  signature. Every earlier exception leaves it allocated: proof failures, a
  null hash, spend-authorisation failures. This is stated by
  `BuildReleasesContext` and by the ghost counters of `Build`.

## Model

| member | source | states |
|---|---|---|
| Wire.Wrap64 | framework/src/main/java/org/tron/core/zen/ShieldedTRC20ParametersBuilder.java:51 | a Java `long` result is the unique signed 64-bit value congruent to the exact result, and is that result when it fits |
| Wire.Be64 | framework/src/main/java/org/tron/core/zen/ShieldedTRC20ParametersBuilder.java:222 | `ByteArray.fromLong`: the 8-byte big-endian two's-complement encoding; its properties are `Be64RoundTrip`, `Be64Injective` and `Be64OfRead` |
| Wire.WrapAdd | framework/src/main/java/org/tron/core/zen/ShieldedTRC20ParametersBuilder.java:287 | wrapping after every `+=` gives the same value as wrapping the exact running total |
| Wire.Be64RoundTrip | framework/src/main/java/org/tron/core/zen/ShieldedTRC20ParametersBuilder.java:222 | the 8 bytes of `fromLong(v)`, read back big-endian as a `long`, give `v` |
| Wire.Be64Injective | framework/src/main/java/org/tron/core/zen/ShieldedTRC20ParametersBuilder.java:247 | two amounts with the same 8-byte encoding are equal |
| Wire.Be64OfRead | framework/src/main/java/org/tron/core/zen/ShieldedTRC20ParametersBuilder.java:67 | any 8 bytes are the `fromLong` encoding of the `long` they are read as |
| Wire.FromToBigEndian | framework/src/main/java/org/tron/core/zen/ShieldedTRC20ParametersBuilder.java:67 | decoding the n-byte big-endian encoding of x < 256^n gives x |
| Wire.ToFromBigEndian | framework/src/main/java/org/tron/core/zen/ShieldedTRC20ParametersBuilder.java:67 | re-encoding the decoded value of a byte string gives the string back |
| ZenProofs.PositionFromPath | framework/src/main/java/org/tron/core/zen/ShieldedTRC20ParametersBuilder.java:63-68 | the path is rejected, with the Merkle-path error, exactly when its length is not 1065 |
| ZenProofs.PositionRoundTrip | framework/src/main/java/org/tron/core/zen/ShieldedTRC20ParametersBuilder.java:63-68 | a 1057-byte prefix followed by the 8-byte encoding of `pos` yields position `pos` |
| ZenProofs.PositionDecodes | framework/src/main/java/org/tron/core/zen/ShieldedTRC20ParametersBuilder.java:38-68 | a 1065-byte path is accepted, and is its first 1057 bytes followed by the encoding of the position read |
| ZenProofs.ResolveSpendKeys | framework/src/main/java/org/tron/core/zen/ShieldedTRC20ParametersBuilder.java:82-91 | a non-empty raw ak selects the raw ak and nsk and the nullifier `nullifierFromKeys(note, ak, nskToNk(nsk), pos)`; otherwise the expanded key's ak and nsk and the nullifier `nullifierFromFvk(note, fvk, pos)`; the only failure is a raw spend with empty ak (null expanded key) |
| ZenProofs.GenerateSpendProof | framework/src/main/java/org/tron/core/zen/ShieldedTRC20ParametersBuilder.java:71-95 | a bad path length fails first; a missing key comes next; an empty cm or nullifier fails before any proof is requested; a success carries the nullifier of the resolved keys, the anchor and no signature; only the four listed errors occur |
| ZenProofs.SpendProofOutcome | framework/src/main/java/org/tron/core/zen/ShieldedTRC20ParametersBuilder.java:97-122 | once all checks pass, the result fails with "Spend proof failed" exactly when the backend proof over the resolved ak and nsk, the note's d, rcm and value, alpha, anchor and path fails, and otherwise is the description with that proof's cv, rk and zkproof, the anchor and the resolved nullifier |
| ZenProofs.GenerateOutputProof | framework/src/main/java/org/tron/core/zen/ShieldedTRC20ParametersBuilder.java:126-174 | an empty cm fails with "Output is invalid"; an ovk not of 32 bytes always fails, and fails with the ovk error exactly when encryption and the proof have succeeded; a success carries cm, epk and cEnc from the encryption |
| ZenProofs.OutputProofOutcome | framework/src/main/java/org/tron/core/zen/ShieldedTRC20ParametersBuilder.java:126-174 | a failed note encryption gives "Failed to encrypt note", a failed output proof "Output proof failed"; the result is a success exactly when every check passes and the ovk has 32 bytes, and is then the description of the proof's cv and zkproof, cm, the encryption's epk and ciphertext, and the outgoing ciphertext encrypted under the ovk over that cv, cm, pkD, esk and epk |
| ZenProofs.ProveFromSpec | framework/src/main/java/org/tron/core/zen/ShieldedTRC20ParametersBuilder.java:228-239 | from any index with any accumulator, the loop extends the accumulator by the items' descriptions in order and stops at the first item that fails, with its error |
| ZenProofs.ProveAll | framework/src/main/java/org/tron/core/zen/ShieldedTRC20ParametersBuilder.java:228-239 | the loop succeeds iff every item proves, yields their descriptions in list order, and on failure has proved exactly the items before the failing one |
| ZenProofs.ProveFrom | framework/src/main/java/org/tron/core/zen/ShieldedTRC20ParametersBuilder.java:228-239 | the for-each loops that prove intents and stop at the first exception; its properties are `ProveFromSpec` and `ProveAll` |
| ZenEncoding.EncodeSpendDescription | framework/src/main/java/org/tron/core/zen/ShieldedTRC20ParametersBuilder.java:189-195 | `encodeSpendDescription`; a fixed-width spend encodes to 320 bytes, by `SpendEncodingLayout` and `SpendEncodingInjective` |
| ZenEncoding.EncodeReceiveDescription | framework/src/main/java/org/tron/core/zen/ShieldedTRC20ParametersBuilder.java:197-204 | `encodeReceiveDescription`; its layout and injectivity are `ReceiveEncodingLayout` and `ReceiveEncodingInjective` |
| ZenEncoding.EncodeSpends | framework/src/main/java/org/tron/core/zen/ShieldedTRC20ParametersBuilder.java:228-232 | the bytes the spend loop merges; by `EncodeSpendsAppend` and `EncodeSpendsBlocks` |
| ZenEncoding.EncodeReceives | framework/src/main/java/org/tron/core/zen/ShieldedTRC20ParametersBuilder.java:235-239 | the bytes the receive loop merges; by `EncodeReceivesAppend` |
| ZenEncoding.MintMessage | framework/src/main/java/org/tron/core/zen/ShieldedTRC20ParametersBuilder.java:222-223 | the MINT message; its layout is `MintMessageLayout` |
| ZenEncoding.BurnMessage | framework/src/main/java/org/tron/core/zen/ShieldedTRC20ParametersBuilder.java:246-247 | the BRUN message; its layout is `BurnMessageLayout` |
| ZenEncoding.TransferMessage | framework/src/main/java/org/tron/core/zen/ShieldedTRC20ParametersBuilder.java:227-239 | the TRANSTER message; its layout is `TransferMessageLayout` |
| ZenEncoding.SpendEncodingLayout | framework/src/main/java/org/tron/core/zen/ShieldedTRC20ParametersBuilder.java:189-195 | a spend with 32-byte anchor and nullifier encodes to 320 bytes with cv, anchor, nf, rk, zkproof at offsets 0, 32, 64, 96, 128 |
| ZenEncoding.SpendEncodingInjective | framework/src/main/java/org/tron/core/zen/ShieldedTRC20ParametersBuilder.java:189-195 | equal encodings of fixed-width spends agree on every field except the spend-authority signature |
| ZenEncoding.ReceiveEncodingLayout | framework/src/main/java/org/tron/core/zen/ShieldedTRC20ParametersBuilder.java:197-204 | a receive encodes as cv, cm, epk, cEnc, cOut, zkproof, each at the offset the widths before it give |
| ZenEncoding.ReceiveEncodingInjective | framework/src/main/java/org/tron/core/zen/ShieldedTRC20ParametersBuilder.java:197-204 | receives with equal encodings and equal ciphertext lengths are equal |
| ZenEncoding.EncodeSpendsAppend | framework/src/main/java/org/tron/core/zen/ShieldedTRC20ParametersBuilder.java:228-232 | merging one more spend encoding onto the running bytes gives the flat concatenation of all spends so far |
| ZenEncoding.EncodeReceivesAppend | framework/src/main/java/org/tron/core/zen/ShieldedTRC20ParametersBuilder.java:235-239 | the same for the receive loop |
| ZenEncoding.EncodeSpendsBlocks | framework/src/main/java/org/tron/core/zen/ShieldedTRC20ParametersBuilder.java:228-232 | fixed-width spends occupy consecutive 320-byte blocks, and block k is spend k |
| ZenEncoding.MintMessageLayout | framework/src/main/java/org/tron/core/zen/ShieldedTRC20ParametersBuilder.java:222-223 | the MINT message splits into the address, the 8 bytes of the deposit amount (read back as that amount) and the receive encoding |
| ZenEncoding.BurnMessageLayout | framework/src/main/java/org/tron/core/zen/ShieldedTRC20ParametersBuilder.java:246-247 | the BRUN message splits into the address, the spend encoding, the recipient address and the withdrawn amount in the last 8 bytes |
| ZenEncoding.TransferMessageLayout | framework/src/main/java/org/tron/core/zen/ShieldedTRC20ParametersBuilder.java:227-239 | the TRANSTER message has the address, then for every k block k is spend k, then all the receive encodings; this holds for any number of spends, none included |
| ZenBuild.SpendTotalAppend | framework/src/main/java/org/tron/core/zen/ShieldedTRC20ParametersBuilder.java:286-287 | appending a spend raises the spend total by its note value |
| ZenBuild.ReceiveTotalAppend | framework/src/main/java/org/tron/core/zen/ShieldedTRC20ParametersBuilder.java:316-317 | appending a receive raises the receive total by its note value |
| ZenBuild.SpendAuthSignature | framework/src/main/java/org/tron/core/zen/ShieldedTRC20ParametersBuilder.java:178-183 | one spend-authorisation signature by the expanded key's ask and alpha; a raw-key spend dereferences a null key; its use is stated by `SignSpendsFromSpec` |
| ZenBuild.SignSpendsFrom | framework/src/main/java/org/tron/core/zen/ShieldedTRC20ParametersBuilder.java:176-187 | the loop of `createSpendAuth`; its properties are `SignSpendsFromSpec` |
| ZenBuild.Dispatch | framework/src/main/java/org/tron/core/zen/ShieldedTRC20ParametersBuilder.java:216-251 | the `switch` of `build`; its properties are `DispatchErrors`, `DispatchBalance`, `TransferDispatch` and the three `…DispatchResult` lemmas |
| ZenBuild.Finish | framework/src/main/java/org/tron/core/zen/ShieldedTRC20ParametersBuilder.java:253-278 | the tail of `build` from the hash on; its properties are `FinishResult`, `FinishSigns` and `FinishKeepsDescriptions` |
| ZenBuild.BuildSpec | framework/src/main/java/org/tron/core/zen/ShieldedTRC20ParametersBuilder.java:206-279 | one `build` call; when it returns and which exception it throws is `BuildResult`, and what it leaves behind is the other `Build…` lemmas below |
| ZenBuild.FinishResult | framework/src/main/java/org/tron/core/zen/ShieldedTRC20ParametersBuilder.java:253-278 | a failed hash throws its error; with `withAsk` a failed signing throws the signing error; otherwise a failed binding signature throws its error; the tail returns iff the hash succeeds, signing (when asked) succeeds and the binding signature succeeds |
| ZenBuild.BuildResult | framework/src/main/java/org/tron/core/zen/ShieldedTRC20ParametersBuilder.java:206-279 | a failed switch throws the switch's exception; then a failed hash, a failed signing (when asked) and a failed binding signature throw their own errors, in that order; `build` returns iff the switch merges a message, the hash succeeds, the signing succeeds or is not asked for, and the binding signature succeeds |
| ZenBuild.MintDispatchResult | framework/src/main/java/org/tron/core/zen/ShieldedTRC20ParametersBuilder.java:217-224 | a MINT with no receive throws the index error of `receives.get(0)`; otherwise the switch succeeds iff receive 0 proves, and throws the proof's error if it does not |
| ZenBuild.BurnDispatchResult | framework/src/main/java/org/tron/core/zen/ShieldedTRC20ParametersBuilder.java:241-248 | a BRUN with no spend throws the index error of `spends.get(0)`; otherwise the switch succeeds iff spend 0 proves, and throws the proof's error if it does not |
| ZenBuild.TransferDispatchResult | framework/src/main/java/org/tron/core/zen/ShieldedTRC20ParametersBuilder.java:225-240 | a TRANSTER switch succeeds iff every spend and every receive proves; otherwise it throws the error of the first spend that fails, or, when every spend proves, of the first receive that fails |
| ZenBuild.TransferFirstFailure | framework/src/main/java/org/tron/core/zen/ShieldedTRC20ParametersBuilder.java:228-239 | for any provers, the two loops end with the first failing spend, else the first failing receive, else a message, and a message exactly when every item proves |
| ZenBuild.FirstFailure | framework/src/main/java/org/tron/core/zen/ShieldedTRC20ParametersBuilder.java:228-239 | a loop over intents succeeds iff every item proves, and otherwise stops with the error of the first item that fails |
| ZenBuild.SignSpendsFromSpec | framework/src/main/java/org/tron/core/zen/ShieldedTRC20ParametersBuilder.java:176-187 | signing keeps the number of descriptions; it succeeds iff every spend can be signed and has a description at its index; then description j carries spend j's signature and all others are unchanged; only the missing-key, signing and index errors occur; when spend k is the first that cannot be signed or has no description, it fails with k's signing error, or else the index error, having signed exactly the spends before k (`SignStop`) |
| ZenBuild.SignSpendsStopsAt | framework/src/main/java/org/tron/core/zen/ShieldedTRC20ParametersBuilder.java:176-187 | signing that first fails at spend k signs spends i..k−1 onto their descriptions, leaves the rest untouched, and throws k's signing error (lines 179-183) before its missing description's index error (line 184) |
| ZenBuild.DispatchErrors | framework/src/main/java/org/tron/core/zen/ShieldedTRC20ParametersBuilder.java:216-251 | the switch ends only with a proof-generation error or an index error |
| ZenBuild.DispatchBalance | framework/src/main/java/org/tron/core/zen/ShieldedTRC20ParametersBuilder.java:216-251 | a switch that merged a message moved the balance by +fromAmount (MINT), 0 (TRANSTER) or −toAmount (BRUN), as a `long` |
| ZenBuild.FinishSigns | framework/src/main/java/org/tron/core/zen/ShieldedTRC20ParametersBuilder.java:253-278 | the tail of `build` keeps the balance, and on success stores the hash and the binding signature over that balance and hash and returns the bundle |
| ZenBuild.BuildReleasesContext | framework/src/main/java/org/tron/core/zen/ShieldedTRC20ParametersBuilder.java:264-277 | the context is released iff the call returns or throws from the binding signature; every earlier exception leaves it unreleased |
| ZenBuild.BuildBalance | framework/src/main/java/org/tron/core/zen/ShieldedTRC20ParametersBuilder.java:206-279 | on success the balance is the prior balance plus the type's transparent adjustment, it is the balance the binding signature is made over, and the bundle carries that signature and the hash |
| ZenBuild.BuildBalanceWrapped | framework/src/main/java/org/tron/core/zen/ShieldedTRC20ParametersBuilder.java:221-268 | for a balance that is the wrapped value of an exact total, the attested balance wraps total plus adjustment, and equals it exactly when it fits |
| ZenBuild.BuildBalanceFromRegistrations | framework/src/main/java/org/tron/core/zen/ShieldedTRC20ParametersBuilder.java:281-325 | for a balance that is the wrapped registered total `registered` = Σ spend values − Σ receive values, the attested balance is Σ spend values − Σ receive values + the transparent adjustment, wrapped as a `long` |
| ZenBuild.BuildMint | framework/src/main/java/org/tron/core/zen/ShieldedTRC20ParametersBuilder.java:217-224 | a MINT with no receive throws the index error; a successful MINT proves exactly receive 0, appends it and no spend, leaves the draft's spend descriptions unchanged up to their signatures, and hashes address ‖ be64(fromAmount) ‖ enc(receive) |
| ZenBuild.BuildBurn | framework/src/main/java/org/tron/core/zen/ShieldedTRC20ParametersBuilder.java:241-248 | a BRUN with no spend throws the index error; a successful BRUN proves exactly spend 0, appends one spend and no receive, leaves the draft's spend descriptions unchanged up to their signatures, and hashes address ‖ enc(spend) ‖ toAddress ‖ be64(toAmount) |
| ZenBuild.TransferDispatch | framework/src/main/java/org/tron/core/zen/ShieldedTRC20ParametersBuilder.java:225-240 | a TRANSTER switch that merged a message proved every spend and receive in order into unsigned descriptions, and merged their encodings in order |
| ZenBuild.TransferAssembled | framework/src/main/java/org/tron/core/zen/ShieldedTRC20ParametersBuilder.java:225-240 | for any provers, a bundle that keeps the switch's proved descriptions up to their signatures and stores the hash of its message meets the conclusion of `BuildTransfer` |
| ZenBuild.FinishKeepsDescriptions | framework/src/main/java/org/tron/core/zen/ShieldedTRC20ParametersBuilder.java:253-278 | a successful tail keeps the proved descriptions up to their signatures and stores the hash of the message |
| ZenBuild.BuildTransfer | framework/src/main/java/org/tron/core/zen/ShieldedTRC20ParametersBuilder.java:225-240 | a successful TRANSTER keeps the draft's descriptions (spends up to their signatures), appends one description per spend and per receive, in registration order, each the proof of its intent, and hashes the address then all spend encodings then all receive encodings |
| ZenBuild.BuildSpendAuth | framework/src/main/java/org/tron/core/zen/ShieldedTRC20ParametersBuilder.java:259-263 | with `withAsk`, a successful build signed every spend by its expanded key over the stored hash and attached signature i to description i; without it no description is re-signed |
| ZenBuild.MintScenario | framework/src/main/java/org/tron/core/zen/ShieldedTRC20ParametersBuilder.java:221 | a receive of 100 and a deposit of 100 attest a balance of 0 |
| ZenBuild.BurnScenario | framework/src/main/java/org/tron/core/zen/ShieldedTRC20ParametersBuilder.java:245 | a spend of 50 and a withdrawal of 50 attest a balance of 0 |
| ZenBuild.TransferScenario | framework/src/main/java/org/tron/core/zen/ShieldedTRC20ParametersBuilder.java:228-239 | spends of 30 and 20 and a receive of 45 attest a balance of 5 |
| ParametersBuilder.ShieldedTRC20ParametersBuilder.constructor | framework/src/main/java/org/tron/core/zen/ShieldedTRC20ParametersBuilder.java:41-61 | a new builder has empty lists, an empty bundle, balance 0, the given type and transparent fields, and a consistent balance |
| ParametersBuilder.ShieldedTRC20ParametersBuilder.BalanceConsistent | framework/src/main/java/org/tron/core/zen/ShieldedTRC20ParametersBuilder.java:281-325 | the invariant the registration methods keep: `valueBalance` is the wrapped Σ spend values − Σ receive values |
| ParametersBuilder.ShieldedTRC20ParametersBuilder.AppendSpend | framework/src/main/java/org/tron/core/zen/ShieldedTRC20ParametersBuilder.java:286-287 | appends the spend, adds its value to the balance as a `long`, keeps `BalanceConsistent`, and changes nothing else |
| ParametersBuilder.ShieldedTRC20ParametersBuilder.AppendReceive | framework/src/main/java/org/tron/core/zen/ShieldedTRC20ParametersBuilder.java:316-317 | appends the receive, subtracts its value from the balance as a `long`, keeps `BalanceConsistent`, and changes nothing else |
| ParametersBuilder.ShieldedTRC20ParametersBuilder.AddSpend | framework/src/main/java/org/tron/core/zen/ShieldedTRC20ParametersBuilder.java:281-288 | with a generated alpha, appends exactly one full-key spend and adds the note value to the balance; if generation throws, nothing changes; only spends and the balance may change |
| ParametersBuilder.ShieldedTRC20ParametersBuilder.AddSpendWithAlpha | framework/src/main/java/org/tron/core/zen/ShieldedTRC20ParametersBuilder.java:290-298 | appends exactly one full-key spend with the given alpha and adds the note value; receives are untouched; the balance stays consistent |
| ParametersBuilder.ShieldedTRC20ParametersBuilder.AddSpendWithKeys | framework/src/main/java/org/tron/core/zen/ShieldedTRC20ParametersBuilder.java:300-310 | appends exactly one raw-key spend and adds the note value; receives are untouched; the balance stays consistent |
| ParametersBuilder.ShieldedTRC20ParametersBuilder.AddOutput | framework/src/main/java/org/tron/core/zen/ShieldedTRC20ParametersBuilder.java:312-318 | with a generated rcm, appends one receive whose note has the address's d and pkD, the value and the memo, and subtracts the value; if generation throws, nothing changes |
| ParametersBuilder.ShieldedTRC20ParametersBuilder.AddOutputWithComponents | framework/src/main/java/org/tron/core/zen/ShieldedTRC20ParametersBuilder.java:320-325 | appends one receive with the given components and subtracts the value; spends are untouched; the balance stays consistent |
| ParametersBuilder.ShieldedTRC20ParametersBuilder.CreateSpendAuth | framework/src/main/java/org/tron/core/zen/ShieldedTRC20ParametersBuilder.java:176-187 | the loop leaves the descriptions, and throws the error, that `SignSpendsFrom` gives; nothing but the descriptions changes |
| ParametersBuilder.ShieldedTRC20ParametersBuilder.ProveIntents | framework/src/main/java/org/tron/core/zen/ShieldedTRC20ParametersBuilder.java:216-251 | the switch appends the descriptions, sets the balance and yields the message or error that `Dispatch` gives |
| ParametersBuilder.ShieldedTRC20ParametersBuilder.ProveTransfer | framework/src/main/java/org/tron/core/zen/ShieldedTRC20ParametersBuilder.java:225-240 | the two TRANSTER loops append the proved spends, then the proved receives only if every spend proved, and merge the TRANSTER message |
| ParametersBuilder.ShieldedTRC20ParametersBuilder.ProveSpends | framework/src/main/java/org/tron/core/zen/ShieldedTRC20ParametersBuilder.java:228-232 | the spend loop appends exactly the descriptions `ProveFrom` proves, stops at its failure, and merges their flat encoding |
| ParametersBuilder.ShieldedTRC20ParametersBuilder.ProveReceives | framework/src/main/java/org/tron/core/zen/ShieldedTRC20ParametersBuilder.java:235-239 | the same for the receive loop |
| ParametersBuilder.ShieldedTRC20ParametersBuilder.FinishBuild | framework/src/main/java/org/tron/core/zen/ShieldedTRC20ParametersBuilder.java:253-278 | hashing, optional signing, recording the hash and the binding signature leave the bundle and result `Finish` gives, and free the context once exactly when `Finish` releases it |
| ParametersBuilder.ShieldedTRC20ParametersBuilder.Build | framework/src/main/java/org/tron/core/zen/ShieldedTRC20ParametersBuilder.java:206-279 | one context is created per call; the bundle, balance and result are those of `BuildSpec`, and the context is freed once exactly when `BuildSpec` releases it |

## Left out

- The cryptographic backend is a record of functions, not an implementation. That covers every `JLibrustzcash` call, note commitments, nullifiers, note and outgoing encryption, and `Sha256Hash.of` with its engine switch `DBConfig.isECKeyCryptoEngine()`. Their results have the fixed widths the source allocates (cv and rk 32 bytes, zkproof 192, signatures 64).
- The backend calls `noteCm` (`Note.cm()`), `fullViewingKey`, `nskToNk`, `nullifierFromKeys`, `nullifierFromFvk` (`Note.nullifier`), `encryptOutgoing` (`OutgoingPlaintext.encrypt`) and `initCtx` are total functions. An exception from any of them is not modelled. This matters for ordering: `spend.note.cm()` runs at line 74, before the path check at line 81. "A bad path fails first" (`GenerateSpendProof`) holds because `noteCm` cannot throw.
- The proving context is an opaque handle. Its native state is not modelled; the ghost counters of the class count creations and releases.
- The `boolean` results of the spend-authorisation and binding-signature calls are ignored by the source. They are not modelled: a call either throws (`None`) or fills its 64-byte buffer.
- `librustzcashSaplingGenerateR`, which draws alpha and rcm, is randomness. `AddSpend` and `AddOutput` take its outcome as a parameter.
- The code of `ByteUtil.byteArrayToLong`, `ByteUtil.parseBytes` and `ByteArray.fromLong` is not reproduced. They are modelled as big-endian two's-complement coding of a `long`: `Be64` for `fromLong`, and `Wrap64(FromBigEndian(..))` of the last 8 bytes for `getPositionFromPath`.
- The Lombok setters are left out. The setters of the operation type and transparent fields are modelled by the constructor's parameters. `setSpends` and `setReceives` are not modelled: they replace the lists without touching `valueBalance`, so they break the invariant the registration methods keep. The `@Getter`s of `spends`, `receives` and `builder` return the live objects; a caller that mutates them breaks the invariant in the same way, and that aliasing is not modelled either.
- Java `null` is not modelled (null arrays, notes or addresses), except that an expanded spending key is absent on raw-key spends. Dereferencing it is `MissingSpendingKey`.
- The `default` branch of the switch cannot be reached: the operation type is a closed three-value datatype.
- `SpendDescriptionInfo.encode()` is left out. It returns an empty array and nothing in the class uses it.
- Protobuf `ByteString` and builder mechanics are left out. The bundle is a value, `builder.build()` returns the bundle as it stands, and aliasing between the returned bundle and the builder is not modelled.
- BRUN never compares the spent note's value with the withdrawn amount. No such check is modelled.
- Concurrency is not modelled: the class is used from one thread.
- Errors are kept as their cause, not as exception types:
  - `IndexOutOfBounds` stands for `IndexOutOfBoundsException`. It arises from `receives.get(0)` or `spends.get(0)` on an empty list, or from `createSpendAuth` with more spends than descriptions.
  - `MissingSpendingKey` stands for a `NullPointerException`.
  - All the others are `ZksnarkException`s.
