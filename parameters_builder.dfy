/** The stateful builder itself: registration of spends and receives with
    the running balance, the spend-authorisation loop, and `build`, each
    proved to change exactly what the functions of ZenBuild say. */
module ParametersBuilder {
  import opened Wire
  import opened ZenTypes
  import opened ZenProofs
  import opened ZenEncoding
  import opened ZenBuild

  class ShieldedTRC20ParametersBuilder {
    var spends: seq<SpendDescriptionInfo>
    var receives: seq<ReceiveDescriptionInfo>
    /** The output bundle under construction (`ShieldedTRC20Parameters.Builder`). */
    var builder: Parameters
    var valueBalance: Int64
    var parametersType: ParametersType
    var shieldedTRC20Address: Bytes
    var transparentFromAmount: Int64
    var transparentToAddress: Bytes
    var transparentToAmount: Int64
    /** How often a proving context was created and freed. */
    ghost var ctxInits: nat
    ghost var ctxFrees: nat

    /** The running balance is the registered total, wrapped as a `long`. */
    predicate BalanceConsistent()
      reads this
    {
      valueBalance == Wrap64(SpendTotal(spends) - ReceiveTotal(receives))
    }

    function Config(): (cfg: BuildConfig)
      reads this
    {
      BuildConfig(parametersType, shieldedTRC20Address, transparentFromAmount,
                  transparentToAddress, transparentToAmount)
    }

    /** A new builder with its type and transparent fields set. */
    constructor (parametersType: ParametersType, shieldedTRC20Address: Bytes, transparentFromAmount: Int64,
                 transparentToAddress: Bytes, transparentToAmount: Int64)
      ensures Config() == BuildConfig(parametersType, shieldedTRC20Address, transparentFromAmount,
                                      transparentToAddress, transparentToAmount)
      ensures spends == [] && receives == [] && builder == EMPTY_PARAMETERS && valueBalance == 0
      ensures ctxInits == 0 && ctxFrees == 0
      ensures BalanceConsistent()
    {
      this.parametersType := parametersType;
      this.shieldedTRC20Address := shieldedTRC20Address;
      this.transparentFromAmount := transparentFromAmount;
      this.transparentToAddress := transparentToAddress;
      this.transparentToAmount := transparentToAmount;
      spends, receives, builder, valueBalance := [], [], EMPTY_PARAMETERS, 0;
      ctxInits, ctxFrees := 0, 0;
    }

    method AppendSpend(spend: SpendDescriptionInfo)
      modifies this`spends, this`valueBalance
      ensures spends == old(spends) + [spend]
      ensures valueBalance == Wrap64(old(valueBalance) + spend.note.value)
      ensures old(BalanceConsistent()) ==> BalanceConsistent()
    {
      ghost var b := SpendTotal(spends) - ReceiveTotal(receives);
      assert SpendTotal(spends + [spend]) - ReceiveTotal(receives) == b + spend.note.value by {
        SpendTotalAppend(spends, spend);
      }
      assert BalanceConsistent() ==> Wrap64(valueBalance + spend.note.value) == Wrap64(b + spend.note.value) by {
        WrapAdd(b, spend.note.value);
      }
      spends := spends + [spend];
      valueBalance := Wrap64(valueBalance + spend.note.value);
    }

    method AppendReceive(receive: ReceiveDescriptionInfo)
      modifies this`receives, this`valueBalance
      ensures receives == old(receives) + [receive]
      ensures valueBalance == Wrap64(old(valueBalance) - receive.note.value)
      ensures old(BalanceConsistent()) ==> BalanceConsistent()
    {
      ghost var b := SpendTotal(spends) - ReceiveTotal(receives);
      assert SpendTotal(spends) - ReceiveTotal(receives + [receive]) == b - receive.note.value by {
        ReceiveTotalAppend(receives, receive);
      }
      assert BalanceConsistent() ==> Wrap64(valueBalance - receive.note.value) == Wrap64(b - receive.note.value) by {
        WrapAdd(b, -(receive.note.value as int));
      }
      receives := receives + [receive];
      valueBalance := Wrap64(valueBalance - receive.note.value);
    }

    /** `addSpend(expsk, note, anchor, path)`: the blinding scalar comes from
        the backend's generator (`alpha`, `None` when it throws, in which
        case nothing is registered). */
    method AddSpend(expsk: ExpandedSpendingKey, note: Note, anchor: Bytes, path: Bytes, alpha: Option<Bytes32>)
      returns (thrown: Option<BuildError>)
      modifies this`spends, this`valueBalance
      ensures alpha.None? ==> thrown == Some(RandomnessFailed) && spends == old(spends) && valueBalance == old(valueBalance)
      ensures alpha.Some? ==>
        && thrown == None
        && spends == old(spends) + [SpendDescriptionInfo(Full(expsk), note, alpha.value, anchor, path)]
        && valueBalance == Wrap64(old(valueBalance) + note.value)
      ensures old(BalanceConsistent()) ==> BalanceConsistent()
    {
      if alpha.None? {
        return Some(RandomnessFailed);
      }
      AppendSpend(SpendDescriptionInfo(Full(expsk), note, alpha.value, anchor, path));
      thrown := None;
    }

    /** `addSpend(expsk, note, alpha, anchor, path)`. */
    method AddSpendWithAlpha(expsk: ExpandedSpendingKey, note: Note, alpha: Bytes, anchor: Bytes, path: Bytes)
      modifies this`spends, this`valueBalance
      ensures spends == old(spends) + [SpendDescriptionInfo(Full(expsk), note, alpha, anchor, path)]
      ensures valueBalance == Wrap64(old(valueBalance) + note.value)
      ensures old(BalanceConsistent()) ==> BalanceConsistent()
    {
      AppendSpend(SpendDescriptionInfo(Full(expsk), note, alpha, anchor, path));
    }

    /** `addSpend(ak, nsk, ovk, note, alpha, anchor, path)`. */
    method AddSpendWithKeys(ak: Bytes, nsk: Bytes, ovk: Bytes, note: Note, alpha: Bytes, anchor: Bytes, path: Bytes)
      modifies this`spends, this`valueBalance
      ensures spends == old(spends) + [SpendDescriptionInfo(Raw(ak, nsk, ovk), note, alpha, anchor, path)]
      ensures valueBalance == Wrap64(old(valueBalance) + note.value)
      ensures old(BalanceConsistent()) ==> BalanceConsistent()
    {
      AppendSpend(SpendDescriptionInfo(Raw(ak, nsk, ovk), note, alpha, anchor, path));
    }

    /** `addOutput(ovk, to, value, memo)`: the note takes the address's
        diversifier and transmission key and a fresh commitment randomness
        (`rcm`, `None` when the generator throws: nothing is registered). */
    method AddOutput(ovk: Bytes, to: PaymentAddress, value: Int64, memo: Bytes, rcm: Option<Bytes32>)
      returns (thrown: Option<BuildError>)
      modifies this`receives, this`valueBalance
      ensures rcm.None? ==>
        thrown == Some(RandomnessFailed) && receives == old(receives) && valueBalance == old(valueBalance)
      ensures rcm.Some? ==>
        && thrown == None
        && receives == old(receives) + [ReceiveDescriptionInfo(ovk, Note(to.d, to.pkD, value, rcm.value, memo))]
        && valueBalance == Wrap64(old(valueBalance) - value)
      ensures old(BalanceConsistent()) ==> BalanceConsistent()
    {
      if rcm.None? {
        return Some(RandomnessFailed);
      }
      AppendReceive(ReceiveDescriptionInfo(ovk, Note(to.d, to.pkD, value, rcm.value, memo)));
      thrown := None;
    }

    /** `addOutput(ovk, d, pkD, value, r, memo)`. */
    method AddOutputWithComponents(ovk: Bytes, d: Bytes, pkD: Bytes, value: Int64, r: Bytes, memo: Bytes)
      modifies this`receives, this`valueBalance
      ensures receives == old(receives) + [ReceiveDescriptionInfo(ovk, Note(d, pkD, value, r, memo))]
      ensures valueBalance == Wrap64(old(valueBalance) - value)
      ensures old(BalanceConsistent()) ==> BalanceConsistent()
    {
      AppendReceive(ReceiveDescriptionInfo(ovk, Note(d, pkD, value, r, memo)));
    }

    /** `createSpendAuth`: sign every registered spend in order over
        `digest` and write signature i into output spend description i,
        stopping at the first exception. */
    method CreateSpendAuth(be: Backend, digest: Bytes32) returns (thrown: Option<BuildError>)
      modifies this`builder
      ensures var p := SignSpendsFrom(be, spends, digest, old(builder).spendDescriptions, 0);
        builder == old(builder).(spendDescriptions := p.done) && thrown == p.failure
    {
      for i := 0 to |spends|
        invariant SignSpendsFrom(be, spends, digest, old(builder).spendDescriptions, 0) ==
                  SignSpendsFrom(be, spends, digest, builder.spendDescriptions, i)
        invariant builder == old(builder).(spendDescriptions := builder.spendDescriptions)
      {
        var sig := SpendAuthSignature(be, spends[i], digest);
        if sig.Err? {
          return Some(sig.error);
        }
        if i >= |builder.spendDescriptions| {
          return Some(IndexOutOfBounds);
        }
        var descs := builder.spendDescriptions;
        builder := builder.(spendDescriptions := descs[i := WithSignature(descs[i], sig.value)]);
      }
      thrown := None;
    }

    /** The `switch` of `build`: prove the intents the type calls for,
        append their descriptions, adjust the balance, and merge the
        message, exactly as `Dispatch` describes. */
    method ProveIntents(be: Backend, ctx: Ctx) returns (message: Result<Bytes, BuildError>)
      modifies this`builder, this`valueBalance
      ensures var d := Dispatch(be, ctx, Config(), spends, receives, old(valueBalance));
        && builder == old(builder).(spendDescriptions := old(builder).spendDescriptions + d.spendDescs,
                                    receiveDescriptions := old(builder).receiveDescriptions + d.recvDescs)
        && valueBalance == d.balance
        && message == d.message
    {
      match parametersType {
        case Mint =>
          if |receives| == 0 {
            return Err(IndexOutOfBounds);
          }
          var receive := GenerateOutputProof(be, receives[0], ctx);
          if receive.Err? {
            return Err(receive.error);
          }
          builder := builder.(receiveDescriptions := builder.receiveDescriptions + [receive.value]);
          valueBalance := Wrap64(valueBalance + transparentFromAmount);
          message := Ok(shieldedTRC20Address + Be64(transparentFromAmount) + EncodeReceiveDescription(receive.value));
        case Transfer =>
          message := ProveTransfer(be, ctx);
        case Burn =>
          if |spends| == 0 {
            return Err(IndexOutOfBounds);
          }
          var spend := GenerateSpendProof(be, spends[0], ctx);
          if spend.Err? {
            return Err(spend.error);
          }
          builder := builder.(spendDescriptions := builder.spendDescriptions + [spend.value]);
          valueBalance := Wrap64(valueBalance - transparentToAmount);
          message := Ok(shieldedTRC20Address + EncodeSpendDescription(spend.value) + transparentToAddress
                        + Be64(transparentToAmount));
      }
    }

    /** The transfer case: prove every spend, then every receive, and stop
        at the first exception; the message is the address followed by the
        encodings of all descriptions in order. */
    method ProveTransfer(be: Backend, ctx: Ctx) returns (message: Result<Bytes, BuildError>)
      modifies this`builder
      ensures var ps := ProveFrom(SpendProver(be, ctx), spends, 0, []);
        var pr := ProveFrom(OutputProver(be, ctx), receives, 0, []);
        && builder.messageHash == old(builder).messageHash
        && builder.bindingSignature == old(builder).bindingSignature
        && builder.spendDescriptions == old(builder).spendDescriptions + ps.done
        && (ps.failure.Some? ==>
              builder.receiveDescriptions == old(builder).receiveDescriptions && message == Err(ps.failure.value))
        && (ps.failure.None? ==>
              && builder.receiveDescriptions == old(builder).receiveDescriptions + pr.done
              && message == (if pr.failure.Some? then Err(pr.failure.value)
                             else Ok(TransferMessage(shieldedTRC20Address, ps.done, pr.done))))
    {
      var spendFailure, spendBytes := ProveSpends(SpendProver(be, ctx));
      if spendFailure.Some? {
        return Err(spendFailure.value);
      }
      var receiveFailure, receiveBytes := ProveReceives(OutputProver(be, ctx));
      if receiveFailure.Some? {
        return Err(receiveFailure.value);
      }
      message := Ok(shieldedTRC20Address + spendBytes + receiveBytes);
    }

    /** The spend loop of the transfer case, with `prove` the spend proof
        generation bound to the build's proving context. */
    method ProveSpends(prove: SpendDescriptionInfo -> Result<SpendDescription, BuildError>)
      returns (failure: Option<BuildError>, encoded: Bytes)
      modifies this`builder
      ensures var ps := ProveFrom(prove, spends, 0, []);
        && builder == old(builder).(spendDescriptions := old(builder).spendDescriptions + ps.done)
        && failure == ps.failure
        && encoded == EncodeSpends(ps.done)
    {
      encoded := [];
      ghost var proved: seq<SpendDescription> := [];
      for i := 0 to |spends|
        invariant ProveFrom(prove, spends, 0, []) == ProveFrom(prove, spends, i, proved)
        invariant builder == old(builder).(spendDescriptions := old(builder).spendDescriptions + proved)
        invariant encoded == EncodeSpends(proved)
      {
        var spend := prove(spends[i]);
        if spend.Err? {
          return Some(spend.error), encoded;
        }
        builder := builder.(spendDescriptions := builder.spendDescriptions + [spend.value]);
        EncodeSpendsAppend(proved, spend.value);
        encoded := encoded + EncodeSpendDescription(spend.value);
        proved := proved + [spend.value];
      }
      failure := None;
    }

    /** The receive loop of the transfer case, with `prove` the output proof
        generation bound to the build's proving context. */
    method ProveReceives(prove: ReceiveDescriptionInfo -> Result<ReceiveDescription, BuildError>)
      returns (failure: Option<BuildError>, encoded: Bytes)
      modifies this`builder
      ensures var pr := ProveFrom(prove, receives, 0, []);
        && builder == old(builder).(receiveDescriptions := old(builder).receiveDescriptions + pr.done)
        && failure == pr.failure
        && encoded == EncodeReceives(pr.done)
    {
      encoded := [];
      ghost var proved: seq<ReceiveDescription> := [];
      for i := 0 to |receives|
        invariant ProveFrom(prove, receives, 0, []) == ProveFrom(prove, receives, i, proved)
        invariant builder == old(builder).(receiveDescriptions := old(builder).receiveDescriptions + proved)
        invariant encoded == EncodeReceives(proved)
      {
        var receive := prove(receives[i]);
        if receive.Err? {
          return Some(receive.error), encoded;
        }
        builder := builder.(receiveDescriptions := builder.receiveDescriptions + [receive.value]);
        EncodeReceivesAppend(proved, receive.value);
        encoded := encoded + EncodeReceiveDescription(receive.value);
        proved := proved + [receive.value];
      }
      failure := None;
    }

    /** Everything after the `switch`: hash the message, sign the spends when
        `withAsk`, record the hash, and make the binding signature, freeing
        the context in `finally`. */
    method FinishBuild(be: Backend, ctx: Ctx, merged: Bytes, withAsk: bool)
      returns (r: Result<Parameters, BuildError>)
      modifies this`builder, this`ctxFrees
      ensures var o := Finish(be, ctx, spends, merged, old(builder), valueBalance, withAsk);
        && builder == o.parameters
        && r == o.result
        && ctxFrees == old(ctxFrees) + (if o.released then 1 else 0)
    {
      var digest := be.hash(merged);
      if digest.None? {
        return Err(HashFailed);
      }
      if withAsk {
        var thrown := CreateSpendAuth(be, digest.value);
        if thrown.Some? {
          return Err(thrown.value);
        }
      }
      builder := builder.(messageHash := Some(digest.value));
      var bindingSig := be.bindingSig(BindingSigParams(ctx, valueBalance, digest.value));
      ctxFrees := ctxFrees + 1;
      if bindingSig.None? {
        return Err(BindingSigFailed);
      }
      builder := builder.(bindingSignature := Some(bindingSig.value));
      r := Ok(builder);
    }

    /** `build(withAsk)`: one proving context is created; the descriptions,
        the balance and the result are those of `BuildSpec`, and the
        context is freed once exactly when `BuildSpec` says it is released. */
    method Build(be: Backend, withAsk: bool) returns (r: Result<Parameters, BuildError>)
      modifies this`builder, this`valueBalance, this`ctxInits, this`ctxFrees
      ensures var o := BuildSpec(be, old(Config()), spends, receives, old(valueBalance), old(builder), withAsk);
        && builder == o.parameters
        && valueBalance == o.balance
        && r == o.result
        && ctxInits == old(ctxInits) + 1
        && ctxFrees == old(ctxFrees) + (if o.released then 1 else 0)
    {
      var ctx := be.initCtx;
      ctxInits := ctxInits + 1;
      var message := ProveIntents(be, ctx);
      if message.Err? {
        return Err(message.error);
      }
      r := FinishBuild(be, ctx, message.value, withAsk);
    }
  }
}
