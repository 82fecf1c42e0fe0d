/** The canonical bytes `build` hashes: descriptor encodings
    (`encodeSpendDescription`, `encodeReceiveDescription`) and the three
    message layouts, all plain concatenations without delimiters. */
module ZenEncoding {
  import opened Wire
  import opened ZenTypes

  /** cv ‖ anchor ‖ nullifier ‖ rk ‖ zkproof. */
  function EncodeSpendDescription(sd: SpendDescription): (b: Bytes)
  {
    sd.valueCommitment + sd.anchor + sd.nullifier + sd.rk + sd.zkproof
  }

  /** cv ‖ cm ‖ epk ‖ cEnc ‖ cOut ‖ zkproof. */
  function EncodeReceiveDescription(rd: ReceiveDescription): (b: Bytes)
  {
    rd.valueCommitment + rd.noteCommitment + rd.epk + rd.cEnc + rd.cOut + rd.zkproof
  }

  /** The anchor and nullifier have the protocol's 32-byte width. */
  predicate FixedWidthSpend(sd: SpendDescription)
  {
    |sd.anchor| == 32 && |sd.nullifier| == 32
  }

  /** With fixed widths a spend encodes to 320 bytes, and each field sits
      at its offset. */
  lemma SpendEncodingLayout(sd: SpendDescription)
    requires FixedWidthSpend(sd)
    ensures var b := EncodeSpendDescription(sd);
      && |b| == 320
      && b[0..32] == sd.valueCommitment
      && b[32..64] == sd.anchor
      && b[64..96] == sd.nullifier
      && b[96..128] == sd.rk
      && b[128..320] == sd.zkproof
  {
  }

  /** Equal encodings of fixed-width spends come from spends that agree on
      every encoded field (it ignores only the spend-authority signature). */
  lemma SpendEncodingInjective(a: SpendDescription, b: SpendDescription)
    requires FixedWidthSpend(a) && FixedWidthSpend(b)
    requires EncodeSpendDescription(a) == EncodeSpendDescription(b)
    ensures a.(spendAuthoritySignature := None) == b.(spendAuthoritySignature := None)
  {
    SpendEncodingLayout(a);
    SpendEncodingLayout(b);
  }

  /** The receive encoding places each field at the offset the widths of
      the fields before it determine; cEnc and cOut have no fixed width. */
  lemma ReceiveEncodingLayout(rd: ReceiveDescription)
    requires |rd.noteCommitment| == 32 && |rd.epk| == 32
    ensures var b := EncodeReceiveDescription(rd);
      var e := 96 + |rd.cEnc|;
      var o := e + |rd.cOut|;
      && |b| == o + 192
      && b[0..32] == rd.valueCommitment
      && b[32..64] == rd.noteCommitment
      && b[64..96] == rd.epk
      && b[96..e] == rd.cEnc
      && b[e..o] == rd.cOut
      && b[o..] == rd.zkproof
  {
  }

  /** Receives whose ciphertexts have the same lengths and whose encodings
      agree are the same receive. */
  lemma ReceiveEncodingInjective(a: ReceiveDescription, b: ReceiveDescription)
    requires |a.noteCommitment| == 32 && |a.epk| == 32
    requires |b.noteCommitment| == 32 && |b.epk| == 32
    requires |a.cEnc| == |b.cEnc| && |a.cOut| == |b.cOut|
    requires EncodeReceiveDescription(a) == EncodeReceiveDescription(b)
    ensures a == b
  {
    ReceiveEncodingLayout(a);
    ReceiveEncodingLayout(b);
  }

  /** The flat concatenation enc(s_0) ‖ … ‖ enc(s_{n-1}). */
  function EncodeSpends(sds: seq<SpendDescription>): (b: Bytes)
    decreases |sds|
  {
    if sds == [] then [] else EncodeSpendDescription(sds[0]) + EncodeSpends(sds[1..])
  }

  /** The flat concatenation enc(r_0) ‖ … ‖ enc(r_{m-1}). */
  function EncodeReceives(rds: seq<ReceiveDescription>): (b: Bytes)
    decreases |rds|
  {
    if rds == [] then [] else EncodeReceiveDescription(rds[0]) + EncodeReceives(rds[1..])
  }

  /** Merging one more spend onto the running bytes, as the loop of lines
      228-232 does, extends the flat concatenation by that spend. */
  lemma {:induction false} EncodeSpendsAppend(sds: seq<SpendDescription>, sd: SpendDescription)
    ensures EncodeSpends(sds + [sd]) == EncodeSpends(sds) + EncodeSpendDescription(sd)
    decreases |sds|
  {
    if sds == [] {
      assert [] + [sd] == [sd];
      assert [sd][1..] == [];
    } else {
      assert (sds + [sd])[1..] == sds[1..] + [sd];
      EncodeSpendsAppend(sds[1..], sd);
    }
  }

  /** The same for the receive loop of lines 235-239. */
  lemma {:induction false} EncodeReceivesAppend(rds: seq<ReceiveDescription>, rd: ReceiveDescription)
    ensures EncodeReceives(rds + [rd]) == EncodeReceives(rds) + EncodeReceiveDescription(rd)
    decreases |rds|
  {
    if rds == [] {
      assert [] + [rd] == [rd];
      assert [rd][1..] == [];
    } else {
      assert (rds + [rd])[1..] == rds[1..] + [rd];
      EncodeReceivesAppend(rds[1..], rd);
    }
  }

  /** With fixed widths the spends occupy consecutive 320-byte blocks, in
      order: block k is exactly the encoding of spend k. */
  lemma {:induction false} EncodeSpendsBlocks(sds: seq<SpendDescription>, k: nat)
    requires forall j :: 0 <= j < |sds| ==> FixedWidthSpend(sds[j])
    requires k < |sds|
    ensures |EncodeSpends(sds)| == 320 * |sds|
    ensures EncodeSpends(sds)[320 * k..320 * (k + 1)] == EncodeSpendDescription(sds[k])
    decreases |sds|
  {
    SpendEncodingLayout(sds[0]);
    var head := EncodeSpendDescription(sds[0]);
    var rest := EncodeSpends(sds[1..]);
    if |sds| == 1 {
      assert rest == [];
    } else {
      EncodeSpendsBlocks(sds[1..], if k == 0 then 0 else k - 1);
      if k > 0 {
        assert (head + rest)[320 * k..320 * (k + 1)] == rest[320 * (k - 1)..320 * k];
      }
    }
  }

  /** Line 222: `address ‖ be64(transparentFromAmount) ‖ enc(receive)`. */
  function MintMessage(address: Bytes, fromAmount: Int64, rd: ReceiveDescription): (m: Bytes)
  {
    address + Be64(fromAmount) + EncodeReceiveDescription(rd)
  }

  /** Line 246: `address ‖ enc(spend) ‖ toAddress ‖ be64(transparentToAmount)`. */
  function BurnMessage(address: Bytes, sd: SpendDescription, toAddress: Bytes, toAmount: Int64): (m: Bytes)
  {
    address + EncodeSpendDescription(sd) + toAddress + Be64(toAmount)
  }

  /** Lines 227-239: `address ‖ enc(spend_0) … ‖ enc(recv_0) …`. */
  function TransferMessage(address: Bytes, sds: seq<SpendDescription>, rds: seq<ReceiveDescription>): (m: Bytes)
  {
    address + EncodeSpends(sds) + EncodeReceives(rds)
  }

  /** The mint message splits back into the address, the deposited amount
      and the receive encoding. */
  lemma MintMessageLayout(address: Bytes, fromAmount: Int64, rd: ReceiveDescription)
    ensures var m := MintMessage(address, fromAmount, rd);
      var n := |address|;
      && |m| == n + 8 + |EncodeReceiveDescription(rd)|
      && m[..n] == address
      && Wrap64(FromBigEndian(m[n..n + 8])) == fromAmount
      && m[n + 8..] == EncodeReceiveDescription(rd)
  {
    var m := MintMessage(address, fromAmount, rd);
    var n := |address|;
    assert m[n..n + 8] == Be64(fromAmount);
    Be64RoundTrip(fromAmount);
  }

  /** The burn message splits back into the address, the spend encoding,
      the recipient address and the withdrawn amount in the last 8 bytes. */
  lemma BurnMessageLayout(address: Bytes, sd: SpendDescription, toAddress: Bytes, toAmount: Int64)
    ensures var m := BurnMessage(address, sd, toAddress, toAmount);
      var n := |address|;
      var e := n + |EncodeSpendDescription(sd)|;
      && |m| == e + |toAddress| + 8
      && m[..n] == address
      && m[n..e] == EncodeSpendDescription(sd)
      && m[e..e + |toAddress|] == toAddress
      && Wrap64(FromBigEndian(m[|m| - 8..])) == toAmount
  {
    var m := BurnMessage(address, sd, toAddress, toAmount);
    assert m[|m| - 8..] == Be64(toAmount);
    Be64RoundTrip(toAmount);
  }

  /** In the transfer message, after the address, the k-th 320-byte block
      is the k-th registered spend, and the receives follow all spends. */
  lemma TransferMessageLayout(address: Bytes, sds: seq<SpendDescription>, rds: seq<ReceiveDescription>)
    requires forall j :: 0 <= j < |sds| ==> FixedWidthSpend(sds[j])
    ensures var m := TransferMessage(address, sds, rds);
      var n := |address|;
      && |m| == n + 320 * |sds| + |EncodeReceives(rds)|
      && m[..n] == address
      && (forall k :: 0 <= k < |sds| ==>
            m[n + 320 * k..n + 320 * (k + 1)] == EncodeSpendDescription(sds[k]))
      && m[n + 320 * |sds|..] == EncodeReceives(rds)
  {
    var m := TransferMessage(address, sds, rds);
    var n := |address|;
    var s := EncodeSpends(sds);
    SpendsLength(sds);
    forall k | 0 <= k < |sds|
      ensures m[n + 320 * k..n + 320 * (k + 1)] == EncodeSpendDescription(sds[k])
    {
      EncodeSpendsBlocks(sds, k);
      assert m[n + 320 * k..n + 320 * (k + 1)] == s[320 * k..320 * (k + 1)];
    }
  }

  /** Fixed-width spends encode to 320 bytes each. */
  lemma {:induction false} SpendsLength(sds: seq<SpendDescription>)
    requires forall j :: 0 <= j < |sds| ==> FixedWidthSpend(sds[j])
    ensures |EncodeSpends(sds)| == 320 * |sds|
    decreases |sds|
  {
    if sds != [] {
      SpendEncodingLayout(sds[0]);
      SpendsLength(sds[1..]);
    }
  }
}
