/**
  Commitment transactions of lnwallet/channel.go: which scripts, keys and revocation hashes end up
  on whose transaction, and what that lets each side of the channel do.
*/
module CommitTx {
  import opened Basics
  import opened Script
  import opened ScriptBytes
  import opened CommitScripts

  /** A compressed public key. */
  type PubKey = b: bytes | |b| == 33 witness seq(33, _ => 0)

  type Hash20 = b: bytes | |b| == 20 witness seq(20, _ => 0)

  datatype Party = Us | Them

  function Other(p: Party): Party {
    if p.Us? then Them else Us
  }

  /** The parts of channeldb.OpenChannel that the scripts use. */
  datatype ChannelState = ChannelState(ourCommitKey: PubKey, theirCommitKey: PubKey, csvDelay: uint32) {
    function KeyOf(p: Party): PubKey {
      if p.Us? then ourCommitKey else theirCommitKey
    }
  }

  datatype PaymentDescriptor = PaymentDescriptor(rHash: Hash20, timeout: uint32, value: int,
                                                 ourRevocation: Hash20, theirRevocation: Hash20, payToUs: bool) {
    function RevocationOf(p: Party): Hash20 {
      if p.Us? then ourRevocation else theirRevocation
    }

    function Payee(): Party {
      if payToUs then Us else Them
    }
  }

  /** A pay-to-script-hash output. */
  datatype TxOut = TxOut(value: int, scriptHash: bytes)

  /** scriptHashPkScript */
  function P2SH(hash160: bytes -> bytes, redeem: seq<Op>): bytes {
    hash160(Serialize(redeem))
  }

  /** Spending such an output: bytes with the right hash, and items that satisfy them as a script. */
  predicate Spends(env: Env, out: TxOut, redeem: bytes, items: seq<bytes>) {
    env.hash160(redeem) == out.scriptHash && Parse(redeem).Some? && Succeeds(env, Parse(redeem).value, items)
  }

  /** No other bytes have the hash of this script. */
  ghost predicate Binding(hash160: bytes -> bytes, redeem: seq<Op>) {
    forall b :: hash160(b) == P2SH(hash160, redeem) ==> b == Serialize(redeem)
  }

  /** That can be met, by a hash that keeps everything. */
  lemma {:induction false} BindingCanHold(redeem: seq<Op>)
    ensures Binding(b => b, redeem)
  {
  }

  // ----- What each output is meant to be -----

  /** The delayed output that pays the owner of a commitment. */
  function ToOwner(st: ChannelState, desc: PaymentDescriptor, owner: Party): seq<Op> {
    CommitScriptToSelf(st.csvDelay, st.KeyOf(owner), st.KeyOf(Other(owner)), desc.RevocationOf(owner))
  }

  /** The HTLC on the commitment of `owner`: revocable by the owner's own revocation hash. */
  function HtlcOf(st: ChannelState, desc: PaymentDescriptor, owner: Party): seq<Op> {
    var payee := desc.Payee();
    if owner == payee then
      ReceiverHTLCScript(desc.timeout, st.csvDelay, st.KeyOf(Other(payee)), st.KeyOf(payee), desc.RevocationOf(owner), desc.rHash)
    else
      SenderHTLCScript(desc.timeout, st.csvDelay, st.KeyOf(Other(payee)), st.KeyOf(payee), desc.RevocationOf(owner), desc.rHash)
  }

  // ----- Building the transactions -----

  class MsgTx {
    var sequence: nat
    var txOut: seq<TxOut>

    constructor (sequence: nat)
      ensures this.sequence == sequence && txOut == []
    {
      this.sequence, txOut := sequence, [];
    }

    method AddTxOut(out: TxOut)
      modifies this`txOut
      ensures txOut == old(txOut) + [out]
    {
      txOut := txOut + [out];
    }
  }

  /** lockTimeToSequence, in blocks: the low sixteen bits. */
  function LockTimeToSequence(locktime: uint32): nat {
    locktime % 0x1_0000
  }

  /** The least sequence number with which a transaction of version 2 passes CHECKSEQUENCEVERIFY for that many blocks. */
  lemma {:induction false} SequenceIsLeast(env: Env, blocks: uint32, s: nat)
    requires env.version >= 2 && s <= 0xffff
    ensures blocks < 0x40_0000 ==> (SequenceMet(env.(sequence := s), blocks) <==> s >= LockTimeToSequence(blocks))
    ensures LockTimeToSequence(blocks) <= 0xffff && (blocks <= 0xffff ==> LockTimeToSequence(blocks) == blocks)
  {
    assert s / 0x8000_0000 == 0 && s / 0x40_0000 == 0;
    assert blocks < 0x40_0000 ==> blocks / 0x8000_0000 == 0 && blocks / 0x40_0000 == 0;
  }

  method CreateCommitTx(hash160: bytes -> bytes, selfKey: bytes, theirKey: bytes, revokeHash: bytes, csvTimeout: uint32,
                        amountToSelf: int, amountToThem: int) returns (tx: MsgTx)
    ensures fresh(tx)
    ensures tx.sequence == LockTimeToSequence(csvTimeout)
    ensures tx.txOut == [TxOut(amountToSelf, P2SH(hash160, CommitScriptToSelf(csvTimeout, selfKey, theirKey, revokeHash))),
                         TxOut(amountToThem, P2SH(hash160, CommitScriptUnencumbered(hash160, theirKey)))]
  {
    var ours := P2SH(hash160, CommitScriptToSelf(csvTimeout, selfKey, theirKey, revokeHash));
    var theirs := P2SH(hash160, CommitScriptUnencumbered(hash160, theirKey));
    tx := new MsgTx(LockTimeToSequence(csvTimeout));
    tx.AddTxOut(TxOut(amountToSelf, ours));
    tx.AddTxOut(TxOut(amountToThem, theirs));
  }

  /** createNewCommitmentTxns: one commitment for each side, mirrored. */
  method CreateNewCommitmentTxns(hash160: bytes -> bytes, st: ChannelState, desc: PaymentDescriptor, amountToUs: int, amountToThem: int)
      returns (ours: MsgTx, theirs: MsgTx)
    ensures fresh(ours) && fresh(theirs) && ours != theirs
    ensures ours.txOut == [TxOut(amountToUs, P2SH(hash160, ToOwner(st, desc, Us))),
                           TxOut(amountToThem, P2SH(hash160, CommitScriptUnencumbered(hash160, st.theirCommitKey)))]
    ensures theirs.txOut == [TxOut(amountToThem, P2SH(hash160, ToOwner(st, desc, Them))),
                             TxOut(amountToUs, P2SH(hash160, CommitScriptUnencumbered(hash160, st.ourCommitKey)))]
  {
    ours := CreateCommitTx(hash160, st.ourCommitKey, st.theirCommitKey, desc.ourRevocation, st.csvDelay, amountToUs, amountToThem);
    theirs := CreateCommitTx(hash160, st.theirCommitKey, st.ourCommitKey, desc.theirRevocation, st.csvDelay, amountToThem, amountToUs);
  }

  /** addHTLC: picks roles by direction and puts the matching script on each commitment. */
  method AddHTLC(hash160: bytes -> bytes, st: ChannelState, ourCommitTx: MsgTx, theirCommitTx: MsgTx, desc: PaymentDescriptor)
    requires ourCommitTx != theirCommitTx
    modifies ourCommitTx`txOut, theirCommitTx`txOut
    ensures ourCommitTx.txOut == old(ourCommitTx.txOut) + [TxOut(desc.value, P2SH(hash160, HtlcOf(st, desc, Us)))]
    ensures theirCommitTx.txOut == old(theirCommitTx.txOut) + [TxOut(desc.value, P2SH(hash160, HtlcOf(st, desc, Them)))]
  {
    var senderKey, receiverKey, senderRevocation, receiverRevocation;
    if desc.payToUs {
      receiverKey, receiverRevocation := st.ourCommitKey, desc.ourRevocation;
      senderKey, senderRevocation := st.theirCommitKey, desc.theirRevocation;
    } else {
      senderKey, senderRevocation := st.ourCommitKey, desc.ourRevocation;
      receiverKey, receiverRevocation := st.theirCommitKey, desc.theirRevocation;
    }
    var senderScript := SenderHTLCScript(desc.timeout, st.csvDelay, senderKey, receiverKey, senderRevocation, desc.rHash);
    var receiverScript := ReceiverHTLCScript(desc.timeout, st.csvDelay, senderKey, receiverKey, receiverRevocation, desc.rHash);
    var senderP2SH, receiverP2SH := P2SH(hash160, senderScript), P2SH(hash160, receiverScript);
    if desc.payToUs {
      ourCommitTx.AddTxOut(TxOut(desc.value, receiverP2SH));
      theirCommitTx.AddTxOut(TxOut(desc.value, senderP2SH));
    } else {
      ourCommitTx.AddTxOut(TxOut(desc.value, senderP2SH));
      theirCommitTx.AddTxOut(TxOut(desc.value, receiverP2SH));
    }
  }

  // ----- Who can claim what, and when -----

  /** A met CHECKSEQUENCEVERIFY on a delay below 65536 blocks means the output is that old. */
  lemma {:induction false} SequenceMeansAge(env: Env, csv: uint32, age: nat)
    requires csv < 0x1_0000 && SequenceMet(env, csv) && OldEnough(env, age)
    ensures age >= csv
  {
    assert csv / 0x8000_0000 == 0 && csv / 0x40_0000 == 0 && csv % 0x1_0000 == csv;
  }

  lemma {:induction false} OutputsAreShort(st: ChannelState, desc: PaymentDescriptor, owner: Party)
    ensures AllShort(ToOwner(st, desc, owner)) && AllShort(HtlcOf(st, desc, owner))
  {
    hide EncodeNum;
    Uint32IsShort(st.csvDelay);
    Uint32IsShort(desc.timeout);
  }

  /** An output is spent with the bytes of its own script exactly if the items satisfy the script. */
  lemma {:induction false} SpendsOwnScript(env: Env, script: seq<Op>, out: TxOut, items: seq<bytes>)
    requires AllShort(script) && out.scriptHash == P2SH(env.hash160, script)
    ensures Spends(env, out, Serialize(script), items) <==> Succeeds(env, script, items)
  {
    BytesMeanScript(env, script, items);
  }

  /**
    The owner of a commitment who holds no signature of the counterparty cannot spend the
    pay-to-self output or any HTLC output of it before the relative delay has passed. This covers
    every stack the owner might push and any bytes the owner might reveal as redeem script.
  */
  lemma {:induction false} OwnerMustWait(st: ChannelState, desc: PaymentDescriptor, owner: Party, env: Env, age: nat,
                                         script: seq<Op>, out: TxOut, redeem: bytes, items: seq<bytes>)
    requires st.csvDelay < 0x1_0000 && (script == ToOwner(st, desc, owner) || script == HtlcOf(st, desc, owner))
    requires out.scriptHash == P2SH(env.hash160, script) && Binding(env.hash160, script)
    requires Spends(env, out, redeem, items) && OldEnough(env, age)
    requires TwoItems(items) ==> !env.sigOk(Sig(items), st.KeyOf(Other(owner)))
    ensures age >= st.csvDelay
  {
    OutputsAreShort(st, desc, owner);
    SpendsOwnScript(env, script, out, items);
    OwnerMustMeetDelay(st, desc, owner, env, script, items);
    SequenceMeansAge(env, st.csvDelay, age);
  }

  lemma {:induction false} OwnerMustMeetDelay(st: ChannelState, desc: PaymentDescriptor, owner: Party, env: Env, script: seq<Op>, items: seq<bytes>)
    requires script == ToOwner(st, desc, owner) || script == HtlcOf(st, desc, owner)
    requires Succeeds(env, script, items)
    requires TwoItems(items) ==> !env.sigOk(Sig(items), st.KeyOf(Other(owner)))
    ensures SequenceMet(env, st.csvDelay)
  {
    var self, other, revocation := st.KeyOf(owner), st.KeyOf(Other(owner)), desc.RevocationOf(owner);
    hide Succeeds;
    if script == ToOwner(st, desc, owner) {
      ToSelfSpend(env, st.csvDelay, self, other, revocation, items);
    } else if owner == desc.Payee() {
      ReceiverHTLCSpend(env, desc.timeout, st.csvDelay, other, self, revocation, desc.rHash, items);
    } else {
      SenderHTLCSpend(env, desc.timeout, st.csvDelay, self, other, revocation, desc.rHash, items);
    }
  }

  /** The scripts, given the owner's revocation preimage and a signature of the counterparty. */
  lemma {:induction false} RevokedScriptsOpen(st: ChannelState, desc: PaymentDescriptor, owner: Party, env: Env,
                                              below: seq<bytes>, sig: bytes, preimage: bytes)
    requires env.hash160(preimage) == desc.RevocationOf(owner) && env.sigOk(sig, st.KeyOf(Other(owner)))
    ensures Succeeds(env, ToOwner(st, desc, owner), below + [sig, preimage])
    ensures Succeeds(env, HtlcOf(st, desc, owner), below + [sig, preimage]) <==> RevocationDecides(st, desc, owner, env, sig)
  {
    hide Succeeds;
    var items := below + [sig, preimage];
    var self, other, revocation := st.KeyOf(owner), st.KeyOf(Other(owner)), desc.RevocationOf(owner);
    ToSelfSpend(env, st.csvDelay, self, other, revocation, items);
    if owner == desc.Payee() {
      ReceiverHTLCSpend(env, desc.timeout, st.csvDelay, other, self, revocation, desc.rHash, items);
    } else {
      SenderHTLCSpend(env, desc.timeout, st.csvDelay, self, other, revocation, desc.rHash, items);
    }
  }

  /**
    An incoming HTLC whose payment hash is the revocation hash is the exception: there the preimage
    opens only the owner's delayed branch.
  */
  predicate RevocationDecides(st: ChannelState, desc: PaymentDescriptor, owner: Party, env: Env, sig: bytes) {
    || owner != desc.Payee()
    || desc.rHash != desc.RevocationOf(owner)
    || (SequenceMet(env, st.csvDelay) && env.sigOk(sig, st.KeyOf(owner)))
  }

  /**
    Once the owner's revocation preimage is known, the counterparty claims the pay-to-self output
    and, but for that exception, every HTLC output with it and a signature of its own, whatever the
    lock times and ages.
  */
  lemma {:induction false} RevokedCommitmentIsForfeit(st: ChannelState, desc: PaymentDescriptor, owner: Party, env: Env, value: int,
                                                      below: seq<bytes>, sig: bytes, preimage: bytes)
    requires env.hash160(preimage) == desc.RevocationOf(owner) && env.sigOk(sig, st.KeyOf(Other(owner)))
    ensures var script := ToOwner(st, desc, owner);
      Spends(env, TxOut(value, P2SH(env.hash160, script)), Serialize(script), below + [sig, preimage])
    ensures var script := HtlcOf(st, desc, owner);
      RevocationDecides(st, desc, owner, env, sig)
      <==> Spends(env, TxOut(value, P2SH(env.hash160, script)), Serialize(script), below + [sig, preimage])
  {
    var own, htlc := ToOwner(st, desc, owner), HtlcOf(st, desc, owner);
    hide Succeeds, Spends, Serialize, ToOwner, HtlcOf, RevocationDecides, AllShort;
    OutputsAreShort(st, desc, owner);
    RevokedScriptsOpen(st, desc, owner, env, below, sig, preimage);
    SpendsOwnScript(env, own, TxOut(value, P2SH(env.hash160, own)), below + [sig, preimage]);
    SpendsOwnScript(env, htlc, TxOut(value, P2SH(env.hash160, htlc)), below + [sig, preimage]);
  }

  /**
    The payer's timeout on the payee's commitment. The source's comment speaks of waiting for the
    HTLC timeout, an absolute lock time; the script checks the value as a relative one, so the
    transaction's lock time plays no part, and from bit 31 up there is no wait at all.
  */
  lemma {:induction false} PayeeSideTimeoutIsRelative(st: ChannelState, desc: PaymentDescriptor, env: Env, lockTime: nat, items: seq<bytes>)
    ensures var htlc := HtlcOf(st, desc, desc.Payee());
      && (Succeeds(env, htlc, items) <==> Succeeds(env.(lockTime := lockTime), htlc, items))
      && (TwoItems(items) && env.hash160(Top(items)) !in {desc.rHash, desc.RevocationOf(desc.Payee())}
          && env.sigOk(Sig(items), st.KeyOf(Other(desc.Payee())))
          ==> (Succeeds(env, htlc, items) <==> SequenceMet(env, desc.timeout)))
  {
    var owner := desc.Payee();
    ReceiverHTLCSpend(env, desc.timeout, st.csvDelay, st.KeyOf(Other(owner)), st.KeyOf(owner),
                      desc.RevocationOf(owner), desc.rHash, items);
    ReceiverHTLCSpend(env.(lockTime := lockTime), desc.timeout, st.csvDelay, st.KeyOf(Other(owner)), st.KeyOf(owner),
                      desc.RevocationOf(owner), desc.rHash, items);
  }

  /**
    The same with values: an HTLC that times out at height 400000 lets the payer spend from the
    payee's commitment 6784 blocks after it was mined, with a lock time of 0 that is far from 400000.
  */
  lemma {:induction false} TimeoutExample(st: ChannelState, desc: PaymentDescriptor, env: Env, items: seq<bytes>)
    requires desc.timeout == 400_000 && env.version == 2 && env.sequence == 6784 && env.lockTime == 0
    requires TwoItems(items) && env.hash160(Top(items)) !in {desc.rHash, desc.RevocationOf(desc.Payee())}
    requires env.sigOk(Sig(items), st.KeyOf(Other(desc.Payee())))
    ensures Succeeds(env, HtlcOf(st, desc, desc.Payee()), items) && !LockTimeMet(env, desc.timeout)
  {
    hide Succeeds, HtlcOf;
    assert 400_000 % 0x1_0000 == 6784;
    PayeeSideTimeoutIsRelative(st, desc, env, 0, items);
  }

  // ----- Whose payment it is -----

  /** The output for a script is spent by revealing the script and pushing the items. */
  ghost predicate Opens(env: Env, script: seq<Op>, value: int, items: seq<bytes>) {
    Spends(env, TxOut(value, P2SH(env.hash160, script)), Serialize(script), items)
  }

  lemma {:induction false} OpensOutputs(st: ChannelState, desc: PaymentDescriptor, owner: Party, env: Env, value: int, items: seq<bytes>)
    ensures Opens(env, ToOwner(st, desc, owner), value, items) <==> Succeeds(env, ToOwner(st, desc, owner), items)
    ensures Opens(env, HtlcOf(st, desc, owner), value, items) <==> Succeeds(env, HtlcOf(st, desc, owner), items)
  {
    var own, htlc := ToOwner(st, desc, owner), HtlcOf(st, desc, owner);
    OutputsAreShort(st, desc, owner);
    hide Succeeds, Spends, Serialize, ToOwner, HtlcOf, AllShort;
    SpendsOwnScript(env, own, TxOut(value, P2SH(env.hash160, own)), items);
    SpendsOwnScript(env, htlc, TxOut(value, P2SH(env.hash160, htlc)), items);
  }

  /** Neither the payment hash nor a revocation hash. */
  predicate Unrelated(desc: PaymentDescriptor, hash: bytes) {
    hash !in {desc.rHash, desc.ourRevocation, desc.theirRevocation}
  }

  /**
    A payment to us, on the outputs that addHTLC appends. With the payment preimage and our key we
    take it from their commitment at once, and from ours exactly once the delay is met. With no
    preimage they take it back, with their key, from their commitment exactly after both locks.
  */
  lemma {:induction false} PaymentToUs(st: ChannelState, desc: PaymentDescriptor, env: Env, value: int, below: seq<bytes>, sig: bytes, item: bytes)
    requires desc.payToUs
    ensures env.hash160(item) == desc.rHash && env.sigOk(sig, st.ourCommitKey) ==>
      && Opens(env, HtlcOf(st, desc, Them), value, below + [sig, item])
      && (Opens(env, HtlcOf(st, desc, Us), value, below + [sig, item]) <==> SequenceMet(env, st.csvDelay))
    ensures Unrelated(desc, env.hash160(item)) && env.sigOk(sig, st.theirCommitKey) ==>
      && (Opens(env, HtlcOf(st, desc, Them), value, below + [sig, item]) <==> LockTimeMet(env, desc.timeout) && SequenceMet(env, st.csvDelay))
      && (Opens(env, HtlcOf(st, desc, Us), value, below + [sig, item]) <==> SequenceMet(env, desc.timeout))
  {
    hide Succeeds, Opens, LockTimeMet, SequenceMet;
    var items := below + [sig, item];
    OpensOutputs(st, desc, Us, env, value, items);
    OpensOutputs(st, desc, Them, env, value, items);
    SenderHTLCSpend(env, desc.timeout, st.csvDelay, st.theirCommitKey, st.ourCommitKey, desc.theirRevocation, desc.rHash, items);
    ReceiverHTLCSpend(env, desc.timeout, st.csvDelay, st.theirCommitKey, st.ourCommitKey, desc.ourRevocation, desc.rHash, items);
  }

  /** The mirror image: a payment to them. */
  lemma {:induction false} PaymentToThem(st: ChannelState, desc: PaymentDescriptor, env: Env, value: int, below: seq<bytes>, sig: bytes, item: bytes)
    requires !desc.payToUs
    ensures env.hash160(item) == desc.rHash && env.sigOk(sig, st.theirCommitKey) ==>
      && Opens(env, HtlcOf(st, desc, Us), value, below + [sig, item])
      && (Opens(env, HtlcOf(st, desc, Them), value, below + [sig, item]) <==> SequenceMet(env, st.csvDelay))
    ensures Unrelated(desc, env.hash160(item)) && env.sigOk(sig, st.ourCommitKey) ==>
      && (Opens(env, HtlcOf(st, desc, Us), value, below + [sig, item]) <==> LockTimeMet(env, desc.timeout) && SequenceMet(env, st.csvDelay))
      && (Opens(env, HtlcOf(st, desc, Them), value, below + [sig, item]) <==> SequenceMet(env, desc.timeout))
  {
    hide Succeeds, Opens, LockTimeMet, SequenceMet;
    var items := below + [sig, item];
    OpensOutputs(st, desc, Us, env, value, items);
    OpensOutputs(st, desc, Them, env, value, items);
    SenderHTLCSpend(env, desc.timeout, st.csvDelay, st.ourCommitKey, st.theirCommitKey, desc.ourRevocation, desc.rHash, items);
    ReceiverHTLCSpend(env, desc.timeout, st.csvDelay, st.ourCommitKey, st.theirCommitKey, desc.theirRevocation, desc.rHash, items);
  }

  /**
    Our commitment: they take everything with the preimage of our revocation hash, unless it is also
    the hash of a payment to us, and without it we get our output exactly once the delay is met.
  */
  lemma {:induction false} OurCommitment(st: ChannelState, desc: PaymentDescriptor, env: Env, value: int, below: seq<bytes>, sig: bytes, item: bytes)
    ensures env.hash160(item) == desc.ourRevocation && env.sigOk(sig, st.theirCommitKey) ==>
      && Opens(env, ToOwner(st, desc, Us), value, below + [sig, item])
      && (!desc.payToUs || desc.rHash != desc.ourRevocation ==> Opens(env, HtlcOf(st, desc, Us), value, below + [sig, item]))
    ensures env.hash160(item) != desc.ourRevocation && env.sigOk(sig, st.ourCommitKey) ==>
      (Opens(env, ToOwner(st, desc, Us), value, below + [sig, item]) <==> SequenceMet(env, st.csvDelay))
  {
    hide Succeeds, Opens, LockTimeMet, SequenceMet;
    var items := below + [sig, item];
    var ours, theirs, revocation := st.ourCommitKey, st.theirCommitKey, desc.ourRevocation;
    OpensOutputs(st, desc, Us, env, value, items);
    ToSelfSpend(env, st.csvDelay, ours, theirs, revocation, items);
    SenderHTLCSpend(env, desc.timeout, st.csvDelay, ours, theirs, revocation, desc.rHash, items);
    ReceiverHTLCSpend(env, desc.timeout, st.csvDelay, theirs, ours, revocation, desc.rHash, items);
  }

  /** Their commitment, mirrored. */
  lemma {:induction false} TheirCommitment(st: ChannelState, desc: PaymentDescriptor, env: Env, value: int, below: seq<bytes>, sig: bytes, item: bytes)
    ensures env.hash160(item) == desc.theirRevocation && env.sigOk(sig, st.ourCommitKey) ==>
      && Opens(env, ToOwner(st, desc, Them), value, below + [sig, item])
      && (desc.payToUs || desc.rHash != desc.theirRevocation ==> Opens(env, HtlcOf(st, desc, Them), value, below + [sig, item]))
    ensures env.hash160(item) != desc.theirRevocation && env.sigOk(sig, st.theirCommitKey) ==>
      (Opens(env, ToOwner(st, desc, Them), value, below + [sig, item]) <==> SequenceMet(env, st.csvDelay))
  {
    hide Succeeds, Opens, LockTimeMet, SequenceMet;
    var items := below + [sig, item];
    var ours, theirs, revocation := st.ourCommitKey, st.theirCommitKey, desc.theirRevocation;
    OpensOutputs(st, desc, Them, env, value, items);
    ToSelfSpend(env, st.csvDelay, theirs, ours, revocation, items);
    SenderHTLCSpend(env, desc.timeout, st.csvDelay, theirs, ours, revocation, desc.rHash, items);
    ReceiverHTLCSpend(env, desc.timeout, st.csvDelay, ours, theirs, revocation, desc.rHash, items);
  }

  /** From their own commitment the payer, without a signature of the payee, gets nothing back before the timeout. */
  lemma {:induction false} PayerWaitsForTimeout(st: ChannelState, desc: PaymentDescriptor, env: Env, height: nat, time: nat, items: seq<bytes>)
    requires desc.timeout > 0 && Final(env, height, time)
    requires TwoItems(items) ==> !env.sigOk(Sig(items), if desc.payToUs then st.ourCommitKey else st.theirCommitKey)
    requires Succeeds(env, HtlcOf(st, desc, if desc.payToUs then Them else Us), items)
    ensures if desc.timeout < 500_000_000 then height > desc.timeout else time > desc.timeout
  {
    hide Succeeds, SequenceMet;
    if desc.payToUs {
      SenderHTLCSpend(env, desc.timeout, st.csvDelay, st.theirCommitKey, st.ourCommitKey, desc.theirRevocation, desc.rHash, items);
    } else {
      SenderHTLCSpend(env, desc.timeout, st.csvDelay, st.ourCommitKey, st.theirCommitKey, desc.ourRevocation, desc.rHash, items);
    }
    LockTimeMeansWait(env, desc.timeout, height, time);
  }
}
