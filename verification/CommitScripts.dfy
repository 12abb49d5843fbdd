/**
  The output scripts of a commitment transaction (lnwallet/script_utils.go). For each script the
  exact condition under which a spender's stack opens it is proved.
*/
module CommitScripts {
  import opened Basics
  import opened Script

  // ----- The scripts -----

  function SenderHTLCScript(absoluteTimeout: uint32, relativeTimeout: uint32, senderKey: bytes, receiverKey: bytes,
                            revokeHash: bytes, paymentHash: bytes): seq<Op>
  {
    [HASH160, DUP, PushData(paymentHash), EQUAL,
     SWAP, PushData(revokeHash), EQUAL, SWAP, ADD,
     IF, PushData(receiverKey),
     ELSE, PushNum(absoluteTimeout), CHECKLOCKTIMEVERIFY, PushNum(relativeTimeout), CHECKSEQUENCEVERIFY, DROP2, PushData(senderKey),
     ENDIF, CHECKSIG]
  }

  function ReceiverHTLCScript(absoluteTimeout: uint32, relativeTimeout: uint32, senderKey: bytes, receiverKey: bytes,
                              revokeHash: bytes, paymentHash: bytes): seq<Op>
  {
    [HASH160, DUP, PushData(paymentHash), EQUAL,
     IF, PushNum(relativeTimeout), CHECKSEQUENCEVERIFY, DROP2, PushData(receiverKey),
     ELSE, PushData(revokeHash), EQUAL,
     NOTIF, PushNum(absoluteTimeout), CHECKSEQUENCEVERIFY, DROP, ENDIF,
     PushData(senderKey),
     ENDIF, CHECKSIG]
  }

  function CommitScriptToSelf(csvTimeout: uint32, selfKey: bytes, theirKey: bytes, revokeHash: bytes): seq<Op> {
    [HASH160, PushData(revokeHash), EQUAL,
     IF, PushData(theirKey),
     ELSE, PushNum(csvTimeout), CHECKSEQUENCEVERIFY, DROP, PushData(selfKey),
     ENDIF, CHECKSIG]
  }

  function CommitScriptUnencumbered(hash160: bytes -> bytes, key: bytes): seq<Op> {
    [DUP, HASH160, PushData(hash160(key)), EQUALVERIFY, CHECKSIG]
  }

  // ----- Exact spend conditions -----

  /** The spender pushed a signature and, on top of it, a value. */
  predicate TwoItems(items: seq<bytes>) {
    |items| >= 2
  }

  function Sig(items: seq<bytes>): bytes
    requires TwoItems(items)
  {
    items[|items| - 2]
  }

  function Top(items: seq<bytes>): bytes
    requires items != []
  {
    items[|items| - 1]
  }

  lemma {:induction false} NoItems(env: Env, script: seq<Op>)
    requires script != [] && (script[0].HASH160? || script[0].DUP?)
    ensures !Succeeds(env, script, [])
  {
  }

  lemma {:induction false} ExecToSelf(env: Env, csv: uint32, selfKey: bytes, theirKey: bytes, revokeHash: bytes, s: seq<bytes>, x: bytes)
    ensures var script := CommitScriptToSelf(csv, selfKey, theirKey, revokeHash);
      Exec(env, script, 0, State(s + [x], []))
        == if env.hash160(x) == revokeHash then Exec(env, script, 11, State(s + [theirKey], []))
           else if SequenceMet(env, csv) then Exec(env, script, 11, State(s + [selfKey], []))
           else None
  {
    hide Exec;
    var script := CommitScriptToSelf(csv, selfKey, theirKey, revokeHash);
    var h := env.hash160(x);
    AtHash(env, script, 0, s, x, []);
    AtPush(env, script, 1, s + [h], []);
    AtEqual(env, script, 2, s, h, revokeHash, []);
    AtIf(env, script, 3, s, FromBool(h == revokeHash), []);
    if h == revokeHash {
      AtPush(env, script, 4, s, [] + [true]);
      AtElse(env, script, 5, s + [theirKey], [], true);
      Skip(env, script, 6, 10, s + [theirKey], []);
      AtEndIf(env, script, 10, s + [theirKey], [], false);
    } else {
      Skip(env, script, 4, 5, s, []);
      AtElse(env, script, 5, s, [], false);
      AtLockTime(env, script, 6, s, [] + [true]);
      if SequenceMet(env, csv) {
        AtDrop(env, script, 8, s, EncodeNum(csv), [] + [true]);
        AtPush(env, script, 9, s, [] + [true]);
        AtEndIf(env, script, 10, s + [selfKey], [], true);
      }
    }
  }

  /** The pay-to-self output opens for the revocation preimage and their key, or after the delay for our key. */
  lemma {:induction false} ToSelfSpend(env: Env, csv: uint32, selfKey: bytes, theirKey: bytes, revokeHash: bytes, items: seq<bytes>)
    ensures Succeeds(env, CommitScriptToSelf(csv, selfKey, theirKey, revokeHash), items)
      <==> && TwoItems(items)
           && if env.hash160(Top(items)) == revokeHash then env.sigOk(Sig(items), theirKey)
              else SequenceMet(env, csv) && env.sigOk(Sig(items), selfKey)
  {
    hide Exec;
    var script := CommitScriptToSelf(csv, selfKey, theirKey, revokeHash);
    if items == [] {
      NoItems(env, script);
    } else {
      var s, x := items[..|items| - 1], Top(items);
      assert items == s + [x];
      ExecToSelf(env, csv, selfKey, theirKey, revokeHash, s, x);
      AtFinalCheckSig(env, script, s, theirKey);
      AtFinalCheckSig(env, script, s, selfKey);
    }
  }

  lemma {:induction false} ExecSenderHead(env: Env, abs: uint32, rel: uint32, senderKey: bytes, receiverKey: bytes,
                                          revokeHash: bytes, paymentHash: bytes, s: seq<bytes>, x: bytes)
    ensures var script := SenderHTLCScript(abs, rel, senderKey, receiverKey, revokeHash, paymentHash);
      Exec(env, script, 0, State(s + [x], []))
        == Exec(env, script, 10, State(s, [] + [env.hash160(x) == paymentHash || env.hash160(x) == revokeHash]))
  {
    hide Exec, CastToBool, EncodeNum;
    var script := SenderHTLCScript(abs, rel, senderKey, receiverKey, revokeHash, paymentHash);
    var h := env.hash160(x);
    var pays := h == paymentHash;
    AtHash(env, script, 0, s, x, []);
    AtDup(env, script, 1, s, h, []);
    AtPush(env, script, 2, s + [h] + [h], []);
    AtEqual(env, script, 3, s + [h], h, paymentHash, []);
    AtSwap(env, script, 4, s, h, FromBool(pays), []);
    ExecSenderMiddle(env, abs, rel, senderKey, receiverKey, revokeHash, paymentHash, s, h, pays);
  }

  lemma {:induction false} ExecSenderMiddle(env: Env, abs: uint32, rel: uint32, senderKey: bytes, receiverKey: bytes,
                                            revokeHash: bytes, paymentHash: bytes, s: seq<bytes>, h: bytes, pays: bool)
    ensures var script := SenderHTLCScript(abs, rel, senderKey, receiverKey, revokeHash, paymentHash);
      Exec(env, script, 5, State(s + [FromBool(pays)] + [h], []))
        == Exec(env, script, 10, State(s, [] + [pays || h == revokeHash]))
  {
    hide Exec, CastToBool, EncodeNum;
    var script := SenderHTLCScript(abs, rel, senderKey, receiverKey, revokeHash, paymentHash);
    var revokes := h == revokeHash;
    AtPush(env, script, 5, s + [FromBool(pays)] + [h], []);
    AtEqual(env, script, 6, s + [FromBool(pays)], h, revokeHash, []);
    AtSwap(env, script, 7, s, FromBool(pays), FromBool(revokes), []);
    var sum := AtAddBools(env, script, 8, s, revokes, pays, []);
    AtIf(env, script, 9, s, sum, []);
  }

  lemma {:induction false} ExecSenderTail(env: Env, abs: uint32, rel: uint32, senderKey: bytes, receiverKey: bytes,
                                          revokeHash: bytes, paymentHash: bytes, s: seq<bytes>, known: bool)
    ensures var script := SenderHTLCScript(abs, rel, senderKey, receiverKey, revokeHash, paymentHash);
      Exec(env, script, 10, State(s, [] + [known]))
        == if known then Exec(env, script, 19, State(s + [receiverKey], []))
           else if LockTimeMet(env, abs) && SequenceMet(env, rel) then Exec(env, script, 19, State(s + [senderKey], []))
           else None
  {
    hide Exec;
    var script := SenderHTLCScript(abs, rel, senderKey, receiverKey, revokeHash, paymentHash);
    if known {
      AtPush(env, script, 10, s, [] + [true]);
      AtElse(env, script, 11, s + [receiverKey], [], true);
      Skip(env, script, 12, 18, s + [receiverKey], []);
      AtEndIf(env, script, 18, s + [receiverKey], [], false);
    } else {
      Skip(env, script, 10, 11, s, []);
      AtElse(env, script, 11, s, [], false);
      AtLockTime(env, script, 12, s, [] + [true]);
      if LockTimeMet(env, abs) {
        AtLockTime(env, script, 14, s + [EncodeNum(abs)], [] + [true]);
        if SequenceMet(env, rel) {
          AtDrop2(env, script, 16, s, EncodeNum(abs), EncodeNum(rel), [] + [true]);
          AtPush(env, script, 17, s, [] + [true]);
          AtEndIf(env, script, 18, s + [senderKey], [], true);
        }
      }
    }
  }

  /** An outgoing HTLC on the sender's commitment. */
  lemma {:induction false} SenderHTLCSpend(env: Env, abs: uint32, rel: uint32, senderKey: bytes, receiverKey: bytes,
                                           revokeHash: bytes, paymentHash: bytes, items: seq<bytes>)
    ensures Succeeds(env, SenderHTLCScript(abs, rel, senderKey, receiverKey, revokeHash, paymentHash), items)
      <==> && TwoItems(items)
           && if env.hash160(Top(items)) == paymentHash || env.hash160(Top(items)) == revokeHash
              then env.sigOk(Sig(items), receiverKey)
              else LockTimeMet(env, abs) && SequenceMet(env, rel) && env.sigOk(Sig(items), senderKey)
  {
    hide Exec;
    var script := SenderHTLCScript(abs, rel, senderKey, receiverKey, revokeHash, paymentHash);
    if items == [] {
      NoItems(env, script);
    } else {
      var s, x := items[..|items| - 1], Top(items);
      assert items == s + [x];
      ExecSenderHead(env, abs, rel, senderKey, receiverKey, revokeHash, paymentHash, s, x);
      ExecSenderTail(env, abs, rel, senderKey, receiverKey, revokeHash, paymentHash, s,
                     env.hash160(x) == paymentHash || env.hash160(x) == revokeHash);
      AtFinalCheckSig(env, script, s, receiverKey);
      AtFinalCheckSig(env, script, s, senderKey);
    }
  }

  lemma {:induction false} ExecReceiverHead(env: Env, abs: uint32, rel: uint32, senderKey: bytes, receiverKey: bytes,
                                            revokeHash: bytes, paymentHash: bytes, s: seq<bytes>, x: bytes)
    ensures var script := ReceiverHTLCScript(abs, rel, senderKey, receiverKey, revokeHash, paymentHash);
      var h := env.hash160(x);
      Exec(env, script, 0, State(s + [x], []))
        == if h == paymentHash then
             if SequenceMet(env, rel) then Exec(env, script, 19, State(s + [receiverKey], [])) else None
           else Exec(env, script, 10, State(s + [h], [] + [true]))
  {
    hide Exec, EncodeNum;
    var script := ReceiverHTLCScript(abs, rel, senderKey, receiverKey, revokeHash, paymentHash);
    var h := env.hash160(x);
    AtHash(env, script, 0, s, x, []);
    AtDup(env, script, 1, s, h, []);
    AtPush(env, script, 2, s + [h] + [h], []);
    AtEqual(env, script, 3, s + [h], h, paymentHash, []);
    AtIf(env, script, 4, s + [h], FromBool(h == paymentHash), []);
    if h == paymentHash {
      ExecReceiverPaid(env, abs, rel, senderKey, receiverKey, revokeHash, paymentHash, s, h);
    } else {
      Skip(env, script, 5, 9, s + [h], []);
      AtElse(env, script, 9, s + [h], [], false);
    }
  }

  lemma {:induction false} ExecReceiverPaid(env: Env, abs: uint32, rel: uint32, senderKey: bytes, receiverKey: bytes,
                                            revokeHash: bytes, paymentHash: bytes, s: seq<bytes>, h: bytes)
    ensures var script := ReceiverHTLCScript(abs, rel, senderKey, receiverKey, revokeHash, paymentHash);
      Exec(env, script, 5, State(s + [h], [] + [true]))
        == if SequenceMet(env, rel) then Exec(env, script, 19, State(s + [receiverKey], [])) else None
  {
    hide Exec, EncodeNum, SequenceMet;
    var script := ReceiverHTLCScript(abs, rel, senderKey, receiverKey, revokeHash, paymentHash);
    AtLockTime(env, script, 5, s + [h], [] + [true]);
    if SequenceMet(env, rel) {
      AtDrop2(env, script, 7, s, h, EncodeNum(rel), [] + [true]);
      ExecReceiverElse(env, abs, rel, senderKey, receiverKey, revokeHash, paymentHash, s);
    }
  }

  /** In the first branch only the receiver's key is pushed before CHECKSIG. */
  lemma {:induction false} ExecReceiverElse(env: Env, abs: uint32, rel: uint32, senderKey: bytes, receiverKey: bytes,
                                            revokeHash: bytes, paymentHash: bytes, s: seq<bytes>)
    ensures var script := ReceiverHTLCScript(abs, rel, senderKey, receiverKey, revokeHash, paymentHash);
      Exec(env, script, 8, State(s, [] + [true])) == Exec(env, script, 19, State(s + [receiverKey], []))
  {
    hide Exec;
    var script := ReceiverHTLCScript(abs, rel, senderKey, receiverKey, revokeHash, paymentHash);
    var outer: seq<bool> := [] + [false];
    var t := s + [receiverKey];
    AtPush(env, script, 8, s, [] + [true]);
    AtElse(env, script, 9, t, [], true);
    Skip(env, script, 10, 12, t, []);
    AtSkippedIf(env, script, 12, t, []);
    Skip(env, script, 13, 16, t, outer);
    AtEndIf(env, script, 16, t, outer, false);
    Skip(env, script, 17, 18, t, []);
    AtEndIf(env, script, 18, t, [], false);
  }

  lemma {:induction false} ExecReceiverTail(env: Env, abs: uint32, rel: uint32, senderKey: bytes, receiverKey: bytes,
                                            revokeHash: bytes, paymentHash: bytes, s: seq<bytes>, h: bytes)
    ensures var script := ReceiverHTLCScript(abs, rel, senderKey, receiverKey, revokeHash, paymentHash);
      Exec(env, script, 10, State(s + [h], [] + [true]))
        == if h == revokeHash || SequenceMet(env, abs) then Exec(env, script, 19, State(s + [senderKey], [])) else None
  {
    hide Exec;
    var script := ReceiverHTLCScript(abs, rel, senderKey, receiverKey, revokeHash, paymentHash);
    var outer: seq<bool> := [] + [true];
    AtPush(env, script, 10, s + [h], outer);
    AtEqual(env, script, 11, s, h, revokeHash, outer);
    AtIf(env, script, 12, s, FromBool(h == revokeHash), outer);
    if h == revokeHash {
      Skip(env, script, 13, 16, s, outer);
      AtEndIf(env, script, 16, s, outer, false);
    } else {
      AtLockTime(env, script, 13, s, outer + [true]);
      if SequenceMet(env, abs) {
        AtDrop(env, script, 15, s, EncodeNum(abs), outer + [true]);
        AtEndIf(env, script, 16, s, outer, true);
      }
    }
    AtPush(env, script, 17, s, outer);
    AtEndIf(env, script, 18, s + [senderKey], [], true);
  }

  /** An incoming HTLC on the receiver's commitment; its timeout is a relative one. */
  lemma {:induction false} ReceiverHTLCSpend(env: Env, abs: uint32, rel: uint32, senderKey: bytes, receiverKey: bytes,
                                             revokeHash: bytes, paymentHash: bytes, items: seq<bytes>)
    ensures Succeeds(env, ReceiverHTLCScript(abs, rel, senderKey, receiverKey, revokeHash, paymentHash), items)
      <==> && TwoItems(items)
           && if env.hash160(Top(items)) == paymentHash then SequenceMet(env, rel) && env.sigOk(Sig(items), receiverKey)
              else (env.hash160(Top(items)) == revokeHash || SequenceMet(env, abs)) && env.sigOk(Sig(items), senderKey)
  {
    hide Exec;
    var script := ReceiverHTLCScript(abs, rel, senderKey, receiverKey, revokeHash, paymentHash);
    if items == [] {
      NoItems(env, script);
    } else {
      var s, x := items[..|items| - 1], Top(items);
      assert items == s + [x];
      ExecReceiverHead(env, abs, rel, senderKey, receiverKey, revokeHash, paymentHash, s, x);
      ExecReceiverTail(env, abs, rel, senderKey, receiverKey, revokeHash, paymentHash, s, env.hash160(x));
      AtFinalCheckSig(env, script, s, receiverKey);
      AtFinalCheckSig(env, script, s, senderKey);
    }
  }

  lemma {:induction false} ExecUnencumbered(env: Env, key: bytes, s: seq<bytes>, x: bytes)
    ensures var script := CommitScriptUnencumbered(env.hash160, key);
      Exec(env, script, 0, State(s + [x], []))
        == if env.hash160(x) == env.hash160(key) then Exec(env, script, 4, State(s + [x], [])) else None
  {
    hide Exec;
    var script := CommitScriptUnencumbered(env.hash160, key);
    AtDup(env, script, 0, s, x, []);
    AtHash(env, script, 1, s + [x], x, []);
    AtPush(env, script, 2, s + [x] + [env.hash160(x)], []);
    AtEqualVerify(env, script, 3, s + [x], env.hash160(x), env.hash160(key), []);
  }

  /** The counterparty's own output: any key with the right hash and a signature under it. */
  lemma {:induction false} UnencumberedSpend(env: Env, key: bytes, items: seq<bytes>)
    ensures Succeeds(env, CommitScriptUnencumbered(env.hash160, key), items)
      <==> && TwoItems(items)
           && env.hash160(Top(items)) == env.hash160(key) && env.sigOk(Sig(items), Top(items))
  {
    hide Exec;
    var script := CommitScriptUnencumbered(env.hash160, key);
    if items == [] {
      NoItems(env, script);
    } else {
      var s, x := items[..|items| - 1], Top(items);
      assert items == s + [x];
      ExecUnencumbered(env, key, s, x);
      AtFinalCheckSig(env, script, s, x);
    }
  }
}
