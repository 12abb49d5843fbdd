/**
  The output scripts byte by byte, as ScriptBuilder assembles them: opcodes and pushes in the order of
  lnwallet/script_utils.go.
*/
module CommitBytes {
  import opened Basics
  import opened Script
  import opened ScriptBytes
  import opened CommitScripts
  import opened CommitTx

  lemma {:induction false} FiveParts(a: seq<Op>, b: seq<Op>, c: seq<Op>, d: seq<Op>, e: seq<Op>)
    ensures Serialize(a + b + c + d + e) == Serialize(a) + Serialize(b) + Serialize(c) + Serialize(d) + Serialize(e)
  {
    hide Serialize;
    SerializeAppend(a + b + c + d, e);
    SerializeAppend(a + b + c, d);
    SerializeAppend(a + b, c);
    SerializeAppend(a, b);
  }

  lemma {:induction false} SixParts(a: seq<Op>, b: seq<Op>, c: seq<Op>, d: seq<Op>, e: seq<Op>, f: seq<Op>)
    ensures Serialize(a + b + c + d + e + f) == Serialize(a) + Serialize(b) + Serialize(c) + Serialize(d) + Serialize(e) + Serialize(f)
  {
    hide Serialize;
    SerializeAppend(a + b + c + d + e, f);
    SerializeAppend(a + b + c + d, e);
    SerializeAppend(a + b + c, d);
    SerializeAppend(a + b, c);
    SerializeAppend(a, b);
  }

  lemma {:induction false} PushedDelay()
    ensures SerializeOp(PushNum(144)) == [2, 144, 0]
  {
    NumBytes();
    PushedData(EncodeNum(144));
  }

  /** The pay-to-self script for a delay of 144 blocks, byte by byte. */
  lemma {:induction false} ToSelfBytes(selfKey: PubKey, theirKey: PubKey, revokeHash: Hash20)
    ensures Serialize(CommitScriptToSelf(144, selfKey, theirKey, revokeHash))
         == [0xa9] + ([20] + revokeHash) + [0x87, 0x63] + ([33] + theirKey + [0x67]) + [2, 144, 0, 0xb2]
          + ([0x75] + ([33] + selfKey)) + [0x68, 0xac]
  {
    PushedData(revokeHash);
    PushedData(theirKey);
    PushedData(selfKey);
    PushedDelay();
    var ops := [HASH160, PushData(revokeHash)] + [EQUAL, IF] + [PushData(theirKey), ELSE] + [PushNum(144), CHECKSEQUENCEVERIFY]
             + [DROP, PushData(selfKey)] + [ENDIF, CHECKSIG];
    assert ops == CommitScriptToSelf(144, selfKey, theirKey, revokeHash);
    SerializeTwo(HASH160, PushData(revokeHash));
    SerializeTwo(EQUAL, IF);
    SerializeTwo(PushData(theirKey), ELSE);
    SerializeTwo(PushNum(144), CHECKSEQUENCEVERIFY);
    SerializeTwo(DROP, PushData(selfKey));
    SerializeTwo(ENDIF, CHECKSIG);
    assert SerializeOp(EQUAL) + SerializeOp(IF) == [0x87, 0x63] && SerializeOp(ENDIF) + SerializeOp(CHECKSIG) == [0x68, 0xac];
    assert SerializeOp(PushNum(144)) + SerializeOp(CHECKSEQUENCEVERIFY) == [2, 144, 0, 0xb2];
    SixParts([HASH160, PushData(revokeHash)], [EQUAL, IF], [PushData(theirKey), ELSE], [PushNum(144), CHECKSEQUENCEVERIFY],
             [DROP, PushData(selfKey)], [ENDIF, CHECKSIG]);
  }

  lemma {:induction false} PushedHeight()
    ensures SerializeOp(PushNum(400_000)) == [3, 0x80, 0x1a, 0x06]
  {
    NumBytes();
    PushedData(EncodeNum(400_000));
  }

  /** Two operations in a row, each with its bytes. */
  lemma {:induction false} Pair(a: Op, b: Op, x: bytes, y: bytes)
    requires SerializeOp(a) == x && SerializeOp(b) == y
    ensures Serialize([a, b]) == x + y
  {
    hide SerializeOp;
    SerializeTwo(a, b);
  }

  lemma {:induction false} TwoCodes(a: Op, b: Op, x: byte, y: byte)
    requires SerializeOp(a) == [x] && SerializeOp(b) == [y]
    ensures Serialize([a, b]) == [x, y]
  {
    hide SerializeOp;
    SerializeTwo(a, b);
  }

  lemma {:induction false} SenderHead(revokeHash: Hash20, paymentHash: Hash20)
    ensures Serialize([HASH160, DUP] + [PushData(paymentHash), EQUAL] + [SWAP, PushData(revokeHash)] + [EQUAL, SWAP] + [ADD, IF])
         == [0xa9, 0x76] + ([20] + paymentHash + [0x87]) + ([0x7c] + ([20] + revokeHash)) + [0x87, 0x7c] + [0x93, 0x63]
  {
    PushedData(paymentHash);
    PushedData(revokeHash);
    TwoCodes(HASH160, DUP, 0xa9, 0x76);
    Pair(PushData(paymentHash), EQUAL, [20] + paymentHash, [0x87]);
    Pair(SWAP, PushData(revokeHash), [0x7c], [20] + revokeHash);
    TwoCodes(EQUAL, SWAP, 0x87, 0x7c);
    TwoCodes(ADD, IF, 0x93, 0x63);
    hide Serialize, SerializeOp;
    FiveParts([HASH160, DUP], [PushData(paymentHash), EQUAL], [SWAP, PushData(revokeHash)], [EQUAL, SWAP], [ADD, IF]);
  }

  lemma {:induction false} ReceiverHead(receiverKey: PubKey, paymentHash: Hash20)
    ensures Serialize([HASH160, DUP] + [PushData(paymentHash), EQUAL] + [IF, PushNum(144)] + [CHECKSEQUENCEVERIFY, DROP2] + [PushData(receiverKey), ELSE])
         == [0xa9, 0x76] + ([20] + paymentHash + [0x87]) + ([0x63] + [2, 144, 0]) + [0xb2, 0x6d] + ([33] + receiverKey + [0x67])
  {
    PushedData(paymentHash);
    PushedData(receiverKey);
    PushedDelay();
    TwoCodes(HASH160, DUP, 0xa9, 0x76);
    Pair(PushData(paymentHash), EQUAL, [20] + paymentHash, [0x87]);
    Pair(IF, PushNum(144), [0x63], [2, 144, 0]);
    TwoCodes(CHECKSEQUENCEVERIFY, DROP2, 0xb2, 0x6d);
    Pair(PushData(receiverKey), ELSE, [33] + receiverKey, [0x67]);
    hide Serialize, SerializeOp;
    FiveParts([HASH160, DUP], [PushData(paymentHash), EQUAL], [IF, PushNum(144)], [CHECKSEQUENCEVERIFY, DROP2], [PushData(receiverKey), ELSE]);
  }

  lemma {:induction false} SenderTail(senderKey: PubKey, receiverKey: PubKey)
    ensures Serialize([PushData(receiverKey), ELSE] + [PushNum(400_000), CHECKLOCKTIMEVERIFY] + [PushNum(144), CHECKSEQUENCEVERIFY]
                      + [DROP2, PushData(senderKey)] + [ENDIF, CHECKSIG])
         == ([33] + receiverKey + [0x67]) + ([3, 0x80, 0x1a, 0x06] + [0xb1]) + ([2, 144, 0] + [0xb2]) + ([0x6d] + ([33] + senderKey)) + [0x68, 0xac]
  {
    PushedData(receiverKey);
    PushedData(senderKey);
    PushedDelay();
    PushedHeight();
    Pair(PushData(receiverKey), ELSE, [33] + receiverKey, [0x67]);
    Pair(PushNum(400_000), CHECKLOCKTIMEVERIFY, [3, 0x80, 0x1a, 0x06], [0xb1]);
    Pair(PushNum(144), CHECKSEQUENCEVERIFY, [2, 144, 0], [0xb2]);
    Pair(DROP2, PushData(senderKey), [0x6d], [33] + senderKey);
    TwoCodes(ENDIF, CHECKSIG, 0x68, 0xac);
    hide Serialize, SerializeOp;
    FiveParts([PushData(receiverKey), ELSE], [PushNum(400_000), CHECKLOCKTIMEVERIFY], [PushNum(144), CHECKSEQUENCEVERIFY],
              [DROP2, PushData(senderKey)], [ENDIF, CHECKSIG]);
  }

  lemma {:induction false} ReceiverTail(senderKey: PubKey, revokeHash: Hash20)
    ensures Serialize([PushData(revokeHash), EQUAL] + [NOTIF, PushNum(400_000)] + [CHECKSEQUENCEVERIFY, DROP]
                      + [ENDIF, PushData(senderKey)] + [ENDIF, CHECKSIG])
         == ([20] + revokeHash + [0x87]) + ([0x64] + [3, 0x80, 0x1a, 0x06]) + [0xb2, 0x75] + ([0x68] + ([33] + senderKey)) + [0x68, 0xac]
  {
    PushedData(revokeHash);
    PushedData(senderKey);
    PushedHeight();
    Pair(PushData(revokeHash), EQUAL, [20] + revokeHash, [0x87]);
    Pair(NOTIF, PushNum(400_000), [0x64], [3, 0x80, 0x1a, 0x06]);
    TwoCodes(CHECKSEQUENCEVERIFY, DROP, 0xb2, 0x75);
    Pair(ENDIF, PushData(senderKey), [0x68], [33] + senderKey);
    TwoCodes(ENDIF, CHECKSIG, 0x68, 0xac);
    hide Serialize, SerializeOp;
    FiveParts([PushData(revokeHash), EQUAL], [NOTIF, PushNum(400_000)], [CHECKSEQUENCEVERIFY, DROP],
              [ENDIF, PushData(senderKey)], [ENDIF, CHECKSIG]);
  }

  /** The HTLC on the sender's commitment, for a timeout at height 400000 and a delay of 144 blocks. */
  lemma {:induction false} SenderBytes(senderKey: PubKey, receiverKey: PubKey, revokeHash: Hash20, paymentHash: Hash20)
    ensures Serialize(SenderHTLCScript(400_000, 144, senderKey, receiverKey, revokeHash, paymentHash))
         == ([0xa9, 0x76] + ([20] + paymentHash + [0x87]) + ([0x7c] + ([20] + revokeHash)) + [0x87, 0x7c] + [0x93, 0x63])
          + (([33] + receiverKey + [0x67]) + ([3, 0x80, 0x1a, 0x06] + [0xb1]) + ([2, 144, 0] + [0xb2]) + ([0x6d] + ([33] + senderKey)) + [0x68, 0xac])
  {
    hide Serialize;
    SenderHead(revokeHash, paymentHash);
    SenderTail(senderKey, receiverKey);
    var head := [HASH160, DUP] + [PushData(paymentHash), EQUAL] + [SWAP, PushData(revokeHash)] + [EQUAL, SWAP] + [ADD, IF];
    var tail := [PushData(receiverKey), ELSE] + [PushNum(400_000), CHECKLOCKTIMEVERIFY] + [PushNum(144), CHECKSEQUENCEVERIFY]
              + [DROP2, PushData(senderKey)] + [ENDIF, CHECKSIG];
    SerializeAppend(head, tail);
    assert head + tail == SenderHTLCScript(400_000, 144, senderKey, receiverKey, revokeHash, paymentHash);
  }

  /** The HTLC on the receiver's commitment. */
  lemma {:induction false} ReceiverBytes(senderKey: PubKey, receiverKey: PubKey, revokeHash: Hash20, paymentHash: Hash20)
    ensures Serialize(ReceiverHTLCScript(400_000, 144, senderKey, receiverKey, revokeHash, paymentHash))
         == ([0xa9, 0x76] + ([20] + paymentHash + [0x87]) + ([0x63] + [2, 144, 0]) + [0xb2, 0x6d] + ([33] + receiverKey + [0x67]))
          + (([20] + revokeHash + [0x87]) + ([0x64] + [3, 0x80, 0x1a, 0x06]) + [0xb2, 0x75] + ([0x68] + ([33] + senderKey)) + [0x68, 0xac])
  {
    hide Serialize;
    ReceiverHead(receiverKey, paymentHash);
    ReceiverTail(senderKey, revokeHash);
    var head := [HASH160, DUP] + [PushData(paymentHash), EQUAL] + [IF, PushNum(144)] + [CHECKSEQUENCEVERIFY, DROP2] + [PushData(receiverKey), ELSE];
    var tail := [PushData(revokeHash), EQUAL] + [NOTIF, PushNum(400_000)] + [CHECKSEQUENCEVERIFY, DROP]
              + [ENDIF, PushData(senderKey)] + [ENDIF, CHECKSIG];
    SerializeAppend(head, tail);
    assert head + tail == ReceiverHTLCScript(400_000, 144, senderKey, receiverKey, revokeHash, paymentHash);
  }

  lemma {:induction false} PayToHashHead(h: Hash20)
    ensures Serialize([DUP, HASH160] + [PushData(h), EQUALVERIFY]) == [0x76, 0xa9] + ([20] + h + [0x88])
  {
    PushedData(h);
    TwoCodes(DUP, HASH160, 0x76, 0xa9);
    Pair(PushData(h), EQUALVERIFY, [20] + h, [0x88]);
    hide Serialize, SerializeOp;
    SerializeAppend([DUP, HASH160], [PushData(h), EQUALVERIFY]);
  }

  lemma {:induction false} PayToHash(h: Hash20)
    ensures Serialize([DUP, HASH160, PushData(h), EQUALVERIFY, CHECKSIG]) == [0x76, 0xa9] + ([20] + h + [0x88]) + [0xac]
  {
    SerializeOne(CHECKSIG);
    hide Serialize;
    PayToHashHead(h);
    var head := [DUP, HASH160] + [PushData(h), EQUALVERIFY];
    SerializeAppend(head, [CHECKSIG]);
    assert head + [CHECKSIG] == [DUP, HASH160, PushData(h), EQUALVERIFY, CHECKSIG];
  }

  /** The output that pays the other side at once. */
  lemma {:induction false} UnencumberedBytes(hash160: bytes -> bytes, key: PubKey)
    requires |hash160(key)| == 20
    ensures Serialize(CommitScriptUnencumbered(hash160, key)) == [0x76, 0xa9] + ([20] + hash160(key) + [0x88]) + [0xac]
  {
    hide Serialize;
    PayToHash(hash160(key));
  }
}
