/** Keys and sequence numbers of `record_layer.rs`; ciphers are abstract, each one has its own number. */
module RecordLayers {
  import opened Prelude

  const SEQ_SOFT_LIMIT: nat := 0xffff_ffff_ffff_0000
  const SEQ_HARD_LIMIT: nat := 0xffff_ffff_ffff_fffe

  datatype DirectionState = Invalid | Prepared | Active

  /** What the installed decrypter answers for one record. */
  datatype CipherAnswer = Opened(plaintext: seq<byte>) | DecryptError | OtherError

  datatype Decryption =
    | Plaintext(wantCloseBeforeDecrypt: bool, plaintext: seq<byte>)
    | Dropped
    | Failed(error: CipherAnswer)

  type Cipher = nat
  datatype Nonce = Nonce(encrypter: Cipher, sequence: nat)

  class RecordLayer {
    var messageEncrypter: Cipher
    var messageDecrypter: Cipher
    var writeSeq: u64
    var readSeq: u64
    var hasDecrypted: bool
    var encryptState: DirectionState
    var decryptState: DirectionState
    var trialDecryptionLen: Option<nat>
    // Every encrypter ever installed, and every nonce handed to one of them.
    ghost var installed: set<Cipher>
    ghost var used: seq<Nonce>
    // The last configured trial-decryption length, and what was dropped since.
    ghost var trialGranted: nat
    ghost var trialDropped: nat

    ghost predicate Valid()
      reads this
    {
      && messageEncrypter in installed
      && writeSeq <= SEQ_HARD_LIMIT
      && (forall i :: 0 <= i < |used| ==> used[i].encrypter in installed && used[i].sequence < SEQ_HARD_LIMIT)
      && (forall i :: 0 <= i < |used| ==> used[i].encrypter == messageEncrypter ==> used[i].sequence < writeSeq)
      && NoDuplicates(used)
      && trialDropped <= trialGranted
      && (trialDecryptionLen.Some? ==> trialDropped + trialDecryptionLen.value == trialGranted)
    }

    constructor (invalid: Cipher)
      ensures Valid() && used == [] && installed == {invalid}
      ensures encryptState == Invalid && decryptState == Invalid
      ensures writeSeq == 0 && readSeq == 0 && !hasDecrypted && trialDecryptionLen == None
    {
      messageEncrypter, messageDecrypter := invalid, invalid;
      writeSeq, readSeq, hasDecrypted := 0, 0, false;
      encryptState, decryptState := Invalid, Invalid;
      trialDecryptionLen := None;
      installed, used := {invalid}, [];
      trialGranted, trialDropped := 0, 0;
    }

    /** `answer` is what the decrypter says about the record; it matters only while decrypting. */
    method DecryptIncoming(record: seq<byte>, answer: CipherAnswer) returns (r: Decryption)
      requires Valid()
      modifies this`readSeq, this`hasDecrypted, this`trialDecryptionLen, this`trialDropped
      ensures Valid()
      ensures decryptState != Active ==>
        && r == Plaintext(false, record) && readSeq == old(readSeq) && hasDecrypted == old(hasDecrypted)
        && trialDecryptionLen == old(trialDecryptionLen) && trialDropped == old(trialDropped)
      ensures decryptState == Active && answer.Opened? ==>
        && r == Plaintext(old(readSeq) == SEQ_SOFT_LIMIT, answer.plaintext)
        && readSeq == (old(readSeq) + 1) % (U64_MAX + 1) && hasDecrypted
        && trialDecryptionLen == old(trialDecryptionLen) && trialDropped == old(trialDropped)
      ensures decryptState == Active && !answer.Opened? ==>
        && readSeq == old(readSeq) && hasDecrypted == old(hasDecrypted)
        && (r == Dropped <==>
          answer == DecryptError && old(trialDecryptionLen).Some? && |record| <= old(trialDecryptionLen).value)
        && (r != Dropped ==> r == Failed(answer) && trialDecryptionLen == old(trialDecryptionLen))
        && trialDropped == old(trialDropped) + if r == Dropped then |record| else 0
    {
      if decryptState != Active {
        return Plaintext(false, record);
      }
      var wantCloseBeforeDecrypt := readSeq == SEQ_SOFT_LIMIT;
      match answer
      case Opened(plaintext) =>
        // Release arithmetic: nothing stops the read counter before it wraps.
        readSeq := if readSeq == U64_MAX then 0 else readSeq + 1;
        hasDecrypted := true;
        r := Plaintext(wantCloseBeforeDecrypt, plaintext);
      case DecryptError =>
        var doing := DoingTrialDecryption(|record|);
        r := if doing then Dropped else Failed(answer);
      case OtherError =>
        r := Failed(answer);
    }

    /**
     * The pair a record is sealed under. Past the hard limit the source panics; that it is encrypting it
     * only checks in debug builds.
     */
    method EncryptOutgoing() returns (nonce: Nonce)
      requires Valid() && encryptState == Active && writeSeq < SEQ_HARD_LIMIT
      modifies this`writeSeq, this`used
      ensures Valid()
      ensures nonce == Nonce(messageEncrypter, old(writeSeq)) && nonce !in old(used)
      ensures writeSeq == old(writeSeq) + 1 && used == old(used) + [nonce]
    {
      nonce := Nonce(messageEncrypter, writeSeq);
      writeSeq := writeSeq + 1;
      used := used + [nonce];
    }

    method PrepareMessageEncrypter(cipher: Cipher)
      requires Valid() && cipher !in installed
      modifies this`messageEncrypter, this`writeSeq, this`encryptState, this`installed
      ensures Valid() && installed == old(installed) + {cipher}
      ensures messageEncrypter == cipher && writeSeq == 0 && encryptState == Prepared
    {
      messageEncrypter, writeSeq, encryptState := cipher, 0, Prepared;
      installed := installed + {cipher};
    }

    method PrepareMessageDecrypter(cipher: Cipher)
      requires Valid()
      modifies this`messageDecrypter, this`readSeq, this`decryptState
      ensures Valid()
      ensures messageDecrypter == cipher && readSeq == 0 && decryptState == Prepared
    {
      messageDecrypter, readSeq, decryptState := cipher, 0, Prepared;
    }

    method StartEncrypting()
      requires Valid() && encryptState == Prepared
      modifies this`encryptState
      ensures Valid() && encryptState == Active
    {
      encryptState := Active;
    }

    method StartDecrypting()
      requires Valid() && decryptState == Prepared
      modifies this`decryptState
      ensures Valid() && decryptState == Active
    {
      decryptState := Active;
    }

    method SetMessageEncrypter(cipher: Cipher)
      requires Valid() && cipher !in installed
      modifies this`messageEncrypter, this`writeSeq, this`encryptState, this`installed
      ensures Valid() && installed == old(installed) + {cipher}
      ensures messageEncrypter == cipher && writeSeq == 0 && encryptState == Active
    {
      PrepareMessageEncrypter(cipher);
      StartEncrypting();
    }

    method SetMessageDecrypter(cipher: Cipher)
      requires Valid()
      modifies this`messageDecrypter, this`readSeq, this`decryptState, this`trialDecryptionLen
      ensures Valid() && messageDecrypter == cipher && readSeq == 0 && decryptState == Active
      ensures trialDecryptionLen == None
    {
      PrepareMessageDecrypter(cipher);
      StartDecrypting();
      trialDecryptionLen := None;
    }

    method SetMessageDecrypterWithTrialDecryption(cipher: Cipher, maxLength: nat)
      requires Valid()
      modifies this`messageDecrypter, this`readSeq, this`decryptState
      modifies this`trialDecryptionLen, this`trialGranted, this`trialDropped
      ensures Valid() && messageDecrypter == cipher && readSeq == 0 && decryptState == Active
      ensures trialDecryptionLen == Some(maxLength) && trialGranted == maxLength && trialDropped == 0
    {
      PrepareMessageDecrypter(cipher);
      StartDecrypting();
      trialDecryptionLen, trialGranted, trialDropped := Some(maxLength), maxLength, 0;
    }

    method FinishTrialDecryption()
      requires Valid()
      modifies this`trialDecryptionLen
      ensures Valid() && trialDecryptionLen == None
    {
      trialDecryptionLen := None;
    }

    predicate WantsCloseBeforeEncrypt()
      reads this`writeSeq
    {
      writeSeq == SEQ_SOFT_LIMIT
    }

    predicate EncryptExhausted()
      reads this`writeSeq
    {
      writeSeq >= SEQ_HARD_LIMIT
    }

    predicate IsEncrypting()
      reads this`encryptState
    {
      encryptState == Active
    }

    method DoingTrialDecryption(requested: nat) returns (doing: bool)
      requires Valid()
      modifies this`trialDecryptionLen, this`trialDropped
      ensures Valid()
      ensures doing <==> old(trialDecryptionLen).Some? && requested <= old(trialDecryptionLen).value
      ensures trialDecryptionLen ==
        if doing then Some(old(trialDecryptionLen).value - requested) else old(trialDecryptionLen)
      ensures trialDropped == old(trialDropped) + if doing then requested else 0
    {
      doing := trialDecryptionLen.Some? && requested <= trialDecryptionLen.value;
      if doing {
        trialDecryptionLen := Some(trialDecryptionLen.value - requested);
        trialDropped := trialDropped + requested;
      }
    }
  }
}
