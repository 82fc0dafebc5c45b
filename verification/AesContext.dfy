/** AES_ctx: the expanded key and the vector, and the buffer functions on them. */
module AesContext {
  import opened AesCipher
  import opened AesChain
  import opened AesCounter
  import opened AesModes
  import AesKeys

  class Context {
    const RoundKey: array<bv8>
    const Iv: array<bv8>

    /** The block cipher that RoundKey stands for, and its inverse. */
    ghost var cipher: Bytes -> Bytes
    ghost var inverse: Bytes -> Bytes

    ghost predicate Valid()
      reads this, RoundKey
    {
      Iv.Length == 16 && RoundKey != Iv && CiphersOf(cipher, inverse, RoundKey[..])
    }

    /** A buffer of the caller's. */
    ghost predicate Apart(b: array<bv8>) {
      b != RoundKey && b != Iv
    }

    /** AES_init_ctx_iv */
    constructor (key: array<bv8>, iv: array<bv8>)
      requires key.Length == 16 && iv.Length == 16
      ensures Valid() && fresh(RoundKey) && fresh(Iv)
      ensures AesKeys.Expanded(RoundKey[..], key[..], 44) && Iv[..] == iv[..]
    {
      RoundKey := new bv8[KEYEXPSIZE];
      Iv := new bv8[16];
      new;
      AesKeys.KeyExpansion(RoundKey, key);
      CopyBlock(Iv, iv, 0);
      assert iv[0..16] == iv[..];
      cipher, inverse := EverySchedule(RoundKey[..]);
    }

    /** AES_ctx_set_iv */
    method SetIv(iv: array<bv8>)
      requires Valid() && iv.Length == 16
      modifies Iv
      ensures Iv[..] == old(iv[..])
    {
      CopyBlock(Iv, iv, 0);
      assert iv[0..16] == iv[..];
    }

    /** AES_CBC_encrypt_buffer */
    method CbcEncryptBuffer(b: array<bv8>, length: nat)
      requires Valid() && Apart(b) && Whole(length) <= b.Length
      modifies b, Iv
      ensures b[..Whole(length)] == Chained(old(Iv[..]), old(b[..Whole(length)]), cipher)
      ensures b[Whole(length)..] == old(b[Whole(length)..])
      ensures Iv[..] == Before(old(Iv[..]), b[..Whole(length)], Whole(length) / 16)
      ensures Valid()
    {
      CbcEncrypt(b, length, Iv, RoundKey, cipher);
    }

    /** AES_CBC_decrypt_buffer */
    method CbcDecryptBuffer(b: array<bv8>, length: nat)
      requires Valid() && Apart(b) && Whole(length) <= b.Length
      modifies b, Iv
      ensures b[..Whole(length)] == Unchained(old(Iv[..]), old(b[..Whole(length)]), inverse)
      ensures b[Whole(length)..] == old(b[Whole(length)..])
      ensures Iv[..] == Before(old(Iv[..]), old(b[..Whole(length)]), Whole(length) / 16)
      ensures Valid()
    {
      CbcDecrypt(b, length, Iv, RoundKey, inverse);
    }

    /** AES_CTR_xcrypt_buffer */
    method CtrXcryptBuffer(b: array<bv8>, length: nat)
      requires Valid() && Apart(b) && length <= b.Length
      modifies b, Iv
      ensures b[..length] == Masked(old(Iv[..]), old(b[..length]), cipher)
      ensures b[length..] == old(b[length..])
      ensures Iv[..] == Counter(old(Iv[..]), (length + 15) / 16)
      ensures Valid()
    {
      CtrXcrypt(b, length, Iv, RoundKey, cipher);
    }
  }
}
