/**
 * The `EthWallet` object, whose fields its methods fill one after another, and
 * the fixed order in which the program calls them.
 */
module Wallet {
  import opened Wrappers
  import opened Bytes
  import opened Crypto
  import opened Keys
  import opened Keystore

  class EthWallet {
    /** The secp256k1 generator and the hash, KDF and cipher libraries. */
    const primitives: Primitives

    var privateKeyBuffer: seq<byte>
    var privateKeyString: string
    var publicKeyBuffer: seq<byte>
    var publicKeyString: string
    var sha3Hash: string
    var ethAddress: string
    var userPassword: string

    /** Every field starts out empty. */
    constructor (primitives: Primitives)
      ensures this.primitives == primitives
      ensures privateKeyBuffer == [] && privateKeyString == ""
      ensures publicKeyBuffer == [] && publicKeyString == ""
      ensures sha3Hash == "" && ethAddress == "" && userPassword == ""
    {
      this.primitives := primitives;
      privateKeyBuffer, privateKeyString := [], "";
      publicKeyBuffer, publicKeyString := [], "";
      sha3Hash, ethAddress, userPassword := "", "", "";
    }

    /** The prompt's callback: the answer becomes the password. */
    method PromptUserForPassword(answer: string)
      modifies this`userPassword
      ensures userPassword == answer
    {
      userPassword := answer;
    }

    /** `randomBytes` is what `crypto.randomBytes(32)` returned. */
    method GetPrivateKey(randomBytes: Bytes32)
      modifies this`privateKeyBuffer, this`privateKeyString
      ensures privateKeyBuffer == randomBytes
      ensures privateKeyString == Hex(randomBytes) && |privateKeyString| == 64
    {
      privateKeyBuffer := randomBytes;
      privateKeyString := Hex(privateKeyBuffer);
    }

    /** The public key is the x bytes followed by the y bytes of priv * G, at most 64 bytes. */
    method GetPublicKey()
      modifies this`publicKeyBuffer, this`publicKeyString
      ensures var pt := PubPoint(primitives, privateKeyBuffer);
              && publicKeyBuffer == pt.x + pt.y
              && |publicKeyBuffer| <= 64
      ensures publicKeyString == Hex(publicKeyBuffer) && |publicKeyString| == 2 * |publicKeyBuffer|
    {
      var pubPoint := PubPoint(primitives, privateKeyBuffer);
      var x := pubPoint.x;
      var y := pubPoint.y;
      publicKeyBuffer := PublicKeyBytes(Point(x, y));
      publicKeyString := Hex(publicKeyBuffer);
    }

    /** The address is "0x" and the hex of the last 20 bytes of Keccak-256 of the public key. */
    method GetEthAddress()
      modifies this`sha3Hash, this`ethAddress
      ensures sha3Hash == Hex(Keccak256(primitives, publicKeyBuffer))
      ensures ethAddress == EthAddress(sha3Hash)
      ensures ethAddress == "0x" + Hex(Keccak256(primitives, publicKeyBuffer)[12..])
      ensures |ethAddress| == 42
    {
      sha3Hash := Sha3Hash(primitives, publicKeyBuffer);
      ethAddress := EthAddress(sha3Hash);
      AddressForm(primitives, publicKeyBuffer);
    }

    /**
     * Builds the keystore record from the key, the password and the address, with
     * `salt`, `iv` and `id` standing for the two `crypto.randomBytes` calls and `uuidv4`.
     */
    method GetKeystoreFile(salt: Bytes32, iv: Bytes16, id: string) returns (keystore: KeystoreFile)
      ensures keystore == BuildKeystore(primitives, privateKeyBuffer, userPassword, ethAddress, salt, iv, id)
      ensures Decrypt(primitives, keystore, userPassword) == Success(privateKeyBuffer)
      ensures keystore.address == SliceBack(ethAddress, 40)
    {
      keystore := BuildKeystore(primitives, privateKeyBuffer, userPassword, ethAddress, salt, iv, id);
      DecryptRoundTrip(primitives, privateKeyBuffer, userPassword, ethAddress, salt, iv, id);
    }
  }

  /** What the chain of steps yields, stated on the functions the steps compute. */
  lemma PipelineFacts(
    primitives: Primitives, answer: string, randomKey: Bytes32,
    salt: Bytes32, iv: Bytes16, id: string, ethAddress: string, keystore: KeystoreFile)
    requires ethAddress == EthAddress(Sha3Hash(primitives, PublicKeyBytes(PubPoint(primitives, randomKey))))
    requires keystore == BuildKeystore(primitives, randomKey, answer, ethAddress, salt, iv, id)
    ensures var pub := PublicKeyBytes(PubPoint(primitives, randomKey));
            ethAddress == "0x" + Hex(Keccak256(primitives, pub)[12..])
    ensures |ethAddress| == 42 && keystore.address == ethAddress[2..]
    ensures IsV3Shape(keystore)
    ensures Decrypt(primitives, keystore, answer) == Success(randomKey)
  {
    var pub := PublicKeyBytes(PubPoint(primitives, randomKey));
    AddressForm(primitives, pub);
    KeystoreAddress(primitives, pub, randomKey, answer, salt, iv, id);
    KeystoreShape(primitives, pub, randomKey, answer, salt, iv, id);
    DecryptRoundTrip(primitives, randomKey, answer, ethAddress, salt, iv, id);
  }

  /**
   * The program's promise chain: prompt, private key, public key, address, then the
   * keystore (the QR codes and identicon in between only read the address and key).
   * The random inputs and the typed password are parameters.
   */
  method GenerateWallet(
    primitives: Primitives, answer: string, randomKey: Bytes32,
    salt: Bytes32, iv: Bytes16, id: string)
    returns (ethAddress: string, keystore: KeystoreFile)
    ensures var pub := PublicKeyBytes(PubPoint(primitives, randomKey));
            ethAddress == "0x" + Hex(Keccak256(primitives, pub)[12..])
    ensures |ethAddress| == 42 && keystore.address == ethAddress[2..]
    ensures IsV3Shape(keystore)
    ensures Decrypt(primitives, keystore, answer) == Success(randomKey)
  {
    var wallet := new EthWallet(primitives);
    wallet.PromptUserForPassword(answer);
    wallet.GetPrivateKey(randomKey);
    wallet.GetPublicKey();
    ghost var pub := wallet.publicKeyBuffer;
    assert pub == PublicKeyBytes(PubPoint(primitives, randomKey));
    wallet.GetEthAddress();
    ethAddress := wallet.ethAddress;
    assert ethAddress == EthAddress(Sha3Hash(primitives, pub));
    assert wallet.privateKeyBuffer == randomKey && wallet.userPassword == answer;
    keystore := wallet.GetKeystoreFile(salt, iv, id);
    assert keystore == BuildKeystore(primitives, randomKey, answer, ethAddress, salt, iv, id);
    PipelineFacts(primitives, answer, randomKey, salt, iv, id, ethAddress, keystore);
  }
}
