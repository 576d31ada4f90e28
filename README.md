# Ethereum wallet generator: key layout and keystore assembly

This project models the core of a small Node.js program that generates one Ethereum
wallet. The program draws a random 32-byte private key. It computes the secp256k1
public point and lays out its coordinates as the public key. It cuts the address out
of the Keccak-256 digest of that key. It then writes a password-encrypted keystore
record in the version-3 format of the Web3 Secret Storage Definition: scrypt key
derivation, AES-128-CTR encryption and a Keccak-256 MAC.

The cryptographic libraries are not modelled. Keccak-256, scrypt, the elliptic-curve
multiplication and the AES-128 block cipher are fields of the datatype
`Crypto.Primitives`, each of function type. The only thing known about them is the
length each returns, carried by subset types: a 32-byte `Digest`, `dklen` bytes from
scrypt, at most 32 bytes per unpadded coordinate, and `len` bytes of keystream.
Counter mode itself is modelled: it is the data XOR the keystream (section 6.5 of
NIST SP 800-38A). Every lemma therefore holds for every implementation of the
primitives. Hex encoding is concrete, lowercase, two characters per byte, with a
decoder proved to be its exact inverse.

Modules:

- `Wrappers` (wrappers.dfy): `Option` and `Result`.
- `Bytes` (bytes.dfy): bytes, `Hex`/`FromHex`, bit-wise XOR, and JavaScript's
  `slice(-k)` as `SliceBack`.
- `Crypto` (crypto.dfy): the abstract primitives and counter-mode `update`/`final`.
- `Keys` (keys.dfy): the public-key layout and the address (`GetPublicKey`,
  `GetEthAddress`).
- `Keystore` (keystore.dfy): the record datatype, the steps of `GetKeystoreFile` as
  functions, and `Decrypt`, a reader that follows the version-3 definition. `Decrypt`
  is not in the program. It is the partner the record is proved against.
- `Wallet` (wallet.dfy): the `EthWallet` class, whose methods fill its fields in
  order, and `GenerateWallet`, the program's promise chain.

In three places the code does less than a wallet generator is usually expected to do.
The model follows the code:

- The coordinates are not padded. `toBuffer()` is called without a length, so a
  coordinate with leading zero bytes is shorter than 32 bytes. The public key is then
  shorter than 64 bytes, so the bytes hashed for the address differ from the
  standard 64-byte key, and the address differs from the standard one unless
  Keccak-256 happens to collide on the two inputs.
  `Keys.PublicKeyIsStandardIff` states exactly when the two layouts agree.
- The private scalar is never range-checked against the secp256k1 order. The model
  adds no such check.
- There is no error handling, no batch generation and no key import in the code, so
  the model has none either.

## Model

| member | source | states |
|---|---|---|
| `Bytes.Hex` | src/main.js:43 | `toString("hex")` gives two characters per byte |
| `Bytes.HexRoundTrip` | src/main.js:95-98 | decoding a string gives these bytes exactly when the string is their hex: a bijection onto lowercase hex |
| `Bytes.HexSuffix` | src/main.js:60 | dropping the first 2k hex characters is the hex of the bytes after the first k |
| `Bytes.SliceBack` | src/main.js:60 | `slice(-k)` returns the last min(k, length) characters for k >= 1 and the whole string for k = 0 (since -0 is 0); the result is always a suffix of the string |
| `Crypto.CtrUpdate` | src/main.js:86-87 | CTR update output has the input's length, and XOR-ing it with the same keystream gives the input back |
| `Crypto.CtrTwice` | src/main.js:86-89 | encrypting the ciphertext again under the same key and iv returns the plaintext |
| `Keys.PublicKeyBytes` | src/main.js:49-52 | the public key is the x bytes followed by the y bytes, of length \|x\|+\|y\| <= 64 |
| `Keys.PublicKeyIsStandardIff` | src/main.js:50-52 | the unpadded key equals the 64-byte padded key exactly when both coordinates are 32 bytes long |
| `Keys.Sha3Hash` | src/main.js:59 | the stored hash is 64 hex characters that decode to the Keccak-256 digest of the public key |
| `Keys.EthAddressOfHash` | src/main.js:60 | for any 64-character hex hash string, the address is 42 characters starting with `"0x"`, and the rest decodes to the last 20 bytes of the digest the string encodes |
| `Keys.AddressForm` | src/main.js:59-60 | the address is `"0x"` plus the hex of digest bytes 12..32; it is 42 characters, and its tail decodes to those 20 bytes |
| `Keys.SameAddressIff` | src/main.js:59-60 | two public keys get the same address exactly when their digests agree on the last 20 bytes |
| `Keystore.DeriveKey` | src/main.js:84 | the 32-byte scrypt key; the salt and parameters stored in the record's `kdfparams`, with the salt decoded from hex, give back the same key |
| `Keystore.EncryptionKey` | src/main.js:86 | the AES key is 16 bytes and, followed by the MAC key, makes up the derived key: the two halves split it without overlap or gap |
| `Keystore.MacKey` | src/main.js:91-93 | scrypt output bytes [16,32) are the MAC key: 16 bytes that follow the first 16 and complete the derived key |
| `Keystore.Encrypt` | src/main.js:86-89 | the ciphertext (update ++ final, where `final()` at line 88 adds no bytes in counter mode) is as long as the private key and CTR-decrypts back to it under the AES half of the derived key |
| `Keystore.Mac` | src/main.js:91-93 | the MAC is Keccak-256 over the MAC key followed by the ciphertext and depends on the derived key only through its MAC half; `Keystore.DecryptRoundTrip` proves this order agrees with the reader's independent check over `dk[16..32] ++ ciphertext` |
| `Keystore.BuildKeystore` | src/main.js:80-120 | the record has version 3, the given id, cipher `aes-128-ctr`, kdf `scrypt` and kdfparams dklen 32, n 8192, r 8, p 1 |
| `Keystore.Decrypt` | src/main.js:100-119 | a reader of the record written here: whatever it accepts carries a ciphertext that decodes, and the plaintext it returns has the ciphertext's length |
| `Keystore.KeystoreHexFields` | src/main.js:95-98 | ciphertext hex is twice the key length, iv 32, salt 64 and mac 64 characters, and each decodes to its source bytes: the ciphertext, iv, salt and Keccak-256(MAC key ++ ciphertext) |
| `Keystore.KeystoreAddress` | src/main.js:103 | the record's address is the wallet address without `"0x"`: 40 characters decoding to digest bytes 12..32 |
| `Keystore.KeystoreShape` | src/main.js:100-119 | with a 32-byte key and a derived address, the record has the version-3 shape: constants, field lengths and hex fields |
| `Keystore.DecryptRoundTrip` | src/main.js:82-119 | the record decrypts with its password to exactly the private key, after the MAC check passes |
| `Keystore.TamperedCiphertextDetected` | src/main.js:91-93 | a record with a replaced ciphertext is accepted only if Keccak-256(MAC key ++ forged) equals Keccak-256(MAC key ++ ciphertext) |
| `Keystore.WrongPasswordDetected` | src/main.js:84-93 | with another password the record is accepted only if that password's MAC key gives the same MAC over the ciphertext |
| `Wallet.EthWallet.constructor` | src/main.js:12-20 | every wallet field starts empty; the primitives are the given ones |
| `Wallet.EthWallet.PromptUserForPassword` | src/main.js:33-34 | the typed answer becomes the password; nothing else changes |
| `Wallet.EthWallet.GetPrivateKey` | src/main.js:40-45 | the key is the 32 random bytes and its string is their 64-character hex; only those two fields change |
| `Wallet.EthWallet.GetPublicKey` | src/main.js:47-55 | the public key is x ++ y of priv * G (at most 64 bytes) and its string is its hex; only those two fields change |
| `Wallet.EthWallet.GetEthAddress` | src/main.js:57-62 | the hash is the hex digest of the public key and the address is `"0x"` plus the hex of its last 20 bytes (42 characters); only those two fields change |
| `Wallet.EthWallet.GetKeystoreFile` | src/main.js:80-125 | the record built from the key, password and address decrypts with that password to the private key, and its address is the last 40 characters of the wallet address |
| `Wallet.GenerateWallet` | src/main.js:135-144 | run in the program's order, the steps give a 42-character address derived from the random key, a version-3 record with that address minus `"0x"`, and the record decrypts with the typed password to the random key |

## Left out

- The cryptographic libraries (`elliptic`, `js-sha3`, `ethereumjs-util`, `scryptsy`, the AES block cipher in Node's `crypto`) are abstract functions. Only their output lengths are known, because they are foreign code.
- Random bytes and `uuidv4` are nondeterministic. The private key, salt, iv and record id are method parameters. The UUID formatting of the id is library code.
- The password prompt (`readline`) is interactive I/O. Only the callback's assignment of the answer is modelled.
- The QR images (`GetQrCodes`) and the identicon (`GetIdenticon`) are image encoders writing to the filesystem. They only read the address and the private-key string.
- Creating `./wallets`, writing `wallet.json`, the `JSON.stringify` layout and `Display` are file and console output. The record is a datatype, not JSON text.
- The promise chain is strictly sequential, so it is modelled as ordered method calls.
- The elliptic library fails for a scalar that is zero modulo the curve order (the point at infinity has no coordinates). The model's point function is total, so that failure is not modelled. The program has no check for it either.
- Parameter validation inside scrypt (a failure on inconsistent parameters) is not modelled. The program passes fixed, valid constants and catches no error.
- The reader `Decrypt` is a reference following the version-3 definition, not code of the program; it checks only the fields the program writes.
