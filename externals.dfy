/** Option, the "no result" value the wallet and the transport return. */
module Wrappers {
  datatype Option<+T> = None | Some(value: T)
}

/**
  Values and primitives the core uses but does not define. Each primitive is a
  constant without a definition: the model knows its type and nothing else, so
  every property proved below holds whatever hash, codec or signature scheme is
  plugged in.
 */
module Externals {
  import opened Wrappers

  newtype Byte = b: int | 0 <= b < 256

  /** A JSON value; Python dicts become objects, lists become lists. */
  datatype Json =
    | JNull
    | JBool(flag: bool)
    | JInt(number: int)
    | JStr(text: string)
    | JList(items: seq<Json>)
    | JObject(fields: map<string, Json>)

  /** `hashlib.sha256(s.encode()).hexdigest()` */
  const Sha256Hex: string -> string

  /** `json.dumps(v, sort_keys = sortKeys)` */
  const Dumps: (Json, bool) -> string

  /** `json.loads(s)`; None where it raises JSONDecodeError. */
  const Loads: string -> Option<Json>

  /** `s.encode(MESSAGE_ENCODING)` */
  const Encode: string -> seq<Byte>

  /** `b.decode(MESSAGE_ENCODING)`; None where it raises UnicodeDecodeError. */
  const Decode: seq<Byte> -> Option<string>

  /** ECDSA keys of the `ellipticcurve` package. */
  type PrivateKey(==, 0, !new)
  type PublicKey(==, 0, !new)

  /** `private_key.publicKey()` */
  const PublicKeyOf: PrivateKey -> PublicKey

  /** `public_key.toString()`: the address form of a key. */
  const KeyString: PublicKey -> string

  /**
    `Ecdsa.sign(message, key)._toString()`. The library draws a fresh random
    nonce for every signature; the nonce is the third argument.
   */
  const Sign: (string, PrivateKey, nat) -> string

  /** `Ecdsa.verify(message, Signature._fromString(signature), key)` */
  const Verify: (string, string, PublicKey) -> bool

  /** ECDSA is correct: a signature made with a key verifies under its public key. */
  ghost predicate SignaturesVerify()
  {
    forall message, key, nonce :: Verify(message, Sign(message, key, nonce), PublicKeyOf(key))
  }
}

/** The values of blockchain/constants.py and p2p/constants.py, which are not part of this model. */
module Constants {
  import opened Externals

  const GENESIS_BLOCK_INDEX: int
  const OWNER_ADDRESS: string
  const OWNER_INIT_AMOUNT: int
  const CHAIN_ADDRESS: string
  /** The one reserved byte that ends every message on the wire. */
  const END_OF_MESSAGE: Byte
}
