// The cryptographic operations as symbolic constructors: a sealed text opens under
// the very key and context it was sealed with and under no other, two derived keys
// are equal only when everything they were derived from is, and the randomness never
// repeats a name (internal/crypto/aead.go, argon2.go, escrow.go).
module SymbolicCrypto {

  datatype Option<T> = None | Some(value: T)

  type Password = string
  type Params = nat

  const MIN_PASSWORD_LENGTH: nat := 10
  const MIN_MASTER_PASSWORD_LENGTH: nat := 16

  // One per use of a key, as the additional authenticated data tells them apart.
  datatype Context = DekContext | EscrowPrivateContext | EscrowDekContext(ephemeral: nat) | SecretsContext

  datatype Key =
    | Fresh(name: nat)
    | Derived(password: Password, salt: nat, params: Params)
    | Agreed(low: nat, high: nat, salt: nat)

  datatype Plain = KeyPlain(key: Key) | PrivatePlain(pair: nat) | BlobPlain(text: string)

  datatype Sealed = Sealed(key: Key, plain: Plain, context: Context)

  function Open(key: Key, box: Sealed, context: Context): Option<Plain> {
    if box.key == key && box.context == context then Some(box.plain) else None
  }

  function WrapDEK(kek: Key, dek: Key): Sealed {
    Sealed(kek, KeyPlain(dek), DekContext)
  }

  function UnwrapDEK(kek: Key, wrapped: Sealed): Option<Key> {
    match Open(kek, wrapped, DekContext)
    case Some(KeyPlain(dek)) => Some(dek)
    case _ => None
  }

  datatype PasswordHash = PasswordHash(params: Params, salt: nat, hash: Key) {
    predicate Verify(password: Password) {
      Derived(password, salt, params) == hash
    }
  }

  function HashPassword(password: Password, params: Params, salt: nat): PasswordHash {
    PasswordHash(params, salt, Derived(password, salt, params))
  }

  /* ---- The deposit scheme ---- */

  // The shared secret is the same from either side of the agreement.
  function Agree(private: nat, public: nat, ephemeral: nat): Key {
    if private <= public then Agreed(private, public, ephemeral) else Agreed(public, private, ephemeral)
  }

  // A deposited copy: the ephemeral public key, then the ciphertext.
  datatype Copy = Copy(ephemeral: nat, box: Sealed)

  datatype Escrow = Escrow(public: nat, sealedKey: Sealed, masterSalt: nat, params: Params)

  datatype EscrowError = WrongMaster | TooShort | NoDecrypt

  datatype Result<T, E> = Ok(value: T) | Err(error: E)

  function SealPrivate(pair: nat, master: Password, salt: nat, params: Params): Sealed {
    Sealed(Derived(master, salt, params), PrivatePlain(pair), EscrowPrivateContext)
  }

  function NewEscrow(master: Password, params: Params, pair: nat, salt: nat): Result<Escrow, EscrowError> {
    if |master| < MIN_MASTER_PASSWORD_LENGTH then Err(TooShort)
    else Ok(Escrow(pair, SealPrivate(pair, master, salt, params), salt, params))
  }

  function UnwrapPrivate(e: Escrow, master: Password): Result<nat, EscrowError> {
    match Open(Derived(master, e.masterSalt, e.params), e.sealedKey, EscrowPrivateContext)
    case Some(PrivatePlain(pair)) => Ok(pair)
    case _ => Err(WrongMaster)
  }

  function ChangeMasterPassword(e: Escrow, current: Password, next: Password, salt: nat): Result<Escrow, EscrowError> {
    if |next| < MIN_MASTER_PASSWORD_LENGTH then Err(TooShort)
    else match UnwrapPrivate(e, current)
      case Err(error) => Err(error)
      case Ok(pair) => Ok(e.(sealedKey := SealPrivate(pair, next, salt, e.params), masterSalt := salt))
  }

  function SealDEK(e: Escrow, dek: Key, ephemeral: nat): Copy {
    Copy(ephemeral, Sealed(Agree(ephemeral, e.public, ephemeral), KeyPlain(dek), EscrowDekContext(ephemeral)))
  }

  function RecoverDEK(e: Escrow, master: Password, copy: Copy): Result<Key, EscrowError> {
    match UnwrapPrivate(e, master)
    case Err(error) => Err(error)
    case Ok(private) =>
      match Open(Agree(private, copy.ephemeral, copy.ephemeral), copy.box, EscrowDekContext(copy.ephemeral))
      case Some(KeyPlain(dek)) => Ok(dek)
      case _ => Err(NoDecrypt)
  }

  // The pair is intact and `master` is its password.
  ghost predicate OpensWith(e: Escrow, master: Password) {
    e.sealedKey == SealPrivate(e.public, master, e.masterSalt, e.params)
  }

  lemma MasterIsTheOnlyWay(e: Escrow, master: Password, tried: Password)
    requires OpensWith(e, master)
    ensures UnwrapPrivate(e, tried) == if tried == master then Ok(e.public) else Err(WrongMaster)
  {
  }

  // What is deposited comes back with the master password, and with no other.
  lemma RecoveryIsExact(e: Escrow, master: Password, dek: Key, ephemeral: nat, tried: Password)
    requires OpensWith(e, master)
    ensures RecoverDEK(e, tried, SealDEK(e, dek, ephemeral)) == if tried == master then Ok(dek) else Err(WrongMaster)
  {
  }

  // A new master password does not touch the copies: each one opens to the same key.
  lemma MasterChangeKeepsCopies(e: Escrow, master: Password, next: Password, salt: nat, copy: Copy)
    requires OpensWith(e, master) && |next| >= MIN_MASTER_PASSWORD_LENGTH
    ensures ChangeMasterPassword(e, master, next, salt).Ok?
    ensures var f := ChangeMasterPassword(e, master, next, salt).value;
            OpensWith(f, next) && RecoverDEK(f, next, copy) == RecoverDEK(e, master, copy)
  {
  }
}
