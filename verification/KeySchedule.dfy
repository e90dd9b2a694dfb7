// What the stored accounts promise about keys, as a property of values: the invariant
// that ties a password to one data key, that key to the sealed secrets, and the
// deposited copy to the same key (internal/store/users.go, escrow.go, register.go).
module KeySchedule {
  import opened SymbolicCrypto

  datatype Role = UserRole | AdminRole

  datatype User = User(
    id: nat, login: string, email: string, role: Role, disabled: bool, mustChange: bool, unconfirmed: bool,
    auth: Option<PasswordHash>, kekSalt: nat, kekParams: Params, wrapped: Sealed,
    copy: Option<Copy>, secrets: Option<Sealed>,
    pendingEmail: string, token: Option<nat>, tokenExpires: int)

  datatype EscrowSettings = EscrowSettings(enabled: bool, config: Option<Escrow>) {
    predicate Active() {
      enabled && config.Some?
    }
  }

  datatype State = State(users: seq<User>, escrow: EscrowSettings, selfRegistration: bool)

  datatype Options = Options(auth: Params, kek: Params, master: Params)

  // What is true but stored nowhere: each account's password and data key, the escrow
  // master password, and the data keys that were ever handed to a session.
  datatype Truth = Truth(passwords: map<nat, Password>, deks: map<nat, Key>, master: Password, issued: set<Key>)

  ghost predicate CredentialsOk(u: User, password: Password, dek: Key) {
    && u.auth.Some? && u.auth.value.hash == Derived(password, u.auth.value.salt, u.auth.value.params)
    && u.wrapped == WrapDEK(Derived(password, u.kekSalt, u.kekParams), dek)
    && u.auth.value.salt != u.kekSalt
  }

  ghost predicate SecretsOk(secrets: Option<Sealed>, dek: Key) {
    secrets.Some? ==> exists text :: Open(dek, secrets.value, SecretsContext) == Some(BlobPlain(text))
  }

  ghost predicate CopyOk(copy: Option<Copy>, dek: Key, config: Option<Escrow>, master: Password) {
    copy.Some? ==> config.Some? && RecoverDEK(config.value, master, copy.value) == Ok(dek)
  }

  ghost predicate UserOk(u: User, t: Truth, config: Option<Escrow>, drawn: nat) {
    && u.id in t.passwords && u.id in t.deks && u.id < drawn
    && CredentialsOk(u, t.passwords[u.id], t.deks[u.id])
    && SecretsOk(u.secrets, t.deks[u.id]) && CopyOk(u.copy, t.deks[u.id], config, t.master)
    && t.deks[u.id].Fresh? && t.deks[u.id].name < drawn
    && (u.unconfirmed ==> u.secrets == None && t.deks[u.id] !in t.issued)
  }

  ghost predicate Different(u: User, w: User, t: Truth) {
    u.id != w.id && u.login != w.login && (u.id in t.deks && w.id in t.deks ==> t.deks[u.id] != t.deks[w.id])
  }

  ghost predicate UsersOk(users: seq<User>, t: Truth, config: Option<Escrow>, drawn: nat) {
    && (forall i {:trigger UserOk(users[i], t, config, drawn)} :: 0 <= i < |users| ==> UserOk(users[i], t, config, drawn))
    && (forall i, j {:trigger Different(users[i], users[j], t)} :: 0 <= i < |users| && 0 <= j < |users| && i != j ==> Different(users[i], users[j], t))
  }

  ghost predicate EscrowOk(config: Option<Escrow>, master: Password) {
    config.Some? ==> OpensWith(config.value, master)
  }

  ghost predicate Sound(s: State, t: Truth, drawn: nat) {
    && UsersOk(s.users, t, s.escrow.config, drawn) && EscrowOk(s.escrow.config, t.master)
    && forall k :: k in t.issued ==> k.Fresh? && k.name < drawn
  }

  /* ---- Looking accounts up ---- */

  ghost predicate HasId(users: seq<User>, id: nat) {
    exists i :: 0 <= i < |users| && users[i].id == id
  }

  ghost predicate HasLogin(users: seq<User>, login: string) {
    exists i :: 0 <= i < |users| && users[i].login == login
  }

  predicate IsActiveAdmin(u: User) {
    u.role == AdminRole && !u.disabled && !u.unconfirmed
  }

  ghost predicate HasActiveAdmin(users: seq<User>) {
    exists i :: 0 <= i < |users| && IsActiveAdmin(users[i])
  }

  /* ---- Changing one account ---- */

  lemma OneUserOk(users: seq<User>, t: Truth, config: Option<Escrow>, drawn: nat, i: nat)
    requires UsersOk(users, t, config, drawn) && i < |users|
    ensures UserOk(users[i], t, config, drawn)
  {
  }

  // The record at `i` is rewritten and the truth moves only about that account.
  ghost predicate MovesOnly(t: Truth, t': Truth, id: nat) {
    && t'.master == t.master && t'.issued == t.issued
    && (forall x :: x != id && x in t.passwords ==> x in t'.passwords && t'.passwords[x] == t.passwords[x])
    && (forall x :: x != id && x in t.deks ==> x in t'.deks && t'.deks[x] == t.deks[x])
  }

  ghost predicate KeyKeptOrNew(t: Truth, t': Truth, id: nat, drawn: nat) {
    && id in t'.deks
    && ((id in t.deks && t'.deks[id] == t.deks[id]) || (t'.deks[id].Fresh? && t'.deks[id].name >= drawn))
  }

  lemma OtherUserOk(u: User, t: Truth, t': Truth, id: nat, config: Option<Escrow>, drawn: nat, drawn': nat)
    requires UserOk(u, t, config, drawn) && MovesOnly(t, t', id) && u.id != id && drawn <= drawn'
    ensures UserOk(u, t', config, drawn') && t'.deks[u.id] == t.deks[u.id]
  {
  }

  lemma Rewritten(users: seq<User>, t: Truth, t': Truth, config: Option<Escrow>, drawn: nat, drawn': nat, i: nat, u: User)
    requires UsersOk(users, t, config, drawn) && i < |users| && drawn <= drawn'
    requires u.id == users[i].id && u.login == users[i].login && MovesOnly(t, t', u.id) && UserOk(u, t', config, drawn')
    requires KeyKeptOrNew(t, t', u.id, drawn)
    ensures UsersOk(users[i := u], t', config, drawn')
  {
    var users' := users[i := u];
    forall j | 0 <= j < |users|
      ensures UserOk(users'[j], t', config, drawn') && (j != i ==> users[j].id in t.deks && t'.deks[users[j].id] == t.deks[users[j].id])
    {
      assert UserOk(users[j], t, config, drawn);
      if j != i {
        assert Different(users[i], users[j], t);
        OtherUserOk(users[j], t, t', u.id, config, drawn, drawn');
      }
    }
    forall j, k | 0 <= j < |users| && 0 <= k < |users| && j != k
      ensures Different(users'[j], users'[k], t')
    {
      assert Different(users[j], users[k], t) && UserOk(users[j], t, config, drawn) && UserOk(users[k], t, config, drawn);
    }
  }

  lemma Added(users: seq<User>, t: Truth, t': Truth, config: Option<Escrow>, drawn: nat, drawn': nat, u: User)
    requires UsersOk(users, t, config, drawn) && drawn <= u.id < drawn' && !HasLogin(users, u.login)
    requires MovesOnly(t, t', u.id) && UserOk(u, t', config, drawn')
    requires t'.deks[u.id].name >= drawn
    ensures UsersOk(users + [u], t', config, drawn')
  {
    var users' := users + [u];
    forall j | 0 <= j < |users'|
      ensures UserOk(users'[j], t', config, drawn') && (j < |users| ==> users[j].id in t.deks && t'.deks[users[j].id] == t.deks[users[j].id])
    {
      if j < |users| {
        assert UserOk(users[j], t, config, drawn);
        OtherUserOk(users[j], t, t', u.id, config, drawn, drawn');
      }
    }
    forall j, k | 0 <= j < |users'| && 0 <= k < |users'| && j != k
      ensures Different(users'[j], users'[k], t')
    {
      if j < |users| && k < |users| {
        assert Different(users[j], users[k], t) && UserOk(users[j], t, config, drawn) && UserOk(users[k], t, config, drawn);
      } else {
        var old' := if j < |users| then j else k;
        assert UserOk(users[old'], t, config, drawn);
      }
    }
  }

  lemma Removed(users: seq<User>, t: Truth, config: Option<Escrow>, drawn: nat, i: nat)
    requires UsersOk(users, t, config, drawn) && i < |users|
    ensures UsersOk(users[..i] + users[i + 1..], t, config, drawn)
  {
    var users' := users[..i] + users[i + 1..];
    forall j | 0 <= j < |users'|
      ensures UserOk(users'[j], t, config, drawn)
    {
      assert UserOk(users[if j < i then j else j + 1], t, config, drawn);
    }
    forall j, k | 0 <= j < |users'| && 0 <= k < |users'| && j != k
      ensures Different(users'[j], users'[k], t)
    {
      assert Different(users[if j < i then j else j + 1], users[if k < i then k else k + 1], t);
    }
  }

  // A new master password: every copy opens to the key it opened to before.
  lemma Remastered(users: seq<User>, t: Truth, e: Escrow, next: Password, salt: nat, drawn: nat, drawn': nat)
    requires UsersOk(users, t, Some(e), drawn) && OpensWith(e, t.master) && drawn <= drawn'
    requires |next| >= MIN_MASTER_PASSWORD_LENGTH
    ensures ChangeMasterPassword(e, t.master, next, salt).Ok?
    ensures var f := ChangeMasterPassword(e, t.master, next, salt).value;
            OpensWith(f, next) && UsersOk(users, t.(master := next), Some(f), drawn')
  {
    var f := ChangeMasterPassword(e, t.master, next, salt).value;
    forall i | 0 <= i < |users|
      ensures UserOk(users[i], t.(master := next), Some(f), drawn')
    {
      assert UserOk(users[i], t, Some(e), drawn);
      if users[i].copy.Some? {
        MasterChangeKeepsCopies(e, t.master, next, salt, users[i].copy.value);
      }
    }
    forall i, j | 0 <= i < |users| && 0 <= j < |users| && i != j
      ensures Different(users[i], users[j], t.(master := next))
    {
      assert Different(users[i], users[j], t);
    }
  }

  // A session is given an account's key: no other account is affected, and an
  // unconfirmed one never gets that far.
  lemma Issued(users: seq<User>, t: Truth, config: Option<Escrow>, drawn: nat, i: nat)
    requires UsersOk(users, t, config, drawn) && i < |users| && !users[i].unconfirmed
    ensures users[i].id in t.deks && UsersOk(users, t.(issued := t.issued + {t.deks[users[i].id]}), config, drawn)
  {
    assert UserOk(users[i], t, config, drawn);
    var t' := t.(issued := t.issued + {t.deks[users[i].id]});
    forall j | 0 <= j < |users|
      ensures UserOk(users[j], t', config, drawn)
    {
      assert UserOk(users[j], t, config, drawn);
      assert j != i ==> Different(users[i], users[j], t);
    }
    forall j, k | 0 <= j < |users| && 0 <= k < |users| && j != k
      ensures Different(users[j], users[k], t')
    {
      assert Different(users[j], users[k], t);
    }
  }

  // Names drawn and not used change nothing.
  lemma Grown(s: State, t: Truth, drawn: nat, drawn': nat)
    requires Sound(s, t, drawn) && drawn <= drawn'
    ensures Sound(s, t, drawn')
  {
    forall i | 0 <= i < |s.users|
      ensures UserOk(s.users[i], t, s.escrow.config, drawn')
    {
      assert UserOk(s.users[i], t, s.escrow.config, drawn);
    }
    forall i, j | 0 <= i < |s.users| && 0 <= j < |s.users| && i != j
      ensures Different(s.users[i], s.users[j], t)
    {
    }
  }

  // The first key pair: there are no copies yet, so any pair will do.
  lemma Configured(users: seq<User>, t: Truth, e: Escrow, master: Password, drawn: nat)
    requires UsersOk(users, t, None, drawn)
    ensures UsersOk(users, t.(master := master), Some(e), drawn)
  {
    forall i | 0 <= i < |users|
      ensures UserOk(users[i], t.(master := master), Some(e), drawn)
    {
      assert UserOk(users[i], t, None, drawn);
    }
    forall i, j | 0 <= i < |users| && 0 <= j < |users| && i != j
      ensures Different(users[i], users[j], t.(master := master))
    {
      assert Different(users[i], users[j], t);
    }
  }

  /* ---- Writing the secrets ---- */

  // account.Open, the caller's change, account.Seal. The change may refuse.
  function WriteSecrets(secrets: Option<Sealed>, key: Key, change: string -> Option<string>): Option<Option<Sealed>> {
    match secrets
    case None =>
      (match change("") case None => None case Some(text) => Some(Some(Sealed(key, BlobPlain(text), SecretsContext))))
    case Some(box) =>
      match Open(key, box, SecretsContext)
      case Some(BlobPlain(was)) =>
        (match change(was) case None => None case Some(text) => Some(Some(Sealed(key, BlobPlain(text), SecretsContext))))
      case _ => None
  }

  // A write with the wrong key is refused exactly when there is something to protect.
  // On an empty blob it goes through, and seals the secrets away from their owner:
  // so the account's key must be the one used, or the blob must not be empty.
  lemma WriteKeepsSecretsExactly(secrets: Option<Sealed>, dek: Key, key: Key, change: string -> Option<string>)
    requires SecretsOk(secrets, dek) && forall text :: change(text).Some?
    ensures (match WriteSecrets(secrets, key, change) case None => true case Some(written) => SecretsOk(written, dek))
            <==> key == dek || secrets.Some?
    ensures key != dek && secrets.Some? ==> WriteSecrets(secrets, key, change) == None
  {
    if secrets == None && key != dek {
      var box := Sealed(key, BlobPlain(change("").value), SecretsContext);
      assert WriteSecrets(secrets, key, change) == Some(Some(box));
      assert Open(dek, box, SecretsContext) == None;
    } else if key == dek {
      assert Open(dek, Sealed(dek, BlobPlain(change("").value), SecretsContext), SecretsContext).Some?;
      if secrets.Some? {
        var was :| Open(dek, secrets.value, SecretsContext) == Some(BlobPlain(was));
        assert Open(dek, Sealed(dek, BlobPlain(change(was).value), SecretsContext), SecretsContext).Some?;
        assert WriteSecrets(secrets, key, change) == Some(Some(Sealed(dek, BlobPlain(change(was).value), SecretsContext)));
        assert SecretsOk(WriteSecrets(secrets, key, change).value, dek);
      } else {
        assert WriteSecrets(secrets, key, change) == Some(Some(Sealed(dek, BlobPlain(change("").value), SecretsContext)));
        assert SecretsOk(WriteSecrets(secrets, key, change).value, dek);
      }
    }
  }

  // Such a write: nothing is stored, and the key held is not the account's any more.
  lemma HeldKeyHidesSecrets(dek: Key, held: Key, text: string)
    requires held != dek
    ensures var written := WriteSecrets(None, held, was => Some(text));
            SecretsOk(None, dek) && written.Some? && written.value.Some? && !SecretsOk(written.value, dek)
            && Open(held, written.value.value, SecretsContext) == Some(BlobPlain(text))
  {
    WriteKeepsSecretsExactly(None, dek, held, was => Some(text));
  }
}
