// The store of accounts: every change is made on a copy of the state, which replaces
// it only once it has reached the disk (internal/store/store.go, users.go, escrow.go,
// register.go, email_change.go).
module AccountStore {
  import opened SymbolicCrypto
  import opened KeySchedule

  datatype Error =
    | NoError | NotFound | LoginTaken | LastAdmin | NotBootstrap | AuthFailed | Disabled | Unconfirmed
    | RegistrationClosed | EscrowActive | EscrowNotConfigured | EscrowConfigured | EscrowNotDeposited | EscrowDeposited
    | WrongMasterPassword | MasterTooShort | PasswordTooShort | EmailRequired | LinkInvalid | BadDecrypt | DiskFailed

  // Nothing about the account's data moved: only how its key is reached.
  ghost predicate Rekeyed(u: User, w: User) {
    w == u.(auth := w.auth, kekSalt := w.kekSalt, kekParams := w.kekParams, wrapped := w.wrapped, mustChange := w.mustChange)
  }

  // The link in this mail is still good for the account at `i`: the last one that has it.
  ghost predicate Linked(users: seq<User>, token: nat, now: int, i: nat) {
    && i < |users| && users[i].token == Some(token) && users[i].pendingEmail != "" && now < users[i].tokenExpires
    && forall j :: i < j < |users| ==> users[j].token != Some(token)
  }

  // Nothing is sealed for a new account, and it may sign in once it is confirmed.
  predicate NewAccount(u: User) {
    u.secrets == None && !u.disabled
  }

  // A registration waits for its link, at this address and until this time.
  predicate Registered(u: User, login: string, email: string, token: Option<nat>, expires: int) {
    && u.login == login && u.unconfirmed && u.email == email && u.pendingEmail == email
    && token.Some? && u.token == token && u.tokenExpires == expires
  }

  // A second registration of an account that waits: new credentials and a new link only.
  ghost predicate Reregistered(u: User, w: User) {
    w == u.(auth := w.auth, kekSalt := w.kekSalt, kekParams := w.kekParams, wrapped := w.wrapped, copy := w.copy,
            unconfirmed := true, pendingEmail := w.pendingEmail, token := w.token, tokenExpires := w.tokenExpires)
  }

  function Confirmed(u: User): User {
    u.(unconfirmed := false, email := u.pendingEmail, pendingEmail := "", token := None, tokenExpires := 0)
  }

  // One record was rewritten, in place.
  ghost predicate RewroteOne(s: State, s': State, id: nat, i: nat) {
    && i < |s.users| && i < |s'.users| && s.users[i].id == id && s'.users[i].id == id
    && s' == s.(users := s.users[i := s'.users[i]])
  }

  class Store {
    const opts: Options
    var state: State
    // How many random names have been drawn.
    var drawn: nat
    ghost var truth: Truth

    ghost predicate Valid()
      reads this
    {
      Sound(state, truth, drawn)
    }

    constructor (opts: Options, selfRegistration: bool)
      ensures Valid() && state.users == [] && state.escrow == EscrowSettings(false, None) && truth.issued == {}
    {
      this.opts := opts;
      state := State([], EscrowSettings(false, None), selfRegistration);
      drawn := 0;
      truth := Truth(map[], map[], "", {});
    }

    method Draw() returns (n: nat)
      modifies this`drawn
      ensures n == old(drawn) && drawn == n + 1
    {
      n, drawn := drawn, drawn + 1;
    }

    // The end of `update`: the new state becomes visible only if it was written.
    method Commit(next: State, disk: bool) returns (err: Error)
      modifies this`state
      ensures if disk then err == NoError && state == next else err == DiskFailed && state == old(state)
    {
      if !disk {
        return DiskFailed;
      }
      state := next;
      return NoError;
    }

    static method FindUser(users: seq<User>, id: nat) returns (i: int)
      ensures -1 <= i < |users| && (if i < 0 then !HasId(users, id) else users[i].id == id)
    {
      for n := 0 to |users|
        invariant forall j :: 0 <= j < n ==> users[j].id != id
      {
        if users[n].id == id {
          return n;
        }
      }
      return -1;
    }

    static method FindLogin(users: seq<User>, login: string) returns (i: int)
      ensures -1 <= i < |users| && (if i < 0 then !HasLogin(users, login) else users[i].login == login)
    {
      for n := 0 to |users|
        invariant forall j :: 0 <= j < n ==> users[j].login != login
      {
        if users[n].login == login {
          return n;
        }
      }
      return -1;
    }

    static method IsLastActiveAdmin(users: seq<User>, i: nat) returns (last: bool)
      requires i < |users| && forall j, k :: 0 <= j < |users| && 0 <= k < |users| && j != k ==> users[j].id != users[k].id
      ensures last <==> IsActiveAdmin(users[i]) && forall j :: 0 <= j < |users| && j != i ==> !IsActiveAdmin(users[j])
    {
      var u := users[i];
      if u.role != AdminRole || u.disabled || u.unconfirmed {
        return false;
      }
      for n := 0 to |users|
        invariant forall j :: 0 <= j < n && j != i ==> !IsActiveAdmin(users[j])
      {
        var other := users[n];
        if !(other.id == u.id || other.role != AdminRole || other.disabled || other.unconfirmed) {
          return false;
        }
      }
      return true;
    }

    // setCredentials: a new verifier, a new wrapping key and a new data key, with a
    // copy deposited while escrow is on.
    method SetCredentials(u: User, password: Password, escrow: EscrowSettings) returns (w: User, ghost dek: Key)
      modifies this`drawn
      ensures drawn > old(drawn) && dek.Fresh? && old(drawn) <= dek.name < drawn
      ensures w == u.(auth := w.auth, kekSalt := w.kekSalt, kekParams := w.kekParams, wrapped := w.wrapped, copy := w.copy)
      ensures CredentialsOk(w, password, dek)
      ensures w.auth.value.params == opts.auth && w.kekParams == opts.kek
      ensures escrow.Active() <==> w.copy.Some?
      ensures EscrowOk(escrow.config, truth.master) ==> CopyOk(w.copy, dek, escrow.config, truth.master)
    {
      var authSalt := Draw();
      var kekSalt := Draw();
      var kek := Derived(password, kekSalt, opts.kek);
      var name := Draw();
      dek := Fresh(name);
      var wrapped := WrapDEK(kek, Fresh(name));
      var copy: Option<Copy> := None;
      if escrow.Active() {
        var ephemeral := Draw();
        copy := Some(SealDEK(escrow.config.value, Fresh(name), ephemeral));
      }
      w := u.(auth := Some(HashPassword(password, opts.auth, authSalt)), kekSalt := kekSalt, kekParams := opts.kek,
              wrapped := wrapped, copy := copy);
    }

    // rewrapDEK
    method RewrapDEK(u: User, password: Password, dek: Key) returns (w: User)
      modifies this`drawn
      ensures drawn > old(drawn) && Rekeyed(u, w) && w.mustChange == u.mustChange && CredentialsOk(w, password, dek)
      ensures w.auth.value.params == opts.auth && w.kekParams == opts.kek
    {
      var authSalt := Draw();
      var salt := Draw();
      var kek := Derived(password, salt, opts.kek);
      w := u.(auth := Some(HashPassword(password, opts.auth, authSalt)), kekSalt := salt, kekParams := opts.kek,
              wrapped := WrapDEK(kek, dek));
    }

    // unwrapDEK
    static function OpenKey(u: User, password: Password): Option<Key> {
      UnwrapDEK(Derived(password, u.kekSalt, u.kekParams), u.wrapped)
    }

    /* ---- Signing in ---- */

    method Authenticate(login: string, password: Password) returns (err: Error, user: Option<User>, dek: Option<Key>)
      requires Valid()
      modifies this`truth
      ensures Valid() && truth == old(truth).(issued := truth.issued) && old(truth.issued) <= truth.issued
      ensures (err == NoError) == (user.Some?) == (dek.Some?)
      ensures err == NoError <==> exists i :: 0 <= i < |state.users| && SignsIn(state.users[i], truth, login, password)
                                    && !state.users[i].disabled && !state.users[i].unconfirmed
      ensures err == AuthFailed <==> forall i :: 0 <= i < |state.users| ==> !SignsIn(state.users[i], truth, login, password)
      ensures err == Disabled <==> exists i :: 0 <= i < |state.users| && SignsIn(state.users[i], truth, login, password) && state.users[i].disabled
      ensures err == Unconfirmed <==> exists i :: 0 <= i < |state.users| && SignsIn(state.users[i], truth, login, password)
                                        && !state.users[i].disabled && state.users[i].unconfirmed
      ensures err in {NoError, AuthFailed, Disabled, Unconfirmed}
      ensures err == NoError ==> user.value in state.users && SignsIn(user.value, truth, login, password)
      ensures err == NoError ==> dek.value == truth.deks[user.value.id] && truth.issued == old(truth.issued) + {dek.value}
    {
      user, dek := None, None;
      ghost var t := truth;
      var i := FindLogin(state.users, login);
      LoginsOnce(state.users, t, state.escrow.config, drawn);
      if i < 0 || state.users[i].auth == None {
        if i >= 0 {
          OneUserOk(state.users, t, state.escrow.config, drawn, i);
        }
        return AuthFailed, None, None;
      }
      var u := state.users[i];
      OneUserOk(state.users, t, state.escrow.config, drawn, i);
      if !u.auth.value.Verify(password) {
        return AuthFailed, None, None;
      }
      assert SignsIn(u, t, login, password);
      if u.disabled {
        return Disabled, None, None;
      }
      if u.unconfirmed {
        return Unconfirmed, None, None;
      }
      var key := OpenKey(u, password);
      if key == None {
        return AuthFailed, None, None;
      }
      Issued(state.users, t, state.escrow.config, drawn, i);
      truth := t.(issued := t.issued + {t.deks[u.id]});
      return NoError, Some(u), key;
    }

    /* ---- Accounts coming and going ---- */

    // newUser, up to the append.
    method NewUser(login: string, email: string, role: Role, password: Password, escrow: EscrowSettings)
      returns (u: User, ghost dek: Key)
      requires EscrowOk(escrow.config, truth.master)
      modifies this`drawn
      ensures NewlyMade(u, password, dek, old(drawn), drawn, escrow, truth.master)
      ensures u.login == login && u.email == email && u.role == role && !u.disabled && !u.unconfirmed && !u.mustChange
      ensures u.secrets == None && u.pendingEmail == "" && u.token == None && u.tokenExpires == 0
    {
      var id := Draw();
      u := User(id, login, email, role, false, false, false, None, 0, 0, WrapDEK(Fresh(id), Fresh(id)), None, None, "", None, 0);
      u, dek := SetCredentials(u, password, escrow);
    }

    method Append(u: User, ghost password: Password, ghost dek: Key, ghost drawn0: nat, disk: bool) returns (err: Error)
      requires Sound(state, truth, drawn0) && !HasLogin(state.users, u.login)
      requires NewlyMade(u, password, dek, drawn0, drawn, state.escrow, truth.master)
      modifies this`state, this`truth
      ensures Valid() && err == if disk then NoError else DiskFailed
      ensures !disk ==> state == old(state) && truth == old(truth)
      ensures disk ==> state == old(state).(users := old(state).users + [u]) && truth == Joined(old(truth), u.id, password, dek)
    {
      ghost var t := truth;
      Grown(state, t, drawn0, drawn);
      NewUserOk(u, password, dek, drawn0, drawn, state.escrow, t);
      err := Commit(state.(users := state.users + [u]), disk);
      if disk {
        Added(old(state).users, t, Joined(t, u.id, password, dek), state.escrow.config, drawn0, drawn, u);
        truth := Joined(t, u.id, password, dek);
      }
    }

    method CreateFirstAdmin(login: string, email: string, password: Password, disk: bool) returns (err: Error)
      requires Valid()
      modifies this
      ensures Valid() && (err != NoError ==> state == old(state) && truth == old(truth))
      ensures err == NoError <==> |password| >= MIN_PASSWORD_LENGTH && disk && !HasLogin(old(state.users), login)
                                  && forall u :: u in old(state.users) ==> u.role != AdminRole
      ensures err == PasswordTooShort <==> |password| < MIN_PASSWORD_LENGTH
      ensures err == NotBootstrap <==> |password| >= MIN_PASSWORD_LENGTH && exists u :: u in old(state).users && u.role == AdminRole
      ensures err in {NoError, PasswordTooShort, NotBootstrap, LoginTaken, DiskFailed} && (err == DiskFailed ==> !disk)
      ensures err == NoError ==> |state.users| == |old(state.users)| + 1
                                 && state == old(state).(users := old(state).users + [state.users[|old(state).users|]])
      ensures err == NoError ==> var u := state.users[|old(state).users|];
                                 && SignsIn(u, truth, login, password) && u.login == login && u.email == email && u.role == AdminRole
                                 && NewAccount(u) && !u.mustChange && !u.unconfirmed && u.pendingEmail == "" && u.token == None
      ensures err == NoError ==> HasActiveAdmin(state.users)
    {
      if |password| < MIN_PASSWORD_LENGTH {
        return PasswordTooShort;
      }
      for n := 0 to |state.users|
        invariant forall j :: 0 <= j < n ==> state.users[j].role != AdminRole
        invariant state == old(state) && truth == old(truth)
      {
        if state.users[n].role == AdminRole {
          return NotBootstrap;
        }
      }
      var i := FindLogin(state.users, login);
      if i >= 0 {
        return LoginTaken;
      }
      ghost var drawn0 := drawn;
      var u, dek := NewUser(login, email, AdminRole, password, state.escrow);
      err := Append(u, password, dek, drawn0, disk);
      if disk {
        assert IsActiveAdmin(state.users[|state.users| - 1]);
      }
    }

    method CreateUser(login: string, email: string, role: Role, temp: Password, disk: bool) returns (err: Error)
      requires Valid()
      modifies this
      ensures Valid() && (err != NoError ==> state == old(state) && truth == old(truth))
      ensures err == NoError <==> |temp| >= MIN_PASSWORD_LENGTH && disk && !HasLogin(old(state.users), login)
      ensures err == PasswordTooShort <==> |temp| < MIN_PASSWORD_LENGTH
      ensures err == LoginTaken <==> |temp| >= MIN_PASSWORD_LENGTH && HasLogin(old(state.users), login)
      ensures err in {NoError, PasswordTooShort, LoginTaken, DiskFailed}
      ensures err == NoError ==> |state.users| == |old(state.users)| + 1
                                 && state == old(state).(users := old(state).users + [state.users[|old(state).users|]])
      ensures err == NoError ==> var u := state.users[|old(state.users)|];
                                 && SignsIn(u, truth, login, temp) && u.login == login && u.email == email && u.role == role
                                 && NewAccount(u) && u.mustChange && !u.unconfirmed && u.pendingEmail == "" && u.token == None
    {
      if |temp| < MIN_PASSWORD_LENGTH {
        return PasswordTooShort;
      }
      var i := FindLogin(state.users, login);
      if i >= 0 {
        return LoginTaken;
      }
      ghost var drawn0 := drawn;
      var u, dek := NewUser(login, email, role, temp, state.escrow);
      u := u.(mustChange := true);
      err := Append(u, temp, dek, drawn0, disk);
    }

    // One record rewritten and committed; the truth moves with it.
    method Rewrite(i: nat, w: User, ghost t': Truth, ghost drawn0: nat, disk: bool) returns (err: Error)
      requires Sound(state, truth, drawn0) && drawn0 <= drawn && i < |state.users|
      requires w.id == state.users[i].id && w.login == state.users[i].login
      requires MovesOnly(truth, t', w.id) && KeyKeptOrNew(truth, t', w.id, drawn0) && UserOk(w, t', state.escrow.config, drawn)
      modifies this`state, this`truth
      ensures Valid() && err == if disk then NoError else DiskFailed
      ensures if disk then state == old(state).(users := old(state).users[i := w]) && truth == t'
              else state == old(state) && truth == old(truth)
    {
      ghost var t := truth;
      Grown(state, t, drawn0, drawn);
      err := Commit(state.(users := state.users[i := w]), disk);
      if disk {
        Rewritten(old(state).users, t, t', state.escrow.config, drawn0, drawn, i, w);
        truth := t';
      }
    }

    method Register(login: string, email: string, password: Password, now: int, ttl: int, disk: bool)
      returns (err: Error, token: Option<nat>)
      requires Valid()
      modifies this
      ensures Valid() && (err != NoError ==> state == old(state) && truth == old(truth))
      ensures err == NoError <==>
              && email != "" && |password| >= MIN_PASSWORD_LENGTH && old(state).selfRegistration && disk
              && forall u :: u in old(state).users && u.login == login ==> u.unconfirmed && u.email == email
      ensures err == EmailRequired <==> email == ""
      ensures err == PasswordTooShort <==> email != "" && |password| < MIN_PASSWORD_LENGTH
      ensures err == RegistrationClosed <==> email != "" && |password| >= MIN_PASSWORD_LENGTH && !old(state).selfRegistration
      ensures err in {NoError, EmailRequired, PasswordTooShort, RegistrationClosed, LoginTaken, DiskFailed} && (err == DiskFailed ==> !disk)
      ensures token.Some? <==> err == NoError
      ensures err == NoError ==> exists i :: 0 <= i < |state.users| && SignsIn(state.users[i], truth, login, password)
                                  && Registered(state.users[i], login, email, token, now + ttl)
                                  && (if HasLogin(old(state).users, login)
                                      then RewroteOne(old(state), state, state.users[i].id, i) && Reregistered(old(state).users[i], state.users[i])
                                      else i == |old(state).users| && state == old(state).(users := old(state).users + [state.users[i]])
                                           && NewAccount(state.users[i]) && state.users[i].role == UserRole && !state.users[i].mustChange)
      ensures HasActiveAdmin(old(state.users)) ==> HasActiveAdmin(state.users)
    {
      token := None;
      if email == "" {
        return EmailRequired, None;
      }
      if |password| < MIN_PASSWORD_LENGTH {
        return PasswordTooShort, None;
      }
      ghost var drawn0, t := drawn, truth;
      var name := Draw();
      Grown(state, t, drawn0, drawn);
      if !state.selfRegistration {
        return RegistrationClosed, None;
      }
      LoginsOnce(state.users, t, state.escrow.config, drawn);
      var i := FindLogin(state.users, login);
      if i >= 0 {
        var existing := state.users[i];
        OneUserOk(state.users, t, state.escrow.config, drawn, i);
        if !existing.unconfirmed || existing.email != email {
          return LoginTaken, None;
        }
        ghost var drawn1 := drawn;
        var w, dek := SetCredentials(existing, password, state.escrow);
        w := w.(unconfirmed := true, email := email, pendingEmail := email, token := Some(name), tokenExpires := now + ttl);
        err := Rewrite(i, w, Joined(t, w.id, password, dek), drawn1, disk);
        AdminKept(old(state).users, i, w);
        if disk {
          token := Some(name);
          assert SignsIn(state.users[i], truth, login, password);
        }
        return err, token;
      }
      ghost var drawn1 := drawn;
      var u, dek := NewUser(login, email, UserRole, password, state.escrow);
      u := u.(unconfirmed := true, pendingEmail := email, token := Some(name), tokenExpires := now + ttl);
      err := Append(u, password, dek, drawn1, disk);
      AdminAdded(old(state).users, u);
      if disk {
        assert state.users[|old(state).users|] == u;
        token := Some(name);
      }
    }

    // The link from the mail: it ends a registration, or a change of address.
    method ConfirmEmail(token: nat, now: int, disk: bool) returns (err: Error, registration: bool)
      requires Valid()
      modifies this
      ensures Valid() && truth == old(truth) && (err != NoError ==> state == old(state))
      ensures err == LinkInvalid <==> !exists i: nat :: Linked(old(state).users, token, now, i)
      ensures err == NoError <==> disk && exists i: nat :: Linked(old(state).users, token, now, i)
      ensures err == NoError ==> exists i: nat ::
                && Linked(old(state).users, token, now, i) && registration == old(state).users[i].unconfirmed
                && RewroteOne(old(state), state, old(state).users[i].id, i)
                && state.users[i] == old(state).users[i].(unconfirmed := false, email := old(state).users[i].pendingEmail,
                                                          pendingEmail := "", token := None, tokenExpires := 0)
      ensures err in {NoError, LinkInvalid, DiskFailed}
      ensures HasActiveAdmin(old(state.users)) ==> HasActiveAdmin(state.users)
    {
      registration := false;
      var i := -1;
      for n := 0 to |state.users|
        invariant -1 <= i < n && (i >= 0 ==> state.users[i].token == Some(token))
        invariant forall j :: i < j < n ==> state.users[j].token != Some(token)
        invariant state == old(state) && truth == old(truth) && drawn == old(drawn)
      {
        if state.users[n].token == Some(token) {
          i := n;
        }
      }
      if i < 0 || state.users[i].pendingEmail == "" || now >= state.users[i].tokenExpires {
        return LinkInvalid, false;
      }
      var u := state.users[i];
      OneUserOk(state.users, truth, state.escrow.config, drawn, i);
      registration := u.unconfirmed;
      assert Linked(state.users, token, now, i);
      err := Rewrite(i, Confirmed(u), truth, drawn, disk);
      AdminKept(old(state).users, i, Confirmed(u));
    }

    /* ---- Passwords ---- */

    method ChangePassword(id: nat, current: Password, next: Password, disk: bool) returns (err: Error)
      requires Valid()
      modifies this
      ensures Valid() && (err != NoError ==> state == old(state) && truth == old(truth))
      ensures err == NoError <==> |next| >= MIN_PASSWORD_LENGTH && disk && HasId(old(state.users), id)
                                  && id in old(truth.passwords) && old(truth.passwords)[id] == current
      ensures err == NoError ==> truth == old(truth).(passwords := old(truth).passwords[id := next])
      ensures err == NoError ==> exists i :: 0 <= i < |state.users| && RewroteOne(old(state), state, id, i)
                                  && Rekeyed(old(state).users[i], state.users[i]) && !state.users[i].mustChange
      ensures err == PasswordTooShort <==> |next| < MIN_PASSWORD_LENGTH
      ensures err == NotFound <==> |next| >= MIN_PASSWORD_LENGTH && !HasId(old(state.users), id)
      ensures err in {NoError, PasswordTooShort, NotFound, AuthFailed, DiskFailed} && (err == DiskFailed ==> !disk)
      ensures HasActiveAdmin(old(state.users)) ==> HasActiveAdmin(state.users)
    {
      if |next| < MIN_PASSWORD_LENGTH {
        return PasswordTooShort;
      }
      var i := FindUser(state.users, id);
      if i < 0 {
        return NotFound;
      }
      var u := state.users[i];
      OneUserOk(state.users, truth, state.escrow.config, drawn, i);
      if u.auth == None || !u.auth.value.Verify(current) {
        return AuthFailed;
      }
      var dek := OpenKey(u, current);
      if dek == None {
        return AuthFailed;
      }
      ghost var drawn0 := drawn;
      var w := RewrapDEK(u, next, dek.value);
      w := w.(mustChange := false);
      err := Rewrite(i, w, truth.(passwords := truth.passwords[id := next]), drawn0, disk);
      AdminKept(old(state).users, i, w);
      if disk {
        assert RewroteOne(old(state), state, id, i);
      }
    }

    // The destructive reset: the data key goes, and everything sealed under it.
    method ResetPassword(id: nat, temp: Password, disk: bool) returns (err: Error)
      requires Valid()
      modifies this
      ensures Valid() && (err != NoError ==> state == old(state) && truth == old(truth))
      ensures err == NoError <==> |temp| >= MIN_PASSWORD_LENGTH && disk
                                  && exists i :: 0 <= i < |old(state).users| && old(state).users[i].id == id && old(state).users[i].copy == None
      ensures err == NoError ==> exists i :: 0 <= i < |state.users| && RewroteOne(old(state), state, id, i)
                                  && state.users[i].secrets == None && state.users[i].mustChange
                                  && Rekeyed(old(state).users[i], state.users[i].(secrets := old(state).users[i].secrets, copy := None))
                                  && (state.users[i].copy.Some? <==> old(state).escrow.Active())
      ensures err == PasswordTooShort <==> |temp| < MIN_PASSWORD_LENGTH
      ensures err == NotFound <==> |temp| >= MIN_PASSWORD_LENGTH && !HasId(old(state.users), id)
      ensures err == EscrowActive <==> |temp| >= MIN_PASSWORD_LENGTH
                                       && exists i :: 0 <= i < |old(state).users| && old(state).users[i].id == id && old(state).users[i].copy.Some?
      ensures err in {NoError, PasswordTooShort, NotFound, EscrowActive, DiskFailed}
      ensures err == NoError ==> id in truth.deks && id in old(truth).deks && truth.deks[id] != old(truth).deks[id]
      ensures err == NoError ==> truth.deks[id] !in truth.issued
      ensures err == NoError ==> truth == Joined(old(truth), id, temp, truth.deks[id])
      ensures HasActiveAdmin(old(state.users)) ==> HasActiveAdmin(state.users)
    {
      if |temp| < MIN_PASSWORD_LENGTH {
        return PasswordTooShort;
      }
      LoginsOnce(state.users, truth, state.escrow.config, drawn);
      var i := FindUser(state.users, id);
      if i < 0 {
        return NotFound;
      }
      var u := state.users[i];
      OneUserOk(state.users, truth, state.escrow.config, drawn, i);
      if u.copy.Some? && state.escrow.config.Some? {
        return EscrowActive;
      }
      ghost var drawn0 := drawn;
      var w, dek := SetCredentials(u, temp, state.escrow);
      w := w.(secrets := None, mustChange := true);
      err := Rewrite(i, w, Joined(truth, id, temp, dek), drawn0, disk);
      AdminKept(old(state).users, i, w);
      if disk {
        assert RewroteOne(old(state), state, id, i);
      }
    }

    /* ---- The deposit scheme ---- */

    method EnableEscrow(master: Password, disk: bool) returns (err: Error)
      requires Valid()
      modifies this
      ensures Valid() && (err != NoError ==> state == old(state) && truth == old(truth))
      ensures err == NoError <==> |master| >= MIN_MASTER_PASSWORD_LENGTH && old(state).escrow.config == None && disk
      ensures err == NoError ==> truth == old(truth).(master := master) && state.escrow.Active()
                                  && state == old(state).(escrow := state.escrow)
      ensures err == MasterTooShort <==> |master| < MIN_MASTER_PASSWORD_LENGTH
      ensures err == EscrowConfigured <==> |master| >= MIN_MASTER_PASSWORD_LENGTH && old(state).escrow.config.Some?
      ensures err in {NoError, MasterTooShort, EscrowConfigured, DiskFailed}
    {
      ghost var drawn0 := drawn;
      var pair := Draw();
      var salt := Draw();
      Grown(state, truth, drawn0, drawn);
      var made := NewEscrow(master, opts.master, pair, salt);
      if made.Err? {
        return MasterTooShort;
      }
      if state.escrow.config.Some? {
        return EscrowConfigured;
      }
      err := Commit(state.(escrow := EscrowSettings(true, Some(made.value))), disk);
      if disk {
        Configured(state.users, truth, made.value, master, drawn);
        truth := truth.(master := master);
      }
    }

    method ResumeEscrow(master: Password, disk: bool) returns (err: Error)
      requires Valid()
      modifies this`state
      ensures Valid() && (err != NoError ==> state == old(state))
      ensures err == NoError <==> old(state).escrow.config.Some? && master == truth.master && (old(state).escrow.enabled || disk)
      ensures err == NoError ==> state == old(state).(escrow := old(state).escrow.(enabled := true))
      ensures err == EscrowNotConfigured <==> old(state).escrow.config == None
      ensures err == WrongMasterPassword <==> old(state).escrow.config.Some? && master != truth.master
      ensures err in {NoError, EscrowNotConfigured, WrongMasterPassword, DiskFailed}
    {
      if state.escrow.config == None {
        return EscrowNotConfigured;
      }
      MasterIsTheOnlyWay(state.escrow.config.value, truth.master, master);
      if UnwrapPrivate(state.escrow.config.value, master).Err? {
        return WrongMasterPassword;
      }
      if state.escrow.enabled {
        return NoError;
      }
      err := Commit(state.(escrow := state.escrow.(enabled := true)), disk);
    }

    // Only the switch moves: every deposited copy still recovers its key.
    method DisableEscrow(disk: bool) returns (err: Error)
      requires Valid()
      modifies this`state
      ensures Valid() && err == if disk then NoError else DiskFailed
      ensures state == if disk then old(state).(escrow := old(state).escrow.(enabled := false)) else old(state)
    {
      err := Commit(state.(escrow := state.escrow.(enabled := false)), disk);
    }

    method ChangeEscrowMasterPassword(current: Password, next: Password, disk: bool) returns (err: Error)
      requires Valid()
      modifies this
      ensures Valid() && (err != NoError ==> state == old(state) && truth == old(truth))
      ensures err == NoError <==> old(state).escrow.config.Some? && |next| >= MIN_MASTER_PASSWORD_LENGTH
                                  && current == old(truth).master && disk
      ensures err == NoError ==> truth == old(truth).(master := next) && state.escrow.config.Some?
                                 && state == old(state).(escrow := old(state).escrow.(config := state.escrow.config))
                                 && state.escrow.config.value.public == old(state).escrow.config.value.public
      ensures err == EscrowNotConfigured <==> old(state).escrow.config == None
      ensures err == MasterTooShort <==> old(state).escrow.config.Some? && |next| < MIN_MASTER_PASSWORD_LENGTH
      ensures err == WrongMasterPassword <==> old(state).escrow.config.Some? && |next| >= MIN_MASTER_PASSWORD_LENGTH && current != old(truth).master
      ensures err in {NoError, EscrowNotConfigured, MasterTooShort, WrongMasterPassword, DiskFailed}
    {
      if state.escrow.config == None {
        return EscrowNotConfigured;
      }
      var e := state.escrow.config.value;
      ghost var drawn0 := drawn;
      var salt := Draw();
      Grown(state, truth, drawn0, drawn);
      MasterIsTheOnlyWay(e, truth.master, current);
      var changed := SymbolicCrypto.ChangeMasterPassword(e, current, next, salt);
      if changed.Err? {
        return if changed.error == TooShort then MasterTooShort else WrongMasterPassword;
      }
      err := Commit(state.(escrow := state.escrow.(config := Some(changed.value))), disk);
      if disk {
        Remastered(state.users, truth, e, next, salt, drawn, drawn);
        truth := truth.(master := next);
      }
    }

    method EscrowOptIn(id: nat, password: Password, disk: bool) returns (err: Error)
      requires Valid()
      modifies this
      ensures Valid() && truth == old(truth) && (err != NoError ==> state == old(state))
      ensures err == NoError <==>
              && old(state).escrow.Active() && disk && id in old(truth).passwords && old(truth).passwords[id] == password
              && exists i :: 0 <= i < |old(state).users| && old(state).users[i].id == id && old(state).users[i].copy == None
      ensures err == NoError ==> exists i ::
                && 0 <= i < |state.users| && RewroteOne(old(state), state, id, i)
                && state.users[i].copy.Some? && state.users[i] == old(state).users[i].(copy := state.users[i].copy)
      ensures err == EscrowNotConfigured <==> !old(state).escrow.Active()
      ensures err == NotFound <==> old(state).escrow.Active() && !HasId(old(state).users, id)
      ensures err == EscrowDeposited <==>
                && old(state).escrow.Active()
                && exists i :: 0 <= i < |old(state).users| && old(state).users[i].id == id && old(state).users[i].copy.Some?
      ensures err in {NoError, EscrowNotConfigured, NotFound, EscrowDeposited, AuthFailed, DiskFailed} && (err == DiskFailed ==> !disk)
    {
      LoginsOnce(state.users, truth, state.escrow.config, drawn);
      if !state.escrow.Active() {
        return EscrowNotConfigured;
      }
      var i := FindUser(state.users, id);
      if i < 0 {
        return NotFound;
      }
      var u := state.users[i];
      OneUserOk(state.users, truth, state.escrow.config, drawn, i);
      if u.copy.Some? {
        return EscrowDeposited;
      }
      if u.auth == None || !u.auth.value.Verify(password) {
        return AuthFailed;
      }
      var dek := OpenKey(u, password);
      if dek == None {
        return AuthFailed;
      }
      ghost var drawn0 := drawn;
      var ephemeral := Draw();
      var w := u.(copy := Some(SealDEK(state.escrow.config.value, dek.value, ephemeral)));
      RecoveryIsExact(state.escrow.config.value, truth.master, dek.value, ephemeral, truth.master);
      err := Rewrite(i, w, truth, drawn0, disk);
      if disk {
        assert RewroteOne(old(state), state, id, i);
      }
    }

    method EscrowOptOut(id: nat, disk: bool) returns (err: Error)
      requires Valid()
      modifies this`state, this`truth
      ensures Valid() && truth == old(truth) && (err != NoError ==> state == old(state))
      ensures err == NoError <==>
              && disk
              && exists i :: 0 <= i < |old(state).users| && old(state).users[i].id == id && old(state).users[i].copy.Some?
      ensures err == NoError ==> exists i ::
                && 0 <= i < |state.users| && RewroteOne(old(state), state, id, i)
                && state.users[i] == old(state).users[i].(copy := None)
      ensures err == NotFound <==> !HasId(old(state).users, id)
      ensures err in {NoError, NotFound, EscrowNotDeposited, DiskFailed} && (err == DiskFailed ==> !disk)
    {
      LoginsOnce(state.users, truth, state.escrow.config, drawn);
      var i := FindUser(state.users, id);
      if i < 0 {
        return NotFound;
      }
      var u := state.users[i];
      OneUserOk(state.users, truth, state.escrow.config, drawn, i);
      if u.copy == None {
        return EscrowNotDeposited;
      }
      err := Rewrite(i, u.(copy := None), truth, drawn, disk);
      if disk {
        assert RewroteOne(old(state), state, id, i);
      }
    }

    // The recovery: the account gets a new password, and keeps its data key, its
    // secrets and its copy.
    method RecoverUser(id: nat, master: Password, temp: Password, disk: bool) returns (err: Error)
      requires Valid()
      modifies this
      ensures Valid() && (err != NoError ==> state == old(state) && truth == old(truth))
      ensures err == NoError <==>
              && |temp| >= MIN_PASSWORD_LENGTH && disk && master == old(truth).master
              && exists i :: 0 <= i < |old(state).users| && old(state).users[i].id == id && old(state).users[i].copy.Some?
      ensures err == NoError ==> truth == old(truth).(passwords := old(truth).passwords[id := temp])
      ensures err == NoError ==> exists i ::
                && 0 <= i < |state.users| && RewroteOne(old(state), state, id, i)
                && Rekeyed(old(state).users[i], state.users[i]) && state.users[i].mustChange
      ensures err == PasswordTooShort <==> |temp| < MIN_PASSWORD_LENGTH
      ensures err == EscrowNotConfigured <==> |temp| >= MIN_PASSWORD_LENGTH && old(state).escrow.config == None
      ensures err == NotFound <==> |temp| >= MIN_PASSWORD_LENGTH && old(state).escrow.config.Some? && !HasId(old(state).users, id)
      ensures err == WrongMasterPassword <==>
                && |temp| >= MIN_PASSWORD_LENGTH && master != old(truth).master
                && exists i :: 0 <= i < |old(state).users| && old(state).users[i].id == id && old(state).users[i].copy.Some?
      ensures err in {NoError, PasswordTooShort, EscrowNotConfigured, NotFound, EscrowNotDeposited, WrongMasterPassword, DiskFailed}
              && (err == DiskFailed ==> !disk)
    {
      if |temp| < MIN_PASSWORD_LENGTH {
        return PasswordTooShort;
      }
      LoginsOnce(state.users, truth, state.escrow.config, drawn);
      NoConfigNoCopies(state.users, truth, state.escrow.config, drawn);
      if state.escrow.config == None {
        return EscrowNotConfigured;
      }
      var i := FindUser(state.users, id);
      if i < 0 {
        return NotFound;
      }
      var u := state.users[i];
      OneUserOk(state.users, truth, state.escrow.config, drawn, i);
      if u.copy == None {
        return EscrowNotDeposited;
      }
      MasterIsTheOnlyWay(state.escrow.config.value, truth.master, master);
      var dek := RecoverDEK(state.escrow.config.value, master, u.copy.value);
      if dek.Err? {
        return if dek.error == WrongMaster then WrongMasterPassword else BadDecrypt;
      }
      ghost var drawn0 := drawn;
      var w := RewrapDEK(u, temp, dek.value);
      w := w.(mustChange := true);
      err := Rewrite(i, w, truth.(passwords := truth.passwords[id := temp]), drawn0, disk);
      if disk {
        assert RewroteOne(old(state), state, id, i);
      }
    }

    /* ---- Standing and secrets ---- */

    method SetDisabled(id: nat, disabled: bool, disk: bool) returns (err: Error)
      requires Valid()
      modifies this`state, this`truth
      ensures Valid() && truth == old(truth) && (err != NoError ==> state == old(state))
      ensures err == NoError ==> exists i ::
                && 0 <= i < |state.users| && RewroteOne(old(state), state, id, i)
                && state.users[i] == old(state).users[i].(disabled := disabled)
      ensures err == NotFound <==> !HasId(old(state).users, id)
      ensures err in {NoError, NotFound, LastAdmin, DiskFailed} && (err == DiskFailed ==> !disk)
      ensures err == LastAdmin <==> disabled && OnlyAdmin(old(state).users, id)
      ensures HasActiveAdmin(old(state.users)) ==> HasActiveAdmin(state.users)
    {
      LoginsOnce(state.users, truth, state.escrow.config, drawn);
      var i := FindUser(state.users, id);
      if i < 0 {
        return NotFound;
      }
      var u := state.users[i];
      if u.disabled == disabled {
        assert state.users[i := u] == state.users && RewroteOne(state, state, id, i);
        return NoError;
      }
      if disabled {
        var last := IsLastActiveAdmin(state.users, i);
        if last {
          return LastAdmin;
        }
      }
      OneUserOk(state.users, truth, state.escrow.config, drawn, i);
      var w := u.(disabled := disabled);
      err := Rewrite(i, w, truth, drawn, disk);
      OthersStay(old(state).users, i, w);
      if disk {
        assert RewroteOne(old(state), state, id, i);
      }
    }

    method SetRole(id: nat, role: Role, disk: bool) returns (err: Error)
      requires Valid()
      modifies this`state, this`truth
      ensures Valid() && truth == old(truth) && (err != NoError ==> state == old(state))
      ensures err == NoError ==> exists i ::
                && 0 <= i < |state.users| && RewroteOne(old(state), state, id, i)
                && state.users[i] == old(state).users[i].(role := role)
      ensures err == NotFound <==> !HasId(old(state).users, id)
      ensures err in {NoError, NotFound, LastAdmin, DiskFailed} && (err == DiskFailed ==> !disk)
      ensures err == LastAdmin <==> role != AdminRole && OnlyAdmin(old(state).users, id)
      ensures HasActiveAdmin(old(state.users)) ==> HasActiveAdmin(state.users)
    {
      LoginsOnce(state.users, truth, state.escrow.config, drawn);
      var i := FindUser(state.users, id);
      if i < 0 {
        return NotFound;
      }
      var u := state.users[i];
      if u.role == role {
        assert state.users[i := u] == state.users && RewroteOne(state, state, id, i);
        return NoError;
      }
      if role != AdminRole {
        var last := IsLastActiveAdmin(state.users, i);
        if last {
          return LastAdmin;
        }
      }
      OneUserOk(state.users, truth, state.escrow.config, drawn, i);
      var w := u.(role := role);
      err := Rewrite(i, w, truth, drawn, disk);
      OthersStay(old(state).users, i, w);
      if disk {
        assert RewroteOne(old(state), state, id, i);
      }
    }

    method DeleteUser(id: nat, disk: bool) returns (err: Error)
      requires Valid()
      modifies this`state
      ensures Valid() && (err != NoError ==> state == old(state))
      ensures err == NoError ==> exists i ::
                && 0 <= i < |old(state).users| && old(state).users[i].id == id
                && state == old(state).(users := old(state).users[..i] + old(state).users[i + 1..])
      ensures err == NotFound <==> !HasId(old(state).users, id)
      ensures err in {NoError, NotFound, LastAdmin, DiskFailed} && (err == DiskFailed ==> !disk)
      ensures err == LastAdmin <==> OnlyAdmin(old(state).users, id)
      ensures HasActiveAdmin(old(state.users)) ==> HasActiveAdmin(state.users)
    {
      LoginsOnce(state.users, truth, state.escrow.config, drawn);
      var i := FindUser(state.users, id);
      if i < 0 {
        return NotFound;
      }
      var last := IsLastActiveAdmin(state.users, i);
      if last {
        return LastAdmin;
      }
      Removed(state.users, truth, state.escrow.config, drawn, i);
      OthersRemain(state.users, i);
      err := Commit(state.(users := state.users[..i] + state.users[i + 1..]), disk);
    }

    // Any operation that keeps something in the sealed blob, with whatever key the session
    // was given at sign-in. With another key than the account has now, a blob that holds
    // something is safe; an empty one is sealed away from its owner.
    method UpdateSecrets(id: nat, key: Key, change: string -> Option<string>, disk: bool) returns (err: Error)
      requires Valid() && key in truth.issued
      modifies this`state
      ensures err != NoError ==> Valid() && state == old(state)
      ensures err == NoError ==> id in truth.deks && (Valid() <==> key == truth.deks[id])
      ensures err == NoError ==> exists i ::
                && 0 <= i < |state.users| && RewroteOne(old(state), state, id, i)
                && state.users[i] == old(state).users[i].(secrets := state.users[i].secrets)
                && WriteSecrets(old(state).users[i].secrets, key, change) == Some(state.users[i].secrets)
                && (key == truth.deks[id] ==> change(Text(old(state).users[i].secrets)) == Some(Text(state.users[i].secrets)))
                && (key != truth.deks[id] ==> old(state).users[i].secrets == None)
      ensures err == NotFound <==> !HasId(old(state).users, id)
      ensures err == BadDecrypt <==> exists i ::
                0 <= i < |old(state).users| && old(state).users[i].id == id
                && WriteSecrets(old(state).users[i].secrets, key, change) == None
    {
      LoginsOnce(state.users, truth, state.escrow.config, drawn);
      var i := FindUser(state.users, id);
      if i < 0 {
        return NotFound;
      }
      var u := state.users[i];
      OneUserOk(state.users, truth, state.escrow.config, drawn, i);
      var written := WriteSecrets(u.secrets, key, change);
      if written == None {
        return BadDecrypt;
      }
      var w := u.(secrets := written.value);
      SecretsWritten(state.users, truth, state.escrow.config, drawn, i, key, change);
      err := Commit(state.(users := state.users[i := w]), disk);
      if disk {
        assert RewroteOne(old(state), state, id, i);
      }
    }
  }

  // What such a write does to the whole family of accounts.
  lemma SecretsWritten(users: seq<User>, t: Truth, config: Option<Escrow>, drawn: nat, i: nat, key: Key, change: string -> Option<string>)
    requires UsersOk(users, t, config, drawn) && i < |users| && key in t.issued
    requires WriteSecrets(users[i].secrets, key, change).Some?
    ensures users[i].id in t.deks
    ensures var dek, written := t.deks[users[i].id], WriteSecrets(users[i].secrets, key, change).value;
            && (UsersOk(users[i := users[i].(secrets := written)], t, config, drawn) <==> key == dek)
            && (key == dek ==> change(Text(users[i].secrets)) == Some(Text(written)))
            && (key != dek ==> users[i].secrets == None)
  {
    OneUserOk(users, t, config, drawn, i);
    var u, dek, written := users[i], t.deks[users[i].id], WriteSecrets(users[i].secrets, key, change).value;
    var w := u.(secrets := written);
    if key == dek {
      WriteMeans(u.secrets, key, change);
      hide WriteSecrets, SecretsOk, CredentialsOk, CopyOk, UsersOk;
      Rewritten(users, t, t, config, drawn, drawn, i, w);
    } else {
      WrongKeyHides(u.secrets, dek, key, change);
      if UsersOk(users[i := w], t, config, drawn) {
        OneUserOk(users[i := w], t, config, drawn, i);
      }
    }
  }

  lemma WrongKeyHides(secrets: Option<Sealed>, dek: Key, key: Key, change: string -> Option<string>)
    requires SecretsOk(secrets, dek) && key != dek && WriteSecrets(secrets, key, change).Some?
    ensures secrets == None && !SecretsOk(WriteSecrets(secrets, key, change).value, dek)
  {
    var box := WriteSecrets(secrets, key, change).value.value;
    assert Open(dek, box, SecretsContext) == None;
  }

  lemma NoConfigNoCopies(users: seq<User>, t: Truth, config: Option<Escrow>, drawn: nat)
    requires UsersOk(users, t, config, drawn)
    ensures config == None ==> forall i :: 0 <= i < |users| ==> users[i].copy == None
  {
    forall i | 0 <= i < |users|
      ensures config == None ==> users[i].copy == None
    {
      OneUserOk(users, t, config, drawn, i);
    }
  }

  ghost predicate OnlyAdmin(users: seq<User>, id: nat) {
    && (exists i :: 0 <= i < |users| && users[i].id == id && IsActiveAdmin(users[i]))
    && forall j :: 0 <= j < |users| && IsActiveAdmin(users[j]) ==> users[j].id == id
  }

  lemma OthersStay(users: seq<User>, i: nat, w: User)
    requires i < |users|
    requires IsActiveAdmin(users[i]) && !IsActiveAdmin(w) ==> exists j :: 0 <= j < |users| && j != i && IsActiveAdmin(users[j])
    ensures HasActiveAdmin(users) ==> HasActiveAdmin(users[i := w])
  {
    if HasActiveAdmin(users) {
      var j :| 0 <= j < |users| && IsActiveAdmin(users[j]) && (j != i || IsActiveAdmin(w));
      assert IsActiveAdmin(users[i := w][j]);
    }
  }

  lemma OthersRemain(users: seq<User>, i: nat)
    requires i < |users|
    requires IsActiveAdmin(users[i]) ==> exists j :: 0 <= j < |users| && j != i && IsActiveAdmin(users[j])
    ensures HasActiveAdmin(users) ==> HasActiveAdmin(users[..i] + users[i + 1..])
  {
    if HasActiveAdmin(users) {
      var j :| 0 <= j < |users| && j != i && IsActiveAdmin(users[j]);
      assert users[j] == (users[..i] + users[i + 1..])[if j < i then j else j - 1];
    }
  }

  // What the blob holds; an empty one reads as the empty text.
  function Text(secrets: Option<Sealed>): string {
    match secrets
    case Some(Sealed(_, BlobPlain(text), _)) => text
    case _ => ""
  }

  lemma WriteMeans(secrets: Option<Sealed>, dek: Key, change: string -> Option<string>)
    requires SecretsOk(secrets, dek)
    ensures var written := WriteSecrets(secrets, dek, change);
            if change(Text(secrets)) == None then written == None
            else written.Some? && SecretsOk(written.value, dek) && Some(Text(written.value)) == change(Text(secrets))
  {
    var written := WriteSecrets(secrets, dek, change);
    if written.Some? {
      assert Open(dek, written.value.value, SecretsContext) == Some(BlobPlain(Text(written.value)));
    }
  }

  // After any run, signing in opens what the account last wrote.
  lemma SignInOpensSecrets(s: State, t: Truth, drawn: nat, i: nat)
    requires Sound(s, t, drawn) && i < |s.users| && s.users[i].secrets.Some?
    ensures s.users[i].id in t.passwords
    ensures var u := s.users[i]; var key := Store.OpenKey(u, t.passwords[u.id]);
            key.Some? && Open(key.value, u.secrets.value, SecretsContext) == Some(BlobPlain(Text(u.secrets)))
  {
    OneUserOk(s.users, t, s.escrow.config, drawn, i);
  }

  lemma AdminKept(users: seq<User>, i: nat, w: User)
    requires i < |users| && (IsActiveAdmin(users[i]) ==> IsActiveAdmin(w))
    ensures HasActiveAdmin(users) ==> HasActiveAdmin(users[i := w])
  {
    if HasActiveAdmin(users) {
      var j :| 0 <= j < |users| && IsActiveAdmin(users[j]);
      assert IsActiveAdmin(users[i := w][j]);
    }
  }

  lemma AdminAdded(users: seq<User>, u: User)
    ensures HasActiveAdmin(users) ==> HasActiveAdmin(users + [u])
  {
    if HasActiveAdmin(users) {
      var j :| 0 <= j < |users| && IsActiveAdmin(users[j]);
      assert IsActiveAdmin((users + [u])[j]);
    }
  }

  // A record made from nothing, with names drawn between `from` and `to`.
  ghost predicate NewlyMade(u: User, password: Password, dek: Key, from: nat, to: nat, escrow: EscrowSettings, master: Password) {
    && from <= u.id < to && dek.Fresh? && from <= dek.name < to
    && CredentialsOk(u, password, dek) && u.secrets == None && CopyOk(u.copy, dek, escrow.config, master)
  }

  function Joined(t: Truth, id: nat, password: Password, dek: Key): Truth {
    t.(passwords := t.passwords[id := password], deks := t.deks[id := dek])
  }

  lemma NewUserOk(u: User, password: Password, dek: Key, from: nat, to: nat, escrow: EscrowSettings, t: Truth)
    requires NewlyMade(u, password, dek, from, to, escrow, t.master)
    requires forall k :: k in t.issued ==> k.Fresh? && k.name < from
    ensures UserOk(u, Joined(t, u.id, password, dek), escrow.config, to)
    ensures MovesOnly(t, Joined(t, u.id, password, dek), u.id)
  {
  }

  ghost predicate SignsIn(u: User, t: Truth, login: string, password: Password) {
    u.login == login && u.id in t.passwords && u.id in t.deks && t.passwords[u.id] == password
  }

  lemma LoginsOnce(users: seq<User>, t: Truth, config: Option<Escrow>, drawn: nat)
    requires UsersOk(users, t, config, drawn)
    ensures forall i, j :: 0 <= i < |users| && 0 <= j < |users| && i != j ==> users[i].login != users[j].login
    ensures forall i, j :: 0 <= i < |users| && 0 <= j < |users| && i != j ==> users[i].id != users[j].id
  {
    forall i, j | 0 <= i < |users| && 0 <= j < |users| && i != j
      ensures users[i].login != users[j].login && users[i].id != users[j].id
    {
      assert Different(users[i], users[j], t);
    }
  }
}
