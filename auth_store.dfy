/** The account store of src/store/authStore.ts: the registered users with
    their password hashes, the signed-in user, and the five operations that
    read and overwrite them. */
module AuthStore {
  import opened Wrappers
  import opened Types

  /** A bcrypt hash, kept as what it was computed from: the model of the
      one-way function is a constructor, and `Compare` recognises exactly the
      password the hash was made from. */
  datatype PasswordHash = PasswordHash(secret: string, salt: string)

  /** `bcrypt.hash(password, salt)`. */
  function Hash(password: string, salt: string): PasswordHash
  {
    PasswordHash(password, salt)
  }

  /** `bcrypt.compare(password, hash)`. */
  predicate Compare(password: string, hash: PasswordHash)
  {
    hash.secret == password
  }

  /** A hash accepts the password it was made from, whatever the salt, and no other. */
  lemma CompareRecognisesPassword(password: string, other: string, salt: string)
    ensures Compare(password, Hash(password, salt))
    ensures other != password ==> !Compare(other, Hash(password, salt))
  {
  }

  /** The public `User`: no field holds a password hash. */
  datatype User = User(
    id: string,
    name: string,
    email: string,
    role: Role,
    department: Option<string>,
    avatar: Option<string>,
    createdAt: int)

  /** `StoredUser`: a `User` plus its `passwordHash`. */
  datatype StoredUser = StoredUser(
    id: string,
    name: string,
    email: string,
    role: Role,
    department: Option<string>,
    avatar: Option<string>,
    createdAt: int,
    passwordHash: PasswordHash)

  /** The `Error` messages the operations throw. */
  datatype AuthError =
    | UserNotFound            // 'User not found'
    | InvalidPassword         // 'Invalid password'
    | EmailAlreadyRegistered  // 'Email already registered'

  /** The hash-free projection that `login` and `register` build field by field. */
  function Public(u: StoredUser): User
  {
    User(u.id, u.name, u.email, u.role, u.department, u.avatar, u.createdAt)
  }

  ghost predicate EmailsUnique(users: seq<StoredUser>)
  {
    forall i, j :: 0 <= i < j < |users| ==> users[i].email != users[j].email
  }

  /** `users.find(u => u.email === email)`, as the position of the first match. */
  function FindByEmail(users: seq<StoredUser>, email: string): (k: Option<nat>)
    ensures k.None? <==> forall i :: 0 <= i < |users| ==> users[i].email != email
    ensures k.Some? ==> k.value < |users| && users[k.value].email == email
    ensures k.Some? ==> forall j :: 0 <= j < k.value ==> users[j].email != email
  {
    if users == [] then None
    else if users[0].email == email then Some(0)
    else
      match FindByEmail(users[1..], email)
      case None => None
      case Some(k) => Some(k + 1)
  }

  /** With unique emails, the match `find` returns is the only one. */
  lemma FindByEmailUnique(users: seq<StoredUser>, email: string, i: nat)
    requires EmailsUnique(users)
    requires i < |users| && users[i].email == email
    ensures FindByEmail(users, email) == Some(i)
  {
  }

  /** The `map` of `resetPassword` and `updatePassword`: every user with the
      email gets `hash`; nothing else changes. */
  function RehashWhere(users: seq<StoredUser>, email: string, hash: PasswordHash): (r: seq<StoredUser>)
    ensures |r| == |users|
    ensures forall i :: 0 <= i < |r| ==>
      r[i] == if users[i].email == email then users[i].(passwordHash := hash) else users[i]
  {
    if users == [] then []
    else
      [if users[0].email == email then users[0].(passwordHash := hash) else users[0]]
      + RehashWhere(users[1..], email, hash)
  }

  /** Rewriting hashes keeps emails unique, and keeps every other field. */
  lemma RehashKeepsEmailsUnique(users: seq<StoredUser>, email: string, hash: PasswordHash)
    ensures var r := RehashWhere(users, email, hash);
      && (forall i :: 0 <= i < |r| ==> Public(r[i]) == Public(users[i]))
      && (EmailsUnique(users) ==> EmailsUnique(r))
  {
  }

  /** Appending a user whose email is not yet present keeps emails unique. */
  lemma AppendKeepsEmailsUnique(users: seq<StoredUser>, u: StoredUser)
    requires EmailsUnique(users)
    requires FindByEmail(users, u.email).None?
    ensures EmailsUnique(users + [u])
  {
  }

  /** Characters that `encodeURIComponent` leaves as they are. */
  predicate IsUnescaped(c: char)
  {
    ('A' <= c <= 'Z') || ('a' <= c <= 'z') || ('0' <= c <= '9')
    || c == '-' || c == '_' || c == '.' || c == '!' || c == '~'
    || c == '*' || c == '\'' || c == '(' || c == ')'
  }

  predicate IsUpperHexDigit(c: char)
  {
    ('0' <= c <= '9') || ('A' <= c <= 'F')
  }

  function HexDigit(n: int): (c: char)
    requires 0 <= n < 16
    ensures IsUpperHexDigit(c)
  {
    if n < 10 then ('0' as int + n) as char else ('A' as int + n - 10) as char
  }

  /** The UTF-8 encoding of one Unicode scalar value. */
  function Utf8Bytes(c: char): (bytes: seq<int>)
    ensures 1 <= |bytes| <= 4
    ensures forall i :: 0 <= i < |bytes| ==> 0 <= bytes[i] < 256
  {
    var n := c as int;
    if n < 0x80 then [n]
    else if n < 0x800 then [0xC0 + n / 0x40, 0x80 + n % 0x40]
    else if n < 0x1_0000 then [0xE0 + n / 0x1000, 0x80 + (n / 0x40) % 0x40, 0x80 + n % 0x40]
    else [0xF0 + n / 0x4_0000, 0x80 + (n / 0x1000) % 0x40, 0x80 + (n / 0x40) % 0x40, 0x80 + n % 0x40]
  }

  /** `%XX` for each byte, with upper-case hex digits. */
  function PercentEncode(bytes: seq<int>): (r: string)
    requires forall i :: 0 <= i < |bytes| ==> 0 <= bytes[i] < 256
    ensures |r| == 3 * |bytes|
    ensures forall i :: 0 <= i < |r| ==> (if i % 3 == 0 then r[i] == '%' else IsUpperHexDigit(r[i]))
  {
    if bytes == [] then []
    else ['%', HexDigit(bytes[0] / 16), HexDigit(bytes[0] % 16)] + PercentEncode(bytes[1..])
  }

  /** `encodeURIComponent(s)`. */
  function EncodeUriComponent(s: string): (r: string)
    ensures forall i :: 0 <= i < |r| ==> IsUnescaped(r[i]) || r[i] == '%' || IsUpperHexDigit(r[i])
  {
    if s == [] then []
    else
      (if IsUnescaped(s[0]) then [s[0]] else PercentEncode(Utf8Bytes(s[0])))
      + EncodeUriComponent(s[1..])
  }

  /** A name made only of unescaped characters is copied as it is. */
  lemma {:induction false} EncodeKeepsUnescaped(s: string)
    requires forall i :: 0 <= i < |s| ==> IsUnescaped(s[i])
    ensures EncodeUriComponent(s) == s
  {
    if s != [] {
      EncodeKeepsUnescaped(s[1..]);
    }
  }

  /** The avatar URL that `register` derives from the name. */
  function AvatarUrl(name: string): string
  {
    "https://ui-avatars.com/api/?name=" + EncodeUriComponent(name) + "&background=random"
  }

  /** The encoded name cannot end the `name` parameter early: `&`, `=` and `#`
      never occur in it. */
  lemma EncodedNameStaysInParameter(name: string)
    ensures '&' !in EncodeUriComponent(name)
    ensures '=' !in EncodeUriComponent(name)
    ensures '#' !in EncodeUriComponent(name)
  {
  }

  /** The record `register` stores: `newId` is the fresh uuid, `now` the
      creation instant, `salt` the generated salt. */
  function NewStoredUser(name: string, email: string, password: string, role: Role,
                         department: Option<string>, salt: string, newId: string, now: int): StoredUser
  {
    StoredUser(newId, name, email, role, department, Some(AvatarUrl(name)), now, Hash(password, salt))
  }

  /** The zustand store: `user` is the signed-in user, `users` the registry. */
  class AuthStore {
    var user: Option<User>
    var users: seq<StoredUser>

    constructor ()
      ensures user == None && users == []
      ensures EmailsUnique(users)
    {
      user := None;
      users := [];
    }

    /** `login(email, password)`. */
    method Login(email: string, password: string) returns (result: Result<User, AuthError>)
      modifies this`user
      ensures users == old(users)
      ensures match FindByEmail(users, email)
        case None => result == Failure(UserNotFound) && user == old(user)
        case Some(k) =>
          if Compare(password, users[k].passwordHash)
          then result == Success(Public(users[k])) && user == Some(Public(users[k]))
          else result == Failure(InvalidPassword) && user == old(user)
    {
      var found := FindByEmail(users, email);
      if found.None? {
        return Failure(UserNotFound);
      }
      var storedUser := users[found.value];
      if !Compare(password, storedUser.passwordHash) {
        return Failure(InvalidPassword);
      }
      var u := Public(storedUser);
      user := Some(u);
      result := Success(u);
    }

    /** `logout()`. */
    method Logout()
      modifies this`user
      ensures user == None
      ensures users == old(users)
    {
      user := None;
    }

    /** `register(userData)`; `salt`, `newId` and `now` stand for
        `bcrypt.genSalt`, `uuidv4()` and the clock. */
    method Register(name: string, email: string, password: string, role: Role,
                    department: Option<string>, salt: string, newId: string, now: int)
      returns (result: Result<User, AuthError>)
      modifies this`users
      ensures user == old(user)
      ensures FindByEmail(old(users), email).Some? ==>
        result == Failure(EmailAlreadyRegistered) && users == old(users)
      ensures FindByEmail(old(users), email).None? ==>
        var stored := NewStoredUser(name, email, password, role, department, salt, newId, now);
        users == old(users) + [stored] && result == Success(Public(stored))
      ensures old(EmailsUnique(users)) ==> EmailsUnique(users)
    {
      var existing := FindByEmail(users, email);
      if existing.Some? {
        return Failure(EmailAlreadyRegistered);
      }
      var newUser := NewStoredUser(name, email, password, role, department, salt, newId, now);
      users := users + [newUser];
      result := Success(Public(newUser));
    }

    /** `resetPassword(email)`; `tempPassword` stands for the
        `Math.random()` string and `salt` for `bcrypt.genSalt`. */
    method ResetPassword(email: string, tempPassword: string, salt: string)
      returns (result: Result<(), AuthError>)
      modifies this`users
      ensures user == old(user)
      ensures FindByEmail(old(users), email).None? ==>
        result == Failure(UserNotFound) && users == old(users)
      ensures FindByEmail(old(users), email).Some? ==>
        result == Success(()) && users == RehashWhere(old(users), email, Hash(tempPassword, salt))
      ensures old(EmailsUnique(users)) ==> EmailsUnique(users)
    {
      var found := FindByEmail(users, email);
      if found.None? {
        return Failure(UserNotFound);
      }
      RehashKeepsEmailsUnique(users, email, Hash(tempPassword, salt));
      users := RehashWhere(users, email, Hash(tempPassword, salt));
      result := Success(());
    }

    /** `updatePassword(email, newPassword)`: no check of the current password,
        and no error when the email is unknown. */
    method UpdatePassword(email: string, newPassword: string, salt: string)
      modifies this`users
      ensures user == old(user)
      ensures users == RehashWhere(old(users), email, Hash(newPassword, salt))
      ensures FindByEmail(old(users), email).None? ==> users == old(users)
      ensures old(EmailsUnique(users)) ==> EmailsUnique(users)
    {
      RehashKeepsEmailsUnique(users, email, Hash(newPassword, salt));
      users := RehashWhere(users, email, Hash(newPassword, salt));
    }
  }

  /** A successful registration can be logged into with the same password,
      and the login returns the very user that the registration returned. */
  method RegisterThenLogin(store: AuthStore, name: string, email: string, password: string,
                           role: Role, department: Option<string>, salt: string, newId: string, now: int)
    returns (registered: Result<User, AuthError>, loggedIn: Result<User, AuthError>)
    modifies store
    ensures registered.Success? ==> loggedIn == registered && store.user == Some(registered.value)
    ensures registered.Failure? ==> registered.error == EmailAlreadyRegistered
  {
    ghost var prior := store.users;
    registered := store.Register(name, email, password, role, department, salt, newId, now);
    if registered.Success? {
      FindAppended(prior, NewStoredUser(name, email, password, role, department, salt, newId, now));
    }
    loggedIn := store.Login(email, password);
  }

  /** A user appended under an email nobody has is found at the end. */
  lemma FindAppended(users: seq<StoredUser>, u: StoredUser)
    requires FindByEmail(users, u.email).None?
    ensures FindByEmail(users + [u], u.email) == Some(|users|)
  {
    var after := users + [u];
    assert after[|users|] == u;
    assert forall i :: 0 <= i < |users| ==> after[i] == users[i];
  }

  /** Rewriting hashes moves no email, so `find` lands where it did, now on
      the rewritten user when the emails agree. */
  lemma {:induction false} FindAfterRehash(users: seq<StoredUser>, rehashed: string, hash: PasswordHash, email: string)
    ensures FindByEmail(RehashWhere(users, rehashed, hash), email) == FindByEmail(users, email)
  {
    if users != [] {
      FindAfterRehash(users[1..], rehashed, hash, email);
      assert RehashWhere(users, rehashed, hash)[1..] == RehashWhere(users[1..], rehashed, hash);
    }
  }

  /** After `updatePassword`, a registered email logs in with the new password. */
  method UpdateThenLogin(store: AuthStore, email: string, newPassword: string, salt: string)
    returns (loggedIn: Result<User, AuthError>)
    modifies store
    ensures FindByEmail(old(store.users), email).Some? ==> loggedIn.Success?
    ensures FindByEmail(old(store.users), email).None? ==> loggedIn == Failure(UserNotFound)
  {
    FindAfterRehash(store.users, email, Hash(newPassword, salt), email);
    store.UpdatePassword(email, newPassword, salt);
    loggedIn := store.Login(email, newPassword);
  }
}
