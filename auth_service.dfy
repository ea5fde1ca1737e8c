/**
 * Services/AuthService.cs: login by username and password hash,
 * registration with a unique username, and password change. The SHA-256 /
 * Base64 `HashPassword` is the uninterpreted deterministic function `hash`.
 */
module Auth {
  import opened Wrappers
  import opened Models
  import opened Snapshots
  import opened Repositories

  /** No two users share a username. `Register` keeps this. */
  ghost predicate UniqueUsernames(s: seq<User>) {
    forall i, j :: 0 <= i < j < |s| ==> s[i].data.username != s[j].data.username
  }

  class AuthService {
    const users: UserRepository
    /** `HashPassword`: a fixed, unsalted one-way function of the password. */
    const hash: string -> string

    constructor (users: UserRepository, hash: string -> string)
      ensures this.users == users && this.hash == hash
    {
      this.users := users;
      this.hash := hash;
    }

    /**
     * `AuthenticateAsync`: the first user with that username, when its
     * stored hash is `hash(password)`. An unknown username and a wrong
     * password give the same `None`.
     */
    function Authenticate(username: string, password: string): (r: Option<User>)
      reads users
      ensures r.Some? <==> GetByUsername(users, username).Some? &&
                           GetByUsername(users, username).value.data.passwordHash == hash(password)
      ensures r.Some? ==> r == GetByUsername(users, username)
    {
      match GetByUsername(users, username)
      case None => None
      case Some(u) => if u.data.passwordHash == hash(password) then Some(u) else None
    }

    /**
     * `RegisterAsync`: a username already in use raises
     * `InvalidOperationException` and adds nothing; otherwise the user is
     * created with `hash(password)` and the role, and logging in with the
     * same username and password then yields that user.
     */
    method Register(username: string, password: string, role: UserRole, now: Timestamp)
      returns (r: Result<User, Error>)
      requires users.Valid()
      modifies users
      ensures users.Valid()
      ensures old(GetByUsername(users, username)).Some? ==>
                r == Failure(InvalidOperation) && users.items == old(users.items)
      ensures old(GetByUsername(users, username)).None? ==>
                r == Success(Entity(NextId(old(users.items)), UserInfo(username, hash(password), role, now))) &&
                users.items == old(users.items) + [r.value]
      ensures r.Success? ==> Authenticate(username, password) == Some(r.value)
      ensures old(UniqueUsernames(users.items)) ==> UniqueUsernames(users.items)
    {
      var existing := GetByUsername(users, username);
      if existing.Some? {
        return Failure(InvalidOperation);
      }
      ghost var before := users.items;
      var created := users.Create(Entity(0, UserInfo(username, hash(password), role, now)));
      FirstIndexAppend(before, created, UsernameIs(username));
      assert UsernameIs(username)(created);
      r := Success(created);
    }

    /**
     * `ChangePasswordAsync`: `false` and no change when no user has the id
     * or `hash(oldPassword)` is not the stored hash; otherwise the first
     * user with the id gets `hash(newPassword)` and nothing else changes.
     */
    method ChangePassword(userId: int, oldPassword: string, newPassword: string)
      returns (ok: bool)
      requires users.Valid()
      modifies users
      ensures users.Valid()
      ensures ok == (old(users.GetById(userId)).Some? &&
                     old(users.GetById(userId)).value.data.passwordHash == hash(oldPassword))
      ensures !ok ==> users.items == old(users.items)
      ensures ok ==>
                var k := old(FirstIndex(users.items, IdIs(userId))).value;
                var u := old(users.items[k]);
                users.items == old(users.items)[k := u.(data := u.data.(passwordHash := hash(newPassword)))]
    {
      var user := users.GetById(userId);
      if user.None? {
        return false;
      }
      var u := user.value;
      if u.data.passwordHash != hash(oldPassword) {
        return false;
      }
      var _ := users.Update(u.(data := u.data.(passwordHash := hash(newPassword))));
      ok := true;
    }
  }

  /**
   * With unique usernames (which `Register` maintains), login succeeds
   * exactly when some user has that username and the hash of the password.
   */
  lemma AuthenticateWithUniqueUsernames(a: AuthService, username: string, password: string)
    requires UniqueUsernames(a.users.items)
    ensures a.Authenticate(username, password).Some? <==>
              exists i :: 0 <= i < |a.users.items| &&
                          a.users.items[i].data.username == username &&
                          a.users.items[i].data.passwordHash == a.hash(password)
  {
  }
}
