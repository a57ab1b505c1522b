/** The in-memory user store used by the tests
    (internal/domain/user/fake_repository.go): a list of accounts in which an
    e-mail address identifies at most one account. */
module UserRepo {
  import opened Wrappers

  /** `User` (user/entity.go); the creation time is not modelled. */
  datatype User = User(ID: int, Email: string, PasswordHash: string, Role: string, Status: string)

  /** `sqlc.ListUsersRow`: the public part of an account. */
  datatype UserRow = UserRow(ID: int, Email: string)

  /** user/errors.go */
  const ErrUserAlreadyExists: string := "user already exists"
  const ErrInvalidCredentials: string := "invalid credentials"

  const DefaultRole: string := "user"
  const DefaultStatus: string := "active"

  predicate EmailTaken(users: seq<User>, email: string) {
    exists i :: 0 <= i < |users| && users[i].Email == email
  }

  /** The account as stored: numbered after the ones before it, with an empty
      role or status replaced by its default. */
  function Stored(u: User, count: nat): (s: User)
    ensures s.Role != "" && s.Status != ""
  {
    u.(ID := count + 1,
       Role := if u.Role == "" then DefaultRole else u.Role,
       Status := if u.Status == "" then DefaultStatus else u.Status)
  }

  /** Account i (from 0) has id i + 1. */
  ghost predicate Numbered(users: seq<User>) {
    forall i :: 0 <= i < |users| ==> users[i].ID == i + 1
  }

  /** No two accounts share an e-mail. */
  ghost predicate EmailsUnique(users: seq<User>) {
    forall i, j :: 0 <= i < j < |users| ==> users[i].Email != users[j].Email
  }

  /** Storing an account whose e-mail is free keeps the store numbered and
      its e-mails unique; the stored account keeps everything the caller chose
      but the id, and a role or status the caller left empty gets its
      default. */
  lemma StoredKeepsStoreWellFormed(users: seq<User>, u: User)
    requires Numbered(users) && EmailsUnique(users) && !EmailTaken(users, u.Email)
    ensures Numbered(users + [Stored(u, |users|)]) && EmailsUnique(users + [Stored(u, |users|)])
    ensures Stored(u, |users|).(ID := u.ID, Role := u.Role, Status := u.Status) == u
    ensures u.Role != "" ==> Stored(u, |users|).Role == u.Role
    ensures u.Status != "" ==> Stored(u, |users|).Status == u.Status
    ensures u.Role == "" ==> Stored(u, |users|).Role == DefaultRole
    ensures u.Status == "" ==> Stored(u, |users|).Status == DefaultStatus
  {
    var t := users + [Stored(u, |users|)];
    forall i, j | 0 <= i < j < |t|
      ensures t[i].Email != t[j].Email
    {
      if j == |users| {
        assert t[i] == users[i];
      }
    }
  }

  /** Account i is the first with that e-mail. */
  predicate FirstWithEmail(users: seq<User>, email: string, i: int) {
    0 <= i < |users| && users[i].Email == email && forall k :: 0 <= k < i ==> users[k].Email != email
  }

  /** The public listing of a store. */
  function Rows(users: seq<User>): (r: seq<UserRow>)
    ensures |r| == |users|
  {
    seq(|users|, i requires 0 <= i < |users| => UserRow(users[i].ID, users[i].Email))
  }

  /** Listing is compositional: the listing of a store that grew is the old
      listing followed by the new rows, and a listing of a well-formed store
      names each e-mail at most once, under the account's position. */
  lemma RowsOfAppend(a: seq<User>, b: seq<User>)
    ensures Rows(a + b) == Rows(a) + Rows(b)
  {
    assert forall i :: 0 <= i < |a| ==> (a + b)[i] == a[i];
    assert forall i :: 0 <= i < |b| ==> (a + b)[|a| + i] == b[i];
  }

  lemma RowsOfWellFormed(users: seq<User>)
    requires Numbered(users) && EmailsUnique(users)
    ensures forall i :: 0 <= i < |users| ==> Rows(users)[i].ID == i + 1
    ensures forall i, j :: 0 <= i < j < |users| ==> Rows(users)[i].Email != Rows(users)[j].Email
  {
  }

  class FakeRepository {
    var Users: seq<User>

    /** Account i (from 0) has id i + 1, and no two accounts share an
        e-mail. */
    ghost predicate Valid()
      reads this
    {
      Numbered(Users) && EmailsUnique(Users)
    }

    /** `NewFakeRepository` */
    constructor ()
      ensures Valid() && Users == []
    {
      Users := [];
    }

    /** `Create` (fake_repository.go:21-44): a taken e-mail is refused without
        change; otherwise the account is stored with the next position as its
        id and the default role and status filled in. */
    method Create(u: User) returns (r: Result<User>)
      modifies this
      ensures old(Valid()) ==> Valid()
      ensures r.Err? <==> EmailTaken(old(Users), u.Email)
      ensures r.Err? ==> r.error == ErrUserAlreadyExists && Users == old(Users)
      ensures r.Ok? ==> r.value == Stored(u, |old(Users)|) && Users == old(Users) + [r.value]
    {
      for i := 0 to |Users|
        invariant forall k :: 0 <= k < i ==> Users[k].Email != u.Email
      {
        if Users[i].Email == u.Email {
          return Err(ErrUserAlreadyExists);
        }
      }
      if Valid() {
        StoredKeepsStoreWellFormed(Users, u);
      }
      var s := Stored(u, |Users|);
      Users := Users + [s];
      return Ok(s);
    }

    /** `GetByEmail` (fake_repository.go:46-54): the first account with that
        e-mail, or "invalid credentials" when there is none. In a well-formed
        store it is the only one. */
    method GetByEmail(email: string) returns (r: Result<User>)
      ensures r.Ok? <==> EmailTaken(Users, email)
      ensures r.Ok? ==> exists i :: FirstWithEmail(Users, email, i) && Users[i] == r.value
      ensures r.Ok? && Valid() ==> forall k :: 0 <= k < |Users| && Users[k].Email == email ==> Users[k] == r.value
      ensures r.Err? ==> r.error == ErrInvalidCredentials
    {
      for i := 0 to |Users|
        invariant forall k :: 0 <= k < i ==> Users[k].Email != email
      {
        if Users[i].Email == email {
          return Ok(Users[i]);
        }
      }
      return Err(ErrInvalidCredentials);
    }

    /** `ListUsers` (fake_repository.go:56-67): one row per account, in
        storage order. */
    method ListUsers() returns (list: seq<UserRow>)
      ensures list == Rows(Users)
    {
      list := [];
      for i := 0 to |Users|
        invariant list == Rows(Users[..i])
      {
        list := list + [UserRow(Users[i].ID, Users[i].Email)];
      }
      assert Users[..|Users|] == Users;
    }
  }
}
