/**
  The user store (src/user/repository.rs): a vector of users searched front to back.
  `find_by_id` and `update_password` are called by the service layer but are not in the
  file; they are modelled as the call sites use them.
 */
module UserRepo {
  import opened Common
  import opened Model
  import Seqs

  ghost predicate UniqueUsernames(users: seq<User>) {
    forall i, j :: 0 <= i < j < |users| ==> users[i].username != users[j].username
  }

  ghost predicate UniqueEmails(users: seq<User>) {
    forall i, j :: 0 <= i < j < |users| ==> users[i].email != users[j].email
  }

  ghost predicate UniqueIds(users: seq<User>) {
    forall i, j :: 0 <= i < j < |users| ==> users[i].id != users[j].id
  }

  /** Appending a user whose username (email, id) is new keeps usernames (emails, ids) unique. */
  lemma AppendKeepsUnique(users: seq<User>, user: User)
    ensures UniqueUsernames(users) && (forall u :: u in users ==> u.username != user.username)
      ==> UniqueUsernames(users + [user])
    ensures UniqueEmails(users) && (forall u :: u in users ==> u.email != user.email)
      ==> UniqueEmails(users + [user])
    ensures UniqueIds(users) && (forall u :: u in users ==> u.id != user.id)
      ==> UniqueIds(users + [user])
  {
    var s := users + [user];
    assert forall i :: 0 <= i < |users| ==> s[i] == users[i] && s[i] in users;
  }

  /** The store after `update_password(id, newHash)`: every user with that id gets the new hash,
      nothing else changes. */
  function WithPassword(users: seq<User>, id: Uuid, newHash: string): (r: seq<User>)
    ensures |r| == |users|
    ensures forall i :: 0 <= i < |users| ==>
      r[i].id == users[i].id && r[i].username == users[i].username
      && r[i].email == users[i].email && r[i].createdAt == users[i].createdAt
    ensures forall i :: 0 <= i < |users| ==>
      r[i].passwordHash == if users[i].id == id then newHash else users[i].passwordHash
  {
    if |users| == 0 then []
    else
      var first := if users[0].id == id then users[0].(passwordHash := newHash) else users[0];
      [first] + WithPassword(users[1..], id, newHash)
  }

  /** Updating the hash of an id no user has is a no-op. */
  lemma WithPasswordUnknownId(users: seq<User>, id: Uuid, newHash: string)
    requires forall u :: u in users ==> u.id != id
    ensures WithPassword(users, id, newHash) == users
  {
    var r := WithPassword(users, id, newHash);
    assert forall i :: 0 <= i < |users| ==> r[i] == users[i];
  }

  /** Updating a hash keeps usernames, emails and ids unique. */
  lemma WithPasswordKeepsUniqueness(users: seq<User>, id: Uuid, newHash: string)
    ensures UniqueUsernames(users) ==> UniqueUsernames(WithPassword(users, id, newHash))
    ensures UniqueEmails(users) ==> UniqueEmails(WithPassword(users, id, newHash))
    ensures UniqueIds(users) ==> UniqueIds(WithPassword(users, id, newHash))
  {
  }

  class UserRepository {
    var users: seq<User>

    /** `UserRepository::new`. */
    constructor ()
      ensures users == []
    {
      users := [];
    }

    /** `add_user`: an unconditional push; duplicates are the caller's concern. */
    method AddUser(user: User)
      modifies this
      ensures users == old(users) + [user]
      ensures old(FindByUsername(user.username)).None? ==> FindByUsername(user.username) == Some(user)
      ensures old(FindByEmail(user.email)).None? ==> FindByEmail(user.email) == Some(user)
      ensures old(FindById(user.id)).None? ==> FindById(user.id) == Some(user)
    {
      users := users + [user];
    }

    /** `find_by_username`: the first user whose username is exactly `username`. */
    function FindByUsername(username: string): (r: Option<User>)
      reads this
      ensures r.None? <==> forall u :: u in users ==> u.username != username
      ensures r.Some? ==> r.value in users && r.value.username == username
      ensures r.Some? ==> exists i :: (0 <= i < |users| && users[i] == r.value
                                        && forall j :: 0 <= j < i ==> users[j].username != username)
    {
      Seqs.Find(users, (u: User) => u.username == username)
    }

    /** `find_by_email`: the first user whose email is exactly `email`. */
    function FindByEmail(email: string): (r: Option<User>)
      reads this
      ensures r.None? <==> forall u :: u in users ==> u.email != email
      ensures r.Some? ==> r.value in users && r.value.email == email
      ensures r.Some? ==> exists i :: (0 <= i < |users| && users[i] == r.value
                                        && forall j :: 0 <= j < i ==> users[j].email != email)
    {
      Seqs.Find(users, (u: User) => u.email == email)
    }

    /** `find_by_id`: the first user with identifier `id`. */
    function FindById(id: Uuid): (r: Option<User>)
      reads this
      ensures r.None? <==> forall u :: u in users ==> u.id != id
      ensures r.Some? ==> r.value in users && r.value.id == id
      ensures r.Some? ==> exists i :: (0 <= i < |users| && users[i] == r.value
                                        && forall j :: 0 <= j < i ==> users[j].id != id)
    {
      Seqs.Find(users, (u: User) => u.id == id)
    }

    /** `update_password`: replace the hash of the user(s) with identifier `id`. */
    method UpdatePassword(id: Uuid, newHash: string)
      modifies this
      ensures users == WithPassword(old(users), id, newHash)
    {
      users := WithPassword(users, id, newHash);
    }
  }
}
