/** The insert-only user table (user/database/src/user_database.cpp). */
module UserDatabase {
  datatype User = User(username: string, password: string)

  type Users = map<string, string>

  const ANONYMOUS := "anonymous"

  predicate RequirePassword(user: User) {
    user.username != ANONYMOUS
  }

  predicate Verified(users: Users, user: User) {
    !RequirePassword(user) || (user.username in users && users[user.username] == user.password)
  }

  /** A pair that may log in: the anonymous user with any password, or one in the table. */
  predicate Knows(users: Users, name: string, password: string) {
    name == "anonymous" || (name in users && users[name] == password)
  }

  /** Exactly these verify. */
  lemma VerifiedIff(users: Users, user: User)
    ensures Verified(users, user) <==> Knows(users, user.username, user.password)
  {
  }

  /** An insertion adds the pair of a new name other than "anonymous", and leaves every other entry alone. */
  lemma InsertedIs(users: Users, user: User)
    ensures var after := Inserted(users, user);
            && (forall name :: name != user.username ==>
                  (name in after <==> name in users) && (name in users ==> after[name] == users[name]))
            && (if user.username in users then
                  user.username in after && after[user.username] == users[user.username]
                else if user.username == "anonymous" then "anonymous" !in after
                else user.username in after && after[user.username] == user.password)
  {
  }

  /** The table after an insertion, which never touches an entry that is there. */
  function Inserted(users: Users, user: User): Users {
    if RequirePassword(user) && user.username !in users then users[user.username := user.password] else users
  }

  /** Whoever verifies keeps verifying, and an insertion lets in exactly the inserted user. */
  lemma InsertionIsMonotone(users: Users, added: User, user: User)
    ensures Verified(Inserted(users, added), user) <==>
            Verified(users, user) || (user == added && added.username !in users)
  {
  }

  class UserDatabase {
    var users: Users

    constructor ()
      ensures users == map[]
    {
      users := map[];
    }

    method Add(user: User) returns (added: bool)
      modifies this
      ensures users == Inserted(old(users), user)
      ensures added <==> user.username != "anonymous" && user.username !in old(users)
      ensures forall name :: name in old(users) ==> name in users && users[name] == old(users)[name]
      ensures added ==> users == old(users)[user.username := user.password]
      ensures !added ==> users == old(users)
    {
      if !RequirePassword(user) {
        return false;
      }
      added := user.username !in users;
      if added {
        users := users[user.username := user.password];
      }
    }

    method Verify(user: User) returns (verified: bool)
      ensures verified == Verified(users, user)
      ensures verified <==>
                user.username == "anonymous" || (user.username in users && users[user.username] == user.password)
    {
      if !RequirePassword(user) {
        return true;
      }
      verified := user.username in users && users[user.username] == user.password;
    }
  }
}
