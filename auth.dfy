/**
 * Admin authentication (src/auth.py): a configured password, which Python
 * may leave as `None` (here `None`) or empty, and the set of users who
 * have authenticated.
 */
module Auth {
  import opened Wrappers

  class AdminAuth {
    const password: Option<string>
    var pool: set<string>

    constructor(password: Option<string>)
      ensures this.password == password && pool == {}
    {
      this.password := password;
      pool := {};
    }

    /** `authenticate`: a candidate passes only against a set, non-empty password that it equals. */
    predicate Authenticate(candidate: Option<string>) {
      password.Some? && password.value != "" && candidate == password
    }

    /** Without a password every candidate fails; with one, exactly that password passes. */
    lemma AuthenticateSpec(candidate: Option<string>)
      ensures password.None? || password == Some("") ==> !Authenticate(candidate)
      ensures password.Some? && password.value != "" ==> (Authenticate(candidate) <==> candidate == Some(password.value))
      ensures !Authenticate(None)
    {
    }

    /** `is_admin`: membership in the pool. */
    predicate IsAdmin(user: string)
      reads this
    {
      user in pool
    }

    /** `add`: put the user in the pool. */
    method Add(user: string)
      modifies this
      ensures pool == old(pool) + {user}
    {
      pool := pool + {user};
    }

    /** `remove`: take the user out of the pool, if there. */
    method Remove(user: string)
      modifies this
      ensures pool == old(pool) - {user}
    {
      if user in pool {
        pool := pool - {user};
      }
    }
  }

  /** The module's own scenario: the answers of each query in order. */
  method AuthScenario() returns (results: seq<bool>)
    ensures results == [false, false, false, false, true, false, true, false]
  {
    var admins := new AdminAuth(None);
    var r1 := admins.Authenticate(None);
    var r2 := admins.Authenticate(Some("password"));
    admins := new AdminAuth(Some("password"));
    var r3 := admins.Authenticate(None);
    var r4 := admins.Authenticate(Some("wrongpassword"));
    var r5 := admins.Authenticate(Some("password"));
    var r6 := admins.IsAdmin("user");
    admins.Add("user");
    var r7 := admins.IsAdmin("user");
    admins.Add("user");
    admins.Remove("user");
    var r8 := admins.IsAdmin("user");
    admins.Remove("user");
    results := [r1, r2, r3, r4, r5, r6, r7, r8];
  }
}
