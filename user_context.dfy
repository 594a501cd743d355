/**
 * The signed-in user shared by every page: loaded from storage at start-up, replaced on login,
 * cleared on logout, merged on profile updates.
 */
module UserContext {
  import opened Wrappers
  import opened BrowserStorage

  /** `{ ...user, ...updates }`: every property of `updates`, and the user's other properties. */
  function Merge(user: Option<User>, updates: User): (r: User)
    ensures forall k :: k in updates ==> k in r && r[k] == updates[k]
    ensures user.Some? ==> forall k :: k in user.value && k !in updates ==> k in r && r[k] == user.value[k]
    ensures forall k :: k in r ==> k in updates || (user.Some? && k in user.value)
  {
    if user.Some? then user.value + updates else updates
  }

  /** Merging the same updates twice is the same as merging them once. */
  lemma MergeIdempotent(user: Option<User>, updates: User)
    ensures Merge(Some(Merge(user, updates)), updates) == Merge(user, updates)
  {
  }

  /** `user?.role === 'admin'`. */
  predicate HasAdminRole(user: Option<User>) {
    user.Some? && "role" in user.value && user.value["role"] == Str("admin")
  }

  /** The user that start-up reads from a `csa_user` entry, if any: an empty string is falsy and is never parsed. */
  function Loaded(entry: Option<Entry>): Option<User> {
    match entry
    case Some(Record(u)) => Some(u)
    case _ => None
  }

  class UserProvider {
    const store: Store
    var user: Option<User>
    var isLoading: bool

    constructor(s: Store)
      ensures store == s && user.None? && isLoading
    {
      store := s;
      user := None;
      isLoading := true;
    }

    /**
     * The mount effect: a stored record becomes the user; text that does not parse is removed;
     * no entry, or an empty one, leaves the user null. Loading ends in every case.
     */
    method Startup()
      modifies this`user, this`isLoading, store`local
      ensures !isLoading && unchanged(store`session)
      ensures var stored := Loaded(if UserKey in old(store.local) then Some(old(store.local)[UserKey]) else None);
        user == if stored.Some? then stored else old(user)
      ensures UserKey in old(store.local) && old(store.local)[UserKey].Raw? && old(store.local)[UserKey].text != ""
        ==> store.local == old(store.local) - {UserKey}
      ensures !(UserKey in old(store.local) && old(store.local)[UserKey].Raw? && old(store.local)[UserKey].text != "")
        ==> store.local == old(store.local)
    {
      if UserKey in store.local {
        match store.local[UserKey]
        case Record(u) =>
          user := Some(u);
        case Raw(text) =>
          if text != "" {
            store.local := store.local - {UserKey};
          }
      }
      isLoading := false;
    }

    method Login(u: User)
      modifies this`user, store`local
      ensures user == Some(u) && store.local == old(store.local)[UserKey := Record(u)]
      ensures Loaded(Some(store.local[UserKey])) == user
    {
      user := Some(u);
      store.local := store.local[UserKey := Record(u)];
    }

    method Logout()
      modifies this`user, store`local
      ensures user.None? && store.local == old(store.local) - {UserKey}
      ensures !IsAuthenticated()
    {
      user := None;
      store.local := store.local - {UserKey};
    }

    method UpdateProfile(updates: User)
      modifies this`user, store`local
      ensures user == Some(Merge(old(user), updates))
      ensures store.local == old(store.local)[UserKey := Record(Merge(old(user), updates))]
    {
      var updated := Merge(user, updates);
      user := Some(updated);
      store.local := store.local[UserKey := Record(updated)];
    }

    /** `!!user`. */
    predicate IsAuthenticated(): (r: bool)
      reads this`user
      ensures r <==> user != None
      ensures !r ==> !HasAdminRole(user)
    {
      user.Some?
    }

    /** `user?.role === 'admin' || sessionStorage.getItem('csaAdminLoggedIn') === 'true'`. */
    predicate IsAdmin(): (r: bool)
      reads this`user, store`session
      ensures !IsAuthenticated() ==> (r <==> AdminSessionKey in store.session && store.session[AdminSessionKey] == "true")
      ensures HasAdminRole(user) ==> r && IsAuthenticated()
    {
      HasAdminRole(user) || store.SessionFlag(AdminSessionKey)
    }
  }
}
