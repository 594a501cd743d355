/**
 * The administration page: its own sign-in with fixed credentials, the admin flag derived
 * from the signed-in user or the session, the section search, sign-out, and the handling of a
 * section saved by the editor.
 */
module AdminPanel {
  import opened Wrappers
  import opened JsText
  import Lists
  import Catalogue
  import Routes
  import opened BrowserStorage
  import UserContext

  const AdminUser := "admin"
  const AdminPass := "csa2024"
  const BadCredentials := "Identifiants invalides. Veuillez réessayer."

  /** The search test: the lower-cased, untrimmed query in the lower-cased name or category. */
  predicate Matches(s: Catalogue.Section, query: string) {
    Contains(ToLower(s.name), ToLower(query)) || Contains(ToLower(s.category), ToLower(query))
  }

  function Matching(sections: seq<Catalogue.Section>, query: string): seq<Catalogue.Section> {
    Lists.Filter(sections, (s: Catalogue.Section) => Matches(s, query))
  }

  /** `filteredSections`: everything for a blank query, otherwise the matching sections. */
  function AdminSearch(sections: seq<Catalogue.Section>, query: string): (r: seq<Catalogue.Section>)
    ensures IsBlank(query) ==> r == sections
    ensures !IsBlank(query) ==> forall i :: 0 <= i < |r| ==> r[i] in sections && Matches(r[i], query)
    ensures !IsBlank(query) ==> forall i :: 0 <= i < |sections| && Matches(sections[i], query) ==> sections[i] in r
  {
    if IsBlank(query) then sections else Matching(sections, query)
  }

  /** The search keeps catalogue order. */
  lemma AdminSearchKeepsOrder(sections: seq<Catalogue.Section>, query: string)
    ensures Lists.IsSubseq(AdminSearch(sections, query), sections)
  {
    Lists.FilterIsSubseq(sections, (s: Catalogue.Section) => Matches(s, query));
    if IsBlank(query) {
      Lists.FilterKeepsAll(sections, (s: Catalogue.Section) => true);
      Lists.FilterIsSubseq(sections, (s: Catalogue.Section) => true);
    }
  }

  /** `sections.map(...)` in `handleSaveSection`: the entry with the saved id replaced by the saved section. */
  function MergedById(sections: seq<Catalogue.Section>, updated: Catalogue.Section): (r: seq<Catalogue.Section>)
    ensures |r| == |sections|
    ensures forall i :: 0 <= i < |r| ==> r[i] == if sections[i].id == updated.id then updated else sections[i]
  {
    seq(|sections|, i requires 0 <= i < |sections| => if sections[i].id == updated.id then updated else sections[i])
  }

  function SavedMessage(name: string): string {
    "La section \"" + name + "\" a été mise à jour avec succès."
  }

  datatype Kind = NoKind | Success

  datatype Banner = Banner(text: string, kind: Kind)

  const NoBanner := Banner("", NoKind)

  class Panel {
    /** The static catalogue the page imports. */
    const catalogue: seq<Catalogue.Section>
    const ctx: UserContext.UserProvider
    var isAdmin: bool
    var username: string
    var password: string
    var error: string
    var editing: Option<Catalogue.Section>
    var searchQuery: string
    var filtered: seq<Catalogue.Section>
    var banner: Banner
    /** The five-second timer that clears the banner. */
    var bannerTimerPending: bool
    /** Where the page has navigated to, if anywhere. */
    var location: Option<string>

    /** The search effect has run for the current query. */
    predicate Valid()
      reads this
    {
      filtered == AdminSearch(catalogue, searchQuery)
    }

    /** The page as first rendered, with the search effect applied to the empty query. */
    constructor(sections: seq<Catalogue.Section>, context: UserContext.UserProvider)
      ensures Valid() && catalogue == sections && ctx == context
      ensures !isAdmin && username == "" && password == "" && error == "" && editing.None?
      ensures searchQuery == "" && filtered == sections && banner == NoBanner && !bannerTimerPending
      ensures location.None?
    {
      catalogue := sections;
      ctx := context;
      isAdmin := false;
      username := "";
      password := "";
      error := "";
      editing := None;
      searchQuery := "";
      filtered := sections;
      banner := NoBanner;
      bannerTimerPending := false;
      location := None;
    }

    /** The effect on `user` and `isLoading`: once loading is over, admin iff admin role or admin session. */
    method AdminFlagEffect()
      requires Valid()
      modifies this`isAdmin
      ensures Valid()
      ensures !ctx.isLoading ==> isAdmin == (UserContext.HasAdminRole(ctx.user) || ctx.store.SessionFlag(AdminSessionKey))
      ensures !ctx.isLoading ==> isAdmin == ctx.IsAdmin()
      ensures ctx.isLoading ==> isAdmin == old(isAdmin)
    {
      if !ctx.isLoading {
        isAdmin := UserContext.HasAdminRole(ctx.user) || ctx.store.SessionFlag(AdminSessionKey);
      }
    }

    /** Typing in the search box; the effect recomputes the list. */
    method SetSearch(query: string)
      requires Valid()
      modifies this`searchQuery, this`filtered
      ensures Valid() && searchQuery == query
    {
      searchQuery := query;
      filtered := AdminSearch(catalogue, query);
    }

    method SetUsername(value: string)
      requires Valid()
      modifies this`username
      ensures Valid() && username == value
    {
      username := value;
    }

    method SetPassword(value: string)
      requires Valid()
      modifies this`password
      ensures Valid() && password == value
    {
      password := value;
    }

    /** `handleLogin`: only the fixed pair opens the panel, sets the session flag and empties both inputs. */
    method Login()
      requires Valid()
      modifies this`error, this`isAdmin, this`username, this`password, ctx.store`session
      ensures Valid()
      ensures old(username) == AdminUser && old(password) == AdminPass ==>
        isAdmin && error == "" && username == "" && password == ""
        && ctx.store.session == old(ctx.store.session)[AdminSessionKey := "true"]
      ensures !(old(username) == AdminUser && old(password) == AdminPass) ==>
        isAdmin == old(isAdmin) && error == BadCredentials && username == old(username) && password == old(password)
        && ctx.store.session == old(ctx.store.session)
    {
      error := "";
      if username == AdminUser && password == AdminPass {
        isAdmin := true;
        ctx.store.session := ctx.store.session[AdminSessionKey := "true"];
        username := "";
        password := "";
      } else {
        error := BadCredentials;
      }
    }

    /** `handleLogout`: the panel closes, the session flag goes, a signed-in user is signed out, and the page goes home. */
    method Logout()
      requires Valid()
      modifies this`isAdmin, this`location, ctx.store`session, ctx.store`local, ctx`user
      ensures Valid()
      ensures !isAdmin && ctx.store.session == old(ctx.store.session) - {AdminSessionKey}
      ensures old(ctx.user).Some? ==> ctx.user.None? && ctx.store.local == old(ctx.store.local) - {UserKey}
      ensures old(ctx.user).None? ==> ctx.user.None? && ctx.store.local == old(ctx.store.local)
      ensures location == Some(Routes.Home)
      ensures !ctx.IsAdmin()
    {
      isAdmin := false;
      ctx.store.session := ctx.store.session - {AdminSessionKey};
      if ctx.user.Some? {
        ctx.Logout();
      }
      location := Some(Routes.Home);
    }

    method StartEditing(s: Catalogue.Section)
      requires Valid()
      modifies this`editing
      ensures Valid() && editing == Some(s)
    {
      editing := Some(s);
    }

    /** The editor's `onCancel`. */
    method CancelEditing()
      requires Valid()
      modifies this`editing
      ensures Valid() && editing.None?
    {
      editing := None;
    }

    /**
     * `handleSaveSection`: the merged list is computed and dropped, so the catalogue and the
     * listed sections stay as they were; a success banner names the section and the editor closes.
     */
    method SaveSection(updated: Catalogue.Section) returns (merged: seq<Catalogue.Section>)
      requires Valid()
      modifies this`banner, this`bannerTimerPending, this`editing
      ensures Valid() && filtered == old(filtered)
      ensures merged == MergedById(catalogue, updated)
      ensures banner == Banner(SavedMessage(updated.name), Success) && bannerTimerPending && editing.None?
    {
      merged := MergedById(catalogue, updated);
      banner := Banner(SavedMessage(updated.name), Success);
      bannerTimerPending := true;
      editing := None;
    }

    method BannerElapsed()
      requires Valid() && bannerTimerPending
      modifies this`banner, this`bannerTimerPending
      ensures Valid() && banner == NoBanner && !bannerTimerPending
    {
      banner := NoBanner;
      bannerTimerPending := false;
    }
  }
}
