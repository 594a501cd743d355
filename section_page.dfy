/**
 * A section's own page: the lookup of the route's id in the catalogue, the redirect to the
 * not-found page for a missing section or one without a detail page, and the content shown.
 */
module SectionPage {
  import opened Wrappers
  import JsNumber
  import Catalogue
  import Routes
  import AdminEditor

  /** `sections.find(s => s.id === parseInt(sectionId, 10))`; `NaN` equals no id. */
  function FindById(sections: seq<Catalogue.Section>, id: JsNumber.Num): (r: Option<nat>)
    ensures r.Some? ==>
      r.value < |sections| && id == JsNumber.Finite(sections[r.value].id) && forall j :: 0 <= j < r.value ==> id != JsNumber.Finite(sections[j].id)
    ensures r.None? ==> forall j :: 0 <= j < |sections| ==> id != JsNumber.Finite(sections[j].id)
  {
    if sections == [] then None
    else if id == JsNumber.Finite(sections[0].id) then Some(0)
    else
      match FindById(sections[1..], id)
      case None => None
      case Some(k) => Some(k + 1)
  }

  /** A section reached through its own detail route is found again. */
  lemma RouteFindsSection(sections: seq<Catalogue.Section>, k: nat)
    requires k < |sections| && forall j :: 0 <= j < k ==> sections[j].id != sections[k].id
    ensures var path := Routes.SectionDetailRoute(JsNumber.NatToString(sections[k].id));
      Routes.SectionIdOf(path).Some?
      && FindById(sections, JsNumber.ParseInt(Routes.SectionIdOf(path).value)) == Some(k)
  {
    FirstWithIdFound(sections, k);
    Routes.NumericSectionRoute(sections[k].id);
  }

  /** The first section with a given id is the one `FindById` returns for that id. */
  lemma FirstWithIdFound(sections: seq<Catalogue.Section>, k: nat)
    requires k < |sections| && forall j :: 0 <= j < k ==> sections[j].id != sections[k].id
    ensures FindById(sections, JsNumber.Finite(sections[k].id)) == Some(k)
  {
  }

  /** `document.title`: the section's name, then the club's. */
  function PageTitle(name: string): (t: string)
    ensures |t| == |name| + 19 && t[..|name|] == name && t[|name|..] == " - CSA Saint-Priest"
  {
    name + " - CSA Saint-Priest"
  }

  /** `detailContent`: the section's own detail page, or one built from its summary fields. */
  function DetailContentOf(s: Catalogue.Section): (d: Catalogue.DetailContent)
    ensures s.detailPageContent.Some? ==> d == s.detailPageContent.value
    ensures s.detailPageContent.None? ==>
      && d.heroTitle == (if s.name != "" then s.name else "Section")
      && d.heroSubtitle == (if s.description != "" then s.description else "Découvrez notre section")
      && |d.sections| == 1 && d.sections[0].title == "Présentation"
      && d.sections[0].content
         == "<p>" + (if s.fullDescription != "" then s.fullDescription
                     else if s.description != "" then s.description
                     else "Informations à venir.") + "</p>"
      && d.galleryImages == []
  {
    if s.detailPageContent.Some? then s.detailPageContent.value
    else
      Catalogue.DetailContent(
        AdminEditor.OrElse(s.name, "Section"),
        AdminEditor.OrElse(s.description, "Découvrez notre section"),
        [Catalogue.Block("Présentation",
           "<p>" + AdminEditor.OrElse(s.fullDescription, AdminEditor.OrElse(s.description, "Informations à venir.")) + "</p>")],
        [])
  }

  /** For a section with a name and a description, the page shows what the editor starts from. */
  lemma PageAgreesWithEditor(s: Catalogue.Section)
    requires s.name != "" && s.description != ""
    ensures DetailContentOf(s) == if s.detailPageContent.Some? then s.detailPageContent.value else AdminEditor.DefaultDetail(s)
  {
  }

  class Page {
    const catalogue: seq<Catalogue.Section>
    var section: Option<Catalogue.Section>
    var loading: bool
    var title: string
    /** The one-second timer that leads to the not-found page. */
    var redirectPending: bool
    var location: Option<string>

    constructor(sections: seq<Catalogue.Section>, documentTitle: string)
      ensures catalogue == sections && section.None? && loading && title == documentTitle
      ensures !redirectPending && location.None?
    {
      catalogue := sections;
      section := None;
      loading := true;
      title := documentTitle;
      redirectPending := false;
      location := None;
    }

    /**
     * The effect on `sectionId`: a missing section, or one without a detail page, only schedules the
     * redirect; otherwise the section is shown and the document title names it. The previous
     * run's timer is cleared first.
     */
    method Load(sectionId: string)
      modifies this`section, this`loading, this`title, this`redirectPending
      ensures var k := FindById(catalogue, JsNumber.ParseInt(sectionId));
        if k.None? || !catalogue[k.value].hasDetailPage then
          redirectPending && section == old(section) && loading == old(loading) && title == old(title)
        else
          !redirectPending && section == Some(catalogue[k.value]) && !loading
          && title == PageTitle(catalogue[k.value].name)
    {
      redirectPending := false;
      var k := FindById(catalogue, JsNumber.ParseInt(sectionId));
      if k.None? || !catalogue[k.value].hasDetailPage {
        redirectPending := true;
        return;
      }
      var found := catalogue[k.value];
      section := Some(found);
      loading := false;
      title := PageTitle(found.name);
    }

    method RedirectElapsed()
      requires redirectPending
      modifies this`redirectPending, this`location
      ensures !redirectPending && location == Some(Routes.NotFound)
    {
      redirectPending := false;
      location := Some(Routes.NotFound);
    }
  }
}
