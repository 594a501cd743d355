/** The site's route table and its two path builders. */
module Routes {
  import opened Wrappers
  import opened JsText
  import JsNumber

  const Home := "/"
  const NotFound := "/not-found"
  const SectionsRoute := "/sections"
  const AdminPanelRoute := "/admin"

  /** `getSectionDetailRoute(id)`: the section list's path followed by the id. */
  function SectionDetailRoute(id: string): (r: string)
    ensures |r| == |"/sections/"| + |id| && r[..10] == "/sections/" && r[10..] == id
  {
    "/sections/" + id
  }

  /** `getHashSectionDetailRoute(id)`, the same route for the hash router. */
  function HashSectionDetailRoute(id: string): (r: string)
    ensures r == "#" + SectionDetailRoute(id)
  {
    "#/sections/" + id
  }

  /** The id part of a section route, or `None` for any other path. */
  function SectionIdOf(path: string): (id: Option<string>)
    ensures id.Some? ==> path == SectionDetailRoute(id.value)
  {
    if |path| >= 10 && path[..10] == "/sections/" then Some(path[10..]) else None
  }

  /** The id is recovered from every section route. */
  lemma SectionRouteRoundTrip(id: string)
    ensures SectionIdOf(SectionDetailRoute(id)) == Some(id)
  {
    var r := SectionDetailRoute(id);
    assert r[..10] == "/sections/";
    assert r[10..] == id;
  }

  /** The hash route is '#' followed by the plain route, from which the id is recovered. */
  lemma HashRouteRoundTrip(id: string)
    ensures |HashSectionDetailRoute(id)| > 0 && HashSectionDetailRoute(id)[0] == '#'
    ensures SectionIdOf(HashSectionDetailRoute(id)[1..]) == Some(id)
  {
    assert HashSectionDetailRoute(id)[1..] == SectionDetailRoute(id);
    SectionRouteRoundTrip(id);
  }

  /** A numeric id written into a route and read back with `parseInt(…, 10)` is the same number. */
  lemma NumericSectionRoute(n: nat)
    ensures SectionIdOf(SectionDetailRoute(JsNumber.NatToString(n))).Some?
    ensures JsNumber.ParseInt(SectionIdOf(SectionDetailRoute(JsNumber.NatToString(n))).value) == JsNumber.Finite(n)
  {
    SectionRouteRoundTrip(JsNumber.NatToString(n));
    JsNumber.NatToStringRoundTrip(n);
  }

  /** `path.replace(':' + key, value)` for each parameter, in key order, each on the previous step's result. */
  function ApplyParams(path: string, params: seq<(string, string)>): string
    decreases |params|
  {
    if params == [] then path
    else ApplyParams(ReplaceFirst(path, ":" + params[0].0, params[0].1), params[1..])
  }

  /** `generatePath(route, params)`; `None` is a missing `params` object. */
  method GeneratePath(route: string, params: Option<seq<(string, string)>>) returns (path: string)
    ensures params.None? ==> path == route
    ensures params.Some? ==> path == ApplyParams(route, params.value)
  {
    path := route;
    if params.Some? {
      var ps := params.value;
      var i := 0;
      while i < |ps|
        invariant 0 <= i <= |ps|
        invariant ApplyParams(path, ps[i..]) == ApplyParams(route, ps)
      {
        assert ps[i..][1..] == ps[i + 1..];
        path := ReplaceFirst(path, ":" + ps[i].0, ps[i].1);
        i := i + 1;
      }
      assert ps[i..] == [];
    }
  }

  /** With no parameter the route comes back unchanged. */
  lemma NoParamsUnchanged(route: string)
    ensures ApplyParams(route, []) == route
  {
  }

  /** A key whose placeholder does not occur leaves the path as it was before that step. */
  lemma AbsentKeyUnchanged(path: string, key: string, value: string, rest: seq<(string, string)>)
    requires !Contains(path, ":" + key)
    ensures ApplyParams(path, [(key, value)] + rest) == ApplyParams(path, rest)
  {
    ReplaceFirstSpec(path, ":" + key, value);
    assert ([(key, value)] + rest)[1..] == rest;
  }

  /** The first placeholder of `key`, preceded by text without ':', is replaced by `value`. */
  lemma FillPlaceholder(before: string, key: string, after: string, value: string)
    requires ':' !in before
    ensures ReplaceFirst(before + ":" + key + after, ":" + key, value) == before + value + after
  {
    var s, p := before + ":" + key + after, ":" + key;
    assert s[|before|..|before| + |p|] == p;
    assert s[..|before|] == before;
    NoOccurrenceBefore(s, p, |before|);
    IndexOfFirst(s, p, |before|);
    assert s[|before| + |p|..] == after;
  }

  /** Only the first placeholder of a key is filled: `/:id/:id` with id 7 gives `/7/:id`. */
  lemma FirstPlaceholderOnly()
    ensures ApplyParams("/:id/:id", [("id", "7")]) == "/7/:id"
  {
    assert "/:id/:id" == "/" + ":" + "id" + "/:id";
    FillPlaceholder("/", "id", "/:id", "7");
  }

  /** A later key can match text that an earlier value inserted. */
  lemma LaterKeySeesEarlierValue()
    ensures ApplyParams("/a/:x", [("x", ":y"), ("y", "1")]) == "/a/1"
  {
    assert "/a/:x" == "/a/" + ":" + "x" + "";
    FillPlaceholder("/a/", "x", "", ":y");
    assert "/a/" + ":y" + "" == "/a/" + ":" + "y" + "";
    FillPlaceholder("/a/", "y", "", "1");
  }

  /** Filling the detail template's one placeholder gives the detail route. */
  lemma TemplateGivesDetailRoute(id: string)
    ensures ApplyParams("/sections/:id", [("id", id)]) == SectionDetailRoute(id)
  {
    assert "/sections/:id" == "/sections/" + ":" + "id" + "";
    FillPlaceholder("/sections/", "id", "", id);
  }
}
