/** The home page's grid of sections: the category buttons and the category filter. */
module SectionsGrid {
  import Lists
  import Catalogue

  /** `sections.map(s => s.category)`. */
  function CategoryNames(sections: seq<Catalogue.Section>): (names: seq<string>)
    ensures |names| == |sections|
    ensures forall i :: 0 <= i < |sections| ==> names[i] == sections[i].category
  {
    seq(|sections|, i requires 0 <= i < |sections| => sections[i].category)
  }

  /** `['all', ...new Set(sections.map(s => s.category))]`: each category once, in order of first appearance. */
  function Categories(sections: seq<Catalogue.Section>): (r: seq<string>)
    ensures |r| >= 1 && r[0] == "all"
    ensures forall i :: 0 <= i < |sections| ==> sections[i].category in r[1..]
    ensures forall i :: 1 <= i < |r| ==> exists j :: 0 <= j < |sections| && sections[j].category == r[i]
    ensures Lists.NoDup(r[1..])
    ensures forall i :: 1 <= i < |r| ==> r[i] in CategoryNames(sections)
    ensures forall i, j :: 1 <= i < j < |r| ==>
      Lists.FirstIndex(CategoryNames(sections), r[i]) < Lists.FirstIndex(CategoryNames(sections), r[j])
  {
    var names := CategoryNames(sections);
    var d := Lists.Dedup(names);
    var r := ["all"] + d;
    assert r[1..] == d;
    forall i | 0 <= i < |sections| ensures sections[i].category in r[1..] {
      assert names[i] == sections[i].category && names[i] in d;
    }
    forall i | 1 <= i < |r| ensures exists j :: 0 <= j < |sections| && sections[j].category == r[i] {
      assert r[i] == d[i - 1] && d[i - 1] in names;
      var j :| 0 <= j < |names| && names[j] == r[i];
      assert sections[j].category == r[i];
    }
    r
  }

  function InCategory(sections: seq<Catalogue.Section>, category: string): seq<Catalogue.Section> {
    Lists.Filter(sections, (s: Catalogue.Section) => s.category == category)
  }

  /** `filteredSections`: all of them for 'all', otherwise exactly those of the chosen category. */
  function GridFilter(sections: seq<Catalogue.Section>, category: string): (r: seq<Catalogue.Section>)
    ensures category == "all" ==> r == sections
    ensures category != "all" ==> forall i :: 0 <= i < |r| ==> r[i] in sections && r[i].category == category
    ensures category != "all" ==> forall i :: 0 <= i < |sections| && sections[i].category == category ==> sections[i] in r
  {
    if category == "all" then sections else InCategory(sections, category)
  }

  /** The filter keeps catalogue order. */
  lemma GridFilterKeepsOrder(sections: seq<Catalogue.Section>, category: string)
    ensures Lists.IsSubseq(GridFilter(sections, category), sections)
  {
    Lists.FilterIsSubseq(sections, (s: Catalogue.Section) => s.category == category);
    if category == "all" {
      Lists.FilterKeepsAll(sections, (s: Catalogue.Section) => true);
      Lists.FilterIsSubseq(sections, (s: Catalogue.Section) => true);
    }
  }

  /** No category button leads to an empty grid. */
  lemma NoEmptyCategory(sections: seq<Catalogue.Section>, i: nat)
    requires 1 <= i < |Categories(sections)|
    ensures Categories(sections)[i] != "all" ==> GridFilter(sections, Categories(sections)[i]) != []
  {
    var c := Categories(sections)[i];
    var j :| 0 <= j < |sections| && sections[j].category == c;
    if c != "all" {
      assert sections[j] in GridFilter(sections, c);
    }
  }
}
