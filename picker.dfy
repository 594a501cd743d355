/**
 * The section picker of the multi-section registration form: the catalogue as the form
 * loads it (each section with a representative price), and the "Choisir une section"
 * dialog, which hides what is already selected, applies the search and groups the rest
 * by category.
 */
module SectionPicker {
  import opened Wrappers
  import opened JsText
  import JsNumber
  import Lists
  import StringOrder
  import Catalogue
  import Ledger

  /** An entry of `availableSections`: the section with the price read from its first pricing entry. */
  datatype Offer = Offer(section: Catalogue.Section, price: JsNumber.Num)

  /** The price the form falls back to when a section has no pricing list, and for unusable prices. */
  const DefaultPrice: nat := 180

  /** The whole catalogue can be loaded: no section's price expression throws. */
  predicate CatalogueReadable(sections: seq<Catalogue.Section>) {
    forall i :: 0 <= i < |sections| ==> Catalogue.PriceReadable(sections[i])
  }

  /** The mount effect: every section, in catalogue order, with its parsed price (180 without pricing). */
  function LoadOffers(sections: seq<Catalogue.Section>): (r: seq<Offer>)
    requires CatalogueReadable(sections)
    ensures |r| == |sections|
    ensures forall i :: 0 <= i < |r| ==> r[i].section == sections[i]
    ensures forall i :: 0 <= i < |r| ==> sections[i].pricing.None? ==> r[i].price == JsNumber.Finite(DefaultPrice)
    ensures forall i :: 0 <= i < |r| ==>
      Catalogue.SectionPrice(sections[i], DefaultPrice) == Catalogue.Read(r[i].price)
  {
    seq(|sections|, i requires 0 <= i < |sections| => Offer(sections[i], Catalogue.SectionPrice(sections[i], DefaultPrice).price))
  }

  /** `section.price || 180`: NaN and 0 are falsy, so both fall back to 180. */
  function EffectivePrice(o: Offer): (p: int)
    ensures o.price.Truthy() ==> p == o.price.value
    ensures !o.price.Truthy() ==> p == DefaultPrice
    ensures p != 0
  {
    if o.price.Truthy() then o.price.value else DefaultPrice
  }

  /** The catalogue sections whose id is not in the ledger yet. */
  function Unselected(offers: seq<Offer>, items: seq<Ledger.LineItem>): seq<Offer> {
    Lists.Filter(offers, (o: Offer) => !Ledger.IsSelected(items, o.section.id))
  }

  /** The search test: the lower-cased term in the lower-cased name, description or category. */
  predicate MatchesSearch(s: Catalogue.Section, term: string) {
    var t := ToLower(term);
    Contains(ToLower(s.name), t)
    || (s.description != "" && Contains(ToLower(s.description), t))
    || (s.category != "" && Contains(ToLower(s.category), t))
  }

  /** The sections among `offers` that match the search term, in order. */
  function Search(offers: seq<Offer>, term: string): seq<Offer> {
    Lists.Filter(offers, (o: Offer) => MatchesSearch(o.section, term))
  }

  /** `filteredSections`: the search applies only when the term is not blank. */
  function Shown(offers: seq<Offer>, items: seq<Ledger.LineItem>, term: string): (r: seq<Offer>)
    ensures forall i :: 0 <= i < |r| ==> r[i] in offers && !Ledger.IsSelected(items, r[i].section.id)
    ensures !IsBlank(term) ==> forall i :: 0 <= i < |r| ==> MatchesSearch(r[i].section, term)
    ensures forall i :: 0 <= i < |offers| ==>
      (!Ledger.IsSelected(items, offers[i].section.id) && (IsBlank(term) || MatchesSearch(offers[i].section, term)))
      ==> offers[i] in r
  {
    var u := Unselected(offers, items);
    if IsBlank(term) then u else Search(u, term)
  }

  /** What is shown keeps the catalogue order. */
  lemma ShownKeepsOrder(offers: seq<Offer>, items: seq<Ledger.LineItem>, term: string)
    ensures Lists.IsSubseq(Shown(offers, items, term), offers)
  {
    var p := (o: Offer) => !Ledger.IsSelected(items, o.section.id);
    var u := Unselected(offers, items);
    Lists.FilterIsSubseq(offers, p);
    if !IsBlank(term) {
      Lists.FilterIsSubseq(u, (o: Offer) => MatchesSearch(o.section, term));
      SubseqTransitive(Shown(offers, items, term), u, offers);
    }
  }

  lemma {:induction false} SubseqTransitive<T>(a: seq<T>, b: seq<T>, c: seq<T>)
    requires Lists.IsSubseq(a, b) && Lists.IsSubseq(b, c)
    ensures Lists.IsSubseq(a, c)
    decreases |c|
  {
    if a != [] && c != [] {
      if b[0] == c[0] && Lists.IsSubseq(b[1..], c[1..]) {
        if a[0] == b[0] && Lists.IsSubseq(a[1..], b[1..]) {
          SubseqTransitive(a[1..], b[1..], c[1..]);
        } else {
          SubseqTransitive(a, b[1..], c[1..]);
        }
      } else {
        SubseqTransitive(a, b, c[1..]);
      }
    }
  }

  /** `section.category || 'Autre'`. */
  function CategoryOf(s: Catalogue.Section): (c: string)
    ensures c != ""
    ensures s.category != "" ==> c == s.category
  {
    if s.category == "" then "Autre" else s.category
  }

  /** The shown sections of one category, in the order shown. */
  function InCategory(offers: seq<Offer>, c: string): seq<Offer> {
    Lists.Filter(offers, (o: Offer) => CategoryOf(o.section) == c)
  }

  lemma InCategoryStep(offers: seq<Offer>, o: Offer, c: string)
    ensures InCategory(offers + [o], c) == InCategory(offers, c) + (if CategoryOf(o.section) == c then [o] else [])
  {
    Lists.FilterAppend(offers, [o], (x: Offer) => CategoryOf(x.section) == c);
  }

  lemma {:induction false} InCategoryNone(offers: seq<Offer>, c: string)
    requires forall i :: 0 <= i < |offers| ==> CategoryOf(offers[i].section) != c
    ensures InCategory(offers, c) == []
  {
    if offers != [] {
      InCategoryNone(offers[1..], c);
    }
  }

  /** `groups` and `keys` hold the grouping of `prefix`: one group per category met, in order, keys once each. */
  ghost predicate GroupedUpTo(prefix: seq<Offer>, groups: map<string, seq<Offer>>, keys: seq<string>) {
    && (forall c :: c in groups <==> exists j :: 0 <= j < |prefix| && CategoryOf(prefix[j].section) == c)
    && (forall c :: c in groups ==> groups[c] == InCategory(prefix, c))
    && Lists.NoDup(keys)
    && (forall c :: c in keys <==> c in groups)
  }

  /** One step of the `forEach`: open the category's group if it is new, then push the section. */
  lemma GroupStep(prefix: seq<Offer>, o: Offer, groups: map<string, seq<Offer>>, keys: seq<string>)
    requires GroupedUpTo(prefix, groups, keys)
    ensures var c := CategoryOf(o.section);
      var g := if c in groups then groups else groups[c := []];
      var k := if c in groups then keys else keys + [c];
      GroupedUpTo(prefix + [o], g[c := g[c] + [o]], k)
  {
    var c := CategoryOf(o.section);
    var g := if c in groups then groups else groups[c := []];
    var k := if c in groups then keys else keys + [c];
    var p := prefix + [o];
    if c !in groups {
      InCategoryNone(prefix, c);
    }
    var g' := g[c := g[c] + [o]];
    assert Lists.NoDup(k) by {
      if c !in groups {
        assert c !in keys;
        assert forall i :: 0 <= i < |keys| ==> k[i] == keys[i];
      }
    }
    assert forall d :: d in k <==> d in g';
    forall d | d in g' ensures g'[d] == InCategory(p, d) {
      InCategoryStep(prefix, o, d);
    }
    forall d ensures d in g' <==> exists j :: 0 <= j < |p| && CategoryOf(p[j].section) == d {
      if d in groups {
        var j :| 0 <= j < |prefix| && CategoryOf(prefix[j].section) == d;
        assert p[j] == prefix[j];
      } else if d == c {
        assert CategoryOf(p[|prefix|].section) == d;
      } else {
        forall j | 0 <= j < |p| ensures CategoryOf(p[j].section) != d {
          if j < |prefix| {
            assert p[j] == prefix[j];
          }
        }
      }
    }
  }

  /** Before the first section, no group is open. */
  lemma NothingGrouped(shown: seq<Offer>)
    ensures GroupedUpTo(shown[..0], map[], [])
  {
  }

  /** `GroupStep` for the next section of the list, when its category already has a group. */
  lemma GroupStepKnown(shown: seq<Offer>, i: nat, groups: map<string, seq<Offer>>, keys: seq<string>)
    requires i < |shown| && GroupedUpTo(shown[..i], groups, keys)
    requires CategoryOf(shown[i].section) in groups
    ensures var c := CategoryOf(shown[i].section);
      GroupedUpTo(shown[..i + 1], groups[c := groups[c] + [shown[i]]], keys)
  {
    assert shown[..i + 1] == shown[..i] + [shown[i]];
    GroupStep(shown[..i], shown[i], groups, keys);
  }

  /** `GroupStep` for the next section of the list, when its category is met for the first time. */
  lemma GroupStepNew(shown: seq<Offer>, i: nat, groups: map<string, seq<Offer>>, keys: seq<string>)
    requires i < |shown| && GroupedUpTo(shown[..i], groups, keys)
    requires CategoryOf(shown[i].section) !in groups
    ensures var c := CategoryOf(shown[i].section);
      GroupedUpTo(shown[..i + 1], groups[c := [shown[i]]], keys + [c])
  {
    var c := CategoryOf(shown[i].section);
    assert shown[..i + 1] == shown[..i] + [shown[i]];
    GroupStep(shown[..i], shown[i], groups, keys);
    var g := groups[c := []];
    assert g[c] + [shown[i]] == [shown[i]];
    assert g[c := g[c] + [shown[i]]] == groups[c := [shown[i]]];
  }

  /** The body of the `forEach`: open the section's category group if it is new, then push the section. */
  method AddToGroup(shown: seq<Offer>, i: nat, groups: map<string, seq<Offer>>, keys: seq<string>)
    returns (groups': map<string, seq<Offer>>, keys': seq<string>)
    requires i < |shown| && GroupedUpTo(shown[..i], groups, keys)
    ensures GroupedUpTo(shown[..i + 1], groups', keys')
    ensures var c := CategoryOf(shown[i].section);
      keys' == if c in groups then keys else keys + [c]
  {
    var o := shown[i];
    var c := CategoryOf(o.section);
    if c in groups {
      GroupStepKnown(shown, i, groups, keys);
      groups', keys' := groups[c := groups[c] + [o]], keys;
    } else {
      GroupStepNew(shown, i, groups, keys);
      groups', keys' := groups[c := [o]], keys + [c];
    }
  }

  /**
   * The `forEach` that fills `groupedSections`: one group per category present, each holding
   * that category's sections in order; `keys` lists the categories in order of first appearance.
   */
  method FillGroups(shown: seq<Offer>) returns (groups: map<string, seq<Offer>>, keys: seq<string>)
    ensures GroupedUpTo(shown, groups, keys)
  {
    groups := map[];
    keys := [];
    var i := 0;
    NothingGrouped(shown);
    while i < |shown|
      invariant 0 <= i <= |shown|
      invariant GroupedUpTo(shown[..i], groups, keys)
    {
      groups, keys := AddToGroup(shown, i, groups, keys);
      i := i + 1;
    }
    EverythingGrouped(shown, groups, keys);
  }

  /** After the last section, the grouping covers the whole list. */
  lemma EverythingGrouped(shown: seq<Offer>, groups: map<string, seq<Offer>>, keys: seq<string>)
    requires GroupedUpTo(shown[..|shown|], groups, keys)
    ensures GroupedUpTo(shown, groups, keys)
  {
    assert shown[..|shown|] == shown;
  }

  /**
   * The grouping, then `Object.keys(groupedSections).sort()`: one group per category present,
   * each holding that category's sections in order, and the categories once each in
   * ascending order.
   */
  method GroupByCategory(shown: seq<Offer>) returns (categories: seq<string>, groups: map<string, seq<Offer>>)
    ensures forall c :: c in groups <==> exists i :: 0 <= i < |shown| && CategoryOf(shown[i].section) == c
    ensures forall c :: c in groups ==> groups[c] == InCategory(shown, c)
    ensures StringOrder.Sorted(categories)
    ensures forall c :: multiset(categories)[c] == if c in groups then 1 else 0
  {
    var keys;
    groups, keys := FillGroups(shown);
    categories := StringOrder.Sort(keys);
    SortedKeysOnce(shown, groups, keys, categories);
  }

  /** The sorted keys hold each category of the grouping exactly once. */
  lemma SortedKeysOnce(shown: seq<Offer>, groups: map<string, seq<Offer>>, keys: seq<string>, categories: seq<string>)
    requires GroupedUpTo(shown, groups, keys)
    requires multiset(categories) == multiset(keys)
    ensures forall c :: multiset(categories)[c] == if c in groups then 1 else 0
  {
    forall c ensures multiset(categories)[c] == if c in groups then 1 else 0 {
      Lists.NoDupMultiplicity(keys, c);
    }
  }
}
