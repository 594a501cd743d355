/**
 * The activity sections of the club as the site's components see them, and the reading of a
 * representative price from a section's free-text `pricing` list.
 */
module Catalogue {
  import opened Wrappers
  import JsText
  import JsNumber

  /** One titled block of a detail page; `content` is HTML text. */
  datatype Block = Block(title: string, content: string)

  datatype DetailContent = DetailContent(
    heroTitle: string,
    heroSubtitle: string,
    sections: seq<Block>,
    galleryImages: seq<string>)

  /**
   * A catalogue section. Optional text fields (`category`, `description`, `fullDescription`)
   * use "" for "absent": the components only ever test them for truthiness.
   */
  datatype Section = Section(
    id: nat,
    name: string,
    category: string,
    description: string,
    fullDescription: string,
    pricing: Option<seq<string>>,
    hasDetailPage: bool,
    detailPageContent: Option<DetailContent>)

  /** Reading a price either yields a number (possibly NaN) or throws a TypeError. */
  datatype PriceRead = Read(price: JsNumber.Num) | Throws

  /**
   * `parseFloat(entry.split(':')[1].trim().replace('€', ''))`: the number after the first colon.
   * Without a colon the second field is `undefined` and `.trim()` throws.
   */
  function EntryPrice(entry: string): (r: PriceRead)
    ensures r.Throws? <==> ':' !in entry
  {
    match JsText.SecondField(entry, ':')
    case None => Throws
    case Some(field) => Read(JsNumber.ParseInt(JsText.ReplaceFirst(JsText.Trim(field), "€", "")))
  }

  /**
   * `section.pricing ? EntryPrice(section.pricing[0]) : fallback`. An empty pricing list is
   * truthy, and `pricing[0]` is then `undefined`, so it throws too.
   */
  function SectionPrice(s: Section, fallback: int): (r: PriceRead)
    ensures s.pricing.None? ==> r == Read(JsNumber.Finite(fallback))
    ensures r.Throws? <==> s.pricing.Some? && (s.pricing.value == [] || ':' !in s.pricing.value[0])
  {
    match s.pricing
    case None => Read(JsNumber.Finite(fallback))
    case Some(p) => if p == [] then Throws else EntryPrice(p[0])
  }

  /** A section whose price expression does not throw, whatever the fallback. */
  predicate PriceReadable(s: Section) {
    s.pricing.Some? ==> s.pricing.value != [] && ':' in s.pricing.value[0]
  }

  /** The text after the colon of "<caption>: <digits>€". */
  lemma AmountField(caption: string, d: string)
    requires ':' !in caption && JsNumber.AllDigits(d)
    ensures JsText.SecondField(caption + ": " + d + "€", ':') == Some(" " + d + "€")
  {
    var tail := " " + d + "€";
    assert caption + ": " + d + "€" == caption + [':'] + tail;
    assert ':' !in tail by {
      assert forall i :: 0 <= i < |tail| ==> tail[i] == ' ' || tail[i] == '€' || tail[i] in d;
    }
    JsText.SecondFieldOf(caption, ':', tail);
  }

  /** Trimming " <digits>€" drops only the leading space. */
  lemma TrimAmount(d: string)
    requires d != [] && JsNumber.AllDigits(d)
    ensures JsText.Trim(" " + d + "€") == d + "€"
  {
    var body := d + "€";
    assert JsText.IsBlank(" ") && JsText.IsBlank("");
    assert body[0] == d[0] && JsNumber.IsDigit(d[0]);
    JsText.TrimAround(" ", body, "");
    assert " " + body + "" == " " + d + "€";
  }

  /** Removing the euro sign from "<digits>€" leaves the digits. */
  lemma DropEuro(d: string)
    requires JsNumber.AllDigits(d)
    ensures JsText.ReplaceFirst(d + "€", "€", "") == d
  {
    assert '€' !in d by {
      assert forall i :: 0 <= i < |d| ==> JsNumber.IsDigit(d[i]);
    }
    JsText.ReplaceLastChar(d, '€');
    assert "€" == ['€'];
  }

  /** An entry written the way the catalogue writes them, "<caption>: <n>€", reads as n. */
  lemma EntryPriceOfLabelledAmount(caption: string, n: nat)
    requires ':' !in caption
    ensures EntryPrice(caption + ": " + JsNumber.NatToString(n) + "€") == Read(JsNumber.Finite(n))
  {
    var d := JsNumber.NatToString(n);
    AmountField(caption, d);
    TrimAmount(d);
    DropEuro(d);
    JsNumber.NatToStringRoundTrip(n);
  }

  /** The first pricing entry of the archery section reads as 180 euros. */
  lemma ArcheryAnnualFee()
    ensures EntryPrice("Adhésion annuelle: 180€") == Read(JsNumber.Finite(180))
  {
    assert JsNumber.NatToString(180) == "180";
    assert "Adhésion annuelle: 180€" == "Adhésion annuelle" + ": " + JsNumber.NatToString(180) + "€";
    EntryPriceOfLabelledAmount("Adhésion annuelle", 180);
  }
}
