/**
 * The administrator's editor for one section's detail page: the hero texts, an ordered list
 * of content blocks (append, remove, move up or down, edit), the image gallery, the
 * validation that applies only when the detail page is enabled, and the section handed to
 * `onSave`.
 */
module AdminEditor {
  import opened Wrappers
  import opened JsText
  import JsNumber
  import Lists
  import Catalogue
  import Validation

  /** `a || b` on strings: the empty string is falsy. */
  function OrElse(a: string, b: string): string {
    if a != "" then a else b
  }

  /** The detail page the editor starts from when the section has none yet. */
  function DefaultDetail(s: Catalogue.Section): (d: Catalogue.DetailContent)
    ensures d.heroTitle == s.name && d.heroSubtitle == s.description && d.galleryImages == []
    ensures |d.sections| == 1 && d.sections[0].title == "Présentation"
    ensures d.sections[0].content == "<p>" + (if s.fullDescription != "" then s.fullDescription else s.description) + "</p>"
  {
    Catalogue.DetailContent(s.name, s.description,
      [Catalogue.Block("Présentation", "<p>" + OrElse(s.fullDescription, s.description) + "</p>")], [])
  }

  /** The block `addSection` appends to a list of `n` blocks. */
  function NewBlock(n: nat): (b: Catalogue.Block)
    ensures |b.title| > 17 && b.title[..17] == "Nouvelle section "
    ensures JsNumber.ParseInt(b.title[17..]) == JsNumber.Finite(n + 1)
    ensures b.content == "<p>Contenu de la section...</p>"
  {
    JsNumber.NatToStringRoundTrip(n + 1);
    Catalogue.Block("Nouvelle section " + JsNumber.NatToString(n + 1), "<p>Contenu de la section...</p>")
  }

  /** The blocks with positions `i` and `j` exchanged. */
  function Swap(s: seq<Catalogue.Block>, i: nat, j: nat): (r: seq<Catalogue.Block>)
    requires i < |s| && j < |s|
    ensures |r| == |s| && r[i] == s[j] && r[j] == s[i]
    ensures forall k :: 0 <= k < |s| && k != i && k != j ==> r[k] == s[k]
  {
    s[i := s[j]][j := s[i]]
  }

  /** Swapping only reorders the blocks. */
  lemma SwapIsPermutation(s: seq<Catalogue.Block>, i: nat, j: nat)
    requires i < |s| && j < |s|
    ensures multiset(Swap(s, i, j)) == multiset(s)
  {
  }

  datatype Direction = Up | Down

  /** The position a block moves to, or `None` at the edge it cannot cross. */
  function Target(n: nat, index: nat, dir: Direction): (r: Option<nat>)
    requires index < n
    ensures r.None? <==> (dir.Up? && index == 0) || (dir.Down? && index == n - 1)
    ensures r.Some? ==> r.value < n && (if dir.Up? then r.value + 1 == index else r.value == index + 1)
  {
    if (dir.Up? && index == 0) || (dir.Down? && index == n - 1) then None
    else if dir.Up? then Some(index - 1) else Some(index + 1)
  }

  /** `moveSection` on a list: swap with the neighbour, or leave the list as it is at an edge. */
  function Moved(s: seq<Catalogue.Block>, index: nat, dir: Direction): (r: seq<Catalogue.Block>)
    requires index < |s|
    ensures multiset(r) == multiset(s)
  {
    match Target(|s|, index, dir)
    case None => s
    case Some(t) => SwapIsPermutation(s, index, t); Swap(s, index, t)
  }

  /** Moving a block down and then moving it back up restores the list. */
  lemma MoveDownThenUp(s: seq<Catalogue.Block>, index: nat)
    requires index + 1 < |s|
    ensures Moved(Moved(s, index, Down), index + 1, Up) == s
  {
    var m := Moved(s, index, Down);
    assert m == Swap(s, index, index + 1);
    assert Moved(m, index + 1, Up) == Swap(m, index + 1, index);
  }

  datatype BlockField = Title | Content

  /** `{ ...block, [field]: value }`. */
  function WithField(b: Catalogue.Block, f: BlockField, value: string): Catalogue.Block {
    if f.Title? then b.(title := value) else b.(content := value)
  }

  /** The keys of the editor's `errors`; `BlockTitle(i)` is "section_i_title", `BlockContent(i)` "section_i_content". */
  datatype EditorKey = HeroTitle | HeroSubtitle | Sections | BlockTitle(i: nat) | BlockContent(i: nat)

  function KeyName(k: EditorKey): string {
    match k
    case HeroTitle => "heroTitle"
    case HeroSubtitle => "heroSubtitle"
    case Sections => "sections"
    case BlockTitle(i) => "section_" + JsNumber.NatToString(i) + "_title"
    case BlockContent(i) => "section_" + JsNumber.NatToString(i) + "_content"
  }

  /** Distinct blocks give distinct error keys, so one block's error never overwrites another's. */
  lemma BlockKeysDistinct(i: nat, j: nat)
    requires i != j
    ensures KeyName(BlockTitle(i)) != KeyName(BlockTitle(j))
    ensures KeyName(BlockContent(i)) != KeyName(BlockContent(j))
    ensures KeyName(BlockTitle(i)) != KeyName(BlockContent(j))
  {
    var a, b := JsNumber.NatToString(i), JsNumber.NatToString(j);
    JsNumber.NatToStringRoundTrip(i);
    JsNumber.NatToStringRoundTrip(j);
    var p := "section_";
    if KeyName(BlockTitle(i)) == KeyName(BlockTitle(j)) {
      KeyBody(p, a, "_title", b, "_title");
    }
    if KeyName(BlockContent(i)) == KeyName(BlockContent(j)) {
      KeyBody(p, a, "_content", b, "_content");
    }
    if KeyName(BlockTitle(i)) == KeyName(BlockContent(j)) {
      NumberKeySuffix(p, a, b);
    }
  }

  /** A block's key starts with "section_" and goes on after it. */
  lemma BlockKeyShape(k: EditorKey)
    requires k.BlockTitle? || k.BlockContent?
    ensures |KeyName(k)| > 8 && KeyName(k)[..8] == "section_"
  {
    var n := JsNumber.NatToString(k.i);
    assert KeyName(k) == "section_" + n + (if k.BlockTitle? then "_title" else "_content");
  }

  /** Different keys have different names, so no message ever lands under another rule's key. */
  lemma KeyNameInjective(k: EditorKey, l: EditorKey)
    requires KeyName(k) == KeyName(l)
    ensures k == l
  {
    var p := "section_";
    var blockK, blockL := k.BlockTitle? || k.BlockContent?, l.BlockTitle? || l.BlockContent?;
    if blockK && blockL {
      var a, b := JsNumber.NatToString(k.i), JsNumber.NatToString(l.i);
      JsNumber.NatToStringRoundTrip(k.i);
      JsNumber.NatToStringRoundTrip(l.i);
      if k.BlockTitle? && l.BlockTitle? {
        KeyBody(p, a, "_title", b, "_title");
      } else if k.BlockContent? && l.BlockContent? {
        KeyBody(p, a, "_content", b, "_content");
      } else if k.BlockTitle? {
        NumberKeySuffix(p, a, b);
      } else {
        NumberKeySuffix(p, b, a);
      }
    } else if blockK {
      BlockKeyShape(k);
    } else if blockL {
      BlockKeyShape(l);
    }
  }

  /** Equal keys built around a number with the same suffix have the same number. */
  lemma KeyBody(p: string, a: string, sa: string, b: string, sb: string)
    requires p + a + sa == p + b + sb && sa == sb
    ensures a == b
  {
    var k := p + a + sa;
    assert k[|p|..|k| - |sa|] == a;
    assert (p + b + sb)[|p|..|k| - |sb|] == b;
  }

  /** A title key never equals a content key: the characters after the number differ. */
  lemma NumberKeySuffix(p: string, a: string, b: string)
    requires JsNumber.AllDigits(a) && JsNumber.AllDigits(b)
    ensures p + a + "_title" != p + b + "_content"
  {
    var x, y := p + a + "_title", p + b + "_content";
    if |a| < |b| {
      assert x[|p| + |a|] != y[|p| + |a|];
    } else if |a| > |b| {
      assert x[|p| + |b|] != y[|p| + |b|];
    } else {
      assert |x| != |y|;
    }
  }

  function TitleMissing(i: nat): string {
    "Le titre de la section " + JsNumber.NatToString(i + 1) + " est requis"
  }

  function ContentMissing(i: nat): string {
    "Le contenu de la section " + JsNumber.NatToString(i + 1) + " est requis"
  }

  const HeroTitleRequired := "Le titre principal est requis"
  const HeroSubtitleRequired := "Le sous-titre est requis"
  const BlocksRequired := "Au moins une section de contenu est requise"

  /**
   * The message `validateForm` gives key `k` when only blocks below `upTo` have been examined,
   * or `None` when that rule passes.
   */
  function Expected(k: EditorKey, d: Catalogue.DetailContent, blocks: seq<Catalogue.Block>, upTo: nat): Option<string> {
    match k
    case HeroTitle => if IsBlank(d.heroTitle) then Some(HeroTitleRequired) else None
    case HeroSubtitle => if IsBlank(d.heroSubtitle) then Some(HeroSubtitleRequired) else None
    case Sections => if blocks == [] then Some(BlocksRequired) else None
    case BlockTitle(i) => if i < upTo && i < |blocks| && IsBlank(blocks[i].title) then Some(TitleMissing(i)) else None
    case BlockContent(i) => if i < upTo && i < |blocks| && IsBlank(blocks[i].content) then Some(ContentMissing(i)) else None
  }

  /** `errors` holds exactly the expected messages. */
  ghost predicate Reports(errors: map<EditorKey, string>, d: Catalogue.DetailContent, blocks: seq<Catalogue.Block>, upTo: nat) {
    forall k :: (k in errors <==> Expected(k, d, blocks, upTo).Some?)
      && (k in errors ==> errors[k] == Expected(k, d, blocks, upTo).value)
  }

  /** The messages `validateForm` records before it looks at the blocks. */
  function HeroErrors(d: Catalogue.DetailContent, blocks: seq<Catalogue.Block>): map<EditorKey, string> {
    var a: map<EditorKey, string> := if IsBlank(d.heroTitle) then map[HeroTitle := HeroTitleRequired] else map[];
    var b := if IsBlank(d.heroSubtitle) then a[HeroSubtitle := HeroSubtitleRequired] else a;
    if blocks == [] then b[Sections := BlocksRequired] else b
  }

  lemma ReportsStart(d: Catalogue.DetailContent, blocks: seq<Catalogue.Block>)
    ensures Reports(HeroErrors(d, blocks), d, blocks, 0)
  {
  }

  /** The messages `validateForm` adds for block `i`. */
  function BlockErrors(found: map<EditorKey, string>, blocks: seq<Catalogue.Block>, i: nat): map<EditorKey, string>
    requires i < |blocks|
  {
    var withTitle := if IsBlank(blocks[i].title) then found[BlockTitle(i) := TitleMissing(i)] else found;
    if IsBlank(blocks[i].content) then withTitle[BlockContent(i) := ContentMissing(i)] else withTitle
  }

  /** Examining one more block extends a faithful report to a faithful report. */
  lemma ReportsStep(found: map<EditorKey, string>, d: Catalogue.DetailContent, blocks: seq<Catalogue.Block>, i: nat)
    requires i < |blocks| && Reports(found, d, blocks, i)
    ensures Reports(BlockErrors(found, blocks, i), d, blocks, i + 1)
  {
    var r := BlockErrors(found, blocks, i);
    forall k ensures (k in r <==> Expected(k, d, blocks, i + 1).Some?)
      && (k in r ==> r[k] == Expected(k, d, blocks, i + 1).value)
    {
      assert Expected(k, d, blocks, i).Some? <==> k in found;
    }
  }

  /** The detail page passes: both hero texts and every block title and content filled in, and at least one block. */
  predicate DetailValid(d: Catalogue.DetailContent, blocks: seq<Catalogue.Block>) {
    && !IsBlank(d.heroTitle) && !IsBlank(d.heroSubtitle) && blocks != []
    && forall i :: 0 <= i < |blocks| ==> !IsBlank(blocks[i].title) && !IsBlank(blocks[i].content)
  }

  /** With every block examined, the report is empty exactly when the detail page is valid. */
  lemma ReportEmptyIffValid(errors: map<EditorKey, string>, d: Catalogue.DetailContent, blocks: seq<Catalogue.Block>)
    requires Reports(errors, d, blocks, |blocks|)
    ensures errors == map[] <==> DetailValid(d, blocks)
  {
    if errors == map[] {
      forall i | 0 <= i < |blocks| ensures !IsBlank(blocks[i].title) && !IsBlank(blocks[i].content) {
        assert Expected(BlockTitle(i), d, blocks, |blocks|).None?;
        assert Expected(BlockContent(i), d, blocks, |blocks|).None?;
      }
      assert Expected(HeroTitle, d, blocks, |blocks|).None?;
      assert Expected(HeroSubtitle, d, blocks, |blocks|).None?;
      assert Expected(Sections, d, blocks, |blocks|).None?;
    } else {
      var k :| k in errors;
      assert Expected(k, d, blocks, |blocks|).Some?;
    }
  }

  /** `{ ...section, ...formData, detailPageContent: hasDetailPage ? detailPageContent : null }`. */
  function Overlay(s: Catalogue.Section, name: string, hasDetailPage: bool, d: Catalogue.DetailContent): (r: Catalogue.Section)
    ensures r.id == s.id && r.name == name && r.hasDetailPage == hasDetailPage
    ensures r.detailPageContent == if hasDetailPage then Some(d) else None
    ensures r.category == s.category && r.description == s.description
    ensures r.fullDescription == s.fullDescription && r.pricing == s.pricing
  {
    s.(name := name, hasDetailPage := hasDetailPage, detailPageContent := if hasDetailPage then Some(d) else None)
  }

  class SectionEditor {
    /** The `section` prop. */
    const section: Catalogue.Section
    var name: string
    var hasDetailPage: bool
    /** `formData.detailPageContent`. */
    var detail: Catalogue.DetailContent
    /** `contentSections`, kept equal to `detail.sections` by every block operation. */
    var contentSections: seq<Catalogue.Block>
    var isEdited: bool
    var errors: map<EditorKey, string>
    var tempImageUrl: string
    /** The sections handed to `onSave`, oldest first. */
    var saved: seq<Catalogue.Section>

    predicate Valid()
      reads this
    {
      contentSections == detail.sections
    }

    constructor(s: Catalogue.Section)
      ensures section == s && name == s.name && hasDetailPage == s.hasDetailPage
      ensures detail == if s.detailPageContent.Some? then s.detailPageContent.value else DefaultDetail(s)
      ensures !isEdited && errors == map[] && tempImageUrl == "" && saved == []
      ensures Valid()
    {
      section := s;
      name := s.name;
      hasDetailPage := s.hasDetailPage;
      var d := if s.detailPageContent.Some? then s.detailPageContent.value else DefaultDetail(s);
      detail := d;
      contentSections := d.sections;
      isEdited := false;
      errors := map[];
      tempImageUrl := "";
      saved := [];
    }

    /** The checkbox that enables the detail page. */
    method SetHasDetailPage(checked: bool)
      requires Valid()
      modifies this`hasDetailPage, this`isEdited
      ensures Valid() && hasDetailPage == checked && isEdited
    {
      isEdited := true;
      hasDetailPage := checked;
    }

    method SetHeroTitle(value: string)
      requires Valid()
      modifies this`detail, this`isEdited
      ensures Valid() && detail == old(detail).(heroTitle := value) && isEdited
    {
      isEdited := true;
      detail := detail.(heroTitle := value);
    }

    method SetHeroSubtitle(value: string)
      requires Valid()
      modifies this`detail, this`isEdited
      ensures Valid() && detail == old(detail).(heroSubtitle := value) && isEdited
    {
      isEdited := true;
      detail := detail.(heroSubtitle := value);
    }

    /** Both copies of the block list receive the same new list. */
    method StoreBlocks(blocks: seq<Catalogue.Block>)
      modifies this`contentSections, this`detail, this`isEdited
      ensures Valid() && contentSections == blocks && detail == old(detail).(sections := blocks) && isEdited
    {
      isEdited := true;
      contentSections := blocks;
      detail := detail.(sections := blocks);
    }

    /** `handleSectionChange`: one field of one block. */
    method EditBlock(index: nat, f: BlockField, value: string)
      requires Valid() && index < |contentSections|
      modifies this`contentSections, this`detail, this`isEdited
      ensures Valid() && isEdited
      ensures contentSections == old(contentSections)[index := WithField(old(contentSections)[index], f, value)]
      ensures detail.heroTitle == old(detail).heroTitle && detail.heroSubtitle == old(detail).heroSubtitle
      ensures detail.galleryImages == old(detail).galleryImages
    {
      StoreBlocks(contentSections[index := WithField(contentSections[index], f, value)]);
    }

    /** `addSection`. */
    method AddBlock()
      requires Valid()
      modifies this`contentSections, this`detail, this`isEdited
      ensures Valid() && isEdited
      ensures contentSections == old(contentSections) + [NewBlock(|old(contentSections)|)]
      ensures detail.heroTitle == old(detail).heroTitle && detail.heroSubtitle == old(detail).heroSubtitle
      ensures detail.galleryImages == old(detail).galleryImages
    {
      StoreBlocks(contentSections + [NewBlock(|contentSections|)]);
    }

    /** `removeSection`. */
    method RemoveBlock(index: nat)
      requires Valid()
      modifies this`contentSections, this`detail, this`isEdited
      ensures Valid() && isEdited
      ensures contentSections == Lists.RemoveAt(old(contentSections), index)
      ensures detail.heroTitle == old(detail).heroTitle && detail.heroSubtitle == old(detail).heroSubtitle
      ensures detail.galleryImages == old(detail).galleryImages
    {
      StoreBlocks(Lists.RemoveAt(contentSections, index));
    }

    /**
     * `moveSection`: marks the editor as edited, then, unless the block is at the edge it would
     * cross, swaps the two slots of a copy of the list and stores the copy.
     */
    method MoveBlock(index: nat, dir: Direction)
      requires Valid() && index < |contentSections|
      modifies this`contentSections, this`detail, this`isEdited
      ensures Valid() && isEdited
      ensures contentSections == Moved(old(contentSections), index, dir)
      ensures detail.heroTitle == old(detail).heroTitle && detail.heroSubtitle == old(detail).heroSubtitle
      ensures detail.galleryImages == old(detail).galleryImages
    {
      isEdited := true;
      var target := Target(|contentSections|, index, dir);
      if target.None? {
        return;
      }
      var t := target.value;
      var copy := new Catalogue.Block[|contentSections|](k requires 0 <= k < |contentSections| reads this => contentSections[k]);
      copy[index], copy[t] := copy[t], copy[index];
      assert copy[..] == Swap(contentSections, index, t);
      StoreBlocks(copy[..]);
    }

    method SetTempImageUrl(value: string)
      requires Valid()
      modifies this`tempImageUrl
      ensures Valid() && tempImageUrl == value
    {
      tempImageUrl := value;
    }

    /** `handleAddGalleryImage`: a blank URL is ignored; otherwise it is appended as typed and the input cleared. */
    method AddGalleryImage()
      requires Valid()
      modifies this`detail, this`tempImageUrl, this`isEdited
      ensures Valid()
      ensures IsBlank(old(tempImageUrl)) ==> unchanged(this`detail, this`tempImageUrl, this`isEdited)
      ensures !IsBlank(old(tempImageUrl)) ==>
        detail == old(detail).(galleryImages := old(detail).galleryImages + [old(tempImageUrl)])
        && tempImageUrl == "" && isEdited
    {
      var blank := Validation.TrimsToEmpty(tempImageUrl);
      if blank {
        return;
      }
      isEdited := true;
      detail := detail.(galleryImages := detail.galleryImages + [tempImageUrl]);
      tempImageUrl := "";
    }

    /** `handleRemoveGalleryImage`. */
    method RemoveGalleryImage(index: nat)
      requires Valid()
      modifies this`detail, this`isEdited
      ensures Valid() && isEdited
      ensures detail == old(detail).(galleryImages := Lists.RemoveAt(old(detail).galleryImages, index))
    {
      isEdited := true;
      detail := detail.(galleryImages := Lists.RemoveAt(detail.galleryImages, index));
    }

    /**
     * `validateForm`. With the detail page disabled it passes and leaves `errors` as they were;
     * otherwise it replaces them with one message per failing rule, examining the blocks in order.
     */
    method Validate() returns (ok: bool)
      requires Valid()
      modifies this`errors
      ensures Valid()
      ensures !hasDetailPage ==> ok && errors == old(errors)
      ensures hasDetailPage ==> Reports(errors, detail, contentSections, |contentSections|)
      ensures hasDetailPage ==> (ok <==> DetailValid(detail, contentSections))
    {
      if !hasDetailPage {
        return true;
      }
      var found: map<EditorKey, string> := map[];
      var titleBlank := Validation.TrimsToEmpty(detail.heroTitle);
      if titleBlank {
        found := found[HeroTitle := HeroTitleRequired];
      }
      var subtitleBlank := Validation.TrimsToEmpty(detail.heroSubtitle);
      if subtitleBlank {
        found := found[HeroSubtitle := HeroSubtitleRequired];
      }
      if contentSections == [] {
        found := found[Sections := BlocksRequired];
      }
      assert found == HeroErrors(detail, contentSections);
      ReportsStart(detail, contentSections);
      var i := 0;
      while i < |contentSections|
        invariant 0 <= i <= |contentSections|
        invariant Reports(found, detail, contentSections, i)
      {
        var b := contentSections[i];
        ReportsStep(found, detail, contentSections, i);
        ghost var next := BlockErrors(found, contentSections, i);
        var noTitle := Validation.TrimsToEmpty(b.title);
        if noTitle {
          found := found[BlockTitle(i) := TitleMissing(i)];
        }
        var noContent := Validation.TrimsToEmpty(b.content);
        if noContent {
          found := found[BlockContent(i) := ContentMissing(i)];
        }
        assert found == next;
        i := i + 1;
      }
      errors := found;
      ok := errors == map[];
      ReportEmptyIffValid(errors, detail, contentSections);
    }

    /** `handleSubmit`: a valid form hands the overlaid section to `onSave`; an invalid one hands nothing. */
    method Submit() returns (ok: bool)
      requires Valid()
      modifies this`errors, this`saved
      ensures Valid()
      ensures ok <==> !hasDetailPage || DetailValid(detail, contentSections)
      ensures ok ==> saved == old(saved) + [Overlay(section, name, hasDetailPage, detail)]
      ensures !ok ==> saved == old(saved)
      ensures !hasDetailPage ==> errors == old(errors)
      ensures hasDetailPage ==> Reports(errors, detail, contentSections, |contentSections|)
    {
      ok := Validate();
      if ok {
        saved := saved + [Overlay(section, name, hasDetailPage, detail)];
      }
    }
  }
}
