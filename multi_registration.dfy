/**
 * The multi-section registration form: contact fields and an attachment, a ledger of chosen
 * sections with head counts, the optional club licences, the validation, and the submit
 * and close lifecycle. Each React state variable is a field; each handler is a method.
 * The timers of the form (closing animation, automatic close after success, highlight of the
 * section just added) are methods called when the timer fires.
 */
module MultiRegistration {
  import opened Wrappers
  import opened JsText
  import JsNumber
  import Catalogue
  import Lists
  import StringOrder
  import Validation
  import Ledger
  import SectionPicker

  /** `formData`. */
  datatype FormData = FormData(
    contact: Validation.Registrant,
    file: Option<Validation.FileInfo>,
    selected: seq<Ledger.LineItem>,
    includeLicense: bool,
    newLicenses: nat,
    renewalLicenses: nat)

  /** The state the form opens with and returns to on close: no selection, one new licence included. */
  const InitialData := FormData(Validation.EmptyRegistrant, None, [], true, 1, 0)

  /** `submitStatus`: null, 'success' or 'error'. */
  datatype SubmitStatus = NotSent | Sent | SendFailed

  datatype LicenceKind = NewLicence | Renewal

  /** The address the registration is sent to. */
  const Recipient := "t.turquin@outlook.fr"

  /** What the form hands to the mail service: the contact data, the ledger and the three totals in euros. */
  datatype Registration = Registration(
    contact: Validation.Registrant,
    items: seq<Ledger.LineItem>,
    includeLicense: bool,
    newLicenses: nat,
    renewalLicenses: nat,
    sectionsTotal: int,
    licenceFee: nat,
    total: int,
    attachment: Option<Validation.FileInfo>)

  /** The payload built from the form data at the moment of submission. */
  function PayloadOf(d: FormData): (r: Registration)
    ensures r.contact == d.contact && r.items == d.selected && r.attachment == d.file
    ensures r.sectionsTotal == Ledger.Sum(d.selected)
    ensures r.licenceFee == if d.includeLicense then 70 * d.newLicenses + 40 * d.renewalLicenses else 0
    ensures r.total == r.sectionsTotal + r.licenceFee
  {
    Ledger.SectionsTotalIsSum(d.selected);
    Registration(d.contact, d.selected,
      d.includeLicense, d.newLicenses, d.renewalLicenses,
      Ledger.SectionsTotal(d.selected),
      Ledger.LicenceFee(d.includeLicense, d.newLicenses, d.renewalLicenses),
      Ledger.GrandTotal(d.selected, d.includeLicense, d.newLicenses, d.renewalLicenses),
      d.file)
  }

  /**
   * The licence inputs' `onChange`: `parseInt(text) || 0`, kept only if it is not negative.
   * Unreadable text therefore sets the count to 0, and a negative number leaves it as it was.
   */
  function TypedCount(text: string, current: nat): (r: nat)
    ensures JsNumber.ParseInt(text).NaN? ==> r == 0
    ensures JsNumber.ParseInt(text).Finite? && JsNumber.ParseInt(text).value >= 0 ==> r == JsNumber.ParseInt(text).value
    ensures JsNumber.ParseInt(text).Finite? && JsNumber.ParseInt(text).value < 0 ==> r == current
  {
    var n := JsNumber.ParseInt(text);
    var v := if n.Truthy() then n.value else 0;
    if v >= 0 then v else current
  }

  /** Typing a count written in decimal sets exactly that count. */
  lemma TypedCountOfDecimal(n: nat, current: nat)
    ensures TypedCount(JsNumber.NatToString(n), current) == n
  {
    JsNumber.NatToStringRoundTrip(n);
  }

  class MultiSectionForm {
    /** `availableSections`, loaded once when the form mounts. */
    const offers: seq<SectionPicker.Offer>
    var data: FormData
    var errors: Validation.Errors<Validation.RegField>
    var isSubmitting: bool
    var status: SubmitStatus
    var fileName: string
    var isClosing: bool
    var pickerOpen: bool
    var searchTerm: string
    var recentlyAdded: Option<nat>
    /** The two-second timer started by a successful submission is pending. */
    var autoClosePending: bool
    /** The registrations handed to the mail service, oldest first. */
    var outbox: seq<Registration>
    /** How many times the parent's `onClose` was called. */
    var closeCount: nat

    /** Ids unique, head counts at least 1, and the shown file name matching the attachment. */
    predicate Valid()
      reads this
    {
      Ledger.WellFormed(data.selected) && fileName == Validation.FileNameOf(data.file)
    }

    /** `sectionsTotalPrice`. */
    function SectionsTotalPrice(): int
      reads this
    {
      Ledger.SectionsTotal(data.selected)
    }

    /** `totalLicenseFee`. */
    function LicenceFeeTotal(): nat
      reads this
    {
      Ledger.LicenceFee(data.includeLicense, data.newLicenses, data.renewalLicenses)
    }

    /** `totalPrice`. */
    function TotalPrice(): int
      reads this
    {
      Ledger.GrandTotal(data.selected, data.includeLicense, data.newLicenses, data.renewalLicenses)
    }

    /** The total shown is Σ price × quantity over the ledger, plus the licence fees when included. */
    lemma TotalIsSumPlusFees()
      ensures TotalPrice() == Ledger.Sum(data.selected)
        + (if data.includeLicense then 70 * data.newLicenses + 40 * data.renewalLicenses else 0)
      ensures TotalPrice() == SectionsTotalPrice() + LicenceFeeTotal()
    {
      Ledger.GrandTotalBreakdown(data.selected, data.includeLicense, data.newLicenses, data.renewalLicenses);
    }

    /**
     * Mounting the form. The `initialSection` prop some callers pass is not read, so the
     * selection always starts empty.
     */
    constructor(sections: seq<Catalogue.Section>)
      requires SectionPicker.CatalogueReadable(sections)
      ensures offers == SectionPicker.LoadOffers(sections)
      ensures data == InitialData && errors == map[]
      ensures !isSubmitting && status == NotSent && fileName == "" && !isClosing
      ensures !pickerOpen && searchTerm == "" && recentlyAdded == None && !autoClosePending
      ensures outbox == [] && closeCount == 0
      ensures Valid()
    {
      offers := SectionPicker.LoadOffers(sections);
      data := InitialData;
      errors := map[];
      isSubmitting := false;
      status := NotSent;
      fileName := "";
      isClosing := false;
      pickerOpen := false;
      searchTerm := "";
      recentlyAdded := None;
      autoClosePending := false;
      outbox := [];
      closeCount := 0;
    }

    /** `handleChange` on a text input: store the value and clear that field's error only. */
    method Edit(f: Validation.RegField, value: string)
      requires Valid() && Validation.IsTextField(f)
      modifies this
      ensures Valid()
      ensures data == old(data).(contact := Validation.WithText(old(data.contact), f, value))
      ensures errors == Validation.ClearFieldError(old(errors), f)
      ensures unchanged(this`isSubmitting, this`status, this`fileName, this`isClosing, this`pickerOpen)
      ensures unchanged(this`searchTerm, this`recentlyAdded, this`autoClosePending, this`outbox, this`closeCount)
    {
      data := data.(contact := Validation.WithText(data.contact, f, value));
      errors := Validation.ClearFieldError(errors, f);
    }

    /** `handleChange` on the licence checkbox. */
    method SetIncludeLicense(checked: bool)
      requires Valid()
      modifies this
      ensures Valid()
      ensures data == old(data).(includeLicense := checked)
      ensures errors == Validation.ClearFieldError(old(errors), Validation.IncludeLicense)
      ensures unchanged(this`isSubmitting, this`status, this`fileName, this`isClosing, this`pickerOpen)
      ensures unchanged(this`searchTerm, this`recentlyAdded, this`autoClosePending, this`outbox, this`closeCount)
    {
      data := data.(includeLicense := checked);
      errors := Validation.ClearFieldError(errors, Validation.IncludeLicense);
    }

    function LicenceCount(kind: LicenceKind): nat
      reads this
    {
      if kind.NewLicence? then data.newLicenses else data.renewalLicenses
    }

    function WithLicenceCount(d: FormData, kind: LicenceKind, n: nat): FormData {
      if kind.NewLicence? then d.(newLicenses := n) else d.(renewalLicenses := n)
    }

    /** The minus button: acts only on a positive count. */
    method DecrementLicences(kind: LicenceKind)
      requires Valid()
      modifies this`data
      ensures Valid()
      ensures data == WithLicenceCount(old(data), kind, Ledger.Decrement(old(LicenceCount(kind))))
    {
      data := WithLicenceCount(data, kind, Ledger.Decrement(LicenceCount(kind)));
    }

    /** The plus button. */
    method IncrementLicences(kind: LicenceKind)
      requires Valid()
      modifies this`data
      ensures Valid()
      ensures data == WithLicenceCount(old(data), kind, old(LicenceCount(kind)) + 1)
    {
      data := WithLicenceCount(data, kind, LicenceCount(kind) + 1);
    }

    /** Typing into the count input. */
    method TypeLicences(kind: LicenceKind, text: string)
      requires Valid()
      modifies this`data
      ensures Valid()
      ensures data == WithLicenceCount(old(data), kind, TypedCount(text, old(LicenceCount(kind))))
    {
      data := WithLicenceCount(data, kind, TypedCount(text, LicenceCount(kind)));
    }

    /** `handleFileChange` and `handleDrop`: a refused file sets the file error and keeps the previous attachment. */
    method SelectFile(picked: Option<Validation.FileInfo>)
      requires Valid()
      modifies this`data, this`fileName, this`errors
      ensures Valid()
      ensures picked.None? ==> unchanged(this`data, this`fileName, this`errors)
      ensures picked.Some? && Validation.AttachmentError(picked.value).Some? ==>
        data == old(data) && fileName == old(fileName)
        && errors == old(errors)[Validation.File := Validation.AttachmentError(picked.value).value]
      ensures picked.Some? && Validation.AttachmentError(picked.value).None? ==>
        data == old(data).(file := picked) && fileName == picked.value.name
        && errors == old(errors)[Validation.File := ""]
    {
      if picked.Some? {
        var f := picked.value;
        var refusal := Validation.AttachmentError(f);
        if refusal.Some? {
          errors := errors[Validation.File := refusal.value];
        } else {
          data := data.(file := picked);
          fileName := f.name;
          errors := errors[Validation.File := ""];
        }
      }
    }

    /** `removeFile`. */
    method RemoveFile()
      requires Valid()
      modifies this`data, this`fileName
      ensures Valid()
      ensures data == old(data).(file := None) && fileName == ""
    {
      data := data.(file := None);
      fileName := "";
    }

    /** `updateSectionQuantity`; the minus and plus buttons of a ledger line call it with the count ∓ 1. */
    method UpdateSectionQuantity(id: nat, q: int)
      requires Valid()
      modifies this`data
      ensures Valid()
      ensures data == old(data).(selected := Ledger.UpdateQuantity(old(data.selected), id, q))
    {
      if q >= 1 {
        Ledger.UpdateKeepsWellFormed(data.selected, id, q);
        data := data.(selected := Ledger.UpdateQuantity(data.selected, id, q));
      }
    }

    /** The new-section branch of `addSection`: one person, at the end of the ledger. */
    method AppendSection(id: nat, name: string, price: int)
      requires Valid() && !Ledger.IsSelected(data.selected, id)
      modifies this`data
      ensures Valid()
      ensures data == old(data).(selected := old(data.selected) + [Ledger.LineItem(id, name, 1, price)])
    {
      Ledger.AddNew(data.selected, id, name, price);
      Ledger.AddKeepsWellFormed(data.selected, id, name, price);
      data := data.(selected := data.selected + [Ledger.LineItem(id, name, 1, price)]);
    }

    /** `addSection`: merge by id, highlight the section and clear the "sections" error. */
    method AddSection(o: SectionPicker.Offer)
      requires Valid()
      modifies this`data, this`recentlyAdded, this`errors
      ensures Valid()
      ensures data == old(data).(selected := Ledger.AddToLedger(old(data.selected), o.section.id, o.section.name, SectionPicker.EffectivePrice(o)))
      ensures recentlyAdded == Some(o.section.id)
      ensures errors == Validation.ClearFieldError(old(errors), Validation.Sections)
    {
      var price := SectionPicker.EffectivePrice(o);
      if Ledger.Find(data.selected, o.section.id).None? {
        AppendSection(o.section.id, o.section.name, price);
      } else {
        var merged := Ledger.AddToLedger(data.selected, o.section.id, o.section.name, price);
        Ledger.AddKeepsWellFormed(data.selected, o.section.id, o.section.name, price);
        data := data.(selected := merged);
      }
      recentlyAdded := Some(o.section.id);
      errors := Validation.ClearFieldError(errors, Validation.Sections);
    }

    /** `removeSection`. */
    method RemoveSection(id: nat)
      requires Valid()
      modifies this`data
      ensures Valid()
      ensures data == old(data).(selected := Ledger.RemoveFromLedger(old(data.selected), id))
    {
      Ledger.RemoveKeepsWellFormed(data.selected, id);
      data := data.(selected := Ledger.RemoveFromLedger(data.selected, id));
    }

    /** The highlight timer fires; an id of 0 is falsy and never started one. */
    method HighlightElapsed()
      requires Valid()
      modifies this`recentlyAdded
      ensures Valid()
      ensures old(recentlyAdded).Some? && old(recentlyAdded).value != 0 ==> recentlyAdded == None
      ensures old(recentlyAdded).None? || old(recentlyAdded).value == 0 ==> recentlyAdded == old(recentlyAdded)
    {
      if recentlyAdded.Some? && recentlyAdded.value != 0 {
        recentlyAdded := None;
      }
    }

    /** `validateForm`: replace `errors` by one message per failing rule; valid iff there is none. */
    method Validate() returns (ok: bool)
      requires Valid()
      modifies this`errors
      ensures Valid()
      ensures Validation.ReportsRegistrantErrors(errors, data.contact, |data.selected|, data.file.Some?)
      ensures ok <==> errors == map[]
      ensures ok <==> Validation.RegistrantValid(data.contact, |data.selected|, data.file.Some?)
    {
      errors, ok := Validation.ValidateRegistrant(data.contact, |data.selected|, data.file.Some?);
    }

    /**
     * `handleSubmit` up to the `await`: an invalid form stops after validation; a valid one
     * turns `isSubmitting` on and hands the registration to the mail service.
     */
    method BeginSubmit() returns (sending: bool)
      requires Valid()
      modifies this`errors, this`isSubmitting, this`outbox
      ensures Valid()
      ensures Validation.ReportsRegistrantErrors(errors, data.contact, |data.selected|, data.file.Some?)
      ensures sending <==> Validation.RegistrantValid(data.contact, |data.selected|, data.file.Some?)
      ensures sending ==> isSubmitting && outbox == old(outbox) + [PayloadOf(data)]
      ensures !sending ==> isSubmitting == old(isSubmitting) && outbox == old(outbox)
    {
      sending := Validate();
      if sending {
        isSubmitting := true;
        outbox := outbox + [PayloadOf(data)];
      }
    }

    /**
     * The mail service settles. Success shows the confirmation and starts the two-second
     * timer that closes the form; failure shows the error and keeps every field.
     */
    method FinishSubmit(resolved: bool)
      requires Valid() && isSubmitting
      modifies this`isSubmitting, this`status, this`autoClosePending
      ensures Valid()
      ensures !isSubmitting
      ensures resolved ==> status == Sent && autoClosePending
      ensures !resolved ==> status == SendFailed && autoClosePending == old(autoClosePending)
    {
      if resolved {
        status := Sent;
        autoClosePending := true;
      } else {
        status := SendFailed;
      }
      isSubmitting := false;
    }

    /** `handleClose`: starts the closing animation. */
    method RequestClose()
      requires Valid()
      modifies this`isClosing
      ensures Valid() && isClosing
    {
      isClosing := true;
    }

    /** The two-second timer after a successful submission calls `handleClose`. */
    method AutoCloseElapsed()
      requires Valid() && autoClosePending
      modifies this`isClosing, this`autoClosePending
      ensures Valid() && isClosing && !autoClosePending
    {
      autoClosePending := false;
      RequestClose();
    }

    /** The closing animation ends: the parent is told, and the form returns to its initial state. */
    method CloseElapsed()
      requires Valid() && isClosing
      modifies this`isClosing, this`closeCount, this`data, this`errors, this`status, this`fileName
      ensures Valid()
      ensures closeCount == old(closeCount) + 1 && !isClosing
      ensures data == InitialData && errors == map[] && status == NotSent && fileName == ""
    {
      closeCount := closeCount + 1;
      isClosing := false;
      data := InitialData;
      errors := map[];
      status := NotSent;
      fileName := "";
    }

    /** Opening the picker also empties its search box. */
    method OpenPicker()
      requires Valid()
      modifies this`pickerOpen, this`searchTerm
      ensures Valid() && pickerOpen && searchTerm == ""
    {
      pickerOpen := true;
      searchTerm := "";
    }

    method ClosePicker()
      requires Valid()
      modifies this`pickerOpen
      ensures Valid() && !pickerOpen
    {
      pickerOpen := false;
    }

    method SetSearch(term: string)
      requires Valid()
      modifies this`searchTerm
      ensures Valid() && searchTerm == term
    {
      searchTerm := term;
    }

    /**
     * `SectionSelectionModal`: nothing while closed; otherwise the sections not yet selected
     * that match the search, grouped by category, with the categories sorted. The grouped
     * listing is what the modal draws while `searchTerm` is empty; any non-empty term, white
     * space only included, makes it draw `Shown` as one flat list instead, which the grouping
     * here does not describe.
     */
    method PickerView() returns (categories: seq<string>, groups: map<string, seq<SectionPicker.Offer>>)
      requires Valid()
      ensures !pickerOpen ==> categories == [] && groups == map[]
      ensures pickerOpen ==> forall c :: c in groups <==>
        exists o :: o in SectionPicker.Shown(offers, data.selected, searchTerm) && SectionPicker.CategoryOf(o.section) == c
      ensures pickerOpen ==> forall c :: c in groups ==>
        groups[c] == SectionPicker.InCategory(SectionPicker.Shown(offers, data.selected, searchTerm), c)
      ensures StringOrder.Sorted(categories)
      ensures forall c :: multiset(categories)[c] == if c in groups then 1 else 0
    {
      if !pickerOpen {
        return [], map[];
      }
      var unselected := SectionPicker.Unselected(offers, data.selected);
      var blank := Validation.TrimsToEmpty(searchTerm);
      var shown := if blank then unselected else SectionPicker.Search(unselected, searchTerm);
      assert shown == SectionPicker.Shown(offers, data.selected, searchTerm);
      categories, groups := SectionPicker.GroupByCategory(shown);
    }
  }
}
