/**
 * The single-section registration form. It shares the validators and the attachment check of
 * the multi-section form, but its ledger is a list of line objects that the quantity buttons
 * change in place, lines are removed by position, and "add" appends the first catalogue
 * section without merging, so the same section can appear on several lines.
 */
module SingleRegistration {
  import opened Wrappers
  import JsNumber
  import Lists
  import Catalogue
  import Validation

  /** `price * quantity`: NaN stays NaN. */
  function Times(price: JsNumber.Num, quantity: nat): JsNumber.Num {
    if price.NaN? then JsNumber.NaN else JsNumber.Finite(price.value * quantity)
  }

  /** `a + b` on numbers: NaN absorbs. */
  function Plus(a: JsNumber.Num, b: JsNumber.Num): JsNumber.Num {
    if a.NaN? || b.NaN? then JsNumber.NaN else JsNumber.Finite(a.value + b.value)
  }

  /** `lines.reduce((total, s) => total + s.price * s.quantity, acc)` over (price, quantity) pairs. */
  function Reduce(lines: seq<(JsNumber.Num, nat)>, acc: JsNumber.Num): JsNumber.Num {
    if lines == [] then acc else Reduce(lines[1..], Plus(acc, Times(lines[0].0, lines[0].1)))
  }

  predicate AllPriced(lines: seq<(JsNumber.Num, nat)>) {
    forall i :: 0 <= i < |lines| ==> lines[i].0.Finite?
  }

  /** Σ price × quantity over lines that all carry a number. */
  function Sum(lines: seq<(JsNumber.Num, nat)>): int
    requires AllPriced(lines)
  {
    if lines == [] then 0 else lines[0].0.value * lines[0].1 + Sum(lines[1..])
  }

  /** `totalPrice` is the sum of price × quantity when every price is a number, and NaN otherwise. */
  lemma {:induction false} ReduceTotal(lines: seq<(JsNumber.Num, nat)>, acc: int)
    ensures AllPriced(lines) ==> Reduce(lines, JsNumber.Finite(acc)) == JsNumber.Finite(acc + Sum(lines))
    ensures !AllPriced(lines) ==> Reduce(lines, JsNumber.Finite(acc)) == JsNumber.NaN
  {
    if lines != [] {
      if lines[0].0.Finite? {
        ReduceTotal(lines[1..], acc + lines[0].0.value * lines[0].1);
        if !AllPriced(lines) {
          var i :| 0 <= i < |lines| && !lines[i].0.Finite?;
          assert lines[1..][i - 1] == lines[i];
        }
      } else {
        ReduceNaN(lines[1..]);
      }
    }
  }

  lemma {:induction false} ReduceNaN(lines: seq<(JsNumber.Num, nat)>)
    ensures Reduce(lines, JsNumber.NaN) == JsNumber.NaN
  {
    if lines != [] {
      ReduceNaN(lines[1..]);
    }
  }

  /** The price a line gets from a section: `pricing ? <first entry> : fallback`. */
  function LinePrice(s: Catalogue.Section, fallback: int): (p: JsNumber.Num)
    requires Catalogue.PriceReadable(s)
    ensures s.pricing.None? ==> p == JsNumber.Finite(fallback)
  {
    Catalogue.SectionPrice(s, fallback).price
  }

  /** The fallback when the section given to the form has no pricing. */
  const PropFallback := 0
  /** The fallback of the "add" button. */
  const AddFallback := 180

  /** The address the registration is sent to. */
  const Recipient := "t.turquin@outlook.fr"

  /** One line of `selectedSections`; the quantity buttons change `quantity` on the object itself. */
  class Line {
    const id: nat
    const name: string
    const price: JsNumber.Num
    var quantity: nat

    constructor(id: nat, name: string, price: JsNumber.Num)
      ensures this.id == id && this.name == name && this.price == price && quantity == 1
    {
      this.id := id;
      this.name := name;
      this.price := price;
      quantity := 1;
    }
  }

  datatype SubmitStatus = NotSent | Sent | SendFailed

  /** What the form hands to the mail service. */
  datatype Submission = Submission(
    contact: Validation.Registrant,
    lines: seq<(nat, string, JsNumber.Num, nat)>,
    total: JsNumber.Num,
    attachment: Option<Validation.FileInfo>)

  class SingleSectionForm {
    /** The `sections` catalogue, whose first entry the "add" button uses. */
    const catalogue: seq<Catalogue.Section>
    /** The `section` prop. */
    var section: Option<Catalogue.Section>
    var contact: Validation.Registrant
    var file: Option<Validation.FileInfo>
    var items: seq<Line>
    var errors: Validation.Errors<Validation.RegField>
    var isSubmitting: bool
    var status: SubmitStatus
    var fileName: string
    var isClosing: bool
    var autoClosePending: bool
    var outbox: seq<Submission>
    var closeCount: nat

    /**
     * Every line is its own object with at least one person, the file name matches the
     * attachment, and every section the form can read a price from is readable.
     */
    predicate Valid()
      reads this, items
    {
      && (forall i, j :: 0 <= i < j < |items| ==> items[i] != items[j])
      && (forall i :: 0 <= i < |items| ==> items[i].quantity >= 1)
      && fileName == Validation.FileNameOf(file)
      && (section.Some? ==> Catalogue.PriceReadable(section.value))
      && (|catalogue| > 0 ==> Catalogue.PriceReadable(catalogue[0]))
    }

    /** The (price, quantity) pairs the total is computed from. */
    function Lines(): (r: seq<(JsNumber.Num, nat)>)
      reads this`items, items
      ensures |r| == |items|
    {
      var lines := items;
      seq(|lines|, i reads lines requires 0 <= i < |lines| => (lines[i].price, lines[i].quantity))
    }

    /** `totalPrice`. */
    function TotalPrice(): JsNumber.Num
      reads this`items, items
    {
      Reduce(Lines(), JsNumber.Finite(0))
    }

    /** The total is Σ price × quantity when every line has a numeric price, NaN otherwise. */
    lemma TotalMeaning()
      ensures AllPriced(Lines()) ==> TotalPrice() == JsNumber.Finite(Sum(Lines()))
      ensures !AllPriced(Lines()) ==> TotalPrice() == JsNumber.NaN
    {
      ReduceTotal(Lines(), 0);
    }

    /** The selection derived from the `section` prop: one fresh line with one person, or nothing. */
    method SelectionFor(s: Option<Catalogue.Section>) returns (r: seq<Line>)
      requires s.Some? ==> Catalogue.PriceReadable(s.value)
      ensures s.None? ==> r == []
      ensures s.Some? ==> |r| == 1 && fresh(r[0])
      ensures s.Some? ==> r[0].id == s.value.id && r[0].name == s.value.name && r[0].quantity == 1
      ensures s.Some? ==> r[0].price == LinePrice(s.value, PropFallback)
    {
      if s.None? {
        return [];
      }
      var line := new Line(s.value.id, s.value.name, LinePrice(s.value, PropFallback));
      r := [line];
    }

    constructor(sections: seq<Catalogue.Section>, s: Option<Catalogue.Section>)
      requires s.Some? ==> Catalogue.PriceReadable(s.value)
      requires |sections| > 0 ==> Catalogue.PriceReadable(sections[0])
      ensures catalogue == sections && section == s
      ensures contact == Validation.EmptyRegistrant && file == None && errors == map[]
      ensures s.None? ==> items == []
      ensures s.Some? ==>
        |items| == 1 && items[0].id == s.value.id && items[0].name == s.value.name
        && items[0].quantity == 1 && items[0].price == LinePrice(s.value, PropFallback)
      ensures !isSubmitting && status == NotSent && fileName == "" && !isClosing && !autoClosePending
      ensures outbox == [] && closeCount == 0
      ensures Valid()
    {
      catalogue := sections;
      section := s;
      contact := Validation.EmptyRegistrant;
      file := None;
      errors := map[];
      isSubmitting := false;
      status := NotSent;
      fileName := "";
      isClosing := false;
      autoClosePending := false;
      outbox := [];
      closeCount := 0;
      new;
      items := SelectionFor(s);
    }

    /** The `[section]` effect: a new prop replaces the selection by that section's single line. */
    method SectionChanged(s: Option<Catalogue.Section>)
      requires Valid()
      requires s.Some? ==> Catalogue.PriceReadable(s.value)
      modifies this`section, this`items
      ensures Valid() && section == s
      ensures s.None? ==> items == old(items)
      ensures s.Some? ==>
        |items| == 1 && fresh(items[0]) && items[0].id == s.value.id
        && items[0].name == s.value.name && items[0].quantity == 1
        && items[0].price == LinePrice(s.value, PropFallback)
    {
      section := s;
      if s.Some? {
        items := SelectionFor(s);
      }
    }

    /** The minus button of line `index`: only above one person. */
    method Decrement(index: nat)
      requires Valid() && index < |items|
      modifies items[index]
      ensures Valid()
      ensures old(items[index].quantity) > 1 ==> items[index].quantity == old(items[index].quantity) - 1
      ensures old(items[index].quantity) <= 1 ==> items[index].quantity == old(items[index].quantity)
      ensures forall i :: 0 <= i < |items| && i != index ==> items[i].quantity == old(items[i].quantity)
    {
      var line := items[index];
      if line.quantity > 1 {
        line.quantity := line.quantity - 1;
      }
    }

    /** The plus button of line `index`. */
    method Increment(index: nat)
      requires Valid() && index < |items|
      modifies items[index]
      ensures Valid()
      ensures items[index].quantity == old(items[index].quantity) + 1
      ensures forall i :: 0 <= i < |items| && i != index ==> items[i].quantity == old(items[i].quantity)
    {
      var line := items[index];
      line.quantity := line.quantity + 1;
    }

    /** The remove button, shown only without a `section` prop: drop line `index`. */
    method RemoveLine(index: nat)
      requires Valid() && section.None? && index < |items|
      modifies this`items
      ensures Valid()
      ensures items == Lists.RemoveAt(old(items), index)
    {
      items := Lists.RemoveAt(items, index);
    }

    /**
     * The "Ajouter une section" button, shown only without a `section` prop: append a new line
     * for the first catalogue section, priced from its pricing or 180, without merging.
     */
    method AddFirstSection()
      requires Valid() && section.None? && |catalogue| > 0
      modifies this`items
      ensures Valid()
      ensures |items| == |old(items)| + 1 && items[..|old(items)|] == old(items)
      ensures fresh(items[|old(items)|])
      ensures items[|old(items)|].id == catalogue[0].id && items[|old(items)|].name == catalogue[0].name
      ensures items[|old(items)|].quantity == 1
      ensures items[|old(items)|].price == LinePrice(catalogue[0], AddFallback)
    {
      var line := new Line(catalogue[0].id, catalogue[0].name, LinePrice(catalogue[0], AddFallback));
      items := items + [line];
    }

    /** `handleChange`: store the value and clear that field's error only. */
    method Edit(f: Validation.RegField, value: string)
      requires Valid() && Validation.IsTextField(f)
      modifies this`contact, this`errors
      ensures Valid()
      ensures contact == Validation.WithText(old(contact), f, value)
      ensures errors == Validation.ClearFieldError(old(errors), f)
    {
      contact := Validation.WithText(contact, f, value);
      errors := Validation.ClearFieldError(errors, f);
    }

    /** `handleFileChange` and `handleDrop`. */
    method SelectFile(picked: Option<Validation.FileInfo>)
      requires Valid()
      modifies this`file, this`fileName, this`errors
      ensures Valid()
      ensures picked.None? ==> unchanged(this`file, this`fileName, this`errors)
      ensures picked.Some? && Validation.AttachmentError(picked.value).Some? ==>
        file == old(file) && fileName == old(fileName)
        && errors == old(errors)[Validation.File := Validation.AttachmentError(picked.value).value]
      ensures picked.Some? && Validation.AttachmentError(picked.value).None? ==>
        file == picked && fileName == picked.value.name && errors == old(errors)[Validation.File := ""]
    {
      if picked.Some? {
        var refusal := Validation.AttachmentError(picked.value);
        if refusal.Some? {
          errors := errors[Validation.File := refusal.value];
        } else {
          file := picked;
          fileName := picked.value.name;
          errors := errors[Validation.File := ""];
        }
      }
    }

    /** `removeFile`. */
    method RemoveFile()
      requires Valid()
      modifies this`file, this`fileName
      ensures Valid() && file == None && fileName == ""
    {
      file := None;
      fileName := "";
    }

    /** `validateForm`: the same six rules as the multi-section form. */
    method Validate() returns (ok: bool)
      requires Valid()
      modifies this`errors
      ensures Valid()
      ensures Validation.ReportsRegistrantErrors(errors, contact, |items|, file.Some?)
      ensures ok <==> errors == map[]
      ensures ok <==> Validation.RegistrantValid(contact, |items|, file.Some?)
    {
      errors, ok := Validation.ValidateRegistrant(contact, |items|, file.Some?);
    }

    /** The lines as they are at submission time. */
    function Snapshot(): seq<(nat, string, JsNumber.Num, nat)>
      reads this`items, items
    {
      var lines := items;
      seq(|lines|, i reads lines requires 0 <= i < |lines| => (lines[i].id, lines[i].name, lines[i].price, lines[i].quantity))
    }

    /** `handleSubmit` up to the `await`. */
    method BeginSubmit() returns (sending: bool)
      requires Valid()
      modifies this`errors, this`isSubmitting, this`outbox
      ensures Valid()
      ensures Validation.ReportsRegistrantErrors(errors, contact, |items|, file.Some?)
      ensures sending <==> Validation.RegistrantValid(contact, |items|, file.Some?)
      ensures sending ==> isSubmitting && outbox == old(outbox) + [Submission(contact, Snapshot(), TotalPrice(), file)]
      ensures !sending ==> isSubmitting == old(isSubmitting) && outbox == old(outbox)
    {
      sending := Validate();
      if sending {
        isSubmitting := true;
        outbox := outbox + [Submission(contact, Snapshot(), TotalPrice(), file)];
      }
    }

    /** The mail service settles. */
    method FinishSubmit(resolved: bool)
      requires Valid() && isSubmitting
      modifies this`isSubmitting, this`status, this`autoClosePending
      ensures Valid() && !isSubmitting
      ensures resolved ==> status == Sent && autoClosePending
      ensures !resolved ==> status == SendFailed && autoClosePending == old(autoClosePending)
    {
      if resolved {
        status := Sent;
        autoClosePending := true;
      } else {
        status := SendFailed;
      }
      isSubmitting := false;
    }

    /** `handleClose`: starts the closing animation. */
    method RequestClose()
      requires Valid()
      modifies this`isClosing
      ensures Valid() && isClosing
    {
      isClosing := true;
    }

    /** The two-second timer after a successful submission calls `handleClose`. */
    method AutoCloseElapsed()
      requires Valid() && autoClosePending
      modifies this`isClosing, this`autoClosePending
      ensures Valid() && isClosing && !autoClosePending
    {
      autoClosePending := false;
      RequestClose();
    }

    /** The closing animation ends: empty fields, no errors, and the selection derived from the prop again. */
    method CloseElapsed()
      requires Valid() && isClosing
      modifies this`isClosing, this`closeCount, this`contact, this`file, this`items, this`errors, this`status, this`fileName
      ensures Valid()
      ensures closeCount == old(closeCount) + 1 && !isClosing
      ensures contact == Validation.EmptyRegistrant && file == None && errors == map[]
      ensures status == NotSent && fileName == ""
      ensures section.None? ==> items == []
      ensures section.Some? ==>
        |items| == 1 && fresh(items[0]) && items[0].id == section.value.id
        && items[0].name == section.value.name && items[0].quantity == 1
        && items[0].price == LinePrice(section.value, PropFallback)
    {
      ReselectFromProp();
      closeCount := closeCount + 1;
      isClosing := false;
      contact := Validation.EmptyRegistrant;
      file := None;
      errors := map[];
      status := NotSent;
      fileName := "";
    }

    /** The selection goes back to the one line the `section` prop gives, or to none. */
    method ReselectFromProp()
      requires Valid()
      modifies this`items
      ensures Valid()
      ensures section.None? ==> items == []
      ensures section.Some? ==>
        |items| == 1 && fresh(items[0]) && items[0].id == section.value.id
        && items[0].name == section.value.name && items[0].quantity == 1
        && items[0].price == LinePrice(section.value, PropFallback)
    {
      items := SelectionFor(section);
    }
  }
}
