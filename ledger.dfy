/**
 * The selection ledger of the multi-section registration form: the ordered list of chosen
 * sections with a head count each, the three operations that edit it, the licence fees,
 * and the totals shown to the registrant.
 */
module Ledger {
  import opened Wrappers
  import Lists

  /** One selected section: `{id, name, quantity, price}`; `quantity` is the number of people. */
  datatype LineItem = LineItem(id: nat, name: string, quantity: nat, price: int)

  predicate IsSelected(items: seq<LineItem>, id: nat) {
    exists i :: 0 <= i < |items| && items[i].id == id
  }

  predicate IdsUnique(items: seq<LineItem>) {
    forall i, j :: 0 <= i < j < |items| ==> items[i].id != items[j].id
  }

  predicate QuantitiesPositive(items: seq<LineItem>) {
    forall i :: 0 <= i < |items| ==> items[i].quantity >= 1
  }

  /** The ledger invariant: each section at most once, each with at least one person. */
  predicate WellFormed(items: seq<LineItem>) {
    IdsUnique(items) && QuantitiesPositive(items)
  }

  /** `items.find(s => s.id === id)`, as the index of the first match. */
  function Find(items: seq<LineItem>, id: nat): (r: Option<nat>)
    ensures r.Some? ==> r.value < |items| && items[r.value].id == id
    ensures r.Some? ==> forall i :: 0 <= i < r.value ==> items[i].id != id
    ensures r.None? <==> !IsSelected(items, id)
  {
    if items == [] then None
    else if items[0].id == id then Some(0)
    else
      match Find(items[1..], id)
      case None =>
        assert forall i :: 1 <= i < |items| ==> items[i] == items[1..][i - 1];
        None
      case Some(k) => Some(k + 1)
  }

  /** In a ledger with unique ids the first match is the only one. */
  lemma FindUnique(items: seq<LineItem>, id: nat, j: nat)
    requires IdsUnique(items) && j < |items| && items[j].id == id
    ensures Find(items, id) == Some(j)
  {
  }

  /** `items.map(s => s.id === id ? { ...s, quantity: q } : s)`. */
  function MapQuantity(items: seq<LineItem>, id: nat, q: nat): (r: seq<LineItem>)
    ensures |r| == |items|
    ensures forall i :: 0 <= i < |items| ==>
      r[i] == if items[i].id == id then items[i].(quantity := q) else items[i]
  {
    if items == [] then []
    else [if items[0].id == id then items[0].(quantity := q) else items[0]] + MapQuantity(items[1..], id, q)
  }

  /**
   * `updateSectionQuantity(id, q)`: a value below 1 is refused; otherwise the item with that id
   * gets the new head count and every other item, and the order, stay as they were.
   */
  function UpdateQuantity(items: seq<LineItem>, id: nat, q: int): (r: seq<LineItem>)
    ensures |r| == |items|
    ensures forall i :: 0 <= i < |items| ==>
      r[i] == if q >= 1 && items[i].id == id then items[i].(quantity := q) else items[i]
  {
    if q < 1 then items else MapQuantity(items, id, q)
  }

  /** `updateSectionQuantity` keeps the ledger invariant: ids untouched, and no count below 1 accepted. */
  lemma UpdateKeepsWellFormed(items: seq<LineItem>, id: nat, q: int)
    requires WellFormed(items)
    ensures WellFormed(UpdateQuantity(items, id, q))
  {
  }

  /**
   * `addSection`: a section already in the ledger gets one more person; any other section is
   * appended at the end with one person.
   */
  function AddToLedger(items: seq<LineItem>, id: nat, name: string, price: int): (r: seq<LineItem>)
    ensures Find(items, id).None? ==> r == items + [LineItem(id, name, 1, price)]
    ensures Find(items, id).Some? ==> var k := Find(items, id).value;
      |r| == |items| && r[k].id == id && r[k].quantity == items[k].quantity + 1
  {
    match Find(items, id)
    case Some(k) => UpdateQuantity(items, id, items[k].quantity + 1)
    case None => items + [LineItem(id, name, 1, price)]
  }

  /** `AddToLedger` on a section already selected at `k` is `updateSectionQuantity` with one more person. */
  lemma AddExisting(items: seq<LineItem>, id: nat, name: string, price: int, k: nat)
    requires Find(items, id) == Some(k)
    ensures AddToLedger(items, id, name, price) == UpdateQuantity(items, id, items[k].quantity + 1)
  {
  }

  /** `AddToLedger` on a section not yet selected appends it. */
  lemma AddNew(items: seq<LineItem>, id: nat, name: string, price: int)
    requires Find(items, id).None?
    ensures AddToLedger(items, id, name, price) == items + [LineItem(id, name, 1, price)]
  {
  }

  /**
   * What `addSection` does to the ledger: in a well-formed ledger the chosen section gains one
   * person and nothing else changes; a section not yet chosen is appended with one person; either
   * way the section is selected afterwards.
   */
  lemma AddToLedgerMeaning(items: seq<LineItem>, id: nat, name: string, price: int)
    ensures IdsUnique(items) && IsSelected(items, id) ==>
      var r := AddToLedger(items, id, name, price);
      |r| == |items| && forall i :: 0 <= i < |items| ==>
        r[i] == if items[i].id == id then items[i].(quantity := items[i].quantity + 1) else items[i]
    ensures !IsSelected(items, id) ==> AddToLedger(items, id, name, price) == items + [LineItem(id, name, 1, price)]
    ensures IsSelected(AddToLedger(items, id, name, price), id)
  {
    match Find(items, id)
    case Some(k) =>
      AddExisting(items, id, name, price, k);
      var r := UpdateQuantity(items, id, items[k].quantity + 1);
      if IdsUnique(items) {
        forall i | 0 <= i < |items| && items[i].id == id
          ensures items[i].quantity == items[k].quantity
        {
          FindUnique(items, id, i);
        }
      }
      assert r[k].id == id;
    case None =>
      AddNew(items, id, name, price);
      var r := items + [LineItem(id, name, 1, price)];
      assert r[|items|].id == id;
  }

  /** `addSection` keeps the ledger invariant: a new id is appended with one person, an existing one gains one. */
  lemma AddKeepsWellFormed(items: seq<LineItem>, id: nat, name: string, price: int)
    requires WellFormed(items)
    ensures WellFormed(AddToLedger(items, id, name, price))
  {
    match Find(items, id)
    case Some(k) =>
      AddExisting(items, id, name, price, k);
      UpdateKeepsWellFormed(items, id, items[k].quantity + 1);
    case None =>
      AddNew(items, id, name, price);
      var r := items + [LineItem(id, name, 1, price)];
      assert forall i :: 0 <= i < |items| ==> r[i] == items[i];
  }

  /** `removeSection`: `items.filter(s => s.id !== id)`. */
  function RemoveFromLedger(items: seq<LineItem>, id: nat): (r: seq<LineItem>)
    ensures !IsSelected(r, id)
    ensures forall i :: 0 <= i < |items| && items[i].id != id ==> items[i] in r
    ensures forall i :: 0 <= i < |r| ==> r[i] in items
  {
    var r := Lists.Filter(items, (s: LineItem) => s.id != id);
    assert forall i :: 0 <= i < |r| ==> r[i].id != id;
    r
  }

  /** `removeSection` keeps the ledger invariant. */
  lemma RemoveKeepsWellFormed(items: seq<LineItem>, id: nat)
    requires WellFormed(items)
    ensures WellFormed(RemoveFromLedger(items, id))
  {
    RemoveKeepsIdsUnique(items, id);
  }

  lemma {:induction false} RemoveKeepsIdsUnique(items: seq<LineItem>, id: nat)
    requires IdsUnique(items)
    ensures IdsUnique(Lists.Filter(items, (s: LineItem) => s.id != id))
  {
    if items != [] {
      var tail := items[1..];
      assert IdsUnique(tail);
      RemoveKeepsIdsUnique(tail, id);
      if items[0].id != id {
        var ft := Lists.Filter(tail, (s: LineItem) => s.id != id);
        assert forall i :: 0 <= i < |ft| ==> ft[i].id != items[0].id by {
          assert forall i :: 0 <= i < |ft| ==> ft[i] in tail;
          assert forall x :: x in tail ==> x.id != items[0].id;
        }
        IdsUniqueCons(items[0], ft);
      }
    }
  }

  lemma IdsUniqueCons(s: LineItem, rest: seq<LineItem>)
    requires IdsUnique(rest) && forall i :: 0 <= i < |rest| ==> rest[i].id != s.id
    ensures IdsUnique([s] + rest)
  {
    var r := [s] + rest;
    assert forall i :: 1 <= i < |r| ==> r[i] == rest[i - 1];
  }

  /** Removing keeps the remaining items in their original order. */
  lemma RemoveKeepsOrder(items: seq<LineItem>, id: nat)
    ensures Lists.IsSubseq(RemoveFromLedger(items, id), items)
  {
    Lists.FilterIsSubseq(items, (s: LineItem) => s.id != id);
  }

  /** Removing an id that is not selected changes nothing. */
  lemma RemoveAbsent(items: seq<LineItem>, id: nat)
    requires !IsSelected(items, id)
    ensures RemoveFromLedger(items, id) == items
  {
    Lists.FilterKeepsAll(items, (s: LineItem) => s.id != id);
  }

  // ---- totals ----

  /** The cost of one item. */
  function Cost(s: LineItem): int {
    s.price * s.quantity
  }

  /** `items.reduce((total, s) => total + s.price * s.quantity, acc)`, folding from the left as `reduce` does. */
  function Reduce(items: seq<LineItem>, acc: int): int {
    if items == [] then acc else Reduce(items[1..], acc + Cost(items[0]))
  }

  /** The mathematical sum of the item costs. */
  function Sum(items: seq<LineItem>): int {
    if items == [] then 0 else Cost(items[0]) + Sum(items[1..])
  }

  /** `sectionsTotalPrice`. */
  function SectionsTotal(items: seq<LineItem>): int {
    Reduce(items, 0)
  }

  lemma {:induction false} SumAppend(a: seq<LineItem>, b: seq<LineItem>)
    ensures Sum(a + b) == Sum(a) + Sum(b)
  {
    if a == [] {
      assert a + b == b;
    } else {
      assert (a + b)[0] == a[0];
      assert (a + b)[1..] == a[1..] + b;
      SumAppend(a[1..], b);
    }
  }

  /** The left fold computes the sum: the total is Σ price × quantity. */
  lemma {:induction false} ReduceIsSum(items: seq<LineItem>, acc: int)
    ensures Reduce(items, acc) == acc + Sum(items)
  {
    if items != [] {
      ReduceIsSum(items[1..], acc + Cost(items[0]));
    }
  }

  lemma SectionsTotalIsSum(items: seq<LineItem>)
    ensures SectionsTotal(items) == Sum(items)
  {
    ReduceIsSum(items, 0);
  }

  /** A new head count changes an item's cost by the difference times its price. */
  lemma CostWithQuantity(s: LineItem, q: nat)
    ensures Cost(s.(quantity := q)) == Cost(s) + (q - s.quantity) * s.price
  {
    calc {
      Cost(s) + (q - s.quantity) * s.price;
      s.price * s.quantity + (q - s.quantity) * s.price;
      { assert (q - s.quantity) * s.price == q * s.price - s.quantity * s.price; }
      s.price * q;
    }
  }

  lemma MapQuantityAbsent(items: seq<LineItem>, id: nat, q: nat)
    requires !IsSelected(items, id)
    ensures MapQuantity(items, id, q) == items
  {
  }

  /** Changing the head count of the one item with that id changes the total by the difference times its price. */
  lemma {:induction false} SumMapQuantity(items: seq<LineItem>, id: nat, q: nat, k: nat)
    requires IdsUnique(items) && k < |items| && items[k].id == id
    ensures Sum(MapQuantity(items, id, q)) == Sum(items) + (q - items[k].quantity) * items[k].price
  {
    var tail := items[1..];
    assert MapQuantity(items, id, q)[1..] == MapQuantity(tail, id, q);
    if k == 0 {
      assert !IsSelected(tail, id);
      MapQuantityAbsent(tail, id, q);
      CostWithQuantity(items[0], q);
    } else {
      assert IdsUnique(tail);
      SumMapQuantity(tail, id, q, k - 1);
    }
  }

  /** One more person on the item at `k` adds its price once. */
  lemma SumAddOne(items: seq<LineItem>, id: nat, k: nat)
    requires IdsUnique(items) && k < |items| && items[k].id == id
    ensures Sum(MapQuantity(items, id, items[k].quantity + 1)) == Sum(items) + items[k].price
  {
    var q, p := items[k].quantity, items[k].price;
    SumMapQuantity(items, id, q + 1, k);
    assert (q + 1 - q) * p == p;
  }

  /** Total after `addSection` of a section already selected at `k`. */
  lemma TotalAfterAddExisting(items: seq<LineItem>, id: nat, name: string, price: int, k: nat)
    requires IdsUnique(items) && Find(items, id) == Some(k)
    ensures Sum(AddToLedger(items, id, name, price)) == Sum(items) + items[k].price
  {
    var q := items[k].quantity + 1;
    AddExisting(items, id, name, price, k);
    assert UpdateQuantity(items, id, q) == MapQuantity(items, id, q);
    SumAddOne(items, id, k);
  }

  /** Total after `addSection` of a section not yet selected. */
  lemma TotalAfterAddNew(items: seq<LineItem>, id: nat, name: string, price: int)
    requires Find(items, id).None?
    ensures Sum(AddToLedger(items, id, name, price)) == Sum(items) + price
  {
    var added := [LineItem(id, name, 1, price)];
    AddNew(items, id, name, price);
    SumAppend(items, added);
    assert Sum(added) == price;
  }

  /** Total after `addSection`: it grows by the price of the section added. */
  lemma TotalAfterAdd(items: seq<LineItem>, id: nat, name: string, price: int)
    requires IdsUnique(items)
    ensures Find(items, id).Some? ==>
      Sum(AddToLedger(items, id, name, price)) == Sum(items) + items[Find(items, id).value].price
    ensures Find(items, id).None? ==>
      Sum(AddToLedger(items, id, name, price)) == Sum(items) + price
  {
    match Find(items, id)
    case Some(k) => TotalAfterAddExisting(items, id, name, price, k);
    case None => TotalAfterAddNew(items, id, name, price);
  }

  /** Total after `updateSectionQuantity` of the item at `k`. */
  lemma TotalAfterUpdateAt(items: seq<LineItem>, id: nat, q: int, k: nat)
    requires IdsUnique(items) && k < |items| && items[k].id == id
    ensures q < 1 ==> Sum(UpdateQuantity(items, id, q)) == Sum(items)
    ensures q >= 1 ==> Sum(UpdateQuantity(items, id, q)) == Sum(items) + (q - items[k].quantity) * items[k].price
  {
    if q >= 1 {
      assert UpdateQuantity(items, id, q) == MapQuantity(items, id, q);
      SumMapQuantity(items, id, q, k);
    }
  }

  /**
   * The change of the total caused by `updateSectionQuantity(id, q)`: the change of the head
   * count times the section's price, and nothing when the count is refused or the id is absent.
   */
  function UpdateDelta(items: seq<LineItem>, id: nat, q: int): int {
    match Find(items, id)
    case None => 0
    case Some(k) => if q < 1 then 0 else (q - items[k].quantity) * items[k].price
  }

  /** Total after `updateSectionQuantity`. */
  lemma TotalAfterUpdate(items: seq<LineItem>, id: nat, q: int)
    requires IdsUnique(items)
    ensures Sum(UpdateQuantity(items, id, q)) == Sum(items) + UpdateDelta(items, id, q)
  {
    match Find(items, id)
    case Some(k) => TotalAfterUpdateAt(items, id, q, k);
    case None => UpdateAbsent(items, id, q);
  }

  /** Updating an id that is not selected changes nothing. */
  lemma UpdateAbsent(items: seq<LineItem>, id: nat, q: int)
    requires Find(items, id).None?
    ensures UpdateQuantity(items, id, q) == items
  {
    if q >= 1 {
      assert UpdateQuantity(items, id, q) == MapQuantity(items, id, q);
      MapQuantityAbsent(items, id, q);
    }
  }

  /** Total after `removeSection`: the removed item's cost is subtracted. */
  lemma {:induction false} TotalAfterRemove(items: seq<LineItem>, id: nat)
    requires IdsUnique(items)
    ensures Find(items, id).None? ==> Sum(RemoveFromLedger(items, id)) == Sum(items)
    ensures Find(items, id).Some? ==> Sum(RemoveFromLedger(items, id)) == Sum(items) - Cost(items[Find(items, id).value])
  {
    var p := (s: LineItem) => s.id != id;
    if items != [] {
      var tail := items[1..];
      assert IdsUnique(tail);
      TotalAfterRemove(tail, id);
      if items[0].id == id {
        assert !IsSelected(tail, id);
        RemoveAbsent(tail, id);
      }
    }
  }

  // ---- licences ----

  /** `LICENSE_FEES`: 70 euros for a new licence, 40 for a renewal. */
  const NewLicenceFee: nat := 70
  const RenewalLicenceFee: nat := 40

  /** `totalLicenseFee`: the fees count only when the licence is included. */
  function LicenceFee(includeLicense: bool, newLicenses: nat, renewalLicenses: nat): (r: nat)
    ensures !includeLicense ==> r == 0
    ensures includeLicense ==> r == 70 * newLicenses + 40 * renewalLicenses
  {
    (if includeLicense then NewLicenceFee * newLicenses else 0)
    + (if includeLicense then RenewalLicenceFee * renewalLicenses else 0)
  }

  /** `totalPrice`: sections plus licence fees. */
  function GrandTotal(items: seq<LineItem>, includeLicense: bool, newLicenses: nat, renewalLicenses: nat): (r: int)
    ensures r == Sum(items) + LicenceFee(includeLicense, newLicenses, renewalLicenses)
  {
    SectionsTotalIsSum(items);
    SectionsTotal(items) + LicenceFee(includeLicense, newLicenses, renewalLicenses)
  }

  /** The grand total is Σ price × quantity, plus 70 per new and 40 per renewed licence when included. */
  lemma GrandTotalBreakdown(items: seq<LineItem>, includeLicense: bool, newLicenses: nat, renewalLicenses: nat)
    ensures GrandTotal(items, includeLicense, newLicenses, renewalLicenses)
      == Sum(items) + (if includeLicense then 70 * newLicenses + 40 * renewalLicenses else 0)
  {
    SectionsTotalIsSum(items);
  }

  /** The minus buttons: `count > 0 && set(count - 1)`. */
  function Decrement(count: nat): (r: nat)
    ensures count > 0 ==> r + 1 == count
    ensures count == 0 ==> r == 0
  {
    if count > 0 then count - 1 else count
  }
}
