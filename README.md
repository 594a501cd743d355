# CSA Saint-Priest club site: a Dafny model of its core

The site is a single-page application for a multi-section sports and culture club. Its core
logic is in its React components. This project models each component's state and handlers
in Dafny and proves what they promise. The components modelled are:

- the registration forms.
  - The multi-section form keeps a ledger of chosen sections with quantities, licence
    counts and a computed total. It also has a section picker with search and category
    grouping.
  - The single-section form keeps mutable lines.
- the form validators: required fields, e-mail and telephone patterns, the attachment checks.
- the admin panel.
  - Login with fixed credentials, a session flag, search and save-by-id merge.
  - The section editor: content blocks that can be added, removed and moved, gallery
    images, validation.
- the user context.
  - A user record kept in browser storage.
  - Start-up restore, login, logout and profile merge.
- the login and register dialogs.
- the route table, `generatePath`, and the section page that resolves a route id to a section.
- the event lists (month filter, the four-way filter of the "all events" dialog,
  grouping by month) and the sections grid's category filter.

Stateful components are Dafny classes. Their fields are the component's state, and every
handler is a method that states the complete new state. Pure computations are functions
whose contracts say what the result means. Where a second definition exists, lemmas relate
the two. Examples: `Reduce` against `Sum`, the `forEach` grouping against `InCategory`,
`parseInt` against `String(n)`, and `indexOf`/`replace` against the first occurrence. Some
small functions are specified only by their own contracts, with no second definition:
`StripSpaces`, `LowerChar`, `Categories` and `SectionOptions`.

The modelled JavaScript built-ins are:

- `trim` (JavaScript's white-space set), `toLowerCase` (ASCII and Latin-1), `includes`,
  `indexOf`, `replace` with a string pattern (first occurrence only), and `split(c)[0]` / `[1]`.
- `parseInt(s, 10)` and `parseFloat` on whole-number text; `NaN` propagates through `+` and `*`.
- `||` truthiness, `Array.prototype.filter`, `find`, `reduce` (a left fold), `new Set`
  (first-occurrence order) and `sort()` on strings.

Timers, the mail service and browser storage are inputs or state:

- A pending timer is a boolean field. The method named `…Elapsed` is what the timer's
  callback does.
- The mail service's outcome is the `resolved` parameter of `FinishSubmit`. What would be
  sent is appended to an `outbox` field.
- `localStorage` and `sessionStorage` are the two maps of `BrowserStorage.Store`.

Some behaviours of the code are kept as written even where they look unintended:

- The catalogue price expression `pricing[0].split(':')[1].trim()…` throws on an entry
  without a colon. The model makes that a `Throws` result, and the forms require a catalogue
  that does not throw.
- The single-section form's fallback price is 0 for a section passed in as a prop. It is 180
  only for the "add a section" button.
- The multi-section form does not take an initial section.
- `parseInt(e.target.value) || 0` followed by `value >= 0` ignores negative input. NaN
  becomes 0.

## Model

| member | source | states |
|---|---|---|
| JsText.TrimStart | src/components/MultiSectionRegistrationForm.jsx:54 | drops exactly the longest leading run of JavaScript white space |
| JsText.TrimEnd | src/components/MultiSectionRegistrationForm.jsx:54 | drops exactly the longest trailing run of white space |
| JsText.TrimEmptyIffBlank | src/components/MultiSectionRegistrationForm.jsx:276-298 | `!s.trim()` holds exactly when every character is white space |
| JsText.TrimAround | src/components/MultiSectionRegistrationForm.jsx:54 | trimming blank padding from a non-blank core gives the core back |
| JsText.StripSpaces | src/components/MultiSectionRegistrationForm.jsx:296 | `replace(/\s/g, '')` leaves no white space and never lengthens the text |
| JsText.StripSpacesKeeps | src/components/MultiSectionRegistrationForm.jsx:296 | every character other than white space is kept as often as it occurs |
| JsText.StripSpacesKeepsOrder | src/components/MultiSectionRegistrationForm.jsx:296 | the kept characters stay in their original order |
| JsText.StripSpacesAppend | src/components/MultiSectionRegistrationForm.jsx:296 | removing white space from a concatenation removes it from each part |
| JsText.Utf16Length | src/components/auth/RegisterModal.jsx:49 | `length` counts one unit per character of the Basic Multilingual Plane and two per character beyond it, so it lies between the character count and twice it |
| JsText.Utf16LengthBounds | src/components/auth/RegisterModal.jsx:49 | `length` equals the character count exactly when no character lies beyond the Basic Multilingual Plane, and twice it exactly when every one does |
| JsText.Utf16LengthAppend | src/components/auth/RegisterModal.jsx:49 | the `length` of a concatenation is the sum of the parts' lengths |
| JsText.LowerChar | src/components/MultiSectionRegistrationForm.jsx:448-450 | A–Z map to a–z and the Latin-1 capitals À–Þ to à–þ; × and every character that is not a capital are unchanged |
| JsText.ToLower | src/components/MultiSectionRegistrationForm.jsx:448-450 | lower-cases character by character and keeps the length |
| JsText.IndexOf | src/utils/routes.js:37 | the first position where the pattern occurs, none exactly when it does not occur |
| JsText.ReplaceFirstSpec | src/utils/routes.js:37 | `replace` leaves the text unchanged without a match and otherwise substitutes the first occurrence only |
| JsText.TakeUntil | src/components/auth/LoginModal.jsx:105 | `split(c)[0]`: the longest prefix without `c`, stopping at the first `c` |
| JsText.SecondField | src/components/MultiSectionRegistrationForm.jsx:54 | `split(c)[1]` is undefined exactly when `c` does not occur |
| JsText.SecondFieldOf | src/components/MultiSectionRegistrationForm.jsx:54 | in `a c b` with no other `c`, the second field is `b` |
| JsText.ReplaceLastChar | src/components/MultiSectionRegistrationForm.jsx:54 | `replace('€', '')` on text ending in its only '€' removes it |
| JsNumber.LeadingDigits | src/components/SectionPage.jsx:21 | the longest digit prefix: all digits, followed by a character that is not a digit or by the end |
| JsNumber.ParseInt | src/components/SectionPage.jsx:21 | a finite result needs a digit in the input; otherwise NaN |
| JsNumber.ReadDigits | src/components/SectionPage.jsx:21 | NaN exactly when the text does not start with a digit; otherwise the decimal value of its leading digit run |
| JsNumber.ParseIntOfParts | src/components/SectionPage.jsx:21 | after leading white space and an optional sign, `parseInt` reads the digit run at the front of the rest, negated after '-', whatever follows it |
| JsNumber.ParseIntNaN | src/components/SectionPage.jsx:21 | `parseInt` gives NaN exactly when no digit follows the leading white space and the optional sign |
| JsNumber.ParseIntSplit | src/components/SectionPage.jsx:21 | every text is leading white space, then an optional sign, then a rest starting with neither, so the two lemmas above cover every input |
| JsNumber.ParseIntOfNumeral | src/components/SectionPage.jsx:21 | white space, a sign and a digit run followed by a non-digit or the end read as the signed decimal value of the run |
| JsNumber.NatToString | src/utils/routes.js:17 | `String(n)` is non-empty decimal digits |
| JsNumber.NatToStringRoundTrip | src/components/SectionPage.jsx:21 | `parseInt(String(n), 10) === n` for every natural number |
| JsNumber.NegatedRoundTrip | src/components/SectionPage.jsx:21 | a minus sign before `String(n)` reads back as `-n` |
| JsNumber.IntToStringRoundTrip | src/components/AllEventsModal.jsx:18-19 | `parseInt(String(i), 10) === i` for every whole number, negatives included |
| JsNumber.IntToStringInjective | src/components/AllEventsModal.jsx:18-19 | different years are written differently |
| Lists.Filter | src/components/Events.jsx:10-12 | every kept element is in the list and passes the test; every passing element is kept |
| Lists.FilterMultiplicity | src/components/Events.jsx:10-12 | each passing element is kept as often as it occurs, each failing one not at all |
| Lists.FilterIsSubseq | src/components/Events.jsx:10-12 | `filter` keeps the original order |
| Lists.RemoveAt | src/components/SectionRegistrationForm.jsx:480-483 | removing index k shifts the later elements down by one; an index past the end changes nothing |
| Lists.Dedup | src/components/SectionsGrid.jsx:12 | `[...new Set(xs)]`: no duplicates, the same elements, in order of first appearance |
| StringOrder.LessTotal | src/components/MultiSectionRegistrationForm.jsx:466 | the string order of `sort()` is total |
| StringOrder.LessTransitive | src/components/MultiSectionRegistrationForm.jsx:466 | the string order is transitive |
| StringOrder.Insert | src/components/MultiSectionRegistrationForm.jsx:466 | inserting into a sorted list keeps it sorted and adds exactly the new key |
| StringOrder.Sort | src/components/MultiSectionRegistrationForm.jsx:466 | `sort()` returns a sorted permutation of its input |
| Catalogue.EntryPrice | src/components/MultiSectionRegistrationForm.jsx:54 | the price expression throws exactly when the entry has no ':' |
| Catalogue.SectionPrice | src/components/MultiSectionRegistrationForm.jsx:54 | without a pricing list the fallback is used; it throws exactly on an empty list or a first entry without ':' |
| Catalogue.AmountField | src/components/MultiSectionRegistrationForm.jsx:54 | the text after the colon of "caption: digits€" is " digits€" |
| Catalogue.TrimAmount | src/components/MultiSectionRegistrationForm.jsx:54 | trimming " digits€" gives "digits€" |
| Catalogue.DropEuro | src/components/MultiSectionRegistrationForm.jsx:54 | removing '€' from "digits€" gives the digits |
| Catalogue.EntryPriceOfLabelledAmount | src/components/MultiSectionRegistrationForm.jsx:54 | an entry "caption: n€" is read as the number n |
| Catalogue.ArcheryAnnualFee | src/data/sections.js:15 | the archery section's first entry is read as 180 |
| Validation.ClearFieldError | src/components/MultiSectionRegistrationForm.jsx:106-113 | clearing an error keeps every key, blanks that one field and leaves the others unchanged |
| Validation.EmailOfParts | src/components/MultiSectionRegistrationForm.jsx:290 | every "local@domain.tld" without white space passes `/\S+@\S+\.\S+/` |
| Validation.EmailHasAtThenDot | src/components/MultiSectionRegistrationForm.jsx:290 | what passes has an '@' with text before it, a later '.' with text in between and text after |
| Validation.EmailExamples | src/components/MultiSectionRegistrationForm.jsx:290 | the unanchored pattern accepts "Jean a@b.c" and rejects "a@b." |
| Validation.IsEmail | src/components/MultiSectionRegistrationForm.jsx:290 | text that passes `/\S+@\S+\.\S+/` has at least five characters, an '@' and a '.' |
| Validation.IsPhone | src/components/MultiSectionRegistrationForm.jsx:296 | with white space removed: exactly 9–10 digits, or '+' followed by 10–13 digits |
| Validation.PhoneIgnoresSpace | src/components/MultiSectionRegistrationForm.jsx:296 | white space typed anywhere in a number never changes the verdict |
| Validation.PhonePlusTooShort | src/components/MultiSectionRegistrationForm.jsx:296 | '+' followed by nine digits is refused |
| Validation.PhonePatternWithoutSpaces | src/components/MultiSectionRegistrationForm.jsx:296 | after spaces are removed the pattern accepts exactly 9–10 digits, or '+' and 10–13 digits |
| Validation.AttachmentError | src/components/MultiSectionRegistrationForm.jsx:117-147 | the file is accepted exactly when its type is PDF/JPEG/PNG and it is at most 5 MiB; otherwise the type message, or else the size message |
| Validation.TrimsToEmpty | src/components/MultiSectionRegistrationForm.jsx:276-298 | `!s.trim()` is true exactly for blank text |
| Validation.ValidateRegistrant | src/components/MultiSectionRegistrationForm.jsx:273-306 | one message per failing rule and no other key; the form passes exactly when all six rules hold |
| Ledger.Find | src/components/MultiSectionRegistrationForm.jsx:224 | `find` by id: the first matching index, none exactly when no line has that id |
| Ledger.FindUnique | src/components/MultiSectionRegistrationForm.jsx:224 | with unique ids, `find` returns the one line with that id |
| Ledger.UpdateQuantity | src/components/MultiSectionRegistrationForm.jsx:261-270 | a quantity below 1 changes nothing; otherwise every line with that id gets the new quantity and the rest are kept, in place |
| Ledger.UpdateKeepsWellFormed | src/components/MultiSectionRegistrationForm.jsx:261-270 | updating keeps ids unique and quantities at least 1 |
| Ledger.AddExisting | src/components/MultiSectionRegistrationForm.jsx:225-235 | adding an already-selected section is updating it to one more person |
| Ledger.AddNew | src/components/MultiSectionRegistrationForm.jsx:236-244 | adding a new section appends it with quantity 1 and its price |
| Ledger.AddToLedger | src/components/MultiSectionRegistrationForm.jsx:219-244 | afterwards the section is selected; the ledger grows by one only for a section not yet selected |
| Ledger.AddToLedgerMeaning | src/components/MultiSectionRegistrationForm.jsx:219-244 | adding a selected section raises only its quantity, by one; an unselected one is appended; either way it is selected afterwards |
| Ledger.AddKeepsWellFormed | src/components/MultiSectionRegistrationForm.jsx:219-244 | adding keeps ids unique and quantities positive |
| Ledger.RemoveFromLedger | src/components/MultiSectionRegistrationForm.jsx:254-259 | the section is gone, every other line stays, nothing new appears |
| Ledger.RemoveKeepsWellFormed | src/components/MultiSectionRegistrationForm.jsx:254-259 | removing keeps the ledger well formed |
| Ledger.RemoveKeepsOrder | src/components/MultiSectionRegistrationForm.jsx:254-259 | removing keeps the order of the remaining lines |
| Ledger.RemoveAbsent | src/components/MultiSectionRegistrationForm.jsx:254-259 | removing an unselected section changes nothing |
| Ledger.SumAppend | src/components/MultiSectionRegistrationForm.jsx:37-39 | the total of two lists is the sum of their totals |
| Ledger.ReduceIsSum | src/components/MultiSectionRegistrationForm.jsx:37-39 | the left fold of `reduce` is the accumulator plus Σ price × quantity |
| Ledger.SectionsTotalIsSum | src/components/MultiSectionRegistrationForm.jsx:37-39 | `sectionsTotalPrice` is Σ price × quantity |
| Ledger.TotalAfterAddExisting | src/components/MultiSectionRegistrationForm.jsx:225-235 | adding a selected section raises the total by its price |
| Ledger.TotalAfterAddNew | src/components/MultiSectionRegistrationForm.jsx:236-244 | adding a new section raises the total by the new price |
| Ledger.TotalAfterAdd | src/components/MultiSectionRegistrationForm.jsx:219-244 | both cases of `addSection` on the total |
| Ledger.TotalAfterUpdate | src/components/MultiSectionRegistrationForm.jsx:261-270 | the total moves by (new − old quantity) × price, or not at all for a quantity below 1 or an absent id |
| Ledger.TotalAfterRemove | src/components/MultiSectionRegistrationForm.jsx:254-259 | removing lowers the total by that line's cost, or not at all when absent |
| Ledger.LicenceFee | src/components/MultiSectionRegistrationForm.jsx:31-34 | 0 when licences are not included, otherwise 70 per new and 40 per renewed licence |
| Ledger.GrandTotal | src/components/MultiSectionRegistrationForm.jsx:36-47 | Σ price × quantity plus the licence fee |
| Ledger.GrandTotalBreakdown | src/components/MultiSectionRegistrationForm.jsx:31-47 | `totalPrice` is Σ price × quantity plus 70 per new and 40 per renewed licence when licences are included |
| Ledger.Decrement | src/components/MultiSectionRegistrationForm.jsx:925 | the minus button lowers a positive count by one and leaves 0 alone |
| SectionPicker.LoadOffers | src/components/MultiSectionRegistrationForm.jsx:50-58 | every catalogue section in order, with the parsed first price, or 180 without pricing |
| SectionPicker.EffectivePrice | src/components/MultiSectionRegistrationForm.jsx:238 | `section.price \|\| 180`: a truthy price is kept, NaN and 0 become 180 |
| SectionPicker.Shown | src/components/MultiSectionRegistrationForm.jsx:441-451 | exactly the unselected sections, narrowed by the search unless the term is blank |
| SectionPicker.ShownKeepsOrder | src/components/MultiSectionRegistrationForm.jsx:441-451 | the dialog keeps catalogue order |
| SectionPicker.CategoryOf | src/components/MultiSectionRegistrationForm.jsx:455 | `category \|\| 'Autre'` is never empty and keeps a non-empty category |
| SectionPicker.FillGroups | src/components/MultiSectionRegistrationForm.jsx:453-462 | the `forEach` leaves one group per category met, each holding exactly that category's sections in order, and lists each category once |
| SectionPicker.AddToGroup | src/components/MultiSectionRegistrationForm.jsx:456-461 | one pass of the `forEach` body keeps the grouping of the sections seen so far, adding the category to the key list only when it is met for the first time |
| SectionPicker.GroupByCategory | src/components/MultiSectionRegistrationForm.jsx:454-466 | a group exists exactly for the categories shown, with that category's sections in order; the key list is sorted and has each group once |
| MultiRegistration.PayloadOf | src/components/MultiSectionRegistrationForm.jsx:346-372 | the message carries the contact, the lines, the file, Σ price × quantity, the licence fee and their sum |
| MultiRegistration.TypedCount | src/components/MultiSectionRegistrationForm.jsx:937-942 | NaN sets 0, a non-negative number sets that number, a negative one leaves the count |
| MultiRegistration.TypedCountOfDecimal | src/components/MultiSectionRegistrationForm.jsx:937-942 | typing a decimal number sets exactly it |
| MultiRegistration.MultiSectionForm.TotalIsSumPlusFees | src/components/MultiSectionRegistrationForm.jsx:36-47 | the form's total is the lines' Σ plus the licence fees |
| MultiRegistration.MultiSectionForm.constructor | src/components/MultiSectionRegistrationForm.jsx:6-58 | the empty form over the loaded catalogue |
| MultiRegistration.MultiSectionForm.Edit | src/components/MultiSectionRegistrationForm.jsx:87-115 | sets one contact field and clears its error, nothing else |
| MultiRegistration.MultiSectionForm.SetIncludeLicense | src/components/MultiSectionRegistrationForm.jsx:87-115 | sets the checkbox and clears its error |
| MultiRegistration.MultiSectionForm.DecrementLicences | src/components/MultiSectionRegistrationForm.jsx:925 | lowers one licence count by one when positive |
| MultiRegistration.MultiSectionForm.IncrementLicences | src/components/MultiSectionRegistrationForm.jsx:947 | raises one licence count by one |
| MultiRegistration.MultiSectionForm.TypeLicences | src/components/MultiSectionRegistrationForm.jsx:937-942 | the typed text sets the count as `TypedCount` says |
| MultiRegistration.MultiSectionForm.SelectFile | src/components/MultiSectionRegistrationForm.jsx:117-192 | a rejected file only records its error; an accepted one is stored with its name and the error blanked; no file changes nothing |
| MultiRegistration.MultiSectionForm.RemoveFile | src/components/MultiSectionRegistrationForm.jsx:194-204 | the file and its name are cleared |
| MultiRegistration.MultiSectionForm.UpdateSectionQuantity | src/components/MultiSectionRegistrationForm.jsx:261-270 | the ledger becomes `UpdateQuantity` of the old one and stays well formed |
| MultiRegistration.MultiSectionForm.AppendSection | src/components/MultiSectionRegistrationForm.jsx:236-240 | a section not yet selected is appended with quantity 1 and its price; the rest of the form is unchanged |
| MultiRegistration.MultiSectionForm.AddSection | src/components/MultiSectionRegistrationForm.jsx:219-252 | the ledger becomes `AddToLedger` with the effective price; the section is highlighted; the sections error is cleared |
| MultiRegistration.MultiSectionForm.RemoveSection | src/components/MultiSectionRegistrationForm.jsx:254-259 | the ledger becomes `RemoveFromLedger` of the old one |
| MultiRegistration.MultiSectionForm.HighlightElapsed | src/components/MultiSectionRegistrationForm.jsx:206-216 | after 1500 ms a truthy highlight is cleared; id 0 is falsy and never starts the timer |
| MultiRegistration.MultiSectionForm.Validate | src/components/MultiSectionRegistrationForm.jsx:273-306 | the errors report every failing rule, and the result is true exactly when the form is valid |
| MultiRegistration.MultiSectionForm.BeginSubmit | src/components/MultiSectionRegistrationForm.jsx:335-380 | sends the payload exactly when the form is valid; otherwise only the errors change |
| MultiRegistration.MultiSectionForm.FinishSubmit | src/components/MultiSectionRegistrationForm.jsx:381-410 | submission ends; success schedules the auto close; failure records the failure |
| MultiRegistration.MultiSectionForm.RequestClose | src/components/MultiSectionRegistrationForm.jsx:310-311 | closing starts the 300 ms animation |
| MultiRegistration.MultiSectionForm.AutoCloseElapsed | src/components/MultiSectionRegistrationForm.jsx:396-398 | 2 s after success the form starts closing |
| MultiRegistration.MultiSectionForm.CloseElapsed | src/components/MultiSectionRegistrationForm.jsx:312-331 | the close is reported to the parent and the form is reset to its initial data |
| MultiRegistration.MultiSectionForm.OpenPicker | src/components/MultiSectionRegistrationForm.jsx:422-427 | opening the picker clears the search |
| MultiRegistration.MultiSectionForm.ClosePicker | src/components/MultiSectionRegistrationForm.jsx:478 | the picker closes |
| MultiRegistration.MultiSectionForm.SetSearch | src/components/MultiSectionRegistrationForm.jsx:514 | the search term is stored |
| MultiRegistration.MultiSectionForm.PickerView | src/components/MultiSectionRegistrationForm.jsx:437-466 | nothing while closed; when open, one sorted key per category of the shown sections and each group that category's sections; this grouped listing is what the modal draws for an empty search term, while any non-empty term, white space only included, draws `Shown` as one flat list (lines 545-548) |
| SingleRegistration.ReduceTotal | src/components/SectionRegistrationForm.jsx:57-59 | the fold is the Σ price × quantity when every price is a number, NaN otherwise |
| SingleRegistration.LinePrice | src/components/SectionRegistrationForm.jsx:17 | without a pricing list the fallback is the price |
| SingleRegistration.Line.constructor | src/components/SectionRegistrationForm.jsx:13-18 | a new line has one person |
| SingleRegistration.SingleSectionForm.Lines | src/components/SectionRegistrationForm.jsx:57-59 | one (price, quantity) pair per line |
| SingleRegistration.SingleSectionForm.TotalMeaning | src/components/SectionRegistrationForm.jsx:57-59 | `totalPrice` is Σ price × quantity, or NaN when some price is NaN |
| SingleRegistration.SingleSectionForm.SelectionFor | src/components/SectionRegistrationForm.jsx:11-19 | no section gives no lines, a section gives one new line with quantity 1 and its price (0 without pricing) |
| SingleRegistration.SingleSectionForm.constructor | src/components/SectionRegistrationForm.jsx:5-19 | the empty form with the initial selection |
| SingleRegistration.SingleSectionForm.SectionChanged | src/components/SectionRegistrationForm.jsx:62-75 | a new section prop replaces the lines with its single line; none leaves them |
| SingleRegistration.SingleSectionForm.Decrement | src/components/SectionRegistrationForm.jsx:442-448 | lowers that line's quantity in place when above 1; other lines unchanged |
| SingleRegistration.SingleSectionForm.Increment | src/components/SectionRegistrationForm.jsx:462-466 | raises that line's quantity in place; other lines unchanged |
| SingleRegistration.SingleSectionForm.RemoveLine | src/components/SectionRegistrationForm.jsx:480-483 | removes the line at that index |
| SingleRegistration.SingleSectionForm.AddFirstSection | src/components/SectionRegistrationForm.jsx:501-512 | appends the catalogue's first section with quantity 1 and its price, 180 without pricing |
| SingleRegistration.SingleSectionForm.Edit | src/components/SectionRegistrationForm.jsx:77-88 | sets one contact field and clears its error |
| SingleRegistration.SingleSectionForm.SelectFile | src/components/SectionRegistrationForm.jsx:90-164 | the attachment rules, as in the multi-section form |
| SingleRegistration.SingleSectionForm.RemoveFile | src/components/SectionRegistrationForm.jsx:166-175 | the file and its name are cleared |
| SingleRegistration.SingleSectionForm.Validate | src/components/SectionRegistrationForm.jsx:177-210 | every failing rule reported; true exactly when valid |
| SingleRegistration.SingleSectionForm.BeginSubmit | src/components/SectionRegistrationForm.jsx:238-280 | sends contact, lines, total and file exactly when valid |
| SingleRegistration.SingleSectionForm.FinishSubmit | src/components/SectionRegistrationForm.jsx:281-300 | submission ends; success schedules the auto close |
| SingleRegistration.SingleSectionForm.RequestClose | src/components/SectionRegistrationForm.jsx:212-213 | closing starts |
| SingleRegistration.SingleSectionForm.AutoCloseElapsed | src/components/SectionRegistrationForm.jsx:291-293 | 2 s after success the form starts closing |
| SingleRegistration.SingleSectionForm.CloseElapsed | src/components/SectionRegistrationForm.jsx:214-236 | the form resets, with the prop's section as its only line |
| SingleRegistration.SingleSectionForm.ReselectFromProp | src/components/SectionRegistrationForm.jsx:225-230 | the lines become the prop's section alone, quantity 1 and its parsed price, or none without a section |
| AdminEditor.DefaultDetail | src/components/admin/AdminSectionEditor.jsx:10-19 | a section without a detail page starts with its name and description as hero texts and one "Présentation" block |
| AdminEditor.Swap | src/components/admin/AdminSectionEditor.jsx:118-142 | exchanges two blocks and keeps the rest |
| AdminEditor.SwapIsPermutation | src/components/admin/AdminSectionEditor.jsx:118-142 | a swap is a permutation |
| AdminEditor.Target | src/components/admin/AdminSectionEditor.jsx:118-125 | moving the first block up or the last block down does nothing; otherwise the neighbour is the target |
| AdminEditor.Moved | src/components/admin/AdminSectionEditor.jsx:118-142 | moving a block permutes the blocks |
| AdminEditor.MoveDownThenUp | src/components/admin/AdminSectionEditor.jsx:118-142 | moving a block down and back up restores the list |
| AdminEditor.BlockKeysDistinct | src/components/admin/AdminSectionEditor.jsx:196-206 | distinct blocks give distinct error keys |
| AdminEditor.KeyNameInjective | src/components/admin/AdminSectionEditor.jsx:188-206 | all error keys have different names: the three fixed keys, and each block's own title and content keys, never collide |
| AdminEditor.ReportEmptyIffValid | src/components/admin/AdminSectionEditor.jsx:182-215 | the complete report is empty exactly when the detail page is valid |
| AdminEditor.Overlay | src/components/admin/AdminSectionEditor.jsx:218-232 | the saved section takes the edited name, flag and detail page and keeps the other fields |
| AdminEditor.SectionEditor.constructor | src/components/admin/AdminSectionEditor.jsx:6-30 | the form starts from the section, or from the default detail page |
| AdminEditor.SectionEditor.SetHasDetailPage | src/components/admin/AdminSectionEditor.jsx:40-64 | sets the checkbox and marks the form edited |
| AdminEditor.SectionEditor.SetHeroTitle | src/components/admin/AdminSectionEditor.jsx:40-64 | sets the hero title |
| AdminEditor.SectionEditor.SetHeroSubtitle | src/components/admin/AdminSectionEditor.jsx:40-64 | sets the hero subtitle |
| AdminEditor.SectionEditor.EditBlock | src/components/admin/AdminSectionEditor.jsx:67-80 | changes one field of one block, in both copies of the list |
| AdminEditor.NewBlock | src/components/admin/AdminSectionEditor.jsx:85-88 | the title is "Nouvelle section " and a number that reads back as n+1; the content is the placeholder paragraph |
| AdminEditor.SectionEditor.StoreBlocks | src/components/admin/AdminSectionEditor.jsx:90-99 | the same list goes to `contentSections` and to the detail page's sections, and isEdited is set |
| AdminEditor.SectionEditor.AddBlock | src/components/admin/AdminSectionEditor.jsx:83-100 | appends "Nouvelle section n+1" |
| AdminEditor.SectionEditor.RemoveBlock | src/components/admin/AdminSectionEditor.jsx:103-115 | removes the block at that index |
| AdminEditor.SectionEditor.MoveBlock | src/components/admin/AdminSectionEditor.jsx:118-142 | the list becomes `Moved` of the old one |
| AdminEditor.SectionEditor.SetTempImageUrl | src/components/admin/AdminSectionEditor.jsx:543 | the URL field is stored |
| AdminEditor.SectionEditor.AddGalleryImage | src/components/admin/AdminSectionEditor.jsx:145-163 | a blank URL changes nothing; otherwise it is appended and the field cleared |
| AdminEditor.SectionEditor.RemoveGalleryImage | src/components/admin/AdminSectionEditor.jsx:166-179 | removes the image at that index |
| AdminEditor.SectionEditor.Validate | src/components/admin/AdminSectionEditor.jsx:182-215 | without a detail page always valid; otherwise a complete report and true exactly when valid |
| AdminEditor.SectionEditor.Submit | src/components/admin/AdminSectionEditor.jsx:218-232 | `onSave` gets the overlaid section exactly when validation passes; with the detail page on, `errors` becomes the complete report, and with it off `errors` is unchanged |
| AdminPanel.AdminSearch | src/components/admin/AdminPanel.jsx:35-47 | a blank query shows everything; otherwise exactly the sections whose name or category contains it, ignoring case |
| AdminPanel.AdminSearchKeepsOrder | src/components/admin/AdminPanel.jsx:35-47 | the search keeps catalogue order |
| AdminPanel.MergedById | src/components/admin/AdminPanel.jsx:86-91 | the section with the saved id is replaced, the others kept in place |
| AdminPanel.Panel.constructor | src/components/admin/AdminPanel.jsx:11-18 | logged out, empty fields, the whole catalogue shown |
| AdminPanel.Panel.AdminFlagEffect | src/components/admin/AdminPanel.jsx:25-32 | once loading ends, the flag is the user's admin role or the session key, i.e. the context's `isAdmin` |
| AdminPanel.Panel.SetSearch | src/components/admin/AdminPanel.jsx:274 | the query is stored and the shown list recomputed |
| AdminPanel.Panel.SetUsername | src/components/admin/AdminPanel.jsx:133-143 | the username is stored |
| AdminPanel.Panel.SetPassword | src/components/admin/AdminPanel.jsx:146-156 | the password is stored |
| AdminPanel.Panel.Login | src/components/admin/AdminPanel.jsx:50-63 | the fixed credentials log in, set the session flag and clear the fields; anything else only shows the error |
| AdminPanel.Panel.Logout | src/components/admin/AdminPanel.jsx:69-77 | drops the session flag, logs the user out and goes home |
| AdminPanel.Panel.StartEditing | src/components/admin/AdminPanel.jsx:328 | the chosen section opens in the editor |
| AdminPanel.Panel.CancelEditing | src/components/admin/AdminPanel.jsx:356 | the editor closes |
| AdminPanel.Panel.SaveSection | src/components/admin/AdminPanel.jsx:80-105 | returns the catalogue merged by id, shows the success banner and closes the editor |
| AdminPanel.Panel.BannerElapsed | src/components/admin/AdminPanel.jsx:101 | 5 s later the banner is cleared |
| UserContext.Merge | src/context/UserContext.jsx:49-53 | `{...user, ...updates}`: updates win, other old keys stay, no other key appears |
| UserContext.MergeIdempotent | src/context/UserContext.jsx:49-53 | applying the same update twice is applying it once |
| UserContext.UserProvider.constructor | src/context/UserContext.jsx:13-14 | no user, loading |
| UserContext.UserProvider.Startup | src/context/UserContext.jsx:17-34 | a stored record is restored, unreadable text is removed, loading ends |
| UserContext.UserProvider.Login | src/context/UserContext.jsx:37-40 | the user is set and stored, and start-up would restore it |
| UserContext.UserProvider.IsAuthenticated | src/context/UserContext.jsx:62 | true iff a user is set; without a user there is no admin role |
| UserContext.UserProvider.IsAdmin | src/context/UserContext.jsx:56 | without a user, exactly the session flag 'true'; a user with role 'admin' is an authenticated admin |
| UserContext.UserProvider.Logout | src/context/UserContext.jsx:43-46 | the user is cleared and removed from storage, so nobody is authenticated |
| UserContext.UserProvider.UpdateProfile | src/context/UserContext.jsx:49-53 | the merged user is set and stored |
| LoginModal.ValidateLogin | src/components/auth/LoginModal.jsx:56-71 | one message per failing rule; passes exactly when the e-mail is present and well formed and the password is filled |
| LoginModal.DisplayName | src/components/auth/LoginModal.jsx:105 | `email.split('@')[0]`: the text before the first '@', or all of it |
| LoginModal.DisplayNameOfAddress | src/components/auth/LoginModal.jsx:105 | the name of "local@domain" is "local" |
| LoginModal.StoredUser | src/components/auth/LoginModal.jsx:103-107 | the stored record has exactly the e-mail, the display name and `isLoggedIn: true` |
| LoginModal.LoginForm.constructor | src/components/auth/LoginModal.jsx:4-11 | the empty form |
| LoginModal.LoginForm.EditText | src/components/auth/LoginModal.jsx:35-46 | sets one field and clears its error |
| LoginModal.LoginForm.SetRememberMe | src/components/auth/LoginModal.jsx:35-46 | sets the checkbox |
| LoginModal.LoginForm.Validate | src/components/auth/LoginModal.jsx:56-71 | a complete report; true exactly when valid |
| LoginModal.LoginForm.RequestClose | src/components/auth/LoginModal.jsx:73-74 | closing starts |
| LoginModal.LoginForm.CloseElapsed | src/components/auth/LoginModal.jsx:75-86 | the form resets and the close is reported |
| LoginModal.LoginForm.Submit | src/components/auth/LoginModal.jsx:88-117 | a valid form stores the user record and closes; an invalid one changes only the errors |
| RegisterModal.ReportKeys | src/components/auth/RegisterModal.jsx:30-65 | a complete report is empty exactly when the account is valid |
| RegisterModal.ValidateIdentity | src/components/auth/RegisterModal.jsx:33-45 | reports exactly the failing name and e-mail rules, with the message the code chooses, and nothing else |
| RegisterModal.ValidateAccount | src/components/auth/RegisterModal.jsx:30-65 | one message per failing rule, chosen as the code chooses it, the password's length counted in UTF-16 code units as `length` counts it; passes exactly when all six rules hold |
| RegisterModal.AstralPasswordLongEnough | src/components/auth/RegisterModal.jsx:49 | three emoji are three characters but six code units, so they meet the six-character minimum |
| RegisterModal.RegisterForm.constructor | src/components/auth/RegisterModal.jsx:5-15 | the empty form |
| RegisterModal.RegisterForm.EditText | src/components/auth/RegisterModal.jsx:17-28 | sets one field and clears its error |
| RegisterModal.RegisterForm.SetAcceptTerms | src/components/auth/RegisterModal.jsx:17-28 | sets the checkbox and clears its error |
| RegisterModal.RegisterForm.BeginSubmit | src/components/auth/RegisterModal.jsx:67-83 | sends the registration notice exactly when the account is valid |
| RegisterModal.RegisterForm.FinishSubmit | src/components/auth/RegisterModal.jsx:84-103 | success shows the confirmation and schedules the switch; failure shows the form error |
| RegisterModal.RegisterForm.SwitchElapsed | src/components/auth/RegisterModal.jsx:93-95 | the switch to the login dialog happens |
| Routes.SectionDetailRoute | src/utils/routes.js:17 | "/sections/" followed by the id, nothing else |
| Routes.HashSectionDetailRoute | src/utils/routes.js:19 | '#' followed by the plain detail route |
| Routes.SectionIdOf | src/utils/routes.js:17 | a recovered id is one whose route is the path |
| Routes.SectionRouteRoundTrip | src/utils/routes.js:17 | every section route gives back its id |
| Routes.HashRouteRoundTrip | src/utils/routes.js:19 | the hash route is '#' and the plain route |
| Routes.NumericSectionRoute | src/utils/routes.js:17 | a numeric id written into a route is read back as the same number |
| Routes.GeneratePath | src/utils/routes.js:33-41 | no params gives the route; otherwise each key's first placeholder is replaced in order |
| Routes.NoParamsUnchanged | src/utils/routes.js:33-41 | an empty params object changes nothing |
| Routes.AbsentKeyUnchanged | src/utils/routes.js:33-41 | a key with no placeholder has no effect |
| Routes.FillPlaceholder | src/utils/routes.js:37 | the first ':key' is replaced by the value |
| Routes.FirstPlaceholderOnly | src/utils/routes.js:37 | a repeated placeholder is filled only once |
| Routes.LaterKeySeesEarlierValue | src/utils/routes.js:36-38 | a value containing a later key's placeholder is itself filled |
| Routes.TemplateGivesDetailRoute | src/utils/routes.js:17 | filling "/sections/:id" gives the section route |
| Events.MonthFilter | src/components/Events.jsx:10-12 | "all" shows every event; otherwise exactly that month's events |
| Events.MonthFilterKeepsOrder | src/components/Events.jsx:10-12 | the filter keeps list order |
| AllEvents.EventYear | src/components/AllEventsModal.jsx:37-41 | the year read back is currentYear−2 for ids divisible by 3, else currentYear−1 for even ids, else currentYear |
| AllEvents.YearOptions | src/components/AllEventsModal.jsx:18-19 | four options: 'all', then three years, none of them 'all' |
| AllEvents.YearOptionsReadBack | src/components/AllEventsModal.jsx:18-19 | the three year options read back as currentYear, currentYear−1 and currentYear−2 |
| AllEvents.Shown | src/components/AllEventsModal.jsx:22-33 | with every selector on 'all' and no search text an event is shown; a year that is not offered shows nothing |
| AllEvents.NumberIsNotAll | src/components/AllEventsModal.jsx:18-19 | no written year is "all" |
| AllEvents.YearOptionsDistinct | src/components/AllEventsModal.jsx:18-19 | the four year options are distinct |
| AllEvents.EventYearIsOffered | src/components/AllEventsModal.jsx:37-41 | every event's year is one of the three offered years |
| AllEvents.Filtered | src/components/AllEventsModal.jsx:22-33 | exactly the events passing the month, section, year and search tests |
| AllEvents.FilteredKeepsOrder | src/components/AllEventsModal.jsx:22-33 | the filter keeps list order |
| AllEvents.NoCriteriaShowsAll | src/components/AllEventsModal.jsx:22-33 | with every selector at "all" and no search, everything is shown |
| AllEvents.SectionOptions | src/components/AllEventsModal.jsx:14 | "all" and then each section name once, in order of first appearance |
| AllEvents.ByMonth | src/components/AllEventsModal.jsx:44-52 | one group per keyed month, holding that month's events |
| AllEvents.ByMonthMeaning | src/components/AllEventsModal.jsx:44-52 | groups in calendar order, never empty, holding exactly that month's events; every month with events has a group |
| AllEvents.GroupByMonth | src/components/AllEventsModal.jsx:44-52 | the `forEach` computes `ByMonth` |
| SectionsGrid.Categories | src/components/SectionsGrid.jsx:12 | "all" and then each category once, in order of first appearance |
| SectionsGrid.GridFilter | src/components/SectionsGrid.jsx:15-17 | "all" shows everything; otherwise exactly that category |
| SectionsGrid.GridFilterKeepsOrder | src/components/SectionsGrid.jsx:15-17 | the filter keeps catalogue order |
| SectionsGrid.NoEmptyCategory | src/components/SectionsGrid.jsx:12-17 | no category button shows an empty grid |
| SectionPage.FindById | src/components/SectionPage.jsx:21 | the first section whose id equals the parsed number, none when there is none |
| SectionPage.RouteFindsSection | src/components/SectionPage.jsx:21 | the route of a section leads back to that section |
| SectionPage.DetailContentOf | src/components/SectionPage.jsx:72-82 | the section's own page, or one built from its fields with the stated fallbacks |
| SectionPage.PageAgreesWithEditor | src/components/SectionPage.jsx:72-82 | for a named, described section the page shows what the editor starts from |
| SectionPage.Page.constructor | src/components/SectionPage.jsx:12-13 | no section yet, loading |
| SectionPage.PageTitle | src/components/SectionPage.jsx:36 | the section name followed by " - CSA Saint-Priest" |
| SectionPage.Page.Load | src/components/SectionPage.jsx:19-37 | an absent section or one without a detail page schedules the redirect; otherwise the section is shown and the title set |
| SectionPage.Page.RedirectElapsed | src/components/SectionPage.jsx:25-30 | the redirect goes to "/not-found" |

## Left out

- `parseFloat` is modelled only on whole-number text. Fractions, exponents and the
  "Infinity" literal are not read. No catalogue price uses them.
- `String.prototype.replace`: the `$` substitution patterns in a replacement string are not modelled.
- JSON serialisation of storage entries is not modelled. A stored record is a `Record`
  value; anything unreadable is `Raw` text.
- Timers are not scheduled. Each pending timer is one boolean, and its callback is a
  method. Two overlapping timers of the same kind are not distinguished.
- The DOM is not modelled: focus, scrolling, the escape key, portals, the drag-over styling
  and the editor's `activeTab`.
- emailService's message formatting and `toFixed` price strings are not modelled. What is
  sent is the structured payload in `outbox`.
- The mail service, the simulated network delays and `console` logging are not modelled.
  The service's outcome is the `resolved` parameter.
- JsText.ToLower: lower-cases ASCII and Latin-1 only. Other Unicode case mappings are not
  modelled.
- StringOrder.Less compares whole characters. JavaScript's `sort()` compares UTF-16 code
  units, and the two differ only outside the Basic Multilingual Plane.
- A section's missing `category` or `description` is the empty string. On a missing
  category, AdminPanel's search would throw.
- Routes.GeneratePath takes the parameters in the given order. JavaScript's
  `Object.keys` puts integer-like keys first.
- AdminEditor.SectionEditor.constructor: the `id || ''` default, which turns id 0 into '',
  is not modelled.
- AdminEditor.SectionEditor.constructor: the effect that reloads the blocks when the
  section prop changes is not modelled.
- The page reload after login is not modelled.
- Storage quota exceptions are not modelled, so LoginModal's catch path is absent.
- SectionPicker.LoadOffers requires a catalogue whose price expression does not throw.
  The code would throw while loading.
- Prices are whole numbers. Negative prices are allowed, as in the code.
- MultiRegistration.MultiSectionForm.constructor takes no initial section, as the code.
- SingleRegistration.SingleSectionForm.AddFirstSection requires a non-empty catalogue. On an empty
  one the code reads `sections[0].pricing` and throws; that throw is not modelled.
- BrowserStorage.Store is only the two storage maps. It proves nothing of its own.
