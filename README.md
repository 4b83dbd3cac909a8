# Purchase ledger of the product list application

The application keeps a remaining balance, starting at 2000 DH, and a list of
purchased products. The add button takes a name and a price from two text
fields. It checks them, debits the price, lists the item and saves. Each
listed item has a delete button that removes the item, credits the price
back and saves. A save writes the balance and the products to a data file,
and at start-up a load restores them.

The application keeps no product records of its own. Every item exists only
as its display label `"{name} - {price} DH"`, and every price credited on a
delete or written by a save is parsed back out of that label text. The model
keeps this habit, and most of what it proves is about when that parse gives
back what was put in.

Files:

- `text.dfy` (module `Text`) models the Python string built-ins the code
  relies on: `str.isdigit`, `int(...)`, `str(...)` of an integer,
  `str.split` and `s.split(" ")[0]`.
- `label.dfy` (module `Label`) holds the label format, its two parses, and
  the exact condition under which a label parses back.
- `ledger.dfy` (module `Ledger`) holds the handlers as pure step functions
  over a `Screen`, which is the balance, the list of labels and the two
  field texts. It also holds the data-file `Record`, and the lemmas about
  single steps, save/load and any run of events from a cold start.
- `app.dfy` (module `Application`) holds the class `ProductApp`. Its fields
  are the balance, the labels and the two field texts. The handlers `Add`,
  `Remove`, `Save` and `Load` update those fields in place. Each handler's
  contract states its final state and outcome through the matching step
  function, and the lemmas about the step functions are proved separately.

Main notions:

- A *safe name* contains no `" - "` and does not end in `" -"`. A label
  parses back to its own name and price exactly when its name is safe.
- An exception inside a handler ends the handler at the point where it is
  raised. The model reports it as the outcome `Raised(error)`, with the state
  as it was at that moment. Nothing in the handlers catches it, so a run of
  events (`Ledger.Run`) ends with the event that raised.

## Model

| member | source | states |
|---|---|---|
| Text.IsDigits | main.py:91 | `price.isdigit()`: the text is non-empty and every character is an ASCII digit (the add's validity check, used by `Ledger.AddIgnoresInvalidInput`) |
| Text.DigitsValue | main.py:94 | the value of a digit string is never negative |
| Text.ParseInt | main.py:131 | `int` of a string of digits is its decimal value; `int` of the empty string raises |
| Text.IntToString | main.py:60 | `str(price)` is non-empty, holds no space, is all digits for a non-negative price, and `int` reads it back as the same price |
| Text.NatToString | main.py:60 | `str(n)` of a natural number is all digits and denotes `n` |
| Text.Find | main.py:130 | the index found holds the separator, no earlier index does, and nothing is found exactly when the text has no separator |
| Text.Split | main.py:130 | `split` gives at least one piece, and joining the pieces with the separator gives the text back |
| Text.SplitPiecesLackSeparator | main.py:130 | no piece of a split contains the separator |
| Text.FirstWord | main.py:131 | `split(" ")[0]` contains no space |
| Text.SplitAtFirst | main.py:130 | a split cuts at the first occurrence of the separator and goes on with the rest |
| Text.SplitAtTwoOccurrences | main.py:130 | two non-overlapping separators give at least three pieces |
| Label.Format | main.py:60 | the label of a new item: the name, `" - "`, `str(price)` and `" DH"`; what it reads back as is stated by `Label.LabelRoundTrip` and `Label.LabelParsesIffSafe` |
| Label.ParseForRemove | main.py:130-131 | the delete parse: exactly two pieces around `" - "`, else the unpacking error; then `int` of the first word of the second piece, else its `ValueError`; its behaviour on labels is stated by `Label.LabelParsesIffSafe`, `Label.SeparatorInName` and `Label.TrailingDashInName` |
| Label.ParseForSave | main.py:144-145 | the save parse: piece 0 as the name and `int` of the first word of piece 1, an `IndexError` without a separator; related to the delete parse by `Label.ParseForSaveAgrees` and `Label.SaveMisreadsEmbeddedPrice` |
| Label.LabelSplit | main.py:60 | the label of a safe name splits into exactly the name and `"{price} DH"` |
| Label.LabelRoundTrip | main.py:60 | for a safe name, both the delete parse and the save parse of the label give back the same name and price |
| Label.LabelParsesIffSafe | main.py:130-131 | the delete parse of a label succeeds if and only if the name is safe, and then it gives back the name and price |
| Label.NoDashIsSafe | main.py:60 | every name without a `'-'` is safe |
| Label.SeparatorInName | main.py:130 | a name containing `" - "` makes the label split into three or more pieces, and the delete parse raises the unpacking error |
| Label.TrailingDashInName | main.py:130-131 | a name ending in `" -"` makes the delete parse raise even though the name holds no separator |
| Label.ParseForSaveAgrees | main.py:144-145 | the save parse raises `IndexError` exactly when the label has no separator, and it agrees with the delete parse whenever the delete parse succeeds |
| Label.SaveMisreadsEmbeddedPrice | main.py:144-145 | a name `"a - 7"` is saved as the product `a` priced 7, while the delete parse of the same label raises |
| Label.SaveRaisesOnWordAfterSeparator | main.py:145 | a name `"a - w"` whose word `w` is no integer makes the save parse raise `int(w)`'s error |
| Ledger.Labels | main.py:160-161 | a load lists one label per stored product, in file order, each made by the label format |
| Ledger.LabelsAppend | main.py:160-161 | listing one more product appends exactly its label |
| Ledger.SaveProducts | main.py:142-148 | a successful save holds one product per listed item |
| Ledger.SaveProductsOkIff | main.py:142-148 | the save succeeds if and only if every label passes the save parse |
| Ledger.SaveProductsValues | main.py:143-146 | each saved product is the save parse of the item at the same position |
| Ledger.SaveProductsError | main.py:145 | a failing save raises the error of one of the labels |
| Ledger.SaveRecord | main.py:140-149 | the record a save builds: the current balance and the comprehension over the items; its contents are stated by `Ledger.SaveRecordContents` |
| Ledger.SaveRecordContents | main.py:140-149 | the record keeps the current balance and one entry per item, and it equals the products read back when every label parses |
| Ledger.SaveOfParsedItems | main.py:140-149 | when every label passes the delete parse, the save succeeds with the balance and the products read back from the labels |
| Ledger.SaveFailsAtFirstBadItem | main.py:142-148 | appending a label that the save parse rejects to any list that saves makes the save raise that label's error |
| Ledger.SaveOutcome | main.py:110 | a handler ends normally exactly when its save succeeds |
| Ledger.RemoveAt | main.py:127 | removing an item drops exactly that position and keeps the others in their order |
| Ledger.Products | main.py:130-131 | the products read back hold one entry per label, each the label's delete parse |
| Ledger.AddStep | main.py:85-114 | the add handler on the state: validation, the balance check, the debit, the listing, the save and the clearing of the fields, in that order; its behaviour is stated by the `Ledger.Add*` lemmas |
| Ledger.AddIgnoresInvalidInput | main.py:91-92 | an add is ignored if and only if the name is empty or the price text is not all digits; an ignored add changes nothing, not even the fields |
| Ledger.AddOverBudget | main.py:97-100 | an add is refused as over budget if and only if a valid price exceeds the balance; the refusal clears both fields and changes nothing else |
| Ledger.AddBoundary | main.py:97-103 | a price equal to the balance is accepted and leaves exactly 0, and one unit more is refused |
| Ledger.AddAccepted | main.py:103-114 | an accepted add debits exactly the price and leaves a non-negative balance. It appends one item with the formatted label, which parses back to the name and price for a safe name. With a safe name and a parsing list, the save succeeds and the fields are cleared |
| Ledger.AddKeepsTotal | main.py:103-107 | with a safe name and a list that parses, an add keeps balance plus listed prices and never raises |
| Ledger.AddRaisesOnUnsavableLabel | main.py:103-110 | on any list that saves, when the new label fails the save parse, the add raises after the debit and the listing, and the fields keep their text |
| Ledger.AddRaisesAfterDebit | main.py:103-110 | on any list that saves, a name `"a - w"` with a non-integer word `w` passes validation; the balance is debited and the item listed, then the save raises `int(w)`'s error |
| Ledger.RemoveStep | main.py:125-136 | the delete handler on the state: the item leaves the list, its label is parsed and its price credited, then the data is saved; its behaviour is stated by `Ledger.RemoveCredits`, `Ledger.RemoveKeepsTotal` and `Ledger.RemoveLosesCredit` |
| Ledger.RemoveCredits | main.py:127-132 | a delete of an item whose label parses removes exactly that item, keeps the order of the others and credits its price, whatever the other labels hold; the fields are kept and the outcome is `Saved` exactly when the save succeeds |
| Ledger.RemoveKeepsTotal | main.py:125-136 | when every label parses, a delete removes exactly the item and credits its price, keeps balance plus listed prices, and its save succeeds |
| Ledger.RemoveLosesCredit | main.py:127-130 | deleting an item whose name contains `" - "` removes it from the list but raises before any credit |
| Ledger.AddThenRemove | main.py:85-136 | on any list, an accepted add of a safe name followed by the delete of the new item restores the balance and the list; the fields end cleared exactly when the add's save succeeded, and keep their text otherwise |
| Ledger.LoadStep | main.py:153-163 | the load handler on the state: without a file the balance becomes 2000; with one, the stored balance and one listed item per product; its behaviour is stated by `Ledger.LoadMissingFile` and `Ledger.LoadRestores` |
| Ledger.LoadMissingFile | main.py:162-163 | a load without a data file sets the balance to 2000 and leaves the list as it is |
| Ledger.LoadRestores | main.py:158-161 | a load takes the stored balance as it is, whatever the products sum to. It appends one item per stored product after the existing ones, and each reads back as its product when the name is safe |
| Ledger.LoadThenSave | main.py:158-161 | loading a record with safe names into a fresh application and saving writes back the same record |
| Ledger.SaveThenLoad | main.py:140-149 | saving a list of canonical labels and loading the record into a fresh application restores the same balance and list |
| Ledger.Apply | main.py:85-136 | one event: typing into the fields, pressing add (`Ledger.AddStep`) or pressing the delete button of a listed item (`Ledger.RemoveStep`) |
| Ledger.Run | main.py:85-136 | the events one after another, ending early with the first event whose handler raises, since no handler catches its exception |
| Ledger.BalancedNeverRaises | main.py:85-136 | from the cold-start bookkeeping no add and no delete raises, so a run never ends early |
| Ledger.AddKeepsBalanced | main.py:85-114 | an add keeps the cold-start bookkeeping: canonical labels with non-negative prices, a non-negative balance, and balance plus prices equal to 2000 |
| Ledger.DeleteKeepsBalanced | main.py:125-136 | a delete keeps the same bookkeeping |
| Ledger.ApplyKeepsBalanced | main.py:85-136 | typing a safe name, pressing add or pressing a delete button keeps the bookkeeping |
| Ledger.RunKeepsBalanced | main.py:85-136 | any run of such events keeps the bookkeeping |
| Ledger.ColdStartStaysBalanced | main.py:72-163 | from a start without a data file, after any events with safe names: the balance is non-negative, balance plus listed prices is 2000, and the list saves and loads back unchanged |
| Ledger.AddPenToFresh | main.py:85-114 | adding a pen for 50 to a fresh application leaves 1950 and saves the record with balance 1950 and the product Pen, 50 |
| Ledger.DeskOverBudget | main.py:97-100 | a desk for 3000 is then refused and only clears the fields |
| Ledger.DeletePen | main.py:125-136 | deleting the pen restores 2000 and an empty list, and saves that |
| Application.ProductApp.constructor | main.py:72 | a new application has balance 2000, no items and empty fields |
| Application.ProductApp.AddToList | main.py:116-123 | lists one more item with the formatted label and changes nothing else |
| Application.ProductApp.Save | main.py:138-151 | returns the record of the current state and changes nothing |
| Application.ProductApp.Add | main.py:85-114 | updates the fields in place to exactly the state and outcome of an add step (see the Ledger.Add* lemmas) |
| Application.ProductApp.Remove | main.py:125-136 | updates the fields in place to exactly the state and outcome of a delete step (see Ledger.RemoveCredits, Ledger.RemoveKeepsTotal and Ledger.RemoveLosesCredit) |
| Application.ProductApp.Load | main.py:153-163 | with a loop that lists one product at a time, updates the fields to exactly the state of a load step (see Ledger.LoadRestores and Ledger.LoadMissingFile) |
| Application.LabelsExtend | main.py:160-161 | the labels of one more stored product extend the listed labels by that product's label |

## Left out

- The Kivy/KivyMD interface is not modelled: the layout, theming, list widgets, delete-button widgets and the balance label text. The fields of `ProductApp` stand for the widget texts, and the balance label is not represented.
- `Clock.schedule_once` (main.py:81) is not modelled. A load is a call to `Load` with the content of the data file.
- File I/O and JSON are not modelled. `Load` receives the file as `Option<Record>`, with `None` for a missing file. `Save` returns the record it would write. `load_data` catches only `FileNotFoundError` (main.py:162), so malformed JSON or a missing key raises out of the load; the model does not represent such files.
- `Ledger.Record` holds integer prices only. In the source a stored price of any other JSON value is passed to the label f-string (main.py:161, main.py:60), which formats it without raising: a price `1.5` is listed as `"n - 1.5 DH"`, and only a later delete or save raises, at `int("1.5")` (main.py:131, main.py:145); a string `"12"` loads and then behaves like 12. The model does not represent these prices.
- Both the source and the model append the loaded items to the items already listed. A load does not replace them.
- The order of `product_list.children`, which a save iterates, is not modelled. The model saves in list order, so the round-trip lemmas hold for that order only.
- A delete button exists only for a listed widget. The model therefore identifies the item by its index, and `Remove` requires a valid index. A delete past the end of the list is a no-op in `Ledger.Apply`.
- `str.isdigit` and `int` are modelled on ASCII digits only. `int` in the model is an optional sign followed by digits. It does not model the surrounding whitespace or the underscores that Python's `int` accepts. The tokens it receives come from `split(" ")[0]` and never hold a space.
- The `input_filter` of the price field is not modelled. Any text can reach the add handler.
- `add_product` does not trim the name (main.py:91): a name of spaces passes validation, and so does the model's.
- An add or a delete whose save raises keeps the changes it had already made (main.py:103-110, main.py:127-136); the model's `Raised` outcomes carry exactly that state.
- A load takes the stored balance as it is and does not recompute it from the products (main.py:158), and so does `Ledger.LoadStep`.
- An exception that escapes a handler is not caught anywhere in main.py, and with Kivy's default handling it ends the application, so the in-memory state after a `Raised` outcome is lost and the data file keeps the last successful save. The model does not represent the end of the process: `Ledger.Run` simply stops at the event that raised.
