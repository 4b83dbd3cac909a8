/** The purchase ledger of the application as values: what each button press,
    deletion, save and load does to the balance, the listed labels and the two
    input fields, and the properties those steps keep. */
module Ledger {
  import opened Text
  import opened Label

  /** The balance of a fresh application, and the fallback of a load that
      finds no file. */
  const INITIAL_BALANCE: int := 2000

  /** The content of the data file: `{"balance": ..., "products": [{"name", "price"}, ...]}`. */
  datatype Record = Record(balance: int, products: seq<Product>)

  /** The state the operations touch: the remaining balance, the labels of
      the listed items in list order, and the text of the name and price fields. */
  datatype Screen = Screen(balance: int, items: seq<string>, nameText: string, priceText: string)

  /** How an add or a delete ended: ignored invalid input, a price over the
      balance, a completed save of the given record, or an exception. */
  datatype Outcome = Ignored | OverBudget | Saved(record: Record) | Raised(error: Error)

  function Fresh(): Screen {
    Screen(INITIAL_BALANCE, [], "", "")
  }

  /** The labels of the items a load adds, one per product, in file order. */
  function Labels(ps: seq<Product>): (r: seq<string>)
    ensures |r| == |ps|
    ensures forall k :: 0 <= k < |ps| ==> r[k] == Format(ps[k].name, ps[k].price)
    decreases |ps|
  {
    if |ps| == 0 then [] else [Format(ps[0].name, ps[0].price)] + Labels(ps[1..])
  }

  lemma {:induction false} LabelsAppend(ps: seq<Product>, p: Product)
    ensures Labels(ps + [p]) == Labels(ps) + [Format(p.name, p.price)]
    decreases |ps|
  {
    if |ps| > 0 {
      assert (ps + [p])[1..] == ps[1..] + [p];
      LabelsAppend(ps[1..], p);
    }
  }

  /** The `products` list comprehension of a save: one entry per item, read
      from its label; the first label that does not parse raises. */
  function SaveProducts(items: seq<string>): (r: Result<seq<Product>>)
    ensures r.Ok? ==> |r.value| == |items|
    decreases |items|
  {
    if |items| == 0 then Ok([])
    else
      match ParseForSave(items[0])
      case Err(e) => Err(e)
      case Ok(p) =>
        match SaveProducts(items[1..])
        case Err(e) => Err(e)
        case Ok(ps) => Ok([p] + ps)
  }

  /** The comprehension succeeds exactly when every label parses as a save
      reads it. */
  lemma {:induction false} SaveProductsOkIff(items: seq<string>)
    ensures SaveProducts(items).Ok? <==> forall k :: 0 <= k < |items| ==> ParseForSave(items[k]).Ok?
    decreases |items|
  {
    if |items| > 0 {
      var tail := items[1..];
      SaveProductsOkIff(tail);
      assert forall k :: 0 < k < |items| ==> tail[k - 1] == items[k];
    }
  }

  /** A successful comprehension holds each item's own product, in list order. */
  lemma {:induction false} SaveProductsValues(items: seq<string>)
    requires SaveProducts(items).Ok?
    ensures forall k :: 0 <= k < |items| ==> ParseForSave(items[k]) == Ok(SaveProducts(items).value[k])
    decreases |items|
  {
    if |items| > 0 {
      var tail := items[1..];
      var p := ParseForSave(items[0]).value;
      var ps := SaveProducts(tail).value;
      assert SaveProducts(items).value == [p] + ps;
      SaveProductsValues(tail);
      forall k | 0 < k < |items|
        ensures ParseForSave(items[k]) == Ok(SaveProducts(items).value[k])
      {
        assert tail[k - 1] == items[k];
      }
    }
  }

  /** A failing comprehension raises the error of one of the labels. */
  lemma {:induction false} SaveProductsError(items: seq<string>)
    requires SaveProducts(items).Err?
    ensures exists k :: 0 <= k < |items| && ParseForSave(items[k]) == Err(SaveProducts(items).error)
    decreases |items|
  {
    var e := SaveProducts(items).error;
    if ParseForSave(items[0]).Err? {
      assert ParseForSave(items[0]) == Err(e);
    } else {
      var tail := items[1..];
      SaveProductsError(tail);
      var j :| 0 <= j < |tail| && ParseForSave(tail[j]) == Err(e);
      assert ParseForSave(items[j + 1]) == Err(e);
    }
  }

  /** The record `save_data` writes. */
  function SaveRecord(s: Screen): Result<Record> {
    match SaveProducts(s.items)
    case Ok(ps) => Ok(Record(s.balance, ps))
    case Err(e) => Err(e)
  }

  /** A save succeeds exactly when every label parses as a save reads it;
      the record keeps the balance and one product per item, and for labels
      that a delete parses it holds the products read back; a failing save
      raises the error of one of the labels. */
  lemma SaveRecordContents(s: Screen)
    ensures SaveRecord(s).Ok? <==> forall k :: 0 <= k < |s.items| ==> ParseForSave(s.items[k]).Ok?
    ensures SaveRecord(s).Ok? ==>
      SaveRecord(s).value.balance == s.balance && |SaveRecord(s).value.products| == |s.items|
    ensures SaveRecord(s).Err? ==>
      exists k :: 0 <= k < |s.items| && ParseForSave(s.items[k]) == Err(SaveRecord(s).error)
    ensures AllParse(s.items) ==> SaveRecord(s) == Ok(Record(s.balance, Products(s.items)))
  {
    SaveProductsOkIff(s.items);
    if SaveProducts(s.items).Err? {
      SaveProductsError(s.items);
    }
    if AllParse(s.items) {
      SaveOfParsedItems(s);
    }
  }

  /** Pressing the add button with the current field texts. */
  function AddStep(s: Screen): (Screen, Outcome) {
    if s.nameText == "" || !IsDigits(s.priceText) then (s, Ignored)
    else
      var price := DigitsValue(s.priceText);
      if price > s.balance then (s.(nameText := "", priceText := ""), OverBudget)
      else
        var t := s.(balance := s.balance - price, items := s.items + [Format(s.nameText, price)]);
        var r := SaveRecord(t);
        (if r.Ok? then t.(nameText := "", priceText := "") else t, SaveOutcome(r))
  }

  /** The list without its element at index `i`, the others in their order. */
  function RemoveAt<T>(xs: seq<T>, i: nat): (r: seq<T>)
    requires i < |xs|
    ensures |r| == |xs| - 1
    ensures forall k :: 0 <= k < i ==> r[k] == xs[k]
    ensures forall k :: i <= k < |r| ==> r[k] == xs[k + 1]
  {
    xs[..i] + xs[i + 1..]
  }

  /** Pressing the delete button of the item at index `i`: the item leaves the
      list first, then its price is read from its label and credited, then
      the data is saved. */
  function RemoveStep(s: Screen, i: nat): (Screen, Outcome)
    requires i < |s.items|
  {
    var t := s.(items := RemoveAt(s.items, i));
    match ParseForRemove(s.items[i])
    case Err(e) => (t, Raised(e))
    case Ok(p) =>
      var u := t.(balance := t.balance + p.price);
      (u, SaveOutcome(SaveRecord(u)))
  }

  /** How a handler ends once it has called the save: normally with the
      record written, or with the exception the save raised. */
  function SaveOutcome(r: Result<Record>): (o: Outcome)
    ensures o.Saved? <==> r.Ok?
  {
    match r
    case Ok(record) => Saved(record)
    case Err(e) => Raised(e)
  }

  /** Loading the data file, `None` when it does not exist: the stored balance
      is taken as it is and one item is added per stored product. */
  function LoadStep(s: Screen, file: Option<Record>): Screen {
    match file
    case None => s.(balance := INITIAL_BALANCE)
    case Some(r) => s.(balance := r.balance, items := s.items + Labels(r.products))
  }

  // ---------------------------------------------------------------------
  // Prices read back from the labels

  predicate AllParse(items: seq<string>) {
    forall k :: 0 <= k < |items| ==> ParseForRemove(items[k]).Ok?
  }

  /** The price a delete would credit for an item. */
  function PriceOf(item: string): int
    requires ParseForRemove(item).Ok?
  {
    ParseForRemove(item).value.price
  }

  /** The products read back from the labels. */
  function Products(items: seq<string>): (ps: seq<Product>)
    requires AllParse(items)
    ensures |ps| == |items|
    decreases |items|
  {
    if |items| == 0 then [] else [ParseForRemove(items[0]).value] + Products(items[1..])
  }

  /** The product at an index is the one its label parses to. */
  lemma {:induction false} ProductAt(items: seq<string>, k: nat)
    requires AllParse(items) && k < |items|
    ensures Products(items)[k] == ParseForRemove(items[k]).value
    decreases k
  {
    var ps := Products(items);
    assert ps == [ParseForRemove(items[0]).value] + Products(items[1..]);
    if k > 0 {
      assert items[k] == items[1..][k - 1];
      assert ps[k] == Products(items[1..])[k - 1];
      ProductAt(items[1..], k - 1);
    }
  }

  /** Each product is the one its label parses to. */
  lemma ProductsAt(items: seq<string>)
    requires AllParse(items)
    ensures forall k :: 0 <= k < |items| ==> Products(items)[k] == ParseForRemove(items[k]).value
  {
    forall k | 0 <= k < |items| ensures Products(items)[k] == ParseForRemove(items[k]).value {
      ProductAt(items, k);
    }
  }

  /** The sum of the prices of some products. */
  function Total(ps: seq<Product>): int
    decreases |ps|
  {
    if |ps| == 0 then 0 else ps[0].price + Total(ps[1..])
  }

  /** The sum of the prices read back from the labels. */
  function Spent(items: seq<string>): int
    requires AllParse(items)
  {
    Total(Products(items))
  }

  lemma {:induction false} TotalAppend(ps: seq<Product>, p: Product)
    ensures Total(ps + [p]) == Total(ps) + p.price
    decreases |ps|
  {
    if |ps| > 0 {
      assert (ps + [p])[1..] == ps[1..] + [p];
      TotalAppend(ps[1..], p);
    }
  }

  lemma {:induction false} TotalRemoveAt(ps: seq<Product>, i: nat)
    requires i < |ps|
    ensures Total(ps) == Total(RemoveAt(ps, i)) + ps[i].price
    decreases |ps|
  {
    if i == 0 {
      assert RemoveAt(ps, i) == ps[1..];
    } else {
      assert RemoveAt(ps, i) == [ps[0]] + RemoveAt(ps[1..], i - 1);
      TotalRemoveAt(ps[1..], i - 1);
    }
  }

  lemma SpentAppend(items: seq<string>, x: string)
    requires AllParse(items) && ParseForRemove(x).Ok?
    ensures AllParse(items + [x])
    ensures Products(items + [x]) == Products(items) + [ParseForRemove(x).value]
    ensures Spent(items + [x]) == Spent(items) + PriceOf(x)
  {
    ProductsAppend(items, x);
    TotalAppend(Products(items), ParseForRemove(x).value);
  }

  /** The product of a label appended to a list comes last. */
  lemma {:induction false} ProductsAppend(items: seq<string>, x: string)
    requires AllParse(items) && ParseForRemove(x).Ok?
    ensures AllParse(items + [x])
    ensures Products(items + [x]) == Products(items) + [ParseForRemove(x).value]
    decreases |items|
  {
    var ys := items + [x];
    AppendParses(items, x);
    if |items| > 0 {
      assert ys[0] == items[0] && ys[1..] == items[1..] + [x];
      ProductsAppend(items[1..], x);
    } else {
      assert ys == [x];
    }
  }

  lemma AppendParses(items: seq<string>, x: string)
    requires AllParse(items) && ParseForRemove(x).Ok?
    ensures AllParse(items + [x])
  {
    var ys := items + [x];
    assert forall k :: 0 <= k < |items| ==> ys[k] == items[k];
    assert ys[|items|] == x;
  }

  lemma SpentRemoveAt(items: seq<string>, i: nat)
    requires AllParse(items) && i < |items|
    ensures AllParse(RemoveAt(items, i))
    ensures Products(RemoveAt(items, i)) == RemoveAt(Products(items), i)
    ensures Spent(items) == Spent(RemoveAt(items, i)) + PriceOf(items[i])
  {
    RemoveAtParses(items, i);
    RemoveAtProducts(items, i);
    TotalRemoveAt(Products(items), i);
    ProductAt(items, i);
  }

  /** Removing an item keeps every remaining label parseable. */
  lemma RemoveAtParses(items: seq<string>, i: nat)
    requires AllParse(items) && i < |items|
    ensures AllParse(RemoveAt(items, i))
  {
    var r := RemoveAt(items, i);
    forall k | 0 <= k < |r| ensures ParseForRemove(r[k]).Ok? {
      if k < i {
        assert r[k] == items[k];
      } else {
        assert r[k] == items[k + 1];
      }
    }
  }

  /** The products of the remaining labels are the remaining products. */
  lemma RemoveAtProducts(items: seq<string>, i: nat)
    requires AllParse(items) && i < |items| && AllParse(RemoveAt(items, i))
    ensures Products(RemoveAt(items, i)) == RemoveAt(Products(items), i)
  {
    var qs, rs := Products(RemoveAt(items, i)), RemoveAt(Products(items), i);
    forall k | 0 <= k < |qs| ensures qs[k] == rs[k] {
      ProductAfterRemoval(items, i, k);
    }
    assert |qs| == |rs|;
  }

  lemma ProductAfterRemoval(items: seq<string>, i: nat, k: nat)
    requires AllParse(items) && i < |items| && AllParse(RemoveAt(items, i)) && k < |items| - 1
    ensures Products(RemoveAt(items, i))[k] == RemoveAt(Products(items), i)[k]
  {
    ProductAt(RemoveAt(items, i), k);
    if k < i {
      ProductBeforeRemoved(items, i, k);
    } else {
      ProductAfterRemoved(items, i, k);
    }
  }

  lemma ProductBeforeRemoved(items: seq<string>, i: nat, k: nat)
    requires AllParse(items) && k < i < |items|
    ensures RemoveAt(Products(items), i)[k] == ParseForRemove(RemoveAt(items, i)[k]).value
  {
    assert RemoveAt(items, i)[k] == items[k];
    ProductAt(items, k);
  }

  lemma ProductAfterRemoved(items: seq<string>, i: nat, k: nat)
    requires AllParse(items) && i <= k < |items| - 1
    ensures RemoveAt(Products(items), i)[k] == ParseForRemove(RemoveAt(items, i)[k]).value
  {
    assert RemoveAt(items, i)[k] == items[k + 1];
    ProductAt(items, k + 1);
  }

  /** Labels that parse back through a delete also parse through a save, to
      the same product, so the save succeeds. */
  lemma SaveOfParsedItems(s: Screen)
    requires AllParse(s.items)
    ensures SaveRecord(s) == Ok(Record(s.balance, Products(s.items)))
  {
    forall k | 0 <= k < |s.items| ensures ParseForSave(s.items[k]) == ParseForRemove(s.items[k]) {
      ParseForSaveAgrees(s.items[k]);
    }
    SaveProductsOkIff(s.items);
    SaveProductsValues(s.items);
    ProductsAt(s.items);
    assert SaveProducts(s.items).value == Products(s.items);
  }


  // ---------------------------------------------------------------------
  // Add

  /** Invalid input, an empty name or a price text that is not all digits, is
      ignored: nothing changes, not even the fields. */
  lemma AddIgnoresInvalidInput(s: Screen)
    ensures AddStep(s).1 == Ignored <==> (s.nameText == "" || !IsDigits(s.priceText))
    ensures AddStep(s).1 == Ignored ==> AddStep(s).0 == s
  {
  }

  /** A valid price over the balance clears both fields and changes nothing else. */
  lemma AddOverBudget(s: Screen)
    ensures AddStep(s).1 == OverBudget <==>
      (s.nameText != "" && IsDigits(s.priceText) && DigitsValue(s.priceText) > s.balance)
    ensures AddStep(s).1 == OverBudget ==> AddStep(s).0 == s.(nameText := "", priceText := "")
  {
  }

  /** An accepted add debits exactly the price, leaves a non-negative balance
      and appends one item whose label parses back to the name and the price
      (for a safe name); with a list that parses, the save then succeeds and
      the fields are cleared. */
  lemma AddAccepted(s: Screen)
    requires s.nameText != "" && IsDigits(s.priceText)
    requires DigitsValue(s.priceText) <= s.balance
    ensures var (t, o) := AddStep(s);
      && t.balance == s.balance - DigitsValue(s.priceText) >= 0
      && t.items == s.items + [Format(s.nameText, DigitsValue(s.priceText))]
      && (SafeName(s.nameText) ==>
           ParseForRemove(t.items[|s.items|]) == Ok(Product(s.nameText, DigitsValue(s.priceText))))
      && (SafeName(s.nameText) && AllParse(s.items) ==>
           o == Saved(Record(t.balance, Products(t.items))) && t.nameText == "" && t.priceText == "")
  {
    var price := DigitsValue(s.priceText);
    var t := AddStep(s).0;
    if SafeName(s.nameText) {
      LabelRoundTrip(s.nameText, price);
      if AllParse(s.items) {
        var u := s.(balance := s.balance - price, items := s.items + [Format(s.nameText, price)]);
        SpentAppend(s.items, Format(s.nameText, price));
        SaveOfParsedItems(u);
      }
    }
  }

  /** The boundary of the balance check: a price equal to the balance is
      accepted and leaves exactly 0, one unit more is refused. */
  lemma AddBoundary(s: Screen)
    requires s.nameText != "" && IsDigits(s.priceText)
    ensures DigitsValue(s.priceText) == s.balance ==> AddStep(s).0.balance == 0
    ensures DigitsValue(s.priceText) == s.balance + 1 ==>
      AddStep(s) == (s.(nameText := "", priceText := ""), OverBudget)
  {
  }

  /** An add keeps the balance plus the prices read back from the labels, and
      does not raise, as long as the name is safe and the list parses. */
  lemma AddKeepsTotal(s: Screen)
    requires AllParse(s.items) && SafeName(s.nameText)
    ensures AllParse(AddStep(s).0.items)
    ensures AddStep(s).0.balance + Spent(AddStep(s).0.items) == s.balance + Spent(s.items)
    ensures !AddStep(s).1.Raised?
  {
    if s.nameText != "" && IsDigits(s.priceText) && DigitsValue(s.priceText) <= s.balance {
      var price := DigitsValue(s.priceText);
      LabelRoundTrip(s.nameText, price);
      SpentAppend(s.items, Format(s.nameText, price));
      AddAccepted(s);
    }
  }

  /** An accepted add whose new label does not parse through a save raises
      after the price was debited and the item listed; the fields stay filled. */
  lemma AddRaisesOnUnsavableLabel(s: Screen)
    requires s.nameText != "" && IsDigits(s.priceText) && DigitsValue(s.priceText) <= s.balance
    requires SaveProducts(s.items).Ok?
    requires ParseForSave(Format(s.nameText, DigitsValue(s.priceText))).Err?
    ensures AddStep(s) ==
      (s.(balance := s.balance - DigitsValue(s.priceText),
          items := s.items + [Format(s.nameText, DigitsValue(s.priceText))]),
       Raised(ParseForSave(Format(s.nameText, DigitsValue(s.priceText))).error))
  {
    var price := DigitsValue(s.priceText);
    var x := Format(s.nameText, price);
    var t := s.(balance := s.balance - price, items := s.items + [x]);
    assert SaveRecord(t) == Err(ParseForSave(x).error) by {
      SaveFailsAtFirstBadItem(s.items, x);
    }
  }

  /** A name `"{a} - {w}"` whose word `w` is no integer passes validation, but
      the save that follows raises `NotAnInt(w)` after the price was debited. */
  lemma AddRaisesAfterDebit(s: Screen, a: string, w: string)
    requires s.nameText == a + SEPARATOR + w
    requires SafeName(a) && ParseInt(w) == None && forall i :: 0 <= i < |w| ==> w[i] != ' '
    requires IsDigits(s.priceText) && DigitsValue(s.priceText) <= s.balance
    requires SaveProducts(s.items).Ok?
    ensures AddStep(s).0.balance == s.balance - DigitsValue(s.priceText)
    ensures AddStep(s).0.items == s.items + [Format(s.nameText, DigitsValue(s.priceText))]
    ensures AddStep(s).0.nameText == s.nameText
    ensures AddStep(s).1 == Raised(NotAnInt(w))
  {
    SaveRaisesOnWordAfterSeparator(a, w, DigitsValue(s.priceText));
    AddRaisesOnUnsavableLabel(s);
  }

  /** Appending a label that fails the save to a list that saves makes the
      save raise that label's error. */
  lemma {:induction false} SaveFailsAtFirstBadItem(items: seq<string>, x: string)
    requires SaveProducts(items).Ok?
    requires ParseForSave(x).Err?
    ensures SaveProducts(items + [x]) == Err(ParseForSave(x).error)
    decreases |items|
  {
    var ys := items + [x];
    if |items| > 0 {
      assert ys[0] == items[0];
      assert ys[1..] == items[1..] + [x];
      SaveFailsAtFirstBadItem(items[1..], x);
    }
  }

  // ---------------------------------------------------------------------
  // Delete

  /** A delete of an item whose label parses removes exactly that item, keeps
      the order of the others and credits its price, whatever the other
      labels hold; the save decides only the outcome. */
  lemma RemoveCredits(s: Screen, i: nat)
    requires i < |s.items| && ParseForRemove(s.items[i]).Ok?
    ensures RemoveStep(s, i).0.items == RemoveAt(s.items, i)
    ensures RemoveStep(s, i).0.balance == s.balance + PriceOf(s.items[i])
    ensures RemoveStep(s, i).0.nameText == s.nameText && RemoveStep(s, i).0.priceText == s.priceText
    ensures RemoveStep(s, i).1.Saved? <==> SaveRecord(RemoveStep(s, i).0).Ok?
  {
  }

  /** When every label parses, a delete also keeps the balance plus the
      prices of the list, and its save succeeds. */
  lemma RemoveKeepsTotal(s: Screen, i: nat)
    requires AllParse(s.items) && i < |s.items|
    ensures RemoveStep(s, i).0.items == RemoveAt(s.items, i)
    ensures RemoveStep(s, i).0.balance == s.balance + PriceOf(s.items[i])
    ensures AllParse(RemoveStep(s, i).0.items)
    ensures RemoveStep(s, i).0.balance + Spent(RemoveStep(s, i).0.items) == s.balance + Spent(s.items)
    ensures RemoveStep(s, i).1 == Saved(Record(RemoveStep(s, i).0.balance, Products(RemoveStep(s, i).0.items)))
  {
    SpentRemoveAt(s.items, i);
    var u := s.(items := RemoveAt(s.items, i), balance := s.balance + PriceOf(s.items[i]));
    SaveOfParsedItems(u);
  }

  /** Deleting an item whose name holds the separator drops it from the list
      but raises before its price is credited. */
  lemma RemoveLosesCredit(s: Screen, i: nat, name: string, price: int)
    requires i < |s.items| && s.items[i] == Format(name, price)
    requires Contains(name, SEPARATOR)
    ensures RemoveStep(s, i).0 == s.(items := RemoveAt(s.items, i))
    ensures RemoveStep(s, i).1.Raised? && RemoveStep(s, i).1.error.UnpackMismatch?
  {
    SeparatorInName(name, price);
  }

  /** An accepted add of a safe name followed by the delete of the new item
      gives back the balance and the list from before, whatever the list
      holds; the fields end cleared exactly when the add's save succeeded. */
  lemma AddThenRemove(s: Screen)
    requires s.nameText != "" && IsDigits(s.priceText) && DigitsValue(s.priceText) <= s.balance
    requires SafeName(s.nameText)
    ensures |AddStep(s).0.items| == |s.items| + 1
    ensures RemoveStep(AddStep(s).0, |s.items|).0 ==
      if AddStep(s).1.Saved? then s.(nameText := "", priceText := "") else s
  {
    var price := DigitsValue(s.priceText);
    var n := |s.items|;
    var base := s.(balance := s.balance - price, items := s.items + [Format(s.nameText, price)]);
    var t := AddStep(s).0;
    assert t == if AddStep(s).1.Saved? then base.(nameText := "", priceText := "") else base;
    assert ParseForRemove(t.items[n]) == Ok(Product(s.nameText, price)) by {
      LabelRoundTrip(s.nameText, price);
    }
    assert RemoveAt(t.items, n) == s.items;
  }

  // ---------------------------------------------------------------------
  // Save and load

  /** A label is canonical when it is what the format makes of its own
      parse, with a safe name. */
  predicate Canonical(item: string) {
    && ParseForRemove(item).Ok?
    && SafeName(ParseForRemove(item).value.name)
    && item == Format(ParseForRemove(item).value.name, ParseForRemove(item).value.price)
  }

  predicate SafeProducts(ps: seq<Product>) {
    forall k :: 0 <= k < |ps| ==> SafeName(ps[k].name)
  }

  /** A missing file restores the initial balance and leaves the list as it is. */
  lemma LoadMissingFile(s: Screen)
    ensures LoadStep(s, None).balance == INITIAL_BALANCE
    ensures LoadStep(s, None).items == s.items
  {
  }

  /** A load takes the stored balance as it is, whatever the products sum to,
      and adds one item per stored product, each of which reads back as that
      product when its name is safe. */
  lemma LoadRestores(s: Screen, r: Record)
    ensures LoadStep(s, Some(r)).balance == r.balance
    ensures |LoadStep(s, Some(r)).items| == |s.items| + |r.products|
    ensures LoadStep(s, Some(r)).items[..|s.items|] == s.items
    ensures SafeProducts(r.products) ==>
      forall k :: 0 <= k < |r.products| ==>
        ParseForRemove(LoadStep(s, Some(r)).items[|s.items| + k]) == Ok(r.products[k])
  {
    var t := LoadStep(s, Some(r));
    assert t.items[..|s.items|] == s.items;
    if SafeProducts(r.products) {
      forall k | 0 <= k < |r.products|
        ensures ParseForRemove(t.items[|s.items| + k]) == Ok(r.products[k])
      {
        assert t.items[|s.items| + k] == Format(r.products[k].name, r.products[k].price);
        LabelRoundTrip(r.products[k].name, r.products[k].price);
      }
    }
  }

  /** Loading a record into a fresh application and saving gives back the
      same record. */
  lemma LoadThenSave(r: Record)
    requires SafeProducts(r.products)
    ensures SaveRecord(LoadStep(Fresh(), Some(r))) == Ok(r)
  {
    var t := LoadStep(Fresh(), Some(r));
    assert t.items == Labels(r.products);
    forall k | 0 <= k < |t.items| ensures ParseForRemove(t.items[k]) == Ok(r.products[k]) {
      LabelRoundTrip(r.products[k].name, r.products[k].price);
    }
    SaveOfParsedItems(t);
    ProductsAt(t.items);
    assert Products(t.items) == r.products;
  }

  /** Saving a list of canonical labels and loading the record into a fresh
      application gives back the same balance and the same list. */
  lemma SaveThenLoad(s: Screen)
    requires forall k :: 0 <= k < |s.items| ==> Canonical(s.items[k])
    ensures SaveRecord(s).Ok?
    ensures LoadStep(Fresh(), Some(SaveRecord(s).value)).balance == s.balance
    ensures LoadStep(Fresh(), Some(SaveRecord(s).value)).items == s.items
  {
    SaveOfParsedItems(s);
    var ps := Products(s.items);
    ProductsAt(s.items);
    assert Labels(ps) == s.items;
  }

  // ---------------------------------------------------------------------
  // Runs from a cold start

  /** What the user does: type into the two fields, press add, or press the
      delete button of the item at an index. */
  datatype Event = Typed(name: string, price: string) | AddPressed | DeletePressed(index: nat)

  /** One event; a delete button exists only for a listed item, so a delete
      at an index past the list does nothing. */
  function Apply(s: Screen, e: Event): Screen {
    match e
    case Typed(n, p) => s.(nameText := n, priceText := p)
    case AddPressed => AddStep(s).0
    case DeletePressed(i) => if i < |s.items| then RemoveStep(s, i).0 else s
  }

  /** The event makes a handler raise. Nothing in the handlers catches the
      exception, so the application ends there. */
  predicate Raises(s: Screen, e: Event) {
    match e
    case Typed(_, _) => false
    case AddPressed => AddStep(s).1.Raised?
    case DeletePressed(i) => i < |s.items| && RemoveStep(s, i).1.Raised?
  }

  /** The events one after another, up to and including the first one that
      raises; the result is the state the last handler left behind. */
  function Run(s: Screen, events: seq<Event>): Screen
    decreases |events|
  {
    if |events| == 0 then s
    else if Raises(s, events[0]) then Apply(s, events[0])
    else Run(Apply(s, events[0]), events[1..])
  }

  /** The bookkeeping a cold start establishes: every label canonical with a
      non-negative price, a non-negative balance, and the balance plus the
      listed prices equal to the initial balance. */
  predicate Balanced(s: Screen) {
    && (forall k :: 0 <= k < |s.items| ==> Canonical(s.items[k]) && PriceOf(s.items[k]) >= 0)
    && s.balance >= 0
    && s.balance + Spent(s.items) == INITIAL_BALANCE
    && SafeName(s.nameText)
  }

  /** Appending a canonical label with a non-negative price to a list of
      such labels keeps the list so. */
  lemma AppendCanonical(items: seq<string>, x: string)
    requires forall k :: 0 <= k < |items| ==> Canonical(items[k]) && PriceOf(items[k]) >= 0
    requires Canonical(x) && PriceOf(x) >= 0
    ensures forall k :: 0 <= k < |items + [x]| ==>
      Canonical((items + [x])[k]) && PriceOf((items + [x])[k]) >= 0
  {
    forall k | 0 <= k < |items + [x]|
      ensures Canonical((items + [x])[k]) && PriceOf((items + [x])[k]) >= 0
    {
      if k < |items| {
        assert (items + [x])[k] == items[k];
      } else {
        assert (items + [x])[k] == x;
      }
    }
  }

  /** Removing a label from a list of canonical labels with non-negative
      prices keeps the list so. */
  lemma RemoveCanonical(items: seq<string>, i: nat)
    requires i < |items|
    requires forall k :: 0 <= k < |items| ==> Canonical(items[k]) && PriceOf(items[k]) >= 0
    ensures forall k :: 0 <= k < |RemoveAt(items, i)| ==>
      Canonical(RemoveAt(items, i)[k]) && PriceOf(RemoveAt(items, i)[k]) >= 0
  {
    var r := RemoveAt(items, i);
    forall k | 0 <= k < |r| ensures Canonical(r[k]) && PriceOf(r[k]) >= 0 {
      if k < i {
        assert r[k] == items[k];
      } else {
        assert r[k] == items[k + 1];
      }
    }
  }

  /** The label of an accepted add with a safe name is canonical. */
  lemma NewLabelCanonical(name: string, price: int)
    requires SafeName(name) && price >= 0
    ensures Canonical(Format(name, price)) && PriceOf(Format(name, price)) == price
  {
    LabelRoundTrip(name, price);
  }

  lemma AddKeepsBalanced(s: Screen)
    requires Balanced(s)
    ensures Balanced(AddStep(s).0)
  {
    var t := AddStep(s).0;
    AddKeepsTotal(s);
    if s.nameText != "" && IsDigits(s.priceText) && DigitsValue(s.priceText) <= s.balance {
      var price := DigitsValue(s.priceText);
      AddAccepted(s);
      assert t.items == s.items + [Format(s.nameText, price)];
      assert t.nameText == "";
      NewLabelCanonical(s.nameText, price);
      AppendCanonical(s.items, Format(s.nameText, price));
    } else {
      assert t.items == s.items;
      assert t.nameText == "" || t.nameText == s.nameText;
    }
  }

  lemma DeleteKeepsBalanced(s: Screen, i: nat)
    requires Balanced(s) && i < |s.items|
    ensures Balanced(RemoveStep(s, i).0)
  {
    RemoveKeepsTotal(s, i);
    RemoveCanonical(s.items, i);
  }

  lemma ApplyKeepsBalanced(s: Screen, e: Event)
    requires Balanced(s)
    requires e.Typed? ==> SafeName(e.name)
    ensures Balanced(Apply(s, e))
  {
    match e
    case Typed(n, p) =>
    case AddPressed => AddKeepsBalanced(s);
    case DeletePressed(i) =>
      if i < |s.items| {
        DeleteKeepsBalanced(s, i);
      }
  }

  /** From the cold-start bookkeeping no event raises: a run never ends early. */
  lemma BalancedNeverRaises(s: Screen, e: Event)
    requires Balanced(s)
    ensures !Raises(s, e)
  {
    match e
    case Typed(_, _) =>
    case AddPressed => AddKeepsTotal(s);
    case DeletePressed(i) =>
      if i < |s.items| {
        RemoveKeepsTotal(s, i);
      }
  }

  lemma {:induction false} RunKeepsBalanced(s: Screen, events: seq<Event>)
    requires Balanced(s)
    requires forall k :: 0 <= k < |events| && events[k].Typed? ==> SafeName(events[k].name)
    ensures Balanced(Run(s, events))
    decreases |events|
  {
    if |events| > 0 {
      ApplyKeepsBalanced(s, events[0]);
      RunKeepsBalanced(Apply(s, events[0]), events[1..]);
    }
  }

  /** From a cold start (no data file) and any events whose typed names are
      safe, the balance stays non-negative, the balance plus the listed prices
      stays 2000, and the list saves and loads back unchanged. */
  lemma ColdStartStaysBalanced(events: seq<Event>)
    requires forall k :: 0 <= k < |events| && events[k].Typed? ==> SafeName(events[k].name)
    ensures var s := Run(LoadStep(Fresh(), None), events);
      && s.balance >= 0
      && AllParse(s.items)
      && s.balance + Spent(s.items) == INITIAL_BALANCE
      && SaveRecord(s).Ok?
      && LoadStep(Fresh(), Some(SaveRecord(s).value)).items == s.items
  {
    RunKeepsBalanced(LoadStep(Fresh(), None), events);
    SaveThenLoad(Run(LoadStep(Fresh(), None), events));
  }

  // ---------------------------------------------------------------------
  // A session

  /** The screen after adding a pen for 50 to a fresh application. */
  function AfterPen(): Screen {
    Screen(1950, [Format("Pen", 50)], "", "")
  }

  /** Adding a pen for 50 to a fresh application leaves 1950 and saves the
      record `{1950, [Pen, 50]}`. */
  lemma AddPenToFresh()
    ensures AddStep(Fresh().(nameText := "Pen", priceText := "50")) ==
      (AfterPen(), Saved(Record(1950, [Product("Pen", 50)])))
  {
    var s := Fresh().(nameText := "Pen", priceText := "50");
    assert IsDigits("50") && DigitsValue("50") == 50 by {
      assert "50"[..1] == "5";
    }
    assert SafeName("Pen") by {
      NoDashIsSafe("Pen");
    }
    var r := AddStep(s);
    assert r.0 == AfterPen() && r.1 == Saved(Record(1950, Products(r.0.items))) by {
      AddAccepted(s);
      assert r.0.items == [] + [Format("Pen", 50)];
    }
    assert Products(r.0.items) == [Product("Pen", 50)] by {
      LabelRoundTrip("Pen", 50);
    }
  }

  /** A desk for 3000 is then refused and only clears the fields. */
  lemma DeskOverBudget()
    ensures AddStep(AfterPen().(nameText := "Desk", priceText := "3000")) == (AfterPen(), OverBudget)
  {
    assert "3000"[..3] == "300" && "300"[..2] == "30" && "30"[..1] == "3";
    assert IsDigits("3000") && DigitsValue("3000") == 3000;
  }

  /** Deleting the pen gives back 2000 and an empty list, and saves that. */
  lemma DeletePen()
    ensures RemoveStep(AfterPen(), 0) == (Fresh(), Saved(Record(2000, [])))
  {
    NoDashIsSafe("Pen");
    LabelRoundTrip("Pen", 50);
    assert RemoveAt(AfterPen().items, 0) == [];
    assert SaveRecord(Fresh()) == Ok(Record(2000, []));
  }
}
