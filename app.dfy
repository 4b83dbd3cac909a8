/** The application object: the remaining balance and the listed items are
    fields that its handlers update in place, each handler proved to do what
    the corresponding step of the ledger does. */
module Application {
  import opened Text
  import opened Label
  import opened Ledger

  class ProductApp {
    /** The remaining balance, shown on the balance label. */
    var balance: int
    /** The labels of the listed items, in list order. */
    var items: seq<string>
    /** The text of the name field. */
    var nameText: string
    /** The text of the price field. */
    var priceText: string

    function State(): Screen
      reads this
    {
      Screen(balance, items, nameText, priceText)
    }

    /** A fresh application: the initial balance, an empty list, empty fields. */
    constructor ()
      ensures State() == Fresh()
    {
      balance := INITIAL_BALANCE;
      items := [];
      nameText, priceText := "", "";
    }

    /** Lists one more item, labelled with its name and price; nothing else changes. */
    method AddToList(name: string, price: int)
      modifies this
      ensures items == old(items) + [Format(name, price)]
      ensures balance == old(balance) && nameText == old(nameText) && priceText == old(priceText)
    {
      items := items + [Format(name, price)];
    }

    /** The record a save writes; what it holds is stated by
      `Ledger.SaveRecordContents`. */
    method Save() returns (r: Result<Record>)
      ensures r == SaveRecord(State())
    {
      r := SaveRecord(State());
    }

    /** The add button. An exception of the save ends the handler before the
      fields are cleared, reported as `Raised`. */
    method Add() returns (outcome: Outcome)
      modifies this
      ensures (State(), outcome) == AddStep(old(State()))
    {
      ghost var s := State();
      if nameText == "" || !IsDigits(priceText) {
        outcome := Ignored;
      } else {
        var price := DigitsValue(priceText);
        if price > balance {
          nameText, priceText := "", "";
          outcome := OverBudget;
        } else {
          balance := balance - price;
          AddToList(nameText, price);
          ghost var t := s.(balance := s.balance - price, items := s.items + [Format(s.nameText, price)]);
          assert State() == t;
          var r := Save();
          match r
          case Err(e) =>
            outcome := Raised(e);
            assert AddStep(s) == (t, Raised(e));
          case Ok(record) =>
            nameText, priceText := "", "";
            outcome := Saved(record);
            assert AddStep(s) == (t.(nameText := "", priceText := ""), Saved(record));
        }
      }
    }

    /** The delete button of the item at index `i`: the item leaves the list,
      then its price is read from its label and credited, then the data is
      saved. An exception ends the handler where it is raised. */
    method Remove(i: nat) returns (outcome: Outcome)
      requires i < |items|
      modifies this
      ensures (State(), outcome) == RemoveStep(old(State()), i)
    {
      ghost var s := State();
      var text := items[i];
      items := items[..i] + items[i + 1..];
      assert State() == s.(items := RemoveAt(s.items, i));
      match ParseForRemove(text)
      case Err(e) =>
        outcome := Raised(e);
      case Ok(p) =>
        balance := balance + p.price;
        var r := Save();
        outcome := SaveOutcome(r);
    }

    /** Loads the data file, `None` when there is none: the stored balance is
      taken as it is and each stored product is listed in file order. */
    method Load(file: Option<Record>)
      modifies this
      ensures State() == LoadStep(old(State()), file)
    {
      match file
      case None =>
        balance := INITIAL_BALANCE;
      case Some(record) =>
        balance := record.balance;
        var ps := record.products;
        for k := 0 to |ps|
          invariant items == old(items) + Labels(ps[..k])
          invariant balance == record.balance
          invariant nameText == old(nameText) && priceText == old(priceText)
        {
          LabelsExtend(ps, k);
          AddToList(ps[k].name, ps[k].price);
        }
        assert ps[..|ps|] == ps;
    }
  }

  /** The labels of one more product of a list. */
  lemma LabelsExtend(ps: seq<Product>, k: nat)
    requires k < |ps|
    ensures Labels(ps[..k + 1]) == Labels(ps[..k]) + [Format(ps[k].name, ps[k].price)]
  {
    assert ps[..k + 1] == ps[..k] + [ps[k]];
    LabelsAppend(ps[..k], ps[k]);
  }
}
