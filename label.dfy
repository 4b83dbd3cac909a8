/** The display label of a product list item, `"{name} - {price} DH"`, and the
    two ways the application reads a name and a price back out of it: the
    unpacking done when an item is deleted and the indexing done when the list
    is saved. */
module Label {
  import opened Text

  datatype Product = Product(name: string, price: int)

  /** The Python exceptions the parses can raise. */
  datatype Error =
    | UnpackMismatch(pieces: nat)  // ValueError: wrong number of values to unpack
    | NotAnInt(token: string)      // ValueError: invalid literal for int()
    | NoSecondPiece                // IndexError: list index out of range

  datatype Result<+T> = Ok(value: T) | Err(error: Error)

  const SEPARATOR: string := " - "
  const SUFFIX: string := " DH"

  /** The label text given to a new list item. */
  function Format(name: string, price: int): string {
    name + SEPARATOR + IntToString(price) + SUFFIX
  }

  predicate EndsWithDash(name: string) {
    |name| >= 2 && name[|name| - 2] == ' ' && name[|name| - 1] == '-'
  }

  /** The names whose labels split where the format put the separator. */
  predicate SafeName(name: string) {
    !Contains(name, SEPARATOR) && !EndsWithDash(name)
  }

  /** `name, text = label.split(" - ")` followed by `int(text.split(" ")[0])`:
      exactly two pieces are required and the first word of the second one
      must be an integer. */
  function ParseForRemove(text: string): Result<Product> {
    var pieces := Split(text, SEPARATOR);
    if |pieces| != 2 then Err(UnpackMismatch(|pieces|))
    else
      var token := FirstWord(pieces[1]);
      match ParseInt(token)
      case None => Err(NotAnInt(token))
      case Some(n) => Ok(Product(pieces[0], n))
  }

  /** `label.split(" - ")[0]` and `int(label.split(" - ")[1].split(" ")[0])`:
      only the first two pieces are looked at. */
  function ParseForSave(text: string): Result<Product> {
    var pieces := Split(text, SEPARATOR);
    if |pieces| < 2 then Err(NoSecondPiece)
    else
      var token := FirstWord(pieces[1]);
      match ParseInt(token)
      case None => Err(NotAnInt(token))
      case Some(n) => Ok(Product(pieces[0], n))
  }

  /** The separator, character by character. */
  lemma SeparatorAt(s: string, j: int)
    ensures OccursAt(s, SEPARATOR, j) <==>
      0 <= j && j + 3 <= |s| && s[j] == ' ' && s[j + 1] == '-' && s[j + 2] == ' '
  {
    if 0 <= j && j + 3 <= |s| {
      assert s[j..j + 3] == [s[j], s[j + 1], s[j + 2]];
    }
  }

  /** Text without a space is a single word. */
  lemma NoSpaceIsOneWord(s: string)
    requires forall i :: 0 <= i < |s| ==> s[i] != ' '
    ensures Split(s, " ") == [s] && FirstWord(s) == s
  {
    assert Split(s, " ") == [s] by {
      forall j | 0 <= j <= |s| ensures !OccursAt(s, " ", j) {
        if j < |s| {
          assert s[j..j + 1] == [s[j]];
        }
      }
      SplitWithout(s, " ");
    }
  }

  /** Text without a space holds no separator and does not end in `" -"`. */
  lemma NoSpaceHasNoSeparator(s: string)
    requires forall i :: 0 <= i < |s| ==> s[i] != ' '
    ensures !Contains(s, SEPARATOR) && !EndsWithDash(s)
  {
    forall j | 0 <= j <= |s| ensures !OccursAt(s, SEPARATOR, j) {
      SeparatorAt(s, j);
    }
  }

  /** Text without a space is a single word and holds no separator. */
  lemma NoSpace(s: string)
    requires forall i :: 0 <= i < |s| ==> s[i] != ' '
    ensures Split(s, " ") == [s] && FirstWord(s) == s
    ensures !Contains(s, SEPARATOR) && !EndsWithDash(s)
  {
    NoSpaceIsOneWord(s);
    NoSpaceHasNoSeparator(s);
  }

  /** The save's parse raises an IndexError exactly when the label holds no
      separator, and it agrees with the unpacking parse wherever that one
      succeeds. */
  lemma ParseForSaveAgrees(text: string)
    ensures ParseForSave(text) == Err(NoSecondPiece) <==> !Contains(text, SEPARATOR)
    ensures ParseForRemove(text).Ok? ==> ParseForSave(text) == ParseForRemove(text)
  {
    if Contains(text, SEPARATOR) {
      SplitAtOccurrence(text, SEPARATOR);
    }
  }

  /** A safe name is split off at the separator that follows it. */
  lemma SplitAfterSafeName(a: string, rest: string)
    requires SafeName(a)
    ensures Split(a + SEPARATOR + rest, SEPARATOR) == [a] + Split(rest, SEPARATOR)
  {
    var s := a + SEPARATOR + rest;
    var n := |a|;
    assert s[..n] == a;
    assert s[n + 3..] == rest;
    assert s[n] == ' ' && s[n + 1] == '-' && s[n + 2] == ' ';
    SeparatorAt(s, n);
    forall j | 0 <= j < n ensures !OccursAt(s, SEPARATOR, j) {
      SeparatorAt(s, j);
      if j + 3 <= n {
        SeparatorAt(a, j);
        assert s[j] == a[j] && s[j + 1] == a[j + 1] && s[j + 2] == a[j + 2];
      } else if j == n - 2 {
        assert s[j] == a[n - 2] && s[j + 1] == a[n - 1];
      } else {
        assert s[j + 1] == ' ';
      }
    }
    SplitAtFirst(s, SEPARATOR, n);
  }

  /** The text after the separator, `"{price} DH"`, holds no further separator
      and its first word is the price as written. */
  lemma PriceTail(price: int)
    ensures Split(IntToString(price) + SUFFIX, SEPARATOR) == [IntToString(price) + SUFFIX]
    ensures FirstWord(IntToString(price) + SUFFIX) == IntToString(price)
  {
    var p := IntToString(price);
    var t := p + SUFFIX;
    var n := |p|;
    assert t[n] == ' ' && t[n + 1] == 'D' && t[n + 2] == 'H';
    forall j | 0 <= j <= |t| ensures !OccursAt(t, SEPARATOR, j) {
      SeparatorAt(t, j);
      if j < n {
        assert t[j] == p[j];
      }
    }
    SplitWithout(t, SEPARATOR);
    assert t[n..n + 1] == " ";
    forall j | 0 <= j < n ensures !OccursAt(t, " ", j) {
      assert t[j..j + 1] == [p[j]];
    }
    SplitAtFirst(t, " ", n);
    assert t[..n] == p;
  }

  /** For a safe name the label splits into the name and `"{price} DH"`. */
  lemma LabelSplit(name: string, price: int)
    requires SafeName(name)
    ensures Split(Format(name, price), SEPARATOR) == [name, IntToString(price) + SUFFIX]
  {
    var tail := IntToString(price) + SUFFIX;
    calc {
      Split(Format(name, price), SEPARATOR);
      == { assert Format(name, price) == name + SEPARATOR + tail; }
      Split(name + SEPARATOR + tail, SEPARATOR);
      == { SplitAfterSafeName(name, tail); }
      [name] + Split(tail, SEPARATOR);
      == { PriceTail(price); }
      [name] + [tail];
    }
  }

  /** For a safe name both parses give back the name and the price that were
      formatted. */
  lemma LabelRoundTrip(name: string, price: int)
    requires SafeName(name)
    ensures ParseForRemove(Format(name, price)) == Ok(Product(name, price))
    ensures ParseForSave(Format(name, price)) == Ok(Product(name, price))
  {
    LabelSplit(name, price);
    PriceTail(price);
  }

  /** The separators of a label: those inside the name and the one after it. */
  lemma FormatOccurrences(name: string, price: int, j: int)
    requires OccursAt(name, SEPARATOR, j)
    ensures OccursAt(Format(name, price), SEPARATOR, j)
    ensures OccursAt(Format(name, price), SEPARATOR, |name|)
  {
    var s := Format(name, price);
    var n := |name|;
    SeparatorAt(name, j);
    assert s[..n] == name;
    assert s[j] == name[j] && s[j + 1] == name[j + 1] && s[j + 2] == name[j + 2];
    SeparatorAt(s, j);
    assert s[n] == ' ' && s[n + 1] == '-' && s[n + 2] == ' ';
    SeparatorAt(s, n);
  }

  /** A name holding the separator makes the label split into three or more
      pieces, so the unpacking of a delete raises. */
  lemma SeparatorInName(name: string, price: int)
    requires Contains(name, SEPARATOR)
    ensures |Split(Format(name, price), SEPARATOR)| >= 3
    ensures ParseForRemove(Format(name, price)).Err?
    ensures ParseForRemove(Format(name, price)).error.UnpackMismatch?
  {
    var j :| 0 <= j <= |name| && OccursAt(name, SEPARATOR, j);
    FormatOccurrences(name, price, j);
    SplitAtTwoOccurrences(Format(name, price), SEPARATOR, j, |name|);
  }

  /** With a name ending in `" -"` and no separator of its own, the first
      separator of the label text starts two characters before the end of
      the name. */
  lemma FirstSeparatorAfterDash(name: string, tail: string)
    requires !Contains(name, SEPARATOR) && EndsWithDash(name)
    ensures OccursAt(name + SEPARATOR + tail, SEPARATOR, |name| - 2)
    ensures forall j :: 0 <= j < |name| - 2 ==> !OccursAt(name + SEPARATOR + tail, SEPARATOR, j)
  {
    var s := name + SEPARATOR + tail;
    var n := |name|;
    assert s[n - 2] == ' ' && s[n - 1] == '-' && s[n] == ' ' by {
      assert s[n - 2] == name[n - 2] && s[n - 1] == name[n - 1];
    }
    SeparatorAt(s, n - 2);
    forall j | 0 <= j < n - 2 ensures !OccursAt(s, SEPARATOR, j) {
      assert s[j] == name[j] && s[j + 1] == name[j + 1] && s[j + 2] == name[j + 2];
      SeparatorAt(s, j);
      SeparatorAt(name, j);
    }
  }

  /** With a name ending in `" -"` and no separator of its own, the first
      piece of the label is the name without its last two characters, and
      what follows the separator starts with `"- "`. */
  lemma TrailingDashSplit(name: string, tail: string)
    requires !Contains(name, SEPARATOR) && EndsWithDash(name)
    ensures var s := name + SEPARATOR + tail;
      && Split(s, SEPARATOR) == [name[..|name| - 2]] + Split(s[|name| + 1..], SEPARATOR)
      && s[|name| + 1] == '-' && s[|name| + 2] == ' '
  {
    var s := name + SEPARATOR + tail;
    var n := |name|;
    FirstSeparatorAfterDash(name, tail);
    SplitAtFirst(s, SEPARATOR, n - 2);
    assert s[..n - 2] == name[..n - 2];
  }

  /** Text that starts with `"- "` has the lone `"-"` as its first word,
      which `int` rejects. */
  lemma LoneDashWord(t: string)
    requires |t| >= 2 && t[0] == '-' && t[1] == ' '
    ensures FirstWord(t) == "-" && ParseInt(FirstWord(t)) == None
  {
    assert t[1..2] == " ";
    assert t[0..1] != " ";
    SplitAtFirst(t, " ", 1);
    assert t[..1] == "-";
  }

  /** A name ending in `" -"` merges with the separator: the second piece then
      starts with a lone `"-"`, which `int` rejects, or the label splits into
      more than two pieces; either way a delete raises. */
  lemma TrailingDashInName(name: string, price: int)
    requires !Contains(name, SEPARATOR) && EndsWithDash(name)
    ensures ParseForRemove(Format(name, price)).Err?
  {
    var tail := IntToString(price) + SUFFIX;
    var s := name + SEPARATOR + tail;
    assert Format(name, price) == s;
    var rest := s[|name| + 1..];
    TrailingDashSplit(name, tail);
    var pieces := Split(s, SEPARATOR);
    if |pieces| == 2 {
      assert pieces[1..] == Split(rest, SEPARATOR);
      assert pieces[1] == rest by {
        assert Join(Split(rest, SEPARATOR), SEPARATOR) == rest;
      }
      LoneDashWord(rest);
    }
  }

  /** A label parses back through a delete exactly when its name is safe, and
      then it gives back what was formatted. */
  lemma LabelParsesIffSafe(name: string, price: int)
    ensures ParseForRemove(Format(name, price)).Ok? <==> SafeName(name)
    ensures SafeName(name) ==> ParseForRemove(Format(name, price)) == Ok(Product(name, price))
  {
    if SafeName(name) {
      LabelRoundTrip(name, price);
    } else if Contains(name, SEPARATOR) {
      SeparatorInName(name, price);
    } else {
      TrailingDashInName(name, price);
    }
  }

  /** A name without any `'-'` is safe. */
  lemma NoDashIsSafe(name: string)
    requires forall i :: 0 <= i < |name| ==> name[i] != '-'
    ensures SafeName(name)
  {
    forall j | 0 <= j <= |name| ensures !OccursAt(name, SEPARATOR, j) {
      SeparatorAt(name, j);
    }
  }

  /** A name `"{a} - {w}"` made of two safe parts splits into three pieces. */
  lemma SplitOfTwoPartName(a: string, w: string, price: int)
    requires SafeName(a) && SafeName(w)
    ensures Split(Format(a + SEPARATOR + w, price), SEPARATOR) == [a, w, IntToString(price) + SUFFIX]
  {
    calc {
      Split(Format(a + SEPARATOR + w, price), SEPARATOR);
      == { assert Format(a + SEPARATOR + w, price) == a + SEPARATOR + Format(w, price); }
      Split(a + SEPARATOR + Format(w, price), SEPARATOR);
      == { SplitAfterSafeName(a, Format(w, price)); }
      [a] + Split(Format(w, price), SEPARATOR);
      == { LabelSplit(w, price); }
      [a] + [w, IntToString(price) + SUFFIX];
    }
  }

  /** A name `"{a} - {q}"` makes the save record the name `a` with the price
      `q`, while a delete of the same item raises. */
  lemma SaveMisreadsEmbeddedPrice(a: string, q: int, price: int)
    requires SafeName(a)
    ensures ParseForSave(Format(a + SEPARATOR + IntToString(q), price)) == Ok(Product(a, q))
    ensures ParseForRemove(Format(a + SEPARATOR + IntToString(q), price)) == Err(UnpackMismatch(3))
  {
    var qs := IntToString(q);
    var pieces := Split(Format(a + SEPARATOR + qs, price), SEPARATOR);
    assert pieces == [a, qs, IntToString(price) + SUFFIX] && FirstWord(qs) == qs by {
      NoSpace(qs);
      SplitOfTwoPartName(a, qs, price);
    }
  }

  /** A name `"{a} - {w}"` whose word `w` is not an integer makes the save
      raise a ValueError. */
  lemma SaveRaisesOnWordAfterSeparator(a: string, w: string, price: int)
    requires SafeName(a) && ParseInt(w) == None
    requires forall i :: 0 <= i < |w| ==> w[i] != ' '
    ensures ParseForSave(Format(a + SEPARATOR + w, price)) == Err(NotAnInt(w))
  {
    NoSpace(w);
    SplitOfTwoPartName(a, w, price);
  }
}
