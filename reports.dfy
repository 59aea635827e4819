/**
 * What the bot reports for each order record: the reply line sent back to the
 * chat, with its warning markers, and the seven-cell row written to the sheet.
 */
module Reports {
  import opened Wrappers
  import opened Text
  import opened Pattern
  import opened Records

  const LoggedPrefix: string := "\U{2705} Logged: "
  const FieldSeparator: string := " / "
  const CustomerWarning: string := " \U{26A0}\U{FE0F} უცნობი მომხმარებელი"
  const ProductWarning: string := " \U{26A0}\U{FE0F} უცნობი პროდუქტი"

  // ---------------------------------------------------------------------------
  // Warning markers

  /** The markers appended to the reply: the customer's first, then the product's. */
  function Warnings(customerUnknown: bool, productUnknown: bool): string
  {
    (if customerUnknown then CustomerWarning else "") + (if productUnknown then ProductWarning else "")
  }

  /**
   * The `warn` string the handler accumulates before replying (it is then never
   * used: the reply recomputes the same markers inline).
   */
  method AccumulateWarnings(o: Order) returns (warn: string)
    ensures warn == Warnings(o.customerUnknown, o.productUnknown)
  {
    warn := "";
    if o.customerUnknown {
      warn := warn + CustomerWarning;
    }
    if o.productUnknown {
      warn := warn + ProductWarning;
    }
  }

  // ---------------------------------------------------------------------------
  // The reply line

  /** The reply before its markers: the raw names, the amount and the unit. */
  function Summary(o: Order): string
  {
    LoggedPrefix + o.rawCustomer + FieldSeparator + o.rawProduct + FieldSeparator
      + o.amountValue + FieldSeparator + o.amountUnit
  }

  /** The reply sent for a logged record. */
  function StatusLine(o: Order): string
  {
    Summary(o) + Warnings(o.customerUnknown, o.productUnknown)
  }

  /** The reply reports the raw names, never the canonical ones that replaced them. */
  lemma StatusIgnoresCanonical(o: Order, customer: string, product: string)
    ensures StatusLine(o.(customer := customer, product := product)) == StatusLine(o)
  {
  }

  predicate EndsWith(s: string, suffix: string)
  {
    |suffix| <= |s| && s[|s| - |suffix|..] == suffix
  }

  /** Reads the two flags back from the end of a reply line. */
  function ReadWarnings(line: string): (flags: (bool, bool))
    ensures flags.1 <==> EndsWith(line, ProductWarning)
  {
    var productUnknown := EndsWith(line, ProductWarning);
    var rest := if productUnknown then line[..|line| - |ProductWarning|] else line;
    (EndsWith(rest, CustomerWarning), productUnknown)
  }

  function LastTwo(s: string): string
    requires |s| >= 2
  {
    s[|s| - 2..]
  }

  lemma EndsWithAppend(s: string, w: string)
    ensures EndsWith(s + w, w) && (s + w)[..|s + w| - |w|] == s
  {
    assert (s + w)[|s + w| - |w|..] == w;
  }

  lemma EndsWithLastTwo(s: string, w: string)
    requires |w| >= 2 && EndsWith(s, w)
    ensures LastTwo(s) == LastTwo(w)
  {
    assert s[|s| - |w|..][|w| - 2..] == s[|s| - 2..];
  }

  /** The last two characters of a summary: those of the unit, led by a space or a slash. */
  lemma SummaryLastTwo(o: Order)
    requires o.amountUnit == "" || o.amountUnit in Units
    ensures |Summary(o)| >= 2
    ensures LastTwo(Summary(o)) != "ლი" && LastTwo(Summary(o)) != "ტი"
  {
    var head := LoggedPrefix + o.rawCustomer + FieldSeparator + o.rawProduct + FieldSeparator
      + o.amountValue + FieldSeparator;
    var s := Summary(o);
    assert s == head + o.amountUnit;
    if o.amountUnit == "" {
      assert LastTwo(s) == "/ ";
    } else if |o.amountUnit| == 1 {
      assert s[|s| - 2] == ' ' && s[|s| - 1] == o.amountUnit[0];
    } else {
      assert LastTwo(s) == LastTwo(o.amountUnit);
    }
  }

  /** The two markers end differently. */
  lemma WarningEnds()
    ensures LastTwo(CustomerWarning) == "ლი" && LastTwo(ProductWarning) == "ტი"
  {
  }

  /**
   * Markers appended to a text that does not end like either of them can be read
   * back from the result.
   */
  lemma ReadWarningsAfter(base: string, customerUnknown: bool, productUnknown: bool)
    requires |base| >= 2
    requires LastTwo(base) != LastTwo(CustomerWarning) && LastTwo(base) != LastTwo(ProductWarning)
    ensures ReadWarnings(base + Warnings(customerUnknown, productUnknown)) == (customerUnknown, productUnknown)
  {
    WarningEnds();
    var withCustomer := base + (if customerUnknown then CustomerWarning else "");
    var line := withCustomer + (if productUnknown then ProductWarning else "");
    assert base + Warnings(customerUnknown, productUnknown) == line;
    if customerUnknown {
      EndsWithAppend(base, CustomerWarning);
    } else {
      assert withCustomer == base;
      if EndsWith(base, CustomerWarning) {
        EndsWithLastTwo(base, CustomerWarning);
      }
    }
    if productUnknown {
      EndsWithAppend(withCustomer, ProductWarning);
    } else {
      assert line == withCustomer;
      if EndsWith(withCustomer, ProductWarning) {
        EndsWithLastTwo(withCustomer, ProductWarning);
        if customerUnknown {
          EndsWithLastTwo(withCustomer, CustomerWarning);
        }
      }
    }
  }

  /**
   * The markers of a reply tell its flags back, whenever the unit is one the
   * order pattern produces (one of the four units, or none).
   */
  lemma StatusLineWarnings(o: Order)
    requires o.amountUnit == "" || o.amountUnit in Units
    ensures ReadWarnings(StatusLine(o)) == (o.customerUnknown, o.productUnknown)
  {
    SummaryLastTwo(o);
    WarningEnds();
    ReadWarningsAfter(Summary(o), o.customerUnknown, o.productUnknown);
  }

  /** The degraded record's reply carries both markers. */
  lemma DegradedStatus(text: string)
    ensures ReadWarnings(StatusLine(Degraded(text))) == (true, true)
  {
    StatusLineWarnings(Degraded(text));
  }

  // ---------------------------------------------------------------------------
  // The sheet row

  /**
   * The row `update_google_sheet` writes: the timestamp, the canonical names, the
   * amount, the unit, the comment and the author, each stripped.
   */
  function Row(o: Order, author: string, timestamp: string): (row: seq<string>)
    ensures |row| == 7
    ensures forall i :: 0 <= i < |row| ==> Strip(row[i]) == row[i]
  {
    StripIdempotent(timestamp);
    StripIdempotent(o.customer);
    StripIdempotent(o.product);
    StripIdempotent(o.amountValue);
    StripIdempotent(o.amountUnit);
    StripIdempotent(o.comment);
    StripIdempotent(author);
    [Strip(timestamp), Strip(o.customer), Strip(o.product), Strip(o.amountValue),
     Strip(o.amountUnit), Strip(o.comment), Strip(author)]
  }

  /**
   * A record whose fields, author and timestamp have no surrounding whitespace is
   * written to the sheet unchanged, cell by cell, in the order of the columns.
   */
  lemma RowOfStripped(o: Order, author: string, timestamp: string)
    requires Strip(timestamp) == timestamp && Strip(author) == author
    requires Strip(o.customer) == o.customer && Strip(o.product) == o.product
    requires Strip(o.amountValue) == o.amountValue && Strip(o.amountUnit) == o.amountUnit
    requires Strip(o.comment) == o.comment
    ensures Row(o, author, timestamp)
         == [timestamp, o.customer, o.product, o.amountValue, o.amountUnit, o.comment, author]
  {
  }

  /** A string holding no whitespace at all is its own stripped form. */
  lemma StripNoSpace(s: string)
    requires forall i :: 0 <= i < |s| ==> !IsSpace(s[i])
    ensures Strip(s) == s
  {
    StripFixed(s);
  }

  /**
   * On the pattern path the sheet gets the amount and the unit exactly as the
   * pattern read them: digits and units hold no whitespace for stripping to remove.
   */
  lemma RowKeepsAmount(d: Derivation, customerMatch: Option<string>, productMatch: Option<string>,
                       author: string, timestamp: string)
    requires AllDigits(d.number) && (d.unit == "" || d.unit in Units)
    ensures var row := Row(FromPattern(d, customerMatch, productMatch), author, timestamp);
      row[3] == d.number && row[4] == d.unit
  {
    StripNoSpace(d.number);
    StripNoSpace(d.unit);
  }
}
