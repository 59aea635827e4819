/**
 * `extract_data_from_line` and `call_gpt_fallback`: the order record built from a
 * clause, either from the groups of the order pattern with catalog names put in
 * place of the raw ones, or by the fallback, whose external reply is a parameter.
 */
module Records {
  import opened Wrappers
  import opened Text
  import opened Pattern
  import opened Matcher
  import Segmenter

  /** The known customers and products, one entry per non-blank line of their files. */
  datatype Catalog = Catalog(customers: seq<string>, products: seq<string>)

  /** What loading a catalog file gives: stripped entries, none of them empty. */
  predicate Loaded(entries: seq<string>)
  {
    forall i :: 0 <= i < |entries| ==> entries[i] != "" && Strip(entries[i]) == entries[i]
  }

  /**
   * `load_list_from_file`: every line of the file, stripped, the blank ones
   * dropped; the same filter the segmenter applies to the pieces of a message.
   */
  function LoadList(fileLines: seq<string>): seq<string>
  {
    Segmenter.Kept(fileLines)
  }

  /** A catalog read from its file holds stripped, non-empty entries only. */
  lemma LoadingIsLoaded(fileLines: seq<string>)
    ensures Loaded(LoadList(fileLines))
  {
    var entries := LoadList(fileLines);
    forall i | 0 <= i < |entries|
      ensures entries[i] != "" && Strip(entries[i]) == entries[i]
    {
      Segmenter.KeptFrom(fileLines, i);
      var p :| 0 <= p < |fileLines| && entries[i] == Strip(fileLines[p]);
      StripIdempotent(fileLines[p]);
    }
  }

  /** The order record; its "type" key is "order" on every path and is left implicit. */
  datatype Order = Order(
    customer: string, product: string, amountValue: string, amountUnit: string,
    comment: string, rawCustomer: string, rawProduct: string,
    customerUnknown: bool, productUnknown: bool)

  /** The fields the external model is asked for, once its reply has been parsed. */
  datatype Fields = Fields(
    customer: string, product: string, amountValue: string, amountUnit: string, comment: string)

  /** The external call and the parse of its reply: the parsed fields, or a failure. */
  datatype Reply = Parsed(fields: Fields) | Failed

  // ---------------------------------------------------------------------------
  // The fallback

  /** The record of the fallback's exception handler, for the (stripped) clause `text`. */
  function Degraded(text: string): (o: Order)
    ensures o.customer == o.rawCustomer == text
    ensures o.product == o.rawProduct == o.amountUnit == o.comment == ""
    ensures o.amountValue == "?" && o.customerUnknown && o.productUnknown
  {
    Order(text, "", "?", "", "", text, "", true, true)
  }

  /**
   * The fallback as it is written: the reply is decoded with `json.loads`, but
   * `json` is never imported, so the decoding raises a `NameError` whatever the
   * reply, the handler catches it, and the result is always the degraded record.
   */
  function FallbackAsWritten(text: string, catalog: Catalog, reply: Reply): (o: Order)
    ensures o == Degraded(text)
  {
    Degraded(text)
  }

  /**
   * The program as written behaves as the intended fallback does when every
   * external reply fails.
   */
  lemma FallbackAsWrittenIsFailure(text: string, catalog: Catalog, reply: Reply)
    ensures FallbackAsWritten(text, catalog, reply) == Fallback(text, catalog, Failed)
  {
  }

  /**
   * The fallback as intended: a parsed reply gives its own fields, the raw names
   * equal to the returned ones, each flagged unknown when it is not in its catalog;
   * a failure gives the degraded record.
   */
  function Fallback(text: string, catalog: Catalog, reply: Reply): (o: Order)
    ensures reply.Failed? ==> o == Degraded(text)
    ensures reply.Parsed? ==>
      && o.rawCustomer == o.customer == reply.fields.customer
      && o.rawProduct == o.product == reply.fields.product
      && (o.customerUnknown <==> o.customer !in catalog.customers)
      && (o.productUnknown <==> o.product !in catalog.products)
      && o.amountValue == reply.fields.amountValue && o.amountUnit == reply.fields.amountUnit
      && o.comment == reply.fields.comment
  {
    match reply
    case Failed => Degraded(text)
    case Parsed(f) =>
      Order(f.customer, f.product, f.amountValue, f.amountUnit, f.comment, f.customer, f.product,
            f.customer !in catalog.customers, f.product !in catalog.products)
  }

  /**
   * On a parsed reply naming a known customer, the fallback as written still
   * reports the customer unknown, with the clause as its name.
   */
  lemma FallbackAsWrittenLosesReply(text: string, catalog: Catalog, f: Fields)
    requires f.customer in catalog.customers && f.customer != text
    ensures FallbackAsWritten(text, catalog, Parsed(f)).customerUnknown
    ensures !Fallback(text, catalog, Parsed(f)).customerUnknown
    ensures FallbackAsWritten(text, catalog, Parsed(f)).customer
         != Fallback(text, catalog, Parsed(f)).customer
  {
  }

  // ---------------------------------------------------------------------------
  // The pattern path

  /** `matched if matched else raw`: the gate's entry when it is truthy, the raw group otherwise. */
  function Canonical(matched: Option<string>, raw: string): (name: string)
    ensures matched.None? ==> name == raw
    ensures matched.Some? && matched.value != "" ==> name == matched.value
    ensures matched.Some? && matched.value == "" ==> name == raw
  {
    if matched.Some? && matched.value != "" then matched.value else raw
  }

  /** `comment or ""`: the comment text, or "" when the comment group did not take part. */
  function CommentOf(tail: Option<Tail>): string
  {
    match tail
    case None => ""
    case Some(tl) => tl.comment
  }

  /** The record of the pattern path, from the groups and the two gates' answers. */
  function FromPattern(d: Derivation, customerMatch: Option<string>, productMatch: Option<string>)
    : (o: Order)
    ensures o.rawCustomer == d.customer && o.rawProduct == d.product
    ensures o.amountValue == d.number && o.amountUnit == d.unit
    ensures o.customerUnknown <==> customerMatch.None?
    ensures o.productUnknown <==> productMatch.None?
  {
    Order(Canonical(customerMatch, d.customer), Canonical(productMatch, d.product), d.number, d.unit,
          CommentOf(d.tail), d.customer, d.product, customerMatch.None?, productMatch.None?)
  }

  /**
   * `extract_data_from_line`: the clause is stripped; if the order pattern matches,
   * the customer gate, then the product gate, each at the default threshold, give
   * the record; otherwise the fallback gives it. A gate on an empty catalog raises.
   */
  function ExtractFromLine(line: string, catalog: Catalog, score: Scorer, reply: Reply)
    : (r: Outcome<Order>)
    ensures r.Raised? <==> Parse(Strip(line)).Some? && (catalog.customers == [] || catalog.products == [])
    ensures Parse(Strip(line)).None? ==> r == Returned(Fallback(Strip(line), catalog, reply))
  {
    var text := Strip(line);
    match Parse(text)
    case None => Returned(Fallback(text, catalog, reply))
    case Some(d) =>
      var customerMatch := FuzzyMatch(d.customer, catalog.customers, DefaultThreshold, score);
      if customerMatch.Raised? then Raised
      else
        var productMatch := FuzzyMatch(d.product, catalog.products, DefaultThreshold, score);
        if productMatch.Raised? then Raised
        else Returned(FromPattern(d, customerMatch.value, productMatch.value))
  }

  /**
   * On the pattern path the amount and the unit are the number and unit groups of
   * the match: a non-empty run of ASCII digits, and one of the four units or "".
   * The raw names are the groups of the match, and the comment is the comment
   * group, or "" when there is none.
   */
  lemma ExtractMatchedFields(line: string, catalog: Catalog, score: Scorer, reply: Reply)
    ensures Parse(Strip(line)).Some? && ExtractFromLine(line, catalog, score, reply).Returned? ==>
      var d := Parse(Strip(line)).value;
      var o := ExtractFromLine(line, catalog, score, reply).value;
      && o.amountValue == d.number && o.amountUnit == d.unit
      && |o.amountValue| >= 1 && AllDigits(o.amountValue)
      && (o.amountUnit == "" || o.amountUnit in Units)
      && o.rawCustomer == d.customer && o.rawProduct == d.product
      && (d.tail.None? ==> o.comment == "")
      && (d.tail.Some? ==> o.comment == d.tail.value.comment)
      && d.Spelling() == Strip(line)
  {
    ParseSound(Strip(line));
  }

  /**
   * On the pattern path each name is the gate's entry when the gate accepts, and the
   * raw group, unchanged, when it rejects; the unknown flag is set exactly when the
   * gate rejects. With a loaded catalog an accepted name is a catalog entry.
   */
  lemma ExtractMatchedNames(line: string, catalog: Catalog, score: Scorer, reply: Reply)
    ensures Parse(Strip(line)).Some? && ExtractFromLine(line, catalog, score, reply).Returned? ==>
      var d := Parse(Strip(line)).value;
      var o := ExtractFromLine(line, catalog, score, reply).value;
      var cm := FuzzyMatch(d.customer, catalog.customers, DefaultThreshold, score).value;
      var pm := FuzzyMatch(d.product, catalog.products, DefaultThreshold, score).value;
      && (o.customerUnknown <==> cm.None?) && (o.productUnknown <==> pm.None?)
      && (o.customerUnknown ==> o.customer == o.rawCustomer)
      && (o.productUnknown ==> o.product == o.rawProduct)
      && (Loaded(catalog.customers) && !o.customerUnknown ==>
            o.customer == cm.value && o.customer in catalog.customers)
      && (Loaded(catalog.products) && !o.productUnknown ==>
            o.product == pm.value && o.product in catalog.products)
  {
    if Parse(Strip(line)).Some? && ExtractFromLine(line, catalog, score, reply).Returned? {
      var d := Parse(Strip(line)).value;
      var cm := FuzzyMatch(d.customer, catalog.customers, DefaultThreshold, score).value;
      var pm := FuzzyMatch(d.product, catalog.products, DefaultThreshold, score).value;
      if cm.Some? {
        LoadedEntry(catalog.customers, cm.value);
      }
      if pm.Some? {
        LoadedEntry(catalog.products, pm.value);
      }
    }
  }

  /** Entries of a loaded catalog are never empty. */
  lemma LoadedEntry(entries: seq<string>, x: string)
    requires x in entries
    ensures Loaded(entries) ==> x != ""
  {
    var i :| 0 <= i < |entries| && entries[i] == x;
  }
}
