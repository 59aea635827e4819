/**
 * The order pattern of `extract_data_from_line`,
 *
 *   customer \s* "." \s* digits (კგ|ც|ლ|გრამი)? \s+ product ( [,;] \s* comment )? end
 *
 * with a lazy customer, a lazy product and `re.match` anchored at the start.
 * `Derives` states the pattern as a language (which splits of a text it admits);
 * `Parse` makes the choices Python's backtracking matcher makes, one group at a
 * time: customer lengths 1, 2, ... in turn; for each, the only whitespace run
 * that can reach the "."; the longest digit run; the one unit alternative that
 * is present; whitespace before the product from the longest run down; product
 * lengths 1, 2, ... in turn, the comment group tried before the end of text.
 * `.` never matches '\n'; `\s` is `IsSpace`; `\d` is an ASCII digit.
 */
module Pattern {
  import opened Wrappers
  import opened Text

  /** The unit alternatives, in the order the pattern lists them. */
  const Units: seq<string> := ["კგ", "ც", "ლ", "გრამი"]

  predicate IsDigit(c: char) { '0' <= c <= '9' }

  predicate IsSeparator(c: char) { c == ',' || c == ';' }

  predicate AllDigits(s: string) { forall i :: 0 <= i < |s| ==> IsDigit(s[i]) }

  predicate NoNewline(s: string) { forall i :: 0 <= i < |s| ==> s[i] != '\n' }

  /** The comment group: a separator, whitespace, and the comment text. */
  datatype Tail = Tail(separator: char, space: string, comment: string)

  function TailText(tail: Option<Tail>): string
  {
    match tail
    case None => ""
    case Some(tl) => [tl.separator] + tl.space + tl.comment
  }

  predicate ValidTail(tail: Option<Tail>)
  {
    tail.Some? ==>
      IsSeparator(tail.value.separator) && AllSpace(tail.value.space) && NoNewline(tail.value.comment)
  }

  /** One way of reading a text as the pattern: every group and every whitespace run. */
  datatype Derivation = Derivation(
    customer: string, space1: string, space2: string, number: string, unit: string,
    space3: string, product: string, tail: Option<Tail>)
  {
    /** The text this reading spells out. */
    function Spelling(): string
    {
      customer + space1 + "." + space2 + number + unit + space3 + product + TailText(tail)
    }
  }

  /** Everything the pattern asks of a reading after its customer group. */
  predicate DerivesAfterCustomer(d: Derivation)
  {
    && AllSpace(d.space1) && AllSpace(d.space2)
    && |d.number| >= 1 && AllDigits(d.number)
    && (d.unit == "" || d.unit in Units)
    && |d.space3| >= 1 && AllSpace(d.space3)
    && |d.product| >= 1 && NoNewline(d.product)
    && ValidTail(d.tail)
  }

  /** The pattern as a language: the reading `d` is one the pattern admits. */
  predicate Derives(d: Derivation)
  {
    |d.customer| >= 1 && NoNewline(d.customer) && DerivesAfterCustomer(d)
  }

  // ---------------------------------------------------------------------------
  // The matcher, group by group


  /** `\s*` or `\s+` run greedily from `p`: the length of the longest whitespace run. */
  function SpaceRun(t: string, p: nat): (n: nat)
    requires p <= |t|
    ensures p + n <= |t|
    decreases |t| - p
  {
    if p < |t| && IsSpace(t[p]) then 1 + SpaceRun(t, p + 1) else 0
  }

  /** `SpaceRun` is the longest whitespace run: all whitespace, and not followed by any. */
  lemma {:induction false} SpaceRunLongest(t: string, p: nat)
    requires p <= |t|
    ensures var n := SpaceRun(t, p);
      AllSpace(t[p..p + n]) && (p + n == |t| || !IsSpace(t[p + n]))
    decreases |t| - p
  {
    if p < |t| && IsSpace(t[p]) {
      SpaceRunLongest(t, p + 1);
      var n := SpaceRun(t, p + 1);
      assert t[p..p + 1 + n] == [t[p]] + t[p + 1..p + 1 + n];
    }
  }

  /** Every prefix of the greedy whitespace run is whitespace. */
  lemma {:induction false} SpaceRunPrefix(t: string, p: nat, e: nat)
    requires p <= |t| && p <= e <= p + SpaceRun(t, p)
    ensures e <= |t| && AllSpace(t[p..e])
    decreases e - p
  {
    if p < e {
      SpaceRunPrefix(t, p + 1, e);
      assert t[p..e] == [t[p]] + t[p + 1..e];
    }
  }

  /** A whitespace run of length `n` from `p` is covered by the greedy run. */
  lemma {:induction false} SpaceRunAtLeast(t: string, p: nat, n: nat)
    requires p + n <= |t| && AllSpace(t[p..p + n])
    ensures SpaceRun(t, p) >= n
    decreases n
  {
    if n > 0 {
      assert IsSpace(t[p..p + n][0]);
      assert t[p + 1..p + n] == t[p..p + n][1..];
      SpaceRunAtLeast(t, p + 1, n - 1);
    }
  }

  /** A whitespace run of length `n` that is followed by something else is the greedy run. */
  lemma SpaceRunExact(t: string, p: nat, n: nat)
    requires p + n < |t| && AllSpace(t[p..p + n]) && !IsSpace(t[p + n])
    ensures SpaceRun(t, p) == n
  {
    SpaceRunAtLeast(t, p, n);
    SpaceRunLongest(t, p);
  }

  /** `\d+` run greedily from `p`: the length of the longest digit run. */
  function DigitRun(t: string, p: nat): (n: nat)
    requires p <= |t|
    ensures p + n <= |t|
    decreases |t| - p
  {
    if p < |t| && IsDigit(t[p]) then 1 + DigitRun(t, p + 1) else 0
  }

  /** `DigitRun` is the longest digit run: all digits, and not followed by one. */
  lemma {:induction false} DigitRunLongest(t: string, p: nat)
    requires p <= |t|
    ensures var n := DigitRun(t, p);
      AllDigits(t[p..p + n]) && (p + n == |t| || !IsDigit(t[p + n]))
    decreases |t| - p
  {
    if p < |t| && IsDigit(t[p]) {
      DigitRunLongest(t, p + 1);
      var n := DigitRun(t, p + 1);
      assert t[p..p + 1 + n] == [t[p]] + t[p + 1..p + 1 + n];
    }
  }

  /** A digit run of length `n` that is followed by something else is the greedy run. */
  lemma {:induction false} DigitRunExact(t: string, p: nat, n: nat)
    requires p + n < |t| && AllDigits(t[p..p + n]) && !IsDigit(t[p + n])
    ensures DigitRun(t, p) == n
    decreases n
  {
    if n > 0 {
      assert IsDigit(t[p..p + n][0]);
      assert t[p + 1..p + n] == t[p..p + n][1..];
      DigitRunExact(t, p + 1, n - 1);
    }
  }

  /** No '\n' from position `e` to the end: what `(.*)$` needs. */
  function NewlineFreeFrom(t: string, e: nat): bool
    decreases |t| - e
  {
    e >= |t| || (t[e] != '\n' && NewlineFreeFrom(t, e + 1))
  }

  lemma {:induction false} NewlineFreeFromIff(t: string, e: nat)
    requires e <= |t|
    ensures NewlineFreeFrom(t, e) <==> NoNewline(t[e..])
    decreases |t| - e
  {
    if e < |t| {
      NewlineFreeFromIff(t, e + 1);
      assert t[e..] == [t[e]] + t[e + 1..];
    }
  }

  predicate StartsAt(t: string, u: nat, x: string)
  {
    u + |x| <= |t| && t[u..u + |x|] == x
  }

  /** The optional unit group: the first alternative present at `u`, or none. */
  function UnitAt(t: string, u: nat): (unit: string)
    ensures u + |unit| <= |t| || unit == ""
  {
    if u + 2 <= |t| && t[u] == 'კ' && t[u + 1] == 'გ' then "კგ"
    else if u + 1 <= |t| && t[u] == 'ც' then "ც"
    else if u + 1 <= |t| && t[u] == 'ლ' then "ლ"
    else if u + 5 <= |t| && t[u] == 'გ' && t[u + 1] == 'რ' && t[u + 2] == 'ა' && t[u + 3] == 'მ'
      && t[u + 4] == 'ი' then "გრამი"
    else ""
  }

  /** The unit group takes one of the alternatives, spelled out at `u`, or nothing. */
  lemma UnitAtSound(t: string, u: nat)
    ensures var unit := UnitAt(t, u); unit == "" || (unit in Units && StartsAt(t, u, unit))
  {
  }

  /** The unit alternatives begin with different letters, none a digit or whitespace. */
  lemma UnitHeads(x: string, y: string)
    requires x in Units && y in Units
    ensures |x| >= 1 && !IsDigit(x[0]) && !IsSpace(x[0])
    ensures x[0] == y[0] ==> x == y
  {
  }

  /** Whichever alternative is present at `u` is the one the unit group takes. */
  lemma UnitAtExact(t: string, u: nat, x: string)
    requires x in Units && StartsAt(t, u, x)
    ensures UnitAt(t, u) == x
  {
    var unit := UnitAt(t, u);
    UnitHeads(x, x);
    if unit != x {
      UnitHeads(unit, x);
      assert false;
    }
  }

  /** No alternative starts with whitespace, so the unit group is skipped before it. */
  lemma UnitAtSpace(t: string, u: nat)
    requires u < |t| && IsSpace(t[u])
    ensures UnitAt(t, u) == ""
  {
    var unit := UnitAt(t, u);
    if unit != "" {
      UnitHeads(unit, unit);
      assert false;
    }
  }

  // ---------------------------------------------------------------------------
  // The product and the comment group

  /** Where the comment text begins when the comment group's separator is at `c`. */
  function CommentStart(t: string, c: nat): (e: nat)
    requires c < |t|
    ensures c < e <= |t|
  {
    c + 1 + SpaceRun(t, c + 1)
  }

  /** The comment group matches from `c` to the end of the text. */
  predicate TailFrom(t: string, c: nat)
  {
    c < |t| && IsSeparator(t[c]) && NewlineFreeFrom(t, CommentStart(t, c))
  }

  /** A product ending at `c` can be followed by the comment group, or by the end. */
  predicate ProductEnds(t: string, c: nat)
  {
    c == |t| || TailFrom(t, c)
  }

  /**
   * The lazy product group from `q`, lengths `k`, `k + 1`, ... in turn: where the
   * first product after which the text can end ends.
   */
  function FindProduct(t: string, q: nat, k: nat): (r: Option<nat>)
    requires 1 <= k
    ensures r.Some? ==> q + k <= r.value <= |t|
    decreases |t| + 1 - (q + k)
  {
    if q + k > |t| || t[q + k - 1] == '\n' then None
    else if ProductEnds(t, q + k) then Some(q + k)
    else FindProduct(t, q, k + 1)
  }

  /** The product found holds no '\n', can end the text, and is the shortest that can. */
  lemma {:induction false} FindProductSound(t: string, q: nat, k: nat)
    requires 1 <= k && q + k <= |t| + 1 && NoNewline(t[q..q + k - 1])
    ensures var r := FindProduct(t, q, k);
      r.Some? ==>
        && NoNewline(t[q..r.value]) && ProductEnds(t, r.value)
        && forall c :: q + k <= c < r.value ==> !ProductEnds(t, c)
    decreases |t| + 1 - (q + k)
  {
    if q + k <= |t| && t[q + k - 1] != '\n' {
      assert t[q..q + k] == t[q..q + k - 1] + [t[q + k - 1]];
      if !ProductEnds(t, q + k) {
        FindProductSound(t, q, k + 1);
      }
    }
  }

  /** A product from `q` to `c` that can end the text means the search finds one, no longer. */
  lemma {:induction false} FindProductComplete(t: string, q: nat, k: nat, c: nat)
    requires 1 <= k && q + k <= c <= |t| && NoNewline(t[q..c]) && ProductEnds(t, c)
    ensures FindProduct(t, q, k).Some? && FindProduct(t, q, k).value <= c
    decreases c - (q + k)
  {
    assert t[q + k - 1] == t[q..c][k - 1];
    if !ProductEnds(t, q + k) {
      FindProductComplete(t, q, k + 1, c);
    }
  }

  /**
   * `\s+` before the product, backtracking from the longest run `w` down to one
   * character: where the product starts and ends.
   */
  function BacktrackSpace(t: string, v: nat, w: nat): (r: Option<(nat, nat)>)
    ensures r.Some? ==> v < r.value.0 <= v + w && FindProduct(t, r.value.0, 1) == Some(r.value.1)
    decreases w
  {
    if w == 0 then None
    else match FindProduct(t, v + w, 1)
      case Some(c) => Some((v + w, c))
      case None => BacktrackSpace(t, v, w - 1)
  }

  /** The product starts after the longest whitespace run that lets it match. */
  lemma {:induction false} BacktrackSpaceLongest(t: string, v: nat, w: nat)
    ensures var r := BacktrackSpace(t, v, w);
      && (r.Some? ==> forall q :: r.value.0 < q <= v + w ==> FindProduct(t, q, 1).None?)
      && (r.None? ==> forall q :: v < q <= v + w ==> FindProduct(t, q, 1).None?)
    decreases w
  {
    if w > 0 && FindProduct(t, v + w, 1).None? {
      BacktrackSpaceLongest(t, v, w - 1);
    }
  }

  // ---------------------------------------------------------------------------
  // Where the matcher cuts the text

  /**
   * The positions at which a match cuts the text: the customer is `t[..customerEnd]`,
   * the "." is at `dot`, the number is `t[numberStart..numberEnd]`, the unit
   * `t[numberEnd..unitEnd]`, the product `t[productStart..productEnd]`, and the
   * comment group, if any, starts at `productEnd`.
   */
  datatype Cuts = Cuts(
    customerEnd: nat, dot: nat, numberStart: nat, numberEnd: nat, unitEnd: nat,
    productStart: nat, productEnd: nat)

  predicate Fits(t: string, k: Cuts)
  {
    1 <= k.customerEnd <= k.dot < k.numberStart < k.numberEnd <= k.unitEnd < k.productStart
      < k.productEnd <= |t|
  }

  /** What the pattern asks of the text from the end of the customer to the end of the number. */
  predicate GoodHead(t: string, k: Cuts)
  {
    && Fits(t, k)
    && AllSpace(t[k.customerEnd..k.dot]) && t[k.dot] == '.'
    && AllSpace(t[k.dot + 1..k.numberStart]) && AllDigits(t[k.numberStart..k.numberEnd])
  }

  /** What the pattern asks of the unit group. */
  predicate GoodUnit(t: string, k: Cuts)
  {
    Fits(t, k) && (t[k.numberEnd..k.unitEnd] == "" || t[k.numberEnd..k.unitEnd] in Units)
  }

  /** What the pattern asks of the whitespace before the product. */
  predicate GoodGap(t: string, k: Cuts)
  {
    Fits(t, k) && AllSpace(t[k.unitEnd..k.productStart])
  }

  /** What the pattern asks of the product and of what follows it. */
  predicate GoodProduct(t: string, k: Cuts)
  {
    Fits(t, k) && NoNewline(t[k.productStart..k.productEnd]) && ProductEnds(t, k.productEnd)
  }

  /** Everything the pattern asks of the text after the number group. */
  predicate GoodRest(t: string, k: Cuts)
  {
    GoodUnit(t, k) && GoodGap(t, k) && GoodProduct(t, k)
  }

  /** Everything the pattern asks of the text after the customer group. */
  predicate GoodAfter(t: string, k: Cuts)
  {
    GoodHead(t, k) && GoodRest(t, k)
  }

  /** The cuts split the text in a way the pattern admits. */
  predicate Good(t: string, k: Cuts)
  {
    Fits(t, k) && NoNewline(t[..k.customerEnd]) && GoodAfter(t, k)
  }

  /** Everything after a customer group of length `i`, as the matcher tries it. */
  function TryAt(t: string, i: nat): (r: Option<Cuts>)
    requires i <= |t|
    ensures r.Some? ==> Fits(t, r.value) && r.value.customerEnd == i
  {
    if i == 0 then None else AtDot(t, i, i + SpaceRun(t, i))
  }

  /** The "." must follow the whitespace run after the customer, which ends at `j`. */
  function AtDot(t: string, i: nat, j: nat): (r: Option<Cuts>)
    requires 1 <= i <= j <= |t|
    ensures r.Some? ==> Fits(t, r.value) && r.value.customerEnd == i && r.value.dot == j
  {
    if j == |t| || t[j] != '.' then None
    else AtNumber(t, i, j, j + 1 + SpaceRun(t, j + 1))
  }

  /** The number group from `d0`: the longest digit run, which must not be empty. */
  function AtNumber(t: string, i: nat, j: nat, d0: nat): (r: Option<Cuts>)
    requires 1 <= i <= j < d0 <= |t|
    ensures r.Some? ==>
      Fits(t, r.value) && r.value.customerEnd == i && r.value.dot == j && r.value.numberStart == d0
  {
    var m := DigitRun(t, d0);
    if m == 0 then None else AtUnit(t, i, j, d0, d0 + m)
  }

  /** The unit group at `u`, then the whitespace run, the product and the comment group. */
  function AtUnit(t: string, i: nat, j: nat, d0: nat, u: nat): (r: Option<Cuts>)
    requires 1 <= i <= j < d0 < u <= |t|
    ensures r.Some? ==>
      && Fits(t, r.value) && r.value.customerEnd == i && r.value.dot == j
      && r.value.numberStart == d0 && r.value.numberEnd == u
  {
    var v := u + |UnitAt(t, u)|;
    match BacktrackSpace(t, v, SpaceRun(t, v))
    case None => None
    case Some((q, c)) => Some(Cuts(i, j, d0, u, v, q, c))
  }

  lemma AtUnitUnit(t: string, i: nat, j: nat, d0: nat, u: nat, k: Cuts)
    requires 1 <= i <= j < d0 < u <= |t| && AtUnit(t, i, j, d0, u) == Some(k)
    ensures GoodUnit(t, k)
  {
    UnitAtSound(t, u);
  }

  lemma AtUnitGap(t: string, i: nat, j: nat, d0: nat, u: nat, k: Cuts)
    requires 1 <= i <= j < d0 < u <= |t| && AtUnit(t, i, j, d0, u) == Some(k)
    ensures GoodGap(t, k)
  {
    SpaceRunPrefix(t, k.unitEnd, k.productStart);
  }

  lemma AtUnitProduct(t: string, i: nat, j: nat, d0: nat, u: nat, k: Cuts)
    requires 1 <= i <= j < d0 < u <= |t| && AtUnit(t, i, j, d0, u) == Some(k)
    ensures GoodProduct(t, k)
  {
    FindProductSound(t, k.productStart, 1);
  }

  /** What `AtUnit` returns cuts the text as the pattern asks after the number group. */
  lemma AtUnitSound(t: string, i: nat, j: nat, d0: nat, u: nat, k: Cuts)
    requires 1 <= i <= j < d0 < u <= |t| && AtUnit(t, i, j, d0, u) == Some(k)
    ensures GoodRest(t, k)
  {
    AtUnitUnit(t, i, j, d0, u, k);
    AtUnitGap(t, i, j, d0, u, k);
    AtUnitProduct(t, i, j, d0, u, k);
  }

  lemma AtNumberSound(t: string, i: nat, j: nat, d0: nat, k: Cuts)
    requires 1 <= i <= j < d0 <= |t| && AtNumber(t, i, j, d0) == Some(k)
    ensures AllDigits(t[d0..k.numberEnd]) && GoodRest(t, k)
  {
    DigitRunLongest(t, d0);
    AtUnitSound(t, i, j, d0, k.numberEnd, k);
  }

  lemma AtDotSound(t: string, i: nat, j: nat, k: Cuts)
    requires 1 <= i <= j <= |t| && AllSpace(t[i..j]) && AtDot(t, i, j) == Some(k)
    ensures GoodAfter(t, k)
  {
    SpaceRunPrefix(t, j + 1, k.numberStart);
    AtNumberSound(t, i, j, k.numberStart, k);
  }

  /** What `TryAt` returns cuts the text as the pattern asks after the customer group. */
  lemma TryAtSound(t: string, i: nat, k: Cuts)
    requires i <= |t| && TryAt(t, i) == Some(k)
    ensures GoodAfter(t, k)
  {
    SpaceRunPrefix(t, i, i + SpaceRun(t, i));
    AtDotSound(t, i, i + SpaceRun(t, i), k);
  }

  lemma AtUnitComplete(t: string, i: nat, j: nat, d0: nat, u: nat, q: nat, c: nat)
    requires 1 <= i <= j < d0 < u <= |t|
    requires var v := u + |UnitAt(t, u)|;
      v < q < c <= |t| && AllSpace(t[v..q]) && NoNewline(t[q..c]) && ProductEnds(t, c)
    ensures AtUnit(t, i, j, d0, u).Some?
  {
    var v := u + |UnitAt(t, u)|;
    SpaceRunAtLeast(t, v, q - v);
    FindProductComplete(t, q, 1, c);
    BacktrackSpaceLongest(t, v, SpaceRun(t, v));
  }

  lemma AtNumberComplete(t: string, i: nat, j: nat, d0: nat, u: nat)
    requires 1 <= i <= j < d0 < u < |t| && AllDigits(t[d0..u]) && !IsDigit(t[u])
    requires AtUnit(t, i, j, d0, u).Some?
    ensures AtNumber(t, i, j, d0).Some?
  {
    DigitRunExact(t, d0, u - d0);
  }

  lemma AtDotComplete(t: string, i: nat, j: nat, d0: nat)
    requires 1 <= i <= j < d0 < |t| && t[j] == '.' && AllSpace(t[j + 1..d0]) && !IsSpace(t[d0])
    requires AtNumber(t, i, j, d0).Some?
    ensures AtDot(t, i, j).Some?
  {
    SpaceRunExact(t, j + 1, d0 - (j + 1));
  }

  lemma TryAtAtDot(t: string, i: nat, j: nat)
    requires 1 <= i <= j < |t| && AllSpace(t[i..j]) && !IsSpace(t[j]) && AtDot(t, i, j).Some?
    ensures TryAt(t, i).Some?
  {
    SpaceRunExact(t, i, j - i);
  }

  /** After the number group, the unit group takes exactly the unit the cuts delimit. */
  lemma UnitFollows(t: string, k: Cuts)
    requires GoodUnit(t, k) && GoodGap(t, k)
    ensures UnitAt(t, k.numberEnd) == t[k.numberEnd..k.unitEnd] && !IsDigit(t[k.numberEnd])
  {
    var unit := t[k.numberEnd..k.unitEnd];
    if unit == "" {
      assert t[k.numberEnd] == t[k.unitEnd..k.productStart][0];
      UnitAtSpace(t, k.numberEnd);
    } else {
      UnitHeads(unit, unit);
      assert t[k.numberEnd] == unit[0];
      UnitAtExact(t, k.numberEnd, unit);
    }
  }

  /** The matcher succeeds with customer length `i` whenever some cuts there are good. */
  lemma TryAtComplete(t: string, k: Cuts)
    requires GoodAfter(t, k)
    ensures TryAt(t, k.customerEnd).Some?
  {
    UnitFollows(t, k);
    AtUnitComplete(t, k.customerEnd, k.dot, k.numberStart, k.numberEnd, k.productStart, k.productEnd);
    AtNumberComplete(t, k.customerEnd, k.dot, k.numberStart, k.numberEnd);
    assert IsDigit(t[k.numberStart..k.numberEnd][0]);
    AtDotComplete(t, k.customerEnd, k.dot, k.numberStart);
    TryAtAtDot(t, k.customerEnd, k.dot);
  }

  /** `re.match`: the customer lengths `i`, `i + 1`, ... in turn, up to the first '\n'. */
  function Search(t: string, i: nat): (r: Option<Cuts>)
    requires 1 <= i
    ensures r.Some? ==> Fits(t, r.value) && i <= r.value.customerEnd
    decreases |t| + 1 - i
  {
    if i > |t| || t[i - 1] == '\n' then None
    else
      match TryAt(t, i)
      case Some(k) => Some(k)
      case None => Search(t, i + 1)
  }

  /** What `Search` returns cuts `t` as the pattern asks. */
  lemma {:induction false} SearchSound(t: string, i: nat)
    requires 1 <= i <= |t| + 1 && NoNewline(t[..i - 1])
    ensures var r := Search(t, i); r.Some? ==> Good(t, r.value)
    decreases |t| + 1 - i
  {
    if i <= |t| && t[i - 1] != '\n' {
      assert t[..i] == t[..i - 1] + [t[i - 1]];
      if TryAt(t, i).Some? {
        TryAtSound(t, i, TryAt(t, i).value);
      } else {
        SearchSound(t, i + 1);
      }
    }
  }

  /** `Search` returns the first customer length from `i` at which the rest matches. */
  lemma {:induction false} SearchFirst(t: string, i: nat, j: nat)
    requires 1 <= i <= j && Search(t, i).Some? && j < Search(t, i).value.customerEnd
    ensures TryAt(t, j).None?
    decreases j - i
  {
    if j > i {
      SearchFirst(t, i + 1, j);
    }
  }

  /**
   * A customer length `e` at which the rest matches, with no '\n' before it, means
   * the search from `i` finds cuts, with a customer no longer than `e`.
   */
  lemma {:induction false} SearchReaches(t: string, i: nat, e: nat)
    requires 1 <= i <= e <= |t| && NoNewline(t[..e]) && TryAt(t, e).Some?
    ensures Search(t, i).Some? && Search(t, i).value.customerEnd <= e
    decreases e - i
  {
    assert t[i - 1] == t[..e][i - 1];
    if i < e && TryAt(t, i).None? {
      SearchReaches(t, i + 1, e);
    }
  }

  /** Good cuts with a customer of length at least `i` mean the search finds cuts, no later. */
  lemma SearchComplete(t: string, i: nat, k: Cuts)
    requires 1 <= i <= k.customerEnd && Good(t, k)
    ensures Search(t, i).Some? && Search(t, i).value.customerEnd <= k.customerEnd
  {
    TryAtComplete(t, k);
    SearchReaches(t, i, k.customerEnd);
  }

  // ---------------------------------------------------------------------------
  // From cuts to groups

  /** The comment group from `c`, if the product ends before the end of the text. */
  function TailAt(t: string, c: nat): Option<Tail>
    requires c <= |t|
  {
    if c == |t| then None
    else
      var e := CommentStart(t, c);
      Some(Tail(t[c], t[c + 1..e], t[e..]))
  }

  /** The groups the cuts delimit. */
  function Reading(t: string, k: Cuts): Derivation
    requires Fits(t, k)
  {
    Derivation(
      t[..k.customerEnd], t[k.customerEnd..k.dot], t[k.dot + 1..k.numberStart],
      t[k.numberStart..k.numberEnd], t[k.numberEnd..k.unitEnd],
      t[k.unitEnd..k.productStart], t[k.productStart..k.productEnd], TailAt(t, k.productEnd))
  }

  /** The comment group that can end the text reads the rest of it. */
  lemma TailAtSound(t: string, c: nat)
    requires c <= |t| && ProductEnds(t, c)
    ensures ValidTail(TailAt(t, c)) && t[c..] == TailText(TailAt(t, c))
  {
    if c < |t| {
      var e := CommentStart(t, c);
      SpaceRunLongest(t, c + 1);
      NewlineFreeFromIff(t, e);
      assert t[c..] == [t[c]] + t[c + 1..e] + t[e..];
    }
  }

  /** A prefix of `t` followed by the next slice is the longer prefix. */
  lemma Extend(t: string, x: nat, y: nat)
    requires x <= y <= |t|
    ensures t[..x] + t[x..y] == t[..y]
  {
  }

  /** The groups up to the number, put back together, spell the text up to the number. */
  lemma ReadingHead(t: string, k: Cuts)
    requires Fits(t, k) && t[k.dot] == '.'
    ensures var d := Reading(t, k); d.customer + d.space1 + "." + d.space2 == t[..k.numberStart]
  {
    var d := Reading(t, k);
    Extend(t, k.customerEnd, k.dot);
    Extend(t, k.dot, k.dot + 1);
    assert d.customer + d.space1 + "." == t[..k.dot + 1];
    Extend(t, k.dot + 1, k.numberStart);
  }

  /** The groups up to the product, put back together, spell the text up to the product's end. */
  lemma ReadingPrefix(t: string, k: Cuts)
    requires Fits(t, k) && t[k.dot] == '.'
    ensures var d := Reading(t, k);
      d.customer + d.space1 + "." + d.space2 + d.number + d.unit + d.space3 + d.product
        == t[..k.productEnd]
  {
    ReadingHead(t, k);
    Extend(t, k.numberStart, k.numberEnd);
    Extend(t, k.numberEnd, k.unitEnd);
    Extend(t, k.unitEnd, k.productStart);
    Extend(t, k.productStart, k.productEnd);
  }

  /** The slices of `t` that the cuts delimit put back together spell `t`. */
  lemma ReadingSpells(t: string, k: Cuts)
    requires Fits(t, k) && t[k.dot] == '.' && ProductEnds(t, k.productEnd)
    ensures Reading(t, k).Spelling() == t
  {
    TailAtSound(t, k.productEnd);
    ReadingPrefix(t, k);
    assert t == t[..k.productEnd] + t[k.productEnd..];
  }

  /** Good cuts give groups the pattern admits. */
  lemma ReadingDerives(t: string, k: Cuts)
    requires Good(t, k)
    ensures Derives(Reading(t, k))
  {
    TailAtSound(t, k.productEnd);
  }

  // ---------------------------------------------------------------------------
  // From groups to cuts

  /** Where a reading of the text puts its cuts. */
  function CutsOf(d: Derivation): Cuts
  {
    var ce := |d.customer|;
    var dot := ce + |d.space1|;
    var ns := dot + 1 + |d.space2|;
    var ne := ns + |d.number|;
    var ue := ne + |d.unit|;
    var ps := ue + |d.space3|;
    Cuts(ce, dot, ns, ne, ue, ps, ps + |d.product|)
  }

  /** Removing the last piece of a prefix written as `a + b`. */
  lemma Peel(t: string, x: nat, a: string, b: string)
    requires x <= |t| && t[..x] == a + b
    ensures t[..|a|] == a && t[|a|..x] == b
  {
    assert t[..|a|] == t[..x][..|a|];
    assert t[|a|..x] == t[..x][|a|..];
  }

  /** Each group of a reading is the slice of the text between its cuts. */
  lemma CutsOfSlices(t: string, d: Derivation)
    requires d.Spelling() == t
    ensures var k := CutsOf(d);
      && k.productEnd <= |t| && t[k.productEnd..] == TailText(d.tail)
      && t[k.productStart..k.productEnd] == d.product && t[k.unitEnd..k.productStart] == d.space3
      && t[k.numberEnd..k.unitEnd] == d.unit && t[k.numberStart..k.numberEnd] == d.number
      && t[k.dot + 1..k.numberStart] == d.space2 && t[k.dot] == '.'
      && t[k.customerEnd..k.dot] == d.space1 && t[..k.customerEnd] == d.customer
  {
    var k := CutsOf(d);
    var s1 := d.customer + d.space1;
    var s2 := s1 + ".";
    var s3 := s2 + d.space2;
    var s4 := s3 + d.number;
    var s5 := s4 + d.unit;
    var s6 := s5 + d.space3;
    var s7 := s6 + d.product;
    assert t == s7 + TailText(d.tail);
    assert t[..|t|] == t;
    Peel(t, |t|, s7, TailText(d.tail));
    assert t[|s7|..] == TailText(d.tail);
    Peel(t, |s7|, s6, d.product);
    Peel(t, |s6|, s5, d.space3);
    Peel(t, |s5|, s4, d.unit);
    Peel(t, |s4|, s3, d.number);
    Peel(t, |s3|, s2, d.space2);
    Peel(t, |s2|, s1, ".");
    Peel(t, |s1|, d.customer, d.space1);
  }

  /** A comment group that reads the rest of the text lets the product end there. */
  lemma TailEnds(t: string, c: nat, tail: Option<Tail>)
    requires c <= |t| && t[c..] == TailText(tail) && ValidTail(tail)
    ensures ProductEnds(t, c)
  {
    if tail.Some? {
      var tl := tail.value;
      var s := c + 1 + |tl.space|;
      assert t[c + 1..s] == t[c..][1..1 + |tl.space|];
      SpaceRunAtLeast(t, c + 1, |tl.space|);
      var e := CommentStart(t, c);
      assert t[e..] == tl.comment[e - s..] by {
        assert t[s..] == t[c..][1 + |tl.space|..];
      }
      NewlineFreeFromIff(t, e);
    }
  }

  /** A reading the pattern admits puts good cuts in the text it spells. */
  lemma CutsOfGood(t: string, d: Derivation)
    requires Derives(d) && d.Spelling() == t
    ensures Good(t, CutsOf(d))
  {
    CutsOfSlices(t, d);
    TailEnds(t, CutsOf(d).productEnd, d.tail);
  }

  // ---------------------------------------------------------------------------
  // The match

  /**
   * The pattern matched against a whole clause: its groups, if it matches. The
   * clause has been stripped, so Python's `$` matching before a final '\n' never
   * applies and is not modelled.
   */
  function Parse(t: string): Option<Derivation>
  {
    match Search(t, 1)
    case None => None
    case Some(k) => Some(Reading(t, k))
  }

  /** A match is a reading of the whole clause that the pattern admits. */
  lemma ParseSound(t: string)
    ensures Parse(t).Some? ==> Derives(Parse(t).value) && Parse(t).value.Spelling() == t
  {
    SearchSound(t, 1);
    if Search(t, 1).Some? {
      var k := Search(t, 1).value;
      ReadingDerives(t, k);
      ReadingSpells(t, k);
    }
  }

  /**
   * The pattern matches every text that has a reading it admits, and then with a
   * customer group no longer than that reading's: `.+?` takes the shortest customer.
   */
  lemma ParseComplete(t: string, d: Derivation)
    requires Derives(d) && d.Spelling() == t
    ensures Parse(t).Some? && |Parse(t).value.customer| <= |d.customer|
  {
    CutsOfGood(t, d);
    SearchComplete(t, 1, CutsOf(d));
  }

  /** No shorter customer group leaves a text the rest of the pattern matches. */
  lemma ParseShortestCustomer(t: string, i: nat)
    requires Parse(t).Some? && 1 <= i < |Parse(t).value.customer|
    ensures TryAt(t, i).None?
  {
    SearchFirst(t, 1, i);
  }
}
