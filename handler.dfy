/**
 * `handle_message`: every clause of a message is extracted, written to the sheet
 * and acknowledged with a reply line, in order. The external reply for the k-th
 * clause and the clock reading taken while logging it are parameters.
 */
module Handler {
  import opened Wrappers
  import opened Segmenter
  import opened Matcher
  import opened Records
  import opened Reports

  /** What logging one clause does: the row sent to the sheet and the reply sent to the chat. */
  datatype Effect = Logged(row: seq<string>, status: string)

  /** The effect of the k-th clause, or `Raised` when its extraction raises. */
  function Step(clause: string, k: nat, author: string, catalog: Catalog, score: Scorer,
                replies: nat -> Reply, clock: nat -> string): Outcome<Effect>
  {
    match ExtractFromLine(clause, catalog, score, replies(k))
    case Raised => Raised
    case Returned(o) => Returned(Logged(Row(o, author, clock(k)), StatusLine(o)))
  }

  /** The outcome of every clause of a message, each with its own reply and clock reading. */
  function Outcomes(clauses: seq<string>, author: string, catalog: Catalog, score: Scorer,
                    replies: nat -> Reply, clock: nat -> string): (outs: seq<Outcome<Effect>>)
    ensures |outs| == |clauses|
    ensures forall k :: 0 <= k < |clauses| ==>
      outs[k] == Step(clauses[k], k, author, catalog, score, replies, clock)
  {
    seq(|clauses|, k requires 0 <= k < |clauses| => Step(clauses[k], k, author, catalog, score, replies, clock))
  }

  /**
   * The effects of the outcomes from the k-th on, and whether the handler raised:
   * an exception ends the handler, so the clauses after it are never handled.
   */
  function RunFrom(outs: seq<Outcome<Effect>>, k: nat): (seq<Effect>, bool)
    requires k <= |outs|
    decreases |outs| - k
  {
    if k == |outs| then ([], false)
    else match outs[k]
      case Raised => ([], true)
      case Returned(e) =>
        var rest := RunFrom(outs, k + 1);
        ([e] + rest.0, rest.1)
  }

  /** The handler's effects on a whole message. */
  function Run(text: string, author: string, catalog: Catalog, score: Scorer,
               replies: nat -> Reply, clock: nat -> string): (seq<Effect>, bool)
  {
    RunFrom(Outcomes(Clauses(text), author, catalog, score, replies, clock), 0)
  }

  /**
   * `handle_message`, with the clauses taken from the segmenter and handled one at
   * a time until one raises. The reply for a record that is not truthy is never
   * sent: every extraction that returns gives a non-empty record.
   */
  method HandleMessage(text: string, author: string, catalog: Catalog, score: Scorer,
                       replies: nat -> Reply, clock: nat -> string)
    returns (effects: seq<Effect>, raised: bool)
    ensures (effects, raised) == Run(text, author, catalog, score, replies, clock)
  {
    var clauses := Segment(text);
    ghost var outs := Outcomes(clauses, author, catalog, score, replies, clock);
    effects, raised := [], false;
    assert effects + RunFrom(outs, 0).0 == RunFrom(outs, 0).0;
    var i := 0;
    while i < |clauses| && !raised
      invariant 0 <= i <= |clauses|
      invariant !raised ==> (effects + RunFrom(outs, i).0, RunFrom(outs, i).1) == RunFrom(outs, 0)
      invariant raised ==> (effects, true) == RunFrom(outs, 0)
      decreases |clauses| - i
    {
      var outcome := Step(clauses[i], i, author, catalog, score, replies, clock);
      RunFromStep(outs, i, effects);
      if outcome.Raised? {
        raised := true;
      } else {
        effects := effects + [outcome.value];
      }
      i := i + 1;
    }
    if !raised {
      assert effects + RunFrom(outs, i).0 == effects;
    }
  }

  /** One step of the handler's loop keeps the effects on their way to those of the whole run. */
  lemma RunFromStep(outs: seq<Outcome<Effect>>, k: nat, effects: seq<Effect>)
    requires k < |outs|
    requires (effects + RunFrom(outs, k).0, RunFrom(outs, k).1) == RunFrom(outs, 0)
    ensures outs[k].Raised? ==> (effects, true) == RunFrom(outs, 0)
    ensures outs[k].Returned? ==>
      ((effects + [outs[k].value]) + RunFrom(outs, k + 1).0, RunFrom(outs, k + 1).1) == RunFrom(outs, 0)
  {
    if outs[k].Raised? {
      assert effects + RunFrom(outs, k).0 == effects;
    } else {
      assert (effects + [outs[k].value]) + RunFrom(outs, k + 1).0
          == effects + ([outs[k].value] + RunFrom(outs, k + 1).0);
    }
  }

  /**
   * The effects are those of the outcomes in order, up to the first that raises;
   * without an exception there is one effect per clause.
   */
  lemma {:induction false} RunFromShape(outs: seq<Outcome<Effect>>, k: nat)
    requires k <= |outs|
    ensures var r := RunFrom(outs, k);
      && k + |r.0| <= |outs|
      && (r.1 <==> k + |r.0| < |outs|)
      && (r.1 ==> outs[k + |r.0|].Raised?)
      && forall j :: 0 <= j < |r.0| ==> outs[k + j] == Returned(r.0[j])
    decreases |outs| - k
  {
    if k < |outs| && outs[k].Returned? {
      RunFromShape(outs, k + 1);
      var r := RunFrom(outs, k);
      var rest := RunFrom(outs, k + 1);
      forall j | 0 <= j < |r.0|
        ensures outs[k + j] == Returned(r.0[j])
      {
        if j > 0 {
          assert outs[(k + 1) + (j - 1)] == Returned(rest.0[j - 1]);
        }
      }
    }
  }

  /**
   * With both catalogs non-empty the handler never raises: every clause of the
   * message is logged, in order, with the row and the reply of its own record.
   */
  lemma RunLogsEveryClause(text: string, author: string, catalog: Catalog, score: Scorer,
                           replies: nat -> Reply, clock: nat -> string)
    requires catalog.customers != [] && catalog.products != []
    ensures var r := Run(text, author, catalog, score, replies, clock);
      var clauses := Clauses(text);
      && !r.1 && |r.0| == |clauses|
      && forall k :: 0 <= k < |clauses| ==>
           var o := ExtractFromLine(clauses[k], catalog, score, replies(k)).value;
           r.0[k] == Logged(Row(o, author, clock(k)), StatusLine(o))
  {
    var clauses := Clauses(text);
    var outs := Outcomes(clauses, author, catalog, score, replies, clock);
    RunFromShape(outs, 0);
    var r := RunFrom(outs, 0);
    forall k | 0 <= k < |clauses|
      ensures outs[k].Returned?
    {
    }
    forall k | 0 <= k < |r.0|
      ensures var o := ExtractFromLine(clauses[k], catalog, score, replies(k)).value;
        r.0[k] == Logged(Row(o, author, clock(k)), StatusLine(o))
    {
      assert outs[0 + k] == Returned(r.0[k]);
    }
  }

  /**
   * When the handler raises, it has logged the clauses before the one that raised,
   * and that clause matched the order pattern with a catalog empty: a clause the
   * pattern does not match never stops the handler.
   */
  lemma RaisedByGate(text: string, author: string, catalog: Catalog, score: Scorer,
                     replies: nat -> Reply, clock: nat -> string)
    ensures var r := Run(text, author, catalog, score, replies, clock);
      var clauses := Clauses(text);
      r.1 ==>
      && |r.0| < |clauses|
      && Pattern.Parse(Text.Strip(clauses[|r.0|])).Some?
      && (catalog.customers == [] || catalog.products == [])
  {
    RunFromShape(Outcomes(Clauses(text), author, catalog, score, replies, clock), 0);
  }
}
