/**
 * The segmentation loop of `handle_message`: the message is split into lines on
 * '\n', every line into pieces on ';' or ',', every piece is stripped, and the
 * non-empty results are the clauses handed one by one to the extractor.
 */
module Segmenter {
  import opened Text

  const LineBreaks: set<char> := {'\n'}
  const Delimiters: set<char> := {';', ','}
  const Separators: set<char> := {'\n', ';', ','}

  /** The pieces of every line, line after line, each line's pieces in their own order. */
  function Pieces(lines: seq<string>): seq<string>
  {
    if lines == [] then [] else Split(lines[0], Delimiters) + Pieces(lines[1..])
  }

  /** Each piece stripped, the empty results dropped, the order kept. */
  function Kept(pieces: seq<string>): seq<string>
  {
    if pieces == [] then []
    else (if Strip(pieces[0]) == "" then [] else [Strip(pieces[0])]) + Kept(pieces[1..])
  }

  /** The clauses `handle_message` hands to the extractor, in the order it hands them. */
  function Clauses(text: string): seq<string>
  {
    Kept(Pieces(Split(text, LineBreaks)))
  }

  /** What every clause is: non-empty, already stripped, and free of separators. */
  predicate IsClause(c: string)
  {
    c != "" && Strip(c) == c && forall ch :: ch in c ==> ch !in Separators
  }

  lemma {:induction false} PiecesAppend(a: seq<string>, b: seq<string>)
    ensures Pieces(a + b) == Pieces(a) + Pieces(b)
    decreases |a|
  {
    if a == [] {
      assert a + b == b;
    } else {
      assert (a + b)[0] == a[0] && (a + b)[1..] == a[1..] + b;
      PiecesAppend(a[1..], b);
    }
  }

  lemma {:induction false} KeptAppend(a: seq<string>, b: seq<string>)
    ensures Kept(a + b) == Kept(a) + Kept(b)
    decreases |a|
  {
    if a == [] {
      assert a + b == b;
    } else {
      assert (a + b)[0] == a[0] && (a + b)[1..] == a[1..] + b;
      KeptAppend(a[1..], b);
    }
  }

  /** A character of a piece is a character of one of the lines. */
  lemma {:induction false} PiecesChars(lines: seq<string>, k: nat, c: char)
    requires k < |Pieces(lines)| && c in Pieces(lines)[k]
    ensures c !in Delimiters && exists l :: 0 <= l < |lines| && c in lines[l]
    decreases |lines|
  {
    var first := Split(lines[0], Delimiters);
    if k < |first| {
      assert Pieces(lines)[k] == first[k];
      SplitPieceChars(lines[0], Delimiters, k, c);
    } else {
      assert Pieces(lines)[k] == Pieces(lines[1..])[k - |first|];
      PiecesChars(lines[1..], k - |first|, c);
      var l :| 0 <= l < |lines[1..]| && c in lines[1..][l];
      assert c in lines[l + 1];
    }
  }

  /** Every clause `Kept` returns is the strip of one of the pieces, and is not empty. */
  lemma {:induction false} KeptFrom(pieces: seq<string>, k: nat)
    requires k < |Kept(pieces)|
    ensures Kept(pieces)[k] != ""
    ensures exists p :: 0 <= p < |pieces| && Kept(pieces)[k] == Strip(pieces[p])
    decreases |pieces|
  {
    var head := if Strip(pieces[0]) == "" then [] else [Strip(pieces[0])];
    if k < |head| {
      assert Kept(pieces)[k] == Strip(pieces[0]);
    } else {
      assert Kept(pieces)[k] == Kept(pieces[1..])[k - |head|];
      KeptFrom(pieces[1..], k - |head|);
      var p :| 0 <= p < |pieces[1..]| && Kept(pieces[1..])[k - |head|] == Strip(pieces[1..][p]);
      assert Kept(pieces)[k] == Strip(pieces[p + 1]);
    }
  }

  /** Every clause is non-empty, stripped, and holds no '\n', ';' or ','. */
  lemma ClausesWellFormed(text: string, k: nat)
    requires k < |Clauses(text)|
    ensures IsClause(Clauses(text)[k])
  {
    var lines := Split(text, LineBreaks);
    var pieces := Pieces(lines);
    KeptFrom(pieces, k);
    var p :| 0 <= p < |pieces| && Clauses(text)[k] == Strip(pieces[p]);
    StripIdempotent(pieces[p]);
    forall ch | ch in Clauses(text)[k]
      ensures ch !in Separators
    {
      StripKeeps(pieces[p], ch);
      PiecesChars(lines, p, ch);
      var l :| 0 <= l < |lines| && ch in lines[l];
      SplitPieceChars(text, LineBreaks, l, ch);
    }
  }

  /** A separator-free text is one clause, or none when it is blank. */
  lemma ClausesAtom(s: string)
    requires forall ch :: ch in s ==> ch !in Separators
    ensures Clauses(s) == if Strip(s) == "" then [] else [Strip(s)]
  {
    SplitAtom(s, LineBreaks);
    SplitAtom(s, Delimiters);
    assert Pieces([s]) == [s];
    assert Kept([s]) == (if Strip(s) == "" then [] else [Strip(s)]) + Kept([]);
  }

  /**
   * Source order: the clauses of a text that a separator cuts in two are the clauses
   * before the separator followed by the clauses after it. With `ClausesAtom` this
   * determines `Clauses` on every text.
   */
  lemma ClausesAtSeparator(a: string, c: char, b: string)
    requires c in Separators
    ensures Clauses(a + [c] + b) == Clauses(a) + Clauses(b)
  {
    if c == '\n' {
      var la, lb := Split(a, LineBreaks), Split(b, LineBreaks);
      SplitAtSeparator(a, c, b, LineBreaks);
      PiecesAppend(la, lb);
      KeptAppend(Pieces(la), Pieces(lb));
    } else {
      PiecesAtDelimiter(a, c, b);
      KeptAppend(Pieces(Split(a, LineBreaks)), Pieces(Split(b, LineBreaks)));
    }
  }

  /** A ';' or ',' does not end a line, yet it still cuts the pieces in two. */
  lemma PiecesAtDelimiter(a: string, c: char, b: string)
    requires c in Delimiters
    ensures Pieces(Split(a + [c] + b, LineBreaks))
         == Pieces(Split(a, LineBreaks)) + Pieces(Split(b, LineBreaks))
  {
    var la, lb := Split(a, LineBreaks), Split(b, LineBreaks);
    var n := |la|;
    LinesAtDelimiter(a, c, b);
    PiecesSplice(la[..n - 1], la[n - 1], c, lb[0], lb[1..]);
    assert la == la[..n - 1] + [la[n - 1]];
    assert lb == [lb[0]] + lb[1..];
  }

  lemma PiecesSingle(x: string)
    ensures Pieces([x]) == Split(x, Delimiters)
  {
    assert [x][1..] == [];
  }

  /** The pieces of a line that a delimiter cuts in two. */
  lemma PiecesSplice(pre: seq<string>, x: string, c: char, y: string, post: seq<string>)
    requires c in Delimiters
    ensures Pieces(pre + [x + [c] + y] + post) == Pieces(pre + [x]) + Pieces([y] + post)
  {
    PiecesCut(pre, x + [c] + y, post);
    SplitAtSeparator(x, c, y, Delimiters);
    PiecesAppend(pre, [x]);
    PiecesSingle(x);
    PiecesCons(y, post);
    Regroup(Pieces(pre), Split(x, Delimiters), Split(y, Delimiters), Pieces(post));
  }

  lemma Regroup(p: seq<string>, a: seq<string>, b: seq<string>, q: seq<string>)
    ensures p + (a + b) + q == (p + a) + (b + q)
  {
  }

  /** The pieces around one line in the middle. */
  lemma PiecesCut(pre: seq<string>, line: string, post: seq<string>)
    ensures Pieces(pre + [line] + post) == Pieces(pre) + Split(line, Delimiters) + Pieces(post)
  {
    PiecesAppend(pre + [line], post);
    PiecesAppend(pre, [line]);
    PiecesSingle(line);
  }

  lemma PiecesCons(line: string, post: seq<string>)
    ensures Pieces([line] + post) == Split(line, Delimiters) + Pieces(post)
  {
    assert ([line] + post)[1..] == post;
  }

  lemma LinesAtDelimiter(a: string, c: char, b: string)
    requires c in Delimiters
    ensures var la, lb := Split(a, LineBreaks), Split(b, LineBreaks);
            Split(a + [c] + b, LineBreaks)
              == la[..|la| - 1] + [la[|la| - 1] + [c] + lb[0]] + lb[1..]
  {
    var la, lb := Split(a, LineBreaks), Split(b, LineBreaks);
    var n := |la|;
    SplitCons(c, b, LineBreaks);
    assert a + [c] + b == a + ([c] + b);
    SplitConcat(a, [c] + b, LineBreaks);
    assert la[n - 1] + ([c] + lb[0]) == la[n - 1] + [c] + lb[0];
  }

  /**
   * Two orders written on one line, separated by ", " as people type them, come
   * out as those two clauses, in order.
   */
  lemma TwoOrdersOnOneLine(first: string, second: string)
    requires IsClause(first) && IsClause(second)
    ensures Clauses(first + ", " + second) == [first, second]
  {
    var rest := [' '] + second;
    assert first + ", " + second == first + [','] + rest;
    ClausesAtSeparator(first, ',', rest);
    ClausesAtom(first);
    forall ch | ch in rest
      ensures ch !in Separators
    {
      assert ch == ' ' || ch in second;
    }
    ClausesAtom(rest);
    assert rest[1..] == second;
    assert TrimLeft(rest) == TrimLeft(second);
  }

  /** What the inner loop keeps of one more piece. */
  lemma KeptStep(pieces: seq<string>, j: nat)
    requires j < |pieces|
    ensures Kept(pieces[..j + 1])
         == Kept(pieces[..j]) + (if Strip(pieces[j]) == "" then [] else [Strip(pieces[j])])
  {
    assert pieces[..j + 1] == pieces[..j] + [pieces[j]];
    KeptAppend(pieces[..j], [pieces[j]]);
  }

  /** What the outer loop keeps of one more line. */
  lemma PiecesStep(lines: seq<string>, i: nat)
    requires i < |lines|
    ensures Kept(Pieces(lines[..i + 1])) == Kept(Pieces(lines[..i])) + Kept(Split(lines[i], Delimiters))
  {
    assert lines[..i + 1] == lines[..i] + [lines[i]];
    PiecesAppend(lines[..i], [lines[i]]);
    PiecesSingle(lines[i]);
    KeptAppend(Pieces(lines[..i]), Split(lines[i], Delimiters));
  }

  lemma ClausesAllWellFormed(text: string)
    ensures forall k :: 0 <= k < |Clauses(text)| ==> IsClause(Clauses(text)[k])
  {
    forall k | 0 <= k < |Clauses(text)|
      ensures IsClause(Clauses(text)[k])
    {
      ClausesWellFormed(text, k);
    }
  }

  /**
   * The nested loops of `handle_message`: for every line, for every ';'/','-piece of it,
   * strip the piece and keep it when it is not empty.
   */
  method Segment(text: string) returns (clauses: seq<string>)
    ensures clauses == Clauses(text)
    ensures forall k :: 0 <= k < |clauses| ==> IsClause(clauses[k])
  {
    var lines := Split(text, LineBreaks);
    clauses := [];
    var i := 0;
    while i < |lines|
      invariant 0 <= i <= |lines|
      invariant clauses == Kept(Pieces(lines[..i]))
    {
      var sublines := Split(lines[i], Delimiters);
      var j := 0;
      while j < |sublines|
        invariant 0 <= j <= |sublines|
        invariant clauses == Kept(Pieces(lines[..i])) + Kept(sublines[..j])
      {
        var subline := Strip(sublines[j]);
        KeptStep(sublines, j);
        if subline != "" {
          clauses := clauses + [subline];
        }
        j := j + 1;
      }
      assert sublines[..j] == sublines;
      PiecesStep(lines, i);
      i := i + 1;
    }
    assert lines[..i] == lines;
    ClausesAllWellFormed(text);
  }
}
