/**
 * The parts of Python's `str` that the order pipeline relies on: `isspace`
 * (which is also what `\s` matches in a `re` pattern over `str`), `strip()`
 * and splitting on a set of single-character separators (`str.split('\n')`
 * and `re.split(r'[;,]', ...)`).
 */
module Text {

  /** Python's `str.isspace()` for one character. */
  predicate IsSpace(c: char)
  {
    ('\t' <= c <= '\r') || ('\U{1C}' <= c <= '\U{1F}') || c == ' ' ||
    c == '\U{85}' || c == '\U{A0}' || c == '\U{1680}' ||
    ('\U{2000}' <= c <= '\U{200A}') || c == '\U{2028}' || c == '\U{2029}' ||
    c == '\U{202F}' || c == '\U{205F}' || c == '\U{3000}'
  }

  predicate AllSpace(s: string)
  {
    forall i :: 0 <= i < |s| ==> IsSpace(s[i])
  }

  /** Removes leading whitespace. */
  function TrimLeft(s: string): string
    decreases |s|
  {
    if s != [] && IsSpace(s[0]) then TrimLeft(s[1..]) else s
  }

  /** Removes trailing whitespace. */
  function TrimRight(s: string): string
    decreases |s|
  {
    if s != [] && IsSpace(s[|s| - 1]) then TrimRight(s[..|s| - 1]) else s
  }

  /** `TrimLeft` cuts a whitespace prefix and stops at the first other character. */
  lemma {:induction false} TrimLeftSlice(s: string)
    ensures var r := TrimLeft(s);
            |r| <= |s| && r == s[|s| - |r|..] && AllSpace(s[..|s| - |r|]) &&
            (r == [] || !IsSpace(r[0]))
    decreases |s|
  {
    if s != [] && IsSpace(s[0]) {
      TrimLeftSlice(s[1..]);
      var r := TrimLeft(s[1..]);
      assert s[1..][..|s| - 1 - |r|] == s[1..|s| - |r|];
    }
  }

  /** `TrimRight` cuts a whitespace suffix and stops at the last other character. */
  lemma {:induction false} TrimRightSlice(s: string)
    ensures var r := TrimRight(s);
            |r| <= |s| && r == s[..|r|] && AllSpace(s[|r|..]) &&
            (r == [] || !IsSpace(r[|r| - 1]))
    decreases |s|
  {
    if s != [] && IsSpace(s[|s| - 1]) {
      TrimRightSlice(s[..|s| - 1]);
      var r := TrimRight(s[..|s| - 1]);
      assert s[|r|..] == s[..|s| - 1][|r|..] + [s[|s| - 1]];
    }
  }

  /** Python's `str.strip()` with no argument. */
  function Strip(s: string): (r: string)
  {
    TrimRight(TrimLeft(s))
  }

  /** Where `Strip(s)` starts inside `s`. */
  function StripStart(s: string): nat
  {
    TrimLeftSlice(s);
    |s| - |TrimLeft(s)|
  }

  /** `Strip(s)` is the slice of `s` that starts at `StripStart(s)`, with only whitespace
      cut off either side, and it neither starts nor ends with whitespace. */
  lemma StripSlice(s: string)
    ensures StripStart(s) + |Strip(s)| <= |s|
    ensures Strip(s) == s[StripStart(s)..StripStart(s) + |Strip(s)|]
    ensures AllSpace(s[..StripStart(s)]) && AllSpace(s[StripStart(s) + |Strip(s)|..])
    ensures Strip(s) == [] || (!IsSpace(Strip(s)[0]) && !IsSpace(Strip(s)[|Strip(s)| - 1]))
  {
    var l := TrimLeft(s);
    var r := TrimRight(l);
    TrimLeftSlice(s);
    TrimRightSlice(l);
    var i := |s| - |l|;
    var j := i + |r|;
    assert r == s[i..j];
    assert s[j..] == l[|r|..];
  }

  /** Stripping twice is stripping once. */
  lemma StripIdempotent(s: string)
    ensures Strip(Strip(s)) == Strip(s)
  {
    StripSlice(s);
    StripFixed(Strip(s));
  }

  /** A text that neither starts nor ends with whitespace is its own strip. */
  lemma StripFixed(s: string)
    requires s == [] || (!IsSpace(s[0]) && !IsSpace(s[|s| - 1]))
    ensures Strip(s) == s
  {
    assert TrimLeft(s) == s;
  }

  lemma {:induction false} TrimLeftAllSpace(s: string)
    requires AllSpace(s)
    ensures TrimLeft(s) == []
    decreases |s|
  {
    if s != [] {
      TrimLeftAllSpace(s[1..]);
    }
  }

  /** `Strip(s)` is empty exactly when `s` is all whitespace. */
  lemma StripEmpty(s: string)
    ensures Strip(s) == [] <==> AllSpace(s)
  {
    StripSlice(s);
    if AllSpace(s) {
      TrimLeftAllSpace(s);
    }
    if Strip(s) == [] {
      var i := StripStart(s);
      assert s == s[..i] + s[i..];
    }
  }

  /** Stripping never adds a character: a character of `Strip(s)` is one of `s`. */
  lemma StripKeeps(s: string, c: char)
    requires c in Strip(s)
    ensures c in s
  {
    StripSlice(s);
    var k :| 0 <= k < |Strip(s)| && Strip(s)[k] == c;
    assert s[StripStart(s) + k] == c;
  }

  /**
   * Splits `s` at every character in `seps`, as Python's `str.split(sep)` does for one
   * separator and `re.split('[...]', s)` for a class of them: `n` separators give `n + 1`
   * pieces, empty pieces included.
   */
  function Split(s: string, seps: set<char>): (pieces: seq<string>)
    ensures |pieces| >= 1
    decreases |s|
  {
    if s == [] then [""]
    else
      var rest := Split(s[1..], seps);
      if s[0] in seps then [""] + rest
      else [[s[0]] + rest[0]] + rest[1..]
  }

  /** One step of `Split`: the first character either ends the first piece or joins it. */
  lemma SplitCons(h: char, r: string, seps: set<char>)
    ensures var rest := Split(r, seps);
            Split([h] + r, seps) == if h in seps then [""] + rest else [[h] + rest[0]] + rest[1..]
  {
    assert ([h] + r)[0] == h && ([h] + r)[1..] == r;
  }

  /** Splitting a concatenation: the last piece of the first text and the first piece of
      the second text run together. */
  lemma {:induction false} SplitConcat(x: string, y: string, seps: set<char>)
    ensures var sx, sy := Split(x, seps), Split(y, seps);
            Split(x + y, seps) == sx[..|sx| - 1] + [sx[|sx| - 1] + sy[0]] + sy[1..]
    decreases |x|
  {
    var sx, sy := Split(x, seps), Split(y, seps);
    if x == [] {
      assert x + y == y && sx == [""];
      assert sx[..0] == [] && sx[0] + sy[0] == sy[0];
      assert sy == [sy[0]] + sy[1..];
    } else {
      var h, t := x[0], x[1..];
      assert x == [h] + t && x + y == [h] + (t + y);
      SplitConcat(t, y, seps);
      SplitCons(h, t, seps);
      SplitCons(h, t + y, seps);
      var rx := Split(t, seps);
      GlueStep(h, h in seps, rx, sy);
    }
  }

  /** The sequence algebra behind one step of `SplitConcat`. */
  lemma GlueStep(h: char, isSep: bool, rx: seq<string>, sy: seq<string>)
    requires |rx| >= 1 && |sy| >= 1
    ensures var rest := rx[..|rx| - 1] + [rx[|rx| - 1] + sy[0]] + sy[1..];
            var sx := if isSep then [""] + rx else [[h] + rx[0]] + rx[1..];
            (if isSep then [""] + rest else [[h] + rest[0]] + rest[1..])
              == sx[..|sx| - 1] + [sx[|sx| - 1] + sy[0]] + sy[1..]
  {
    var rest := rx[..|rx| - 1] + [rx[|rx| - 1] + sy[0]] + sy[1..];
    if isSep {
      var sx := [""] + rx;
      assert sx[..|sx| - 1] == [""] + rx[..|rx| - 1];
    } else if |rx| == 1 {
      var sx := [[h] + rx[0]] + rx[1..];
      assert rest[0] == rx[0] + sy[0] && rest[1..] == sy[1..];
      assert sx == [[h] + rx[0]] && sx[..0] == [];
      assert [h] + (rx[0] + sy[0]) == [h] + rx[0] + sy[0];
    } else {
      var sx := [[h] + rx[0]] + rx[1..];
      assert rest[0] == rx[0];
      assert rest[1..] == rx[1..|rx| - 1] + [rx[|rx| - 1] + sy[0]] + sy[1..];
      assert sx[..|sx| - 1] == [[h] + rx[0]] + rx[1..|rx| - 1];
    }
  }

  /** Every character of a piece is a character of the text, and not a separator. */
  lemma {:induction false} SplitPieceChars(s: string, seps: set<char>, k: nat, c: char)
    requires k < |Split(s, seps)| && c in Split(s, seps)[k]
    ensures c in s && c !in seps
    decreases |s|
  {
    if s != [] {
      assert s == [s[0]] + s[1..];
      if s[0] in seps {
        SplitPieceChars(s[1..], seps, k - 1, c);
      } else if k == 0 {
        if c != s[0] {
          SplitPieceChars(s[1..], seps, 0, c);
        }
      } else {
        SplitPieceChars(s[1..], seps, k, c);
      }
    }
  }

  /** Joins pieces with a one-character separator, like Python's `sep.join(pieces)`. */
  function Join(pieces: seq<string>, sep: char): string
  {
    if pieces == [] then ""
    else if |pieces| == 1 then pieces[0]
    else pieces[0] + [sep] + Join(pieces[1..], sep)
  }

  /** Splitting on one separator is undone by joining with it. */
  lemma {:induction false} SplitJoin(s: string, sep: char)
    ensures Join(Split(s, {sep}), sep) == s
    decreases |s|
  {
    if s != [] {
      var rest := Split(s[1..], {sep});
      SplitJoin(s[1..], sep);
      assert s == [s[0]] + s[1..];
      var pieces := Split(s, {sep});
      if s[0] == sep {
        assert pieces == [""] + rest;
        assert pieces[1..] == rest;
      } else {
        assert pieces == [[s[0]] + rest[0]] + rest[1..];
        if |rest| > 1 {
          assert pieces[1..] == rest[1..];
        }
      }
    }
  }

  /** A separator splits the text into the pieces before it followed by the pieces after it. */
  lemma {:induction false} SplitAtSeparator(a: string, c: char, b: string, seps: set<char>)
    requires c in seps
    ensures Split(a + [c] + b, seps) == Split(a, seps) + Split(b, seps)
    decreases |a|
  {
    var s := a + [c] + b;
    if a == [] {
      assert s[0] == c && s[1..] == b;
    } else {
      assert s[0] == a[0] && s[1..] == a[1..] + [c] + b;
      SplitAtSeparator(a[1..], c, b, seps);
      var ra := Split(a[1..], seps);
      var rest := Split(s[1..], seps);
      assert rest == ra + Split(b, seps);
      if a[0] !in seps {
        assert rest[0] == ra[0];
        assert rest[1..] == ra[1..] + Split(b, seps);
      }
    }
  }

  /** Text without separators and the text after it join into the first piece. */
  lemma {:induction false} SplitGlue(a: string, b: string, seps: set<char>)
    requires forall c :: c in a ==> c !in seps
    ensures Split(a + b, seps) == [a + Split(b, seps)[0]] + Split(b, seps)[1..]
    decreases |a|
  {
    if a == [] {
      var sb := Split(b, seps);
      assert a + b == b && a + sb[0] == sb[0];
      assert sb == [sb[0]] + sb[1..];
    } else {
      var s := a + b;
      assert s[0] == a[0] && s[1..] == a[1..] + b;
      assert forall c :: c in a[1..] ==> c in a;
      SplitGlue(a[1..], b, seps);
      var rest := Split(s[1..], seps);
      var sb := Split(b, seps);
      assert rest == [a[1..] + sb[0]] + sb[1..];
      assert a[0] in a;
      assert Split(s, seps) == [[a[0]] + rest[0]] + rest[1..];
      assert [a[0]] + (a[1..] + sb[0]) == a + sb[0];
    }
  }

  /** Splitting a text that holds no separator gives the text itself. */
  lemma SplitAtom(s: string, seps: set<char>)
    requires forall c :: c in s ==> c !in seps
    ensures Split(s, seps) == [s]
  {
    SplitGlue(s, "", seps);
    assert s + "" == s;
  }
}
