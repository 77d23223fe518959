/** Splitting the argument list of an atom at the commas that are not nested
    inside brackets. The Python rewriters and the studio's atom parser each
    carry their own copy of this scan; the copies differ in which brackets
    nest and in whether a stray closing bracket can take the depth below
    zero, so the scan is written once over a `Nesting` rule. */
module TopLevel {
  import opened Text
  import Seqs

  /** The characters that open and close a nesting level, and whether the
      depth stops at zero when a closing bracket has no partner. */
  datatype Nesting = Nesting(opens: string, closes: string, clamped: bool)

  /** `split_arguments` of the Python rewriters: three kinds of bracket, and
      the depth never goes below zero. */
  const Brackets := Nesting("([{", ")]}", true)

  /** `splitArguments` of the studio: parentheses only, no floor on the depth. */
  const Parens := Nesting("(", ")", false)

  /** A comma never opens or closes a level. */
  predicate CommaFree(n: Nesting) {
    ',' !in n.opens && ',' !in n.closes
  }

  /** The depth after reading one more character. */
  function Step(n: Nesting, depth: int, c: char): int {
    if c in n.opens then depth + 1
    else if c in n.closes then (if n.clamped && depth - 1 < 0 then 0 else depth - 1)
    else depth
  }

  /** The nesting depth after reading `s` from the left. */
  function DepthAfter(n: Nesting, s: string): int {
    if s == [] then 0 else Step(n, DepthAfter(n, s[..|s| - 1]), s[|s| - 1])
  }

  /** With a floor at zero the depth is never negative. */
  lemma {:induction false} ClampedDepth(n: Nesting, s: string)
    requires n.clamped
    ensures DepthAfter(n, s) >= 0
  {
    if s != [] {
      ClampedDepth(n, s[..|s| - 1]);
    }
  }

  /** A comma read at depth zero separates two arguments. */
  predicate Separates(n: Nesting, before: string, c: char) {
    c == ',' && DepthAfter(n, before) == 0
  }

  /** The raw pieces of `s` between separating commas, left to right; a
      text without separators is one piece. */
  function Pieces(n: Nesting, s: string): (r: seq<string>)
    ensures r != []
  {
    if s == [] then [[]]
    else
      var init, c := s[..|s| - 1], s[|s| - 1];
      var p := Pieces(n, init);
      if Separates(n, init, c) then p + [[]]
      else p[..|p| - 1] + [p[|p| - 1] + [c]]
  }

  /** How many commas of `s` separate. */
  function SeparatorCount(n: Nesting, s: string): nat {
    if s == [] then 0
    else SeparatorCount(n, s[..|s| - 1]) + (if Separates(n, s[..|s| - 1], s[|s| - 1]) then 1 else 0)
  }

  /** Nothing is lost or added: the pieces, joined with commas, are the text. */
  lemma {:induction false} PiecesJoin(n: Nesting, s: string)
    ensures Join(",", Pieces(n, s)) == s
  {
    if s != [] {
      var init, c := s[..|s| - 1], s[|s| - 1];
      var p := Pieces(n, init);
      PiecesJoin(n, init);
      assert s == init + [c];
      if Separates(n, init, c) {
        JoinSnoc(",", p, []);
      } else {
        JoinExtendLast(",", p, [c]);
      }
    }
  }

  /** Only separating commas split: there is one piece more than there are
      commas read at depth zero. */
  lemma {:induction false} PiecesCount(n: Nesting, s: string)
    ensures |Pieces(n, s)| == SeparatorCount(n, s) + 1
  {
    if s != [] {
      PiecesCount(n, s[..|s| - 1]);
    }
  }

  /** The arguments: the pieces, stripped, with an empty last piece left out
      (an empty text has no arguments, and `a,` has one). */
  function Arguments(n: Nesting, s: string): (r: seq<string>)
    ensures var p := Pieces(n, s);
      (|r| == |p| || (|r| == |p| - 1 && p[|p| - 1] == []))
      && forall i :: 0 <= i < |r| ==> r[i] == Strip(p[i])
  {
    var p := Pieces(n, s);
    Seqs.Map(if p[|p| - 1] == [] then p[..|p| - 1] else p, Strip)
  }

  /** Pieces that do not end with an empty one are all arguments. */
  lemma ArgumentsOfPieces(n: Nesting, s: string, ps: seq<string>)
    requires Pieces(n, s) == ps && ps[|ps| - 1] != []
    ensures Arguments(n, s) == Seqs.Map(ps, Strip)
  {
  }

  /** A final empty piece is not an argument. */
  lemma ArgumentsOfTrailingComma(n: Nesting, s: string, ps: seq<string>)
    requires Pieces(n, s) == ps + [[]]
    ensures Arguments(n, s) == Seqs.Map(ps, Strip)
  {
    assert (ps + [[]])[..|ps|] == ps;
  }

  /** How one more character changes the pieces and the depth, with the
      pieces read so far split into the finished ones and the current one. */
  lemma ScanStep(n: Nesting, s: string, i: nat, done: seq<string>, current: string)
    requires i < |s|
    requires Pieces(n, s[..i]) == done + [current]
    ensures DepthAfter(n, s[..i + 1]) == Step(n, DepthAfter(n, s[..i]), s[i])
    ensures Separates(n, s[..i], s[i]) ==> Pieces(n, s[..i + 1]) == done + [current] + [[]]
    ensures !Separates(n, s[..i], s[i]) ==> Pieces(n, s[..i + 1]) == done + [current + [s[i]]]
  {
    assert s[..i + 1][..i] == s[..i] && s[..i + 1][i] == s[i];
    var p := done + [current];
    assert p[..|p| - 1] == done && p[|p| - 1] == current;
  }

  /** `split_arguments` / `splitArguments`: one pass over the characters
      with a running depth and the piece read so far. */
  method SplitArguments(n: Nesting, s: string) returns (args: seq<string>)
    requires CommaFree(n)
    ensures args == Arguments(n, s)
  {
    args := [];
    var depth := 0;
    var current := "";
    ghost var done: seq<string> := [];
    for i := 0 to |s|
      invariant depth == DepthAfter(n, s[..i])
      invariant Pieces(n, s[..i]) == done + [current]
      invariant args == Seqs.Map(done, Strip)
    {
      var c := s[i];
      ScanStep(n, s, i, done, current);
      if c == ',' && depth == 0 {
        Seqs.MapSnoc(done, current, Strip);
        args := args + [Strip(current)];
        done := done + [current];
        current := "";
      } else {
        current := current + [c];
        if c in n.opens {
          depth := depth + 1;
        } else if c in n.closes {
          depth := if n.clamped && depth - 1 < 0 then 0 else depth - 1;
        }
      }
    }
    assert s[..|s|] == s;
    if current != [] {
      Seqs.MapSnoc(done, current, Strip);
      args := args + [Strip(current)];
      done := done + [current];
    }
    assert Pieces(n, s)[..|Pieces(n, s)| - 1] == done || Pieces(n, s) == done;
  }

  /** Reading one more character. */
  lemma PiecesSnoc(n: Nesting, s: string, c: char)
    ensures DepthAfter(n, s + [c]) == Step(n, DepthAfter(n, s), c)
    ensures var p := Pieces(n, s);
      Pieces(n, s + [c]) == if Separates(n, s, c) then p + [[]] else p[..|p| - 1] + [p[|p| - 1] + [c]]
  {
    assert (s + [c])[..|s|] == s;
  }

  /** Text with no comma and no bracket of any kind. */
  predicate Plain(x: string) {
    forall i :: 0 <= i < |x| ==> x[i] !in ",()[]{}"
  }

  lemma PlainChar(n: Nesting, c: char)
    requires n == Brackets || n == Parens
    requires c !in ",()[]{}"
    ensures c != ',' && c !in n.opens && c !in n.closes
  {
  }

  /** Plain text neither changes the depth nor separates: it extends the
      last piece. */
  lemma PiecesPlain(n: Nesting, t: string, x: string)
    requires n == Brackets || n == Parens
    requires Plain(x)
    ensures DepthAfter(n, t + x) == DepthAfter(n, t)
    ensures var p := Pieces(n, t);
      Pieces(n, t + x) == p[..|p| - 1] + [p[|p| - 1] + x]
  {
    DepthPlain(n, t, x);
    assert ',' !in x by {
      forall i | 0 <= i < |x| ensures x[i] != ',' {
        assert x[i] !in ",()[]{}";
      }
    }
    assert (t + x)[..|t|] == t && (t + x)[|t|..] == x;
    LastPieceGrows(n, t + x, |t|);
  }

  /** Plain text leaves the depth where it was. */
  lemma {:induction false} DepthPlain(n: Nesting, t: string, x: string)
    requires n == Brackets || n == Parens
    requires Plain(x)
    ensures DepthAfter(n, t + x) == DepthAfter(n, t)
    decreases |x|
  {
    if x == [] {
      assert t + x == t;
    } else {
      var y, c := x[..|x| - 1], x[|x| - 1];
      assert Plain(y) by {
        forall i | 0 <= i < |y| ensures y[i] !in ",()[]{}" {
          assert y[i] == x[i];
        }
      }
      DepthPlain(n, t, y);
      assert c != ',' && c !in n.opens && c !in n.closes by {
        PlainChar(n, c);
      }
      assert (t + x)[..|t + x| - 1] == t + y;
    }
  }

  /** Text without a comma joins the last piece. */
  lemma {:induction false} LastPieceGrows(n: Nesting, s: string, k: nat)
    requires k <= |s| && ',' !in s[k..]
    ensures var p := Pieces(n, s[..k]);
      Pieces(n, s) == p[..|p| - 1] + [p[|p| - 1] + s[k..]]
    decreases |s|
  {
    var p := Pieces(n, s[..k]);
    var last := p[|p| - 1];
    if |s| == k {
      assert s[..k] == s && s[k..] == [];
      assert last + [] == last;
    } else {
      var init, c := s[..|s| - 1], s[|s| - 1];
      assert init[..k] == s[..k];
      assert s[k..] == init[k..] + [c];
      LastPieceGrows(n, init, k);
      assert c != ',' by {
        assert c == s[k..][|s| - k - 1];
      }
      var q := Pieces(n, init);
      assert q[..|q| - 1] == p[..|p| - 1] && q[|q| - 1] == last + init[k..];
      Seqs.Associative(last, init[k..], [c]);
    }
  }

  /** A stray `)` before a comma: the Python copy floors the depth at zero
      and splits at the comma; the studio's copy is then at depth -1 and
      keeps the comma inside one argument. */
  lemma StrayCloseSplitsOnlyWhenClamped(x: string)
    requires Plain(x)
    ensures Pieces(Brackets, ")," + x) == [")", x]
    ensures Pieces(Parens, ")," + x) == [")," + x]
  {
    StrayCloseBrackets(x);
    StrayCloseParens(x);
  }

  lemma StrayCloseBrackets(x: string)
    requires Plain(x)
    ensures Pieces(Brackets, ")," + x) == [")", x]
  {
    var s2: string := [')', ','];
    StrayCloseBracketsComma();
    assert Pieces(Brackets, s2 + x) == [[')'], x] by {
      PiecesPlain(Brackets, s2, x);
      assert [] + x == x;
    }
    assert s2 + x == ")," + x;
  }

  /** In the Python copy the comma after a stray `)` is at depth zero. */
  lemma StrayCloseBracketsComma()
    ensures Pieces(Brackets, [')', ',']) == [[')'], []]
  {
    var s1: string := [')'];
    assert DepthAfter(Brackets, s1) == 0 && Pieces(Brackets, s1) == [s1] by {
      assert ')' !in Brackets.opens && ')' in Brackets.closes;
      PiecesSnoc(Brackets, [], ')');
      assert [] + [')'] == s1;
    }
    PiecesSnoc(Brackets, s1, ',');
    assert s1 + [','] == [')', ','];
  }

  lemma StrayCloseParens(x: string)
    requires Plain(x)
    ensures Pieces(Parens, ")," + x) == [")," + x]
  {
    var s2: string := [')', ','];
    StrayCloseParensComma();
    PiecesPlain(Parens, s2, x);
    assert s2 + x == ")," + x;
  }

  /** In the studio's copy the comma after a stray `)` is at depth -1. */
  lemma StrayCloseParensComma()
    ensures Pieces(Parens, [')', ',']) == [[')', ',']]
  {
    var s1: string := [')'];
    assert DepthAfter(Parens, s1) == -1 && Pieces(Parens, s1) == [s1] by {
      assert ')' !in Parens.opens && ')' in Parens.closes;
      PiecesSnoc(Parens, [], ')');
      assert [] + [')'] == s1;
    }
    PiecesSnoc(Parens, s1, ',');
    assert s1 + [','] == [')', ','];
  }

  /** Square brackets nest in the Python copy only: `[x,y]` is one argument
      there and two for the studio. */
  lemma SquareBracketsNestOnlyInPython(x: string, y: string)
    requires Plain(x) && Plain(y)
    ensures Pieces(Brackets, "[" + x + "," + y + "]") == ["[" + x + "," + y + "]"]
    ensures Pieces(Parens, "[" + x + "," + y + "]") == ["[" + x, y + "]"]
  {
    SquareBrackets(x, y);
    SquareParens(x, y);
  }

  lemma SquareBrackets(x: string, y: string)
    requires Plain(x) && Plain(y)
    ensures Pieces(Brackets, "[" + x + "," + y + "]") == ["[" + x + "," + y + "]"]
  {
    var s4 := ['['] + x + [','] + y;
    SquareBracketsOpen(x, y);
    assert Pieces(Brackets, s4 + [']']) == [s4 + [']']] by {
      PiecesSnoc(Brackets, s4, ']');
    }
    assert s4 + [']'] == "[" + x + "," + y + "]";
  }

  /** Before the closing `]`, the Python copy is still one level deep. */
  lemma SquareBracketsOpen(x: string, y: string)
    requires Plain(x) && Plain(y)
    ensures Pieces(Brackets, ['['] + x + [','] + y) == [['['] + x + [','] + y]
  {
    var s1: string := ['['];
    var s2 := s1 + x;
    var s3 := s2 + [','];
    assert DepthAfter(Brackets, s1) == 1 && Pieces(Brackets, s1) == [s1] by {
      assert '[' in Brackets.opens;
      PiecesSnoc(Brackets, [], '[');
      assert [] + ['['] == s1;
    }
    assert DepthAfter(Brackets, s2) == 1 && Pieces(Brackets, s2) == [s2] by {
      PiecesPlain(Brackets, s1, x);
    }
    assert Pieces(Brackets, s3) == [s3] by {
      PiecesSnoc(Brackets, s2, ',');
    }
    assert Pieces(Brackets, s3 + y) == [s3 + y] by {
      PiecesPlain(Brackets, s3, y);
      assert [s3][..0] == [];
    }
  }

  lemma SquareParens(x: string, y: string)
    requires Plain(x) && Plain(y)
    ensures Pieces(Parens, "[" + x + "," + y + "]") == ["[" + x, y + "]"]
  {
    var s2 := ['['] + x;
    var s4 := s2 + [','] + y;
    SquareParensOpen(x, y);
    assert Pieces(Parens, s4 + [']']) == [s2, y + [']']] by {
      assert ']' !in Parens.opens && ']' !in Parens.closes;
      PiecesSnoc(Parens, s4, ']');
      var p := [s2, y];
      assert p[..|p| - 1] + [p[|p| - 1] + [']']] == [s2, y + [']']];
    }
    assert s2 == "[" + x && y + [']'] == y + "]";
    assert s4 + [']'] == "[" + x + "," + y + "]";
  }

  /** In the studio's copy `[` does not nest, so the comma separates. */
  lemma SquareParensOpen(x: string, y: string)
    requires Plain(x) && Plain(y)
    ensures Pieces(Parens, ['['] + x + [','] + y) == [['['] + x, y]
  {
    var s2 := ['['] + x;
    var s3 := s2 + [','];
    SquareParensComma(x);
    assert Pieces(Parens, s3 + y) == [s2, y] by {
      PiecesPlain(Parens, s3, y);
      assert [s2, []][..1] == [s2] && [] + y == y;
    }
  }

  lemma SquareParensComma(x: string)
    requires Plain(x)
    ensures Pieces(Parens, ['['] + x + [',']) == [['['] + x, []]
  {
    var s1: string := ['['];
    var s2 := s1 + x;
    assert DepthAfter(Parens, s1) == 0 && Pieces(Parens, s1) == [s1] by {
      assert '[' !in Parens.opens && '[' !in Parens.closes;
      PiecesSnoc(Parens, [], '[');
      assert [] + ['['] == s1;
    }
    assert DepthAfter(Parens, s2) == 0 && Pieces(Parens, s2) == [s2] by {
      PiecesPlain(Parens, s1, x);
    }
    PiecesSnoc(Parens, s2, ',');
  }
  /** A parenthesised group with no parenthesis inside, such as `(1,5)`. */
  predicate Group(x: string) {
    |x| >= 2 && x[0] == '(' && x[|x| - 1] == ')'
    && '(' !in x[1..|x| - 1] && ')' !in x[1..|x| - 1]
  }

  /** An argument the studio's scan keeps whole: plain text or a group. */
  predicate Simple(x: string) {
    Plain(x) || Group(x)
  }

  /** Inside one level of parentheses, text without parentheses keeps the
      depth and joins the last piece, commas included. */
  lemma {:induction false} PiecesNested(u: string, y: string)
    requires DepthAfter(Parens, u) == 1 && '(' !in y && ')' !in y
    ensures DepthAfter(Parens, u + y) == 1
    ensures var p := Pieces(Parens, u);
      Pieces(Parens, u + y) == p[..|p| - 1] + [p[|p| - 1] + y]
    decreases |y|
  {
    var p := Pieces(Parens, u);
    if y == [] {
      assert u + y == u;
      assert p[|p| - 1] + y == p[|p| - 1];
    } else {
      var init, c := y[..|y| - 1], y[|y| - 1];
      assert y == init + [c];
      assert '(' !in init && ')' !in init && c != '(' && c != ')' by {
        assert c in y;
        assert forall d :: d in init ==> d in y;
      }
      PiecesNested(u, init);
      JoinsLast(u + init, c, p[..|p| - 1], p[|p| - 1] + init);
      Seqs.Associative(u, init, [c]);
      Seqs.Associative(p[|p| - 1], init, [c]);
    }
  }

  /** A character that does not separate joins the last piece. */
  lemma JoinsLast(v: string, c: char, front: seq<string>, last: string)
    requires Pieces(Parens, v) == front + [last] && !Separates(Parens, v, c)
    ensures DepthAfter(Parens, v + [c]) == Step(Parens, DepthAfter(Parens, v), c)
    ensures Pieces(Parens, v + [c]) == front + [last + [c]]
  {
    PiecesSnoc(Parens, v, c);
    var q := front + [last];
    assert q[..|q| - 1] == front && q[|q| - 1] == last;
  }

  /** A group read at depth zero joins the last piece and leaves the depth
      at zero. */
  lemma PiecesGroup(t: string, x: string)
    requires DepthAfter(Parens, t) == 0 && Group(x)
    ensures DepthAfter(Parens, t + x) == 0
    ensures var p := Pieces(Parens, t);
      Pieces(Parens, t + x) == p[..|p| - 1] + [p[|p| - 1] + x]
  {
    var p := Pieces(Parens, t);
    var inner := x[1..|x| - 1];
    PiecesGroupParts(t, inner);
    GroupAfter(t, x);
    GroupAfter(p[|p| - 1], x);
  }

  /** The group `(inner)` read at depth zero, one part at a time. */
  lemma PiecesGroupParts(t: string, inner: string)
    requires DepthAfter(Parens, t) == 0 && '(' !in inner && ')' !in inner
    ensures DepthAfter(Parens, t + ['('] + inner + [')']) == 0
    ensures var p := Pieces(Parens, t);
      Pieces(Parens, t + ['('] + inner + [')']) == p[..|p| - 1] + [p[|p| - 1] + ['('] + inner + [')']]
  {
    var p := Pieces(Parens, t);
    var front, last := p[..|p| - 1], p[|p| - 1];
    var u := t + ['('];
    JoinsLast(t, '(', front, last);
    PiecesNested(u, inner);
    var pu := front + [last + ['(']];
    assert pu[..|pu| - 1] == front && pu[|pu| - 1] == last + ['('];
    JoinsLast(u + inner, ')', front, last + ['('] + inner);
  }

  /** A group written after some text, one part at a time. */
  lemma GroupAfter(t: string, x: string)
    requires Group(x)
    ensures t + x == t + ['('] + x[1..|x| - 1] + [')']
  {
    var inner := x[1..|x| - 1];
    assert x == ['('] + inner + [')'];
    Seqs.Associative(t, ['('] + inner, [')']);
    Seqs.Associative(t, ['('], inner);
  }

  /** A simple argument read at depth zero joins the last piece and leaves
      the depth at zero. */
  lemma PiecesSimple(t: string, x: string)
    requires DepthAfter(Parens, t) == 0 && Simple(x)
    ensures DepthAfter(Parens, t + x) == 0
    ensures var p := Pieces(Parens, t);
      Pieces(Parens, t + x) == p[..|p| - 1] + [p[|p| - 1] + x]
  {
    if Plain(x) {
      PiecesPlain(Parens, t, x);
    } else {
      PiecesGroup(t, x);
    }
  }

  /** Simple arguments joined with commas are split back into exactly those
      arguments by the studio's scan. */
  lemma {:induction false} PiecesOfSimple(xs: seq<string>)
    requires xs != [] && forall i :: 0 <= i < |xs| ==> Simple(xs[i])
    ensures DepthAfter(Parens, Join(",", xs)) == 0
    ensures Pieces(Parens, Join(",", xs)) == xs
  {
    var last := xs[|xs| - 1];
    if |xs| == 1 {
      PiecesSimple([], last);
      assert [] + last == last && Join(",", xs) == last;
      assert xs == [[] + last];
    } else {
      var init := xs[..|xs| - 1];
      assert xs == init + [last];
      PiecesOfSimple(init);
      JoinSnoc(",", init, last);
      var t := Join(",", init);
      PiecesSnoc(Parens, t, ',');
      assert t + "," == t + [','];
      PiecesSimple(t + ",", last);
      var p := init + [[]];
      assert p[..|p| - 1] == init && p[|p| - 1] + last == last;
    }
  }
}
