/** String helpers shared by the line-oriented rewriters and by the studio:
    whitespace stripping, prefix and suffix tests, substring search, line
    splitting, whitespace tokenisation and decimal integers.

    Whitespace is the six ASCII whitespace characters; a line ends at '\n'. */
module Text {
  import opened Wrappers
  import Seqs

  predicate IsSpace(c: char) {
    c == ' ' || c == '\t' || c == '\n' || c == '\r' || c == '\U{0B}' || c == '\U{0C}'
  }

  predicate NoSpace(s: string) {
    forall i :: 0 <= i < |s| ==> !IsSpace(s[i])
  }

  predicate StartsWith(s: string, p: string) {
    |p| <= |s| && s[..|p|] == p
  }

  predicate EndsWith(s: string, p: string) {
    |p| <= |s| && s[|s| - |p|..] == p
  }

  /** Python `lstrip()`: `s` without its leading whitespace. */
  function LStrip(s: string): (r: string)
    ensures |r| <= |s|
    ensures r == [] || !IsSpace(r[0])
  {
    if s != [] && IsSpace(s[0]) then LStrip(s[1..]) else s
  }

  /** What `LStrip` keeps is a suffix of its input. */
  lemma {:induction false} LStripSuffix(s: string)
    ensures LStrip(s) == s[|s| - |LStrip(s)|..]
  {
    if s != [] && IsSpace(s[0]) {
      LStripSuffix(s[1..]);
    }
  }

  /** Everything `LStrip` removes is whitespace. */
  lemma {:induction false} LStripDropsSpace(s: string)
    ensures forall i :: 0 <= i < |s| - |LStrip(s)| ==> IsSpace(s[i])
  {
    if s != [] && IsSpace(s[0]) {
      LStripDropsSpace(s[1..]);
      forall i | 1 <= i < |s| - |LStrip(s)|
        ensures IsSpace(s[i])
      {
        assert s[i] == s[1..][i - 1];
      }
    }
  }

  /** Python `rstrip()`: `s` without its trailing whitespace. */
  function RStrip(s: string): (r: string)
    ensures |r| <= |s| && r == s[..|r|]
    ensures r == [] || !IsSpace(r[|r| - 1])
  {
    if s != [] && IsSpace(s[|s| - 1]) then RStrip(s[..|s| - 1]) else s
  }

  /** Everything `RStrip` removes is whitespace. */
  lemma {:induction false} RStripDropsSpace(s: string)
    ensures forall i :: |RStrip(s)| <= i < |s| ==> IsSpace(s[i])
  {
    if s != [] && IsSpace(s[|s| - 1]) {
      RStripDropsSpace(s[..|s| - 1]);
      forall i | |RStrip(s)| <= i < |s| - 1
        ensures IsSpace(s[i])
      {
        assert s[i] == s[..|s| - 1][i];
      }
    }
  }

  /** Python `strip()` and JavaScript `trim()`. */
  function Strip(s: string): (r: string)
    ensures r == [] || (!IsSpace(r[0]) && !IsSpace(r[|r| - 1]))
  {
    RStrip(LStrip(s))
  }

  /** Stripping text that has no whitespace at either end changes nothing. */
  lemma StripTrimmed(s: string)
    requires s == [] || (!IsSpace(s[0]) && !IsSpace(s[|s| - 1]))
    ensures Strip(s) == s
  {
  }

  /** Everything `RStrip` removes is whitespace at the end: text that ends in a
      non-whitespace character is kept whole in front of the stripped rest. */
  lemma {:induction false} RStripAppend(p: string, q: string)
    requires p != [] && !IsSpace(p[|p| - 1])
    ensures RStrip(p + q) == p + RStrip(q)
    decreases |q|
  {
    if q != [] && IsSpace(q[|q| - 1]) {
      assert (p + q)[..|p + q| - 1] == p + q[..|q| - 1];
      RStripAppend(p, q[..|q| - 1]);
    } else if q == [] {
      assert p + q == p;
    }
  }

  /** Python `t in s` for strings. */
  predicate Contains(s: string, t: string)
    decreases |s|
  {
    StartsWith(s, t) || (s != [] && Contains(s[1..], t))
  }

  /** Python `s.find(t)`: the first position where `t` occurs in `s`. */
  function Find(s: string, t: string): (r: Option<nat>)
    ensures r.Some? <==> Contains(s, t)
    ensures r.Some? ==> r.value + |t| <= |s| && s[r.value..r.value + |t|] == t
    ensures r.Some? ==> forall j :: 0 <= j < r.value ==> !StartsWith(s[j..], t)
    decreases |s|
  {
    if StartsWith(s, t) then Some(0)
    else if s == [] then None
    else
      match Find(s[1..], t)
      case Some(i) =>
        assert forall j :: 1 <= j <= i ==> s[j..] == s[1..][j - 1..];
        Some(i + 1)
      case None => None
  }

  /** Python `s.split(sep, 1)` when `sep` occurs: the text before the first
      occurrence of `sep` and the text after it. */
  function SplitOnce(s: string, sep: string): (r: Option<(string, string)>)
    ensures r.Some? <==> Contains(s, sep)
    ensures r.Some? ==> s == r.value.0 + sep + r.value.1
  {
    match Find(s, sep)
    case Some(i) =>
      assert s == s[..i] + s[i..i + |sep|] + s[i + |sep|..];
      Some((s[..i], s[i + |sep|..]))
    case None => None
  }

  /** The first position of `c` in `s`. */
  function IndexOf(s: string, c: char): (r: Option<nat>)
    ensures r.Some? ==> r.value < |s| && s[r.value] == c && c !in s[..r.value]
    ensures r.None? ==> c !in s
  {
    if s == [] then None
    else if s[0] == c then Some(0)
    else
      match IndexOf(s[1..], c)
      case Some(i) =>
        assert s[..i + 1] == [s[0]] + s[1..][..i];
        Some(i + 1)
      case None => None
  }

  /** Python `s.split(c, 1)[0]`: the text before the first `c`, or all of it. */
  function Before(s: string, c: char): (r: string)
    ensures c !in r && StartsWith(s, r)
    ensures |r| < |s| ==> s[|r|] == c
  {
    match IndexOf(s, c)
    case Some(i) => s[..i]
    case None => s
  }

  /** The strings of `ss` one after the other (Python `"".join(ss)`). */
  function Concat(ss: seq<string>): string {
    if ss == [] then [] else ss[0] + Concat(ss[1..])
  }

  lemma {:induction false} ConcatAppend(a: seq<string>, b: seq<string>)
    ensures Concat(a + b) == Concat(a) + Concat(b)
  {
    if a != [] {
      assert (a + b)[1..] == a[1..] + b;
      ConcatAppend(a[1..], b);
    } else {
      assert a + b == b;
    }
  }

  /** Python `sep.join(ss)`. */
  function Join(sep: string, ss: seq<string>): string {
    if ss == [] then []
    else if |ss| == 1 then ss[0]
    else ss[0] + sep + Join(sep, ss[1..])
  }

  /** Python `s.splitlines(keepends=True)`, and the lines a text file yields
      when iterated: every line keeps its '\n', the last one may lack it. */
  function Lines(s: string): (r: seq<string>)
    ensures Concat(r) == s
    decreases |s|
  {
    if s == [] then []
    else
      match IndexOf(s, '\n')
      case Some(i) =>
        assert s == s[..i + 1] + s[i + 1..];
        [s[..i + 1]] + Lines(s[i + 1..])
      case None => [s]
  }

  /** Every line is non-empty and has '\n' at most at its end, where every
      line but the last has one. */
  predicate LineShaped(r: seq<string>) {
    (forall i :: 0 <= i < |r| ==> r[i] != [] && '\n' !in r[i][..|r[i]| - 1])
    && (forall i :: 0 <= i < |r| - 1 ==> r[i][|r[i]| - 1] == '\n')
  }

  /** A complete line in front of well-shaped lines. */
  lemma LineShapedCons(first: string, rest: seq<string>)
    requires first != [] && first[|first| - 1] == '\n' && '\n' !in first[..|first| - 1]
    requires LineShaped(rest)
    ensures LineShaped([first] + rest)
  {
    var r := [first] + rest;
    forall j | 0 <= j < |r| ensures r[j] != [] && '\n' !in r[j][..|r[j]| - 1] {
      if j > 0 {
        assert r[j] == rest[j - 1];
      }
    }
    forall j | 0 <= j < |r| - 1 ensures r[j][|r[j]| - 1] == '\n' {
      if j > 0 {
        assert r[j] == rest[j - 1];
      }
    }
  }

  lemma {:induction false} LinesShape(s: string)
    ensures LineShaped(Lines(s))
    decreases |s|
  {
    if s != [] {
      match IndexOf(s, '\n')
      case Some(i) =>
        assert Lines(s) == [s[..i + 1]] + Lines(s[i + 1..]);
        assert s[..i + 1][..i] == s[..i];
        LinesShape(s[i + 1..]);
        LineShapedCons(s[..i + 1], Lines(s[i + 1..]));
      case None =>
        assert Lines(s) == [s];
        assert s[..|s| - 1] <= s;
    }
  }

  /** A line without its terminating '\n'. */
  function LineText(line: string): (r: string)
    ensures EndsWith(line, "\n") ==> r + "\n" == line
    ensures !EndsWith(line, "\n") ==> r == line
  {
    if EndsWith(line, "\n") then line[..|line| - 1] else line
  }

  /** Python `s.splitlines()`: the lines of `s` without their terminators. */
  function SplitLines(s: string): (r: seq<string>)
    ensures |r| == |Lines(s)|
    ensures forall i :: 0 <= i < |r| ==> r[i] == LineText(Lines(s)[i])
  {
    var ls := Lines(s);
    seq(|ls|, i requires 0 <= i < |ls| => LineText(ls[i]))
  }

  /** Python `line if line.endswith("\n") else line + "\n"`. */
  function WithNewline(line: string): (r: string)
    ensures EndsWith(r, "\n") && StartsWith(r, line) && |r| <= |line| + 1
  {
    if EndsWith(line, "\n") then line else line + "\n"
  }

  /** Length of the run of non-whitespace characters that starts `t`. */
  function WordLength(t: string): (n: nat)
    ensures n <= |t| && NoSpace(t[..n]) && (n < |t| ==> IsSpace(t[n]))
  {
    if t == [] || IsSpace(t[0]) then 0
    else
      var n := WordLength(t[1..]);
      assert t[..n + 1] == [t[0]] + t[1..][..n];
      n + 1
  }

  /** Python `s.split()` and JavaScript `s.split(/\s+/).filter(Boolean)`:
      the maximal runs of non-whitespace characters of `s`, in order. */
  function Words(s: string): (r: seq<string>)
    ensures forall i :: 0 <= i < |r| ==> r[i] != [] && NoSpace(r[i])
    decreases |s|
  {
    var t := LStrip(s);
    if t == [] then []
    else
      var n := WordLength(t);
      [t[..n]] + Words(t[n..])
  }

  /** The characters of `s` that are not whitespace. */
  function NonSpace(s: string): string {
    if s == [] then []
    else (if IsSpace(s[0]) then [] else [s[0]]) + NonSpace(s[1..])
  }

  lemma {:induction false} NonSpaceAppend(a: string, b: string)
    ensures NonSpace(a + b) == NonSpace(a) + NonSpace(b)
  {
    if a != [] {
      assert (a + b)[1..] == a[1..] + b;
      NonSpaceAppend(a[1..], b);
    } else {
      assert a + b == b;
    }
  }

  lemma {:induction false} NonSpaceOfSpaces(s: string)
    requires forall i :: 0 <= i < |s| ==> IsSpace(s[i])
    ensures NonSpace(s) == []
  {
    if s != [] {
      NonSpaceOfSpaces(s[1..]);
    }
  }

  lemma {:induction false} NonSpaceOfWord(s: string)
    requires NoSpace(s)
    ensures NonSpace(s) == s
  {
    if s != [] {
      NonSpaceOfWord(s[1..]);
    }
  }

  /** Leading whitespace contributes nothing to `NonSpace`. */
  lemma {:induction false} LStripKeepsNonSpace(s: string)
    ensures NonSpace(s) == NonSpace(LStrip(s))
  {
    if s != [] && IsSpace(s[0]) {
      LStripKeepsNonSpace(s[1..]);
    }
  }

  /** Tokenising loses only whitespace: the words, put back together, are
      the non-whitespace characters of the input in their original order. */
  lemma {:induction false} WordsLoseOnlySpace(s: string)
    ensures Concat(Words(s)) == NonSpace(s)
    decreases |s|
  {
    var t := LStrip(s);
    LStripKeepsNonSpace(s);
    if t != [] {
      var n := WordLength(t);
      assert t == t[..n] + t[n..];
      NonSpaceAppend(t[..n], t[n..]);
      NonSpaceOfWord(t[..n]);
      WordsLoseOnlySpace(t[n..]);
    }
  }

  /** Leading white space makes no difference to what is left once the
      text is stripped on the left. */
  lemma {:induction false} LStripSkipsSpaces(pre: string, s: string)
    requires forall i :: 0 <= i < |pre| ==> IsSpace(pre[i])
    ensures LStrip(pre + s) == LStrip(s)
  {
    if pre == [] {
      assert pre + s == s;
    } else {
      assert (pre + s)[1..] == pre[1..] + s;
      LStripSkipsSpaces(pre[1..], s);
    }
  }

  /** A run of non-white-space characters followed by white space, or by
      nothing, is exactly as long as the run. */
  lemma {:induction false} WordLengthOf(w: string, rest: string)
    requires NoSpace(w)
    requires rest == [] || IsSpace(rest[0])
    ensures WordLength(w + rest) == |w|
  {
    if w == [] {
      assert w + rest == rest;
    } else {
      assert (w + rest)[1..] == w[1..] + rest;
      WordLengthOf(w[1..], rest);
    }
  }

  /** Tokens are maximal runs: after any white space, a run of
      non-white-space characters that is followed by white space, or ends
      the text, is the next word, whole. */
  lemma WordsStep(pre: string, w: string, rest: string)
    requires forall i :: 0 <= i < |pre| ==> IsSpace(pre[i])
    requires w != [] && NoSpace(w)
    requires rest == [] || IsSpace(rest[0])
    ensures Words(pre + w + rest) == [w] + Words(rest)
  {
    Seqs.Associative(pre, w, rest);
    LStripSkipsSpaces(pre, w + rest);
    WordLengthOf(w, rest);
    assert (w + rest)[..|w|] == w && (w + rest)[|w|..] == rest;
  }

  /** White space in front of a text adds no word. */
  lemma WordsSkipSpaces(pre: string, s: string)
    requires forall i :: 0 <= i < |pre| ==> IsSpace(pre[i])
    ensures Words(pre + s) == Words(s)
  {
    LStripSkipsSpaces(pre, s);
  }

  /** Words joined by white space split back into those words. */
  lemma {:induction false} WordsOfJoin(sep: string, ws: seq<string>)
    requires sep != [] && forall i :: 0 <= i < |sep| ==> IsSpace(sep[i])
    requires forall i :: 0 <= i < |ws| ==> ws[i] != [] && NoSpace(ws[i])
    ensures Words(Join(sep, ws)) == ws
  {
    if ws == [] {
    } else if |ws| == 1 {
      WordsStep([], ws[0], []);
      assert [] + ws[0] + [] == ws[0];
    } else {
      var tail := Join(sep, ws[1..]);
      WordsStep([], ws[0], sep + tail);
      assert [] + ws[0] + (sep + tail) == Join(sep, ws);
      WordsSkipSpaces(sep, tail);
      WordsOfJoin(sep, ws[1..]);
      assert ws == [ws[0]] + ws[1..];
    }
  }

  predicate IsDigit(c: char) {
    '0' <= c <= '9'
  }

  predicate AllDigits(s: string) {
    forall i :: 0 <= i < |s| ==> IsDigit(s[i])
  }

  /** The value of a run of decimal digits. */
  function DigitsValue(s: string): nat
    requires AllDigits(s)
  {
    if s == [] then 0
    else 10 * DigitsValue(s[..|s| - 1]) + (s[|s| - 1] as int - '0' as int)
  }

  /** An optionally signed, non-empty run of ASCII decimal digits: the integer
      literals that Python `int()` and JavaScript `Number()` are modelled on. */
  function ParseInt(s: string): Option<int> {
    if s != [] && (s[0] == '+' || s[0] == '-') then
      if |s| > 1 && AllDigits(s[1..]) then
        var magnitude: int := DigitsValue(s[1..]);
        Some(if s[0] == '-' then -magnitude else magnitude)
      else None
    else if s != [] && AllDigits(s) then Some(DigitsValue(s))
    else None
  }

  /** The decimal digits of `n`, most significant first, without leading zeros. */
  function Decimal(n: nat): (r: string)
    ensures r != [] && AllDigits(r)
  {
    var d := [('0' as int + n % 10) as char];
    if n < 10 then d else Decimal(n / 10) + d
  }

  /** Reading back a rendered number gives the number. */
  lemma {:induction false} DecimalRoundTrip(n: nat)
    ensures DigitsValue(Decimal(n)) == n
  {
    var r := Decimal(n);
    if n >= 10 {
      DecimalRoundTrip(n / 10);
      assert r[..|r| - 1] == Decimal(n / 10);
    }
  }

  /** The signed rendering of an integer, as Python `str()` writes it. */
  function IntText(v: int): string {
    if v < 0 then "-" + Decimal(-v) else Decimal(v)
  }

  /** `ParseInt` reads back what `IntText` writes. */
  lemma ParseIntText(v: int)
    ensures ParseInt(IntText(v)) == Some(v)
  {
    if v < 0 {
      var d := Decimal(-v);
      DecimalRoundTrip(-v);
      assert IntText(v)[1..] == d;
      assert IntText(v)[0] == '-';
    } else {
      var d := Decimal(v);
      DecimalRoundTrip(v);
      assert d[0] != '+' && d[0] != '-' by {
        assert IsDigit(d[0]);
      }
    }
  }

  /** `IndexOf` finds the first occurrence, wherever it is. */
  lemma IndexOfIs(s: string, c: char, i: nat)
    requires i < |s| && s[i] == c && c !in s[..i]
    ensures IndexOf(s, c) == Some(i)
  {
    assert s[i] in s;
    var j := IndexOf(s, c).value;
    assert forall k :: 0 <= k < i ==> s[..i][k] == s[k];
    assert forall k :: 0 <= k < j ==> s[..j][k] == s[k];
  }

  /** Python `s.split(c)` for one character `c`: the pieces between the
      occurrences of `c`, including the empty ones. */
  function SplitOn(s: string, c: char): (r: seq<string>)
    ensures r != [] && forall i :: 0 <= i < |r| ==> c !in r[i]
    decreases |s|
  {
    match IndexOf(s, c)
    case Some(i) => [s[..i]] + SplitOn(s[i + 1..], c)
    case None => [s]
  }

  /** Joining the pieces of a split with the separator gives back the text. */
  lemma {:induction false} JoinSplitOn(s: string, c: char)
    ensures Join([c], SplitOn(s, c)) == s
    decreases |s|
  {
    match IndexOf(s, c)
    case Some(i) =>
      JoinSplitOn(s[i + 1..], c);
      assert s == s[..i] + [c] + s[i + 1..];
    case None =>
  }

  /** Splitting a join of separator-free pieces gives back the pieces. */
  lemma {:induction false} SplitOnJoin(ss: seq<string>, c: char)
    requires ss != [] && forall i :: 0 <= i < |ss| ==> c !in ss[i]
    ensures SplitOn(Join([c], ss), c) == ss
  {
    var s := Join([c], ss);
    if |ss| == 1 {
      assert s == ss[0];
    } else {
      var rest := Join([c], ss[1..]);
      assert s == ss[0] + [c] + rest;
      assert s[..|ss[0]|] == ss[0];
      IndexOfIs(s, c, |ss[0]|);
      assert s[|ss[0]| + 1..] == rest;
      SplitOnJoin(ss[1..], c);
    }
  }

  lemma LinesStep(s: string, i: nat)
    requires IndexOf(s, '\n') == Some(i)
    ensures Lines(s) == [s[..i + 1]] + Lines(s[i + 1..])
  {
  }

  lemma LinesAppendStep(p: string, q: string, i: nat)
    requires IndexOf(p, '\n') == Some(i)
    ensures Lines(p + q) == [p[..i + 1]] + Lines(p[i + 1..] + q)
  {
    var t := p + q;
    assert IndexOf(t, '\n') == Some(i) by {
      assert t[..i] == p[..i] && t[i] == '\n';
      IndexOfIs(t, '\n', i);
    }
    assert t[..i + 1] == p[..i + 1];
    assert t[i + 1..] == p[i + 1..] + q;
    LinesStep(t, i);
  }

  /** A text that ends a line can be read line by line on its own: the lines
      of `p + q` are those of `p` followed by those of `q`. */
  lemma {:induction false} LinesAppend(p: string, q: string)
    requires p == [] || EndsWith(p, "\n")
    ensures Lines(p + q) == Lines(p) + Lines(q)
    decreases |p|
  {
    if p == [] {
      assert p + q == q;
    } else {
      assert IndexOf(p, '\n').Some? by {
        assert p[|p| - 1] in p;
      }
      var i := IndexOf(p, '\n').value;
      var rest := p[i + 1..];
      assert rest == [] || EndsWith(rest, "\n") by {
        if rest != [] {
          assert rest[|rest| - 1..] == p[|p| - 1..];
        }
      }
      LinesAppend(rest, q);
      LinesStep(p, i);
      LinesAppendStep(p, q, i);
      Seqs.Associative([p[..i + 1]], Lines(rest), Lines(q));
    }
  }

  /** Stripping twice strips no more than stripping once. */
  lemma StripIdempotent(s: string)
    ensures Strip(Strip(s)) == Strip(s)
  {
    StripTrimmed(Strip(s));
  }
  /** Joining one more piece adds the separator and the piece. */
  lemma {:induction false} JoinSnoc(sep: string, ss: seq<string>, x: string)
    requires ss != []
    ensures Join(sep, ss + [x]) == Join(sep, ss) + sep + x
  {
    if |ss| > 1 {
      assert (ss + [x])[1..] == ss[1..] + [x];
      JoinSnoc(sep, ss[1..], x);
    }
  }

  /** Extending the last piece extends the joined text. */
  lemma {:induction false} JoinExtendLast(sep: string, ss: seq<string>, t: string)
    requires ss != []
    ensures Join(sep, ss[..|ss| - 1] + [ss[|ss| - 1] + t]) == Join(sep, ss) + t
  {
    if |ss| > 1 {
      var ext := ss[..|ss| - 1] + [ss[|ss| - 1] + t];
      assert ext[1..] == ss[1..][..|ss[1..]| - 1] + [ss[1..][|ss[1..]| - 1] + t];
      JoinExtendLast(sep, ss[1..], t);
    }
  }

  /** Every character of `Strip(s)` is a character of `s`. */
  lemma StripInside(s: string)
    ensures forall c :: c in Strip(s) ==> c in s
  {
    var l := LStrip(s);
    LStripSuffix(s);
    forall c | c in Strip(s) ensures c in s {
      var k :| 0 <= k < |Strip(s)| && Strip(s)[k] == c;
      assert Strip(s) == RStrip(l) && RStrip(l) == l[..|RStrip(l)|];
      assert l[k] == c;
      assert s[|s| - |l| + k] == c;
    }
  }

  /** `s` without the copies of `c` at its start. */
  function TrimLeft(s: string, c: char): (r: string)
    ensures |r| <= |s|
    ensures r == [] || r[0] != c
  {
    if s != [] && s[0] == c then TrimLeft(s[1..], c) else s
  }

  /** `TrimLeft` removes a run of `c` and keeps the rest whole. */
  lemma {:induction false} TrimLeftParts(s: string, c: char)
    ensures var r := TrimLeft(s, c);
      r == s[|s| - |r|..] && forall i :: 0 <= i < |s| - |r| ==> s[i] == c
  {
    if s != [] && s[0] == c {
      TrimLeftParts(s[1..], c);
      assert forall i :: 1 <= i < |s| ==> s[1..][i - 1] == s[i];
    }
  }

  /** `s` without the copies of `c` at its end. */
  function TrimRight(s: string, c: char): (r: string)
    ensures |r| <= |s| && r == s[..|r|]
    ensures r == [] || r[|r| - 1] != c
    ensures forall i :: |r| <= i < |s| ==> s[i] == c
  {
    if s != [] && s[|s| - 1] == c then TrimRight(s[..|s| - 1], c) else s
  }

  /** Python `s.strip("\n")`: only line breaks are removed, at both ends. */
  function StripNewlines(s: string): (r: string)
    ensures r == [] || (r[0] != '\n' && r[|r| - 1] != '\n')
  {
    TrimRight(TrimLeft(s, '\n'), '\n')
  }

  /** Python `c.isupper()` on one ASCII character. */
  predicate IsUpper(c: char) {
    'A' <= c <= 'Z'
  }

  /** Appending one string to the list appends it to the text. */
  lemma StartsWithAppend(p: string, q: string)
    ensures StartsWith(p + q, p)
  {
    assert (p + q)[..|p|] == p;
  }

  /** A suffix no longer than the second part is decided by that part alone. */
  lemma EndsWithAppend(p: string, q: string, x: string)
    requires |x| <= |q|
    ensures EndsWith(p + q, x) <==> EndsWith(q, x)
  {
    assert (p + q)[|p + q| - |x|..] == q[|q| - |x|..];
  }

  /** Putting the same text in front keeps a prefix a prefix. */
  lemma StartsWithPrepend(p: string, s: string, q: string)
    requires StartsWith(s, q)
    ensures StartsWith(p + s, p + q)
  {
    assert (p + s)[..|p + q|] == p + s[..|q|];
  }

  lemma StartsWithPrefix(s: string, p: string, q: string)
    requires StartsWith(s, p) && StartsWith(p, q)
    ensures StartsWith(s, q)
  {
    assert s[..|q|] == p[..|q|];
  }

  /** Cutting a list of strings anywhere cuts their concatenation. */
  lemma ConcatSplit(ss: seq<string>, k: nat)
    requires k <= |ss|
    ensures Concat(ss[..k]) + Concat(ss[k..]) == Concat(ss)
  {
    assert ss == ss[..k] + ss[k..];
    ConcatAppend(ss[..k], ss[k..]);
  }

  /** The concatenation starts with the first string. */
  lemma ConcatStartsWith(ss: seq<string>)
    requires ss != []
    ensures StartsWith(Concat(ss), ss[0])
  {
    StartsWithAppend(ss[0], Concat(ss[1..]));
  }

  /** One more string of a run of `ss`. */
  lemma ConcatRangeStep(ss: seq<string>, k: nat, i: nat)
    requires k <= i < |ss|
    ensures Concat(ss[k..i + 1]) == Concat(ss[k..i]) + ss[i]
  {
    assert ss[k..i + 1] == ss[k..i] + [ss[i]];
    ConcatSnoc(ss[k..i], ss[i]);
  }

  /** The strings `ss[a]`, ..., `ss[b - 1]` joined, built from the back the
      way a loop appending one line at a time builds it. */
  function ConcatRange(ss: seq<string>, a: nat, b: nat): string
    requires a <= b <= |ss|
    decreases b - a
  {
    if a == b then [] else ConcatRange(ss, a, b - 1) + ss[b - 1]
  }

  lemma {:induction false} ConcatRangeIs(ss: seq<string>, a: nat, b: nat)
    requires a <= b <= |ss|
    ensures ConcatRange(ss, a, b) == Concat(ss[a..b])
    decreases b - a
  {
    if a < b {
      ConcatRangeIs(ss, a, b - 1);
      ConcatRangeStep(ss, a, b - 1);
    }
  }

  /** Putting one string in front of a run. */
  lemma ConcatCons(x: string, ss: seq<string>)
    ensures Concat([x] + ss) == x + Concat(ss)
  {
    assert ([x] + ss)[1..] == ss;
  }

  /** Two strings put between a list and a run of further strings. */
  lemma ConcatBetween(xs: seq<string>, a: string, b: string, ys: seq<string>)
    ensures Concat(xs + ([a, b] + ys)) == Concat(xs) + a + b + Concat(ys)
  {
    ConcatAppend(xs, [a, b] + ys);
    assert [a, b] + ys == [a] + ([b] + ys);
    ConcatCons(a, [b] + ys);
    ConcatCons(b, ys);
  }

  /** Python `t.rstrip() + "\n"` ends with exactly one line break. */
  lemma RStripNewline(t: string)
    ensures var r := RStrip(t) + "\n";
      EndsWith(r, "\n") && (|r| == 1 || !IsSpace(r[|r| - 2]))
  {
    var s := RStrip(t);
    assert (s + "\n")[|s + "\n"| - 1..] == "\n";
    if s != [] {
      assert (s + "\n")[|s + "\n"| - 2] == s[|s| - 1];
    }
  }

  lemma ConcatSnoc(ss: seq<string>, x: string)
    ensures Concat(ss + [x]) == Concat(ss) + x
  {
    ConcatAppend(ss, [x]);
    assert Concat([x]) == x + Concat([]);
  }

  /** One complete line: non-empty, ending in its only '\n'. */
  predicate IsLine(l: string) {
    l != [] && l[|l| - 1] == '\n' && '\n' !in l[..|l| - 1]
  }

  predicate AllComplete(ls: seq<string>) {
    forall i :: 0 <= i < |ls| ==> IsLine(ls[i])
  }

  /** A complete line reads back as itself. */
  lemma LineAlone(l: string)
    requires IsLine(l)
    ensures Lines(l) == [l]
  {
    IndexOfIs(l, '\n', |l| - 1);
    LinesStep(l, |l| - 1);
    assert l[..|l|] == l && l[|l|..] == [];
  }

  /** Complete lines written one after the other read back as those lines. */
  lemma {:induction false} LinesOfLines(ls: seq<string>)
    requires AllComplete(ls)
    ensures Lines(Concat(ls)) == ls
  {
    if ls != [] {
      var l := ls[0];
      assert l[|l| - 1..] == "\n";
      LinesAppend(l, Concat(ls[1..]));
      LineAlone(l);
      LinesOfLines(ls[1..]);
    }
  }

  /** A line of a text, with a line break ensured, is complete. */
  lemma CompletedLine(l: string)
    requires l != [] && '\n' !in l[..|l| - 1]
    ensures IsLine(WithNewline(l))
  {
    if !EndsWith(l, "\n") {
      assert l[|l| - 1..] != "\n";
      assert l == l[..|l| - 1] + [l[|l| - 1]];
      assert (l + "\n")[..|l|] == l;
    }
  }

  /** A number's text is on one line. */
  lemma ParsedOneLine(t: string)
    requires ParseInt(t).Some?
    ensures '\n' !in t
  {
    if t[0] == '+' || t[0] == '-' {
      assert forall i :: 1 <= i < |t| ==> t[1..][i - 1] == t[i];
    }
  }

  predicate AllSpace(s: string) {
    forall i :: 0 <= i < |s| ==> IsSpace(s[i])
  }

  /** Leading whitespace in front of text that does not start with any is
      exactly what `LStrip` removes. */
  lemma {:induction false} LStripSpace(space: string, t: string)
    requires AllSpace(space) && t != [] && !IsSpace(t[0])
    ensures LStrip(space + t) == t
    decreases |space|
  {
    if space != [] {
      assert (space + t)[1..] == space[1..] + t;
      LStripSpace(space[1..], t);
    } else {
      assert space + t == t;
    }
  }

  /** Text is the whitespace `LStrip` removes followed by what it keeps. */
  lemma SplitSpace(s: string) returns (space: string)
    ensures AllSpace(space) && s == space + LStrip(s) && |space| == |s| - |LStrip(s)|
  {
    LStripSuffix(s);
    LStripDropsSpace(s);
    space := s[..|s| - |LStrip(s)|];
  }

  /** Python `s.split(c)[-1]`: the text after the last `c`. */
  function LastPiece(s: string, c: char): (r: string)
    ensures c !in r
  {
    var parts := SplitOn(s, c);
    parts[|parts| - 1]
  }

  /** Splitting at a first separator at `i` keeps the last piece of the rest. */
  lemma LastPieceStep(s: string, c: char, i: nat)
    requires IndexOf(s, c) == Some(i)
    ensures LastPiece(s, c) == LastPiece(s[i + 1..], c)
  {
    var rest := SplitOn(s[i + 1..], c);
    assert SplitOn(s, c) == [s[..i]] + rest;
  }

  /** The last piece is what follows the last separator. */
  lemma {:induction false} LastPieceAfter(a: string, b: string, c: char)
    requires c !in b
    ensures LastPiece(a + [c] + b, c) == b
    decreases |a|
  {
    var s := a + [c] + b;
    match IndexOf(a, c)
    case Some(i) =>
      assert s[..i] == a[..i];
      IndexOfIs(s, c, i);
      LastPieceStep(s, c, i);
      assert s[i + 1..] == a[i + 1..] + [c] + b;
      LastPieceAfter(a[i + 1..], b, c);
    case None =>
      assert s[..|a|] == a;
      IndexOfIs(s, c, |a|);
      LastPieceStep(s, c, |a|);
      assert s[|a| + 1..] == b;
      assert SplitOn(b, c) == [b];
  }

  /** The piece after the last `c`, which follows the rest of the text and
      that `c`. */
  lemma {:induction false} LastPieceBefore(s: string, c: char) returns (front: string)
    requires c in s
    ensures s == front + [c] + LastPiece(s, c)
    decreases |s|
  {
    var i := IndexOf(s, c).value;
    var rest := s[i + 1..];
    LastPieceStep(s, c, i);
    if c in rest {
      var f := LastPieceBefore(rest, c);
      var head := s[..i + 1];
      front := head + f;
      assert s == head + rest;
      Seqs.Associative(head, f + [c], LastPiece(s, c));
      Seqs.Associative(head, f, [c]);
    } else {
      assert SplitOn(rest, c) == [rest];
      front := s[..i];
      assert s == s[..i] + [c] + rest;
    }
  }


  /** The written integer is a minus sign and digits only, so it has no
      white space at its ends and no comma. */
  lemma IntTextPlain(v: int)
    ensures var t := IntText(v);
      t != [] && !IsSpace(t[0]) && !IsSpace(t[|t| - 1]) && ',' !in t
      && forall k :: 0 <= k < |t| ==> t[k] == '-' || IsDigit(t[k])
  {
    var d := if v < 0 then Decimal(-v) else Decimal(v);
    assert IsDigit(d[|d| - 1]);
    assert forall k :: 0 <= k < |d| ==> d[k] != ',';
    if v < 0 {
      var t := IntText(v);
      assert t == "-" + d;
      assert forall k :: 1 <= k < |t| ==> t[k] == d[k - 1];
    }
  }
}
