/** The atemporal-facts wrapper: a facts file that does not already open a
    subprogram is put under `#program base.`; one that does is passed through
    unchanged. */
module AtemporalFacts {
  import opened Text
  import Seqs

  const Directive := "#program"
  const BaseHeader := "#program base.\n\n"

  /** A line that counts for the header test: not blank once stripped, and
      not a `%` comment. */
  predicate IsContent(line: string) {
    var s := Strip(line);
    s != [] && !StartsWith(s, "%")
  }

  /** `has_header`: the scan over the lines, skipping blank and comment
      lines and deciding on the first other one. */
  function HasHeader(lines: seq<string>): bool {
    if lines == [] then false
    else if !IsContent(lines[0]) then HasHeader(lines[1..])
    else StartsWith(Strip(lines[0]), Directive)
  }

  /** Line `i` is the first content line and it opens a subprogram. */
  predicate HeaderAt(lines: seq<string>, i: int) {
    0 <= i < |lines| && IsContent(lines[i])
    && (forall j :: 0 <= j < i ==> !IsContent(lines[j]))
    && StartsWith(Strip(lines[i]), Directive)
  }

  /** The file has a header exactly when its first line that is neither blank
      nor a comment starts with `#program`; a file without such a line has
      none. */
  lemma {:induction false} HasHeaderMeaning(lines: seq<string>)
    ensures HasHeader(lines) <==> exists i :: HeaderAt(lines, i)
  {
    if lines != [] {
      if !IsContent(lines[0]) {
        HasHeaderMeaning(lines[1..]);
        if exists i :: HeaderAt(lines, i) {
          var i :| HeaderAt(lines, i);
          assert i > 0;
          assert HeaderAt(lines[1..], i - 1) by {
            forall j | 0 <= j < i - 1 ensures !IsContent(lines[1..][j]) {
              assert lines[1..][j] == lines[j + 1];
            }
          }
        }
        if exists i :: HeaderAt(lines[1..], i) {
          var i :| HeaderAt(lines[1..], i);
          assert HeaderAt(lines, i + 1) by {
            forall j | 0 <= j < i + 1 ensures !IsContent(lines[j]) {
              if j > 0 {
                assert lines[j] == lines[1..][j - 1];
              }
            }
          }
        }
      } else {
        if StartsWith(Strip(lines[0]), Directive) {
          assert HeaderAt(lines, 0);
        }
        if exists i :: HeaderAt(lines, i) {
          var i :| HeaderAt(lines, i);
          assert i == 0;
        }
      }
    }
  }

  /** The text `main` writes for the input text. */
  function Output(text: string): (r: string)
    ensures HasHeader(Lines(text)) ==> r == text
    ensures !HasHeader(Lines(text)) ==> r == BaseHeader + text
  {
    var lines := Lines(text);
    if HasHeader(lines) then Concat(lines) else BaseHeader + Concat(lines)
  }

  /** The base program line is one complete line. */
  lemma BaseLineComplete()
    ensures IsLine("#program base.\n")
  {
    assert forall i :: 0 <= i < 14 ==> "#program base.\n"[i] != '\n';
  }

  /** The lines of the base header in front of a text. */
  lemma HeaderLines(text: string)
    ensures Lines(BaseHeader + text) == ["#program base.\n", "\n"] + Lines(text)
  {
    var first := "#program base.\n";
    assert BaseHeader == first + "\n";
    assert first[|first| - 1..] == "\n";
    assert "\n"[0..] == "\n";
    LinesAppend(first, "\n" + text);
    LinesAppend("\n", text);
    BaseLineComplete();
    LineAlone(first);
    LineAlone("\n");
    Seqs.Associative(first, "\n", text);
  }

  /** Wrapping is idempotent: the output already has a header, so wrapping it
      again changes nothing. */
  lemma Idempotent(text: string)
    ensures Output(Output(text)) == Output(text)
  {
    if !HasHeader(Lines(text)) {
      HeaderLines(text);
      var lines := Lines(BaseHeader + text);
      var first := "#program base.\n";
      assert Strip(first) == "#program base." by {
        assert IsSpace(first[|first| - 1]);
        assert first[..|first| - 1] == "#program base.";
        StripTrimmed("#program base.");
      }
      assert lines[0] == first;
      assert IsContent(first) by {
        assert Strip(first)[0] == '#';
      }
      assert StartsWith(Strip(first), Directive);
    }
  }
}
