/** How the pieces of the pipeline read each other's output: the step header
    the step-program generator writes, the two readers of step headers (the
    step-activation generator and the multi-shot driver), and the exit codes
    the two callers of the solver accept. */
module Pipeline {
  import opened Wrappers
  import opened Text
  import Seqs
  import StepProgram
  import StepActivation
  import MultishotDriver
  import ProcessAnswers
  import StudioServer

  /** The header line the generator writes for timestamp `ts`, without its
      line end. */
  lemma DirectiveStripped(ts: string)
    ensures Strip(StepProgram.StepDirective(ts)) == "#program step(t" + ts + ")."
  {
    var x := "#program step(t" + ts + ").";
    var d := StepProgram.StepDirective(ts);
    assert d == x + "\n";
    assert !IsSpace(d[0]);
    assert LStrip(d) == d;
    assert d[..|d| - 1] == x;
    assert x[|x| - 1] == '.';
    assert RStrip(x) == x;
  }

  /** The step-activation generator reads the header of the block of `ts`
      as the step labelled `t<ts>`. */
  lemma DirectiveLabelled(ts: string)
    requires ')' !in ts
    ensures StepActivation.StepLabel(StepProgram.StepDirective(ts)) == Some("t" + ts)
  {
    DirectiveStripped(ts);
    var s := "#program step(t" + ts + ").";
    var name := "t" + ts;
    assert ')' !in name by {
      forall k | 0 <= k < |name| ensures name[k] != ')' {
        if k > 0 {
          assert name[k] == ts[k - 1];
        }
      }
    }
    assert s == StepActivation.Keyword + (" " + (StepActivation.StepOpen + (name + (StepActivation.StepClose + ""))));
    assert StepActivation.Matches(s, " ", name, "");
    StepActivation.MatchFound(s, " ", name, "");
  }

  /** The multi-shot driver reads no step from that header, whatever the
      timestamp: its parameter starts with `t`, which is not a digit. */
  lemma DirectiveNotAStep(ts: string)
    ensures MultishotDriver.StepOf(StepProgram.StepDirective(ts)) == None
  {
    DirectiveStripped(ts);
    var s := "#program step(t" + ts + ").";
    var open := MultishotDriver.StepOpen;
    assert StartsWith(s, open) && EndsWith(s, MultishotDriver.StepClose);
    MultishotDriver.HeaderLength(s);
    var param := s[|open|..|s| - |MultishotDriver.StepClose|];
    assert param[0] == 't';
    assert !AllDigits(param);
  }

  /** A header `#program step(<digits>).` is read by both: the driver takes
      the digits' value as the step and the generator the digits as the
      label. */
  lemma DigitHeaderRead(p: string)
    requires p != [] && AllDigits(p)
    ensures MultishotDriver.StepOf(MultishotDriver.StepOpen + p + MultishotDriver.StepClose) == Some(DigitsValue(p))
    ensures StepActivation.StepLabel(MultishotDriver.StepOpen + p + MultishotDriver.StepClose) == Some(p)
  {
    var s := MultishotDriver.StepOpen + p + MultishotDriver.StepClose;
    assert !IsSpace(s[0]) && s[|s| - 1] == '.';
    StripTrimmed(s);
    MultishotDriver.StepOfMeaning(s, DigitsValue(p));
    DigitHeaderLabelled(p);
  }

  /** The generator's pattern matches a digit header, the digits captured. */
  lemma DigitHeaderLabelled(p: string)
    requires p != [] && AllDigits(p)
    ensures StepActivation.LabelOf(MultishotDriver.StepOpen + p + MultishotDriver.StepClose) == Some(p)
  {
    assert ')' !in p by {
      forall k | 0 <= k < |p| ensures p[k] != ')' {
        assert IsDigit(p[k]);
      }
    }
    var s := MultishotDriver.StepOpen + p + MultishotDriver.StepClose;
    assert s == StepActivation.Keyword + (" " + (StepActivation.StepOpen + (p + (StepActivation.StepClose + ""))));
    StepActivation.MatchFound(s, " ", p, "");
  }

  /** A header that appears twice is one step for the generator, which
      de-duplicates its labels, and two steps for the driver, which does
      not. */
  lemma RepeatedHeader(p: string)
    requires p != [] && AllDigits(p)
    ensures var line := MultishotDriver.StepOpen + p + MultishotDriver.StepClose;
      StepActivation.Steps([line, line]) == [p]
      && MultishotDriver.StepsOf([line, line]) == [DigitsValue(p), DigitsValue(p)]
  {
    var line := MultishotDriver.StepOpen + p + MultishotDriver.StepClose;
    DigitHeaderRead(p);
    MultishotDriver.RepeatedStepKept(line, DigitsValue(p));
    assert [line, line][..1] == [line] && [line][..0] == [];
    assert StepActivation.Labels([line]) == [p];
    assert StepActivation.Labels([line, line]) == [p, p];
    assert Seqs.Dedup([p]) == [p];
    assert [p, p][..1] == [p];
  }

  /** Exit code 20 (the solver searched everything and found no answer) is
      a success for the studio and a failure for the meta-event pass; on every
      other code the two agree. */
  lemma ExitCodesDiffer(code: int)
    ensures StudioServer.RunSucceeded(Some(20)) && !ProcessAnswers.Succeeded(20)
    ensures code != 20 ==> (StudioServer.RunSucceeded(Some(code)) <==> ProcessAnswers.Succeeded(code))
  {
  }
}
