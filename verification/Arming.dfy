/**
 Arming a pipeline for unattended use.

 The acknowledgment stored is the joined names of the databases the pipeline drops. An
 unattended run cuts it into lines again and hands them to the destructive steps.
 */
module Arming {
  import opened Common
  import opened Text
  import opened Pipeline

  /** The databases the pipeline drops, in step order. */
  function DestructiveTargets(steps: seq<Step>): seq<string> {
    if steps == [] then []
    else (if IsDestructive(steps[0]) then [steps[0].naming.name] else []) + DestructiveTargets(steps[1..])
  }

  function Join(names: seq<string>): string { Joined(names, '\n') }

  function Signature(steps: seq<Step>): Option<string> {
    var targets := DestructiveTargets(steps);
    if targets == [] then None else Some(Join(targets))
  }

  predicate IsArmed(ack: Option<string>, steps: seq<Step>) {
    ack.Some? && Signature(steps).Some? && ack == Signature(steps)
  }

  /** `validate_pipeline_target`: whether a schedule may run this pipeline. */
  predicate MayRunUnattended(ack: Option<string>, steps: seq<Step>) {
    (forall s <- steps :: !IsDestructive(s)) || IsArmed(ack, steps)
  }

  /** `update_pipeline`: editing the steps clears the acknowledgment. */
  function AckAfterUpdate(ack: Option<string>, patch: Option<seq<Step>>): Option<string> {
    if patch.Some? then None else ack
  }

  /** The names an unattended run hands out. */
  function Confirmations(ack: Option<string>): seq<string> {
    if ack.Some? then Lines(ack.value) else []
  }

  /** What the names must be for the lines to be the names again. */
  predicate Recoverable(names: seq<string>) {
    && (forall i | 0 <= i < |names| :: '\n' !in names[i])
    && (forall i | 0 <= i < |names| - 1 :: StripCr(names[i]) == names[i])
    && (names != [] ==> names[|names| - 1] != [])
  }

  /**
   Cutting the signature into lines gives the names back exactly when no name holds a
   newline, none but the last ends in a carriage return, and the last is not empty.
   */
  lemma {:induction false} LinesInvertJoinExactly(names: seq<string>)
    ensures Lines(Join(names)) == names <==> Recoverable(names)
    decreases |names|
  {
    if exists i :: 0 <= i < |names| && '\n' in names[i] {
      LinesHaveNoNewline(Join(names));
    } else if |names| == 1 {
      LineEndOfFirst(names[0], []);
    } else if |names| > 1 {
      var first, rest := names[0], names[1..];
      LinesInvertJoinExactly(rest);
      LineEndOfFirst(first, Join(rest));
      var text := Join(names);
      assert text == first + ['\n'] + Join(rest);
      assert text[..|first|] == first && text[|first| + 1..] == Join(rest);
      assert Lines(text) == [StripCr(first)] + Lines(Join(rest));
      assert names == [first] + rest;
      RecoverableSplits(names);
    }
  }

  lemma {:induction false} LinesAreNoMore(names: seq<string>)
    requires forall i | 0 <= i < |names| :: '\n' !in names[i]
    ensures |Lines(Join(names))| <= |names|
  {
    if |names| == 1 {
      LineEndOfFirst(names[0], []);
    } else if |names| > 1 {
      var text := Join(names);
      LinesAreNoMore(names[1..]);
      LineEndOfFirst(names[0], Join(names[1..]));
      assert text == names[0] + ['\n'] + Join(names[1..]);
      assert text[|names[0]| + 1..] == Join(names[1..]);
    }
  }

  /** There are never more lines than names, so lines that begin with the names are the names. */
  lemma LinesBeginWithNamesExactly(names: seq<string>)
    ensures names <= Lines(Join(names)) <==> Recoverable(names)
  {
    LinesInvertJoinExactly(names);
    if names <= Lines(Join(names)) {
      LinesHaveNoNewline(Join(names));
      forall i | 0 <= i < |names| ensures '\n' !in names[i] {
        assert names[i] == Lines(Join(names))[i];
      }
      LinesAreNoMore(names);
    }
  }

  lemma FirstLine(first: string, rest: string)
    requires '\n' !in first
    ensures Lines(first + ['\n'] + rest) == [StripCr(first)] + Lines(rest)
    ensures first != [] ==> Lines(first) == [first]
  {
    LineEndOfFirst(first, rest);
    var text := first + ['\n'] + rest;
    assert text[..|first|] == first && text[|first| + 1..] == rest;
  }

  /** The lines of `a\r` and `b` are `a` and `b`, and so are those of the one name `a\nb`. */
  lemma ReturnAndNewlineAreLost()
    ensures Lines(Join(["a\r", "b"])) == ["a", "b"] && !Recoverable(["a\r", "b"])
    ensures Lines(Join(["a\nb"])) == ["a", "b"] && !Recoverable(["a\nb"])
  {
    FirstLine("a\r", "b");
    FirstLine("a", "b");
    FirstLine("b", []);
    var two, one := ["a\r", "b"], ["a\nb"];
    assert Join(two[1..]) == "b" && Join(two) == "a\r" + ['\n'] + "b";
    assert Join(one) == "a" + ['\n'] + "b";
    assert StripCr("a\r") == "a" && two[0] == "a\r";
    assert one[0][1] == '\n';
  }

  lemma RecoverableSplits(names: seq<string>)
    requires |names| > 1
    ensures Recoverable(names) <==> '\n' !in names[0] && StripCr(names[0]) == names[0] && Recoverable(names[1..])
  {
    var rest := names[1..];
    assert forall i | 0 <= i < |rest| :: rest[i] == names[i + 1];
    if Recoverable(rest) && '\n' !in names[0] && StripCr(names[0]) == names[0] {
      forall i | 0 <= i < |names| ensures '\n' !in names[i] {
        if i > 0 { assert names[i] == rest[i - 1]; }
      }
      forall i | 0 <= i < |names| - 1 ensures StripCr(names[i]) == names[i] {
        if i > 0 { assert names[i] == rest[i - 1]; }
      }
    }
  }

  // ── What a signature commits to ──

  /** Two lists of names without newlines have the same signature only if they are the same list. */
  lemma SignatureIsInjective(names: seq<string>, others: seq<string>)
    requires names != [] && forall i | 0 <= i < |names| :: '\n' !in names[i]
    requires others != [] && forall i | 0 <= i < |others| :: '\n' !in others[i]
    requires Join(names) == Join(others)
    ensures names == others
  {
    SplitUndoesJoined(names, '\n');
    SplitUndoesJoined(others, '\n');
  }

  lemma {:induction false} JoinUndoesSplit(text: string)
    ensures Join(Split(text, '\n')) == text
    ensures '\n' in text ==> |Split(text, '\n')| > 1
    decreases |text|
  {
    if text != [] {
      JoinUndoesSplit(text[1..]);
      var rest := Split(text[1..], '\n');
      if text[0] == '\n' {
        assert ([[]] + rest)[1..] == rest;
        assert Join([[]] + rest) == [] + ['\n'] + text[1..];
        assert [] + ['\n'] + text[1..] == text;
      } else {
        var all := [[text[0]] + rest[0]] + rest[1..];
        assert all[1..] == rest[1..];
        if |rest| == 1 {
          assert Join(all) == [text[0]] + text[1..];
        } else {
          assert ([text[0]] + rest[0]) + ['\n'] + Join(rest[1..]) == [text[0]] + (rest[0] + ['\n'] + Join(rest[1..]));
        }
        assert Join(all) == text;
      }
    }
  }

  lemma {:induction false} JoinHasNewline(names: seq<string>)
    requires |names| > 1
    ensures '\n' in Join(names)
  {
    assert Join(names)[|names[0]|] == '\n';
  }

  /**
   A signature with a newline in it is the signature of more than one list: the
   acknowledgment of two databases is also the acknowledgment of one with a newline in its name.
   */
  lemma SignatureIdentifiesTargetsExactly(names: seq<string>)
    requires names != []
    ensures (forall others | others != [] && Join(others) == Join(names) :: others == names) <==> '\n' !in Join(names)
  {
    if '\n' in Join(names) {
      var text := Join(names);
      JoinUndoesSplit(text);
      assert Join([text]) == text;
      assert |[text]| != |Split(text, '\n')|;
    } else {
      forall others | others != [] && Join(others) == Join(names) ensures others == names {
        if |others| > 1 { JoinHasNewline(others); }
        if |names| > 1 { JoinHasNewline(names); }
        assert others == [Join(others)] && names == [Join(names)];
      }
    }
  }

  /** As long as no name holds a newline, an acknowledgment that armed one pipeline arms no other target list. */
  lemma ChangedTargetsDisarm(ack: Option<string>, before: seq<Step>, after: seq<Step>)
    requires IsArmed(ack, before)
    requires forall i | 0 <= i < |DestructiveTargets(before)| :: '\n' !in DestructiveTargets(before)[i]
    requires forall i | 0 <= i < |DestructiveTargets(after)| :: '\n' !in DestructiveTargets(after)[i]
    ensures IsArmed(ack, after) <==> DestructiveTargets(after) == DestructiveTargets(before)
  {
    if IsArmed(ack, after) {
      SignatureIsInjective(DestructiveTargets(before), DestructiveTargets(after));
    }
  }

  lemma {:induction false} TargetsOfHarmless(steps: seq<Step>)
    ensures DestructiveTargets(steps) == [] <==> forall s <- steps :: !IsDestructive(s)
  {
    if steps != [] {
      TargetsOfHarmless(steps[1..]);
      assert forall s <- steps :: s == steps[0] || s in steps[1..];
      assert IsDestructive(steps[0]) ==> steps[0] in steps;
    }
  }

  /**
   An unattended run that is allowed to start holds, for each database it drops, that
   database's own name, in order, exactly when the names survive being cut into lines.
   */
  lemma UnattendedRunHoldsEveryName(ack: Option<string>, steps: seq<Step>)
    requires MayRunUnattended(ack, steps) && DestructiveTargets(steps) != []
    ensures Confirmations(ack) == DestructiveTargets(steps) <==> Recoverable(DestructiveTargets(steps))
  {
    TargetsOfHarmless(steps);
    LinesInvertJoinExactly(DestructiveTargets(steps));
  }

  /** A pipeline whose steps were edited may not drop anything unattended until it is armed again. */
  lemma EditingDisarms(ack: Option<string>, steps: seq<Step>)
    ensures MayRunUnattended(AckAfterUpdate(ack, Some(steps)), steps) <==> DestructiveTargets(steps) == []
  {
    TargetsOfHarmless(steps);
  }
}
