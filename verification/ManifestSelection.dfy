/**
 Which sources a manifest selects, line by line and in terms of its conditions alone:
 where each line stands among the conditionals around it, and which flags it names.
 */
module ManifestSelection {
  import opened Manifests

  // ----- Where a line stands

  /** One part of a conditional: its condition, and how many `else` lines came before. */
  datatype Part = Part(cond: string, negated: bool, elses: nat)

  /** The parts around the line that follows: opened by `ifeq` and `ifneq`, moved on by
      `else`, closed by `endif`; an `else` or `endif` outside them all is passed over. */
  function Around(lines: seq<Line>): seq<Part> {
    if lines == [] then []
    else
      var outer := Around(lines[..|lines| - 1]);
      match lines[|lines| - 1]
      case If(cond, negated) => outer + [Part(cond, negated, 0)]
      case Else =>
        if outer == [] then []
        else outer[..|outer| - 1] + [outer[|outer| - 1].(elses := outer[|outer| - 1].elses + 1)]
      case Endif => if outer == [] then [] else outer[..|outer| - 1]
      case Plain(_) => outer
  }

  /** The first part of an `ifeq` that holds or of an `ifneq` that fails, or the first
      `else` of the opposite; nothing after a second `else`. */
  predicate Live(part: Part, eval: string -> bool) {
    match part.elses
    case 0 => if part.negated then !eval(part.cond) else eval(part.cond)
    case 1 => if part.negated then eval(part.cond) else !eval(part.cond)
    case _ => false
  }

  /** `yes`, or at least one flag named, every one of them on, and none left unclosed. */
  ghost predicate Wanted(cond: string, isOn: string -> bool) {
    || cond == "yes"
    || exists refs: seq<Ref>, tail: string ::
         && Plainly(refs) && NoRef(tail) && refs != [] && Render(refs, tail) == cond
         && forall i | 0 <= i < |refs| :: isOn(refs[i].name)
  }

  /** What one line adds. */
  ghost function Adds(line: Line, around: seq<Part>, r: Rules): seq<string> {
    if line.Plain? && line.item.Source? && Wanted(line.item.cond, r.isOn)
       && forall i | 0 <= i < |around| :: Live(around[i], r.eval)
    then [r.base + "/" + line.item.path]
    else []
  }

  /** What all lines add, in their order. */
  ghost function Selection(r: Rules, lines: seq<Line>): seq<string> {
    if lines == [] then []
    else
      var init := lines[..|lines| - 1];
      Selection(r, init) + Adds(lines[|lines| - 1], Around(init), r)
  }

  // ----- Conditions

  /** The loop over a condition's text accepts exactly the conditions that are wanted. */
  lemma CondExactly(cond: string, isOn: string -> bool)
    ensures CondEnabled(cond, isOn) <==> Wanted(cond, isOn)
  {
    hide RefsEnabled, NoRef, NoClose, Render;
    if cond != "yes" {
      var refs, tail := EveryCondition(cond);
      CondMeaning(refs, tail, isOn);
      if Wanted(cond, isOn) {
        var refs': seq<Ref>, tail': string :|
          && Plainly(refs') && NoRef(tail') && refs' != [] && Render(refs', tail') == cond
          && forall i | 0 <= i < |refs'| :: isOn(refs'[i].name);
        CondMeaning(refs', tail', isOn);
      }
    }
  }

  // ----- The stack

  /** Each level of the stack is live exactly when its part is, and has been taken once
      its condition decided for the first part or an `else` has come. */
  ghost predicate Mirrors(stack: seq<Level>, around: seq<Part>, eval: string -> bool) {
    && |stack| == |around|
    && forall i | 0 <= i < |stack| ::
         && stack[i].active == Live(around[i], eval)
         && stack[i].ever == (around[i].elses > 0 || Live(around[i], eval))
  }

  lemma LineMirrors(r: Rules, s: State, lines: seq<Line>, line: Line)
    requires Mirrors(s.stack, Around(lines), r.eval)
    ensures Mirrors(Step(r, s, line).stack, Around(lines + [line]), r.eval)
    ensures Step(r, s, line).out == s.out + Adds(line, Around(lines), r)
  {
    assert (lines + [line])[..|lines|] == lines;
    if line.Plain? && line.item.Source? { CondExactly(line.item.cond, r.isOn); }
    hide CondEnabled, Wanted;
    if line.Else? && s.stack != [] {
      var k := |s.stack| - 1;
      ElseMirrors(s.stack[k], Around(lines)[k], r.eval);
    }
  }

  lemma ElseMirrors(l: Level, part: Part, eval: string -> bool)
    requires l.active == Live(part, eval) && l.ever == (part.elses > 0 || Live(part, eval))
    ensures !l.ever == Live(part.(elses := part.elses + 1), eval)
  {
  }

  lemma {:induction false} ExecSnoc(r: Rules, s: State, lines: seq<Line>, line: Line)
    ensures Exec(r, s, lines + [line]) == Step(r, Exec(r, s, lines), line)
  {
    ExecConcat(r, s, lines, [line]);
    assert [line][1..] == [];
    assert Exec(r, Step(r, Exec(r, s, lines), line), []) == Step(r, Exec(r, s, lines), line);
  }

  /** On every list of lines the evaluator selects exactly the sources whose condition is
      wanted and around which every part is live, each once and in order. */
  lemma {:induction false} SelectsExactly(r: Rules, lines: seq<Line>)
    ensures Exec(r, State([], []), lines).out == Selection(r, lines)
    ensures Mirrors(Exec(r, State([], []), lines).stack, Around(lines), r.eval)
  {
    hide Step, Adds, Live;
    if lines != [] {
      var init, line := lines[..|lines| - 1], lines[|lines| - 1];
      assert lines == init + [line];
      SelectsExactly(r, init);
      ExecSnoc(r, State([], []), init, line);
      LineMirrors(r, Exec(r, State([], []), init), init, line);
    }
  }
}
