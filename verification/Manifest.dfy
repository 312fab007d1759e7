/**
 The libvpx manifest evaluator: a line-by-line stack machine for nested
 conditionals, and the recursive meaning it agrees with.

 A line is taken as already recognised: a conditional, or a plain line.  How a
 condition's text is judged against the flags is the parameter `eval`.
 */
module Manifests {
  import opened Machine

  /** What a line outside the conditional syntax asks for. */
  datatype Item = Source(cond: string, path: string) | Other

  datatype Line = If(cond: string, negated: bool) | Else | Endif | Plain(item: Item)

  /** This branch is active; some branch of this conditional has been taken. */
  datatype Level = Level(active: bool, ever: bool)

  datatype Rules = Rules(eval: string -> bool, isOn: string -> bool, base: string)

  // ----- The stack machine

  predicate Active(stack: seq<Level>) {
    forall i | 0 <= i < |stack| :: stack[i].active
  }

  function Taken(r: Rules, cond: string, negated: bool): bool {
    if negated then !r.eval(cond) else r.eval(cond)
  }

  function Selected(r: Rules, item: Item): seq<string> {
    if item.Source? && CondEnabled(item.cond, r.isOn) then [r.base + "/" + item.path] else []
  }

  datatype State = State(stack: seq<Level>, out: seq<string>)

  function Step(r: Rules, s: State, line: Line): State {
    match line
    case If(cond, negated) =>
      s.(stack := s.stack + [Level(Taken(r, cond, negated), Taken(r, cond, negated))])
    case Else =>
      if s.stack == [] then s
      else s.(stack := s.stack[..|s.stack| - 1] + [Level(!s.stack[|s.stack| - 1].ever, true)])
    case Endif =>
      if s.stack == [] then s else s.(stack := s.stack[..|s.stack| - 1])
    case Plain(item) =>
      if Active(s.stack) then s.(out := s.out + Selected(r, item)) else s
  }

  function Exec(r: Rules, s: State, lines: seq<Line>): State
    decreases |lines|
  {
    if lines == [] then s else Exec(r, Step(r, s, lines[0]), lines[1..])
  }

  lemma {:induction false} ExecConcat(r: Rules, s: State, a: seq<Line>, b: seq<Line>)
    ensures Exec(r, s, a + b) == Exec(r, Exec(r, s, a), b)
    decreases |a|
  {
    if a == [] {
      assert a + b == b;
    } else {
      assert (a + b)[1..] == a[1..] + b;
      ExecConcat(r, Step(r, s, a[0]), a[1..], b);
    }
  }

  /** The evaluator itself. */
  method SourcesFromMakefile(r: Rules, lines: seq<Line>) returns (out: seq<string>)
    ensures out == Exec(r, State([], []), lines).out
  {
    out := [];
    var stack: seq<Level> := [];
    var i := 0;
    while i < |lines|
      invariant i <= |lines|
      invariant Exec(r, State(stack, out), lines[i..]) == Exec(r, State([], []), lines)
    {
      assert lines[i..][0] == lines[i] && lines[i..][1..] == lines[i + 1..];
      match lines[i] {
        case If(cond, negated) =>
          var taken := Taken(r, cond, negated);
          stack := stack + [Level(taken, taken)];
        case Else =>
          if stack != [] {
            var top := stack[|stack| - 1];
            stack := stack[..|stack| - 1] + [Level(!top.ever, true)];
          }
        case Endif =>
          if stack != [] {
            stack := stack[..|stack| - 1];
          }
        case Plain(item) =>
          if Active(stack) && item.Source? {
            var enabled := CheckCond(item.cond, r.isOn);
            if enabled {
              out := out + [r.base + "/" + item.path];
            }
          }
          assert out + [] == out;
      }
      i := i + 1;
    }
  }

  // ----- Source conditions: `yes`, or every $(FLAG) named is on

  /** Where the first "$(" is. */
  function FindRef(s: string): (i: Option<nat>)
    ensures i.Some? ==> i.value + 1 < |s| && s[i.value] == '$' && s[i.value + 1] == '('
  {
    if |s| < 2 then None
    else if s[0] == '$' && s[1] == '(' then Some(0)
    else match FindRef(s[1..]) case None => None case Some(i) => Some(i + 1)
  }

  /** Where the first ')' is. */
  function FindClose(s: string): (i: Option<nat>)
    ensures i.Some? ==> i.value < |s| && s[i.value] == ')'
  {
    if s == [] then None
    else if s[0] == ')' then Some(0)
    else match FindClose(s[1..]) case None => None case Some(i) => Some(i + 1)
  }

  /** From `rest` on, with references already seen or not. */
  function RefsEnabled(rest: string, isOn: string -> bool, sawOne: bool): bool
    decreases |rest|
  {
    match FindRef(rest)
    case None => sawOne
    case Some(start) =>
      match FindClose(rest[start..])
      case None => false
      case Some(end) =>
        CloseAfterOpen(rest[start..]);
        isOn(rest[start + 2..start + end]) && RefsEnabled(rest[start + end + 1..], isOn, true)
  }

  function CondEnabled(cond: string, isOn: string -> bool): bool {
    cond == "yes" || RefsEnabled(cond, isOn, false)
  }

  lemma CloseAfterOpen(s: string)
    requires |s| >= 2 && s[0] == '$' && s[1] == '(' && FindClose(s).Some?
    ensures FindClose(s).value >= 2
  {
  }

  method CheckCond(cond: string, isOn: string -> bool) returns (enabled: bool)
    ensures enabled == CondEnabled(cond, isOn)
  {
    hide FindRef, FindClose;
    if cond == "yes" {
      return true;
    }
    var rest := cond;
    var sawOne := false;
    while FindRef(rest).Some?
      invariant RefsEnabled(rest, isOn, sawOne) == RefsEnabled(cond, isOn, false)
      decreases |rest|
    {
      var start := FindRef(rest).value;
      var close := FindClose(rest[start..]);
      if close.None? {
        return false;
      }
      CloseAfterOpen(rest[start..]);
      var name := rest[start + 2..start + close.value];
      if !isOn(name) {
        return false;
      }
      sawOne := true;
      rest := rest[start + close.value + 1..];
    }
    return sawOne;
  }

  /** A reference with the text before it. */
  datatype Ref = Ref(gap: string, name: string)

  predicate RefAt(s: string, i: nat) {
    i + 1 < |s| && s[i] == '$' && s[i + 1] == '('
  }

  predicate NoRef(s: string) {
    forall i | 0 <= i < |s| :: !RefAt(s, i)
  }

  lemma NoRefTail(s: string)
    requires s != "" && NoRef(s)
    ensures NoRef(s[1..])
  {
    forall i | 0 <= i < |s[1..]| ensures !RefAt(s[1..], i) {
      assert !RefAt(s, i + 1);
    }
  }

  predicate NoClose(s: string) {
    forall i | 0 <= i < |s| :: s[i] != ')'
  }

  predicate Plainly(refs: seq<Ref>) {
    forall i | 0 <= i < |refs| :: NoRef(refs[i].gap) && NoClose(refs[i].name)
  }

  /** What can follow the last whole reference: no reference, or one left unclosed. */
  ghost predicate Trails(tail: string) {
    NoRef(tail) || exists g, n :: tail == g + "$(" + n && NoRef(g) && NoClose("$(" + n)
  }

  function Text(ref: Ref): string {
    ref.gap + "$(" + ref.name + ")"
  }

  function Render(refs: seq<Ref>, tail: string): string {
    if refs == [] then tail else Text(refs[0]) + Render(refs[1..], tail)
  }

  lemma {:induction false} FindRefAfterGap(gap: string, rest: string)
    requires NoRef(gap)
    ensures FindRef(gap + "$(" + rest) == Some(|gap|)
  {
    var s := gap + "$(" + rest;
    if gap != "" {
      assert s[1..] == gap[1..] + "$(" + rest;
      NoRefTail(gap);
      FindRefAfterGap(gap[1..], rest);
      assert !RefAt(gap, 0);
      assert !(s[0] == '$' && s[1] == '(') by { if |gap| > 1 { assert s[1] == gap[1]; } }
    }
  }

  lemma {:induction false} FindNoRef(s: string)
    requires NoRef(s)
    ensures FindRef(s) == None
  {
    if |s| >= 2 {
      NoRefTail(s);
      assert !RefAt(s, 0);
      FindNoRef(s[1..]);
    }
  }

  lemma {:induction false} FindCloseAfter(s: string, rest: string)
    requires NoClose(s)
    ensures FindClose(s + ")" + rest) == Some(|s|)
  {
    if s != "" {
      assert (s + ")" + rest)[1..] == s[1..] + ")" + rest;
      FindCloseAfter(s[1..], rest);
    }
  }

  lemma {:induction false} FindNoClose(s: string)
    requires NoClose(s)
    ensures FindClose(s) == None
  {
    if s != "" { FindNoClose(s[1..]); }
  }

  lemma TextIs(ref: Ref, rest: string)
    ensures Text(ref) + rest == ref.gap + "$(" + (ref.name + ")" + rest)
  {
  }

  lemma OpenNoClose(name: string)
    requires NoClose(name)
    ensures NoClose("$(" + name)
  {
  }

  lemma OneRef(ref: Ref, rest: string, isOn: string -> bool, sawOne: bool)
    requires NoRef(ref.gap) && NoClose(ref.name)
    ensures RefsEnabled(Text(ref) + rest, isOn, sawOne) <==> isOn(ref.name) && RefsEnabled(rest, isOn, true)
  {
    hide FindRef, FindClose, Text, NoRef, NoClose;
    var g := |ref.gap|;
    var s := Text(ref) + rest;
    TextIs(ref, rest);
    assert s == ref.gap + "$(" + (ref.name + ")" + rest);
    FindRefAfterGap(ref.gap, ref.name + ")" + rest);
    assert s[g..] == ("$(" + ref.name) + ")" + rest;
    OpenNoClose(ref.name);
    FindCloseAfter("$(" + ref.name, rest);
    var end := |ref.name| + 2;
    assert s[g + 2..g + end] == ref.name;
    assert s[g + end + 1..] == rest;
  }

  /** What trails decides by itself: nothing more, or a reference left unclosed. */
  lemma TrailerEnds(tail: string, isOn: string -> bool, sawOne: bool)
    requires Trails(tail)
    ensures RefsEnabled(tail, isOn, sawOne) <==> NoRef(tail) && sawOne
  {
    hide FindRef, FindClose;
    if NoRef(tail) {
      FindNoRef(tail);
    } else {
      var g, n :| tail == g + "$(" + n && NoRef(g) && NoClose("$(" + n);
      FindRefAfterGap(g, n);
      assert tail[|g|..] == "$(" + n;
      FindNoClose("$(" + n);
    }
  }

  lemma {:induction false} RefsMeaning(refs: seq<Ref>, tail: string, isOn: string -> bool, sawOne: bool)
    requires Plainly(refs) && Trails(tail)
    ensures RefsEnabled(Render(refs, tail), isOn, sawOne) <==>
            NoRef(tail) && (sawOne || refs != []) && forall i | 0 <= i < |refs| :: isOn(refs[i].name)
  {
    hide NoRef, NoClose, Text, RefsEnabled, Trails;
    if refs == [] {
      TrailerEnds(tail, isOn, sawOne);
    } else {
      OneRef(refs[0], Render(refs[1..], tail), isOn, sawOne);
      RefsMeaning(refs[1..], tail, isOn, true);
      assert forall i | 0 <= i < |refs[1..]| :: refs[1..][i] == refs[i + 1];
      if forall i | 0 <= i < |refs[1..]| :: isOn(refs[1..][i].name) {
        assert isOn(refs[0].name) ==> forall i | 0 <= i < |refs| :: isOn(refs[i].name) by {
          assert forall i | 1 <= i < |refs| :: refs[i] == refs[1..][i - 1];
        }
      }
    }
  }

  /** A condition other than `yes` is enabled exactly when it names at least one flag,
      every flag it names is on, and no reference is left unclosed. */
  lemma CondMeaning(refs: seq<Ref>, tail: string, isOn: string -> bool)
    requires Plainly(refs) && Trails(tail)
    requires Render(refs, tail) != "yes"
    ensures CondEnabled(Render(refs, tail), isOn) <==>
            NoRef(tail) && refs != [] && forall i | 0 <= i < |refs| :: isOn(refs[i].name)
  {
    RefsMeaning(refs, tail, isOn, false);
  }

  lemma {:induction false} FindRefIsFirst(s: string)
    ensures NoRef(match FindRef(s) case None => s case Some(i) => s[..i])
  {
    if |s| >= 2 && !(s[0] == '$' && s[1] == '(') {
      FindRefIsFirst(s[1..]);
      var head := match FindRef(s) case None => s case Some(i) => s[..i];
      var rest := match FindRef(s[1..]) case None => s[1..] case Some(i) => s[1..][..i];
      assert head[1..] == rest;
      forall k | 0 <= k < |head| ensures !RefAt(head, k) {
        if k > 0 { assert !RefAt(rest, k - 1); }
      }
    }
  }

  lemma {:induction false} FindCloseIsFirst(s: string)
    ensures NoClose(match FindClose(s) case None => s case Some(i) => s[..i])
  {
    if s != [] && s[0] != ')' {
      FindCloseIsFirst(s[1..]);
      var head := match FindClose(s) case None => s case Some(i) => s[..i];
      assert head == [s[0]] + (match FindClose(s[1..]) case None => s[1..] case Some(i) => s[1..][..i]);
    }
  }

  /** The first reference of a text, and what follows it; or nothing but what trails. */
  lemma FirstRef(s: string) returns (ref: Option<Ref>, rest: string)
    ensures ref.None? ==> Trails(s)
    ensures ref.Some? ==> Plainly([ref.value]) && s == Text(ref.value) + rest && |rest| < |s|
  {
    hide FindRef, FindClose, NoRef, NoClose, RefAt;
    ref, rest := None, s;
    FindRefIsFirst(s);
    if FindRef(s).Some? {
      var i := FindRef(s).value;
      var gap, ahead := s[..i], s[i..];
      SplitOpen(s, i);
      FindCloseIsFirst(ahead);
      if FindClose(ahead).Some? {
        CloseAfterOpen(ahead);
        var j := FindClose(ahead).value;
        NoCloseTail(ahead[..j], 2);
        SplitClose(ahead, j);
        ref, rest := Some(Ref(gap, ahead[2..j])), ahead[j + 1..];
        JoinRef(s, gap, ahead[2..j], rest);
      }
    }
  }

  lemma SplitOpen(s: string, i: nat)
    requires i + 1 < |s| && s[i] == '$' && s[i + 1] == '('
    ensures s == s[..i] + s[i..] && s[i..] == "$(" + s[i..][2..] && s == s[..i] + "$(" + s[i..][2..]
  {
  }

  lemma SplitClose(t: string, j: nat)
    requires 2 <= j < |t| && t[0] == '$' && t[1] == '(' && t[j] == ')'
    ensures t == "$(" + (t[2..j] + ")" + t[j + 1..]) && t[..j][2..] == t[2..j]
  {
  }

  lemma JoinRef(s: string, gap: string, name: string, rest: string)
    requires s == gap + ("$(" + (name + ")" + rest))
    ensures s == Text(Ref(gap, name)) + rest && |rest| < |s|
  {
    TextIs(Ref(gap, name), rest);
    assert gap + ("$(" + (name + ")" + rest)) == gap + "$(" + (name + ")" + rest);
  }

  /** Every text is whole references with the gaps before them, and what trails. */
  lemma {:induction false} EveryCondition(s: string) returns (refs: seq<Ref>, tail: string)
    ensures Plainly(refs) && Trails(tail) && Render(refs, tail) == s
    decreases |s|
  {
    hide Text, NoRef, NoClose, Trails;
    var ref, rest := FirstRef(s);
    if ref.None? {
      refs, tail := [], s;
    } else {
      var more;
      more, tail := EveryCondition(rest);
      refs := [ref.value] + more;
      assert refs[1..] == more && [ref.value][0] == ref.value;
      assert forall i | 0 < i < |refs| :: refs[i] == more[i - 1];
    }
  }

  lemma NoCloseTail(s: string, k: nat)
    requires NoClose(s) && k <= |s|
    ensures NoClose(s[k..])
  {
  }
}
