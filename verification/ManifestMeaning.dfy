/**
 The recursive meaning of nested conditionals, and the proof that the stack
 machine computes it, on well-nested manifests and on every other list of lines.
 */
module ManifestMeaning {
  import opened Manifests

  /** A run of lines and whole conditionals; the last conditional may be left open
      at the end of the text. */
  datatype Block =
    | Nil
    | Leaf(item: Item, rest: Block)
    | Branch(cond: string, negated: bool, body: Block, elses: Elses, rest: Block)
    | Open(cond: string, negated: bool, body: Block, elses: Elses)

  datatype Elses = NoElse | ElseThen(body: Block, more: Elses)

  function Size(b: Block): nat {
    match b
    case Nil => 1
    case Leaf(_, rest) => 1 + Size(rest)
    case Branch(_, _, body, elses, rest) => 2 + Size(body) + SizeElses(elses) + Size(rest)
    case Open(_, _, body, elses) => 2 + Size(body) + SizeElses(elses)
  }

  function SizeElses(e: Elses): nat {
    match e
    case NoElse => 1
    case ElseThen(body, more) => 1 + Size(body) + SizeElses(more)
  }

  function Flatten(b: Block): seq<Line> {
    match b
    case Nil => []
    case Leaf(item, rest) => [Plain(item)] + Flatten(rest)
    case Branch(cond, negated, body, elses, rest) =>
      [If(cond, negated)] + (Flatten(body) + (FlattenElses(elses) + ([Endif] + Flatten(rest))))
    case Open(cond, negated, body, elses) =>
      [If(cond, negated)] + (Flatten(body) + FlattenElses(elses))
  }

  function FlattenElses(e: Elses): seq<Line> {
    match e
    case NoElse => []
    case ElseThen(body, more) => [Else] + (Flatten(body) + FlattenElses(more))
  }

  /** The sources a block selects: of each conditional the first part if its
      condition holds, otherwise the first `else`; a second `else` is never taken. */
  function Denote(r: Rules, b: Block): seq<string>
    decreases Size(b)
  {
    match b
    case Nil => []
    case Leaf(item, rest) => Selected(r, item) + Denote(r, rest)
    case Branch(cond, negated, body, elses, rest) =>
      DenoteIf(r, Taken(r, cond, negated), body, elses) + Denote(r, rest)
    case Open(cond, negated, body, elses) =>
      DenoteIf(r, Taken(r, cond, negated), body, elses)
  }

  function DenoteIf(r: Rules, taken: bool, body: Block, elses: Elses): seq<string>
    decreases Size(body) + SizeElses(elses) + 1
  {
    (if taken then Denote(r, body) else []) +
    match elses
    case NoElse => []
    case ElseThen(first, _) => if taken then [] else Denote(r, first)
  }

  /** Every conditional has its `endif`. */
  predicate Closed(b: Block) {
    match b
    case Nil => true
    case Leaf(_, rest) => Closed(rest)
    case Branch(_, _, body, elses, rest) => Closed(body) && ClosedElses(elses) && Closed(rest)
    case Open(_, _, _, _) => false
  }

  predicate ClosedElses(e: Elses) {
    match e
    case NoElse => true
    case ElseThen(body, more) => Closed(body) && ClosedElses(more)
  }

  /** Only the last conditional can be open. */
  predicate Nested(b: Block) {
    match b
    case Nil => true
    case Leaf(_, rest) => Nested(rest)
    case Branch(_, _, body, elses, rest) => Closed(body) && ClosedElses(elses) && Nested(rest)
    case Open(_, _, body, elses) => if elses.NoElse? then Nested(body) else Closed(body) && NestedElses(elses)
  }

  predicate NestedElses(e: Elses) {
    match e
    case NoElse => true
    case ElseThen(body, more) => if more.NoElse? then Nested(body) else Closed(body) && NestedElses(more)
  }

  function When(active: bool, out: seq<string>): seq<string> {
    if active then out else []
  }

  lemma ActivePush(stack: seq<Level>, l: Level)
    ensures Active(stack + [l]) <==> Active(stack) && l.active
    ensures (stack + [l])[..|stack|] == stack
  {
    assert forall i | 0 <= i < |stack| :: (stack + [l])[i] == stack[i];
    assert (stack + [l])[|stack|] == l;
  }

  lemma ExecFirst(r: Rules, s: State, line: Line, rest: seq<Line>)
    ensures Exec(r, s, [line] + rest) == Exec(r, Step(r, s, line), rest)
  {
    assert ([line] + rest)[1..] == rest;
  }

  // ----- Well-nested manifests

  /** From any stack, a well-nested block selects exactly what it denotes, or nothing
      if the stack is inactive, and leaves the stack as it found it. */
  lemma {:induction false} ClosedBlock(r: Rules, s: State, b: Block)
    requires Closed(b)
    ensures Exec(r, s, Flatten(b)) == State(s.stack, s.out + When(Active(s.stack), Denote(r, b)))
    decreases Size(b)
  {
    hide Active, Taken, Selected;
    match b
    case Nil =>
    case Leaf(item, rest) =>
      ExecFirst(r, s, Plain(item), Flatten(rest));
      ClosedBlock(r, Step(r, s, Plain(item)), rest);
      JoinOut(s.out, Active(s.stack), Selected(r, item), Denote(r, rest));
    case Branch(cond, negated, body, elses, rest) =>
      var taken := Taken(r, cond, negated);
      ClosedIf(r, s, cond, negated, body, elses, [Endif] + Flatten(rest));
      var s1 := AfterIf(r, s, taken, body, elses);
      ExecFirst(r, s1, Endif, Flatten(rest));
      PopPush(s.stack, Level(LastActive(taken, elses), elses.ElseThen? || taken));
      ClosedBlock(r, State(s.stack, s1.out), rest);
      JoinOut(s.out, Active(s.stack), DenoteIf(r, taken, body, elses), Denote(r, rest));
  }

  lemma PopPush(stack: seq<Level>, l: Level)
    ensures stack + [l] != [] && (stack + [l])[..|stack + [l]| - 1] == stack
  {
  }

  lemma JoinOut(out: seq<string>, active: bool, a: seq<string>, b: seq<string>)
    ensures out + When(active, a) + When(active, b) == out + When(active, a + b)
  {
  }

  /** Whether the part of a conditional reached last is the one taken. */
  function LastActive(ever: bool, elses: Elses): bool {
    match elses
    case NoElse => ever
    case ElseThen(_, NoElse) => !ever
    case ElseThen(_, _) => false
  }

  /** The state a conditional's parts leave, its level still on the stack. */
  function AfterIf(r: Rules, s: State, taken: bool, body: Block, elses: Elses): State {
    State(s.stack + [Level(LastActive(taken, elses), elses.ElseThen? || taken)],
          s.out + When(Active(s.stack), DenoteIf(r, taken, body, elses)))
  }

  lemma {:induction false} ClosedIf(r: Rules, s: State, cond: string, negated: bool, body: Block, elses: Elses, rest: seq<Line>)
    requires Closed(body) && ClosedElses(elses)
    ensures Exec(r, s, [If(cond, negated)] + (Flatten(body) + (FlattenElses(elses) + rest))) ==
            Exec(r, AfterIf(r, s, Taken(r, cond, negated), body, elses), rest)
    decreases Size(body) + SizeElses(elses) + 1
  {
    hide Active, Taken, Selected;
    var taken := Taken(r, cond, negated);
    var s1 := State(s.stack + [Level(taken, taken)], s.out);
    ExecFirst(r, s, If(cond, negated), Flatten(body) + (FlattenElses(elses) + rest));
    ExecConcat(r, s1, Flatten(body), FlattenElses(elses) + rest);
    ClosedBlock(r, s1, body);
    ActivePush(s.stack, Level(taken, taken));
    var s2 := State(s1.stack, s.out + When(Active(s.stack) && taken, Denote(r, body)));
    match elses
    case NoElse =>
      assert FlattenElses(elses) + rest == rest;
      assert AfterIf(r, s, taken, body, elses) == s2;
    case ElseThen(first, more) =>
      FirstElse(r, s.stack, s2.out, taken, first, more, rest);
      SplitOut(s.out, Active(s.stack), taken, Denote(r, body), Denote(r, first));
  }

  lemma SplitOut(out: seq<string>, active: bool, taken: bool, a: seq<string>, b: seq<string>)
    ensures out + When(active && taken, a) + When(active && !taken, b) ==
            out + When(active, (if taken then a else []) + (if taken then [] else b))
  {
  }

  lemma {:induction false} FirstElse(r: Rules, stack: seq<Level>, out: seq<string>, taken: bool, first: Block, more: Elses, rest: seq<Line>)
    requires Closed(first) && ClosedElses(more)
    ensures Exec(r, State(stack + [Level(taken, taken)], out), FlattenElses(ElseThen(first, more)) + rest) ==
            Exec(r, State(stack + [Level(LastActive(taken, ElseThen(first, more)), true)],
                          out + When(Active(stack) && !taken, Denote(r, first))), rest)
    decreases Size(first) + SizeElses(more) + 1
  {
    hide Active, Selected;
    var s := State(stack + [Level(taken, taken)], out);
    var s1 := State(stack + [Level(!taken, true)], out);
    assert FlattenElses(ElseThen(first, more)) + rest == [Else] + (Flatten(first) + (FlattenElses(more) + rest));
    ExecFirst(r, s, Else, Flatten(first) + (FlattenElses(more) + rest));
    PopPush(stack, Level(taken, taken));
    ExecConcat(r, s1, Flatten(first), FlattenElses(more) + rest);
    ClosedBlock(r, s1, first);
    ActivePush(stack, Level(!taken, true));
    LaterElses(r, stack, out + When(Active(stack) && !taken, Denote(r, first)), !taken, more, rest);
  }

  /** After the first `else`, nothing more is ever taken. */
  lemma {:induction false} LaterElses(r: Rules, stack: seq<Level>, out: seq<string>, active: bool, more: Elses, rest: seq<Line>)
    requires ClosedElses(more)
    ensures Exec(r, State(stack + [Level(active, true)], out), FlattenElses(more) + rest) ==
            Exec(r, State(stack + [Level(active && more.NoElse?, true)], out), rest)
    decreases SizeElses(more)
  {
    hide Active, Selected;
    match more
    case NoElse =>
      assert FlattenElses(more) + rest == rest;
    case ElseThen(body, later) =>
      var s1 := State(stack + [Level(false, true)], out);
      assert FlattenElses(more) + rest == [Else] + (Flatten(body) + (FlattenElses(later) + rest));
      ExecFirst(r, State(stack + [Level(active, true)], out), Else, Flatten(body) + (FlattenElses(later) + rest));
      PopPush(stack, Level(active, true));
      ExecConcat(r, s1, Flatten(body), FlattenElses(later) + rest);
      ClosedBlock(r, s1, body);
      ActivePush(stack, Level(false, true));
      assert out + [] == out;
      LaterElses(r, stack, out, false, later, rest);
  }

  /** A well-nested manifest, evaluated from nothing, yields exactly its meaning. */
  lemma WellNestedManifest(r: Rules, b: Block)
    requires Closed(b)
    ensures Exec(r, State([], []), Flatten(b)) == State([], Denote(r, b))
  {
    ClosedBlock(r, State([], []), b);
    assert Active([]);
    assert [] + Denote(r, b) == Denote(r, b);
  }

  // ----- Conditionals left open at the end of the text

  lemma {:induction false} NestedBlock(r: Rules, s: State, b: Block)
    requires Nested(b)
    ensures Exec(r, s, Flatten(b)).out == s.out + When(Active(s.stack), Denote(r, b))
    decreases Size(b)
  {
    hide Active, Taken, Selected;
    match b
    case Nil =>
    case Leaf(item, rest) =>
      ExecFirst(r, s, Plain(item), Flatten(rest));
      NestedBlock(r, Step(r, s, Plain(item)), rest);
      JoinOut(s.out, Active(s.stack), Selected(r, item), Denote(r, rest));
    case Branch(cond, negated, body, elses, rest) =>
      var taken := Taken(r, cond, negated);
      ClosedIf(r, s, cond, negated, body, elses, [Endif] + Flatten(rest));
      var s1 := AfterIf(r, s, taken, body, elses);
      ExecFirst(r, s1, Endif, Flatten(rest));
      PopPush(s.stack, Level(LastActive(taken, elses), elses.ElseThen? || taken));
      NestedBlock(r, State(s.stack, s1.out), rest);
      JoinOut(s.out, Active(s.stack), DenoteIf(r, taken, body, elses), Denote(r, rest));
    case Open(cond, negated, body, elses) =>
      OpenIf(r, s, cond, negated, body, elses);
  }

  lemma {:induction false} OpenIf(r: Rules, s: State, cond: string, negated: bool, body: Block, elses: Elses)
    requires Nested(Open(cond, negated, body, elses))
    ensures Exec(r, s, [If(cond, negated)] + (Flatten(body) + FlattenElses(elses))).out ==
            s.out + When(Active(s.stack), DenoteIf(r, Taken(r, cond, negated), body, elses))
    decreases Size(body) + SizeElses(elses) + 1
  {
    hide Active, Taken, Selected;
    var taken := Taken(r, cond, negated);
    var s1 := State(s.stack + [Level(taken, taken)], s.out);
    ExecFirst(r, s, If(cond, negated), Flatten(body) + FlattenElses(elses));
    ActivePush(s.stack, Level(taken, taken));
    match elses
    case NoElse =>
      assert Flatten(body) + FlattenElses(elses) == Flatten(body);
      NestedBlock(r, s1, body);
      assert DenoteIf(r, taken, body, elses) == if taken then Denote(r, body) else [];
    case ElseThen(first, more) =>
      ExecConcat(r, s1, Flatten(body), FlattenElses(elses));
      ClosedBlock(r, s1, body);
      var out := s.out + When(Active(s.stack) && taken, Denote(r, body));
      OpenElse(r, s.stack, out, Level(taken, taken), first, more);
      SplitOut(s.out, Active(s.stack), taken, Denote(r, body), Denote(r, first));
  }

  /** A final run of `else` parts: the first is live if nothing before it was, the rest never. */
  lemma {:induction false} OpenElse(r: Rules, stack: seq<Level>, out: seq<string>, l: Level, first: Block, more: Elses)
    requires NestedElses(ElseThen(first, more))
    ensures Exec(r, State(stack + [l], out), FlattenElses(ElseThen(first, more))).out ==
            out + When(Active(stack) && !l.ever, Denote(r, first))
    decreases Size(first) + SizeElses(more) + 1
  {
    hide Active, Selected;
    var s1 := State(stack + [Level(!l.ever, true)], out);
    ExecFirst(r, State(stack + [l], out), Else, Flatten(first) + FlattenElses(more));
    PopPush(stack, l);
    ActivePush(stack, Level(!l.ever, true));
    match more
    case NoElse =>
      assert Flatten(first) + FlattenElses(more) == Flatten(first);
      NestedBlock(r, s1, first);
    case ElseThen(next, later) =>
      ExecConcat(r, s1, Flatten(first), FlattenElses(more));
      ClosedBlock(r, s1, first);
      var out1 := out + When(Active(stack) && !l.ever, Denote(r, first));
      OpenElse(r, stack, out1, Level(!l.ever, true), next, later);
      assert out1 + [] == out1;
  }

  // ----- Every list of lines

  /** Recursive descent: the longest block at the front, and what stopped it. */
  function ParseBlock(lines: seq<Line>): (p: (Block, seq<Line>))
    ensures |p.1| <= |lines|
    decreases |lines|, 1
  {
    if lines == [] then (Nil, [])
    else match lines[0]
      case Plain(item) =>
        var (rest, left) := ParseBlock(lines[1..]);
        (Leaf(item, rest), left)
      case If(cond, negated) =>
        var (body, left) := ParseBlock(lines[1..]);
        var (elses, left') := ParseElses(left);
        if left' == [] then (Open(cond, negated, body, elses), [])
        else
          var (rest, left'') := ParseBlock(left'[1..]);
          (Branch(cond, negated, body, elses, rest), left'')
      case _ => (Nil, lines)
  }

  function ParseElses(lines: seq<Line>): (p: (Elses, seq<Line>))
    ensures |p.1| <= |lines|
    decreases |lines|, 0
  {
    if lines == [] || !lines[0].Else? then (NoElse, lines)
    else
      var (body, left) := ParseBlock(lines[1..]);
      var (more, left') := ParseElses(left);
      (ElseThen(body, more), left')
  }

  predicate Stops(lines: seq<Line>) {
    lines == [] || lines[0].Else? || lines[0].Endif?
  }

  ghost predicate ParsedAs(lines: seq<Line>, b: Block, left: seq<Line>) {
    Flatten(b) + left == lines && Stops(left) && (if left == [] then Nested(b) else Closed(b))
  }

  ghost predicate ParsedAsElses(lines: seq<Line>, e: Elses, left: seq<Line>) {
    && FlattenElses(e) + left == lines && (left == [] || left[0].Endif?)
    && (if left == [] then NestedElses(e) && (lines != [] ==> e.ElseThen?) else ClosedElses(e))
  }

  /** Parsing loses nothing, and leaves an open conditional only at the end of the text. */
  lemma {:induction false} ParseIsExact(lines: seq<Line>)
    ensures ParsedAs(lines, ParseBlock(lines).0, ParseBlock(lines).1)
    decreases |lines|, 1
  {
    if lines != [] {
      assert lines == [lines[0]] + lines[1..];
      match lines[0]
      case Plain(item) =>
        ParseIsExact(lines[1..]);
      case If(cond, negated) =>
        var (body, left) := ParseBlock(lines[1..]);
        ParseIsExact(lines[1..]);
        ParseElsesIsExact(left);
        var (elses, left') := ParseElses(left);
        if left' != [] {
          ParseIsExact(left'[1..]);
          var (rest, left'') := ParseBlock(left'[1..]);
          BranchIsExact(lines, cond, negated, body, left, elses, left', rest, left'');
        } else {
          OpenIsExact(lines, cond, negated, body, left, elses);
        }
      case _ =>
        assert [] + lines == lines;
    }
  }

  lemma BranchIsExact(lines: seq<Line>, cond: string, negated: bool, body: Block, left: seq<Line>,
                      elses: Elses, left': seq<Line>, rest: Block, left'': seq<Line>)
    requires lines != [] && lines[0] == If(cond, negated) && ParsedAs(lines[1..], body, left)
    requires ParsedAsElses(left, elses, left') && left' != [] && ParsedAs(left'[1..], rest, left'')
    ensures ParsedAs(lines, Branch(cond, negated, body, elses, rest), left'')
  {
    assert lines == [lines[0]] + lines[1..];
    assert left' == [Endif] + left'[1..];
    assert left != [];
    Reassociate(Flatten(body), FlattenElses(elses), Flatten(rest), left'');
  }

  lemma OpenIsExact(lines: seq<Line>, cond: string, negated: bool, body: Block, left: seq<Line>, elses: Elses)
    requires lines != [] && lines[0] == If(cond, negated) && ParsedAs(lines[1..], body, left)
    requires ParsedAsElses(left, elses, [])
    ensures ParsedAs(lines, Open(cond, negated, body, elses), [])
  {
    assert lines == [lines[0]] + lines[1..];
    assert Flatten(body) + FlattenElses(elses) + [] == Flatten(body) + FlattenElses(elses);
    if left == [] {
      assert elses == NoElse by { assert FlattenElses(elses) == []; }
    }
  }

  lemma Reassociate(a: seq<Line>, b: seq<Line>, c: seq<Line>, d: seq<Line>)
    ensures a + (b + ([Endif] + (c + d))) == (a + (b + ([Endif] + c))) + d
  {
  }

  lemma {:induction false} ParseElsesIsExact(lines: seq<Line>)
    requires Stops(lines)
    ensures ParsedAsElses(lines, ParseElses(lines).0, ParseElses(lines).1)
    decreases |lines|, 0
  {
    hide ParsedAs, Stops;
    StopsAt(lines);
    if lines != [] && lines[0].Else? {
      ParseIsExact(lines[1..]);
      var (body, left) := ParseBlock(lines[1..]);
      ParseElsesIsExact(left);
      var (more, left') := ParseElses(left);
      ElseIsExact(lines, body, left, more, left');
    } else {
      assert [] + lines == lines;
    }
  }

  lemma StopsAt(lines: seq<Line>)
    requires Stops(lines)
    ensures lines != [] ==> lines[0].Else? || lines[0].Endif?
  {
  }

  lemma ElseIsExact(lines: seq<Line>, body: Block, left: seq<Line>, more: Elses, left': seq<Line>)
    requires lines != [] && lines[0] == Else && ParsedAs(lines[1..], body, left) && ParsedAsElses(left, more, left')
    ensures ParsedAsElses(lines, ElseThen(body, more), left')
  {
    assert lines == [Else] + lines[1..];
    assert Flatten(body) + (FlattenElses(more) + left') == (Flatten(body) + FlattenElses(more)) + left';
    if left == [] { assert more == NoElse by { assert FlattenElses(more) == []; } }
  }

  /** The meaning of any text: block after block, an `else` or `endif` outside every
      conditional being skipped. */
  function Meaning(r: Rules, lines: seq<Line>): seq<string>
    decreases |lines|
  {
    var (b, left) := ParseBlock(lines);
    Denote(r, b) + if left == [] then [] else Meaning(r, left[1..])
  }

  lemma {:induction false} MachineIsMeaning(r: Rules, out: seq<string>, lines: seq<Line>)
    ensures Exec(r, State([], out), lines).out == out + Meaning(r, lines)
    decreases |lines|
  {
    hide Active, Selected;
    ParseIsExact(lines);
    NothingIsActive();
    var (b, left) := ParseBlock(lines);
    var s := State([], out);
    if left == [] {
      assert Flatten(b) + [] == Flatten(b);
      NestedBlock(r, s, b);
      assert Denote(r, b) + [] == Denote(r, b);
    } else {
      ExecConcat(r, s, Flatten(b), left);
      ClosedBlock(r, s, b);
      assert left == [left[0]] + left[1..];
      ExecFirst(r, State([], out + Denote(r, b)), left[0], left[1..]);
      MachineIsMeaning(r, out + Denote(r, b), left[1..]);
      assert out + (Denote(r, b) + Meaning(r, left[1..])) == out + Denote(r, b) + Meaning(r, left[1..]);
    }
  }

  lemma NothingIsActive()
    ensures Active([])
  {
  }

  /** On every list of lines, however nested, unbalanced or unfinished, the stack
      machine selects exactly the sources recursive descent does. */
  lemma EveryManifest(r: Rules, lines: seq<Line>)
    ensures Exec(r, State([], []), lines).out == Meaning(r, lines)
  {
    MachineIsMeaning(r, [], lines);
    assert [] + Meaning(r, lines) == Meaning(r, lines);
  }
}
