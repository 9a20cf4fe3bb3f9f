/** The shape of printed template text: balanced brackets, and no stray equality. */
module TemplateShape {
  import opened Text
  import opened TemplateScan
  import opened TemplateSyntax

  lemma {:induction false} LevelConcat(kind: Bracket, a: string, b: string, i: nat)
    requires i <= |a| + |b|
    ensures Level(kind, a + b, i) ==
      if i <= |a| then Level(kind, a, i) else Level(kind, a, |a|) + Level(kind, b, i - |a|)
  {
    if i > 0 {
      LevelConcat(kind, a, b, i - 1);
    }
  }

  lemma BalancedConcat(a: string, b: string)
    requires Balanced(a) && Balanced(b)
    ensures Balanced(a + b)
  {
    forall kind, i | 0 <= i <= |a + b|
      ensures Level(kind, a + b, i) >= 0 && Level(kind, a + b, |a + b|) == 0
    {
      LevelConcat(kind, a, b, i);
      LevelConcat(kind, a, b, |a + b|);
    }
  }

  /** The two texts do not form an equality where they meet. */
  predicate Separate(a: string, b: string) {
    a == "" || b == "" || !IsBangOrEquals(a[|a| - 1]) || b[0] != '='
  }

  lemma CleanConcat(a: string, b: string)
    requires Clean(a) && Clean(b) && Separate(a, b)
    ensures Clean(a + b)
  {
    BalancedConcat(a, b);
    forall i | 0 <= i <= |a + b|
      ensures !IsRawEquality(a + b, i)
    {
      LevelConcat(Either, a, b, i);
      if i < |a| {
        assert !IsRawEquality(a, i);
      } else {
        assert !IsRawEquality(b, i - |a|);
      }
    }
  }

  /** Text without brackets is balanced. */
  lemma {:induction false} FlatLevel(kind: Bracket, s: string, i: nat)
    requires i <= |s| && forall k :: 0 <= k < |s| ==> Delta(Either, s[k]) == 0
    ensures Level(kind, s, i) == 0
  {
    if i > 0 {
      assert Delta(Either, s[i - 1]) == 0;
      FlatLevel(kind, s, i - 1);
    }
  }

  lemma FlatBalanced(s: string)
    requires forall k :: 0 <= k < |s| ==> Delta(Either, s[k]) == 0
    ensures Balanced(s)
  {
    forall kind, i | 0 <= i <= |s|
      ensures Level(kind, s, i) == 0
    {
      FlatLevel(kind, s, i);
    }
  }

  lemma PlainClean(s: string)
    requires forall k :: 0 <= k < |s| ==> Delta(Either, s[k]) == 0 && !IsBangOrEquals(s[k])
    ensures Clean(s)
  {
    FlatBalanced(s);
  }

  /** Inside a pair of brackets every level is one higher for the counters that see the pair. */
  lemma EnclosedLevel(kind: Bracket, open: char, s: string, close: char, i: nat)
    requires (open == '(' && close == ')') || (open == '[' && close == ']')
    requires Balanced(s) && i <= |s| + 2
    ensures Level(kind, Enclosed(open, s, close), i) ==
      if i == 0 || i == |s| + 2 then 0 else Delta(kind, open) + Level(kind, s, i - 1)
  {
    var t := Enclosed(open, s, close);
    LevelConcat(kind, [open] + s, [close], i);
    LevelConcat(kind, [open], s, if i <= |s| + 1 then i else |s| + 1);
    assert Level(kind, [open], 1) == Delta(kind, open);
    assert Level(kind, [close], 1) == Delta(kind, close);
  }

  lemma EnclosedClean(open: char, s: string, close: char)
    requires (open == '(' && close == ')') || (open == '[' && close == ']')
    requires Balanced(s)
    ensures Clean(Enclosed(open, s, close))
  {
    var t := Enclosed(open, s, close);
    forall kind, i | 0 <= i <= |t|
      ensures Level(kind, t, i) >= 0 && Level(kind, t, |t|) == 0
    {
      EnclosedLevel(kind, open, s, close, i);
      EnclosedLevel(kind, open, s, close, |t|);
      assert 1 <= i <= |s| + 1 ==> Level(kind, s, i - 1) >= 0;
    }
    forall i | 0 <= i <= |t|
      ensures !IsRawEquality(t, i)
    {
      EnclosedLevel(Either, open, s, close, i);
      assert 1 <= i <= |s| + 1 ==> Level(Either, s, i - 1) >= 0;
    }
  }

  /** Ends on both sides in characters that neither trimming nor an operator can absorb. */
  predicate Edged(s: string) {
    Trimmed(s) && s[0] != '=' && !IsBangOrEquals(s[|s| - 1])
  }

  lemma TextShape(quote: char, body: string)
    requires (quote == '"' || quote == '\'') && Clean(body)
    ensures Edged([quote] + body + [quote]) && Clean([quote] + body + [quote])
  {
    PlainClean([quote]);
    CleanConcat([quote], body);
    CleanConcat([quote] + body, [quote]);
  }

  lemma NotShape(pad: string, operand: string)
    requires Blank(pad) && Edged(operand) && Clean(operand)
    ensures Edged("!" + pad + operand) && Clean("!" + pad + operand)
  {
    BlankClean(pad);
    FlatBalanced("!");
    assert Clean("!");
    assert Separate("!", pad);
    CleanConcat("!", pad);
    assert pad != "" ==> IsSpace(pad[|pad| - 1]);
    CleanConcat("!" + pad, operand);
  }

  lemma GroupShape(lpad: string, inner: string, rpad: string)
    requires Blank(lpad) && Blank(rpad) && Balanced(inner)
    ensures Edged(Enclosed('(', lpad + inner + rpad, ')')) && Clean(Enclosed('(', lpad + inner + rpad, ')'))
  {
    PaddedBalanced(lpad, inner, rpad);
    EnclosedClean('(', lpad + inner + rpad, ')');
  }

  lemma EqualShape(op: Operator, left: string, lpad: string, rpad: string, right: string)
    requires Blank(lpad) && Blank(rpad) && Edged(left) && Edged(right) && Balanced(left) && Balanced(right)
    ensures Edged(left + lpad + Symbol(op) + rpad + right) && Balanced(left + lpad + Symbol(op) + rpad + right)
  {
    BlankClean(lpad);
    BlankClean(rpad);
    FlatBalanced(Symbol(op));
    BalancedConcat(left, lpad);
    BalancedConcat(left + lpad, Symbol(op));
    BalancedConcat(left + lpad + Symbol(op), rpad);
    BalancedConcat(left + lpad + Symbol(op) + rpad, right);
  }

  lemma PathShape(head: string, tail: string)
    requires IsIdent(head) && Clean(tail)
    requires tail != "" ==>
      (tail[0] == '.' || tail[0] == '[') && (IsIdentPart(tail[|tail| - 1]) || tail[|tail| - 1] == ']')
    ensures Edged(head + tail) && Clean(head + tail)
  {
    PlainClean(head);
    CleanConcat(head, tail);
  }

  lemma {:induction false} PrintShape(e: Expr)
    requires Printable(e)
    ensures Edged(Print(e)) && Balanced(Print(e))
    ensures !e.Equal? ==> NoRawEquality(Print(e))
    decreases e, 0
  {
    match e
    case Word(w) => PlainClean(Spelling(w));
    case Number(text) => NumberShape(text);
    case Text(quote, body) => TextShape(quote, body);
    case Path(head, steps) =>
      StepsShape(steps);
      PathShape(head, PrintSteps(steps));
    case Not(pad, operand) =>
      OperandShape(operand);
      NotShape(pad, PrintOperand(operand));
    case Group(lpad, inner, rpad) =>
      PrintShape(inner);
      GroupShape(lpad, Print(inner), rpad);
    case Equal(op, left, lpad, rpad, right) =>
      OperandShape(left);
      OperandShape(right);
      EqualShape(op, PrintOperand(left), lpad, rpad, PrintOperand(right));
  }

  lemma BlankClean(pad: string)
    requires Blank(pad)
    ensures Clean(pad)
  {
    assert forall k :: 0 <= k < |pad| ==> IsSpace(pad[k]);
    PlainClean(pad);
  }

  lemma PaddedBalanced(lpad: string, s: string, rpad: string)
    requires Blank(lpad) && Balanced(s) && Blank(rpad)
    ensures Balanced(lpad + s + rpad)
  {
    BlankClean(lpad);
    BlankClean(rpad);
    BalancedConcat(lpad, s);
    BalancedConcat(lpad + s, rpad);
  }

  lemma NumberShape(text: string)
    requires IsNumber(text)
    ensures Edged(text) && Clean(text)
    ensures IsDigit(text[0]) || text[0] == '-'
  {
    var i := if text[0] == '-' then 1 else 0;
    var e := DigitRunEnd(text, i);
    forall k | 0 <= k < |text|
      ensures IsDigit(text[k]) || text[k] == '-' || text[k] == '.'
    {
      if k > e {
        assert DigitRunEnd(text, e + 1) == |text|;
      }
    }
    PlainClean(text);
    assert IsDigit(text[e - 1]);
  }

  lemma {:induction false} OperandShape(e: Expr)
    requires Printable(e)
    ensures Edged(PrintOperand(e)) && Clean(PrintOperand(e))
    decreases e, 1
  {
    PrintShape(e);
    if e.Equal? {
      EnclosedClean('(', Print(e), ')');
    }
  }

  /** A chain of steps is empty or starts with a dot or a bracket, and ends in a name or a bracket. */
  lemma {:induction false} StepsShape(steps: Steps)
    requires PrintableSteps(steps)
    ensures var t := PrintSteps(steps);
      && Clean(t)
      && (steps.Done? <==> t == "")
      && (steps.Dot? <==> t != "" && t[0] == '.')
      && (steps.At? <==> t != "" && t[0] == '[')
      && (t != "" ==> IsIdentPart(t[|t| - 1]) || t[|t| - 1] == ']')
    decreases steps, 0
  {
    match steps
    case Done =>
      PlainClean("");
    case Dot(name, rest) =>
      StepsShape(rest);
      PlainClean("." + name);
      CleanConcat("." + name, PrintSteps(rest));
    case At(lpad, key, rpad, rest) =>
      PrintShape(key);
      StepsShape(rest);
      PaddedBalanced(lpad, Print(key), rpad);
      EnclosedClean('[', lpad + Print(key) + rpad, ']');
      CleanConcat(Enclosed('[', lpad + Print(key) + rpad, ']'), PrintSteps(rest));
  }
}
