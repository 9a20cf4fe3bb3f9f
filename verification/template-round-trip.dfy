/** Evaluating the printed text of an expression gives the meaning of the expression. */
module TemplateRoundTrip {
  import opened Options
  import opened Text
  import opened TemplateScan
  import opened TemplateSyntax
  import opened TemplateShape
  import R = TemplateResolve

  // ---- where the scanners stop in printed text

  lemma {:induction false} IdentRunEndAt(s: string, i: nat, e: nat)
    requires i <= e <= |s| && (forall k :: i <= k < e ==> IsIdentPart(s[k]))
    requires e < |s| ==> !IsIdentPart(s[e])
    ensures IdentRunEnd(s, i) == e
    decreases e - i
  {
    if i < e {
      IdentRunEndAt(s, i + 1, e);
    }
  }

  /** The longest identifier, or else the longest run of digits, that starts at `i`. */
  ghost predicate NameAt(s: string, i: nat, name: string) {
    var e := i + |name|;
    && e <= |s| && s[i..e] == name && IsMemberName(name)
    && (e < |s| ==> !(if IsIdent(name) then IsIdentPart(s[e]) else IsDigit(s[e])))
  }

  lemma NameEndAt(s: string, i: nat, name: string)
    requires NameAt(s, i, name)
    ensures NameEnd(s, i) == i + |name|
  {
    assert forall k :: i <= k < i + |name| ==> s[k] == s[i..i + |name|][k - i];
    if IsIdent(name) {
      IdentRunEndAt(s, i + 1, i + |name|);
    } else {
      DigitRunEndAt(s, i, i + |name|);
    }
  }

  /** What the name scanner reads is such a name, unless it reads nothing. */
  lemma NameAtEnd(s: string, i: nat)
    requires i <= |s| && NameEnd(s, i) > i
    ensures NameAt(s, i, s[i..NameEnd(s, i)])
  {
    var e := NameEnd(s, i);
    var name := s[i..e];
    assert forall k :: 0 <= k < |name| ==> name[k] == s[i + k];
    if IsIdentStart(s[i]) {
      assert IsIdent(name);
    }
  }

  /** The bracket scanner stops at the bracket that was printed with the key. */
  lemma BracketTextAt(before: string, inner: string, after: string)
    requires Balanced(inner)
    ensures BracketText(before + Enclosed('[', inner, ']') + after, |before| + 1) == Some(inner)
  {
    var s := before + Enclosed('[', inner, ']') + after;
    var start := |before| + 1;
    forall k | start <= k <= start + |inner|
      ensures Closes(s, start, k) <==> k == start + |inner|
    {
      KeyLevel(before, inner, after, k + 1);
      KeyLevel(before, inner, after, start);
      assert k < start + |inner| ==> Level(Square, inner, k + 1 - start) >= 0;
    }
    assert Closes(s, start, start + |inner|);
    assert CloseFrom(s, start, start) == Some(start + |inner|);
    assert s[start..start + |inner|] == inner;
  }

  lemma KeyLevel(before: string, inner: string, after: string, i: nat)
    requires Balanced(inner) && |before| < i <= |before| + |inner| + 2
    ensures Level(Square, before + Enclosed('[', inner, ']') + after, i) ==
      Level(Square, before, |before|) +
      if i == |before| + |inner| + 2 then 0 else 1 + Level(Square, inner, i - |before| - 1)
  {
    LevelConcat(Square, before + Enclosed('[', inner, ']'), after, i);
    LevelConcat(Square, before, Enclosed('[', inner, ']'), i);
    EnclosedLevel(Square, '[', inner, ']', i - |before|);
  }

  /** The equality scanner splits at the printed operator, and not inside the left operand. */
  lemma SplitAt(left: string, op: Operator, right: string)
    requires Clean(left) && !Blank(left) && !IsBangOrEquals(left[|left| - 1])
    ensures forall k :: 0 <= k <= |left| ==> (IsSplit(left + Symbol(op) + right, k) <==> k == |left|)
  {
    var tail := Symbol(op) + right;
    var s := left + Symbol(op) + right;
    assert s == left + tail;
    forall k | 0 <= k <= |left|
      ensures IsSplit(s, k) <==> k == |left|
    {
      LevelConcat(Either, left, tail, k);
      if k < |left| {
        assert !IsRawEquality(left, k);
      } else {
        assert s[..k] == left;
        assert IsRawEquality(s, k);
      }
    }
  }

  lemma HalvesAt(left: string, op: Operator, right: string)
    requires Clean(left) && !Blank(left) && !IsBangOrEquals(left[|left| - 1])
    requires right != "" && right[0] != '='
    ensures HalvesOf(left + Symbol(op) + right) == Some(Halves(left, op, right))
  {
    SplitAt(left, op, right);
    forall k | 0 <= k < |left|
      ensures !IsSplit(left, k)
    {
      SplitInside(left, op, right, k);
    }
    OperandKept(left, op, right);
  }

  /** Inside the left operand the splits of the whole are those of the operand alone. */
  lemma SplitInside(left: string, op: Operator, right: string, k: nat)
    requires k < |left| && !IsBangOrEquals(left[|left| - 1])
    ensures IsSplit(left + Symbol(op) + right, k) <==> IsSplit(left, k)
  {
    var tail := Symbol(op) + right;
    var s := left + Symbol(op) + right;
    assert s == left + tail && s[..k] == left[..k];
    LevelConcat(Either, left, tail, k);
  }

  /** The equality scanner splits at a written operator exactly when the text before it closes as many brackets
      as it opens and has no split of its own; for a string literal, brackets and operators inside it count. */
  lemma OperandKept(left: string, op: Operator, right: string)
    requires !Blank(left) && !IsBangOrEquals(left[|left| - 1]) && right != "" && right[0] != '='
    ensures HalvesOf(left + Symbol(op) + right) == Some(Halves(left, op, right)) <==>
      Level(Either, left, |left|) == 0 && forall k :: 0 <= k < |left| ==> !IsSplit(left, k)
  {
    var s, n := left + Symbol(op) + right, |left|;
    SplitThere(left, op, right);
    forall k | 0 <= k < n
      ensures IsSplit(s, k) <==> IsSplit(left, k)
    {
      SplitInside(left, op, right, k);
    }
    if IsSplit(s, n) {
      OperatorWritten(left, op, right);
    }
    HalvesFirst(s, left, op, right);
  }

  lemma SplitThere(left: string, op: Operator, right: string)
    requires !Blank(left) && !IsBangOrEquals(left[|left| - 1])
    ensures IsSplit(left + Symbol(op) + right, |left|) <==> Level(Either, left, |left|) == 0
  {
    var s := left + Symbol(op) + right;
    assert s == left + (Symbol(op) + right) && s[..|left|] == left;
    LevelConcat(Either, left, Symbol(op) + right, |left|);
  }

  /** The halves are the two operands exactly when the first split is where the left one ends. */
  lemma HalvesFirst(s: string, left: string, op: Operator, right: string)
    requires s == left + Symbol(op) + right && left != ""
    requires IsSplit(s, |left|) ==> OperatorAt(s, |left|) == op
    ensures HalvesOf(s) == Some(Halves(left, op, right)) <==>
      IsSplit(s, |left|) && forall k :: 0 <= k < |left| ==> !IsSplit(s, k)
  {
    var found, n := SplitFrom(s, 0), |left|;
    assert s[..n] == left && s[n + |Symbol(op)|..] == right;
    if found.Some? && s[..found.value.index] == left {
      assert found.value.index == n;
    }
  }

  lemma OperatorWritten(left: string, op: Operator, right: string)
    requires right != "" && right[0] != '=' && IsSplit(left + Symbol(op) + right, |left|)
    ensures OperatorAt(left + Symbol(op) + right, |left|) == op
  {
    var s, i := left + Symbol(op) + right, |left|;
    assert s[i..] == Symbol(op) + right && s[i] == Symbol(op)[0];
    assert i + 2 < |s| && s[i + 2] == (Symbol(op) + right)[2];
  }

  /** Two operands are not one wrapped expression, whatever brackets they start and end with. */
  lemma EqualNotWrapped(left: string, rest: string)
    requires left != "" && rest != "" && Balanced(left)
    ensures !R.IsWrapped(left + rest)
  {
    LevelConcat(Round, left, rest, |left|);
  }

  lemma GroupWrapped(s: string)
    requires Balanced(s)
    ensures R.IsWrapped(Enclosed('(', s, ')'))
  {
    forall k | 1 <= k < |s| + 2
      ensures Level(Round, Enclosed('(', s, ')'), k) > 0
    {
      EnclosedLevel(Round, '(', s, ')', k);
      assert Level(Round, s, k - 1) >= 0;
    }
  }

  // ---- one step of the evaluator on each printed form

  lemma ResolveCore(h: Host, vals: Value, s: string)
    requires Trimmed(s)
    ensures R.Resolve(h, vals, s) == R.ResolveTrimmed(h, vals, s)
  {
    TrimPadded("", s, "");
    assert "" + s + "" == s;
  }

  /** White space around an expression does not matter. */
  lemma ResolvePadded(h: Host, vals: Value, left: string, core: string, right: string)
    requires Blank(left) && Trimmed(core) && Blank(right)
    ensures R.Resolve(h, vals, left + core + right) == R.Resolve(h, vals, core)
  {
    TrimPadded(left, core, right);
    ResolveCore(h, vals, core);
  }

  lemma ResolvePaddedLeft(h: Host, vals: Value, left: string, core: string)
    requires Blank(left) && Trimmed(core)
    ensures R.Resolve(h, vals, left + core) == R.Resolve(h, vals, core)
  {
    assert left + core + "" == left + core;
    ResolvePadded(h, vals, left, core, "");
  }

  lemma ResolvePaddedRight(h: Host, vals: Value, core: string, right: string)
    requires Trimmed(core) && Blank(right)
    ensures R.Resolve(h, vals, core + right) == R.Resolve(h, vals, core)
  {
    assert "" + core == core;
    ResolvePadded(h, vals, "", core, right);
  }

  lemma ResolveGroup(h: Host, vals: Value, lpad: string, inner: string, rpad: string)
    requires Blank(lpad) && Edged(inner) && Balanced(inner) && Blank(rpad)
    ensures R.Resolve(h, vals, Enclosed('(', lpad + inner + rpad, ')')) == R.Resolve(h, vals, inner)
  {
    var padded := lpad + inner + rpad;
    var s := Enclosed('(', padded, ')');
    PaddedBalanced(lpad, inner, rpad);
    GroupWrapped(padded);
    assert s[1..|s| - 1] == padded;
    ResolveCore(h, vals, s);
    ResolvePadded(h, vals, lpad, inner, rpad);
  }

  lemma ResolveEnclosed(h: Host, vals: Value, inner: string)
    requires Edged(inner) && Balanced(inner)
    ensures R.Resolve(h, vals, Enclosed('(', inner, ')')) == R.Resolve(h, vals, inner)
  {
    ResolveGroup(h, vals, "", inner, "");
    assert "" + inner + "" == inner;
  }

  lemma ResolveSplit(h: Host, vals: Value, s: string, halves: Halves)
    requires Trimmed(s) && !R.IsWrapped(s) && HalvesOf(s) == Some(halves)
    ensures R.Resolve(h, vals, s) ==
      R.Compare(h, halves.op, R.Resolve(h, vals, halves.left), R.Resolve(h, vals, halves.right))
  {
    ResolveCore(h, vals, s);
    assert R.ResolveTrimmed(h, vals, s) == R.ResolveHalves(h, vals, halves, |s|);
  }

  lemma Regrouped(left: string, lpad: string, symbol: string, rpad: string, right: string)
    ensures left + lpad + symbol + rpad + right == (left + lpad) + symbol + (rpad + right)
    ensures left + lpad + symbol + rpad + right == left + (lpad + symbol + (rpad + right))
  {
  }

  lemma PaddedOperand(left: string, lpad: string)
    requires Blank(lpad) && Edged(left) && Clean(left)
    ensures Clean(left + lpad) && !Blank(left + lpad) && !IsBangOrEquals((left + lpad)[|left + lpad| - 1])
  {
    BlankClean(lpad);
    CleanConcat(left, lpad);
    assert (left + lpad)[0] == left[0];
  }

  lemma EqualHalves(op: Operator, left: string, lpad: string, rpad: string, right: string)
    requires Blank(lpad) && Blank(rpad) && Edged(left) && Edged(right) && Clean(left)
    ensures var s := left + lpad + Symbol(op) + rpad + right;
      && Trimmed(s) && !R.IsWrapped(s)
      && HalvesOf(s) == Some(Halves(left + lpad, op, rpad + right))
  {
    var s := left + lpad + Symbol(op) + rpad + right;
    Regrouped(left, lpad, Symbol(op), rpad, right);
    PaddedOperand(left, lpad);
    HalvesAt(left + lpad, op, rpad + right);
    EqualNotWrapped(left, lpad + Symbol(op) + (rpad + right));
  }

  lemma ResolveEqual(h: Host, vals: Value, op: Operator, left: string, lpad: string, rpad: string, right: string)
    requires Blank(lpad) && Blank(rpad) && Edged(left) && Edged(right) && Clean(left)
    ensures R.Resolve(h, vals, left + lpad + Symbol(op) + rpad + right) ==
      R.Compare(h, op, R.Resolve(h, vals, left), R.Resolve(h, vals, right))
  {
    EqualHalves(op, left, lpad, rpad, right);
    ResolveSplit(h, vals, left + lpad + Symbol(op) + rpad + right, Halves(left + lpad, op, rpad + right));
    ResolvePaddedRight(h, vals, left, lpad);
    ResolvePaddedLeft(h, vals, rpad, right);
  }

  /** A text with nothing to split at that does not open with a bracket is read as one unit. */
  lemma ResolveAsUnit(h: Host, vals: Value, s: string)
    requires Trimmed(s) && HalvesOf(s).None? && s[0] != '('
    ensures R.Resolve(h, vals, s) == R.ResolveUnit(h, vals, s)
  {
    ResolveCore(h, vals, s);
  }

  lemma Unsplit(s: string)
    requires NoRawEquality(s)
    ensures HalvesOf(s).None?
  {
  }

  lemma ResolveNot(h: Host, vals: Value, pad: string, operand: string)
    requires Blank(pad) && Edged(operand) && Clean(operand)
    ensures R.Resolve(h, vals, "!" + pad + operand) == R.Boolean(!R.Truthy(R.Resolve(h, vals, operand)))
  {
    var s := "!" + pad + operand;
    NotShape(pad, operand);
    Unsplit(s);
    ResolveAsUnit(h, vals, s);
    assert s[1..] == pad + operand;
    ResolvePaddedLeft(h, vals, pad, operand);
  }

  lemma QuotedUnit(h: Host, vals: Value, quote: char, body: string)
    requires quote == '"' || quote == '\''
    ensures R.ResolveUnit(h, vals, [quote] + body + [quote]) == R.Str(body)
  {
    var s := [quote] + body + [quote];
    assert s[0] == quote && s[|s| - 1] == quote;
    assert DigitRunEnd(s, 0) == 0;
    assert s[1..|s| - 1] == body;
  }

  lemma ResolveText(h: Host, vals: Value, quote: char, body: string)
    requires (quote == '"' || quote == '\'') && Clean(body)
    ensures R.Resolve(h, vals, [quote] + body + [quote]) == R.Str(body)
  {
    TextShape(quote, body);
    Unsplit([quote] + body + [quote]);
    ResolveAsUnit(h, vals, [quote] + body + [quote]);
    QuotedUnit(h, vals, quote, body);
  }

  lemma NumberUnit(h: Host, vals: Value, text: string)
    requires IsNumber(text) && (IsDigit(text[0]) || text[0] == '-')
    ensures R.ResolveUnit(h, vals, text) == R.Number(R.NumberOf(text))
  {
    assert text[0] !in "tfnu!";
  }

  lemma ResolveNumber(h: Host, vals: Value, text: string)
    requires IsNumber(text)
    ensures R.Resolve(h, vals, text) == R.Number(R.NumberOf(text))
  {
    NumberShape(text);
    Unsplit(text);
    ResolveAsUnit(h, vals, text);
    NumberUnit(h, vals, text);
  }

  lemma ResolveWord(h: Host, vals: Value, w: Keyword)
    ensures R.Resolve(h, vals, Spelling(w)) == Eval(h, vals, Word(w))
  {
    PlainClean(Spelling(w));
    Unsplit(Spelling(w));
    ResolveAsUnit(h, vals, Spelling(w));
  }

  /** A text that starts like an identifier is a keyword or a path. */
  lemma PathUnit(h: Host, vals: Value, s: string)
    requires s != "" && IsIdentStart(s[0]) && !IsKeyword(s)
    ensures R.ResolveUnit(h, vals, s) == R.ResolvePath(h, vals, s)
  {
    assert DigitRunEnd(s, 0) == 0;
  }

  lemma HeadTurn(h: Host, vals: Value, head: string, tail: string)
    requires IsIdent(head) && (tail != "" ==> !IsIdentPart(tail[0]))
    ensures R.ResolvePath(h, vals, head + tail) ==
      R.ResolveSteps(h, vals, head + tail, |head|, Member(h, vals, R.Str(head)))
  {
    var s := head + tail;
    assert forall k :: 0 <= k < |head| ==> s[k] == head[k];
    IdentRunEndAt(s, 1, |head|);
    assert s[..|head|] == head;
  }

  lemma PathTextShape(head: string, tail: string)
    requires IsIdent(head) && Clean(tail) && (tail == "" ==> !IsKeyword(head))
    requires tail != "" ==> (tail[0] == '.' || tail[0] == '[') && !IsSpace(tail[|tail| - 1])
    ensures var s := head + tail;
      Trimmed(s) && NoRawEquality(s) && s[0] == head[0] && IsIdentStart(s[0]) && !IsKeyword(s)
  {
    var s := head + tail;
    PlainClean(head);
    CleanConcat(head, tail);
    if tail == "" {
      assert s == head;
    } else {
      assert s[|head|] == tail[0];
    }
  }

  /** A path text is none of the literals. */
  lemma ResolvePathText(h: Host, vals: Value, head: string, tail: string)
    requires IsIdent(head) && Clean(tail) && (tail == "" ==> !IsKeyword(head))
    requires tail != "" ==> (tail[0] == '.' || tail[0] == '[') && !IsSpace(tail[|tail| - 1])
    ensures R.Resolve(h, vals, head + tail) == R.ResolvePath(h, vals, head + tail)
  {
    PathTextShape(head, tail);
    Unsplit(head + tail);
    ResolveAsUnit(h, vals, head + tail);
    PathUnit(h, vals, head + tail);
  }

  // ---- the theorem

  lemma DotText(before: string, name: string, tail: string)
    requires IsMemberName(name) && (tail != "" ==> !IsIdentPart(tail[0]))
    ensures ReadsDot(before + ("." + name) + tail, |before|, name)
  {
    var s := before + ("." + name) + tail;
    assert s[|before| + 1..|before| + 1 + |name|] == name;
  }

  /** A dot and then, in full, a member name. */
  ghost predicate ReadsDot(s: string, i: nat, name: string) {
    i < |s| && s[i] == '.' && NameAt(s, i + 1, name)
  }

  lemma NameRead(h: Host, s: string, i: nat, name: string, owner: Value)
    requires ReadsDot(s, i, name)
    ensures R.ReadName(h, s, i, owner) == Some(R.Progress(i + 1 + |name|, Member(h, owner, R.Str(name))))
  {
    NameEndAt(s, i + 1, name);
  }

  lemma OneTurn(h: Host, vals: Value, s: string, i: nat, owner: Value, next: nat, member: Value)
    requires 0 < i < |s| && R.ReadSegment(h, vals, s, i, owner) == Some(R.Progress(next, member))
    ensures R.ResolveSteps(h, vals, s, i, owner) == R.ResolveSteps(h, vals, s, next, member)
  {
  }

  lemma DotSegment(h: Host, vals: Value, s: string, i: nat, owner: Value)
    requires 0 < i < |s| && s[i] == '.'
    ensures R.ReadSegment(h, vals, s, i, owner) == R.ReadName(h, s, i, owner)
  {
  }

  /** One turn of the path loop over `.name`. */
  lemma DotTurn(h: Host, vals: Value, s: string, i: nat, name: string, owner: Value)
    requires 0 < i < |s| && ReadsDot(s, i, name)
    ensures R.ResolveSteps(h, vals, s, i, owner) ==
      R.ResolveSteps(h, vals, s, i + 1 + |name|, Member(h, owner, R.Str(name)))
  {
    MemberTurn(h, vals, s, i, name, owner, Member(h, owner, R.Str(name)));
  }

  lemma MemberTurn(h: Host, vals: Value, s: string, i: nat, name: string, owner: Value, member: Value)
    requires 0 < i < |s| && ReadsDot(s, i, name) && member == Member(h, owner, R.Str(name))
    ensures R.ResolveSteps(h, vals, s, i, owner) == R.ResolveSteps(h, vals, s, i + 1 + |name|, member)
  {
    DotSegment(h, vals, s, i, owner);
    NameRead(h, s, i, name, owner);
    OneTurn(h, vals, s, i, owner, i + 1 + |name|, member);
  }

  /** A bracket whose text the scanner finds to be `inner`. */
  ghost predicate ReadsKey(s: string, i: nat, inner: string) {
    i + |inner| + 2 <= |s| && s[i] == '[' && BracketText(s, i + 1) == Some(inner)
  }

  lemma BracketRead(before: string, inner: string, tail: string)
    requires Balanced(inner)
    ensures ReadsKey(before + Enclosed('[', inner, ']') + tail, |before|, inner)
  {
    BracketTextAt(before, inner, tail);
    assert (before + Enclosed('[', inner, ']') + tail)[|before|] == '[';
  }

  lemma KeySegment(h: Host, vals: Value, s: string, i: nat, owner: Value)
    requires 0 < i < |s| && s[i] == '['
    ensures R.ReadSegment(h, vals, s, i, owner) == R.ReadKey(h, vals, s, i, owner)
  {
  }

  /** One turn of the path loop over `[inner]`. */
  lemma KeyTurn(h: Host, vals: Value, s: string, i: nat, inner: string, owner: Value)
    requires 0 < i < |s| && ReadsKey(s, i, inner)
    ensures R.ResolveSteps(h, vals, s, i, owner) ==
      R.ResolveSteps(h, vals, s, i + |inner| + 2, Member(h, owner, R.Resolve(h, vals, inner)))
  {
    KeySegment(h, vals, s, i, owner);
    OneTurn(h, vals, s, i, owner, i + |inner| + 2, Member(h, owner, R.Resolve(h, vals, inner)));
  }

  /** The path loop goes on behind a dot and a name with the property of that name. */
  ghost predicate ByName(h: Host, s: string, i: nat, owner: Value, name: string, r: R.Progress) {
    ReadsDot(s, i, name) && r.next == i + 1 + |name| && r.cur == Member(h, owner, R.Str(name))
  }

  /** The path loop goes on behind a bracket with the property that the value of its text names. */
  ghost predicate ByKey(h: Host, vals: Value, s: string, i: nat, owner: Value, inner: string, r: R.Progress) {
    ReadsKey(s, i, inner) && r.next == i + |inner| + 2 && r.cur == Member(h, owner, R.Resolve(h, vals, inner))
  }

  lemma NameTurns(h: Host, s: string, i: nat, owner: Value, r: R.Progress)
    requires i < |s| && s[i] == '.'
    ensures R.ReadName(h, s, i, owner) == Some(r) <==> exists name :: ByName(h, s, i, owner, name, r)
  {
    if R.ReadName(h, s, i, owner) == Some(r) {
      NameAtEnd(s, i + 1);
      assert ByName(h, s, i, owner, s[i + 1..NameEnd(s, i + 1)], r);
    }
    forall name | ByName(h, s, i, owner, name, r)
      ensures R.ReadName(h, s, i, owner) == Some(r)
    {
      NameRead(h, s, i, name, owner);
    }
  }

  lemma KeyByKey(h: Host, vals: Value, s: string, i: nat, owner: Value, r: R.Progress)
    requires 0 < i < |s| && s[i] == '[' && R.ReadKey(h, vals, s, i, owner) == Some(r)
    ensures exists inner :: ByKey(h, vals, s, i, owner, inner, r)
  {
    assert ByKey(h, vals, s, i, owner, BracketText(s, i + 1).value, r);
  }

  lemma ByKeyRead(h: Host, vals: Value, s: string, i: nat, owner: Value, inner: string, r: R.Progress)
    requires 0 < i < |s| && ByKey(h, vals, s, i, owner, inner, r)
    ensures R.ReadKey(h, vals, s, i, owner) == Some(r)
  {
  }

  lemma KeyTurns(h: Host, vals: Value, s: string, i: nat, owner: Value, r: R.Progress)
    requires 0 < i < |s| && s[i] == '['
    ensures R.ReadKey(h, vals, s, i, owner) == Some(r) <==> exists inner :: ByKey(h, vals, s, i, owner, inner, r)
  {
    if R.ReadKey(h, vals, s, i, owner) == Some(r) {
      KeyByKey(h, vals, s, i, owner, r);
    }
    if inner :| ByKey(h, vals, s, i, owner, inner, r) {
      ByKeyRead(h, vals, s, i, owner, inner, r);
    }
  }

  /** One turn of the path loop reads a whole name or a whole key, and gives up when neither is there. */
  lemma SegmentExactly(h: Host, vals: Value, s: string, i: nat, owner: Value, r: R.Progress)
    requires 0 < i < |s|
    ensures R.ReadSegment(h, vals, s, i, owner) == Some(r) <==>
      || (exists name :: ByName(h, s, i, owner, name, r))
      || (exists inner :: ByKey(h, vals, s, i, owner, inner, r))
  {
    if s[i] == '.' {
      DotSegment(h, vals, s, i, owner);
      NameTurns(h, s, i, owner, r);
    } else if s[i] == '[' {
      KeySegment(h, vals, s, i, owner);
      KeyTurns(h, vals, s, i, owner, r);
    }
  }

  lemma PathTail(steps: Steps)
    requires PrintableSteps(steps)
    ensures var t := PrintSteps(steps);
      && Clean(t) && (t == "" <==> steps.Done?)
      && (t != "" ==> (t[0] == '.' || t[0] == '[') && !IsSpace(t[|t| - 1]) && !IsIdentPart(t[0]))
  {
    StepsShape(steps);
  }

  /** What is left to read is a dot, a name and some more. */
  lemma NextDot(s: string, i: nat, name: string, tail: string)
    requires i <= |s| && s[i..] == "." + name + tail
    requires IsMemberName(name) && (tail != "" ==> !IsIdentPart(tail[0]))
    ensures ReadsDot(s, i, name) && s[i + 1 + |name|..] == tail
  {
    DotText(s[..i], name, tail);
    assert s == s[..i] + ("." + name) + tail;
  }

  /** What is left to read is a bracketed text and some more. */
  lemma NextKey(s: string, i: nat, inner: string, tail: string)
    requires i <= |s| && s[i..] == Enclosed('[', inner, ']') + tail && Balanced(inner)
    ensures ReadsKey(s, i, inner) && s[i + |inner| + 2..] == tail
  {
    BracketRead(s[..i], inner, tail);
    assert s == s[..i] + Enclosed('[', inner, ']') + tail;
  }

  /** One turn of the path loop when `.name` and `tail` are left. */
  lemma DotStep(h: Host, vals: Value, s: string, i: nat, name: string, tail: string, owner: Value, member: Value)
    returns (next: nat)
    requires 0 < i <= |s| && s[i..] == "." + name + tail && member == Member(h, owner, R.Str(name))
    requires IsMemberName(name) && (tail != "" ==> !IsIdentPart(tail[0]))
    ensures 0 < next <= |s| && s[next..] == tail
    ensures R.ResolveSteps(h, vals, s, i, owner) == R.ResolveSteps(h, vals, s, next, member)
  {
    NextDot(s, i, name, tail);
    MemberTurn(h, vals, s, i, name, owner, member);
    next := i + 1 + |name|;
  }

  /** One turn of the path loop when a bracketed text and `tail` are left. */
  lemma KeyStep(h: Host, vals: Value, s: string, i: nat, inner: string, tail: string, owner: Value)
    requires 0 < i <= |s| && s[i..] == Enclosed('[', inner, ']') + tail && Balanced(inner)
    ensures i + |inner| + 2 <= |s| && s[i + |inner| + 2..] == tail
    ensures R.ResolveSteps(h, vals, s, i, owner) ==
      R.ResolveSteps(h, vals, s, i + |inner| + 2, Member(h, owner, R.Resolve(h, vals, inner)))
  {
    NextKey(s, i, inner, tail);
    KeyTurn(h, vals, s, i, inner, owner);
  }

  /** Reading the first step leaves the other steps to read, and an owner to read them from. */
  ghost predicate StepRead(h: Host, vals: Value, s: string, i: nat, steps: Steps, owner: Value,
                           next: nat, rest: Steps, member: Value)
    requires 0 < i <= |s| && PrintableSteps(steps)
  {
    && 0 < next <= |s| && PrintableSteps(rest) && s[next..] == PrintSteps(rest)
    && R.ResolveSteps(h, vals, s, i, owner) == R.ResolveSteps(h, vals, s, next, member)
    && EvalSteps(h, vals, steps, owner) == EvalSteps(h, vals, rest, member)
  }

  lemma DotRead(h: Host, vals: Value, s: string, i: nat, steps: Steps, owner: Value) returns (next: nat, member: Value)
    requires 0 < i <= |s| && s[i..] == PrintSteps(steps) && PrintableSteps(steps) && steps.Dot?
    ensures StepRead(h, vals, s, i, steps, owner, next, steps.rest, member)
  {
    PathTail(steps.rest);
    member := Member(h, owner, R.Str(steps.name));
    next := DotStep(h, vals, s, i, steps.name, PrintSteps(steps.rest), owner, member);
  }

  /** The text of a printed key, the member that its value names, and the steps with that key read. */
  lemma {:induction false} AtForm(h: Host, vals: Value, steps: Steps, owner: Value)
    returns (inner: string, tail: string, member: Value)
    requires PrintableSteps(steps) && steps.At?
    ensures PrintSteps(steps) == Enclosed('[', inner, ']') + tail && tail == PrintSteps(steps.rest)
    ensures Balanced(inner) && Member(h, owner, R.Resolve(h, vals, inner)) == member
    ensures PrintableSteps(steps.rest) && EvalSteps(h, vals, steps, owner) == EvalSteps(h, vals, steps.rest, member)
    decreases steps, 0
  {
    inner, tail := steps.lpad + Print(steps.key) + steps.rpad, PrintSteps(steps.rest);
    member := Member(h, owner, Eval(h, vals, steps.key));
    KeyMeaning(h, vals, steps.lpad, steps.key, steps.rpad);
  }

  lemma KeyRead(h: Host, vals: Value, s: string, i: nat, inner: string, tail: string, owner: Value, member: Value)
    returns (next: nat)
    requires 0 < i <= |s| && s[i..] == Enclosed('[', inner, ']') + tail && Balanced(inner)
    requires Member(h, owner, R.Resolve(h, vals, inner)) == member
    ensures 0 < next <= |s| && s[next..] == tail
    ensures R.ResolveSteps(h, vals, s, i, owner) == R.ResolveSteps(h, vals, s, next, member)
  {
    KeyStep(h, vals, s, i, inner, tail, owner);
    next := i + |inner| + 2;
  }

  lemma {:induction false} AtRead(h: Host, vals: Value, s: string, i: nat, steps: Steps, owner: Value)
    returns (next: nat, member: Value)
    requires 0 < i <= |s| && s[i..] == PrintSteps(steps) && PrintableSteps(steps) && steps.At?
    ensures StepRead(h, vals, s, i, steps, owner, next, steps.rest, member)
    decreases steps, 1
  {
    var inner, tail;
    inner, tail, member := AtForm(h, vals, steps, owner);
    next := KeyRead(h, vals, s, i, inner, tail, owner, member);
  }

  /** The path loop over the rest of a text that is a chain of steps. */
  lemma {:induction false} StepsMeaning(h: Host, vals: Value, s: string, i: nat, steps: Steps, owner: Value)
    requires 0 < i <= |s| && s[i..] == PrintSteps(steps) && PrintableSteps(steps)
    ensures R.ResolveSteps(h, vals, s, i, owner) == EvalSteps(h, vals, steps, owner)
    decreases steps, 2
  {
    if !steps.Done? {
      var next, member;
      if steps.Dot? {
        next, member := DotRead(h, vals, s, i, steps, owner);
      } else {
        next, member := AtRead(h, vals, s, i, steps, owner);
      }
      StepsMeaning(h, vals, s, next, steps.rest, member);
    }
  }

  lemma {:induction false} KeyMeaning(h: Host, vals: Value, lpad: string, key: Expr, rpad: string)
    requires Blank(lpad) && Printable(key) && Blank(rpad)
    ensures Balanced(lpad + Print(key) + rpad)
    ensures R.Resolve(h, vals, lpad + Print(key) + rpad) == Eval(h, vals, key)
    decreases key, 1
  {
    PrintShape(key);
    PaddedBalanced(lpad, Print(key), rpad);
    Meaning(h, vals, key);
    ResolvePadded(h, vals, lpad, Print(key), rpad);
  }

  lemma {:induction false} PathMeaning(h: Host, vals: Value, head: string, steps: Steps)
    requires IsIdent(head) && (steps.Done? ==> !IsKeyword(head)) && PrintableSteps(steps)
    ensures R.Resolve(h, vals, head + PrintSteps(steps)) == EvalSteps(h, vals, steps, Member(h, vals, R.Str(head)))
    decreases steps, 3
  {
    var tail := PrintSteps(steps);
    PathTail(steps);
    ResolvePathText(h, vals, head, tail);
    HeadTurn(h, vals, head, tail);
    assert (head + tail)[|head|..] == tail;
    StepsMeaning(h, vals, head + tail, |head|, steps, Member(h, vals, R.Str(head)));
  }

  lemma EqualMeaning(h: Host, vals: Value, op: Operator, left: Expr, lpad: string, rpad: string, right: Expr)
    requires Printable(Equal(op, left, lpad, rpad, right))
    requires R.Resolve(h, vals, PrintOperand(left)) == Eval(h, vals, left)
    requires R.Resolve(h, vals, PrintOperand(right)) == Eval(h, vals, right)
    ensures R.Resolve(h, vals, Print(Equal(op, left, lpad, rpad, right))) ==
      R.Boolean(Holds(h, op, Eval(h, vals, left), Eval(h, vals, right)))
  {
    OperandShape(left);
    OperandShape(right);
    ResolveEqual(h, vals, op, PrintOperand(left), lpad, rpad, PrintOperand(right));
    ComparesBy(h, op, Eval(h, vals, left), Eval(h, vals, right));
  }

  /** A comparison gives true exactly when the two values are identical, or loosely equal, or not. */
  lemma ComparesBy(h: Host, op: Operator, a: Value, b: Value)
    ensures R.Compare(h, op, a, b) == R.Boolean(Holds(h, op, a, b))
  {
  }

  /** A negation is true of six kinds of values and no others. */
  lemma NegatesFalsy(v: Value)
    ensures R.Truthy(v) <==> !Falsy(v)
  {
  }

  lemma {:induction false} NotMeaning(h: Host, vals: Value, pad: string, operand: Expr)
    requires Blank(pad) && Printable(operand)
    ensures R.Resolve(h, vals, Print(Not(pad, operand))) == R.Boolean(Falsy(Eval(h, vals, operand)))
    decreases operand, 2
  {
    OperandMeaning(h, vals, operand);
    OperandShape(operand);
    ResolveNot(h, vals, pad, PrintOperand(operand));
    NegatesFalsy(Eval(h, vals, operand));
  }

  lemma {:induction false} Meaning(h: Host, vals: Value, e: Expr)
    requires Printable(e)
    ensures R.Resolve(h, vals, Print(e)) == Eval(h, vals, e)
    decreases e, 0
  {
    match e
    case Word(w) => ResolveWord(h, vals, w);
    case Number(text) => ResolveNumber(h, vals, text);
    case Text(quote, body) => ResolveText(h, vals, quote, body);
    case Path(head, steps) =>
      PathMeaning(h, vals, head, steps);
    case Not(pad, operand) =>
      NotMeaning(h, vals, pad, operand);
    case Group(lpad, inner, rpad) =>
      PrintShape(inner);
      Meaning(h, vals, inner);
      ResolveGroup(h, vals, lpad, Print(inner), rpad);
    case Equal(op, left, lpad, rpad, right) =>
      OperandMeaning(h, vals, left);
      OperandMeaning(h, vals, right);
      EqualMeaning(h, vals, op, left, lpad, rpad, right);
  }

  lemma {:induction false} OperandMeaning(h: Host, vals: Value, e: Expr)
    requires Printable(e)
    ensures R.Resolve(h, vals, PrintOperand(e)) == Eval(h, vals, e)
    decreases e, 1
  {
    Meaning(h, vals, e);
    if e.Equal? {
      PrintShape(e);
      ResolveEnclosed(h, vals, Print(e));
    }
  }

  /** The evaluator over raw text and the meaning of the tree agree on every printable expression. */
  lemma RoundTrip(h: Host, vals: Value, lpad: string, e: Expr, rpad: string)
    requires Blank(lpad) && Printable(e) && Blank(rpad)
    ensures R.Resolve(h, vals, lpad + Print(e) + rpad) == Eval(h, vals, e)
  {
    PrintShape(e);
    Meaning(h, vals, e);
    ResolvePadded(h, vals, lpad, Print(e), rpad);
  }

  // ---- what a path reads, step by step

  /** Any name that is no keyword is the property of that name of the given values. */
  lemma PathHead(h: Host, vals: Value, head: string)
    requires IsIdent(head) && !IsKeyword(head)
    ensures R.Resolve(h, vals, head) ==
      if vals == R.Undefined || vals == R.Null then R.Undefined else h.property(vals, R.Str(head))
  {
    assert head + PrintSteps(Done) == head;
    PathMeaning(h, vals, head, Done);
  }

  function Then(steps: Steps, last: Steps): Steps {
    match steps
    case Done => last
    case Dot(name, rest) => Dot(name, Then(rest, last))
    case At(lpad, key, rpad, rest) => At(lpad, key, rpad, Then(rest, last))
  }

  lemma {:induction false} ThenPrints(steps: Steps, last: Steps)
    ensures PrintSteps(Then(steps, last)) == PrintSteps(steps) + PrintSteps(last)
  {
    match steps
    case Done =>
    case Dot(name, rest) =>
      ThenPrints(rest, last);
    case At(lpad, key, rpad, rest) =>
      ThenPrints(rest, last);
      assert PrintSteps(Then(steps, last)) ==
        Enclosed('[', lpad + Print(key) + rpad, ']') + (PrintSteps(rest) + PrintSteps(last));
  }

  lemma {:induction false} ThenPrintable(steps: Steps, last: Steps)
    requires PrintableSteps(steps) && PrintableSteps(last)
    ensures PrintableSteps(Then(steps, last))
  {
    if !steps.Done? {
      ThenPrintable(steps.rest, last);
    }
  }

  lemma {:induction false} ThenMeans(h: Host, vals: Value, steps: Steps, last: Steps, owner: Value)
    requires PrintableSteps(steps) && PrintableSteps(last) && PrintableSteps(Then(steps, last))
    ensures EvalSteps(h, vals, Then(steps, last), owner) == EvalSteps(h, vals, last, EvalSteps(h, vals, steps, owner))
  {
    match steps
    case Done =>
    case Dot(name, rest) =>
      ThenMeans(h, vals, rest, last, Member(h, owner, R.Str(name)));
    case At(_, key, _, rest) =>
      ThenMeans(h, vals, rest, last, Member(h, owner, Eval(h, vals, key)));
  }

  lemma MoreText(head: string, steps: Steps, last: Steps)
    requires PrintableSteps(steps) && !last.Done?
    ensures head + PrintSteps(Then(steps, last)) == (head + PrintSteps(steps)) + PrintSteps(last)
    ensures !Then(steps, last).Done?
  {
    ThenPrints(steps, last);
  }

  /** A path with one more step has the value of that step, read from the value of the path. */
  lemma OneStepMore(h: Host, vals: Value, head: string, steps: Steps, last: Steps)
    requires IsIdent(head) && (steps.Done? ==> !IsKeyword(head))
    requires PrintableSteps(steps) && PrintableSteps(last) && !last.Done?
    ensures R.Resolve(h, vals, (head + PrintSteps(steps)) + PrintSteps(last)) ==
      EvalSteps(h, vals, last, R.Resolve(h, vals, head + PrintSteps(steps)))
  {
    MoreText(head, steps, last);
    ThenPrintable(steps, last);
    ThenMeans(h, vals, steps, last, Member(h, vals, R.Str(head)));
    PathMeaning(h, vals, head, steps);
    PathMeaning(h, vals, head, Then(steps, last));
  }

  /** A name behind a path reads the property of that name, and nothing from `undefined` or `null`. */
  lemma PathDot(h: Host, vals: Value, head: string, steps: Steps, name: string)
    requires Printable(Path(head, steps)) && IsMemberName(name)
    ensures var v := R.Resolve(h, vals, Print(Path(head, steps)));
      R.Resolve(h, vals, Print(Path(head, steps)) + ("." + name)) ==
      if v == R.Undefined || v == R.Null then R.Undefined else h.property(v, R.Str(name))
  {
    assert PrintSteps(Dot(name, Done)) == "." + name;
    OneStepMore(h, vals, head, steps, Dot(name, Done));
  }

  /** A bracketed expression behind a path reads the property that its value names. */
  lemma PathKey(h: Host, vals: Value, head: string, steps: Steps, lpad: string, key: Expr, rpad: string)
    requires Printable(Path(head, steps)) && Printable(key) && Blank(lpad) && Blank(rpad)
    ensures var v := R.Resolve(h, vals, Print(Path(head, steps)));
      R.Resolve(h, vals, Print(Path(head, steps)) + ("[" + lpad + Print(key) + rpad + "]")) ==
      if v == R.Undefined || v == R.Null then R.Undefined else h.property(v, R.Resolve(h, vals, Print(key)))
  {
    assert PrintSteps(At(lpad, key, rpad, Done)) == "[" + lpad + Print(key) + rpad + "]";
    OneStepMore(h, vals, head, steps, At(lpad, key, rpad, Done));
    Meaning(h, vals, key);
  }

  /** A blank text has no value. */
  lemma BlankResolves(h: Host, vals: Value, s: string)
    requires Blank(s)
    ensures R.Resolve(h, vals, s) == R.Undefined
  {
    assert Trim(s) == "";
  }

  /** A text that starts like none of the forms has no value. */
  lemma NothingReadable(h: Host, vals: Value, s: string)
    requires Trimmed(s) && HalvesOf(s).None?
    requires s[0] !in "(!-\"'" && !IsDigit(s[0]) && !IsIdentStart(s[0])
    ensures R.Resolve(h, vals, s) == R.Undefined
  {
    ResolveAsUnit(h, vals, s);
    assert DigitRunEnd(s, 0) == 0;
    assert s[0] !in "tfnu";
  }

  lemma SplitIsBoolean(h: Host, vals: Value, s: string)
    requires Trimmed(s) && !R.IsWrapped(s) && HalvesOf(s).Some?
    ensures R.Resolve(h, vals, s).Boolean?
  {
    var halves := HalvesOf(s).value;
    ResolveSplit(h, vals, s, halves);
    CompareBoolean(h, halves.op, R.Resolve(h, vals, halves.left), R.Resolve(h, vals, halves.right));
  }

  lemma CompareBoolean(h: Host, op: Operator, a: Value, b: Value)
    ensures R.Compare(h, op, a, b).Boolean?
  {
  }

  lemma QuotedEdges(quote: char, body: string)
    requires quote == '"' || quote == '\''
    ensures var s := [quote] + body + [quote];
      Trimmed(s) && s[0] != '(' && !R.IsWrapped(s)
  {
  }

  lemma SplitsNowhere(s: string)
    ensures HalvesOf(s).None? <==> forall i :: 0 <= i < |s| ==> !IsSplit(s, i)
  {
  }

  /** A string literal on its own keeps its text exactly when the scanner finds no equality to split at. */
  lemma LiteralKept(h: Host, vals: Value, quote: char, body: string)
    requires quote == '"' || quote == '\''
    ensures var s := [quote] + body + [quote];
      R.Resolve(h, vals, s) == R.Str(body) <==> forall i :: 0 <= i < |s| ==> !IsSplit(s, i)
  {
    var s := [quote] + body + [quote];
    SplitsNowhere(s);
    QuotedEdges(quote, body);
    if HalvesOf(s).Some? {
      SplitIsBoolean(h, vals, s);
    } else {
      ResolveAsUnit(h, vals, s);
      QuotedUnit(h, vals, quote, body);
    }
  }

  lemma SplitUndefined(h: Host, vals: Value, s: string, halves: Halves)
    requires Trimmed(s) && !R.IsWrapped(s) && HalvesOf(s) == Some(halves)
    requires R.Resolve(h, vals, halves.left) == R.Undefined && R.Resolve(h, vals, halves.right) == R.Undefined
    ensures R.Resolve(h, vals, s) == R.Compare(h, halves.op, R.Undefined, R.Undefined)
  {
    ResolveSplit(h, vals, s, halves);
  }

  /** An equality sign inside a string literal is taken for an operator. */
  lemma LiteralSplit(h: Host, vals: Value)
    ensures R.Resolve(h, vals, "\"a==b\"") == R.Boolean(h.looselyEqual(R.Undefined, R.Undefined))
  {
    BrokenHalves();
    BrokenLeft(h, vals);
    BrokenRight(h, vals);
    SplitUndefined(h, vals, "\"a==b\"", Halves("\"a", LooselyEqual, "b\""));
  }

  lemma BrokenHalves()
    ensures HalvesOf("\"a==b\"") == Some(Halves("\"a", LooselyEqual, "b\""))
    ensures Trimmed("\"a==b\"") && !R.IsWrapped("\"a==b\"")
  {
    var left, right := "\"a", "b\"";
    assert "\"a==b\"" == left + Symbol(LooselyEqual) + right;
    PlainClean(left);
    assert !IsSpace(left[0]);
    HalvesAt(left, LooselyEqual, right);
  }

  lemma BrokenLeft(h: Host, vals: Value)
    ensures R.Resolve(h, vals, "\"a") == R.Undefined
  {
    var s := "\"a";
    PlainClean(s);
    Unsplit(s);
    ResolveAsUnit(h, vals, s);
    assert DigitRunEnd(s, 0) == 0;
  }

  lemma BrokenRight(h: Host, vals: Value)
    ensures R.Resolve(h, vals, "b\"") == R.Undefined
  {
    var s := "b\"";
    PlainClean(s);
    Unsplit(s);
    ResolveAsUnit(h, vals, s);
    PathUnit(h, vals, s);
    assert IdentRunEnd(s, 1) == 1;
    assert R.ReadSegment(h, vals, s, 1, Member(h, vals, R.Str(s[..1]))).None?;
  }

  /** How a printed comparison of two operands evaluates. */
  lemma Compared(h: Host, vals: Value, op: Operator, left: Expr, lpad: string, rpad: string, right: Expr)
    requires Printable(left) && Printable(right) && Blank(lpad) && Blank(rpad)
    ensures R.Resolve(h, vals, Print(Equal(op, left, lpad, rpad, right))) ==
      R.Compare(h, op, R.Resolve(h, vals, Print(left)), R.Resolve(h, vals, Print(right)))
  {
    Meaning(h, vals, left);
    Meaning(h, vals, right);
    OperandMeaning(h, vals, left);
    OperandMeaning(h, vals, right);
    EqualMeaning(h, vals, op, left, lpad, rpad, right);
    ComparesBy(h, op, Eval(h, vals, left), Eval(h, vals, right));
  }

  predicate Opposite(op: Operator, no: Operator) {
    (op == Identical && no == NotIdentical) || (op == LooselyEqual && no == NotLooselyEqual)
  }

  /** Written between the same operands, an inequality operator evaluates to the negation of its equality. */
  lemma InequalityNegates(h: Host, vals: Value, op: Operator, no: Operator,
                          left: Expr, lpad: string, rpad: string, right: Expr)
    requires Opposite(op, no)
    requires Printable(left) && Printable(right) && Blank(lpad) && Blank(rpad)
    ensures R.Resolve(h, vals, Print(Equal(no, left, lpad, rpad, right))) ==
      R.Resolve(h, vals, Print(Not("", Equal(op, left, lpad, rpad, right))))
  {
    Compared(h, vals, no, left, lpad, rpad, right);
    Compared(h, vals, op, left, lpad, rpad, right);
    Negated(h, vals, Equal(op, left, lpad, rpad, right));
  }

  lemma Negated(h: Host, vals: Value, e: Expr)
    requires Printable(e)
    ensures R.Resolve(h, vals, Print(Not("", e))) == R.Boolean(!R.Truthy(R.Resolve(h, vals, Print(e))))
  {
    NotMeaning(h, vals, "", e);
    Meaning(h, vals, e);
    NegatesFalsy(Eval(h, vals, e));
  }

  /** Comparing strictly in either order is the same, and any expression is identical to itself unless it is NaN. */
  lemma IdenticalTurned(h: Host, vals: Value, left: Expr, lpad: string, rpad: string, right: Expr)
    requires Printable(left) && Printable(right) && Blank(lpad) && Blank(rpad)
    ensures R.Resolve(h, vals, Print(Equal(Identical, left, lpad, rpad, right))) ==
      R.Resolve(h, vals, Print(Equal(Identical, right, lpad, rpad, left)))
    ensures R.Resolve(h, vals, Print(Equal(Identical, left, lpad, rpad, left))) ==
      R.Boolean(R.Resolve(h, vals, Print(left)) != R.NotANumber)
  {
    Compared(h, vals, Identical, left, lpad, rpad, right);
    Compared(h, vals, Identical, right, lpad, rpad, left);
    Compared(h, vals, Identical, left, lpad, rpad, left);
  }
}
