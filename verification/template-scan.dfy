/** Bracket counting over raw template text, and the two scanners built on it. */
module TemplateScan {
  import opened Options
  import opened Text

  /** Which brackets a counter looks at: "()", "[]", or both kinds without telling them apart. */
  datatype Bracket = Round | Square | Either

  function Delta(kind: Bracket, c: char): int {
    if c == '(' then (if kind == Square then 0 else 1)
    else if c == ')' then (if kind == Square then 0 else -1)
    else if c == '[' then (if kind == Round then 0 else 1)
    else if c == ']' then (if kind == Round then 0 else -1)
    else 0
  }

  /** Brackets opened minus brackets closed in the first `i` characters. */
  function Level(kind: Bracket, s: string, i: nat): int
    requires i <= |s|
  {
    if i == 0 then 0 else Level(kind, s, i - 1) + Delta(kind, s[i - 1])
  }

  /** The pair of round brackets at both ends encloses everything in between. */
  predicate Encloses(s: string) {
    forall k :: 1 <= k < |s| ==> Level(Round, s, k) > 0
  }

  method ParensWrapWhole(expr: string) returns (r: bool)
    requires |expr| >= 2 && expr[0] == '('
    ensures r <==> Encloses(expr)
  {
    var depth := 0;
    var i := 0;
    while i < |expr| - 1
      invariant 0 <= i <= |expr| - 1
      invariant depth == Level(Round, expr, i)
      invariant forall k :: 1 <= k <= i ==> Level(Round, expr, k) > 0
    {
      if expr[i] == '(' {
        depth := depth + 1;
      } else if expr[i] == ')' {
        depth := depth - 1;
        if depth == 0 {
          assert Level(Round, expr, i + 1) == 0;
          return false;
        }
      }
      i := i + 1;
    }
    return true;
  }

  predicate IsBangOrEquals(c: char) {
    c == '=' || c == '!'
  }

  /** An equality sign outside every bracket starts at `i`. */
  predicate IsRawEquality(s: string, i: nat)
    requires i <= |s|
  {
    i + 1 < |s| && IsBangOrEquals(s[i]) && s[i + 1] == '=' && Level(Either, s, i) == 0
  }

  /** The places where an expression may be split: not inside a longer operator, something to the left. */
  predicate IsSplit(s: string, i: nat)
    requires i <= |s|
  {
    && IsRawEquality(s, i)
    && !(i > 0 && IsBangOrEquals(s[i - 1]))
    && !Blank(s[..i])
  }

  datatype Operator = Identical | NotIdentical | LooselyEqual | NotLooselyEqual

  function Symbol(op: Operator): string {
    match op
    case Identical => "==="
    case NotIdentical => "!=="
    case LooselyEqual => "=="
    case NotLooselyEqual => "!="
  }

  /** The operator read at a split: a third character `=` makes it strict. */
  function OperatorAt(s: string, i: nat): (op: Operator)
    requires i < |s| && IsSplit(s, i)
    ensures i + |Symbol(op)| <= |s| && Symbol(op) == s[i..][..|Symbol(op)|]
  {
    var strict := i + 2 < |s| && s[i + 2] == '=';
    var op := if s[i] == '=' then (if strict then Identical else LooselyEqual)
              else if strict then NotIdentical else NotLooselyEqual;
    assert forall k :: 0 <= k < |Symbol(op)| ==> Symbol(op)[k] == s[i..][k];
    op
  }

  datatype Equality = Equality(index: nat, op: Operator)

  /** The leftmost split at or after `i`. */
  function SplitFrom(s: string, i: nat): (r: Option<Equality>)
    requires i <= |s|
    ensures r.Some? ==>
      && i <= r.value.index < |s| && IsSplit(s, r.value.index)
      && r.value.op == OperatorAt(s, r.value.index)
    ensures forall j :: i <= j < |s| && IsSplit(s, j) ==> r.Some? && r.value.index <= j
    decreases |s| - i
  {
    if i == |s| then None
    else if IsSplit(s, i) then Some(Equality(i, OperatorAt(s, i)))
    else SplitFrom(s, i + 1)
  }

  datatype Halves = Halves(left: string, op: Operator, right: string)

  /** The texts on both sides of the leftmost split; each is strictly shorter than the whole. */
  function HalvesOf(s: string): (r: Option<Halves>)
    ensures r.Some? ==> |r.value.left| < |s| && |r.value.right| < |s|
    ensures r.Some? ==> s == r.value.left + Symbol(r.value.op) + r.value.right
  {
    match SplitFrom(s, 0)
    case None => None
    case Some(Equality(i, op)) => Some(Halves(s[..i], op, s[i + |Symbol(op)|..]))
  }

  method FindTopLevelEquality(expr: string) returns (r: Option<Equality>)
    ensures r == SplitFrom(expr, 0)
  {
    var depth := 0;
    var i := 0;
    while i < |expr|
      invariant 0 <= i <= |expr|
      invariant depth == Level(Either, expr, i)
      invariant SplitFrom(expr, 0) == SplitFrom(expr, i)
    {
      var c := expr[i];
      if c == '[' || c == '(' {
        depth := depth + 1;
      } else if c == ']' || c == ')' {
        depth := depth - 1;
      } else if depth == 0 && (c == '=' || c == '!') && i + 1 < |expr| && expr[i + 1] == '=' {
        if i > 0 && (expr[i - 1] == '=' || expr[i - 1] == '!') {
          i := i + 1;
          continue;
        }
        if Trim(expr[..i]) == "" {
          i := i + 1;
          continue;
        }
        var strict := i + 2 < |expr| && expr[i + 2] == '=';
        var op := if c == '=' then (if strict then Identical else LooselyEqual)
                  else if strict then NotIdentical else NotLooselyEqual;
        return Some(Equality(i, op));
      }
      i := i + 1;
    }
    return None;
  }

  /** The character at `k` closes the square bracket opened just before `start`. */
  predicate Closes(s: string, start: nat, k: nat)
    requires start <= |s| && k < |s|
  {
    Level(Square, s, k + 1) == Level(Square, s, start) - 1
  }

  /** The first place at or after `j` that closes the bracket opened just before `start`. */
  function CloseFrom(s: string, start: nat, j: nat): (r: Option<nat>)
    requires start <= j <= |s|
    ensures r.Some? ==> j <= r.value < |s| && Closes(s, start, r.value)
    ensures forall k :: j <= k < |s| && Closes(s, start, k) ==> r.Some? && r.value <= k
    decreases |s| - j
  {
    if j == |s| then None
    else if Closes(s, start, j) then Some(j)
    else CloseFrom(s, start, j + 1)
  }

  /** The text between the bracket opened just before `start` and the one that closes it. */
  function BracketText(s: string, start: nat): (r: Option<string>)
    requires start <= |s|
    ensures r.Some? ==> start + |r.value| < |s| && Closes(s, start, start + |r.value|)
  {
    match CloseFrom(s, start, start)
    case None => None
    case Some(j) => Some(s[start..j])
  }

  /** The inner loop of the path scanner. */
  method FindBracketText(expr: string, start: nat) returns (r: Option<string>)
    requires start <= |expr|
    ensures r == BracketText(expr, start)
  {
    var depth := 1;
    var j := start;
    while j < |expr| && depth > 0
      invariant start <= j <= |expr|
      invariant depth >= 1
      invariant depth == 1 + Level(Square, expr, j) - Level(Square, expr, start)
      invariant CloseFrom(expr, start, start) == CloseFrom(expr, start, j)
    {
      if expr[j] == '[' {
        depth := depth + 1;
      } else if expr[j] == ']' {
        depth := depth - 1;
        if depth == 0 {
          return Some(expr[start..j]);
        }
      }
      j := j + 1;
    }
    return None;
  }

  predicate IsDigit(c: char) {
    '0' <= c <= '9'
  }

  predicate IsIdentStart(c: char) {
    'A' <= c <= 'Z' || 'a' <= c <= 'z' || c == '_' || c == '$'
  }

  predicate IsIdentPart(c: char) {
    IsIdentStart(c) || IsDigit(c)
  }

  /** The characters that an identifier can start with, and those that it can go on with. */
  lemma IdentExactly(c: char)
    ensures IsIdentStart(c) <==> c in {
      'A', 'B', 'C', 'D', 'E', 'F', 'G', 'H', 'I', 'J', 'K', 'L', 'M', 'N', 'O', 'P', 'Q', 'R',
      'S', 'T', 'U', 'V', 'W', 'X', 'Y', 'Z', 'a', 'b', 'c', 'd', 'e', 'f', 'g', 'h', 'i', 'j',
      'k', 'l', 'm', 'n', 'o', 'p', 'q', 'r', 's', 't', 'u', 'v', 'w', 'x', 'y', 'z', '_', '$'}
    ensures IsIdentPart(c) <==> IsIdentStart(c) || c in {'0', '1', '2', '3', '4', '5', '6', '7', '8', '9'}
  {
  }

  /** End of the longest run of identifier characters that starts at `i`. */
  function IdentRunEnd(s: string, i: nat): (e: nat)
    requires i <= |s|
    ensures i <= e <= |s|
    ensures forall k :: i <= k < e ==> IsIdentPart(s[k])
    ensures e < |s| ==> !IsIdentPart(s[e])
    decreases |s| - i
  {
    if i < |s| && IsIdentPart(s[i]) then IdentRunEnd(s, i + 1) else i
  }

  /** End of the longest run of digits that starts at `i`. */
  function DigitRunEnd(s: string, i: nat): (e: nat)
    requires i <= |s|
    ensures i <= e <= |s|
    ensures forall k :: i <= k < e ==> IsDigit(s[k])
    ensures e < |s| ==> !IsDigit(s[e])
    decreases |s| - i
  {
    if i < |s| && IsDigit(s[i]) then DigitRunEnd(s, i + 1) else i
  }

  lemma {:induction false} DigitRunEndAt(s: string, i: nat, e: nat)
    requires i <= e <= |s| && (forall k :: i <= k < e ==> IsDigit(s[k]))
    requires e < |s| ==> !IsDigit(s[e])
    ensures DigitRunEnd(s, i) == e
    decreases e - i
  {
    if i < e {
      DigitRunEndAt(s, i + 1, e);
    }
  }

  /** End of the identifier that starts at `i`; `i` itself when there is none. */
  function IdentEnd(s: string, i: nat): (e: nat)
    requires i <= |s|
    ensures i <= e <= |s|
    ensures e > i <==> i < |s| && IsIdentStart(s[i])
  {
    if i < |s| && IsIdentStart(s[i]) then IdentRunEnd(s, i + 1) else i
  }

  /** End of the member name after a dot: an identifier, or else a run of digits. */
  function NameEnd(s: string, i: nat): (e: nat)
    requires i <= |s|
    ensures i <= e <= |s|
  {
    var e := IdentEnd(s, i);
    if e > i then e else DigitRunEnd(s, i)
  }

  /** The text of a number literal: an optional minus, digits, and optionally a dot and digits. */
  predicate IsNumber(s: string) {
    var i := if s != "" && s[0] == '-' then 1 else 0;
    var e := DigitRunEnd(s, i);
    e > i && (e == |s| || (s[e] == '.' && e + 1 < |s| && DigitRunEnd(s, e + 1) == |s|))
  }
}
