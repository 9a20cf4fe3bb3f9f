/** Evaluation of template expressions directly from their text. */
module TemplateResolve {
  import opened Options
  import opened Text
  import opened TemplateScan

  /** The values of the host language; objects are references with identity. */
  datatype Value =
    | Undefined
    | Null
    | Boolean(b: bool)
    | Number(n: real)
    | NotANumber
    | Str(s: string)
    | Ref(id: nat)

  /** What the evaluator asks of the host: reading a property and the loose comparison. */
  datatype Host = Host(property: (Value, Value) -> Value, looselyEqual: (Value, Value) -> bool)

  predicate Truthy(v: Value) {
    match v
    case Undefined => false
    case Null => false
    case Boolean(b) => b
    case Number(n) => n != 0.0
    case NotANumber => false
    case Str(s) => s != ""
    case Ref(_) => true
  }

  predicate StrictlyEqual(a: Value, b: Value) {
    a == b && !a.NotANumber?
  }

  /** Reading a property of `undefined` or `null` gives `undefined`. */
  function Get(h: Host, owner: Value, key: Value): Value {
    if owner.Undefined? || owner.Null? then Undefined else h.property(owner, key)
  }

  function Compare(h: Host, op: Operator, a: Value, b: Value): Value {
    match op
    case Identical => Boolean(StrictlyEqual(a, b))
    case NotIdentical => Boolean(!StrictlyEqual(a, b))
    case LooselyEqual => Boolean(h.looselyEqual(a, b))
    case NotLooselyEqual => Boolean(!h.looselyEqual(a, b))
  }

  /** The natural number that a run of decimal digits writes. */
  function Digits(s: string): nat
    requires forall i :: 0 <= i < |s| ==> IsDigit(s[i])
  {
    if s == "" then 0
    else
      assert IsDigit(s[|s| - 1]);
      10 * Digits(s[..|s| - 1]) + (s[|s| - 1] as int - '0' as int)
  }

  function PowerOfTen(n: nat): (r: real)
    ensures r >= 1.0
  {
    if n == 0 then 1.0 else 10.0 * PowerOfTen(n - 1)
  }

  /** The number that a numeric literal denotes. */
  function NumberOf(s: string): real
    requires IsNumber(s)
  {
    var i := if s[0] == '-' then 1 else 0;
    var e := DigitRunEnd(s, i);
    var whole := Digits(s[i..e]) as real;
    var size := if e == |s| then whole
                else whole + Digits(s[e + 1..]) as real / PowerOfTen(|s| - e - 1);
    if s[0] == '-' then -size else size
  }

  /** Wrapped in a pair of round brackets that belongs together. */
  predicate IsWrapped(expr: string) {
    |expr| >= 2 && expr[0] == '(' && expr[|expr| - 1] == ')' && Encloses(expr)
  }

  predicate IsQuoted(expr: string) {
    |expr| >= 2 && (expr[0] == '"' || expr[0] == '\'') && expr[|expr| - 1] == expr[0]
  }

  /** The value of an expression text. Every recursive call is on a strictly shorter text. */
  function Resolve(h: Host, vals: Value, src: string): Value
    decreases |src|, 6
  {
    var expr := Trim(src);
    if expr == "" then Undefined else ResolveTrimmed(h, vals, expr)
  }

  function ResolveTrimmed(h: Host, vals: Value, expr: string): Value
    requires expr != ""
    decreases |expr|, 5
  {
    if IsWrapped(expr) then
      Resolve(h, vals, expr[1..|expr| - 1])
    else
      match HalvesOf(expr)
      case Some(halves) =>
        ResolveHalves(h, vals, halves, |expr|)
      case None =>
        ResolveUnit(h, vals, expr)
  }

  /** Both sides are evaluated, then compared; `bound` is the length of the text they come from. */
  function ResolveHalves(h: Host, vals: Value, halves: Halves, ghost bound: nat): Value
    requires |halves.left| < bound && |halves.right| < bound
    decreases bound, 0
  {
    Compare(h, halves.op, Resolve(h, vals, halves.left), Resolve(h, vals, halves.right))
  }

  /** What holds no top-level equality: a negation, a literal or a path. */
  function ResolveUnit(h: Host, vals: Value, expr: string): Value
    requires expr != ""
    decreases |expr|, 4
  {
    if expr[0] == '!' then Boolean(!Truthy(Resolve(h, vals, expr[1..])))
    else if expr == "true" then Boolean(true)
    else if expr == "false" then Boolean(false)
    else if expr == "null" then Null
    else if expr == "undefined" then Undefined
    else if IsNumber(expr) then Number(NumberOf(expr))
    else if IsQuoted(expr) then Str(expr[1..|expr| - 1])
    else ResolvePath(h, vals, expr)
  }

  function ResolvePath(h: Host, vals: Value, expr: string): Value
    decreases |expr|, 3
  {
    var e := IdentEnd(expr, 0);
    if e == 0 then Undefined
    else ResolveSteps(h, vals, expr, e, Get(h, vals, Str(expr[..e])))
  }

  /** Where the path loop stands: the next position and the value of the text before it. */
  datatype Progress = Progress(next: nat, cur: Value)

  /** One turn of the path loop, which always advances and never passes the end; `None` gives up. */
  function ReadSegment(h: Host, vals: Value, expr: string, i: nat, cur: Value): (r: Option<Progress>)
    requires 0 < i < |expr|
    ensures r.Some? ==> i < r.value.next <= |expr|
    decreases |expr|, 1
  {
    if expr[i] == '.' then ReadName(h, expr, i, cur)
    else if expr[i] == '[' then ReadKey(h, vals, expr, i, cur)
    else None
  }

  function ReadName(h: Host, expr: string, i: nat, cur: Value): (r: Option<Progress>)
    requires i < |expr|
    ensures r.Some? ==> i < r.value.next <= |expr|
  {
    var name := expr[i + 1..NameEnd(expr, i + 1)];
    if name == "" then None
    else Some(Progress(i + 1 + |name|, Get(h, cur, Str(name))))
  }

  function ReadKey(h: Host, vals: Value, expr: string, i: nat, cur: Value): (r: Option<Progress>)
    requires 0 < i < |expr|
    ensures r.Some? ==> i < r.value.next <= |expr|
    decreases |expr|, 0
  {
    match BracketText(expr, i + 1)
    case None => None
    case Some(inner) => Some(Progress(i + |inner| + 2, Get(h, cur, Resolve(h, vals, inner))))
  }

  /** The path loop from position `i` on. */
  function ResolveSteps(h: Host, vals: Value, expr: string, i: nat, cur: Value): Value
    requires 0 < i <= |expr|
    decreases |expr|, 2, |expr| - i
  {
    if i == |expr| then cur
    else
      match ReadSegment(h, vals, expr, i, cur)
      case None => Undefined
      case Some(Progress(j, member)) => ResolveSteps(h, vals, expr, j, member)
  }

  /** The evaluator itself: scans with its loops and recurses on substrings. */
  method Evaluate(h: Host, vals: Value, src: string) returns (v: Value)
    ensures v == Resolve(h, vals, src)
    decreases |src|, 5
  {
    var expr := Trim(src);
    if expr == "" {
      return Undefined;
    }
    v := EvaluateTrimmed(h, vals, expr);
  }

  method EvaluateTrimmed(h: Host, vals: Value, expr: string) returns (v: Value)
    requires expr != ""
    ensures v == ResolveTrimmed(h, vals, expr)
    decreases |expr|, 4
  {
    var wrapped := false;
    if expr[0] == '(' && expr[|expr| - 1] == ')' {
      wrapped := ParensWrapWhole(expr);
    }
    if wrapped {
      v := Evaluate(h, vals, expr[1..|expr| - 1]);
      return;
    }
    var halves := SplitAtEquality(expr);
    if halves.Some? {
      v := EvaluateHalves(h, vals, halves.value, |expr|);
      return;
    }
    v := EvaluateUnit(h, vals, expr);
  }

  method EvaluateHalves(h: Host, vals: Value, halves: Halves, ghost bound: nat) returns (v: Value)
    requires |halves.left| < bound && |halves.right| < bound
    ensures v == ResolveHalves(h, vals, halves, bound)
    decreases bound, 0
  {
    var lv := Evaluate(h, vals, halves.left);
    var rv := Evaluate(h, vals, halves.right);
    return Compare(h, halves.op, lv, rv);
  }

  method SplitAtEquality(expr: string) returns (r: Option<Halves>)
    ensures r == HalvesOf(expr)
  {
    var eq := FindTopLevelEquality(expr);
    if eq.None? {
      return None;
    }
    var Equality(i, op) := eq.value;
    return Some(Halves(expr[..i], op, expr[i + |Symbol(op)|..]));
  }

  method EvaluateUnit(h: Host, vals: Value, expr: string) returns (v: Value)
    requires expr != ""
    ensures v == ResolveUnit(h, vals, expr)
    decreases |expr|, 3
  {
    if expr[0] == '!' {
      var operand := Evaluate(h, vals, expr[1..]);
      return Boolean(!Truthy(operand));
    }
    if expr == "true" { return Boolean(true); }
    if expr == "false" { return Boolean(false); }
    if expr == "null" { return Null; }
    if expr == "undefined" { return Undefined; }
    if IsNumber(expr) { return Number(NumberOf(expr)); }
    if IsQuoted(expr) { return Str(expr[1..|expr| - 1]); }
    v := EvaluatePath(h, vals, expr);
  }

  method EvaluatePath(h: Host, vals: Value, expr: string) returns (v: Value)
    ensures v == ResolvePath(h, vals, expr)
    decreases |expr|, 2
  {
    var i := IdentEnd(expr, 0);
    if i == 0 {
      return Undefined;
    }
    var cur := Get(h, vals, Str(expr[..i]));
    ghost var value := ResolveSteps(h, vals, expr, i, cur);
    while i < |expr|
      invariant 0 < i <= |expr|
      invariant ResolveSteps(h, vals, expr, i, cur) == value
    {
      var segment := EvaluateSegment(h, vals, expr, i, cur);
      if segment.None? {
        return Undefined;
      }
      i, cur := segment.value.next, segment.value.cur;
    }
    return cur;
  }

  method EvaluateSegment(h: Host, vals: Value, expr: string, i: nat, cur: Value)
    returns (r: Option<Progress>)
    requires 0 < i < |expr|
    ensures r == ReadSegment(h, vals, expr, i, cur)
    decreases |expr|, 1
  {
    if expr[i] == '.' {
      return ReadName(h, expr, i, cur);
    } else if expr[i] == '[' {
      r := EvaluateKey(h, vals, expr, i, cur);
      return;
    }
    return None;
  }

  method EvaluateKey(h: Host, vals: Value, expr: string, i: nat, cur: Value)
    returns (r: Option<Progress>)
    requires 0 < i < |expr|
    ensures r == ReadKey(h, vals, expr, i, cur)
    decreases |expr|, 0
  {
    var inner := FindBracketText(expr, i + 1);
    if inner.None? {
      return None;
    }
    var key := Evaluate(h, vals, inner.value);
    return Some(Progress(i + |inner.value| + 2, Get(h, cur, key)));
  }
}
