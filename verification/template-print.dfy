/** Template expressions as trees, their printed text, and the meaning of a tree. */
module TemplateSyntax {
  import opened Text
  import opened TemplateScan
  import R = TemplateResolve

  type Host = R.Host
  type Value = R.Value

  datatype Keyword = True | False | Null | Undefined

  /** `pad` and its relatives are white space that the writer may put in. */
  datatype Expr =
    | Word(word: Keyword)
    | Number(text: string)
    | Text(quote: char, body: string)
    | Path(head: string, steps: Steps)
    | Not(pad: string, operand: Expr)
    | Group(lpad: string, inner: Expr, rpad: string)
    | Equal(op: Operator, left: Expr, lpad: string, rpad: string, right: Expr)

  datatype Steps =
    | Done
    | Dot(name: string, rest: Steps)
    | At(lpad: string, key: Expr, rpad: string, rest: Steps)

  function Spelling(w: Keyword): string {
    match w
    case True => "true"
    case False => "false"
    case Null => "null"
    case Undefined => "undefined"
  }

  predicate IsIdent(s: string) {
    s != "" && IsIdentStart(s[0]) && forall i :: 0 <= i < |s| ==> IsIdentPart(s[i])
  }

  predicate IsMemberName(s: string) {
    IsIdent(s) || (s != "" && forall i :: 0 <= i < |s| ==> IsDigit(s[i]))
  }

  predicate IsKeyword(s: string) {
    s == "true" || s == "false" || s == "null" || s == "undefined"
  }

  /** Brackets of every kind match and never close early. */
  ghost predicate Balanced(s: string) {
    && (forall kind :: Level(kind, s, |s|) == 0)
    && (forall kind, i :: 0 <= i <= |s| ==> Level(kind, s, i) >= 0)
  }

  ghost predicate NoRawEquality(s: string) {
    forall i :: 0 <= i <= |s| ==> !IsRawEquality(s, i)
  }

  /** Text that the scanners pass over as one piece. */
  ghost predicate Clean(s: string) {
    Balanced(s) && NoRawEquality(s)
  }

  /** The expressions that can be printed. A string literal may hold anything that is balanced and has
      no equality outside its brackets; a lone path may not be spelled like a keyword. */
  ghost predicate Printable(e: Expr) {
    match e
    case Word(_) => true
    case Number(text) => IsNumber(text)
    case Text(quote, body) => (quote == '"' || quote == '\'') && Clean(body)
    case Path(head, steps) => IsIdent(head) && (steps.Done? ==> !IsKeyword(head)) && PrintableSteps(steps)
    case Not(pad, operand) => Blank(pad) && Printable(operand)
    case Group(lpad, inner, rpad) => Blank(lpad) && Blank(rpad) && Printable(inner)
    case Equal(_, left, lpad, rpad, right) => Blank(lpad) && Blank(rpad) && Printable(left) && Printable(right)
  }

  ghost predicate PrintableSteps(steps: Steps) {
    match steps
    case Done => true
    case Dot(name, rest) => IsMemberName(name) && PrintableSteps(rest)
    case At(lpad, key, rpad, rest) => Blank(lpad) && Blank(rpad) && Printable(key) && PrintableSteps(rest)
  }

  function Print(e: Expr): string
    decreases e, 0
  {
    match e
    case Word(w) => Spelling(w)
    case Number(text) => text
    case Text(quote, body) => [quote] + body + [quote]
    case Path(head, steps) => head + PrintSteps(steps)
    case Not(pad, operand) => "!" + pad + PrintOperand(operand)
    case Group(lpad, inner, rpad) => Enclosed('(', lpad + Print(inner) + rpad, ')')
    case Equal(op, left, lpad, rpad, right) =>
      PrintOperand(left) + lpad + Symbol(op) + rpad + PrintOperand(right)
  }

  /** An equality that is an operand is put in round brackets. */
  function PrintOperand(e: Expr): string
    decreases e, 1
  {
    if e.Equal? then Enclosed('(', Print(e), ')') else Print(e)
  }

  function PrintSteps(steps: Steps): string
    decreases steps, 0
  {
    match steps
    case Done => ""
    case Dot(name, rest) => "." + name + PrintSteps(rest)
    case At(lpad, key, rpad, rest) => Enclosed('[', lpad + Print(key) + rpad, ']') + PrintSteps(rest)
  }

  function Enclosed(open: char, s: string, close: char): string {
    [open] + s + [close]
  }

  /** The values that a negation turns into true. */
  predicate Falsy(v: Value) {
    v in {R.Undefined, R.Null, R.Boolean(false), R.Number(0.0), R.NotANumber, R.Str("")}
  }

  /** Identical values: of one kind and with the same content; two objects only when they are the same object. */
  predicate Same(a: Value, b: Value) {
    match (a, b)
    case (Undefined, Undefined) => true
    case (Null, Null) => true
    case (Boolean(x), Boolean(y)) => x == y
    case (Number(x), Number(y)) => x == y
    case (Str(x), Str(y)) => x == y
    case (Ref(x), Ref(y)) => x == y
    case _ => false
  }

  /** Whether a comparison of two values holds. */
  predicate Holds(h: Host, op: Operator, a: Value, b: Value) {
    match op
    case Identical => Same(a, b)
    case NotIdentical => !Same(a, b)
    case LooselyEqual => h.looselyEqual(a, b)
    case NotLooselyEqual => !h.looselyEqual(a, b)
  }

  /** What a tree means, with no text involved and no help from the evaluator. */
  function Eval(h: Host, vals: Value, e: Expr): Value
    requires Printable(e)
  {
    match e
    case Word(True) => R.Boolean(true)
    case Word(False) => R.Boolean(false)
    case Word(Null) => R.Null
    case Word(Undefined) => R.Undefined
    case Number(text) => R.Number(R.NumberOf(text))
    case Text(_, body) => R.Str(body)
    case Path(head, steps) => EvalSteps(h, vals, steps, Member(h, vals, R.Str(head)))
    case Not(_, operand) => R.Boolean(Falsy(Eval(h, vals, operand)))
    case Group(_, inner, _) => Eval(h, vals, inner)
    case Equal(op, left, _, _, right) => R.Boolean(Holds(h, op, Eval(h, vals, left), Eval(h, vals, right)))
  }

  /** The property of the owner that the host reads; `undefined` and `null` have only undefined ones. */
  function Member(h: Host, owner: Value, key: Value): Value {
    if owner == R.Undefined || owner == R.Null then R.Undefined else h.property(owner, key)
  }

  function EvalSteps(h: Host, vals: Value, steps: Steps, owner: Value): Value
    requires PrintableSteps(steps)
  {
    match steps
    case Done => owner
    case Dot(name, rest) => EvalSteps(h, vals, rest, Member(h, owner, R.Str(name)))
    case At(_, key, _, rest) => EvalSteps(h, vals, rest, Member(h, owner, Eval(h, vals, key)))
  }
}
