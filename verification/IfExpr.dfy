/** The evaluator of #if expressions: recursive descent over the tokens of a line. */
module IfExpr {
  import LibLux
  import opened NumText

  datatype Op =
    | OrOr | AndAnd | BwOr | BwXor | BwAnd | Eq | Neq | Lt | Gt | Le | Ge | Shl | Shr
    | Plus | Minus | Mul | Div | Rem | Tilde | Bang | Question | Colon | LParen | RParen

  datatype Tok = Num(lexeme: string) | Id(name: string) | Punct(op: Op) | NewLine

  // ------------------------------------------------------------------
  // Expressions and their value
  // ------------------------------------------------------------------

  datatype Expr =
    | Lit(lexeme: string)
    | Name(id: string)
    | Defined(id: string, parens: bool)
    | Unary(op: Op, e: Expr)
    | Binary(op: Op, l: Expr, r: Expr)
    | Cond(c: Expr, t: Expr, f: Expr)
    | Paren(e: Expr)

  /** Macros with the first lexeme of their replacement lists, and the host's arithmetic, which may trap. */
  datatype Context = Context(macros: map<string, string>, bin: (Op, int, int) -> Option<int>, un: (Op, int) -> int)

  function Truth(b: bool): int { if b then 1 else 0 }

  /** strtoll in base ten. */
  function NumberOf(lexeme: string): int {
    var v := Meaning(lexeme, 10, true).val;
    if v < LibLux.TWO63 then v else v - LibLux.TWO64
  }

  function NameValue(c: Context, id: string): int {
    if id in c.macros then NumberOf(c.macros[id]) else 0
  }

  function Apply(c: Context, op: Op, a: int, b: int): Option<int> {
    if op == OrOr then Some(Truth(a != 0 || b != 0))
    else if op == AndAnd then Some(Truth(a != 0 && b != 0))
    else if op == Eq then Some(Truth(a == b))
    else if op == Neq then Some(Truth(a != b))
    else if op == Lt then Some(Truth(a < b))
    else if op == Gt then Some(Truth(a > b))
    else if op == Le then Some(Truth(a <= b))
    else if op == Ge then Some(Truth(a >= b))
    else c.bin(op, a, b)
  }

  function ApplyUnary(c: Context, op: Op, a: int): int {
    if op == Bang then Truth(a == 0) else if op == Plus then a else c.un(op, a)
  }

  /** Logical operators and comparisons yield 1 or 0 (sections 6.5.8, 6.5.9, 6.5.13 and 6.5.14 of ISO/IEC 9899:1999). */
  lemma ApplyMeans(c: Context, op: Op, a: int, b: int)
    ensures op in {OrOr, AndAnd, Eq, Neq, Lt, Gt, Le, Ge} ==>
              Apply(c, op, a, b) == Some(0) || Apply(c, op, a, b) == Some(1)
    ensures Apply(c, AndAnd, a, b) == Some(0) <==> a == 0 || b == 0
    ensures Apply(c, OrOr, a, b) == Some(0) <==> a == 0 && b == 0
    ensures Apply(c, Lt, a, b) == Some(1) <==> a < b
    ensures Apply(c, Gt, a, b) == Apply(c, Lt, b, a)
    ensures Apply(c, Le, a, b) == Some(1) <==> Apply(c, Gt, a, b) == Some(0)
    ensures Apply(c, Ge, a, b) == Some(1) <==> Apply(c, Lt, a, b) == Some(0)
    ensures Apply(c, Eq, a, b) == Some(1) <==> Apply(c, Le, a, b) == Some(1) == Apply(c, Ge, a, b)
    ensures Apply(c, Neq, a, b) == Some(1) <==> Apply(c, Eq, a, b) == Some(0)
    ensures ApplyUnary(c, Bang, a) == (if a == 0 then 1 else 0) && ApplyUnary(c, Plus, a) == a
  {
  }

  /** The value of an expression all of whose operands are evaluated; None when one of the operations traps. */
  function Value(c: Context, e: Expr): Option<int> {
    match e
    case Lit(s) => Some(NumberOf(s))
    case Name(id) => Some(NameValue(c, id))
    case Defined(id, _) => Some(Truth(id in c.macros))
    case Paren(a) => Value(c, a)
    case Unary(op, a) => var v := Value(c, a); if v.Some? then Some(ApplyUnary(c, op, v.value)) else None
    case Binary(op, l, r) =>
      var v := Value(c, l);
      if v.None? then None
      else
        var w := Value(c, r);
        if w.None? then None else Apply(c, op, v.value, w.value)
    case Cond(b, t, f) =>
      var v := Value(c, b);
      if v.None? then None
      else
        var w1 := Value(c, t);
        if w1.None? then None
        else
          var w2 := Value(c, f);
          if w2.None? then None else if v.value != 0 then w1 else w2
  }

  /** The same with the operands of &&, || and ?: evaluated only when needed. */
  function LazyValue(c: Context, e: Expr): Option<int> {
    match e
    case Lit(s) => Some(NumberOf(s))
    case Name(id) => Some(NameValue(c, id))
    case Defined(id, _) => Some(Truth(id in c.macros))
    case Paren(a) => LazyValue(c, a)
    case Unary(op, a) => var v := LazyValue(c, a); if v.Some? then Some(ApplyUnary(c, op, v.value)) else None
    case Binary(op, l, r) =>
      var v := LazyValue(c, l);
      if v.None? then None
      else if op == OrOr && v.value != 0 then Some(1)
      else if op == AndAnd && v.value == 0 then Some(0)
      else
        var w := LazyValue(c, r);
        if w.None? then None else Apply(c, op, v.value, w.value)
    case Cond(b, t, f) =>
      var v := LazyValue(c, b);
      if v.None? then None else if v.value != 0 then LazyValue(c, t) else LazyValue(c, f)
  }

  /** Where nothing traps, evaluating everything gives the value of the language. */
  lemma {:induction false} ValueIsLazy(c: Context, e: Expr)
    ensures Value(c, e).Some? ==> LazyValue(c, e) == Value(c, e)
  {
    match e
    case Lit(_) | Name(_) | Defined(_, _) =>
    case Paren(a) => ValueIsLazy(c, a);
    case Unary(_, a) => ValueIsLazy(c, a);
    case Binary(_, l, r) =>
      ValueIsLazy(c, l);
      ValueIsLazy(c, r);
    case Cond(b, t, f) =>
      ValueIsLazy(c, b);
      ValueIsLazy(c, t);
      ValueIsLazy(c, f);
  }

  /** No operation anywhere in the expression traps, needed or not. */
  ghost predicate NoneTraps(c: Context, e: Expr) {
    match e
    case Lit(_) | Name(_) | Defined(_, _) => true
    case Paren(a) => NoneTraps(c, a)
    case Unary(_, a) => NoneTraps(c, a)
    case Binary(op, l, r) =>
      && NoneTraps(c, l) && NoneTraps(c, r)
      && (LazyValue(c, l).Some? && LazyValue(c, r).Some? ==>
            Apply(c, op, LazyValue(c, l).value, LazyValue(c, r).value).Some?)
    case Cond(b, t, f) => NoneTraps(c, b) && NoneTraps(c, t) && NoneTraps(c, f)
  }

  lemma {:induction false} ValueIfNoneTraps(c: Context, e: Expr)
    ensures Value(c, e).Some? <==> NoneTraps(c, e)
  {
    ValueIsLazy(c, e);
    match e
    case Lit(_) | Name(_) | Defined(_, _) =>
    case Paren(a) => ValueIfNoneTraps(c, a);
    case Unary(_, a) => ValueIfNoneTraps(c, a);
    case Binary(_, l, r) =>
      ValueIsLazy(c, l);
      ValueIsLazy(c, r);
      ValueIfNoneTraps(c, l);
      ValueIfNoneTraps(c, r);
    case Cond(b, t, f) =>
      ValueIfNoneTraps(c, b);
      ValueIfNoneTraps(c, t);
      ValueIfNoneTraps(c, f);
  }

  /** Evaluating everything delivers what the language does exactly if nothing traps at all, or if something traps that
      the language evaluates as well. */
  lemma DeliversLazyValue(c: Context, e: Expr)
    ensures Value(c, e) == LazyValue(c, e) <==> NoneTraps(c, e) || LazyValue(c, e).None?
  {
    ValueIsLazy(c, e);
    ValueIfNoneTraps(c, e);
  }

  /** An operand that is not needed can still trap: 1 || 1 / 0. */
  lemma UnneededOperandTraps(c: Context)
    requires c.bin(Div, 1, 0) == None && "x" !in c.macros
    ensures var e := Binary(OrOr, Lit("1"), Binary(Div, Lit("1"), Name("x")));
      Value(c, e) == None && LazyValue(c, e) == Some(1)
  {
    NumberOne();
    hide NumberOf;
    assert Value(c, Binary(Div, Lit("1"), Name("x"))) == None;
  }

  lemma NumberOne()
    ensures NumberOf("1") == 1
  {
    var s := "1";
    assert |s| == 1 && s[0] == '1' && At(s, 0) == '1' && DigitVal('1') == 1 && !IsSpace('1');
    SpacesEndAt(s, 0, 0);
    assert s[0..1] == s && s == "" + ['1'];
    DigitsEndAt(s, 0, 1, 10);
    ValueSnoc("", '1', 10);
    OneParsed(s);
  }

  lemma OneParsed(s: string)
    requires |s| == 1 && At(s, 0) == '1' && SpacesEnd(s, 0) == 0 && DigitsEnd(s, 0, 10) == 1
    requires NumText.Value(s, 10) == 1
    ensures Meaning(s, 10, true).val == 1
  {
    assert s[0..1] == s;
    assert PrefixEnd(s, 0, 10) == 0;
    hide SpacesEnd, DigitsEnd, IsSpace, DigitVal;
  }

  // ------------------------------------------------------------------
  // Writing an expression
  // ------------------------------------------------------------------

  /** The levels of the grammar: 0 conditional, 1 to 10 the binary operators, 11 unary, 12 primary. */
  function Level(op: Op): nat {
    match op
    case OrOr => 1
    case AndAnd => 2
    case BwOr => 3
    case BwXor => 4
    case BwAnd => 5
    case Eq | Neq => 6
    case Lt | Gt | Le | Ge => 7
    case Shl | Shr => 8
    case Plus | Minus => 9
    case Mul | Div | Rem => 10
    case Tilde | Bang | Question | Colon | LParen | RParen => 20
  }

  predicate IsBinary(op: Op) { Level(op) <= 10 }

  predicate IsUnary(op: Op) { op == Plus || op == Minus || op == Tilde || op == Bang }

  function Prec(e: Expr): nat {
    match e
    case Lit(_) | Name(_) | Paren(_) => 12
    case Defined(_, _) | Unary(_, _) => 11
    case Binary(op, _, _) => Level(op)
    case Cond(_, _, _) => 0
  }

  predicate WellFormed(e: Expr) {
    match e
    case Lit(_) | Defined(_, _) => true
    case Name(id) => id != "defined"
    case Paren(a) => WellFormed(a)
    case Unary(op, a) => IsUnary(op) && WellFormed(a)
    case Binary(op, l, r) => IsBinary(op) && WellFormed(l) && WellFormed(r)
    case Cond(b, t, f) => WellFormed(b) && WellFormed(t) && WellFormed(f)
  }

  /** The tokens of an expression where the grammar asks for one of this level: parentheses only if needed. */
  function Print(e: Expr, level: nat): seq<Tok>
    decreases e, 1
  {
    if Prec(e) < level then [Punct(LParen)] + Body(e) + [Punct(RParen)] else Body(e)
  }

  function Body(e: Expr): seq<Tok>
    decreases e, 0
  {
    match e
    case Lit(s) => [Num(s)]
    case Name(id) => [Id(id)]
    case Defined(id, parens) =>
      if parens then [Id("defined"), Punct(LParen), Id(id), Punct(RParen)] else [Id("defined"), Id(id)]
    case Paren(a) => [Punct(LParen)] + Print(a, 0) + [Punct(RParen)]
    case Unary(op, a) => [Punct(op)] + Print(a, 11)
    case Binary(op, l, r) => Print(l, Level(op)) + [Punct(op)] + Print(r, Level(op) + 1)
    case Cond(b, t, f) => Print(b, 1) + [Punct(Question)] + Print(t, 0) + [Punct(Colon)] + Print(f, 0)
  }

  // ------------------------------------------------------------------
  // The evaluator as a function of the tokens
  // ------------------------------------------------------------------

  /** A value and the tokens left, a syntax error, or a trap. */
  datatype Result = Ok(v: int, rest: seq<Tok>) | Error | Trap

  function Head(ts: seq<Tok>): Tok { if ts == [] then NewLine else ts[0] }

  /** pre_eval_* for one level of the grammar. */
  function Parse(c: Context, level: nat, ts: seq<Tok>): (r: Result)
    requires level <= 12
    ensures r.Ok? ==> |r.rest| < |ts|
    decreases |ts|, 13 - level, 0
  {
    if level == 12 then
      (match Head(ts)
       case Num(s) => Ok(NumberOf(s), ts[1..])
       case Id(id) => Ok(NameValue(c, id), ts[1..])
       case Punct(LParen) =>
         var r := Parse(c, 0, ts[1..]);
         if !r.Ok? then r else if Head(r.rest) == Punct(RParen) then Ok(r.v, r.rest[1..]) else Error
       case _ => Error)
    else if level == 11 then
      (match Head(ts)
       case Punct(op) =>
         if IsUnary(op) then
           var r := Parse(c, 11, ts[1..]);
           if r.Ok? then Ok(ApplyUnary(c, op, r.v), r.rest) else r
         else Parse(c, 12, ts)
       case Id(id) => if id == "defined" then ParseDefined(c, ts[1..]) else Parse(c, 12, ts)
       case _ => Parse(c, 12, ts))
    else
      var r := Parse(c, level + 1, ts);
      if r.Ok? then Continue(c, level, r.v, r.rest) else r
  }

  function ParseDefined(c: Context, ts: seq<Tok>): (r: Result)
    ensures r.Ok? ==> |r.rest| < |ts|
  {
    var parens := Head(ts) == Punct(LParen);
    var ts1 := if parens then ts[1..] else ts;
    if !Head(ts1).Id? then Error
    else if !parens then Ok(Truth(ts1[0].name in c.macros), ts1[1..])
    else if Head(ts1[1..]) == Punct(RParen) then Ok(Truth(ts1[0].name in c.macros), ts1[2..])
    else Error
  }

  /** What a level does after its first operand, with the value so far. */
  function Continue(c: Context, level: nat, v: int, ts: seq<Tok>): (r: Result)
    requires level <= 10
    ensures r.Ok? ==> |r.rest| <= |ts|
    decreases |ts|, 13, 1
  {
    if level == 0 then
      if Head(ts) != Punct(Question) then Ok(v, ts)
      else
        var r1 := Parse(c, 0, ts[1..]);
        if !r1.Ok? then r1
        else if Head(r1.rest) != Punct(Colon) then Error
        else
          var r2 := Parse(c, 0, r1.rest[1..]);
          if r2.Ok? then Ok(if v != 0 then r1.v else r2.v, r2.rest) else r2
    else if Head(ts).Punct? && Level(ts[0].op) == level then
      var r := Parse(c, level + 1, ts[1..]);
      if !r.Ok? then r
      else
        var w := Apply(c, ts[0].op, v, r.v);
        if w.None? then Trap else Continue(c, level, w.value, r.rest)
    else Ok(v, ts)
  }

  // ------------------------------------------------------------------
  // The evaluator computes the value of what was written
  // ------------------------------------------------------------------

  /** No loop above this level goes on with these tokens. */
  predicate Ends(level: nat, ts: seq<Tok>) {
    && (Head(ts).Punct? ==> Level(Head(ts).op) <= level || Level(Head(ts).op) == 20)
    && (level == 0 ==> Head(ts) != Punct(Question))
  }

  /** What a level makes of an operand with this value, before these tokens. */
  function After(c: Context, level: nat, v: Option<int>, ts: seq<Tok>): Result
    requires level <= 12
  {
    if v.None? then Trap else if level <= 10 then Continue(c, level, v.value, ts) else Ok(v.value, ts)
  }

  lemma ContinueStops(c: Context, level: nat, v: int, ts: seq<Tok>)
    requires level <= 10
    requires level == 0 ==> Head(ts) != Punct(Question)
    requires level > 0 ==> !(Head(ts).Punct? && Level(Head(ts).op) == level)
    ensures Continue(c, level, v, ts) == Ok(v, ts)
  {
  }

  /** One level up nothing but the loop of the lower level is left to do. */
  lemma StepDown(c: Context, level: nat, v: Option<int>, ts: seq<Tok>, rest: seq<Tok>)
    requires level < 11 && Ends(level, rest) && Parse(c, level + 1, ts) == After(c, level + 1, v, rest)
    ensures Parse(c, level, ts) == After(c, level, v, rest)
  {
    if v.Some? && level + 1 <= 10 {
      ContinueStops(c, level + 1, v.value, rest);
    }
  }

  lemma {:induction false} Parses(c: Context, e: Expr, level: nat, rest: seq<Tok>)
    requires WellFormed(e) && level <= 12 && Ends(level, rest)
    ensures Parse(c, level, Print(e, level) + rest) == After(c, level, Value(c, e), rest)
    decreases e, if Prec(e) < level then 1 else 0, 12 - level
  {
    hide Parse, Continue, After, Value;
    var ts := Print(e, level) + rest;
    if level == 12 && Prec(e) < 12 {
      Parses(c, e, 0, [Punct(RParen)] + rest);
      ParsesParens(c, Body(e), Value(c, e), rest);
    } else if level != Prec(e) {
      Parses(c, e, level + 1, rest);
      if level == 11 {
        PrimaryFromUnary(c, e, ts, rest);
      } else {
        StepDown(c, level, Value(c, e), ts, rest);
      }
    } else if e.Unary? {
      Parses(c, e.e, 11, rest);
      ParsesUnary(c, e, rest);
    } else if e.Paren? {
      Parses(c, e.e, 0, [Punct(RParen)] + rest);
      ParsesParens(c, Print(e.e, 0), Value(c, e.e), rest);
      ValueOfParen(c, e);
    } else if e.Binary? {
      Parses(c, e.l, level, [Punct(e.op)] + (Print(e.r, level + 1) + rest));
      Parses(c, e.r, level + 1, rest);
      ParsesBinary(c, e, rest);
    } else if e.Cond? {
      var after := Print(e.f, 0) + rest;
      var mid := Print(e.t, 0) + ([Punct(Colon)] + after);
      Parses(c, e.c, 1, [Punct(Question)] + mid);
      Parses(c, e.t, 0, [Punct(Colon)] + after);
      Parses(c, e.f, 0, rest);
      ParsesCond(c, e, rest);
    } else {
      ParsesLeaf(c, e, rest);
    }
  }

  lemma ValueOfParen(c: Context, e: Expr)
    requires e.Paren?
    ensures Value(c, e) == Value(c, e.e)
  {
  }

  lemma ParsesLeaf(c: Context, e: Expr, rest: seq<Tok>)
    requires WellFormed(e) && (e.Lit? || e.Name? || e.Defined?)
    ensures Parse(c, Prec(e), Body(e) + rest) == After(c, Prec(e), Value(c, e), rest)
  {
    var ts := Body(e) + rest;
    if e.Defined? {
      assert ts[1..] == Body(e)[1..] + rest;
      if e.parens {
        assert ts[1..][1..] == [Id(e.id), Punct(RParen)] + rest;
        assert ts[1..][1..][2..] == rest;
      } else {
        assert ts[1..][1..] == rest;
      }
    } else {
      assert ts[1..] == rest;
    }
  }

  lemma ParsesParens(c: Context, inner: seq<Tok>, v: Option<int>, rest: seq<Tok>)
    requires Parse(c, 0, inner + ([Punct(RParen)] + rest)) == After(c, 0, v, [Punct(RParen)] + rest)
    ensures Parse(c, 12, [Punct(LParen)] + inner + [Punct(RParen)] + rest) == After(c, 12, v, rest)
  {
    var ts := [Punct(LParen)] + inner + [Punct(RParen)] + rest;
    assert ts[0] == Punct(LParen) && ts[1..] == inner + ([Punct(RParen)] + rest);
    assert ([Punct(RParen)] + rest)[1..] == rest;
    if v.Some? {
      ContinueStops(c, 0, v.value, [Punct(RParen)] + rest);
    }
  }

  /** A primary expression does not begin like a unary one. */
  lemma PrimaryFromUnary(c: Context, e: Expr, ts: seq<Tok>, rest: seq<Tok>)
    requires WellFormed(e) && Prec(e) != 11 && ts == Print(e, 11) + rest
    requires Parse(c, 12, Print(e, 12) + rest) == After(c, 12, Value(c, e), rest)
    ensures Parse(c, 11, ts) == After(c, 11, Value(c, e), rest)
  {
    assert Print(e, 12) == Print(e, 11);
    if e.Lit? {
      assert ts[0] == Num(e.lexeme);
    } else if e.Name? {
      assert ts[0] == Id(e.id);
    } else {
      assert ts[0] == Punct(LParen);
    }
  }

  lemma ParsesUnary(c: Context, e: Expr, rest: seq<Tok>)
    requires e.Unary? && WellFormed(e)
    requires Parse(c, 11, Print(e.e, 11) + rest) == After(c, 11, Value(c, e.e), rest)
    ensures Parse(c, 11, Body(e) + rest) == After(c, 11, Value(c, e), rest)
  {
    hide Print, Parse;
    var ts := Body(e) + rest;
    assert ts[0] == Punct(e.op) && ts[1..] == Print(e.e, 11) + rest;
    ParseUnary(c, ts);
  }

  lemma ParseUnary(c: Context, ts: seq<Tok>)
    requires Head(ts).Punct? && IsUnary(Head(ts).op)
    ensures Parse(c, 11, ts) == var r := Parse(c, 11, ts[1..]); if r.Ok?
            then Ok(ApplyUnary(c, ts[0].op, r.v), r.rest) else r
  {
  }

  lemma ParsesBinary(c: Context, e: Expr, rest: seq<Tok>)
    requires e.Binary? && WellFormed(e) && Ends(Level(e.op), rest)
    requires var p := Level(e.op);
      && Parse(c, p, Print(e.l, p) + ([Punct(e.op)] + (Print(e.r, p + 1) + rest)))
         == After(c, p, Value(c, e.l), [Punct(e.op)] + (Print(e.r, p + 1) + rest))
      && Parse(c, p + 1, Print(e.r, p + 1) + rest) == After(c, p + 1, Value(c, e.r), rest)
    ensures Parse(c, Level(e.op), Body(e) + rest) == After(c, Level(e.op), Value(c, e), rest)
  {
    hide Parse, Print, Continue;
    var p := Level(e.op);
    var right := Print(e.r, p + 1) + rest;
    var first := [Punct(e.op)] + right;
    assert Body(e) + rest == Print(e.l, p) + first by { BinaryTokens(Print(e.l, p), e.op, Print(e.r, p + 1), rest); }
    assert first[0] == Punct(e.op) && first[1..] == right;
    if Value(c, e.l).Some? {
      ContinueGoesOn(c, p, Value(c, e.l).value, first);
      if Value(c, e.r).Some? && p + 1 <= 10 {
        ContinueStops(c, p + 1, Value(c, e.r).value, rest);
      }
    }
  }

  lemma BinaryTokens(a: seq<Tok>, op: Op, b: seq<Tok>, rest: seq<Tok>)
    ensures a + [Punct(op)] + b + rest == a + ([Punct(op)] + (b + rest))
  {
  }

  lemma ContinueGoesOn(c: Context, level: nat, v: int, ts: seq<Tok>)
    requires 1 <= level <= 10 && Head(ts).Punct? && Level(Head(ts).op) == level
    ensures Continue(c, level, v, ts) ==
      var r := Parse(c, level + 1, ts[1..]);
      if !r.Ok? then r
      else
        var w := Apply(c, ts[0].op, v, r.v);
        if w.None? then Trap else Continue(c, level, w.value, r.rest)
  {
  }

  lemma ParsesCond(c: Context, e: Expr, rest: seq<Tok>)
    requires e.Cond? && Ends(0, rest)
    requires var after := Print(e.f, 0) + rest;
      var mid := Print(e.t, 0) + ([Punct(Colon)] + after);
      && Parse(c, 1, Print(e.c, 1) + ([Punct(Question)] + mid)) == After(c, 1, Value(c, e.c), [Punct(Question)] + mid)
      && Parse(c, 0, mid) == After(c, 0, Value(c, e.t), [Punct(Colon)] + after)
      && Parse(c, 0, after) == After(c, 0, Value(c, e.f), rest)
    ensures Parse(c, 0, Body(e) + rest) == After(c, 0, Value(c, e), rest)
  {
    hide Print;
    var after := Print(e.f, 0) + rest;
    var mid := Print(e.t, 0) + ([Punct(Colon)] + after);
    var first := [Punct(Question)] + mid;
    assert Body(e) + rest == Print(e.c, 1) + first by { CondTokens(Print(e.c, 1), Print(e.t, 0), Print(e.f, 0), rest); }
    ParsesCondTail(c, Value(c, e.c), Value(c, e.t), Value(c, e.f), mid, after, rest, Body(e) + rest);
  }

  lemma CondTokens(a: seq<Tok>, b: seq<Tok>, d: seq<Tok>, rest: seq<Tok>)
    ensures a + [Punct(Question)] + b + [Punct(Colon)] + d + rest
         == a + ([Punct(Question)] + (b + ([Punct(Colon)] + (d + rest))))
  {
    assert [Punct(Question)] + b + [Punct(Colon)] + d + rest == [Punct(Question)] + (b + ([Punct(Colon)] + (d + rest)));
  }

  lemma ParsesCondTail(c: Context, v: Option<int>, w1: Option<int>, w2: Option<int>, mid: seq<Tok>, after: seq<Tok>,
      rest: seq<Tok>, ts: seq<Tok>)
    requires Ends(0, rest)
    requires Parse(c, 1, ts) == After(c, 1, v, [Punct(Question)] + mid)
    requires Parse(c, 0, mid) == After(c, 0, w1, [Punct(Colon)] + after) && Parse(c, 0, after) == After(c, 0, w2, rest)
    ensures Parse(c, 0, ts)
         == After(c, 0, if v.None? || w1.None? || w2.None? then None else if v.value != 0 then w1 else w2, rest)
  {
    hide Parse;
    var first := [Punct(Question)] + mid;
    assert first[0] == Punct(Question) && first[1..] == mid;
    assert ([Punct(Colon)] + after)[1..] == after;
    LevelZero(c, ts);
    if v.Some? {
      ContinueStops(c, 1, v.value, first);
      if w1.Some? {
        ContinueStops(c, 0, w1.value, [Punct(Colon)] + after);
        if w2.Some? {
          ContinueStops(c, 0, w2.value, rest);
          ContinueStops(c, 0, if v.value != 0 then w1.value else w2.value, rest);
        }
      }
    }
  }

  lemma LevelZero(c: Context, ts: seq<Tok>)
    ensures Parse(c, 0, ts) == var r := Parse(c, 1, ts); if r.Ok? then Continue(c, 0, r.v, r.rest) else r
  {
  }

  /**
   * Written by the grammar and evaluated, an expression has its value, and its tokens are exactly those consumed;
   * if some operation in it traps, whether needed or not, the evaluator does.
   */
  lemma Evaluates(c: Context, e: Expr)
    requires WellFormed(e)
    ensures Parse(c, 0, Print(e, 0) + [NewLine])
         == var v := Value(c, e); if v.Some? then Ok(v.value, [NewLine]) else Trap
  {
    Parses(c, e, 0, [NewLine]);
    var v := Value(c, e);
    if v.Some? {
      ContinueStops(c, 0, v.value, [NewLine]);
    }
  }

  // ------------------------------------------------------------------
  // Which operator binds tighter
  // ------------------------------------------------------------------

  /** The binary operators from tightest to loosest (sections 6.5.5 to 6.5.14 of ISO/IEC 9899:1999). */
  const CLASSES: seq<set<Op>> :=
    [{Mul, Div, Rem}, {Plus, Minus}, {Shl, Shr}, {Lt, Gt, Le, Ge}, {Eq, Neq},
     {BwAnd}, {BwXor}, {BwOr}, {AndAnd}, {OrOr}]

  /** The place of an operator among them, from k on; 10 if it has none. */
  function ClassFrom(op: Op, k: nat): (r: nat)
    requires k <= 10
    ensures k <= r <= 10 && (r < 10 ==> op in CLASSES[r]) && forall j :: k <= j < r ==> op !in CLASSES[j]
    decreases 10 - k
  {
    if k == 10 || op in CLASSES[k] then k else ClassFrom(op, k + 1)
  }

  function Class(op: Op): nat { ClassFrom(op, 0) }

  /** The value of an operation, if its operands have values and it does not trap. */
  function Combined(c: Context, v: Option<int>, op: Op, w: Option<int>): Option<int> {
    if v.None? || w.None? then None else Apply(c, op, v.value, w.value)
  }

  /** A whole line with this value. */
  function Outcome(v: Option<int>): Result { if v.Some? then Ok(v.value, [NewLine]) else Trap }

  lemma LevelIsClass(op: Op)
    ensures Class(op) < 10 <==> IsBinary(op)
    ensures IsBinary(op) ==> Level(op) + Class(op) == 10
    ensures Level(op) >= 1
  {
    InClass(op);
    hide ClassFrom;
    var k := Class(op);
    assert |CLASSES| == 10;
    assert k < 10 ==> op in CLASSES[k];
  }

  lemma InClass(op: Op)
    ensures forall k :: 0 <= k < 10 && op in CLASSES[k] ==> Level(op) == 10 - k
    ensures IsBinary(op) ==> op in CLASSES[10 - Level(op)]
    ensures Level(op) >= 1
  {
  }

  lemma PrintLit(x: string, level: nat)
    requires level <= 12
    ensures Print(Lit(x), level) == [Num(x)]
  {
  }

  lemma PrintBinary(l: Expr, op: Op, r: Expr, level: nat)
    requires level <= Level(op)
    ensures Print(Binary(op, l, r), level) == Print(l, Level(op)) + [Punct(op)] + Print(r, Level(op) + 1)
  {
  }

  lemma PrintUnary(op: Op, e: Expr, level: nat)
    requires level <= 11
    ensures Print(Unary(op, e), level) == [Punct(op)] + Print(e, 11)
  {
  }

  lemma ValueBinary(c: Context, op: Op, l: Expr, r: Expr)
    ensures Value(c, Binary(op, l, r)) == Combined(c, Value(c, l), op, Value(c, r))
  {
    hide Apply, ApplyUnary, NumberOf, NameValue, Truth;
  }

  lemma ValueLit(c: Context, x: string)
    ensures Value(c, Lit(x)) == Some(NumberOf(x))
  {
    hide NumberOf;
  }

  lemma ValuePair(c: Context, x: string, op: Op, y: string)
    ensures Value(c, Binary(op, Lit(x), Lit(y))) == Apply(c, op, NumberOf(x), NumberOf(y))
  {
    ValueBinary(c, op, Lit(x), Lit(y));
    ValueLit(c, x);
    ValueLit(c, y);
  }

  lemma PrintCond(b: Expr, t: Expr, f: Expr)
    ensures Print(Cond(b, t, f), 0) == Print(b, 1) + [Punct(Question)] + Print(t, 0) + [Punct(Colon)] + Print(f, 0)
  {
  }

  lemma TwoConditions(c: Context, e: Expr, inner: Expr)
    requires e.Cond? && inner.Cond? && e.f == inner && inner.c.Lit? && inner.t.Lit? && e.t.Lit?
    ensures Value(c, e) ==
            var test, last := Value(c, e.c), Value(c, inner.f);
            if test.None? || last.None? then None
            else if test.value != 0 then Some(NumberOf(e.t.lexeme))
            else if NumberOf(inner.c.lexeme) != 0 then Some(NumberOf(inner.t.lexeme)) else last
  {
    hide NumberOf;
    ValueLit(c, e.t.lexeme);
    ValueLit(c, inner.c.lexeme);
    ValueLit(c, inner.t.lexeme);
    assert Value(c, e) == (var v, w1, w2 := Value(c, e.c), Value(c, e.t), Value(c, inner);
      if v.None? || w1.None? || w2.None? then None else if v.value != 0 then w1 else w2);
    assert Value(c, inner) == (var v, w1, w2 := Value(c, inner.c), Value(c, inner.t), Value(c, inner.f);
      if v.None? || w1.None? || w2.None? then None else if v.value != 0 then w1 else w2);
  }

  /** An operation on two literals, without parentheses. */
  lemma PrintPair(x: string, op: Op, y: string, level: nat)
    requires level <= Level(op) <= 10
    ensures Print(Binary(op, Lit(x), Lit(y)), level) == [Num(x), Punct(op), Num(y)]
  {
    PrintBinary(Lit(x), op, Lit(y), level);
    PrintLit(x, Level(op));
    PrintLit(y, Level(op) + 1);
  }

  /** a p b q c is (a p b) q c if p binds as tightly as q, and a p (b q c) if q binds tighter. */
  lemma Precedence(c: Context, x: string, p: Op, y: string, q: Op, z: string)
    requires Class(p) < 10 && Class(q) < 10
    ensures var (a, b, d) := (Some(NumberOf(x)), Some(NumberOf(y)), Some(NumberOf(z)));
            Parse(c, 0, [Num(x), Punct(p), Num(y), Punct(q), Num(z), NewLine]) ==
            Outcome(if Class(p) <= Class(q) then Combined(c, Combined(c, a, p, b), q, d)
                    else Combined(c, a, p, Combined(c, b, q, d)))
  {
    LevelIsClass(p);
    LevelIsClass(q);
    var ts := [Num(x), Punct(p), Num(y), Punct(q), Num(z), NewLine];
    hide NumberOf, Parse, Apply, Level, Class, Print, Value;
    ValuePair(c, x, p, y);
    ValuePair(c, y, q, z);
    ValueLit(c, x);
    ValueLit(c, z);
    if Class(p) <= Class(q) {
      var e := Binary(q, Binary(p, Lit(x), Lit(y)), Lit(z));
      PrintBinary(Binary(p, Lit(x), Lit(y)), q, Lit(z), 0);
      PrintPair(x, p, y, Level(q));
      PrintLit(z, Level(q) + 1);
      ValueBinary(c, q, Binary(p, Lit(x), Lit(y)), Lit(z));
      assert Print(e, 0) + [NewLine] == ts;
      Evaluates(c, e);
    } else {
      var e := Binary(p, Lit(x), Binary(q, Lit(y), Lit(z)));
      PrintBinary(Lit(x), p, Binary(q, Lit(y), Lit(z)), 0);
      PrintPair(y, q, z, Level(p) + 1);
      PrintLit(x, Level(p));
      ValueBinary(c, p, Lit(x), Binary(q, Lit(y), Lit(z)));
      assert Print(e, 0) + [NewLine] == ts;
      Evaluates(c, e);
    }
  }

  /** A unary operator binds tighter than every binary one. */
  lemma UnaryTightest(c: Context, u: Op, x: string, p: Op, y: string)
    requires u in {Plus, Minus, Tilde, Bang} && Class(p) < 10
    ensures Parse(c, 0, [Punct(u), Num(x), Punct(p), Num(y), NewLine]) ==
            Outcome(Apply(c, p, ApplyUnary(c, u, NumberOf(x)), NumberOf(y)))
  {
    LevelIsClass(p);
    var ts := [Punct(u), Num(x), Punct(p), Num(y), NewLine];
    hide NumberOf, Parse, Apply, ApplyUnary, Level, Class, Print;
    var e := Binary(p, Unary(u, Lit(x)), Lit(y));
    PrintBinary(Unary(u, Lit(x)), p, Lit(y), 0);
    PrintUnary(u, Lit(x), Level(p));
    ValueBinary(c, p, Unary(u, Lit(x)), Lit(y));
    ValueLit(c, y);
    ValueLit(c, x);
    PrintLit(x, 11);
    PrintLit(y, Level(p) + 1);
    assert Print(e, 0) + [NewLine] == ts;
    Evaluates(c, e);
  }

  /** The conditional operator binds loosest and groups from the right: w p x ? y : z ? v : u q t. */
  lemma ConditionalLoosest(c: Context, w: string, p: Op, x: string, y: string, z: string, v: string, u: string, q: Op,
      t: string)
    requires Class(p) < 10 && Class(q) < 10
    ensures var test, last := Apply(c, p, NumberOf(w), NumberOf(x)), Apply(c, q, NumberOf(u), NumberOf(t));
            Parse(c, 0, [Num(w), Punct(p), Num(x), Punct(Question), Num(y), Punct(Colon),
                         Num(z), Punct(Question), Num(v), Punct(Colon), Num(u), Punct(q), Num(t), NewLine]) ==
            Outcome(if test.None? || last.None? then None
                    else if test.value != 0 then Some(NumberOf(y))
                    else if NumberOf(z) != 0 then Some(NumberOf(v)) else last)
  {
    LevelIsClass(p);
    LevelIsClass(q);
    var ts := [Num(w), Punct(p), Num(x), Punct(Question), Num(y), Punct(Colon), Num(z), Punct(Question), Num(v),
               Punct(Colon), Num(u), Punct(q), Num(t), NewLine];
    hide NumberOf, Parse, Apply, Level, Class, Print;
    var inner := Cond(Lit(z), Lit(v), Binary(q, Lit(u), Lit(t)));
    var e := Cond(Binary(p, Lit(w), Lit(x)), Lit(y), inner);
    PrintCond(Binary(p, Lit(w), Lit(x)), Lit(y), inner);
    PrintCond(Lit(z), Lit(v), Binary(q, Lit(u), Lit(t)));
    PrintPair(w, p, x, 1);
    PrintPair(u, q, t, 0);
    PrintLit(y, 0);
    PrintLit(z, 1);
    PrintLit(v, 0);
    TwoConditions(c, e, inner);
    ValuePair(c, w, p, x);
    ValuePair(c, u, q, t);
    assert WellFormed(Lit(u)) && WellFormed(Lit(t)) && WellFormed(Lit(z)) && WellFormed(Lit(v));
    assert WellFormed(inner);
    assert Print(e, 0) + [NewLine] == ts;
    Evaluates(c, e);
  }

  // ------------------------------------------------------------------
  // The evaluator accepts nothing else
  // ------------------------------------------------------------------

  /** Accepted tokens are an expression as the grammar writes it, with its own value. */
  lemma {:induction false} Accepted(c: Context, level: nat, ts: seq<Tok>) returns (e: Expr)
    requires level <= 12 && Parse(c, level, ts).Ok? && (level == 12 ==> Head(ts) != Id("defined"))
    ensures WellFormed(e) && Prec(e) >= level && Value(c, e) == Some(Parse(c, level, ts).v)
    ensures ts == Body(e) + Parse(c, level, ts).rest
    decreases |ts|, 13 - level, 0
  {
    hide Body, Print, NumberOf, Value;
    if level == 12 {
      e := AcceptedPrimary(c, ts);
    } else if level == 11 {
      if Head(ts) == Id("defined") {
        e := AcceptedDefined(c, ts);
      } else if Head(ts).Punct? && IsUnary(Head(ts).op) {
        var a := Accepted(c, 11, ts[1..]);
        e := Unary(ts[0].op, a);
        UnaryWritten(c, e);
        UnaryTokens(ts[0], Body(a), Parse(c, 11, ts[1..]).rest, ts);
      } else {
        e := Accepted(c, 12, ts);
      }
    } else {
      var a := Accepted(c, level + 1, ts);
      var r := Parse(c, level + 1, ts);
      e := AcceptedTail(c, level, a, r.rest);
    }
  }

  lemma UnaryTokens(head: Tok, body: seq<Tok>, rest: seq<Tok>, ts: seq<Tok>)
    requires ts != [] && ts[0] == head && ts[1..] == body + rest
    ensures ts == [head] + body + rest
  {
    assert ts == [ts[0]] + ts[1..];
  }

  lemma UnaryWritten(c: Context, e: Expr)
    requires e.Unary? && Prec(e.e) >= 11
    ensures Body(e) == [Punct(e.op)] + Body(e.e)
    ensures Value(c, e.e).Some? ==> Value(c, e) == Some(ApplyUnary(c, e.op, Value(c, e.e).value))
  {
  }

  lemma {:induction false} AcceptedPrimary(c: Context, ts: seq<Tok>) returns (e: Expr)
    requires Parse(c, 12, ts).Ok? && Head(ts) != Id("defined")
    ensures WellFormed(e) && Prec(e) == 12 && Value(c, e) == Some(Parse(c, 12, ts).v)
    ensures ts == Body(e) + Parse(c, 12, ts).rest
    decreases |ts|, 0, 2
  {
    PrimaryOpens(c, ts);
    if Head(ts).Num? {
      e := Lit(ts[0].lexeme);
    } else if Head(ts).Id? {
      e := Name(ts[0].name);
    } else {
      var r := Parse(c, 0, ts[1..]);
      var a := Accepted(c, 0, ts[1..]);
      e := Paren(a);
      ParensTokens(Body(a), r.rest, ts);
      assert Body(e) == [Punct(LParen)] + Body(a) + [Punct(RParen)];
    }
  }

  lemma ParensTokens(body: seq<Tok>, rest: seq<Tok>, ts: seq<Tok>)
    requires ts != [] && ts[0] == Punct(LParen) && ts[1..] == body + rest && Head(rest) == Punct(RParen)
    ensures ts == [Punct(LParen)] + body + [Punct(RParen)] + rest[1..]
  {
    assert rest == [rest[0]] + rest[1..];
    assert ts == [ts[0]] + ts[1..];
  }

  lemma AcceptedDefined(c: Context, ts: seq<Tok>) returns (e: Expr)
    requires Parse(c, 11, ts).Ok? && Head(ts) == Id("defined")
    ensures WellFormed(e) && Prec(e) == 11 && Value(c, e) == Some(Parse(c, 11, ts).v)
    ensures ts == Body(e) + Parse(c, 11, ts).rest
  {
    var t1 := ts[1..];
    if Head(t1) == Punct(LParen) {
      e := Defined(t1[1].name, true);
      assert ts == [ts[0], ts[1], ts[2], ts[3]] + t1[1..][2..];
    } else {
      e := Defined(t1[0].name, false);
      assert ts == [ts[0], ts[1]] + t1[1..];
    }
  }

  /** The loop of a level extends the expression to the left of it. */
  lemma {:induction false} AcceptedTail(c: Context, level: nat, l: Expr, ts: seq<Tok>) returns (e: Expr)
    requires level <= 10 && WellFormed(l) && Value(c, l).Some? && Continue(c, level, Value(c, l).value, ts).Ok?
    requires Prec(l) >= if level == 0 then 1 else level
    ensures WellFormed(e) && Prec(e) >= level && Value(c, e) == Some(Continue(c, level, Value(c, l).value, ts).v)
    ensures Body(e) + Continue(c, level, Value(c, l).value, ts).rest == Body(l) + ts
    decreases |ts|, 13, 1
  {
    hide Body, Print, NumberOf, Value, Parse;
    var v := Value(c, l).value;
    if level == 0 && Head(ts) == Punct(Question) {
      e := AcceptedCond(c, l, ts);
    } else if level > 0 && Head(ts).Punct? && Level(ts[0].op) == level {
      var r := Parse(c, level + 1, ts[1..]);
      var a := Accepted(c, level + 1, ts[1..]);
      var l1 := Binary(ts[0].op, l, a);
      BinaryWritten(c, l1);
      UnaryTokens(ts[0], Body(a), r.rest, ts);
      e := AcceptedTail(c, level, l1, r.rest);
      Assoc(Body(l), [ts[0]] + Body(a), r.rest);
      Assoc(Body(l), [ts[0]], Body(a));
    } else {
      e := l;
    }
  }

  lemma Assoc(a: seq<Tok>, b: seq<Tok>, d: seq<Tok>)
    ensures a + b + d == a + (b + d)
  {
  }

  lemma BinaryWritten(c: Context, e: Expr)
    requires e.Binary? && Prec(e.l) >= Level(e.op) && Prec(e.r) >= Level(e.op) + 1
    ensures Body(e) == Body(e.l) + [Punct(e.op)] + Body(e.r)
    ensures Value(c, e.l).Some? && Value(c, e.r).Some? ==>
              Value(c, e) == Apply(c, e.op, Value(c, e.l).value, Value(c, e.r).value)
  {
  }

  lemma {:induction false} AcceptedCond(c: Context, l: Expr, ts: seq<Tok>) returns (e: Expr)
    requires WellFormed(l) && Value(c, l).Some? && Prec(l) >= 1 && Head(ts) == Punct(Question)
    requires Continue(c, 0, Value(c, l).value, ts).Ok?
    ensures WellFormed(e) && Value(c, e) == Some(Continue(c, 0, Value(c, l).value, ts).v)
    ensures Body(e) + Continue(c, 0, Value(c, l).value, ts).rest == Body(l) + ts
    decreases |ts|, 13, 0
  {
    hide Body, Print, NumberOf, Value, Parse;
    var r1 := Parse(c, 0, ts[1..]);
    var a := Accepted(c, 0, ts[1..]);
    var r2 := Parse(c, 0, r1.rest[1..]);
    var b := Accepted(c, 0, r1.rest[1..]);
    e := Cond(l, a, b);
    CondWritten(c, e);
    CondRest(Body(l), Body(a), Body(b), ts, r1.rest, r2.rest);
  }

  lemma CondWritten(c: Context, e: Expr)
    requires e.Cond? && Prec(e.c) >= 1
    ensures Body(e) == Body(e.c) + [Punct(Question)] + Body(e.t) + [Punct(Colon)] + Body(e.f)
    ensures Value(c, e.c).Some? && Value(c, e.t).Some? && Value(c, e.f).Some? ==>
      Value(c, e) == if Value(c, e.c).value != 0 then Value(c, e.t) else Value(c, e.f)
  {
  }

  lemma CondRest(l: seq<Tok>, a: seq<Tok>, b: seq<Tok>, ts: seq<Tok>, rest1: seq<Tok>, rest2: seq<Tok>)
    requires Head(ts) == Punct(Question) && ts != [] && ts[1..] == a + rest1
    requires Head(rest1) == Punct(Colon) && rest1 != [] && rest1[1..] == b + rest2
    ensures l + [Punct(Question)] + a + [Punct(Colon)] + b + rest2 == l + ts
  {
    CondTokens(l, a, b, rest2);
    assert rest1 == [rest1[0]] + rest1[1..];
    assert ts == [ts[0]] + ts[1..];
  }

  // ------------------------------------------------------------------
  // The evaluator
  // ------------------------------------------------------------------

  /** A value, an error message, or a trap. */
  datatype Status = Good | Bad | Dead

  predicate Clean(c: Context, toks: seq<Tok>) {
    && (forall k :: 0 <= k < |toks| && toks[k].Num? ==> '\0' !in toks[k].lexeme)
    && (forall x :: x in c.macros ==> '\0' !in c.macros[x])
  }

  class Evaluator {
    const c: Context
    var toks: seq<Tok>
    var pos: nat

    constructor (c: Context, line: seq<Tok>)
      requires Clean(c, line)
      ensures this.c == c && toks == line && pos == 0 && Valid()
    {
      this.c := c;
      toks, pos := line, 0;
    }

    ghost predicate Valid()
      reads this
    {
      pos <= |toks| && Clean(c, toks)
    }

    function Rest(): seq<Tok>
      reads this
    {
      if pos <= |toks| then toks[pos..] else []
    }

    /** The outcome of a method is what the function of the tokens says. */
    twostate predicate Computes(r: Result, st: Status, v: int)
      reads this
    {
      && Valid() && toks == old(toks)
      && match r
         case Ok(v1, rest) => st == Good && v == v1 && Rest() == rest
         case Error => st == Bad
         case Trap => st == Dead
    }

    function Look(): (t: Tok)
      reads this
      ensures t == Head(Rest())
    {
      if pos < |toks| then toks[pos] else NewLine
    }

    method Match()
      requires Valid() && pos < |toks|
      modifies this`pos
      ensures Valid() && Rest() == old(Rest())[1..] && toks == old(toks) && |old(Rest())| > 0
    {
      pos := pos + 1;
    }

    method CondExpr() returns (st: Status, v: int)
      requires Valid()
      modifies this`pos
      ensures Computes(Parse(c, 0, old(Rest())), st, v)
      decreases |Rest()|, 13, 0
    {
      hide Parse, Clean;
      ghost var ts := Rest();
      LevelOpens(c, 0, ts);
      st, v := BinaryExpr(1);
      if st != Good {
        return;
      }
      ContinueZero(c, v, Rest());
      if Look() == Punct(Question) {
        Match();
        var v1, v2;
        st, v1 := CondExpr();
        if st != Good {
          return;
        }
        if Look() != Punct(Colon) {
          st := Bad;
          return;
        }
        Match();
        st, v2 := CondExpr();
        v := if v != 0 then v1 else v2;
      }
    }

    /** The functions of the ten binary levels, which have one shape. */
    method BinaryExpr(level: nat) returns (st: Status, v: int)
      requires Valid() && 1 <= level <= 10
      modifies this`pos
      ensures Computes(Parse(c, level, old(Rest())), st, v)
      decreases |Rest()|, 13 - level, 0
    {
      hide Parse, Clean;
      ghost var ts := Rest();
      LevelOpens(c, level, ts);
      st, v := Operand(level + 1);
      if st != Good {
        return;
      }
      while Look().Punct? && Level(Look().op) == level
        invariant Valid() && toks == old(toks) && st == Good && |Rest()| < |ts|
        invariant Parse(c, level, ts) == Continue(c, level, v, Rest())
        decreases |Rest()|
      {
        ContinueGoesOn(c, level, v, Rest());
        var op := Look().op;
        Match();
        var w;
        st, w := Operand(level + 1);
        if st != Good {
          return;
        }
        var x := Apply(c, op, v, w);
        if x.None? {
          st := Dead;
          return;
        }
        v := x.value;
      }
      ContinueStops(c, level, v, Rest());
    }

    method Operand(level: nat) returns (st: Status, v: int)
      requires Valid() && 1 <= level <= 11
      modifies this`pos
      ensures Computes(Parse(c, level, old(Rest())), st, v)
      decreases |Rest()|, 13 - level, 1
    {
      if level <= 10 {
        st, v := BinaryExpr(level);
      } else {
        st, v := UnaExpr();
      }
    }

    method UnaExpr() returns (st: Status, v: int)
      requires Valid()
      modifies this`pos
      ensures Computes(Parse(c, 11, old(Rest())), st, v)
      decreases |Rest()|, 2, 0
    {
      hide Parse, Clean;
      UnaryOpens(c, Rest());
      if Look() == Id("defined") {
        st, v := DefinedExpr();
      } else if Look().Punct? && IsUnary(Look().op) {
        var op := Look().op;
        Match();
        st, v := UnaExpr();
        v := ApplyUnary(c, op, v);
      } else {
        st, v := PriExpr();
      }
    }

    method DefinedExpr() returns (st: Status, v: int)
      requires Valid() && Look() == Id("defined")
      modifies this`pos
      ensures Computes(ParseDefined(c, old(Rest())[1..]), st, v)
    {
      hide Clean;
      v := 0;
      Match();
      if Look() == Punct(LParen) {
        Match();
        if !Look().Id? {
          return Bad, 0;
        }
        v := Truth(Look().name in c.macros);
        Match();
        if Look() != Punct(RParen) {
          return Bad, 0;
        }
        Match();
        st := Good;
      } else {
        if !Look().Id? {
          return Bad, 0;
        }
        v := Truth(Look().name in c.macros);
        Match();
        st := Good;
      }
    }

    method PriExpr() returns (st: Status, v: int)
      requires Valid()
      modifies this`pos
      ensures Computes(Parse(c, 12, old(Rest())), st, v)
      decreases |Rest()|, 1, 0
    {
      hide Parse, NumberOf;
      PrimaryOpens(c, Rest());
      v := 0;
      var t := Look();
      if t.Num? {
        v := ReadNumber(t.lexeme);
        Match();
        st := Good;
      } else if t.Id? {
        if t.name in c.macros {
          v := ReadNumber(c.macros[t.name]);
        }
        Match();
        st := Good;
      } else if t == Punct(LParen) {
        Match();
        st, v := CondExpr();
        if st != Good {
          return;
        }
        if Look() != Punct(RParen) {
          st := Bad;
          return;
        }
        Match();
      } else {
        st := Bad;
      }
    }
  }

  lemma LevelOpens(c: Context, level: nat, ts: seq<Tok>)
    requires level <= 10
    ensures Parse(c, level, ts) == var r := Parse(c, level + 1, ts); if r.Ok? then Continue(c, level, r.v, r.rest)
            else r
  {
  }

  /** The result of strtoll as a signed number. */
  method ReadNumber(s: string) returns (v: int)
    requires '\0' !in s
    ensures v == NumberOf(s)
  {
    var r := Strtoxll(s, 10, true);
    v := if r.val < LibLux.TWO63 then r.val else r.val - LibLux.TWO64;
  }

  lemma ContinueZero(c: Context, v: int, ts: seq<Tok>)
    ensures Continue(c, 0, v, ts) ==
      if Head(ts) != Punct(Question) then Ok(v, ts)
      else
        var r1 := Parse(c, 0, ts[1..]);
        if !r1.Ok? then r1
        else if Head(r1.rest) != Punct(Colon) then Error
        else
          var r2 := Parse(c, 0, r1.rest[1..]);
          if r2.Ok? then Ok(if v != 0 then r1.v else r2.v, r2.rest) else r2
  {
  }

  lemma UnaryOpens(c: Context, ts: seq<Tok>)
    ensures Head(ts) == Id("defined") ==> Parse(c, 11, ts) == ParseDefined(c, ts[1..])
    ensures Head(ts).Punct? && IsUnary(Head(ts).op) ==>
      Parse(c, 11, ts) == var r := Parse(c, 11, ts[1..]); if r.Ok? then Ok(ApplyUnary(c, ts[0].op, r.v), r.rest) else r
    ensures Head(ts) != Id("defined") && !(Head(ts).Punct? && IsUnary(Head(ts).op))
            ==> Parse(c, 11, ts) == Parse(c, 12, ts)
  {
  }

  lemma PrimaryOpens(c: Context, ts: seq<Tok>)
    ensures Parse(c, 12, ts) ==
      var t := Head(ts);
      if t.Num? then Ok(NumberOf(t.lexeme), ts[1..])
      else if t.Id? then Ok(NameValue(c, t.name), ts[1..])
      else if t == Punct(LParen) then
        var r := Parse(c, 0, ts[1..]);
        if !r.Ok? then r else if Head(r.rest) == Punct(RParen) then Ok(r.v, r.rest[1..]) else Error
      else Error
  {
  }
}
