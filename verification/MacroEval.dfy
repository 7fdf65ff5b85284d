/**
 The macro evaluator of tools/ini_macro_oracle.py: `scan` and `expr` splice macro values into a
 token deque. For well-bracketed, acyclic macros this is the evaluation of the substituted tree.
 */
module MacroEval {
  import opened Options

  /** A float32 bit pattern. */
  type Bits = nat

  datatype Outcome = Value(v: Bits) | Failed | OutOfFuel

  /**
   The macros (lower-case name -> the words of the value), the reading of number texts, and the x87
   helper; the last two are arbitrary, and either may reject its argument.
   */
  datatype Env = Env(macros: map<string, seq<string>>, number: string -> Option<Bits>,
                     x87: (string, Bits, Bits) -> Option<Bits>)

  const ADD := "#ADD("
  const MULTIPLY := "#MULTIPLY("
  const SUBTRACT := "#SUBTRACT("
  const DIVIDE := "#DIVIDE("
  const CLOSE := ")"

  predicate IsFold(op: string) {
    op == ADD || op == MULTIPLY
  }

  predicate IsPair(op: string) {
    op == SUBTRACT || op == DIVIDE
  }

  function LowerChar(c: char): char {
    if 'A' <= c <= 'Z' then c - 'A' + 'a' else c
  }

  function Lower(s: string): string {
    if s == "" then "" else [LowerChar(s[0])] + Lower(s[1..])
  }

  /** `' '.join(words)` */
  function Join(words: seq<string>): string {
    if words == [] then ""
    else if |words| == 1 then words[0]
    else words[0] + " " + Join(words[1..])
  }

  predicate StartsHash(s: string) {
    s != "" && s[0] == '#'
  }

  predicate IsMacro(env: Env, tok: string) {
    tok != "" && !('0' <= tok[0] <= '9') && Lower(tok) in env.macros
  }

  predicate IsSpliced(words: seq<string>) {
    words != [] && StartsHash(words[0])
  }

  function Read(env: Env, text: string): Outcome {
    match env.number(text)
    case Some(v) => Value(v)
    case None => Failed
  }

  function Operate(env: Env, op: string, a: Bits, b: Bits): Outcome {
    match env.x87(op, a, b)
    case Some(v) => Value(v)
    case None => Failed
  }

  // ----- what the methods compute, with the rest of the deque made explicit

  /** Fuel bounds the calls and loop rounds still allowed; ill-bracketed macros can go on for ever. */
  function Scan(env: Env, tok: string, s: seq<string>, fuel: nat): (Outcome, seq<string>)
    decreases fuel, 1
  {
    if fuel == 0 then (OutOfFuel, s)
    else if tok == "" then (Failed, s)
    else if IsMacro(env, tok) then
      var words := env.macros[Lower(tok)];
      if IsSpliced(words) then Expr(env, words[0], words[1..] + s, fuel - 1) else (Read(env, Join(words)), s)
    else if StartsHash(tok) then Expr(env, tok, s, fuel - 1)
    else (Read(env, tok), s)
  }

  function Expr(env: Env, op: string, s: seq<string>, fuel: nat): (Outcome, seq<string>)
    decreases fuel, 2
  {
    if fuel == 0 then (OutOfFuel, s)
    else if s == [] then (Failed, s)
    else
      var (a, s1) := Scan(env, s[0], s[1..], fuel - 1);
      if !a.Value? then (a, s1)
      else if IsFold(op) then Fold(env, op, a.v, s1, fuel - 1)
      else if IsPair(op) then Pair(env, op, a.v, s1, fuel - 1)
      else (Failed, s1)
  }

  /** The accumulator loop of `#ADD(` and `#MULTIPLY(`. */
  function Fold(env: Env, op: string, acc: Bits, s: seq<string>, fuel: nat): (Outcome, seq<string>)
    decreases fuel, 0
  {
    if fuel == 0 then (OutOfFuel, s)
    else if s == [] then (Failed, s)
    else if s[0] == CLOSE then (Value(acc), s[1..])
    else
      var (b, s1) := Scan(env, s[0], s[1..], fuel - 1);
      if !b.Value? then (b, s1)
      else
        var next := Operate(env, op, acc, b.v);
        if !next.Value? then (next, s1) else Fold(env, op, next.v, s1, fuel - 1)
  }

  function Pair(env: Env, op: string, a: Bits, s: seq<string>, fuel: nat): (Outcome, seq<string>)
    decreases fuel, 0
  {
    if fuel == 0 then (OutOfFuel, s)
    else if s == [] then (Failed, s)
    else
      var (b, s1) := Scan(env, s[0], s[1..], fuel - 1);
      if !b.Value? then (b, s1)
      else
        var acc := Operate(env, op, a, b.v);
        if !acc.Value? then (acc, s1)
        else if s1 == [] || s1[0] != CLOSE then (Failed, s1)
        else (acc, s1[1..])
  }

  // ----- the deque and the methods

  class Stream {
    var toks: seq<string>

    constructor (toks: seq<string>)
      ensures this.toks == toks
    {
      this.toks := toks;
    }

    method PopLeft() returns (tok: string)
      requires toks != []
      modifies this
      ensures tok == old(toks)[0] && toks == old(toks)[1..]
    {
      tok := toks[0];
      toks := toks[1..];
    }

    /** `extendleft(reversed(words))` puts the words in front, in their order. */
    method ExtendLeft(words: seq<string>)
      modifies this
      ensures toks == words + old(toks)
    {
      toks := words + toks;
    }
  }

  class Evaluator {
    const env: Env

    constructor (env: Env)
      ensures this.env == env
    {
      this.env := env;
    }

    method RunScan(tok: string, stream: Stream, fuel: nat) returns (r: Outcome)
      modifies stream
      ensures (r, stream.toks) == Scan(env, tok, old(stream.toks), fuel)
      decreases fuel, 1
    {
      if fuel == 0 {
        return OutOfFuel;
      }
      if tok == "" {
        return Failed;
      }
      if IsMacro(env, tok) {
        var words := env.macros[Lower(tok)];
        if IsSpliced(words) {
          stream.ExtendLeft(words);
          var op := stream.PopLeft();
          assert stream.toks == words[1..] + old(stream.toks);
          r := RunExpr(op, stream, fuel - 1);
          return;
        }
        return Read(env, Join(words));
      }
      if StartsHash(tok) {
        r := RunExpr(tok, stream, fuel - 1);
        return;
      }
      r := Read(env, tok);
    }

    method RunExpr(op: string, stream: Stream, fuel: nat) returns (r: Outcome)
      modifies stream
      ensures (r, stream.toks) == Expr(env, op, old(stream.toks), fuel)
      decreases fuel, 2
    {
      if fuel == 0 {
        return OutOfFuel;
      }
      if stream.toks == [] {
        return Failed;
      }
      var tok := stream.PopLeft();
      r := RunScan(tok, stream, fuel - 1);
      if !r.Value? {
        return;
      }
      if IsFold(op) {
        r := RunFold(op, r.v, stream, fuel - 1);
        return;
      }
      if IsPair(op) {
        r := RunPair(op, r.v, stream, fuel - 1);
        return;
      }
      r := Failed;
    }

    method RunFold(op: string, a: Bits, stream: Stream, fuel0: nat) returns (r: Outcome)
      modifies stream
      ensures (r, stream.toks) == Fold(env, op, a, old(stream.toks), fuel0)
      decreases fuel0, 0
    {
      var acc, fuel := a, fuel0;
      while fuel > 0
        invariant 0 <= fuel <= fuel0
        invariant Fold(env, op, acc, stream.toks, fuel) == Fold(env, op, a, old(stream.toks), fuel0)
      {
        if stream.toks == [] {
          return Failed;
        }
        ghost var before := stream.toks;
        var t := stream.PopLeft();
        if t == CLOSE {
          return Value(acc);
        }
        r := RunScan(t, stream, fuel - 1);
        if !r.Value? {
          return;
        }
        r := Operate(env, op, acc, r.v);
        if !r.Value? {
          return;
        }
        acc, fuel := r.v, fuel - 1;
      }
      r := OutOfFuel;
    }

    method RunPair(op: string, a: Bits, stream: Stream, fuel: nat) returns (r: Outcome)
      modifies stream
      ensures (r, stream.toks) == Pair(env, op, a, old(stream.toks), fuel)
      decreases fuel, 0
    {
      if fuel == 0 {
        return OutOfFuel;
      }
      if stream.toks == [] {
        return Failed;
      }
      var t := stream.PopLeft();
      r := RunScan(t, stream, fuel - 1);
      if !r.Value? {
        return;
      }
      r := Operate(env, op, a, r.v);
      if !r.Value? {
        return;
      }
      if stream.toks == [] || stream.toks[0] != CLOSE {
        return Failed;
      }
      t := stream.PopLeft();
    }

    /** Evaluate a macro by name: its words are the whole deque. */
    method RunMacro(name: string, fuel: nat) returns (r: Outcome, left: seq<string>)
      requires Lower(name) in env.macros && env.macros[Lower(name)] != []
      ensures (r, left) == Expr(env, env.macros[Lower(name)][0], env.macros[Lower(name)][1..], fuel)
    {
      var stream := new Stream(env.macros[Lower(name)]);
      var op := stream.PopLeft();
      r := RunExpr(op, stream, fuel);
      left := stream.toks;
    }
  }

  // ----- more fuel never changes a finished run

  lemma {:induction false} ScanFuel(env: Env, tok: string, s: seq<string>, fuel: nat, more: nat)
    requires fuel <= more && Scan(env, tok, s, fuel).0 != OutOfFuel
    ensures Scan(env, tok, s, more) == Scan(env, tok, s, fuel)
    decreases fuel, 1
  {
    if tok != "" && IsMacro(env, tok) {
      var words := env.macros[Lower(tok)];
      if IsSpliced(words) {
        ExprFuel(env, words[0], words[1..] + s, fuel - 1, more - 1);
      }
    } else if StartsHash(tok) {
      ExprFuel(env, tok, s, fuel - 1, more - 1);
    }
  }

  lemma {:induction false} ExprFuel(env: Env, op: string, s: seq<string>, fuel: nat, more: nat)
    requires fuel <= more && Expr(env, op, s, fuel).0 != OutOfFuel
    ensures Expr(env, op, s, more) == Expr(env, op, s, fuel)
    decreases fuel, 2
  {
    if s != [] {
      ScanFuel(env, s[0], s[1..], fuel - 1, more - 1);
      var (a, s1) := Scan(env, s[0], s[1..], fuel - 1);
      if a.Value? && IsFold(op) {
        FoldFuel(env, op, a.v, s1, fuel - 1, more - 1);
      } else if a.Value? && IsPair(op) {
        PairFuel(env, op, a.v, s1, fuel - 1, more - 1);
      }
    }
  }

  lemma {:induction false} FoldFuel(env: Env, op: string, acc: Bits, s: seq<string>, fuel: nat, more: nat)
    requires fuel <= more && Fold(env, op, acc, s, fuel).0 != OutOfFuel
    ensures Fold(env, op, acc, s, more) == Fold(env, op, acc, s, fuel)
    decreases fuel, 0
  {
    if s != [] && s[0] != CLOSE {
      ScanFuel(env, s[0], s[1..], fuel - 1, more - 1);
      var (b, s1) := Scan(env, s[0], s[1..], fuel - 1);
      if b.Value? && Operate(env, op, acc, b.v).Value? {
        FoldFuel(env, op, Operate(env, op, acc, b.v).v, s1, fuel - 1, more - 1);
      }
    }
  }

  lemma {:induction false} PairFuel(env: Env, op: string, a: Bits, s: seq<string>, fuel: nat, more: nat)
    requires fuel <= more && Pair(env, op, a, s, fuel).0 != OutOfFuel
    ensures Pair(env, op, a, s, more) == Pair(env, op, a, s, fuel)
    decreases fuel, 0
  {
    if s != [] {
      ScanFuel(env, s[0], s[1..], fuel - 1, more - 1);
    }
  }

  // ----- trees

  /** An expression: a number or macro name, or an operator with its operands. */
  datatype Tree = Leaf(tok: string) | Node(op: string, first: Tree, rest: Trees)
  datatype Trees = NoMore | More(head: Tree, tail: Trees)

  function Render(t: Tree): (words: seq<string>)
    ensures words != []
  {
    match t
    case Leaf(tok) => [tok]
    case Node(op, first, rest) => [op] + Render(first) + RenderAll(rest) + [CLOSE]
  }

  function RenderAll(ts: Trees): seq<string> {
    match ts
    case NoMore => []
    case More(head, tail) => Render(head) + RenderAll(tail)
  }

  /** Leaves are words other than brackets and operators, and the operators are the four. */
  predicate Bracketed(t: Tree) {
    match t
    case Leaf(tok) => tok != "" && !StartsHash(tok) && tok != CLOSE
    case Node(op, first, rest) => (IsFold(op) || IsPair(op)) && Bracketed(first) && AllBracketed(rest)
  }

  predicate AllBracketed(ts: Trees) {
    match ts
    case NoMore => true
    case More(head, tail) => Bracketed(head) && AllBracketed(tail)
  }

  /** The trees of the `#` macros, and a height that falls from every macro to the macros in its tree. */
  datatype Definitions = Definitions(trees: map<string, Tree>, height: map<string, nat>)

  /** Every macro inside t is lower than h. */
  predicate HasHeight(env: Env, defs: Definitions, t: Tree, h: nat) {
    match t
    case Leaf(tok) =>
      IsMacro(env, tok) && Lower(tok) in defs.trees ==> Lower(tok) in defs.height && defs.height[Lower(tok)] < h
    case Node(_, first, rest) => HasHeight(env, defs, first, h) && AllHaveHeight(env, defs, rest, h)
  }

  predicate AllHaveHeight(env: Env, defs: Definitions, ts: Trees, h: nat) {
    match ts
    case NoMore => true
    case More(head, tail) => HasHeight(env, defs, head, h) && AllHaveHeight(env, defs, tail, h)
  }

  /**
   Every `#` macro value is one well-bracketed expression and the macros are acyclic; no macro is
   named like a bracket or an operator; and a bracket is not read as a number.
   */
  ghost predicate WellDefined(env: Env, defs: Definitions) {
    && (forall name :: name in env.macros ==>
          env.macros[name] != [] && name != CLOSE && !StartsHash(name)
            && (name in defs.trees <==> IsSpliced(env.macros[name])))
    && (forall name {:trigger IsDefinition(env, defs, name)} :: name in defs.trees ==> IsDefinition(env, defs, name))
    && env.number(CLOSE) == None
  }

  ghost predicate IsDefinition(env: Env, defs: Definitions, name: string)
    requires name in defs.trees
  {
    && name in env.macros && defs.trees[name].Node? && Bracketed(defs.trees[name])
    && Render(defs.trees[name]) == env.macros[name]
    && name in defs.height && HasHeight(env, defs, defs.trees[name], defs.height[name])
  }

  /** The fully substituted tree: macro names replaced by their trees, or by their number texts. */
  function Substitute(env: Env, defs: Definitions, t: Tree, h: nat): Tree
    requires HasHeight(env, defs, t, h)
    decreases h, t
  {
    match t
    case Leaf(tok) =>
      if !IsMacro(env, tok) then t
      else if Lower(tok) !in defs.trees then Leaf(Join(env.macros[Lower(tok)]))
      else if HasHeight(env, defs, defs.trees[Lower(tok)], defs.height[Lower(tok)]) then
        Substitute(env, defs, defs.trees[Lower(tok)], defs.height[Lower(tok)])
      else t
    case Node(op, first, rest) => Node(op, Substitute(env, defs, first, h), SubstituteAll(env, defs, rest, h))
  }

  function SubstituteAll(env: Env, defs: Definitions, ts: Trees, h: nat): Trees
    requires AllHaveHeight(env, defs, ts, h)
    decreases h, ts
  {
    match ts
    case NoMore => NoMore
    case More(head, tail) => More(Substitute(env, defs, head, h), SubstituteAll(env, defs, tail, h))
  }

  /** The value of a tree without macros. Subtraction and division take exactly two operands. */
  function Eval(env: Env, t: Tree): Outcome
    decreases t
  {
    match t
    case Leaf(text) => Read(env, text)
    case Node(op, first, rest) =>
      var a := Eval(env, first);
      if !a.Value? then Failed
      else if IsFold(op) then EvalFold(env, op, a.v, rest)
      else EvalPair(env, op, a.v, rest)
  }

  function EvalPair(env: Env, op: string, a: Bits, ts: Trees): Outcome
    decreases ts
  {
    if ts.NoMore? || ts.tail.More? then Failed
    else
      var b := Eval(env, ts.head);
      if !b.Value? then Failed else Operate(env, op, a, b.v)
  }

  function EvalFold(env: Env, op: string, acc: Bits, ts: Trees): Outcome
    decreases ts
  {
    match ts
    case NoMore => Value(acc)
    case More(head, tail) =>
      var b := Eval(env, head);
      if !b.Value? then Failed
      else
        var next := Operate(env, op, acc, b.v);
        if !next.Value? then Failed else EvalFold(env, op, next.v, tail)
  }

  // ----- one operand at a time

  /** Scanning the words of one operand, in front of whatever follows. */
  function ScanWords(env: Env, words: seq<string>, after: seq<string>, fuel: nat): (Outcome, seq<string>)
    requires words != []
  {
    Scan(env, words[0], words[1..] + after, fuel)
  }

  lemma WordsInFront(words: seq<string>, after: seq<string>)
    requires words != []
    ensures words + after != [] && (words + after)[0] == words[0] && (words + after)[1..] == words[1..] + after
  {
  }

  /** A finished run: the value and exactly the rest of the deque, or a failure. */
  ghost predicate Agrees(run: (Outcome, seq<string>), value: Outcome, rest: seq<string>) {
    if value.Value? then run == (value, rest) else run.0 == Failed
  }

  lemma FoldOperand(env: Env, op: string, acc: Bits, words: seq<string>, after: seq<string>, f1: nat, f2: nat,
                    b: Outcome, expected: Outcome, rest: seq<string>)
    requires words != [] && words[0] != CLOSE && b != OutOfFuel
    requires Agrees(ScanWords(env, words, after, f1), b, after)
    requires if b.Value? && Operate(env, op, acc, b.v).Value? then
               Agrees(Fold(env, op, Operate(env, op, acc, b.v).v, after, f2), expected, rest)
             else expected == Failed
    ensures Agrees(Fold(env, op, acc, words + after, f1 + f2 + 1), expected, rest)
  {
    WordsInFront(words, after);
    ScanFuel(env, words[0], words[1..] + after, f1, f1 + f2);
    if b.Value? && Operate(env, op, acc, b.v).Value? {
      FoldFuel(env, op, Operate(env, op, acc, b.v).v, after, f2, f1 + f2);
    }
  }

  lemma PairOperand(env: Env, op: string, a: Bits, words: seq<string>, after: seq<string>, f: nat,
                    b: Outcome, expected: Outcome, rest: seq<string>)
    requires words != [] && b != OutOfFuel && Agrees(ScanWords(env, words, after, f), b, after)
    requires if b.Value? && after != [] && after[0] == CLOSE then
               expected == Operate(env, op, a, b.v) && rest == after[1..]
             else expected == Failed
    ensures Agrees(Pair(env, op, a, words + after, f + 1), expected, rest)
  {
    WordsInFront(words, after);
  }

  lemma FirstOperand(env: Env, op: string, words: seq<string>, after: seq<string>, f1: nat, f2: nat,
                     a: Outcome, expected: Outcome, rest: seq<string>)
    requires words != [] && a != OutOfFuel && Agrees(ScanWords(env, words, after, f1), a, after)
    requires IsFold(op) || IsPair(op)
    requires if !a.Value? then expected == Failed
             else if IsFold(op) then Agrees(Fold(env, op, a.v, after, f2), expected, rest)
             else Agrees(Pair(env, op, a.v, after, f2), expected, rest)
    ensures Agrees(Expr(env, op, words + after, f1 + f2 + 1), expected, rest)
  {
    WordsInFront(words, after);
    ScanFuel(env, words[0], words[1..] + after, f1, f1 + f2);
    if a.Value? && IsFold(op) {
      FoldFuel(env, op, a.v, after, f2, f1 + f2);
    } else if a.Value? {
      PairFuel(env, op, a.v, after, f2, f1 + f2);
    }
  }

  // ----- the splicing evaluator computes the value of the substituted tree

  lemma BracketIsPlain(env: Env, defs: Definitions, tok: string)
    requires WellDefined(env, defs) && (tok == CLOSE || StartsHash(tok))
    ensures !IsMacro(env, tok)
  {
    assert LowerChar(tok[0]) == tok[0];
    assert StartsHash(tok) ==> StartsHash(Lower(tok));
    assert Lower(CLOSE) == CLOSE by {
      assert CLOSE[1..] == "";
      assert Lower(CLOSE[1..]) == "";
    }
  }

  lemma FirstWordIsOpen(t: Tree)
    requires Bracketed(t)
    ensures Render(t)[0] != CLOSE
  {
  }

  lemma {:induction false} EvalFinishes(env: Env, t: Tree)
    ensures Eval(env, t) != OutOfFuel
  {
    if t.Node? {
      EvalFoldFinishes(env, t.op, 0, t.rest);
    }
  }

  lemma {:induction false} EvalFoldFinishes(env: Env, op: string, acc: Bits, ts: Trees)
    ensures forall a :: EvalFold(env, op, a, ts) != OutOfFuel
  {
    if ts.More? {
      EvalFoldFinishes(env, op, acc, ts.tail);
    }
  }

  lemma {:induction false} ScanComputes(env: Env, defs: Definitions, t: Tree, h: nat, rest: seq<string>)
    returns (fuel: nat)
    requires WellDefined(env, defs) && Bracketed(t) && HasHeight(env, defs, t, h)
    ensures Agrees(ScanWords(env, Render(t), rest, fuel), Eval(env, Substitute(env, defs, t, h)), rest)
    decreases h, t, 2
  {
    if t.Leaf? {
      fuel := ScanLeaf(env, defs, t, h, rest);
    } else {
      fuel := ScanNode(env, defs, t, h, rest);
    }
  }

  lemma {:induction false} ScanNode(env: Env, defs: Definitions, t: Tree, h: nat, rest: seq<string>) returns (fuel: nat)
    requires WellDefined(env, defs) && t.Node? && Bracketed(t) && HasHeight(env, defs, t, h)
    ensures Agrees(ScanWords(env, Render(t), rest, fuel), Eval(env, Substitute(env, defs, t, h)), rest)
    decreases h, t, 1
  {
    hide *;
    var f := ExprComputes(env, defs, t, h, rest);
    NodeScans(env, defs, t, rest, f, Eval(env, Substitute(env, defs, t, h)));
    fuel := f + 1;
  }

  /** Scanning a rendered operator is evaluating it. */
  lemma NodeScans(env: Env, defs: Definitions, t: Tree, rest: seq<string>, f: nat, expected: Outcome)
    requires WellDefined(env, defs) && t.Node? && Bracketed(t)
    requires Agrees(Expr(env, t.op, Render(t)[1..] + rest, f), expected, rest)
    ensures Agrees(ScanWords(env, Render(t), rest, f + 1), expected, rest)
  {
    WordsScan(env, defs, t.op, Render(t), rest, f, expected);
  }

  lemma WordsScan(env: Env, defs: Definitions, op: string, words: seq<string>, rest: seq<string>, f: nat,
                  expected: Outcome)
    requires WellDefined(env, defs) && (IsFold(op) || IsPair(op)) && words != [] && words[0] == op
    requires Agrees(Expr(env, op, words[1..] + rest, f), expected, rest)
    ensures Agrees(ScanWords(env, words, rest, f + 1), expected, rest)
  {
    ScanOperator(env, defs, op, words[1..] + rest, f);
  }

  lemma ScanOperator(env: Env, defs: Definitions, op: string, s: seq<string>, f: nat)
    requires WellDefined(env, defs) && (IsFold(op) || IsPair(op))
    ensures Scan(env, op, s, f + 1) == Expr(env, op, s, f)
  {
    BracketIsPlain(env, defs, op);
  }

  lemma {:induction false} ScanLeaf(env: Env, defs: Definitions, t: Tree, h: nat, rest: seq<string>) returns (fuel: nat)
    requires WellDefined(env, defs) && t.Leaf? && Bracketed(t) && HasHeight(env, defs, t, h)
    ensures Agrees(ScanWords(env, Render(t), rest, fuel), Eval(env, Substitute(env, defs, t, h)), rest)
    decreases h, t, 0
  {
    var tok := t.tok;
    assert [tok][1..] + rest == rest;
    fuel := 1;
    if IsMacro(env, tok) && Lower(tok) in defs.trees {
      var name := Lower(tok);
      var tree := defs.trees[name];
      assert IsDefinition(env, defs, name);
      var f := ExprComputes(env, defs, tree, defs.height[name], rest);
      fuel := f + 1;
      assert env.macros[name] == Render(tree);
    }
  }

  lemma RenderSplits(t: Tree, rest: seq<string>)
    requires t.Node?
    ensures Render(t)[1..] + rest == Render(t.first) + (RenderAll(t.rest) + [CLOSE] + rest)
  {
  }

  lemma {:induction false} ExprComputes(env: Env, defs: Definitions, t: Tree, h: nat, rest: seq<string>)
    returns (fuel: nat)
    requires WellDefined(env, defs) && t.Node? && Bracketed(t) && HasHeight(env, defs, t, h)
    ensures Agrees(Expr(env, t.op, Render(t)[1..] + rest, fuel), Eval(env, Substitute(env, defs, t, h)), rest)
    decreases h, t, 0
  {
    var after := RenderAll(t.rest) + [CLOSE] + rest;
    RenderSplits(t, rest);
    var f1 := ScanComputes(env, defs, t.first, h, after);
    var f2 := 0;
    var first, more := Substitute(env, defs, t.first, h), SubstituteAll(env, defs, t.rest, h);
    EvalFinishes(env, first);
    var a := Eval(env, first);
    if a.Value? && IsFold(t.op) {
      f2 := FoldComputes(env, defs, t.op, a.v, t.rest, h, rest);
    } else if a.Value? {
      f2 := PairComputes(env, defs, t.op, a.v, t.rest, h, rest);
    }
    FirstOperand(env, t.op, Render(t.first), after, f1, f2, a, Eval(env, Node(t.op, first, more)), rest);
    fuel := f1 + f2 + 1;
  }

  lemma {:induction false} FoldComputes(env: Env, defs: Definitions, op: string, acc: Bits, ts: Trees, h: nat,
                                        rest: seq<string>)
    returns (fuel: nat)
    requires WellDefined(env, defs) && AllBracketed(ts) && AllHaveHeight(env, defs, ts, h)
    ensures Agrees(Fold(env, op, acc, RenderAll(ts) + [CLOSE] + rest, fuel),
                   EvalFold(env, op, acc, SubstituteAll(env, defs, ts, h)), rest)
    decreases h, ts, 0
  {
    fuel := 1;
    if ts.NoMore? {
      assert ([] + [CLOSE] + rest)[1..] == rest;
    } else {
      var after := RenderAll(ts.tail) + [CLOSE] + rest;
      assert RenderAll(ts) + [CLOSE] + rest == Render(ts.head) + after;
      FirstWordIsOpen(ts.head);
      var f1 := ScanComputes(env, defs, ts.head, h, after);
      var f2 := 0;
      var head := Substitute(env, defs, ts.head, h);
      EvalFinishes(env, head);
      var b := Eval(env, head);
      if b.Value? && Operate(env, op, acc, b.v).Value? {
        f2 := FoldComputes(env, defs, op, Operate(env, op, acc, b.v).v, ts.tail, h, rest);
      }
      FoldOperand(env, op, acc, Render(ts.head), after, f1, f2, b,
                  EvalFold(env, op, acc, SubstituteAll(env, defs, ts, h)), rest);
      fuel := f1 + f2 + 1;
    }
  }

  /** Behind the second operand comes the closing bracket, or another operand that does not close. */
  lemma AfterOperand(ts: Trees, rest: seq<string>)
    requires AllBracketed(ts)
    ensures var after := RenderAll(ts) + [CLOSE] + rest;
            && after != [] && (ts.More? ==> after[0] != CLOSE)
            && (ts.NoMore? ==> after[0] == CLOSE && after[1..] == rest)
  {
    var after := RenderAll(ts) + [CLOSE] + rest;
    if ts.More? {
      FirstWordIsOpen(ts.head);
      assert after[0] == Render(ts.head)[0];
    } else {
      assert after == [CLOSE] + rest;
    }
  }

  lemma {:induction false} PairComputes(env: Env, defs: Definitions, op: string, a: Bits, ts: Trees, h: nat,
                                        rest: seq<string>)
    returns (fuel: nat)
    requires WellDefined(env, defs) && AllBracketed(ts) && AllHaveHeight(env, defs, ts, h)
    ensures Agrees(Pair(env, op, a, RenderAll(ts) + [CLOSE] + rest, fuel),
                   EvalPair(env, op, a, SubstituteAll(env, defs, ts, h)), rest)
    decreases h, ts, 0
  {
    if ts.NoMore? {
      fuel := 2;
      assert RenderAll(ts) + [CLOSE] + rest == [CLOSE] + rest;
      BracketIsPlain(env, defs, CLOSE);
    } else {
      var after := RenderAll(ts.tail) + [CLOSE] + rest;
      assert RenderAll(ts) + [CLOSE] + rest == Render(ts.head) + after;
      var f := ScanComputes(env, defs, ts.head, h, after);
      var head := Substitute(env, defs, ts.head, h);
      EvalFinishes(env, head);
      AfterOperand(ts.tail, rest);
      assert SubstituteAll(env, defs, ts, h) == More(head, SubstituteAll(env, defs, ts.tail, h));
      PairOperand(env, op, a, Render(ts.head), after, f, Eval(env, head),
                  EvalPair(env, op, a, SubstituteAll(env, defs, ts, h)), rest);
      fuel := f + 1;
    }
  }

  /**
   For every macro: with enough fuel, and any amount above that, evaluation ends; it returns the
   value of the substituted tree with the deque empty, or fails exactly when the tree has no value.
   */
  lemma MacroIsItsTree(env: Env, defs: Definitions, name: string) returns (fuel: nat)
    requires WellDefined(env, defs) && name in defs.trees
    ensures IsDefinition(env, defs, name) && HasHeight(env, defs, defs.trees[name], defs.height[name])
    ensures forall more: nat :: more >= fuel ==>
              Agrees(Expr(env, env.macros[name][0], env.macros[name][1..], more),
                     Eval(env, Substitute(env, defs, defs.trees[name], defs.height[name])), [])
  {
    assert IsDefinition(env, defs, name);
    var tree := defs.trees[name];
    fuel := ExprComputes(env, defs, tree, defs.height[name], []);
    var words := Render(tree);
    assert words[1..] + [] == words[1..];
    EvalFinishes(env, Substitute(env, defs, tree, defs.height[name]));
    forall more: nat | more >= fuel
      ensures Agrees(Expr(env, words[0], words[1..], more),
                     Eval(env, Substitute(env, defs, tree, defs.height[name])), [])
    {
      ExprFuel(env, words[0], words[1..], fuel, more);
    }
  }

  /** A leaf of a line or of another macro: the same, with the rest of the deque untouched. */
  lemma OperandIsItsTree(env: Env, defs: Definitions, t: Tree, h: nat, rest: seq<string>) returns (fuel: nat)
    requires WellDefined(env, defs) && Bracketed(t) && HasHeight(env, defs, t, h)
    ensures forall more: nat :: more >= fuel ==>
              Agrees(ScanWords(env, Render(t), rest, more), Eval(env, Substitute(env, defs, t, h)), rest)
  {
    fuel := ScanComputes(env, defs, t, h, rest);
    EvalFinishes(env, Substitute(env, defs, t, h));
    forall more: nat | more >= fuel
      ensures Agrees(ScanWords(env, Render(t), rest, more), Eval(env, Substitute(env, defs, t, h)), rest)
    {
      ScanFuel(env, Render(t)[0], Render(t)[1..] + rest, fuel, more);
    }
  }
}
