/**
 What an expression of tools/ini_macro_oracle.py means, said of the numbers and of the x87 helper alone;
 and that the evaluator, which splices words into a deque, finds exactly this value.
 */
module MacroMeaning {
  import opened MacroEval
  import opened Options

  /**
   The expression t has the value v. A number text is read; a macro's value is an expression or a number
   text; subtraction and division are the helper's answer to the two operands, in their order; addition
   and multiplication run over the operands from the left.
   */
  ghost predicate HasMeaning(env: Env, defs: Definitions, t: Tree, h: nat, v: Bits)
    requires HasHeight(env, defs, t, h)
    decreases h, t, 0
  {
    match t
    case Leaf(tok) =>
      if tok == "" || '0' <= tok[0] <= '9' || Lower(tok) !in env.macros then env.number(tok) == Some(v)
      else if Lower(tok) !in defs.trees then env.number(Join(env.macros[Lower(tok)])) == Some(v)
      else
        && HasHeight(env, defs, defs.trees[Lower(tok)], defs.height[Lower(tok)])
        && HasMeaning(env, defs, defs.trees[Lower(tok)], defs.height[Lower(tok)], v)
    case Node(op, first, rest) =>
      exists a: Bits :: HasMeaning(env, defs, first, h, a) && OperatorGives(env, defs, op, a, rest, h, v)
  }

  /** The operator's value, when its first operand has the value a. */
  ghost predicate OperatorGives(env: Env, defs: Definitions, op: string, a: Bits, rest: Trees, h: nat, v: Bits)
    requires AllHaveHeight(env, defs, rest, h)
    decreases h, rest, 1
  {
    if op == "#ADD(" || op == "#MULTIPLY(" then FoldsTo(env, defs, op, a, rest, h, v)
    else
      && rest.More? && rest.tail.NoMore?
      && exists b: Bits :: HasMeaning(env, defs, rest.head, h, b) && env.x87(op, a, b) == Some(v)
  }

  /** The accumulated value runs over the remaining operands. */
  ghost predicate FoldsTo(env: Env, defs: Definitions, op: string, acc: Bits, ts: Trees, h: nat, v: Bits)
    requires AllHaveHeight(env, defs, ts, h)
    decreases h, ts, 0
  {
    match ts
    case NoMore => acc == v
    case More(head, tail) =>
      exists b: Bits :: HasMeaning(env, defs, head, h, b) && env.x87(op, acc, b).Some?
                        && FoldsTo(env, defs, op, env.x87(op, acc, b).value, tail, h, v)
  }

  /** The value of the substituted tree is the meaning of the tree. */
  lemma {:induction false} EvalIsMeaning(env: Env, defs: Definitions, t: Tree, h: nat, v: Bits)
    requires WellDefined(env, defs) && Bracketed(t) && HasHeight(env, defs, t, h)
    ensures Eval(env, Substitute(env, defs, t, h)) == Value(v) <==> HasMeaning(env, defs, t, h, v)
    decreases h, t, 0
  {
    match t
    case Leaf(tok) =>
      if IsMacro(env, tok) && Lower(tok) in defs.trees {
        assert IsDefinition(env, defs, Lower(tok));
        EvalIsMeaning(env, defs, defs.trees[Lower(tok)], defs.height[Lower(tok)], v);
      }
    case Node(op, first, rest) =>
      EvalFinishes(env, Substitute(env, defs, first, h));
      forall a: Bits
        ensures Eval(env, Substitute(env, defs, first, h)) == Value(a) <==> HasMeaning(env, defs, first, h, a)
        ensures OperatorValue(env, op, a, SubstituteAll(env, defs, rest, h)) == Value(v)
           <==> OperatorGives(env, defs, op, a, rest, h, v)
      {
        EvalIsMeaning(env, defs, first, h, a);
        OperatorIsMeaning(env, defs, op, a, rest, h, v);
      }
      NodeValue(env, op, Substitute(env, defs, first, h), SubstituteAll(env, defs, rest, h), v);
  }

  ghost function OperatorValue(env: Env, op: string, a: Bits, ts: Trees): Outcome {
    if IsFold(op) then EvalFold(env, op, a, ts) else EvalPair(env, op, a, ts)
  }

  lemma NodeValue(env: Env, op: string, first: Tree, rest: Trees, v: Bits)
    ensures Eval(env, Node(op, first, rest)) == Value(v)
       <==> exists a: Bits :: Eval(env, first) == Value(a) && OperatorValue(env, op, a, rest) == Value(v)
  {
  }

  lemma {:induction false} OperatorIsMeaning(env: Env, defs: Definitions, op: string, a: Bits, rest: Trees, h: nat,
                                             v: Bits)
    requires WellDefined(env, defs) && AllBracketed(rest) && AllHaveHeight(env, defs, rest, h)
    ensures OperatorValue(env, op, a, SubstituteAll(env, defs, rest, h)) == Value(v)
       <==> OperatorGives(env, defs, op, a, rest, h, v)
    decreases h, rest, 1
  {
    if IsFold(op) {
      FoldIsMeaning(env, defs, op, a, rest, h, v);
    } else if rest.More? {
      var head := Substitute(env, defs, rest.head, h);
      forall b: Bits ensures Eval(env, head) == Value(b) <==> HasMeaning(env, defs, rest.head, h, b) {
        EvalIsMeaning(env, defs, rest.head, h, b);
      }
    }
  }

  lemma {:induction false} FoldIsMeaning(env: Env, defs: Definitions, op: string, acc: Bits, ts: Trees, h: nat, v: Bits)
    requires WellDefined(env, defs) && AllBracketed(ts) && AllHaveHeight(env, defs, ts, h)
    ensures EvalFold(env, op, acc, SubstituteAll(env, defs, ts, h)) == Value(v)
       <==> FoldsTo(env, defs, op, acc, ts, h, v)
    decreases h, ts, 0
  {
    if ts.More? {
      var head := Substitute(env, defs, ts.head, h);
      forall b: Bits
        ensures Eval(env, head) == Value(b) <==> HasMeaning(env, defs, ts.head, h, b)
        ensures EvalFold(env, op, b, SubstituteAll(env, defs, ts.tail, h)) == Value(v)
           <==> FoldsTo(env, defs, op, b, ts.tail, h, v)
      {
        EvalIsMeaning(env, defs, ts.head, h, b);
        FoldIsMeaning(env, defs, op, b, ts.tail, h, v);
      }
    }
  }

  /**
   For every macro: with enough recursion, and any amount above that, the evaluator returns v with the
   deque empty exactly when v is the meaning of the macro's expression, and else it fails.
   */
  lemma MacroHasMeaning(env: Env, defs: Definitions, name: string) returns (fuel: nat)
    requires WellDefined(env, defs) && name in defs.trees
    ensures IsDefinition(env, defs, name) && HasHeight(env, defs, defs.trees[name], defs.height[name])
    ensures forall more: nat, v: Bits :: more >= fuel ==>
              (Expr(env, env.macros[name][0], env.macros[name][1..], more) == (Value(v), [])
               <==> HasMeaning(env, defs, defs.trees[name], defs.height[name], v))
    ensures forall more: nat :: more >= fuel ==>
              var run := Expr(env, env.macros[name][0], env.macros[name][1..], more);
              run.0 == Failed || (run.0.Value? && run.1 == [])
  {
    fuel := MacroIsItsTree(env, defs, name);
    var t, h := defs.trees[name], defs.height[name];
    EvalFinishes(env, Substitute(env, defs, t, h));
    forall v: Bits
      ensures Eval(env, Substitute(env, defs, t, h)) == Value(v) <==> HasMeaning(env, defs, t, h, v)
    {
      EvalIsMeaning(env, defs, t, h, v);
    }
    forall more: nat, v: Bits | more >= fuel
      ensures Expr(env, env.macros[name][0], env.macros[name][1..], more) == (Value(v), [])
         <==> HasMeaning(env, defs, t, h, v)
    {
    }
  }

  // ----- words

  lemma {:induction false} LowerIs(s: string)
    ensures |Lower(s)| == |s|
    ensures forall k :: 0 <= k < |s| ==>
              Lower(s)[k] == if 65 <= s[k] as int <= 90 then (s[k] as int + 32) as char else s[k]
  {
    if s != "" {
      LowerIs(s[1..]);
      assert forall k :: 1 <= k < |s| ==> Lower(s)[k] == Lower(s[1..])[k - 1];
    }
  }

  /** One more word goes behind a space. */
  lemma {:induction false} JoinNext(words: seq<string>, w: string)
    ensures Join(words + [w]) == if words == [] then w else Join(words) + " " + w
  {
    if words == [] {
      assert [] + [w] == [w];
    } else {
      assert (words + [w])[1..] == words[1..] + [w];
      JoinNext(words[1..], w);
      if |words| > 1 {
        assert words[0] + " " + (Join(words[1..]) + " " + w) == (words[0] + " " + Join(words[1..])) + " " + w;
      } else {
        assert words[1..] == [];
      }
    }
  }

  /** A word that is read as a number: no operator, no macro, no bracket. */
  predicate IsNumberWord(env: Env, w: string) {
    w != "" && w[0] != '#' && w != ")" && ('0' <= w[0] <= '9' || Lower(w) !in env.macros)
  }

  /** The operators by name: two fold any number of operands, two take exactly two, any other word is none. */
  lemma OperatorsAre(op: string)
    ensures IsFold(op) <==> op == "#ADD(" || op == "#MULTIPLY("
    ensures IsPair(op) <==> op == "#SUBTRACT(" || op == "#DIVIDE("
  {
  }

  /** An operator in front of two number words and a bracket asks the helper for its answer to the two numbers. */
  lemma TwoNumbers(env: Env, op: string, x: string, y: string, rest: seq<string>, fuel: nat)
    requires op in {"#ADD(", "#MULTIPLY(", "#SUBTRACT(", "#DIVIDE("} && IsNumberWord(env, x) && IsNumberWord(env, y)
    requires fuel >= 4
    ensures var run := Expr(env, op, [x, y, ")"] + rest, fuel);
            if env.number(x).None? || env.number(y).None? || env.x87(op, env.number(x).value, env.number(y).value).None?
            then run.0 == Failed
            else run == (Value(env.x87(op, env.number(x).value, env.number(y).value).value), rest)
  {
    OperatorsAre(op);
    NumberScans(env, x, [y, ")"] + rest, fuel - 1);
    assert ([x, y, ")"] + rest)[1..] == [y, ")"] + rest;
    assert ([y, ")"] + rest)[1..] == [")"] + rest;
    assert ([")"] + rest)[1..] == rest;
    NumberScans(env, y, [")"] + rest, fuel - 2);
    if IsFold(op) {
      forall acc: Bits ensures Fold(env, op, acc, [")"] + rest, fuel - 2) == (Value(acc), rest) {
      }
    }
  }

  lemma NumberScans(env: Env, w: string, rest: seq<string>, fuel: nat)
    requires IsNumberWord(env, w) && fuel >= 1
    ensures Scan(env, w, rest, fuel) == (match env.number(w) case Some(v) => Value(v) case None => Failed, rest)
  {
  }
}
