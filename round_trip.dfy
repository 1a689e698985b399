/**
 * How the two translators fit together. The Dsp grammar is not part of this
 * model, so `Lift` and `LiftRule` give the parse tree taken for the text
 * `Unparse` prints: its token text is that text minus its spaces
 * (`UnparseTokens`, `UnparseRuleTokens`), and its shape follows the usual
 * reading of the notation (a unary operator applies to the whole subscript or
 * call after it; `p -> c` alone is one binary term). Reading that tree back
 * with the corrected visitor prints the Ds tree again (`TermRoundTrip`,
 * `RuleRoundTrip`, `PoolRoundTrip`); the visitor as written does not for a
 * rule of one premise (`OnePremiseRuleMisread`). `DsText` is the reference
 * printer for Ds syntax.
 */
module RoundTrip {
  import opened Strings
  import U = Unparse
  import P = Parse

  /** `s` with its spaces removed: what the Dsp lexer keeps of it. */
  function Unspaced(s: string): string {
    if s == [] then []
    else (if s[0] == ' ' then [] else [s[0]]) + Unspaced(s[1..])
  }

  lemma {:induction false} UnspacedConcat(a: string, b: string)
    ensures Unspaced(a + b) == Unspaced(a) + Unspaced(b)
  {
    if a == [] {
      assert a + b == b;
    } else {
      assert (a + b)[0] == a[0];
      assert (a + b)[1..] == a[1..] + b;
      UnspacedConcat(a[1..], b);
    }
  }

  lemma {:induction false} UnspacedNoSpace(s: string)
    requires ' ' !in s
    ensures Unspaced(s) == s
  {
    if s != [] {
      UnspacedNoSpace(s[1..]);
    }
  }

  function UnspacedAll(parts: seq<string>): (r: seq<string>)
    ensures |r| == |parts|
  {
    seq(|parts|, i requires 0 <= i < |parts| => Unspaced(parts[i]))
  }

  lemma {:induction false} UnspacedJoin(parts: seq<string>, sep: string)
    ensures Unspaced(Join(parts, sep)) == Join(UnspacedAll(parts), Unspaced(sep))
  {
    if |parts| > 1 {
      UnspacedConcat(parts[0] + sep, Join(parts[1..], sep));
      UnspacedConcat(parts[0], sep);
      UnspacedJoin(parts[1..], sep);
      assert UnspacedAll(parts)[1..] == UnspacedAll(parts[1..]);
    }
  }

  /** A token: non-empty and without spaces. */
  predicate IsToken(s: string) {
    s != "" && ' ' !in s
  }

  /**
   * The Ds trees `Unparse` prints as something the Dsp grammar reads back:
   * tokens for symbols and operators, a subscript with at least one index,
   * a function application with a function, and no unary term as the base
   * of a subscript or call (`- x[i]` reads as the negation of `x[i]`).
   */
  predicate WellFormed(t: U.Term) {
    match t
    case Symbol(s) => IsToken(s)
    case Subscript(ts) => |ts| >= 2 && !ts[0].Unary? && forall i | 0 <= i < |ts| :: WellFormed(ts[i])
    case Function(ts) => |ts| >= 1 && !ts[0].Unary? && forall i | 0 <= i < |ts| :: WellFormed(ts[i])
    case Unary(op, x) => IsToken(op) && WellFormed(x)
    case Binary(op, l, r) => IsToken(op) && WellFormed(l) && WellFormed(r)
  }

  /** The Dsp parse tree taken for `U.UnparseTerm(t)`; Unparse puts parentheses around every binary term. */
  function Lift(t: U.Term): P.Term
    requires WellFormed(t)
  {
    match t
    case Symbol(s) => P.Symbol(s)
    case Subscript(ts) => P.Subscript(Lift(ts[0]), LiftAll(ts, 1))
    case Function(ts) => P.Function(Lift(ts[0]), LiftAll(ts, 1))
    case Unary(op, x) => P.Unary(op, Lift(x))
    case Binary(op, l, r) => P.Parentheses(P.Binary(Lift(l), op, Lift(r)))
  }

  function LiftAll(ts: seq<U.Term>, from: nat): (r: seq<P.Term>)
    requires from <= |ts|
    requires forall i | 0 <= i < |ts| :: WellFormed(ts[i])
    ensures |r| == |ts| - from
  {
    seq(|ts| - from, i requires 0 <= i < |ts| - from => Lift(ts[from + i]))
  }

  /** The Ds text of a term: `a`, `(subscript a i)`, `(function f x)`, `(unary op x)`, `(binary op l r)`. */
  function DsText(t: U.Term): string {
    match t
    case Symbol(s) => s
    case Subscript(ts) => "(subscript " + Join(DsTexts(ts), " ") + ")"
    case Function(ts) => "(function " + Join(DsTexts(ts), " ") + ")"
    case Unary(op, x) => "(unary " + op + " " + DsText(x) + ")"
    case Binary(op, l, r) => "(binary " + op + " " + DsText(l) + " " + DsText(r) + ")"
  }

  function DsTexts(ts: seq<U.Term>): (r: seq<string>)
    ensures |r| == |ts|
  {
    seq(|ts|, i requires 0 <= i < |ts| => DsText(ts[i]))
  }

  /** The unspaced text of `head[parts]` or `head(parts)` as Unparse prints it. */
  lemma BracketTokens(head: string, open: string, parts: seq<string>, close: string)
    requires ' ' !in open && ' ' !in close
    ensures Unspaced(head + open + Join(parts, ", ") + close)
            == Unspaced(head) + open + Join(UnspacedAll(parts), ",") + close
  {
    UnspacedJoin(parts, ", ");
    assert Unspaced(", ") == ",";
    UnspacedNoSpace(open);
    UnspacedNoSpace(close);
    UnspacedConcat(head + open + Join(parts, ", "), close);
    UnspacedConcat(head + open, Join(parts, ", "));
    UnspacedConcat(head, open);
  }

  /** A prefix without spaces survives `Unspaced` whole. */
  lemma {:induction false} UnspacedPrefix(p: string, s: string)
    requires ' ' !in p
    ensures Unspaced(p + s) == p + Unspaced(s)
  {
    if p == [] {
      assert p + s == s;
    } else {
      assert (p + s)[0] == p[0];
      assert (p + s)[1..] == p[1..] + s;
      UnspacedPrefix(p[1..], s);
      assert [p[0]] + (p[1..] + Unspaced(s)) == p + Unspaced(s);
    }
  }

  /** The unspaced text of `op x` as Unparse prints it. */
  lemma UnaryTokens(op: string, x: string)
    requires ' ' !in op
    ensures Unspaced(op + " " + x) == op + Unspaced(x)
  {
    var rest := " " + x;
    assert op + " " + x == op + rest;
    UnspacedPrefix(op, rest);
    assert rest[0] == ' ' && rest[1..] == x;
  }

  /** The unspaced text of `(l op r)` as Unparse prints it. */
  lemma BinaryTokens(l: string, op: string, r: string)
    requires ' ' !in op
    ensures Unspaced("(" + l + " " + op + " " + r + ")") == "(" + Unspaced(l) + op + Unspaced(r) + ")"
  {
    UnspacedNoSpace(op);
    assert Unspaced(" ") == "";
    assert Unspaced("(") == "(";
    assert Unspaced(")") == ")";
    var s1 := "(" + l;
    UnspacedConcat("(", l);
    var s2 := s1 + " ";
    UnspacedConcat(s1, " ");
    assert Unspaced(s2) == "(" + Unspaced(l);
    var s3 := s2 + op;
    UnspacedConcat(s2, op);
    var s4 := s3 + " ";
    UnspacedConcat(s3, " ");
    assert Unspaced(s4) == "(" + Unspaced(l) + op;
    var s5 := s4 + r;
    UnspacedConcat(s4, r);
    UnspacedConcat(s5, ")");
  }

  /** The text `Unparse` prints, less its spaces, is the token text of `Lift(t)`. */
  lemma {:induction false} UnparseTokens(t: U.Term)
    requires WellFormed(t)
    ensures Unspaced(U.UnparseTerm(t)) == P.Text(Lift(t))
    decreases t
  {
    match t
    case Symbol(s) => UnspacedNoSpace(s);
    case Subscript(ts) =>
      ElementTokens(ts);
      UnparseTokens(ts[0]);
      SubscriptTokens(ts);
    case Function(ts) =>
      ElementTokens(ts);
      UnparseTokens(ts[0]);
      FunctionTokens(ts);
    case Unary(op, x) =>
      UnparseTokens(x);
      UnaryTokens(op, U.UnparseTerm(x));
    case Binary(op, l, r) =>
      UnparseTokens(l);
      UnparseTokens(r);
      BinaryTokens(U.UnparseTerm(l), op, U.UnparseTerm(r));
  }

  /** `b[i, ...]` as Unparse prints it, less its spaces, from the texts of its parts. */
  lemma SubscriptTokens(ts: seq<U.Term>)
    requires WellFormed(U.Subscript(ts))
    requires Unspaced(U.UnparseTerm(ts[0])) == P.Text(Lift(ts[0]))
    requires UnspacedAll(U.UnparseAll(ts, 1)) == P.Texts(LiftAll(ts, 1))
    ensures Unspaced(U.UnparseTerm(U.Subscript(ts))) == P.Text(Lift(U.Subscript(ts)))
  {
    BracketTokens(U.UnparseTerm(ts[0]), "[", U.UnparseAll(ts, 1), "]");
  }

  /** `f(a, ...)` as Unparse prints it, less its spaces, from the texts of its parts. */
  lemma FunctionTokens(ts: seq<U.Term>)
    requires WellFormed(U.Function(ts))
    requires Unspaced(U.UnparseTerm(ts[0])) == P.Text(Lift(ts[0]))
    requires UnspacedAll(U.UnparseAll(ts, 1)) == P.Texts(LiftAll(ts, 1))
    ensures Unspaced(U.UnparseTerm(U.Function(ts))) == P.Text(Lift(U.Function(ts)))
  {
    BracketTokens(U.UnparseTerm(ts[0]), "(", U.UnparseAll(ts, 1), ")");
  }

  /** The indices or arguments of a subscript or function, unparsed and unspaced, are the token texts of their lifts. */
  lemma {:induction false} ElementTokens(ts: seq<U.Term>)
    requires |ts| >= 1
    requires forall i | 0 <= i < |ts| :: WellFormed(ts[i])
    ensures UnspacedAll(U.UnparseAll(ts, 1)) == P.Texts(LiftAll(ts, 1))
    decreases ts, 0
  {
    forall i | 0 <= i < |ts| - 1
      ensures Unspaced(U.UnparseTerm(ts[1 + i])) == P.Text(LiftAll(ts, 1)[i])
    {
      UnparseTokens(ts[1 + i]);
    }
  }

  lemma {:induction false} DsTextNonEmpty(t: U.Term)
    requires WellFormed(t)
    ensures DsText(t) != ""
  {
  }

  /** Parsing the tree of what Unparse prints gives back the Ds text of the term, in both ports. */
  lemma {:induction false} TermRoundTrip(t: U.Term, port: P.Port)
    requires WellFormed(t)
    ensures P.ParseTerm(Lift(t), port, P.Corrected) == DsText(t)
    decreases t
  {
    match t
    case Symbol(s) =>
    case Subscript(ts) =>
      TermRoundTrip(ts[0], port);
      ElementsRoundTrip(ts, port);
      SubscriptRoundTrip(ts, port);
    case Function(ts) =>
      TermRoundTrip(ts[0], port);
      ElementsRoundTrip(ts, port);
      FunctionRoundTrip(ts, port);
    case Unary(op, x) => TermRoundTrip(x, port);
    case Binary(op, l, r) =>
      TermRoundTrip(l, port);
      TermRoundTrip(r, port);
  }

  /** The Ds text of a term list is the first term's text, a space, and the rest. */
  lemma DsTextsCons(ts: seq<U.Term>)
    requires |ts| >= 2
    ensures Join(DsTexts(ts), " ") == DsText(ts[0]) + " " + Join(DsTexts(ts)[1..], " ")
  {
  }

  lemma SubscriptRoundTrip(ts: seq<U.Term>, port: P.Port)
    requires WellFormed(U.Subscript(ts))
    requires P.ParseTerm(Lift(ts[0]), port, P.Corrected) == DsText(ts[0])
    requires P.ParseAll(LiftAll(ts, 1), port, P.Corrected) == DsTexts(ts)[1..]
    ensures P.ParseTerm(Lift(U.Subscript(ts)), port, P.Corrected) == DsText(U.Subscript(ts))
  {
    DsTextsCons(ts);
  }

  lemma FunctionRoundTrip(ts: seq<U.Term>, port: P.Port)
    requires WellFormed(U.Function(ts))
    requires P.ParseTerm(Lift(ts[0]), port, P.Corrected) == DsText(ts[0])
    requires P.ParseAll(LiftAll(ts, 1), port, P.Corrected) == DsTexts(ts)[1..]
    ensures P.ParseTerm(Lift(U.Function(ts)), port, P.Corrected) == DsText(U.Function(ts))
  {
    var func := DsText(ts[0]);
    var args := DsTexts(ts)[1..];
    assert Lift(U.Function(ts)) == P.Function(Lift(ts[0]), LiftAll(ts, 1));
    if |ts| == 1 {
      assert args == [] && DsTexts(ts) == [func];
    } else {
      assert Join(args, " ") != "" by {
        DsTextsCons(ts);
        DsTextNonEmpty(ts[1]);
        assert args[0] == DsText(ts[1]);
        assert |Join(args, " ")| >= |args[0]|;
      }
      DsTextsCons(ts);
      assert "(function " + (func + " " + Join(args, " ")) + ")" == "(function " + func + " " + Join(args, " ") + ")";
    }
  }

  lemma {:induction false} ElementsRoundTrip(ts: seq<U.Term>, port: P.Port)
    requires |ts| >= 1
    requires forall i | 0 <= i < |ts| :: WellFormed(ts[i])
    ensures P.ParseAll(LiftAll(ts, 1), port, P.Corrected) == DsTexts(ts)[1..]
    decreases ts, 0
  {
    forall i | 0 <= i < |ts| - 1
      ensures P.ParseTerm(LiftAll(ts, 1)[i], port, P.Corrected) == DsText(ts[1 + i])
    {
      TermRoundTrip(ts[1 + i], port);
    }
  }

  /** A rule Unparse prints so that Parse reads it back as the same rule: a fact's text has no arrow. */
  predicate WellFormedRule(r: U.Rule) {
    |r.terms| >= 1
    && (forall i | 0 <= i < |r.terms| :: WellFormed(r.terms[i]))
    && (|r.terms| == 1 ==> !Contains(P.Text(Lift(r.terms[0])), "->"))
  }

  /**
   * The Dsp parse tree taken for `U.UnparseRule(r)`. A rule of one premise
   * prints as `p -> c`, which the grammar reads as a single binary term, as
   * the conversion tests expect of `a -> b`.
   */
  function LiftRule(r: U.Rule): P.Rule
    requires forall i | 0 <= i < |r.terms| :: WellFormed(r.terms[i])
  {
    if |r.terms| == 2 then P.Rule([P.Binary(Lift(r.terms[0]), "->", Lift(r.terms[1]))])
    else P.Rule(LiftAll(r.terms, 0))
  }

  /** The Ds text of a rule: premises on their own lines, a dash line, the conclusion; a fact alone. */
  function DsRuleText(r: U.Rule): string {
    if r.terms == [] then ""
    else
      var texts := DsTexts(r.terms);
      if |texts| == 1 then texts[0]
      else Join(texts[..|texts| - 1], "\n") + "\n----------\n" + texts[|texts| - 1]
  }

  lemma RuleRoundTrip(r: U.Rule, port: P.Port)
    requires WellFormedRule(r)
    ensures P.ParseRule(LiftRule(r), port, P.Corrected) == DsRuleText(r)
  {
    var ts := r.terms;
    forall i | 0 <= i < |ts| ensures P.ParseTerm(LiftAll(ts, 0)[i], port, P.Corrected) == DsText(ts[i]) {
      TermRoundTrip(ts[i], port);
    }
    assert P.ParseAll(LiftAll(ts, 0), port, P.Corrected) == DsTexts(ts);
    RuleTextsRoundTrip(r, port);
  }

  /** From the outputs of its terms to the output of the rule. */
  lemma RuleTextsRoundTrip(r: U.Rule, port: P.Port)
    requires WellFormedRule(r)
    requires P.ParseAll(LiftAll(r.terms, 0), port, P.Corrected) == DsTexts(r.terms)
    ensures P.ParseRule(LiftRule(r), port, P.Corrected) == DsRuleText(r)
  {
    var ts := r.terms;
    if |ts| == 2 {
      var outs := P.ParseAll(LiftAll(ts, 0), port, P.Corrected);
      assert outs[0] == DsTexts(ts)[0] && outs[1] == DsTexts(ts)[1];
      assert LiftAll(ts, 0)[0] == Lift(ts[0]) && LiftAll(ts, 0)[1] == Lift(ts[1]);
      assert DsTexts(ts)[..1] == [DsText(ts[0])];
    } else if |ts| > 2 {
      P.PremisesGiveSeparator(LiftRule(r), port, P.Corrected);
    } else {
      assert LiftRule(r) == P.Rule([Lift(ts[0])]);
      P.FactIsItsTerm(Lift(ts[0]), port, P.Corrected);
    }
  }

  /** The text Unparse prints for a rule, less its spaces, is the token text of the lifted rule. */
  lemma UnparseRuleTokens(r: U.Rule)
    requires |r.terms| >= 1
    requires forall i | 0 <= i < |r.terms| :: WellFormed(r.terms[i])
    ensures Unspaced(U.UnparseRule(r)) == P.RuleText(LiftRule(r))
  {
    var ts := r.terms;
    var n := |ts|;
    UnparseTokens(ts[n - 1]);
    if n >= 2 {
      var premises := U.UnparseAll(ts, 0)[..n - 1];
      var lifted := LiftAll(ts, 0)[..n - 1];
      assert UnspacedAll(premises) == P.Texts(lifted) by {
        forall i | 0 <= i < n - 1 ensures UnspacedAll(premises)[i] == P.Texts(lifted)[i] {
          assert premises[i] == U.UnparseTerm(ts[i]) && lifted[i] == Lift(ts[i]);
          UnparseTokens(ts[i]);
        }
      }
      PremisesTokens(r);
    }
  }

  /** The text of a rule with premises, less its spaces, from the texts of its terms. */
  lemma PremisesTokens(r: U.Rule)
    requires |r.terms| >= 2
    requires forall i | 0 <= i < |r.terms| :: WellFormed(r.terms[i])
    requires Unspaced(U.UnparseTerm(r.terms[|r.terms| - 1])) == P.Text(Lift(r.terms[|r.terms| - 1]))
    requires UnspacedAll(U.UnparseAll(r.terms, 0)[..|r.terms| - 1]) == P.Texts(LiftAll(r.terms, 0)[..|r.terms| - 1])
    ensures Unspaced(U.UnparseRule(r)) == P.RuleText(LiftRule(r))
  {
    var ts := r.terms;
    var n := |ts|;
    var premises := U.UnparseAll(ts, 0)[..n - 1];
    var conclusion := U.UnparseTerm(ts[n - 1]);
    var joined := Join(premises, ", ");
    calc {
      Unspaced(U.UnparseRule(r));
    == { UnparseRuleShape(r); }
      Unspaced(joined + " -> " + conclusion);
    == { ArrowTokens(joined, conclusion); }
      Unspaced(joined) + "->" + Unspaced(conclusion);
    == { UnspacedJoin(premises, ", "); CommaTokens(); }
      Join(UnspacedAll(premises), ",") + "->" + Unspaced(conclusion);
    ==
      Join(P.Texts(LiftAll(ts, 0)[..n - 1]), ",") + "->" + P.Text(Lift(ts[n - 1]));
    == { LiftRuleShape(r); }
      P.RuleText(LiftRule(r));
    }
  }

  /** What Unparse prints for a rule with premises. */
  lemma UnparseRuleShape(r: U.Rule)
    requires |r.terms| >= 2
    ensures U.UnparseRule(r) == Join(U.UnparseAll(r.terms, 0)[..|r.terms| - 1], ", ") + " -> " + U.UnparseTerm(r.terms[|r.terms| - 1])
  {
  }

  /** The token text of a lifted rule with premises. */
  lemma LiftRuleShape(r: U.Rule)
    requires |r.terms| >= 2
    requires forall i | 0 <= i < |r.terms| :: WellFormed(r.terms[i])
    ensures P.RuleText(LiftRule(r)) == Join(P.Texts(LiftAll(r.terms, 0)[..|r.terms| - 1]), ",") + "->" + P.Text(Lift(r.terms[|r.terms| - 1]))
  {
    if |r.terms| == 2 {
      assert P.Texts(LiftAll(r.terms, 0)[..1]) == [P.Text(Lift(r.terms[0]))];
    } else {
      var lifted := LiftRule(r).terms;
      assert lifted == LiftAll(r.terms, 0);
      assert P.RuleText(LiftRule(r)) == Join(P.Texts(lifted[..|lifted| - 1]), ",") + "->" + P.Text(lifted[|lifted| - 1]);
    }
  }

  /**
   * As written, the visitor reads the tree of a one-premise rule as a rule
   * without premises whose conclusion is the whole `p -> c` term.
   */
  lemma OnePremiseRuleAsWritten(r: U.Rule, port: P.Port)
    requires |r.terms| == 2 && forall i | 0 <= i < 2 :: WellFormed(r.terms[i])
    ensures P.ParseRule(LiftRule(r), port, P.AsWritten)
            == "\n----------\n" + P.ParseTerm(P.Binary(Lift(r.terms[0]), "->", Lift(r.terms[1])), port, P.AsWritten)
  {
    P.ArrowTermGivesSeparator(Lift(r.terms[0]), Lift(r.terms[1]), port);
  }

  /**
   * `a -> c`, the text Unparse prints for the rule with premise `a` and
   * conclusion `c`, reads back as `(binary -> a c)` under an empty premise
   * list instead of `a` over the dash line over `c`.
   */
  lemma OnePremiseRuleMisread()
    ensures U.UnparseRule(U.Rule([U.Symbol("a"), U.Symbol("c")])) == "a -> c"
    ensures P.ParseRule(LiftRule(U.Rule([U.Symbol("a"), U.Symbol("c")])), P.Python, P.AsWritten)
            == "\n----------\n" + "(binary -> a c)"
    ensures DsRuleText(U.Rule([U.Symbol("a"), U.Symbol("c")])) == "a\n----------\nc"
  {
    var r := U.Rule([U.Symbol("a"), U.Symbol("c")]);
    OnePremiseTexts(r);
    OnePremiseRuleAsWritten(r, P.Python);
    ArrowOfSymbols();
  }

  /** What Unparse and the Ds printer give for the rule with premise `a` and conclusion `c`. */
  lemma OnePremiseTexts(r: U.Rule)
    requires r == U.Rule([U.Symbol("a"), U.Symbol("c")])
    ensures U.UnparseRule(r) == "a -> c" && DsRuleText(r) == "a\n----------\nc"
  {
    assert U.UnparseAll(r.terms, 0) == ["a", "c"];
    assert U.UnparseAll(r.terms, 0)[..1] == ["a"];
    assert DsTexts(r.terms) == ["a", "c"];
    assert DsTexts(r.terms)[..1] == ["a"];
  }

  /** The visitor as written finds the arrow between two symbols. */
  lemma ArrowOfSymbols()
    ensures P.ParseTerm(P.Binary(P.Symbol("a"), "->", P.Symbol("c")), P.Python, P.AsWritten) == "(binary -> a c)"
  {
    P.OperatorOfBinary(P.Symbol("a"), "->", P.Symbol("c"), "a", "c");
  }

  lemma CommaTokens()
    ensures Unspaced(", ") == ","
  {
    assert ", "[1..] == " ";
  }

  lemma ArrowTokens(a: string, b: string)
    ensures Unspaced(a + " -> " + b) == Unspaced(a) + "->" + Unspaced(b)
  {
    assert Unspaced(" -> ") == "->";
    UnspacedConcat(a + " -> ", b);
    UnspacedConcat(a, " -> ");
  }

  function LiftPool(p: U.RulePool): P.RulePool
    requires forall i | 0 <= i < |p.rules| :: WellFormedRule(p.rules[i])
  {
    P.RulePool(seq(|p.rules|, i requires 0 <= i < |p.rules| && WellFormedRule(p.rules[i]) => LiftRule(p.rules[i])))
  }

  function DsPoolText(p: U.RulePool): string {
    Join(seq(|p.rules|, i requires 0 <= i < |p.rules| => DsRuleText(p.rules[i])), "\n")
  }

  lemma PoolRoundTrip(p: U.RulePool, port: P.Port)
    requires forall i | 0 <= i < |p.rules| :: WellFormedRule(p.rules[i])
    ensures P.ParsePool(LiftPool(p), port, P.Corrected) == DsPoolText(p)
  {
    var lifted := LiftPool(p);
    forall i | 0 <= i < |p.rules|
      ensures P.ParseRule(lifted.rules[i], port, P.Corrected) == DsRuleText(p.rules[i])
    {
      RuleRoundTrip(p.rules[i], port);
    }
    assert seq(|lifted.rules|, i requires 0 <= i < |lifted.rules| => P.ParseRule(lifted.rules[i], port, P.Corrected))
        == seq(|p.rules|, i requires 0 <= i < |p.rules| => DsRuleText(p.rules[i]));
  }
}
