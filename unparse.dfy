/**
 * The unparse visitor: from a parse tree of the lisp-like Ds notation to text
 * in the traditional Dsp notation. The Python visitor and its JavaScript port
 * are the same algorithm; this module models both.
 *
 * The Ds lexer and parser are not part of this model: their output, the parse
 * tree, is the datatype below, one constructor per labelled alternative the
 * visitor handles.
 */
module Unparse {
  import opened Strings

  /** A Ds term: `a`, `(subscript a i ...)`, `(function f a ...)`, `(unary op x)`, `(binary op l r)`. */
  datatype Term =
    | Symbol(text: string)
    | Subscript(terms: seq<Term>)
    | Function(terms: seq<Term>)
    | Unary(op: string, operand: Term)
    | Binary(op: string, left: Term, right: Term)

  /** A Ds rule: its premises followed by its conclusion, as the parser lists them. */
  datatype Rule = Rule(terms: seq<Term>)

  datatype RulePool = RulePool(rules: seq<Rule>)

  /** `visitSymbol`, `visitSubscript`, `visitFunction`, `visitUnary`, `visitBinary`. */
  function UnparseTerm(t: Term): (r: string)
    ensures t.Binary? ==> |r| >= 2 && r[0] == '(' && r[|r| - 1] == ')'
    ensures (t.Subscript? || t.Function?) && t.terms == [] ==> r == ""
    ensures t.Subscript? && t.terms != [] ==> |r| >= 2 && r[|r| - 1] == ']'
    ensures t.Function? && t.terms != [] ==> |r| >= 2 && r[|r| - 1] == ')'
  {
    match t
    case Symbol(s) => s
    case Subscript(ts) =>
      if ts == [] then ""
      else UnparseTerm(ts[0]) + "[" + Join(UnparseAll(ts, 1), ", ") + "]"
    case Function(ts) =>
      if ts == [] then ""
      else UnparseTerm(ts[0]) + "(" + Join(UnparseAll(ts, 1), ", ") + ")"
    case Unary(op, x) => op + " " + UnparseTerm(x)
    case Binary(op, l, r) => "(" + UnparseTerm(l) + " " + op + " " + UnparseTerm(r) + ")"
  }

  /** The visited terms `ts[from..]`, in order. */
  function UnparseAll(ts: seq<Term>, from: nat): (r: seq<string>)
    requires from <= |ts|
    ensures |r| == |ts| - from
    ensures forall i | 0 <= i < |r| :: r[i] == UnparseTerm(ts[from + i])
  {
    seq(|ts| - from, i requires 0 <= i < |ts| - from => UnparseTerm(ts[from + i]))
  }

  /** `visitRule`: the premises joined by ", ", then " -> ", then the conclusion; a lone term alone. */
  function UnparseRule(r: Rule): (s: string)
    ensures r.terms == [] ==> s == ""
    ensures |r.terms| == 1 ==> s == UnparseTerm(r.terms[0])
    ensures |r.terms| >= 2 ==> Contains(s, " -> ")
  {
    if r.terms == [] then ""
    else
      var result := UnparseAll(r.terms, 0);
      var conclusion := result[|result| - 1];
      var premises := result[..|result| - 1];
      if premises == [] then conclusion
      else
        assert OccursAt(Join(premises, ", ") + " -> " + conclusion, " -> ", |Join(premises, ", ")|);
        Join(premises, ", ") + " -> " + conclusion
  }

  /** `visitRule_pool`: the rules joined by newlines, "" for an empty pool. */
  function UnparsePool(p: RulePool): (s: string)
    ensures p.rules == [] ==> s == ""
    ensures |p.rules| == 1 ==> s == UnparseRule(p.rules[0])
  {
    if p.rules == [] then ""
    else Join(seq(|p.rules|, i requires 0 <= i < |p.rules| => UnparseRule(p.rules[i])), "\n")
  }

  /** The expected outputs of the conversion tests, on the trees of their inputs. */
  lemma UnparseTermExamples()
    ensures UnparseTerm(Symbol("a")) == "a"
    ensures UnparseTerm(Binary("->", Symbol("a"), Symbol("b"))) == "(a -> b)"
    ensures UnparseTerm(Unary("!", Symbol("x"))) == "! x"
  {
  }

  /** The same for the call and the subscript of the conversion tests. */
  lemma UnparseCallExamples()
    ensures UnparseTerm(Function([Symbol("f"), Symbol("a"), Symbol("b")])) == "f(a, b)"
    ensures UnparseTerm(Subscript([Symbol("arr"), Symbol("i"), Symbol("j")])) == "arr[i, j]"
  {
    assert UnparseAll([Symbol("f"), Symbol("a"), Symbol("b")], 1) == ["a", "b"];
    assert UnparseAll([Symbol("arr"), Symbol("i"), Symbol("j")], 1) == ["i", "j"];
  }

  lemma UnparseRuleExample()
    ensures UnparseRule(Rule([Symbol("a"), Symbol("b"), Symbol("c")])) == "a, b -> c"
    ensures UnparsePool(RulePool([])) == ""
  {
    var r := Rule([Symbol("a"), Symbol("b"), Symbol("c")]);
    assert UnparseAll(r.terms, 0) == ["a", "b", "c"];
    assert UnparseAll(r.terms, 0)[..2] == ["a", "b"];
  }
}
