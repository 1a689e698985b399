/**
 * The parse visitor: from a parse tree of the traditional Dsp notation to
 * text in the lisp-like Ds notation, in its Python version and its
 * TypeScript port. The two differ in one test only (how an empty argument
 * list is recognised); `Port` selects between them.
 *
 * The Dsp lexer and parser are not part of this model: their output, the
 * parse tree, is the datatype below, one constructor per labelled alternative
 * the visitor handles. `Text` is what ANTLR's `getText()` returns on a node:
 * the texts of its tokens, concatenated without the whitespace the lexer
 * skipped.
 */
module Parse {
  import opened Strings

  /** A Dsp term: `a`, `(t)`, `b[i, ...]`, `f(a, ...)`, `op t`, `l op r`. */
  datatype Term =
    | Symbol(text: string)
    | Parentheses(inner: Term)
    | Subscript(base: Term, indices: seq<Term>)
    | Function(func: Term, args: seq<Term>)
    | Unary(op: string, operand: Term)
    | Binary(left: Term, op: string, right: Term)

  /** A Dsp rule: `p1, p2, ... -> c`, or a lone term. */
  datatype Rule = Rule(terms: seq<Term>)

  datatype RulePool = RulePool(rules: seq<Rule>)

  datatype Port = Python | TypeScript

  /**
   * The visitor as both ports write it, or with its two misreadings
   * corrected. `AsWritten`: `visitBinary` runs its loop over the node's
   * children, and `visitRule` takes a lone `l -> r` term for a rule without
   * premises. `Corrected`: the operator is the token between the two
   * operands, and a lone unparenthesised `l -> r` term is the rule with
   * premise `l` and conclusion `r`.
   */
  datatype Reading = AsWritten | Corrected

  /** Every symbol and operator token of `t` is free of spaces, as the lexer makes them. */
  predicate TokensWithoutSpaces(t: Term) {
    match t
    case Symbol(s) => ' ' !in s
    case Parentheses(inner) => TokensWithoutSpaces(inner)
    case Subscript(b, ix) => TokensWithoutSpaces(b) && forall i | 0 <= i < |ix| :: TokensWithoutSpaces(ix[i])
    case Function(f, xs) => TokensWithoutSpaces(f) && forall i | 0 <= i < |xs| :: TokensWithoutSpaces(xs[i])
    case Unary(op, x) => ' ' !in op && TokensWithoutSpaces(x)
    case Binary(l, op, r) => ' ' !in op && TokensWithoutSpaces(l) && TokensWithoutSpaces(r)
  }

  /** `getText()`: the token texts of `t` concatenated, with no whitespace between them. */
  function Text(t: Term): (r: string)
    ensures TokensWithoutSpaces(t) ==> ' ' !in r
  {
    match t
    case Symbol(s) => s
    case Parentheses(inner) => "(" + Text(inner) + ")"
    case Subscript(b, ix) =>
      var parts := seq(|ix|, i requires 0 <= i < |ix| => Text(ix[i]));
      CommaJoinWithoutSpaces(parts);
      Text(b) + "[" + Join(parts, ",") + "]"
    case Function(f, xs) =>
      var parts := seq(|xs|, i requires 0 <= i < |xs| => Text(xs[i]));
      CommaJoinWithoutSpaces(parts);
      Text(f) + "(" + Join(parts, ",") + ")"
    case Unary(op, x) => op + Text(x)
    case Binary(l, op, r) => Text(l) + op + Text(r)
  }

  /** Joining texts without spaces by commas adds none. */
  lemma CommaJoinWithoutSpaces(parts: seq<string>)
    ensures (forall i | 0 <= i < |parts| :: ' ' !in parts[i]) ==> ' ' !in Join(parts, ",")
  {
    if forall i | 0 <= i < |parts| :: ' ' !in parts[i] {
      JoinChars(parts, ",", ' ');
    }
  }

  function Texts(ts: seq<Term>): (r: seq<string>)
    ensures |r| == |ts|
  {
    seq(|ts|, i requires 0 <= i < |ts| => Text(ts[i]))
  }

  /** `getText()` on a rule: the premises' texts joined by commas, the arrow, the conclusion's text. */
  function RuleText(r: Rule): (s: string)
    ensures (forall i | 0 <= i < |r.terms| :: TokensWithoutSpaces(r.terms[i])) ==> ' ' !in s
  {
    if |r.terms| == 0 then ""
    else if |r.terms| == 1 then Text(r.terms[0])
    else
      var premises := Texts(r.terms[..|r.terms| - 1]);
      CommaJoinWithoutSpaces(premises);
      Join(premises, ",") + "->" + Text(r.terms[|r.terms| - 1])
  }

  /** A child of a parse-tree node: a terminal (token) or a rule context, with its `getText()`. */
  datatype Child = Token(text: string) | Node(text: string)

  /** The children of a binary node: left operand, operator token, right operand. */
  function BinaryChildren(l: Term, op: string, r: Term): seq<Child> {
    [Node(Text(l)), Token(op), Node(Text(r))]
  }

  /** The test in the operator loop: a terminal, or a context whose text is none of the operand outputs and has no "(". */
  predicate Chosen(c: Child, left: string, right: string) {
    c.Token? || (c.text != left && c.text != right && '(' !in c.text && |c.text| > 0)
  }

  /** The text of the first chosen child, or "" when there is none. */
  function OperatorFound(children: seq<Child>, left: string, right: string): (op: string)
    ensures op == "" || exists i | 0 <= i < |children| :: Chosen(children[i], left, right) && op == children[i].text
    ensures (forall i | 0 <= i < |children| :: !Chosen(children[i], left, right)) ==> op == ""
  {
    if children == [] then ""
    else if Chosen(children[0], left, right) then children[0].text
    else
      var op := OperatorFound(children[1..], left, right);
      assert forall i | 1 <= i < |children| :: children[i] == children[1..][i - 1];
      op
  }

  /** The operator loop of `visitBinary`, as both visitors write it. */
  method FindOperator(children: seq<Child>, left: string, right: string) returns (op: string)
    ensures op == OperatorFound(children, left, right)
  {
    op := "";
    var i := 0;
    while i < |children|
      invariant 0 <= i <= |children|
      invariant OperatorFound(children, left, right) == OperatorFound(children[i..], left, right)
    {
      assert children[i..][1..] == children[i + 1..];
      if Chosen(children[i], left, right) {
        op := children[i].text;
        return;
      }
      i := i + 1;
    }
  }

  /**
   * The search picks the left operand's text whenever that text is chosen
   * (as for `a[i]` or `- x`), and the operator token otherwise.
   */
  lemma OperatorOfBinary(l: Term, op: string, r: Term, left: string, right: string)
    ensures OperatorFound(BinaryChildren(l, op, r), left, right)
            == if Chosen(Node(Text(l)), left, right) then Text(l) else op
  {
    var cs := BinaryChildren(l, op, r);
    assert cs[1..] == [Token(op), Node(Text(r))];
  }

  /** The visitors of the terms: a symbol is itself, parentheses vanish, every other term is one parenthesised s-expression. */
  function ParseTerm(t: Term, port: Port, reading: Reading): (r: string)
    ensures !t.Symbol? && !t.Parentheses? ==> Parenthesised(r)
  {
    match t
    case Symbol(s) => s
    case Parentheses(inner) => ParseTerm(inner, port, reading)
    case Subscript(b, ix) =>
      "(subscript " + ParseTerm(b, port, reading) + " " + Join(ParseAll(ix, port, reading), " ") + ")"
    case Function(f, xs) =>
      var func := ParseTerm(f, port, reading);
      var args := ParseAll(xs, port, reading);
      if (port == Python && Join(args, " ") == "") || (port == TypeScript && args == []) then
        "(function " + func + ")"
      else
        "(function " + func + " " + Join(args, " ") + ")"
    case Unary(op, x) => "(unary " + op + " " + ParseTerm(x, port, reading) + ")"
    case Binary(l, op, r) =>
      var left := ParseTerm(l, port, reading);
      var right := ParseTerm(r, port, reading);
      var o := if reading == Corrected then op else OperatorFound(BinaryChildren(l, op, r), left, right);
      "(binary " + o + " " + left + " " + right + ")"
  }

  /** `s` is one parenthesised s-expression: it opens with "(" and closes with ")". */
  predicate Parenthesised(s: string) {
    |s| >= 2 && s[0] == '(' && s[|s| - 1] == ')'
  }

  /** The terms' outputs, one per term, in order. */
  function ParseAll(ts: seq<Term>, port: Port, reading: Reading): (r: seq<string>)
    ensures |r| == |ts|
    ensures forall i | 0 <= i < |ts| :: r[i] == ParseTerm(ts[i], port, reading)
  {
    seq(|ts|, i requires 0 <= i < |ts| => ParseTerm(ts[i], port, reading))
  }

  /** `visitRule`: with an arrow in the rule's text, premises on lines and a dash line before the conclusion; otherwise the first term. */
  function ParseRule(r: Rule, port: Port, reading: Reading): (s: string)
    ensures r.terms == [] ==> s == ""
    ensures r.terms != [] && Contains(RuleText(r), "->") ==> Contains(s, "\n----------\n")
  {
    if r.terms == [] then ""
    else if reading == Corrected && |r.terms| == 1 && r.terms[0].Binary? && r.terms[0].op == "->" then
      var premise := ParseTerm(r.terms[0].left, port, reading);
      ArrowTermText(r.terms[0]);
      assert OccursAt(premise + "\n----------\n" + ParseTerm(r.terms[0].right, port, reading), "\n----------\n", |premise|);
      premise + "\n----------\n" + ParseTerm(r.terms[0].right, port, reading)
    else
      var result := ParseAll(r.terms, port, reading);
      if Contains(RuleText(r), "->") then
        var premises := Join(result[..|result| - 1], "\n");
        assert OccursAt(premises + "\n----------\n" + result[|result| - 1], "\n----------\n", |premises|);
        premises + "\n----------\n" + result[|result| - 1]
      else result[0]
  }

  /** `visitRule_pool`: the rules' outputs joined by newlines, "" for an empty pool. */
  function ParsePool(p: RulePool, port: Port, reading: Reading): (s: string)
    ensures p.rules == [] ==> s == ""
    ensures |p.rules| == 1 ==> s == ParseRule(p.rules[0], port, reading)
  {
    if p.rules == [] then ""
    else Join(seq(|p.rules|, i requires 0 <= i < |p.rules| => ParseRule(p.rules[i], port, reading)), "\n")
  }

  /** Every symbol token is non-empty, as the lexer guarantees. */
  predicate SymbolsNonEmpty(t: Term) {
    match t
    case Symbol(s) => s != ""
    case Parentheses(inner) => SymbolsNonEmpty(inner)
    case Subscript(b, ix) => SymbolsNonEmpty(b) && forall i | 0 <= i < |ix| :: SymbolsNonEmpty(ix[i])
    case Function(f, xs) => SymbolsNonEmpty(f) && forall i | 0 <= i < |xs| :: SymbolsNonEmpty(xs[i])
    case Unary(_, x) => SymbolsNonEmpty(x)
    case Binary(l, _, r) => SymbolsNonEmpty(l) && SymbolsNonEmpty(r)
  }

  lemma {:induction false} ParseTermNonEmpty(t: Term, port: Port, reading: Reading)
    requires SymbolsNonEmpty(t)
    ensures ParseTerm(t, port, reading) != ""
    decreases t
  {
    match t
    case Symbol(s) =>
    case Parentheses(inner) => ParseTermNonEmpty(inner, port, reading);
    case Subscript(b, ix) =>
    case Function(f, xs) =>
    case Unary(op, x) =>
    case Binary(l, op, r) =>
  }

  /** Joining non-empty strings gives "" only for no strings at all. */
  lemma JoinEmpty(parts: seq<string>, sep: string)
    requires forall i | 0 <= i < |parts| :: parts[i] != ""
    ensures Join(parts, sep) == "" <==> parts == []
  {
    if parts != [] {
      assert |Join(parts, sep)| >= |parts[0]|;
    }
  }

  /**
   * The Python visitor's `if not args` on the joined argument string and the
   * TypeScript visitor's `args.length === 0` agree on every tree whose
   * symbols are non-empty, so the two ports compute the same text.
   */
  lemma {:induction false} PortsAgree(t: Term, reading: Reading)
    requires SymbolsNonEmpty(t)
    ensures ParseTerm(t, Python, reading) == ParseTerm(t, TypeScript, reading)
    decreases t
  {
    match t
    case Symbol(s) =>
    case Parentheses(inner) => PortsAgree(inner, reading);
    case Subscript(b, ix) =>
      PortsAgree(b, reading);
      forall i | 0 <= i < |ix| ensures ParseTerm(ix[i], Python, reading) == ParseTerm(ix[i], TypeScript, reading) {
        PortsAgree(ix[i], reading);
      }
      assert ParseAll(ix, Python, reading) == ParseAll(ix, TypeScript, reading);
    case Function(f, xs) =>
      PortsAgree(f, reading);
      forall i | 0 <= i < |xs| ensures ParseTerm(xs[i], Python, reading) == ParseTerm(xs[i], TypeScript, reading) {
        PortsAgree(xs[i], reading);
      }
      var args := ParseAll(xs, Python, reading);
      assert args == ParseAll(xs, TypeScript, reading);
      forall i | 0 <= i < |args| ensures args[i] != "" {
        ParseTermNonEmpty(xs[i], Python, reading);
      }
      JoinEmpty(args, " ");
    case Unary(op, x) => PortsAgree(x, reading);
    case Binary(l, op, r) =>
      PortsAgree(l, reading);
      PortsAgree(r, reading);
  }

  lemma PortsAgreeOnRules(r: Rule, reading: Reading)
    requires forall i | 0 <= i < |r.terms| :: SymbolsNonEmpty(r.terms[i])
    ensures ParseRule(r, Python, reading) == ParseRule(r, TypeScript, reading)
  {
    if reading == Corrected && |r.terms| == 1 && r.terms[0].Binary? && r.terms[0].op == "->" {
      PortsAgree(r.terms[0].left, reading);
      PortsAgree(r.terms[0].right, reading);
    } else {
      forall i | 0 <= i < |r.terms| ensures ParseTerm(r.terms[i], Python, reading) == ParseTerm(r.terms[i], TypeScript, reading) {
        PortsAgree(r.terms[i], reading);
      }
      assert ParseAll(r.terms, Python, reading) == ParseAll(r.terms, TypeScript, reading);
    }
  }

  /** Every binary node's left operand is a symbol, a parenthesised term or a function application. */
  predicate LeftOperandsDelimited(t: Term) {
    match t
    case Symbol(_) => true
    case Parentheses(inner) => LeftOperandsDelimited(inner)
    case Subscript(b, ix) => LeftOperandsDelimited(b) && forall i | 0 <= i < |ix| :: LeftOperandsDelimited(ix[i])
    case Function(f, xs) => LeftOperandsDelimited(f) && forall i | 0 <= i < |xs| :: LeftOperandsDelimited(xs[i])
    case Unary(_, x) => LeftOperandsDelimited(x)
    case Binary(l, _, r) =>
      (l.Symbol? || l.Parentheses? || l.Function?) && LeftOperandsDelimited(l) && LeftOperandsDelimited(r)
  }

  /**
   * On those trees the operator loop finds the operator token: the left
   * operand's text is its own output (a symbol) or contains "(".
   */
  lemma {:induction false} SearchFindsOperatorToken(t: Term, port: Port)
    requires LeftOperandsDelimited(t)
    ensures ParseTerm(t, port, AsWritten) == ParseTerm(t, port, Corrected)
    decreases t
  {
    match t
    case Symbol(s) =>
    case Parentheses(inner) => SearchFindsOperatorToken(inner, port);
    case Subscript(b, ix) =>
      SearchFindsOperatorToken(b, port);
      SearchFindsOperatorTokens(ix, port);
    case Function(f, xs) =>
      SearchFindsOperatorToken(f, port);
      SearchFindsOperatorTokens(xs, port);
    case Unary(op, x) => SearchFindsOperatorToken(x, port);
    case Binary(l, op, r) =>
      SearchFindsOperatorToken(l, port);
      SearchFindsOperatorToken(r, port);
      DelimitedOperandGivesToken(l, op, r, port);
  }

  lemma {:induction false} SearchFindsOperatorTokens(ts: seq<Term>, port: Port)
    requires forall i | 0 <= i < |ts| :: LeftOperandsDelimited(ts[i])
    ensures ParseAll(ts, port, AsWritten) == ParseAll(ts, port, Corrected)
    decreases ts, 0
  {
    forall i | 0 <= i < |ts| ensures ParseTerm(ts[i], port, AsWritten) == ParseTerm(ts[i], port, Corrected) {
      SearchFindsOperatorToken(ts[i], port);
    }
  }

  /** One binary node whose operands already agree: its left operand's text is not chosen. */
  lemma DelimitedOperandGivesToken(l: Term, op: string, r: Term, port: Port)
    requires LeftOperandsDelimited(Binary(l, op, r))
    requires ParseTerm(l, port, AsWritten) == ParseTerm(l, port, Corrected)
    requires ParseTerm(r, port, AsWritten) == ParseTerm(r, port, Corrected)
    ensures ParseTerm(Binary(l, op, r), port, AsWritten) == ParseTerm(Binary(l, op, r), port, Corrected)
  {
    var left := ParseTerm(l, port, AsWritten);
    var right := ParseTerm(r, port, AsWritten);
    OperatorOfBinary(l, op, r, left, right);
    assert !Chosen(Node(Text(l)), left, right) by {
      match l
      case Symbol(s) =>
        assert Text(l) == left;
      case Parentheses(inner) =>
        assert Text(l)[0] == '(';
      case Function(f, xs) =>
        assert Text(l)[|Text(f)|] == '(';
    }
  }

  /**
   * With a subscript as left operand the search returns the subscript's
   * text instead of the operator: `a[i] + b` becomes `(binary a[i] (subscript a i) b)`.
   */
  lemma SubscriptLeftOperandMisread()
    ensures var t := Binary(Subscript(Symbol("a"), [Symbol("i")]), "+", Symbol("b"));
            ParseTerm(t, Python, AsWritten) == "(binary a[i] (subscript a i) b)"
            && ParseTerm(t, Python, Corrected) == "(binary + (subscript a i) b)"
  {
    var l := Subscript(Symbol("a"), [Symbol("i")]);
    var r := Symbol("b");
    SubscriptTexts();
    var left := ParseTerm(l, Python, AsWritten);
    assert left == "(subscript a i)";
    assert ParseTerm(l, Python, Corrected) == "(subscript a i)";
    OperatorOfBinary(l, "+", r, left, "b");
    assert Chosen(Node("a[i]"), left, "b");
    assert OperatorFound(BinaryChildren(l, "+", r), left, "b") == "a[i]";
    var t := Binary(l, "+", r);
    assert ParseTerm(t, Python, AsWritten) == "(binary " + "a[i]" + " " + "(subscript a i)" + " " + "b" + ")";
    assert ParseTerm(t, Python, Corrected) == "(binary " + "+" + " " + "(subscript a i)" + " " + "b" + ")";
    BinaryLiterals();
  }

  lemma BinaryLiterals()
    ensures "(binary " + "a[i]" + " " + "(subscript a i)" + " " + "b" + ")" == "(binary a[i] (subscript a i) b)"
    ensures "(binary " + "+" + " " + "(subscript a i)" + " " + "b" + ")" == "(binary + (subscript a i) b)"
  {
  }

  lemma SubscriptTexts()
    ensures Text(Subscript(Symbol("a"), [Symbol("i")])) == "a[i]"
    ensures ParseTerm(Subscript(Symbol("a"), [Symbol("i")]), Python, AsWritten) == "(subscript a i)"
    ensures ParseTerm(Subscript(Symbol("a"), [Symbol("i")]), Python, Corrected) == "(subscript a i)"
  {
    assert Texts([Symbol("i")]) == ["i"];
    assert seq(1, i requires 0 <= i < 1 => Text([Symbol("i")][i])) == ["i"];
    assert ParseAll([Symbol("i")], Python, AsWritten) == ["i"];
    assert ParseAll([Symbol("i")], Python, Corrected) == ["i"];
  }

  /** A rule of two or more terms has an arrow in its text, so its output carries the dash line. */
  lemma PremisesGiveSeparator(r: Rule, port: Port, reading: Reading)
    requires |r.terms| >= 2
    ensures var result := ParseAll(r.terms, port, reading);
            ParseRule(r, port, reading) == Join(result[..|result| - 1], "\n") + "\n----------\n" + result[|result| - 1]
  {
    var n := |r.terms|;
    var a := Join(Texts(r.terms[..n - 1]), ",");
    var c := Text(r.terms[n - 1]);
    assert OccursAt(a + "->" + c, "->", |a|);
  }

  /** A lone term whose text has no arrow is a fact: its output alone. */
  lemma FactIsItsTerm(t: Term, port: Port, reading: Reading)
    requires !Contains(Text(t), "->")
    ensures ParseRule(Rule([t]), port, reading) == ParseTerm(t, port, reading)
  {
    ArrowTermText(t);
  }

  /** The text of an `l -> r` term has an arrow. */
  lemma ArrowTermText(t: Term)
    ensures t.Binary? && t.op == "->" ==> Contains(Text(t), "->")
  {
    if t.Binary? && t.op == "->" {
      assert OccursAt(Text(t.left) + "->" + Text(t.right), "->", |Text(t.left)|);
    }
  }

  /**
   * As written, a lone term with an arrow operator, `a -> b`, is read as a
   * rule with no premises: the output is the dash line and the term's own
   * output.
   */
  lemma ArrowTermGivesSeparator(l: Term, r: Term, port: Port)
    ensures var t := Binary(l, "->", r);
            ParseRule(Rule([t]), port, AsWritten) == "\n----------\n" + ParseTerm(t, port, AsWritten)
  {
    ArrowTermText(Binary(l, "->", r));
    LoneTermWithArrow(Binary(l, "->", r), port, AsWritten);
  }

  /** A lone term with an arrow in its text, and not split by the corrected reading, gives the dash line and its output. */
  lemma LoneTermWithArrow(t: Term, port: Port, reading: Reading)
    requires Contains(Text(t), "->") && !(reading == Corrected && t.Binary? && t.op == "->")
    ensures ParseRule(Rule([t]), port, reading) == "\n----------\n" + ParseTerm(t, port, reading)
  {
    assert RuleText(Rule([t])) == Text(t);
    var result := ParseAll([t], port, reading);
    assert result[..0] == [] && result[0] == ParseTerm(t, port, reading);
  }
}
