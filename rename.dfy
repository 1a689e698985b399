/**
 * Variable renaming over terms (the native `term_t::rename` and `rule_t::rename`).
 *
 * A rename is described by a descriptor term `((prefix) (suffix))`: a list of two
 * lists, each empty (meaning the empty string) or holding one item whose name is
 * the string. Renaming rewrites every variable `name` to `prefix + name + suffix`,
 * copies items unchanged and recurses through lists. The native code writes the
 * result into a caller-supplied buffer; here the result is a value, and failure
 * (the native `nullptr`) is `None`.
 */
module Rename {
  import opened Wrappers

  /** A term: a variable, an item (atom), a list of terms, or a term of any other type tag. */
  datatype Term = Variable(name: string) | Item(name: string) | List(elems: seq<Term>) | Null

  /** A rule: its premises and its conclusion (natively a list of `|premises| + 1` terms). */
  datatype Rule = Rule(premises: seq<Term>, conclusion: Term) {
    /** The rule as the list of terms it is stored as. */
    function Terms(): (ts: seq<Term>)
      ensures |ts| == |premises| + 1 && ts[|premises|] == conclusion
      ensures forall i | 0 <= i < |premises| :: ts[i] == premises[i]
    {
      premises + [conclusion]
    }
  }

  /** The two strings a valid descriptor carries. */
  datatype Affixes = Affixes(prefix: string, suffix: string)

  /** An inner descriptor list: empty, or one item. */
  predicate IsAffixList(t: Term) {
    t.List? && (|t.elems| == 0 || (|t.elems| == 1 && t.elems[0].Item?))
  }

  /** The string an inner descriptor list stands for. */
  function AffixText(t: Term): string
    requires IsAffixList(t)
  {
    if |t.elems| == 0 then "" else t.elems[0].name
  }

  /**
   * `extract_prefix_suffix`: succeeds exactly on a list of two inner descriptor lists.
   */
  function ExtractPrefixSuffix(d: Term): (r: Option<Affixes>)
    ensures r.Some? <==> d.List? && |d.elems| == 2 && IsAffixList(d.elems[0]) && IsAffixList(d.elems[1])
    ensures r.Some? ==> r.value == Affixes(AffixText(d.elems[0]), AffixText(d.elems[1]))
  {
    if !d.List? || |d.elems| != 2 then None
    else
      var p, s := d.elems[0], d.elems[1];
      if !p.List? || !s.List? then None
      else if |p.elems| == 1 && !p.elems[0].Item? then None
      else if |p.elems| > 1 then None
      else if |s.elems| == 1 && !s.elems[0].Item? then None
      else if |s.elems| > 1 then None
      else Some(Affixes(AffixText(p), AffixText(s)))
  }

  /** The descriptor a caller writes for a prefix and a suffix: `()` for an empty string. */
  function Descriptor(a: Affixes): (d: Term) {
    List([AffixList(a.prefix), AffixList(a.suffix)])
  }

  function AffixList(s: string): Term {
    if s == "" then List([]) else List([Item(s)])
  }

  /** Extracting from a descriptor built for `a` gives back `a`. */
  lemma DescriptorRoundTrip(a: Affixes)
    ensures ExtractPrefixSuffix(Descriptor(a)) == Some(a)
  {
  }

  /** Whether a term contains a subterm of a type tag other than variable, item and list. */
  predicate HasNull(t: Term) {
    match t
    case Null => true
    case List(elems) => exists i | 0 <= i < |elems| :: HasNull(elems[i])
    case _ => false
  }

  /** The term with every variable name erased: what renaming must not change. */
  function Skeleton(t: Term): Term {
    match t
    case Variable(_) => Variable("")
    case Item(_) => t
    case List(elems) => List(seq(|elems|, i requires 0 <= i < |elems| => Skeleton(elems[i])))
    case Null => Null
  }

  /**
   * What `rename_with_strings` computes: the renamed term, or `None` when some
   * subterm has a type tag it does not handle.
   */
  function Renamed(t: Term, a: Affixes): (r: Option<Term>)
    ensures r.Some? <==> !HasNull(t)
    ensures r.Some? ==> Skeleton(r.value) == Skeleton(t)
    ensures r.Some? && t.Variable? ==> r.value.name == a.prefix + t.name + a.suffix
    ensures r.Some? && t.List? ==>
              r.value.List? && |r.value.elems| == |t.elems|
              && forall i | 0 <= i < |t.elems| :: Renamed(t.elems[i], a) == Some(r.value.elems[i])
  {
    match t
    case Variable(name) => Some(Variable(a.prefix + name + a.suffix))
    case Item(_) => Some(t)
    case List(elems) =>
      var rs := RenamedAll(elems, a);
      if rs.Some? then
        assert Skeleton(List(rs.value)).elems == Skeleton(t).elems;
        Some(List(rs.value))
      else None
    case Null => None
  }

  /** Element-wise `Renamed` over a list's elements: fails as soon as one element fails. */
  function RenamedAll(ts: seq<Term>, a: Affixes): (r: Option<seq<Term>>)
    ensures r.Some? <==> forall i | 0 <= i < |ts| :: !HasNull(ts[i])
    ensures r.Some? ==> |r.value| == |ts|
    ensures r.Some? ==> forall i | 0 <= i < |ts| :: Renamed(ts[i], a) == Some(r.value[i])
    decreases ts
  {
    if ts == [] then Some([])
    else
      var h := Renamed(ts[0], a);
      var tl := RenamedAll(ts[1..], a);
      if h.Some? && tl.Some? then Some([h.value] + tl.value) else None
  }

  /** `term_t::rename(term, descriptor)`: extract the strings once, then rename. */
  function RenameTerm(t: Term, d: Term): (r: Option<Term>)
    ensures r.Some? <==> ExtractPrefixSuffix(d).Some? && !HasNull(t)
    ensures r.Some? ==> Skeleton(r.value) == Skeleton(t)
    ensures r.Some? ==> Renamed(t, ExtractPrefixSuffix(d).value) == r
  {
    match ExtractPrefixSuffix(d)
    case None => None
    case Some(a) => Renamed(t, a)
  }

  /** Renaming with the descriptor written for a prefix and a suffix adds exactly those to every variable. */
  lemma RenameByDescriptor(t: Term, a: Affixes)
    ensures RenameTerm(t, Descriptor(a)) == Renamed(t, a)
  {
    DescriptorRoundTrip(a);
  }

  /**
   * `rule_t::rename(rule, descriptor)`: the descriptor rule must consist of its
   * conclusion alone; every premise and the conclusion are renamed with the same
   * strings, and any failure fails the whole call.
   */
  function RenameRule(rule: Rule, d: Rule): (r: Option<Rule>)
    ensures r.Some? <==>
      d.premises == [] && ExtractPrefixSuffix(d.conclusion).Some? &&
      forall i | 0 <= i < |rule.Terms()| :: !HasNull(rule.Terms()[i])
    ensures r.Some? ==> |r.value.premises| == |rule.premises|
    ensures r.Some? ==> forall i | 0 <= i < |rule.premises| ::
      Renamed(rule.premises[i], ExtractPrefixSuffix(d.conclusion).value) == Some(r.value.premises[i])
    ensures r.Some? ==>
      Renamed(rule.conclusion, ExtractPrefixSuffix(d.conclusion).value) == Some(r.value.conclusion)
  {
    if d.premises != [] then None
    else
      match ExtractPrefixSuffix(d.conclusion)
      case None => None
      case Some(a) =>
        var ts := RenamedAll(rule.Terms(), a);
        if ts.None? then None
        else Some(Rule(ts.value[..|rule.premises|], ts.value[|rule.premises|]))
  }

  /** With an empty prefix and an empty suffix renaming changes nothing. */
  lemma {:induction false} RenameIdentity(t: Term)
    requires !HasNull(t)
    ensures Renamed(t, Affixes("", "")) == Some(t)
  {
    match t
    case Variable(name) =>
      assert "" + name + "" == name;
    case Item(_) =>
    case List(elems) =>
      var rs := RenamedAll(elems, Affixes("", ""));
      forall i | 0 <= i < |elems|
        ensures rs.value[i] == elems[i]
      {
        RenameIdentity(elems[i]);
      }
      assert rs.value == elems;
  }

  /** Renaming twice is renaming once with the prefixes and the suffixes concatenated. */
  lemma {:induction false} RenameCompose(t: Term, a: Affixes, b: Affixes)
    requires !HasNull(t)
    ensures Renamed(Renamed(t, a).value, b) == Renamed(t, Affixes(b.prefix + a.prefix, a.suffix + b.suffix))
  {
    var ab := Affixes(b.prefix + a.prefix, a.suffix + b.suffix);
    match t
    case Variable(name) =>
      assert b.prefix + (a.prefix + name + a.suffix) + b.suffix == ab.prefix + name + ab.suffix;
    case Item(_) =>
    case List(elems) =>
      var once := RenamedAll(elems, a).value;
      var twice := RenamedAll(once, b);
      var direct := RenamedAll(elems, ab);
      forall i | 0 <= i < |elems|
        ensures !HasNull(once[i]) && Renamed(once[i], b) == Renamed(elems[i], ab)
      {
        RenameCompose(elems[i], a, b);
      }
      assert twice.value == direct.value;
  }

  /** For fixed affixes, different terms never rename to the same term. */
  lemma {:induction false} RenameInjective(t1: Term, t2: Term, a: Affixes)
    requires Renamed(t1, a).Some? && Renamed(t1, a) == Renamed(t2, a)
    ensures t1 == t2
  {
    match t1
    case Variable(n1) =>
      var n2 := t2.name;
      assert a.prefix + n1 + a.suffix == a.prefix + n2 + a.suffix;
      assert n1 == (a.prefix + n1 + a.suffix)[|a.prefix|..|a.prefix| + |n1|];
      assert n2 == (a.prefix + n2 + a.suffix)[|a.prefix|..|a.prefix| + |n2|];
    case Item(_) =>
    case List(e1) =>
      var e2 := t2.elems;
      var r := RenamedAll(e1, a).value;
      assert RenamedAll(e2, a).value == r;
      forall i | 0 <= i < |e1|
        ensures e1[i] == e2[i]
      {
        RenameInjective(e1[i], e2[i], a);
      }
      assert e1 == e2;
  }

  /** `rename_with_strings`: the recursive copy into the result, list element by list element. */
  method RenameWithStrings(t: Term, a: Affixes) returns (r: Option<Term>)
    ensures r == Renamed(t, a)
    decreases t
  {
    match t {
      case Variable(name) =>
        r := Some(Variable(a.prefix + name + a.suffix));
      case Item(_) =>
        r := Some(t);
      case List(elems) =>
        var out: seq<Term> := [];
        var i := 0;
        while i < |elems|
          invariant 0 <= i <= |elems|
          invariant |out| == i
          invariant forall j | 0 <= j < i :: Renamed(elems[j], a) == Some(out[j])
        {
          var e := RenameWithStrings(elems[i], a);
          if e.None? {
            return None;
          }
          out := out + [e.value];
          i := i + 1;
        }
        assert RenamedAll(elems, a).value == out;
        r := Some(List(out));
      case Null =>
        r := None;
    }
  }

  /** `term_t::rename`. */
  method TermRename(t: Term, d: Term) returns (r: Option<Term>)
    ensures r == RenameTerm(t, d)
  {
    var a := ExtractPrefixSuffix(d);
    if a.None? {
      return None;
    }
    r := RenameWithStrings(t, a.value);
  }

  /** `rule_t::rename`: the loop over the rule's terms, premises first, conclusion last. */
  method RuleRename(rule: Rule, d: Rule) returns (r: Option<Rule>)
    ensures r == RenameRule(rule, d)
  {
    if d.premises != [] {
      return None;
    }
    var a := ExtractPrefixSuffix(d.conclusion);
    if a.None? {
      return None;
    }
    var src := rule.Terms();
    var dst: seq<Term> := [];
    var i := 0;
    while i < |src|
      invariant 0 <= i <= |src|
      invariant |dst| == i
      invariant forall j | 0 <= j < i :: Renamed(src[j], a.value) == Some(dst[j])
    {
      var e := RenameWithStrings(src[i], a.value);
      if e.None? {
        return None;
      }
      dst := dst + [e.value];
      i := i + 1;
    }
    assert RenamedAll(src, a.value).value == dst;
    r := Some(Rule(dst[..|rule.premises|], dst[|rule.premises|]));
  }
}
