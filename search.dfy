/**
 * The semi-naive fixpoint search of the example drivers: a store of rules and
 * a store of facts, each entry tagged with the round that introduced it; every
 * round tries the (rule, fact) pairs with at least one side from the previous
 * round, stages the results no store holds yet, and commits them under the
 * next round number.
 *
 * The term library (`rule_t`) is a parameter, `Oracle`: how an input string
 * is read, a rule's premise count, its key, and the match of a rule with a
 * fact. The JavaScript maps are Dafny maps from key to entry; their iteration
 * order is left open, each loop picking any key it has not visited yet.
 */
module Search {
  import opened Wrappers

  /** What the search uses of `rule_t`: `new rule_t(s)`, `length()`, `key()` and `match(fact)`. */
  datatype Oracle<!E> = Oracle(
    parse: string -> E,
    length: E -> nat,
    key: E -> string,
    tryMatch: (E, E) -> Option<E>)

  /** A store entry: the rule or fact and the round (`cycle`) that introduced it; seeds carry -1. */
  datatype Tagged<E> = Tagged(entry: E, cycle: int)

  type Store<E> = map<string, Tagged<E>>

  /** An entity with premises is a rule; one without is a fact. */
  predicate IsRule<E>(o: Oracle<E>, e: E) {
    o.length(e) != 0
  }

  /** The semi-naive filter: a pair is tried when either side was introduced in round `cycle`. */
  predicate Active(ruleCycle: int, factCycle: int, cycle: int) {
    ruleCycle == cycle || factCycle == cycle
  }

  /** The store for `c`'s kind holds an entry under `c`'s key. */
  predicate Present<E>(o: Oracle<E>, c: E, rules: Store<E>, facts: Store<E>) {
    if IsRule(o, c) then o.key(c) in rules else o.key(c) in facts
  }

  /** Every match of stored entries both introduced before round `bound` is already present. */
  predicate Saturated<E>(o: Oracle<E>, rules: Store<E>, facts: Store<E>, bound: int) {
    forall rk, fk {:trigger o.tryMatch(rules[rk].entry, facts[fk].entry)} |
      rk in rules && fk in facts && rules[rk].cycle < bound && facts[fk].cycle < bound
      && o.tryMatch(rules[rk].entry, facts[fk].entry).Some? ::
      Present(o, o.tryMatch(rules[rk].entry, facts[fk].entry).value, rules, facts)
  }

  /** The fixpoint: every match of a stored rule with a stored fact is present. */
  predicate Closed<E>(o: Oracle<E>, rules: Store<E>, facts: Store<E>) {
    forall rk, fk {:trigger o.tryMatch(rules[rk].entry, facts[fk].entry)} |
      rk in rules && fk in facts && o.tryMatch(rules[rk].entry, facts[fk].entry).Some? ::
      Present(o, o.tryMatch(rules[rk].entry, facts[fk].entry).value, rules, facts)
  }

  /** Every entry is filed under its own key. */
  predicate KeyConsistent<E>(o: Oracle<E>, m: Store<E>) {
    forall k | k in m :: o.key(m[k].entry) == k
  }

  predicate TagsBounded<E>(m: Store<E>, cycle: int) {
    forall k | k in m :: -1 <= m[k].cycle <= cycle
  }

  /** `c` is the match of a stored rule and a stored fact, with tags below `bound` and one of them equal to `bound - 1`. */
  predicate DerivedBefore<E(==)>(o: Oracle<E>, c: E, rules: Store<E>, facts: Store<E>, bound: int) {
    exists rk, fk | rk in rules && fk in facts ::
      rules[rk].cycle < bound && facts[fk].cycle < bound
      && Active(rules[rk].cycle, facts[fk].cycle, bound - 1)
      && o.tryMatch(rules[rk].entry, facts[fk].entry) == Some(c)
  }

  /**
   * Every entry that is not a seed was derived, in the round before the one
   * it is tagged with, from entries introduced earlier.
   */
  predicate Grounded<E(==)>(o: Oracle<E>, rules: Store<E>, facts: Store<E>) {
    (forall k {:trigger DerivedBefore(o, rules[k].entry, rules, facts, rules[k].cycle)} |
       k in rules && rules[k].cycle >= 0 :: DerivedBefore(o, rules[k].entry, rules, facts, rules[k].cycle))
    && (forall k {:trigger DerivedBefore(o, facts[k].entry, rules, facts, facts[k].cycle)} |
       k in facts && facts[k].cycle >= 0 :: DerivedBefore(o, facts[k].entry, rules, facts, facts[k].cycle))
  }

  /** `c` was the match of an active pair in round `cycle`. */
  predicate Candidate<E(==)>(o: Oracle<E>, c: E, rules: Store<E>, facts: Store<E>, cycle: int) {
    exists rk, fk | rk in rules && fk in facts ::
      Active(rules[rk].cycle, facts[fk].cycle, cycle) && o.tryMatch(rules[rk].entry, facts[fk].entry) == Some(c)
  }

  /** Staged entries of one kind: filed under their key, new to the store, and candidates of the round. */
  predicate StagedSound<E(==)>(o: Oracle<E>, staged: map<string, E>, rulesKind: bool, committed: Store<E>,
                           rules: Store<E>, facts: Store<E>, cycle: int) {
    forall k | k in staged ::
      o.key(staged[k]) == k && IsRule(o, staged[k]) == rulesKind && k !in committed
      && Candidate(o, staged[k], rules, facts, cycle)
  }

  /** `c` is in the store or in the staging map of its kind. */
  predicate Covered<E>(o: Oracle<E>, c: E, rules: Store<E>, facts: Store<E>,
                       stagedRules: map<string, E>, stagedFacts: map<string, E>) {
    if IsRule(o, c) then o.key(c) in rules || o.key(c) in stagedRules
    else o.key(c) in facts || o.key(c) in stagedFacts
  }

  /** Every active pair's match is covered. */
  predicate RoundComplete<E>(o: Oracle<E>, rules: Store<E>, facts: Store<E>, cycle: int,
                             stagedRules: map<string, E>, stagedFacts: map<string, E>) {
    forall rk, fk {:trigger o.tryMatch(rules[rk].entry, facts[fk].entry)} |
      rk in rules && fk in facts && Active(rules[rk].cycle, facts[fk].cycle, cycle)
      && o.tryMatch(rules[rk].entry, facts[fk].entry).Some? ::
      Covered(o, o.tryMatch(rules[rk].entry, facts[fk].entry).value, rules, facts, stagedRules, stagedFacts)
  }

  /** `c` is the staged entry under its key in the staging map of its kind. */
  predicate InStaging<E(==)>(o: Oracle<E>, c: E, stagedRules: map<string, E>, stagedFacts: map<string, E>) {
    if IsRule(o, c) then o.key(c) in stagedRules && stagedRules[o.key(c)] == c
    else o.key(c) in stagedFacts && stagedFacts[o.key(c)] == c
  }

  predicate SameSlot<E>(o: Oracle<E>, a: E, b: E) {
    IsRule(o, a) == IsRule(o, b) && o.key(a) == o.key(b)
  }

  /** The callback sequence lists each staged entry exactly once. */
  predicate ReportsStaging<E(==)>(o: Oracle<E>, derived: seq<E>, stagedRules: map<string, E>, stagedFacts: map<string, E>) {
    |derived| == |stagedRules| + |stagedFacts|
    && (forall i | 0 <= i < |derived| :: InStaging(o, derived[i], stagedRules, stagedFacts))
    && (forall i, j | 0 <= i < j < |derived| :: !SameSlot(o, derived[i], derived[j]))
  }

  /** The scan of `main` hit its target: a novel fact with the target key, matched in this round. */
  predicate Hit<E(==)>(o: Oracle<E>, c: E, target: Option<string>, rules: Store<E>, facts: Store<E>, cycle: int) {
    target == Some(o.key(c)) && !IsRule(o, c) && o.key(c) !in facts && Candidate(o, c, rules, facts, cycle)
  }

  /** What the scan keeps true of its staging maps and its report at every step. */
  predicate StagingOk<E(==)>(o: Oracle<E>, rules: Store<E>, facts: Store<E>, cycle: int, target: Option<string>,
                              stagedRules: map<string, E>, stagedFacts: map<string, E>, derived: seq<E>) {
    StagedSound(o, stagedRules, true, rules, rules, facts, cycle)
    && StagedSound(o, stagedFacts, false, facts, rules, facts, cycle)
    && ReportsStaging(o, derived, stagedRules, stagedFacts)
    && (target.Some? ==> target.value !in stagedFacts)
  }

  /** The match of rule `rk` and fact `fk`, if the pair is active and matches, is covered. */
  predicate PairCovered<E>(o: Oracle<E>, rules: Store<E>, facts: Store<E>, cycle: int, rk: string, fk: string,
                           stagedRules: map<string, E>, stagedFacts: map<string, E>) {
    rk in rules && fk in facts
    && (Active(rules[rk].cycle, facts[fk].cycle, cycle) && o.tryMatch(rules[rk].entry, facts[fk].entry).Some? ==>
          Covered(o, o.tryMatch(rules[rk].entry, facts[fk].entry).value, rules, facts, stagedRules, stagedFacts))
  }

  /** Every fact still `pending` aside, the pairs of rule `rk` with the stored facts are covered. */
  predicate RowCovered<E>(o: Oracle<E>, rules: Store<E>, facts: Store<E>, cycle: int, rk: string, pending: set<string>,
                          stagedRules: map<string, E>, stagedFacts: map<string, E>) {
    forall fk | fk in facts && fk !in pending :: PairCovered(o, rules, facts, cycle, rk, fk, stagedRules, stagedFacts)
  }

  /** Every rule still `pending` aside, the rows of the stored rules are covered. */
  predicate RowsCovered<E>(o: Oracle<E>, rules: Store<E>, facts: Store<E>, cycle: int, pending: set<string>,
                           stagedRules: map<string, E>, stagedFacts: map<string, E>) {
    forall rk | rk in rules && rk !in pending :: RowCovered(o, rules, facts, cycle, rk, {}, stagedRules, stagedFacts)
  }

  /** Coverage survives the staging maps growing. */
  lemma RowCoveredGrow<E>(o: Oracle<E>, rules: Store<E>, facts: Store<E>, cycle: int, rk: string, pending: set<string>,
                          sr: map<string, E>, sf: map<string, E>, sr': map<string, E>, sf': map<string, E>)
    requires RowCovered(o, rules, facts, cycle, rk, pending, sr, sf)
    requires sr.Keys <= sr'.Keys && sf.Keys <= sf'.Keys
    ensures RowCovered(o, rules, facts, cycle, rk, pending, sr', sf')
  {
    forall fk | fk in facts && fk !in pending ensures PairCovered(o, rules, facts, cycle, rk, fk, sr', sf') {
      assert PairCovered(o, rules, facts, cycle, rk, fk, sr, sf);
    }
  }

  /** Coverage of a row so far survives the staging maps growing, and extends by one covered pair. */
  lemma RowStep<E>(o: Oracle<E>, rules: Store<E>, facts: Store<E>, cycle: int, rk: string, pending: set<string>, fk: string,
                   sr: map<string, E>, sf: map<string, E>, sr': map<string, E>, sf': map<string, E>)
    requires RowCovered(o, rules, facts, cycle, rk, pending, sr, sf)
    requires sr.Keys <= sr'.Keys && sf.Keys <= sf'.Keys
    requires PairCovered(o, rules, facts, cycle, rk, fk, sr', sf')
    ensures RowCovered(o, rules, facts, cycle, rk, pending - {fk}, sr', sf')
  {
    RowCoveredGrow(o, rules, facts, cycle, rk, pending, sr, sf, sr', sf');
  }

  lemma RowsStep<E>(o: Oracle<E>, rules: Store<E>, facts: Store<E>, cycle: int, pending: set<string>, rk: string,
                    sr: map<string, E>, sf: map<string, E>, sr': map<string, E>, sf': map<string, E>)
    requires RowsCovered(o, rules, facts, cycle, pending, sr, sf)
    requires sr.Keys <= sr'.Keys && sf.Keys <= sf'.Keys
    requires RowCovered(o, rules, facts, cycle, rk, {}, sr', sf')
    ensures RowsCovered(o, rules, facts, cycle, pending - {rk}, sr', sf')
  {
    forall rk | rk in rules && rk !in pending ensures RowCovered(o, rules, facts, cycle, rk, {}, sr', sf') {
      RowCoveredGrow(o, rules, facts, cycle, rk, {}, sr, sf, sr', sf');
    }
  }

  /** Covering every row of every rule is covering the round. */
  lemma RowsCoverRound<E>(o: Oracle<E>, rules: Store<E>, facts: Store<E>, cycle: int,
                          sr: map<string, E>, sf: map<string, E>)
    requires RowsCovered(o, rules, facts, cycle, {}, sr, sf)
    ensures RoundComplete(o, rules, facts, cycle, sr, sf)
  {
    forall rk, fk | rk in rules && fk in facts && Active(rules[rk].cycle, facts[fk].cycle, cycle)
                    && o.tryMatch(rules[rk].entry, facts[fk].entry).Some?
      ensures Covered(o, o.tryMatch(rules[rk].entry, facts[fk].entry).value, rules, facts, sr, sf)
    {
      assert RowCovered(o, rules, facts, cycle, rk, {}, sr, sf);
      assert PairCovered(o, rules, facts, cycle, rk, fk, sr, sf);
    }
  }

  /** The two nested loops of one round over the stores as values. */
  method ScanRound<E(==)>(oracle: Oracle<E>, rules: Store<E>, facts: Store<E>, cycle: int, target: Option<string>)
    returns (found: Option<E>, stagedRules: map<string, E>, stagedFacts: map<string, E>, derived: seq<E>)
    ensures StagingOk(oracle, rules, facts, cycle, target, stagedRules, stagedFacts, derived)
    ensures found.None? ==> RoundComplete(oracle, rules, facts, cycle, stagedRules, stagedFacts)
    ensures found.Some? ==> Hit(oracle, found.value, target, rules, facts, cycle)
    ensures target.None? ==> found.None?
  {
    found, stagedRules, stagedFacts, derived := None, map[], map[], [];
    var pending := rules.Keys;
    while pending != {}
      invariant pending <= rules.Keys
      invariant StagingOk(oracle, rules, facts, cycle, target, stagedRules, stagedFacts, derived)
      invariant RowsCovered(oracle, rules, facts, cycle, pending, stagedRules, stagedFacts)
      invariant found.None?
      decreases pending
    {
      var rk :| rk in pending;
      ghost var sr, sf := stagedRules, stagedFacts;
      found, stagedRules, stagedFacts, derived := ScanRow(oracle, rules, facts, cycle, rk, target, stagedRules, stagedFacts, derived);
      if found.Some? {
        return;
      }
      RowsStep(oracle, rules, facts, cycle, pending, rk, sr, sf, stagedRules, stagedFacts);
      pending := pending - {rk};
    }
    RowsCoverRound(oracle, rules, facts, cycle, stagedRules, stagedFacts);
  }

  /** The inner loop of the scan: rule `rk` against every fact. */
  method ScanRow<E(==)>(oracle: Oracle<E>, rules: Store<E>, facts: Store<E>, cycle: int, rk: string, target: Option<string>, stagedRules: map<string, E>, stagedFacts: map<string, E>, derived: seq<E>)
    returns (found: Option<E>, stagedRules': map<string, E>, stagedFacts': map<string, E>, derived': seq<E>)
    requires rk in rules
    requires StagingOk(oracle, rules, facts, cycle, target, stagedRules, stagedFacts, derived)
    ensures StagingOk(oracle, rules, facts, cycle, target, stagedRules', stagedFacts', derived')
    ensures stagedRules.Keys <= stagedRules'.Keys && stagedFacts.Keys <= stagedFacts'.Keys
    ensures found.None? ==> RowCovered(oracle, rules, facts, cycle, rk, {}, stagedRules', stagedFacts')
    ensures found.Some? ==> Hit(oracle, found.value, target, rules, facts, cycle)
    ensures target.None? ==> found.None?
  {
    found, stagedRules', stagedFacts', derived' := None, stagedRules, stagedFacts, derived;
    var pending := facts.Keys;
    while pending != {}
      invariant pending <= facts.Keys
      invariant RowProgress(oracle, rules, facts, cycle, rk, target, stagedRules, stagedFacts, pending, stagedRules', stagedFacts', derived')
      invariant found.None?
      decreases pending
    {
      var fk :| fk in pending;
      ghost var sr, sf := stagedRules', stagedFacts';
      found, stagedRules', stagedFacts', derived' := TryPair(oracle, rules, facts, cycle, rk, fk, target, stagedRules', stagedFacts', derived');
      if found.Some? {
        return;
      }
      RowProgressStep(oracle, rules, facts, cycle, rk, target, stagedRules, stagedFacts, pending, fk, sr, sf, stagedRules', stagedFacts', derived');
      pending := pending - {fk};
    }
  }

  /** What the inner loop keeps: sound staging, growing maps, and the pairs outside `pending` covered. */
  predicate RowProgress<E(==)>(o: Oracle<E>, rules: Store<E>, facts: Store<E>, cycle: int, rk: string, target: Option<string>,
                               sr0: map<string, E>, sf0: map<string, E>, pending: set<string>,
                               sr: map<string, E>, sf: map<string, E>, derived: seq<E>) {
    StagingOk(o, rules, facts, cycle, target, sr, sf, derived)
    && sr0.Keys <= sr.Keys && sf0.Keys <= sf.Keys
    && RowCovered(o, rules, facts, cycle, rk, pending, sr, sf)
  }

  lemma RowProgressStep<E>(o: Oracle<E>, rules: Store<E>, facts: Store<E>, cycle: int, rk: string, target: Option<string>,
                           sr0: map<string, E>, sf0: map<string, E>, pending: set<string>, fk: string,
                           sr: map<string, E>, sf: map<string, E>, sr': map<string, E>, sf': map<string, E>, derived': seq<E>)
    requires RowCovered(o, rules, facts, cycle, rk, pending, sr, sf) && sr0.Keys <= sr.Keys && sf0.Keys <= sf.Keys
    requires StagingOk(o, rules, facts, cycle, target, sr', sf', derived')
    requires sr.Keys <= sr'.Keys && sf.Keys <= sf'.Keys
    requires PairCovered(o, rules, facts, cycle, rk, fk, sr', sf')
    ensures RowProgress(o, rules, facts, cycle, rk, target, sr0, sf0, pending - {fk}, sr', sf', derived')
  {
    RowStep(o, rules, facts, cycle, rk, pending, fk, sr, sf, sr', sf');
  }

  /** The body of the inner loop: one (rule, fact) pair. */
  method TryPair<E(==)>(oracle: Oracle<E>, rules: Store<E>, facts: Store<E>, cycle: int, rk: string, fk: string, target: Option<string>,
                 stagedRules: map<string, E>, stagedFacts: map<string, E>, derived: seq<E>)
    returns (found: Option<E>, stagedRules': map<string, E>, stagedFacts': map<string, E>, derived': seq<E>)
    requires rk in rules && fk in facts
    requires StagingOk(oracle, rules, facts, cycle, target, stagedRules, stagedFacts, derived)
    ensures StagingOk(oracle, rules, facts, cycle, target, stagedRules', stagedFacts', derived')
    ensures stagedRules.Keys <= stagedRules'.Keys && stagedFacts.Keys <= stagedFacts'.Keys
    ensures found.None? ==> PairCovered(oracle, rules, facts, cycle, rk, fk, stagedRules', stagedFacts')
    ensures found.Some? ==> Hit(oracle, found.value, target, rules, facts, cycle)
    ensures target.None? ==> found.None?
    ensures !Active(rules[rk].cycle, facts[fk].cycle, cycle) || oracle.tryMatch(rules[rk].entry, facts[fk].entry).None? ==>
              found.None? && stagedRules' == stagedRules && stagedFacts' == stagedFacts && derived' == derived
    ensures derived' == derived
            || (oracle.tryMatch(rules[rk].entry, facts[fk].entry).Some?
                && derived' == derived + [oracle.tryMatch(rules[rk].entry, facts[fk].entry).value])
  {
    found, stagedRules', stagedFacts', derived' := None, stagedRules, stagedFacts, derived;
    var Tagged(rule, ruleCycle) := rules[rk];
    var Tagged(fact, factCycle) := facts[fk];
    if ruleCycle != cycle && factCycle != cycle {
      return;
    }
    var m := oracle.tryMatch(rule, fact);
    if m.None? {
      return;
    }
    var candidate := m.value;
    var h := oracle.key(candidate);
    assert Candidate(oracle, candidate, rules, facts, cycle);
    if oracle.length(candidate) != 0 {
      if h in rules || h in stagedRules {
        return;
      }
      stagedRules' := stagedRules[h := candidate];
      StageRule(oracle, rules, facts, cycle, target, stagedRules, stagedFacts, derived, candidate);
    } else {
      if h in facts || h in stagedFacts {
        return;
      }
      if target == Some(h) {
        found := Some(candidate);
        return;
      }
      stagedFacts' := stagedFacts[h := candidate];
      StageFact(oracle, rules, facts, cycle, target, stagedRules, stagedFacts, derived, candidate);
    }
    derived' := derived + [candidate];
    assert oracle.key(candidate) in stagedRules' || oracle.key(candidate) in stagedFacts';
  }

  /** Staging a new rule candidate keeps the staging sound and the report exact. */
  lemma StageRule<E>(o: Oracle<E>, rules: Store<E>, facts: Store<E>, cycle: int, target: Option<string>,
                     sr: map<string, E>, sf: map<string, E>, derived: seq<E>, c: E)
    requires StagingOk(o, rules, facts, cycle, target, sr, sf, derived)
    requires Candidate(o, c, rules, facts, cycle)
    requires IsRule(o, c) && o.key(c) !in rules && o.key(c) !in sr
    ensures StagingOk(o, rules, facts, cycle, target, sr[o.key(c) := c], sf, derived + [c])
  {
    ReportStep(o, derived, sr, sf, sr[o.key(c) := c], sf, c);
  }

  /** Staging a new fact candidate that is not the target keeps the staging sound and the report exact. */
  lemma StageFact<E>(o: Oracle<E>, rules: Store<E>, facts: Store<E>, cycle: int, target: Option<string>,
                     sr: map<string, E>, sf: map<string, E>, derived: seq<E>, c: E)
    requires StagingOk(o, rules, facts, cycle, target, sr, sf, derived)
    requires Candidate(o, c, rules, facts, cycle)
    requires !IsRule(o, c) && o.key(c) !in facts && o.key(c) !in sf && target != Some(o.key(c))
    ensures StagingOk(o, rules, facts, cycle, target, sr, sf[o.key(c) := c], derived + [c])
  {
    ReportStep(o, derived, sr, sf, sr, sf[o.key(c) := c], c);
  }

  /** The report stays exact when `c` is appended and filed in a slot that was free. */
  lemma ReportStep<E>(o: Oracle<E>, derived: seq<E>, sr: map<string, E>, sf: map<string, E>,
                      sr': map<string, E>, sf': map<string, E>, c: E)
    requires ReportsStaging(o, derived, sr, sf)
    requires if IsRule(o, c) then o.key(c) !in sr && sr' == sr[o.key(c) := c] && sf' == sf
             else o.key(c) !in sf && sf' == sf[o.key(c) := c] && sr' == sr
    ensures ReportsStaging(o, derived + [c], sr', sf')
  {
    var d := derived + [c];
    forall i | 0 <= i < |d| ensures InStaging(o, d[i], sr', sf') {
      if i < |derived| {
        assert InStaging(o, derived[i], sr, sf);
      }
    }
    forall i, j | 0 <= i < j < |d| ensures !SameSlot(o, d[i], d[j]) {
      if j < |derived| {
        assert !SameSlot(o, derived[i], derived[j]);
      } else {
        assert InStaging(o, derived[i], sr, sf);
      }
    }
  }


  /** Entries tagged with round `cycle`. */
  function TagAll<E>(staged: map<string, E>, cycle: int): (r: Store<E>)
    ensures r.Keys == staged.Keys
    ensures forall k | k in r :: r[k] == Tagged(staged[k], cycle)
  {
    map k | k in staged :: Tagged(staged[k], cycle)
  }

  /** The seed store of one kind after reading `inputs` in order; a later input with the same key replaces an earlier one. */
  function Seed<E>(o: Oracle<E>, inputs: seq<string>, rulesKind: bool): Store<E>
    decreases |inputs|
  {
    if inputs == [] then map[]
    else
      var e := o.parse(inputs[|inputs| - 1]);
      var earlier := Seed(o, inputs[..|inputs| - 1], rulesKind);
      if IsRule(o, e) == rulesKind then earlier[o.key(e) := Tagged(e, -1)] else earlier
  }

  /** The seed store of a kind holds exactly the keys of the inputs of that kind. */
  lemma {:induction false} SeedKeys<E>(o: Oracle<E>, inputs: seq<string>, rulesKind: bool, k: string)
    ensures k in Seed(o, inputs, rulesKind) <==>
            exists i | 0 <= i < |inputs| :: IsRule(o, o.parse(inputs[i])) == rulesKind && o.key(o.parse(inputs[i])) == k
    decreases |inputs|
  {
    if inputs != [] {
      var n := |inputs| - 1;
      var prefix := inputs[..n];
      SeedKeys(o, prefix, rulesKind, k);
      assert forall i | 0 <= i < n :: inputs[i] == prefix[i];
    }
  }

  /** The entry under a key is the last input of that kind and key: a later seed replaces an earlier one. */
  lemma {:induction false} SeedLatest<E>(o: Oracle<E>, inputs: seq<string>, rulesKind: bool, i: nat)
    requires i < |inputs| && IsRule(o, o.parse(inputs[i])) == rulesKind
    requires forall j | i < j < |inputs| :: !(IsRule(o, o.parse(inputs[j])) == rulesKind && o.key(o.parse(inputs[j])) == o.key(o.parse(inputs[i])))
    ensures o.key(o.parse(inputs[i])) in Seed(o, inputs, rulesKind)
    ensures Seed(o, inputs, rulesKind)[o.key(o.parse(inputs[i]))] == Tagged(o.parse(inputs[i]), -1)
    decreases |inputs|
  {
    var n := |inputs| - 1;
    if i < n {
      var prefix := inputs[..n];
      assert forall j | 0 <= j < n :: inputs[j] == prefix[j];
      SeedLatest(o, prefix, rulesKind, i);
    }
  }

  lemma {:induction false} SeedSound<E>(o: Oracle<E>, inputs: seq<string>, rulesKind: bool)
    ensures KeyConsistent(o, Seed(o, inputs, rulesKind))
    ensures TagsBounded(Seed(o, inputs, rulesKind), -1)
    ensures forall k | k in Seed(o, inputs, rulesKind) ::
              Seed(o, inputs, rulesKind)[k].cycle == -1 && IsRule(o, Seed(o, inputs, rulesKind)[k].entry) == rulesKind
    decreases |inputs|
  {
    if inputs != [] {
      SeedSound(o, inputs[..|inputs| - 1], rulesKind);
    }
  }

  /** `store[e.key()] = [e, -1]` for each of `entries` in turn. */
  function Filed<E(==)>(o: Oracle<E>, entries: seq<E>): (r: Store<E>)
    ensures r.Keys == set i | 0 <= i < |entries| :: o.key(entries[i])
    ensures KeyConsistent(o, r)
    ensures forall k | k in r :: r[k].cycle == -1 && r[k].entry in entries
  {
    if entries == [] then map[]
    else
      var e := entries[|entries| - 1];
      var prefix := entries[..|entries| - 1];
      var earlier := Filed(o, prefix);
      assert forall x | x in prefix :: x in entries;
      assert forall i | 0 <= i < |prefix| :: prefix[i] == entries[i];
      assert (set i | 0 <= i < |entries| :: o.key(entries[i]))
          == (set i | 0 <= i < |prefix| :: o.key(prefix[i])) + {o.key(e)};
      earlier[o.key(e) := Tagged(e, -1)]
  }

  /** `after` keeps every entry of `before`, and its other entries are the reported entities of one kind, tagged `cycle`. */
  predicate Grows<E(==)>(o: Oracle<E>, before: Store<E>, after: Store<E>, derived: seq<E>, rulesKind: bool, cycle: int) {
    (forall k | k in before :: k in after && after[k] == before[k])
    && (forall k | k in after && k !in before ::
          after[k].cycle == cycle && exists i | 0 <= i < |derived| :: derived[i] == after[k].entry)
    && (forall i | 0 <= i < |derived| && IsRule(o, derived[i]) == rulesKind ::
          o.key(derived[i]) in after && o.key(derived[i]) !in before && after[o.key(derived[i])] == Tagged(derived[i], cycle))
  }

  /** Committing a complete round keeps every pair older than the next round matched into the store. */
  lemma CommitKeepsSaturated<E>(o: Oracle<E>, rules: Store<E>, facts: Store<E>, cycle: int,
                                    sr: map<string, E>, sf: map<string, E>)
    requires TagsBounded(rules, cycle) && TagsBounded(facts, cycle)
    requires Saturated(o, rules, facts, cycle)
    requires StagedSound(o, sr, true, rules, rules, facts, cycle)
    requires StagedSound(o, sf, false, facts, rules, facts, cycle)
    requires RoundComplete(o, rules, facts, cycle, sr, sf)
    ensures Saturated(o, rules + TagAll(sr, cycle + 1), facts + TagAll(sf, cycle + 1), cycle + 1)
  {
    var nr, nf := rules + TagAll(sr, cycle + 1), facts + TagAll(sf, cycle + 1);
    forall rk, fk | rk in nr && fk in nf && nr[rk].cycle < cycle + 1 && nf[fk].cycle < cycle + 1
                    && o.tryMatch(nr[rk].entry, nf[fk].entry).Some?
      ensures Present(o, o.tryMatch(nr[rk].entry, nf[fk].entry).value, nr, nf)
    {
      assert rk !in sr && fk !in sf;
      assert nr[rk] == rules[rk] && nf[fk] == facts[fk];
      if !Active(rules[rk].cycle, facts[fk].cycle, cycle) {
        assert Present(o, o.tryMatch(rules[rk].entry, facts[fk].entry).value, rules, facts);
      } else {
        assert Covered(o, o.tryMatch(rules[rk].entry, facts[fk].entry).value, rules, facts, sr, sf);
      }
    }
  }

  /** A derivation from stored entries stays one when the stores grow. */
  lemma DerivedBeforeGrows<E>(o: Oracle<E>, c: E, rules: Store<E>, facts: Store<E>,
                                  nr: Store<E>, nf: Store<E>, bound: int)
    requires DerivedBefore(o, c, rules, facts, bound)
    requires forall k | k in rules :: k in nr && nr[k] == rules[k]
    requires forall k | k in facts :: k in nf && nf[k] == facts[k]
    ensures DerivedBefore(o, c, nr, nf, bound)
  {
    var rk, fk :| rk in rules && fk in facts
                  && rules[rk].cycle < bound && facts[fk].cycle < bound
                  && Active(rules[rk].cycle, facts[fk].cycle, bound - 1)
                  && o.tryMatch(rules[rk].entry, facts[fk].entry) == Some(c);
    assert nr[rk] == rules[rk] && nf[fk] == facts[fk];
  }

  /** A candidate of round `cycle` is derived before round `cycle + 1` in any larger store. */
  lemma CandidateDerived<E>(o: Oracle<E>, c: E, rules: Store<E>, facts: Store<E>, cycle: int,
                                nr: Store<E>, nf: Store<E>)
    requires TagsBounded(rules, cycle) && TagsBounded(facts, cycle)
    requires Candidate(o, c, rules, facts, cycle)
    requires forall k | k in rules :: k in nr && nr[k] == rules[k]
    requires forall k | k in facts :: k in nf && nf[k] == facts[k]
    ensures DerivedBefore(o, c, nr, nf, cycle + 1)
  {
    var rk, fk :| rk in rules && fk in facts
                  && Active(rules[rk].cycle, facts[fk].cycle, cycle)
                  && o.tryMatch(rules[rk].entry, facts[fk].entry) == Some(c);
    assert nr[rk] == rules[rk] && nf[fk] == facts[fk];
  }

  /** Committing keeps every non-seed entry derived from earlier ones. */
  lemma CommitKeepsGrounded<E>(o: Oracle<E>, rules: Store<E>, facts: Store<E>, cycle: int,
                                   sr: map<string, E>, sf: map<string, E>)
    requires TagsBounded(rules, cycle) && TagsBounded(facts, cycle)
    requires Grounded(o, rules, facts)
    requires StagedSound(o, sr, true, rules, rules, facts, cycle)
    requires StagedSound(o, sf, false, facts, rules, facts, cycle)
    ensures Grounded(o, rules + TagAll(sr, cycle + 1), facts + TagAll(sf, cycle + 1))
  {
    var nr, nf := rules + TagAll(sr, cycle + 1), facts + TagAll(sf, cycle + 1);
    assert forall k | k in rules :: k in nr && nr[k] == rules[k];
    assert forall k | k in facts :: k in nf && nf[k] == facts[k];
    forall k | k in nr && nr[k].cycle >= 0 ensures DerivedBefore(o, nr[k].entry, nr, nf, nr[k].cycle) {
      if k in sr {
        CandidateDerived(o, sr[k], rules, facts, cycle, nr, nf);
      } else {
        DerivedBeforeGrows(o, rules[k].entry, rules, facts, nr, nf, rules[k].cycle);
      }
    }
    forall k | k in nf && nf[k].cycle >= 0 ensures DerivedBefore(o, nf[k].entry, nr, nf, nf[k].cycle) {
      if k in sf {
        CandidateDerived(o, sf[k], rules, facts, cycle, nr, nf);
      } else {
        DerivedBeforeGrows(o, facts[k].entry, rules, facts, nr, nf, facts[k].cycle);
      }
    }
  }

  /** Once every entry is older than `bound`, saturation below `bound` is the fixpoint. */
  lemma SaturatedIsClosed<E>(o: Oracle<E>, rules: Store<E>, facts: Store<E>, bound: int)
    requires TagsBounded(rules, bound - 1) && TagsBounded(facts, bound - 1)
    requires Saturated(o, rules, facts, bound)
    ensures Closed(o, rules, facts)
  {
  }

  /** Every staged entry of one kind is in the report. */
  lemma StagedAllReported<E>(o: Oracle<E>, staged: map<string, E>, rulesKind: bool, committed: Store<E>,
                             rules: Store<E>, facts: Store<E>, cycle: int, sr: map<string, E>, sf: map<string, E>, derived: seq<E>)
    requires staged == if rulesKind then sr else sf
    requires StagedSound(o, staged, rulesKind, committed, rules, facts, cycle)
    requires ReportsStaging(o, derived, sr, sf)
    ensures forall k | k in staged :: exists i | 0 <= i < |derived| :: derived[i] == staged[k]
  {
    forall k | k in staged ensures exists i | 0 <= i < |derived| :: derived[i] == staged[k] {
      assert InStaging(o, staged[k], sr, sf);
      StagedIsReported(o, derived, sr, sf, staged[k]);
    }
  }

  /** Every reported entry of one kind is staged under its key, which is new to the store. */
  lemma ReportedAllStaged<E>(o: Oracle<E>, staged: map<string, E>, rulesKind: bool, committed: Store<E>,
                             rules: Store<E>, facts: Store<E>, cycle: int, sr: map<string, E>, sf: map<string, E>, derived: seq<E>)
    requires staged == if rulesKind then sr else sf
    requires StagedSound(o, staged, rulesKind, committed, rules, facts, cycle)
    requires ReportsStaging(o, derived, sr, sf)
    ensures forall i | 0 <= i < |derived| && IsRule(o, derived[i]) == rulesKind ::
              o.key(derived[i]) in staged && o.key(derived[i]) !in committed && staged[o.key(derived[i])] == derived[i]
  {
    forall i | 0 <= i < |derived| && IsRule(o, derived[i]) == rulesKind
      ensures o.key(derived[i]) in staged && o.key(derived[i]) !in committed && staged[o.key(derived[i])] == derived[i]
    {
      assert InStaging(o, derived[i], sr, sf);
    }
  }

  /** What a committed round adds to the store of one kind: exactly the reported entries of that kind, tagged with the new round. */
  lemma CommitGrows<E>(o: Oracle<E>, staged: map<string, E>, rulesKind: bool, committed: Store<E>, after: Store<E>,
                       rules: Store<E>, facts: Store<E>, cycle: int, sr: map<string, E>, sf: map<string, E>, derived: seq<E>)
    requires staged == if rulesKind then sr else sf
    requires StagedSound(o, staged, rulesKind, committed, rules, facts, cycle)
    requires ReportsStaging(o, derived, sr, sf)
    requires after == committed + TagAll(staged, cycle + 1)
    ensures Grows(o, committed, after, derived, rulesKind, cycle + 1)
  {
    var tagged := TagAll(staged, cycle + 1);
    assert forall k | k in committed :: k !in tagged;
    StagedAllReported(o, staged, rulesKind, committed, rules, facts, cycle, sr, sf, derived);
    ReportedAllStaged(o, staged, rulesKind, committed, rules, facts, cycle, sr, sf, derived);
  }

  /** Every staged entity is in the report: the report has one entry per staged slot and no slot twice. */
  lemma StagedIsReported<E>(o: Oracle<E>, derived: seq<E>, sr: map<string, E>, sf: map<string, E>, c: E)
    requires ReportsStaging(o, derived, sr, sf)
    requires InStaging(o, c, sr, sf)
    ensures exists i | 0 <= i < |derived| :: derived[i] == c
  {
    if forall i | 0 <= i < |derived| :: derived[i] != c {
      ReportMissesSlot(o, derived, sr, sf, sr.Keys, sf.Keys, c);
    }
  }

  /** The slot of `c` is among the rule slots `ruleSlots` or the fact slots `factSlots`. */
  predicate InSlots<E>(o: Oracle<E>, c: E, ruleSlots: set<string>, factSlots: set<string>) {
    if IsRule(o, c) then o.key(c) in ruleSlots else o.key(c) in factSlots
  }

  /** A report with no slot twice that misses a staged entity has fewer entries than there are slots. */
  lemma {:induction false} ReportMissesSlot<E>(o: Oracle<E>, derived: seq<E>, sr: map<string, E>, sf: map<string, E>,
                                               ruleSlots: set<string>, factSlots: set<string>, c: E)
    requires forall i | 0 <= i < |derived| :: InStaging(o, derived[i], sr, sf) && InSlots(o, derived[i], ruleSlots, factSlots)
    requires forall i, j | 0 <= i < j < |derived| :: !SameSlot(o, derived[i], derived[j])
    requires InStaging(o, c, sr, sf) && InSlots(o, c, ruleSlots, factSlots)
    requires forall i | 0 <= i < |derived| :: derived[i] != c
    ensures |derived| < |ruleSlots| + |factSlots|
    decreases |derived|
  {
    if derived == [] {
      if IsRule(o, c) {
        assert |ruleSlots - {o.key(c)}| == |ruleSlots| - 1;
      } else {
        assert |factSlots - {o.key(c)}| == |factSlots| - 1;
      }
    } else {
      var n := |derived| - 1;
      var d := derived[n];
      var prefix := derived[..n];
      assert forall i | 0 <= i < n :: prefix[i] == derived[i];
      assert forall i | 0 <= i < n :: !SameSlot(o, prefix[i], d);
      assert !SameSlot(o, c, d);
      if IsRule(o, d) {
        var rs := ruleSlots - {o.key(d)};
        assert forall i | 0 <= i < n :: InSlots(o, prefix[i], rs, factSlots);
        ReportMissesSlot(o, prefix, sr, sf, rs, factSlots, c);
      } else {
        var fs := factSlots - {o.key(d)};
        assert forall i | 0 <= i < n :: InSlots(o, prefix[i], ruleSlots, fs);
        ReportMissesSlot(o, prefix, sr, sf, ruleSlots, fs, c);
      }
    }
  }

  /** What holds between rounds: filing, tag bounds, saturation below the current round, and grounding. */
  ghost predicate EngineInv<E>(o: Oracle<E>, rules: Store<E>, facts: Store<E>, cycle: int) {
    cycle >= -1
    && KeyConsistent(o, rules) && KeyConsistent(o, facts)
    && TagsBounded(rules, cycle) && TagsBounded(facts, cycle)
    && Saturated(o, rules, facts, cycle)
    && Grounded(o, rules, facts)
  }

  /** Committing a complete, sound round keeps the invariant under the next round number. */
  lemma CommitKeepsInv<E>(o: Oracle<E>, rules: Store<E>, facts: Store<E>, cycle: int, sr: map<string, E>, sf: map<string, E>,
                          nr: Store<E>, nf: Store<E>)
    requires EngineInv(o, rules, facts, cycle)
    requires StagedSound(o, sr, true, rules, rules, facts, cycle)
    requires StagedSound(o, sf, false, facts, rules, facts, cycle)
    requires RoundComplete(o, rules, facts, cycle, sr, sf)
    requires nr == rules + TagAll(sr, cycle + 1) && nf == facts + TagAll(sf, cycle + 1)
    ensures EngineInv(o, nr, nf, cycle + 1)
  {
    CommitKeepsSaturated(o, rules, facts, cycle, sr, sf);
    CommitKeepsGrounded(o, rules, facts, cycle, sr, sf);
    CommitKeepsTags(o, sr, true, rules, rules, facts, cycle);
    CommitKeepsTags(o, sf, false, facts, rules, facts, cycle);
  }

  /** The commit loop of one kind: `store[e.key()] = [e, cycle]` for every staged entry `e`. */
  method CommitKind<E>(oracle: Oracle<E>, store: Store<E>, staged: map<string, E>, cycle: int) returns (store': Store<E>)
    requires forall k | k in staged :: oracle.key(staged[k]) == k
    ensures store' == store + TagAll(staged, cycle)
  {
    store' := store;
    var keys, done := staged.Keys, {};
    while keys != {}
      invariant keys + done == staged.Keys && keys !! done
      invariant store'.Keys == store.Keys + done
      invariant forall k | k in store' :: store'[k] == if k in done then Tagged(staged[k], cycle) else store[k]
      decreases keys
    {
      var k :| k in keys;
      var e := staged[k];
      store' := store'[oracle.key(e) := Tagged(e, cycle)];
      keys, done := keys - {k}, done + {k};
    }
  }

  /** Committing staged entries keeps the store filed under keys and its tags at most the new round. */
  lemma CommitKeepsTags<E>(o: Oracle<E>, staged: map<string, E>, rulesKind: bool, store: Store<E>,
                           rules: Store<E>, facts: Store<E>, cycle: int)
    requires KeyConsistent(o, store) && TagsBounded(store, cycle) && cycle >= -1
    requires StagedSound(o, staged, rulesKind, store, rules, facts, cycle)
    ensures KeyConsistent(o, store + TagAll(staged, cycle + 1))
    ensures TagsBounded(store + TagAll(staged, cycle + 1), cycle + 1)
  {
    var after := store + TagAll(staged, cycle + 1);
    forall k | k in after ensures o.key(after[k].entry) == k && -1 <= after[k].cycle <= cycle + 1 {
      if k in staged {
        assert after[k] == Tagged(staged[k], cycle + 1);
      }
    }
  }

  /** Every reported entry is the match of an active pair of the round. */
  lemma ReportedAreCandidates<E>(o: Oracle<E>, rules: Store<E>, facts: Store<E>, cycle: int,
                                 sr: map<string, E>, sf: map<string, E>, derived: seq<E>)
    requires StagedSound(o, sr, true, rules, rules, facts, cycle)
    requires StagedSound(o, sf, false, facts, rules, facts, cycle)
    requires ReportsStaging(o, derived, sr, sf)
    ensures forall i | 0 <= i < |derived| :: Candidate(o, derived[i], rules, facts, cycle)
  {
    forall i | 0 <= i < |derived| ensures Candidate(o, derived[i], rules, facts, cycle) {
      assert InStaging(o, derived[i], sr, sf);
    }
  }

  /** The seeding loop of `search`: each input read as a rule or a fact and filed under its key, tagged -1. */
  method SeedStores<E>(oracle: Oracle<E>, inputs: seq<string>) returns (rules: Store<E>, facts: Store<E>)
    ensures rules == Seed(oracle, inputs, true) && facts == Seed(oracle, inputs, false)
    ensures EngineInv(oracle, rules, facts, -1)
  {
    rules, facts := map[], map[];
    var i := 0;
    while i < |inputs|
      invariant 0 <= i <= |inputs|
      invariant rules == Seed(oracle, inputs[..i], true) && facts == Seed(oracle, inputs[..i], false)
    {
      var e := oracle.parse(inputs[i]);
      assert inputs[..i + 1][..i] == inputs[..i];
      if oracle.length(e) != 0 {
        rules := rules[oracle.key(e) := Tagged(e, -1)];
      } else {
        facts := facts[oracle.key(e) := Tagged(e, -1)];
      }
      i := i + 1;
    }
    assert inputs[..i] == inputs;
    SeedSound(oracle, inputs, true);
    SeedSound(oracle, inputs, false);
  }

  /** The commit of one round: the staged entries enter the stores under the next round number. */
  method Commit<E(==)>(oracle: Oracle<E>, rules: Store<E>, facts: Store<E>, cycle: int,
                       stagedRules: map<string, E>, stagedFacts: map<string, E>)
    returns (rules': Store<E>, facts': Store<E>)
    requires EngineInv(oracle, rules, facts, cycle)
    requires StagedSound(oracle, stagedRules, true, rules, rules, facts, cycle)
    requires StagedSound(oracle, stagedFacts, false, facts, rules, facts, cycle)
    requires RoundComplete(oracle, rules, facts, cycle, stagedRules, stagedFacts)
    ensures rules' == rules + TagAll(stagedRules, cycle + 1) && facts' == facts + TagAll(stagedFacts, cycle + 1)
    ensures EngineInv(oracle, rules', facts', cycle + 1)
  {
    rules' := CommitKind(oracle, rules, stagedRules, cycle + 1);
    facts' := CommitKind(oracle, facts, stagedFacts, cycle + 1);
    CommitKeepsInv(oracle, rules, facts, cycle, stagedRules, stagedFacts, rules', facts');
  }

  /** The report of a round lists each (kind, key) slot at most once. */
  predicate DistinctSlots<E>(o: Oracle<E>, s: seq<E>) {
    forall i, j | 0 <= i < j < |s| :: !SameSlot(o, s[i], s[j])
  }

  /** `c` is the entry filed under its key in the store of its kind. */
  predicate Stored<E(==)>(o: Oracle<E>, c: E, rules: Store<E>, facts: Store<E>) {
    if IsRule(o, c) then o.key(c) in rules && rules[o.key(c)].entry == c
    else o.key(c) in facts && facts[o.key(c)].entry == c
  }

  /** Committing an empty staging map leaves the store as it was. */
  lemma NothingStaged<E>(store: Store<E>, staged: map<string, E>, after: Store<E>, cycle: int)
    requires |staged| == 0 && after == store + TagAll(staged, cycle)
    ensures after == store
  {
    assert staged.Keys == {};
  }

  /**
   * One pass of the `while (true)` body of `search`: the scan with the
   * callback, `cycle++`, the commit; `derived` is the callbacks' arguments in
   * order, and an empty one is the `return`.
   */
  method Round<E(==)>(oracle: Oracle<E>, rules: Store<E>, facts: Store<E>, cycle: int)
    returns (rules': Store<E>, facts': Store<E>, derived: seq<E>)
    requires EngineInv(oracle, rules, facts, cycle)
    ensures EngineInv(oracle, rules', facts', cycle + 1)
    ensures RoundStep(oracle, rules, facts, cycle, rules', facts', derived)
    ensures derived == [] ==> rules' == rules && facts' == facts && Closed(oracle, rules', facts')
  {
    var found, sr, sf, d := ScanRound(oracle, rules, facts, cycle, None);
    rules', facts' := Commit(oracle, rules, facts, cycle, sr, sf);
    derived := d;
    RoundReports(oracle, rules, facts, cycle, sr, sf, rules', facts', derived);
    if derived == [] {
      QuietRoundCloses(oracle, rules, facts, cycle, sr, sf, rules', facts');
    }
  }

  /**
   * What one round reports: each store grows by exactly the reported entries
   * of its kind, every report is a match of the round, and no slot is
   * reported twice.
   */
  ghost predicate RoundStep<E>(o: Oracle<E>, rules: Store<E>, facts: Store<E>, cycle: int,
                               rules': Store<E>, facts': Store<E>, derived: seq<E>) {
    Grows(o, rules, rules', derived, true, cycle + 1)
    && Grows(o, facts, facts', derived, false, cycle + 1)
    && (forall i | 0 <= i < |derived| :: Candidate(o, derived[i], rules, facts, cycle))
    && DistinctSlots(o, derived)
  }

  /** A scanned and committed round is a `RoundStep`. */
  lemma RoundReports<E>(o: Oracle<E>, rules: Store<E>, facts: Store<E>, cycle: int,
                        sr: map<string, E>, sf: map<string, E>, rules': Store<E>, facts': Store<E>, derived: seq<E>)
    requires StagingOk(o, rules, facts, cycle, None, sr, sf, derived)
    requires rules' == rules + TagAll(sr, cycle + 1) && facts' == facts + TagAll(sf, cycle + 1)
    ensures RoundStep(o, rules, facts, cycle, rules', facts', derived)
  {
    ReportedAreCandidates(o, rules, facts, cycle, sr, sf, derived);
    CommitGrows(o, sr, true, rules, rules', rules, facts, cycle, sr, sf, derived);
    CommitGrows(o, sf, false, facts, facts', rules, facts, cycle, sr, sf, derived);
  }

  /** A round that stages nothing changes nothing and ends at the fixpoint. */
  lemma QuietRoundCloses<E>(o: Oracle<E>, rules: Store<E>, facts: Store<E>, cycle: int,
                            sr: map<string, E>, sf: map<string, E>, rules': Store<E>, facts': Store<E>)
    requires |sr| == 0 && |sf| == 0
    requires TagsBounded(rules, cycle) && TagsBounded(facts, cycle)
    requires rules' == rules + TagAll(sr, cycle + 1) && facts' == facts + TagAll(sf, cycle + 1)
    requires Saturated(o, rules', facts', cycle + 1)
    ensures rules' == rules && facts' == facts && Closed(o, rules', facts')
  {
    NothingStaged(rules, sr, rules', cycle + 1);
    NothingStaged(facts, sf, facts', cycle + 1);
    SaturatedIsClosed(o, rules', facts', cycle + 1);
  }

  /** Entries reported in earlier rounds stay stored, and a new round reports only slots no store held. */
  lemma ReportsAccumulate<E>(o: Oracle<E>, reported: seq<E>, derived: seq<E>, rules: Store<E>, facts: Store<E>,
                             nr: Store<E>, nf: Store<E>, cycle: int)
    requires forall i | 0 <= i < |reported| :: Stored(o, reported[i], rules, facts)
    requires DistinctSlots(o, reported) && DistinctSlots(o, derived)
    requires Grows(o, rules, nr, derived, true, cycle) && Grows(o, facts, nf, derived, false, cycle)
    ensures forall i | 0 <= i < |reported + derived| :: Stored(o, (reported + derived)[i], nr, nf)
    ensures DistinctSlots(o, reported + derived)
  {
    var all := reported + derived;
    forall i | 0 <= i < |all| ensures Stored(o, all[i], nr, nf) {
      if i < |reported| {
        assert all[i] == reported[i] && Stored(o, reported[i], rules, facts);
      } else {
        assert all[i] == derived[i - |reported|];
      }
    }
    forall i, j | 0 <= i < j < |all| ensures !SameSlot(o, all[i], all[j]) {
      if j < |reported| {
        assert all[i] == reported[i] && all[j] == reported[j];
      } else if i < |reported| {
        assert all[i] == reported[i] && Stored(o, reported[i], rules, facts);
        assert all[j] == derived[j - |reported|];
      } else {
        assert all[i] == derived[i - |reported|] && all[j] == derived[j - |reported|];
      }
    }
  }

  /**
   * The generator `search` driven by `steps` calls of `next()`: seeding, then
   * one round per call until a round reports nothing (`done`). `reported` is
   * every argument the callback received, in order.
   */
  method Search<E(==)>(oracle: Oracle<E>, inputs: seq<string>, steps: nat)
    returns (rules: Store<E>, facts: Store<E>, cycle: int, reported: seq<E>, done: bool)
    ensures EngineInv(oracle, rules, facts, cycle)
    ensures done ==> Closed(oracle, rules, facts)
    ensures cycle + 1 <= steps && (!done ==> cycle + 1 == steps)
    ensures forall k | k in Seed(oracle, inputs, true) :: k in rules && rules[k] == Seed(oracle, inputs, true)[k]
    ensures forall k | k in Seed(oracle, inputs, false) :: k in facts && facts[k] == Seed(oracle, inputs, false)[k]
    ensures forall i | 0 <= i < |reported| :: Stored(oracle, reported[i], rules, facts)
    ensures DistinctSlots(oracle, reported)
  {
    rules, facts := SeedStores(oracle, inputs);
    ghost var seedRules, seedFacts := rules, facts;
    cycle, reported, done := -1, [], false;
    var n := 0;
    while !done && n < steps
      invariant EngineInv(oracle, rules, facts, cycle)
      invariant done ==> Closed(oracle, rules, facts)
      invariant cycle + 1 == n <= steps
      invariant forall k | k in seedRules :: k in rules && rules[k] == seedRules[k]
      invariant forall k | k in seedFacts :: k in facts && facts[k] == seedFacts[k]
      invariant forall i | 0 <= i < |reported| :: Stored(oracle, reported[i], rules, facts)
      invariant DistinctSlots(oracle, reported)
      decreases steps - n
    {
      var nr, nf, derived := Round(oracle, rules, facts, cycle);
      ReportsAccumulate(oracle, reported, derived, rules, facts, nr, nf, cycle + 1);
      rules, facts, cycle, reported, done := nr, nf, cycle + 1, reported + derived, derived == [];
      n := n + 1;
    }
  }

  /**
   * The search loop of `main`: explicit seeds, the same rounds without a
   * callback, stopping at the first novel fact whose key is `target`'s.
   * The source loops until it finds one; `fuel` bounds the rounds.
   */
  method SearchTarget<E(==)>(oracle: Oracle<E>, seedRules: seq<E>, seedFacts: seq<E>, target: string, fuel: nat)
    returns (found: Option<E>, rounds: nat)
    ensures rounds <= fuel && (found.None? ==> rounds == fuel)
    ensures found.Some? ==> oracle.key(found.value) == target && !IsRule(oracle, found.value)
    ensures found.Some? ==> forall i | 0 <= i < |seedFacts| :: oracle.key(seedFacts[i]) != target
  {
    var rules, facts := Filed(oracle, seedRules), Filed(oracle, seedFacts);
    var cycle := -1;
    found, rounds := None, 0;
    while rounds < fuel
      invariant EngineInv(oracle, rules, facts, cycle)
      invariant cycle + 1 == rounds <= fuel
      invariant forall i | 0 <= i < |seedFacts| :: oracle.key(seedFacts[i]) in facts
      decreases fuel - rounds
    {
      var f, sr, sf, d := ScanRound(oracle, rules, facts, cycle, Some(target));
      if f.Some? {
        found := f;
        return;
      }
      rules, facts := Commit(oracle, rules, facts, cycle, sr, sf);
      cycle, rounds := cycle + 1, rounds + 1;
    }
  }
}
