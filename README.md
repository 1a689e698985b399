# DS core, modelled in Dafny

DS is a deductive system: rules and facts are terms, a rule matched with a
fact yields a new rule or fact, and a search closes a set of inputs under
matching. This project models the parts of the repository that are the
logic of that machinery, independently of its term library:

- **Search loops** (`examples/search.mjs`, `examples/engine.mjs`,
  `examples/main.mjs`), module `Search`. These are the semi-naive fixpoint
  searches: a store of rules and a store of facts, each entry tagged with
  the round (`cycle`) that introduced it. A round tries the (rule, fact)
  pairs with at least one side from the previous round, stages the matches
  that no store holds yet, reports them to the callback, and commits them
  under the next round number. `search` is a generator that stops after a
  round that reports nothing. `main` stops at the first new fact whose key
  is the target's. The term library (`rule_t`) is a parameter, `Oracle`.
- **E-graph** (`egg/apyds_egg/__init__.py`), module `Egg`. It has:
  - a union-find with path compression (class `UnionFind`, over a
    dictionary `parent`, with ghost chain ends and distances);
  - e-nodes and their canonical forms;
  - the e-graph (class `EGraph`): `add`, `merge`, `rebuild`, `repair`,
    the hash-cons, the parent records and the worklist. `rebuild` runs
    `repair` as written (`EGraph.RepairAsWritten`); the corrected repair
    (`EGraph.Repair`, see Findings) is a separate method.
- **Variable renaming** (`src/rename.cc`), module `Rename`:
  - `term_t::rename` and `rule_t::rename`, and the descriptor
    `((prefix) (suffix))` they read;
  - the result is a value, and failure (`nullptr`) is `None`.
- **Translators between the two notations** (`bnf/apyds_bnf/unparse.py` and
  its JavaScript port, `bnf/apyds_bnf/parse.py` and its TypeScript port):
  - modules `Unparse` (Ds to Dsp) and `Parse` (Dsp to Ds) are functions
    over parse trees;
  - module `RoundTrip` proves that what `Unparse` prints reads back through
    `Parse` as the Ds text of the original tree, for the parse tree taken
    for that text (the Dsp grammar is not part of this model);
  - `Parse.Reading` selects the visitor as written (`AsWritten`) or with
    the two misreadings listed under Findings corrected (`Corrected`).
- **Buffer-size setting** (`pyds/buffer_size.py`), module `BufferSize`:
  the module global becomes the field of a `Setting` object, with the
  getter/setter and the scoped override.

Map and set iteration order in the sources (JavaScript object keys, Python
sets) is left open: each loop picks any element it has not visited yet, and
every property is proved for all orders.

## Model

| member | source | states |
|---|---|---|
| BufferSize.Updated | pyds/buffer_size.py:14-15 | only a positive size replaces the setting; zero or a negative size leaves it unchanged |
| BufferSize.UpdatesStayPositive | pyds/buffer_size.py:8-16 | from a positive value, any sequence of `buffer_size` calls leaves the setting positive |
| BufferSize.ApplyAllSnoc | pyds/buffer_size.py:11-16 | one more call acts on the value the earlier calls left |
| BufferSize.Setting.constructor | pyds/buffer_size.py:8 | the setting starts at 1024 |
| BufferSize.Setting.BufferSize | pyds/buffer_size.py:11-16 | returns the value held before the call; the new value is the positive size, or the old value otherwise; the value stays positive |
| BufferSize.Setting.ScopedBufferSize | pyds/buffer_size.py:19-25 | the body runs with the setting updated by `size` and sees its own calls take effect in order; on exit, by return or by exception, the value saved on entry is back |
| Rename.ExtractPrefixSuffix | src/rename.cc:18-62 | succeeds exactly on a list of two lists, each empty or holding one item; the strings are the items' names, "" for an empty list |
| Rename.DescriptorRoundTrip | src/rename.cc:18-62 | the descriptor written for a prefix and a suffix extracts to that prefix and suffix |
| Rename.Renamed | src/rename.cc:73-131 | fails exactly when some subterm has a type tag other than variable, item or list; otherwise the shape is kept (items and list lengths unchanged), a variable becomes prefix + name + suffix, and a list's result is its elements' results, position by position |
| Rename.RenamedAll | src/rename.cc:111-127 | a list's elements are renamed one by one, in order; it fails exactly when one element fails |
| Rename.RenameTerm | src/rename.cc:133-143 | fails exactly on a malformed descriptor or an unhandled type tag; otherwise the shape of the term is kept and the result is the renaming with the descriptor's prefix and suffix |
| Rename.RenameByDescriptor | src/rename.cc:133-143 | renaming with the descriptor written for a prefix and a suffix adds exactly those to every variable |
| Rename.RenameRule | src/rename.cc:145-170 | fails exactly when the descriptor rule has premises, its conclusion is malformed, or a term of the rule fails; otherwise every premise and the conclusion are renamed with the same strings |
| Rename.RenameIdentity | src/rename.cc:83-103 | an empty prefix and an empty suffix change nothing |
| Rename.RenameCompose | src/rename.cc:83-127 | renaming twice is renaming once with the prefixes and the suffixes concatenated |
| Rename.RenameInjective | src/rename.cc:83-127 | with fixed affixes, distinct terms never rename to the same term |
| Rename.RenameWithStrings | src/rename.cc:73-131 | the recursive copy, with its loop over a list's elements, computes `Renamed` |
| Rename.TermRename | src/rename.cc:133-143 | extract once, then rename: computes `RenameTerm` |
| Rename.RuleRename | src/rename.cc:145-170 | the loop over the rule's terms computes `RenameRule` |
| Unparse.UnparseTerm | bnf/apyds_bnf/unparse.py:33-63 | a binary term prints inside parentheses; a subscript ends in "]" and a call in ")", and either prints "" when it has no terms. Partners: `RoundTrip.UnparseTokens` (less its spaces, the text is the token text of the Dsp tree) and `RoundTrip.TermRoundTrip` (Parse reads it back) |
| Unparse.UnparseAll | bnf/apyds_bnf/unparse.py:42 | one printed text per term from `from` on, in order, as the comprehensions over `terms[1:]` and over a rule's terms build them. Partner: `RoundTrip.ElementTokens` |
| Unparse.UnparseRule | bnf/apyds_bnf/unparse.py:20-31 | a rule without terms prints "", a lone term prints as that term alone, and a rule with premises has " -> " in its text. Partners: `RoundTrip.UnparseRuleTokens`, `RoundTrip.RuleRoundTrip` |
| Unparse.UnparsePool | bnf/apyds_bnf/unparse.py:14-18 | an empty pool prints "", and a pool of one rule prints that rule with no newline. Partner: `RoundTrip.PoolRoundTrip` |
| Unparse.UnparseTermExamples | bnf/python/tests/test_conversion.py:12-35 | `a`, `(a -> b)` and `! x` are the texts printed for the trees of the conversion tests |
| Unparse.UnparseCallExamples | bnf/python/tests/test_conversion.py:22-30 | `f(a, b)` and `arr[i, j]` are the texts printed for the call and the subscript of the conversion tests |
| Unparse.UnparseRuleExample | bnf/apyds_bnf/unparse.py:14-31 | a rule prints its premises joined by ", ", then " -> ", then its conclusion; an empty pool prints "" |
| RoundTrip.UnparseTokens | bnf/apyds_bnf/unparse.py:33-63 | the text printed for a term, less its spaces, is the token text of the Dsp tree `Lift(t)` |
| RoundTrip.UnparseRuleTokens | bnf/atsds_bnf/unparse.js:18-32 | the same for a rule: premises, commas, arrow, conclusion |
| RoundTrip.UnparseRuleShape | bnf/atsds_bnf/unparse.js:18-32 | what a rule with premises prints |
| RoundTrip.TermRoundTrip | bnf/apyds_bnf/parse.py:37-84 | parsing the tree of what Unparse prints gives the Ds text of the original term, in both ports |
| RoundTrip.SubscriptRoundTrip | bnf/apyds_bnf/parse.py:43-47 | a subscript reads back as `(subscript base indices...)` once its parts do |
| RoundTrip.FunctionRoundTrip | bnf/apyds_bnf/parse.py:49-56 | a function application reads back as `(function f args...)`, and as `(function f)` without arguments |
| RoundTrip.ElementsRoundTrip | bnf/javascript/src/parse.ts:46-62 | the indices or arguments read back one by one |
| RoundTrip.RuleRoundTrip | bnf/apyds_bnf/parse.py:20-35 | with the corrected reading, a printed rule reads back as its premises on lines, the dash line, the conclusion, including a rule of one premise, whose text is one binary `->` term; a fact reads back as its term |
| RoundTrip.OnePremiseRuleAsWritten | bnf/apyds_bnf/parse.py:20-35 | as written, the tree of a one-premise rule reads back as a rule without premises whose conclusion is the whole `p -> c` term |
| RoundTrip.OnePremiseRuleMisread | bnf/apyds_bnf/parse.py:27-32 | the rule with premise `a` and conclusion `c` prints as `a -> c` and reads back as the dash line over `(binary -> a c)`, while its Ds text is `a`, the dash line, `c` |
| RoundTrip.PoolRoundTrip | bnf/apyds_bnf/parse.py:14-18 | a printed pool reads back rule by rule, joined by newlines |
| Parse.Text | bnf/apyds_bnf/parse.py:28 | `getText()` of a term: when no token holds a space, neither does the text, since the tokens are joined without the whitespace the lexer skipped. Partner: `RoundTrip.UnparseTokens`, which equates it with the printed text less its spaces |
| Parse.RuleText | bnf/javascript/src/parse.ts:27 | the same for a rule: the premises' texts, commas, the arrow and the conclusion's text hold no space |
| Parse.ParseTerm | bnf/apyds_bnf/parse.py:37-84 | every term other than a symbol or a parenthesised term reads as one parenthesised s-expression. Partners: `RoundTrip.TermRoundTrip` (it inverts Unparse under the corrected reading), `Parse.PortsAgree`, `Parse.SearchFindsOperatorToken`, `Parse.ParseTermNonEmpty` |
| Parse.ParseAll | bnf/apyds_bnf/parse.py:25 | one output per term, in order, as the comprehensions over a rule's terms and over `terms[1:]` build them. Partner: `RoundTrip.ElementsRoundTrip` |
| Parse.ParseRule | bnf/apyds_bnf/parse.py:20-35 | a rule without terms gives ""; whenever the rule's text has an arrow, the output has the dash line. Partners: `Parse.PremisesGiveSeparator`, `Parse.FactIsItsTerm`, `Parse.LoneTermWithArrow`, `RoundTrip.RuleRoundTrip` |
| Parse.ParsePool | bnf/apyds_bnf/parse.py:14-18 | an empty pool gives "", and a pool of one rule gives that rule's output with no newline. Partner: `RoundTrip.PoolRoundTrip` |
| Parse.OperatorFound | bnf/apyds_bnf/parse.py:70-82 | the operator is the text of a child the loop's test accepts, or "" when it accepts none |
| Parse.FindOperator | bnf/javascript/src/parse.ts:77-92 | the loop stops at the first accepted child: it computes `OperatorFound` |
| Parse.OperatorOfBinary | bnf/apyds_bnf/parse.py:63-84 | on a binary node the loop returns the left operand's text when the test accepts it, and the operator token otherwise |
| Parse.ParseTermNonEmpty | bnf/apyds_bnf/parse.py:37-84 | with non-empty symbols, every term's output is non-empty |
| Parse.JoinEmpty | bnf/apyds_bnf/parse.py:52-55 | joining non-empty strings gives "" exactly for no strings |
| Parse.PortsAgree | bnf/javascript/src/parse.ts:53-62 | the Python test `if not args` and the TypeScript test `args.length === 0` give the same output on every tree whose symbols are non-empty, as the lexer makes them |
| Parse.PortsAgreeOnRules | bnf/javascript/src/parse.ts:18-36 | the two ports agree on rules |
| Parse.SearchFindsOperatorToken | bnf/apyds_bnf/parse.py:63-84 | when the left operand of every binary term is a symbol, a parenthesised term or a function application, the loop finds the operator token |
| Parse.SubscriptLeftOperandMisread | bnf/apyds_bnf/parse.py:70-82 | `a[i] + b` gives `(binary a[i] (subscript a i) b)` instead of `(binary + (subscript a i) b)` |
| Parse.PremisesGiveSeparator | bnf/apyds_bnf/parse.py:27-32 | a rule of two or more terms has an arrow in its text: its premises go on lines, then the dash line and the conclusion |
| Parse.FactIsItsTerm | bnf/apyds_bnf/parse.py:33-35 | a lone term without an arrow in its text gives its own output |
| Parse.ArrowTermGivesSeparator | bnf/apyds_bnf/parse.py:28-32 | as written, a lone term `l -> r` has an arrow in its text, so it is output as a rule with no premises |
| Parse.LoneTermWithArrow | bnf/apyds_bnf/parse.py:27-32 | a lone term with an arrow in its text, unless the corrected reading splits it, gives the dash line and its own output |
| Search.SeedStores | examples/search.mjs:11-18 | each input is filed, tagged -1, in the store of its kind under its key; the search invariant holds before the first round |
| Search.SeedKeys | examples/engine.mjs:33-40 | a key is in the seed store of a kind exactly when some input of that kind has that key |
| Search.SeedLatest | examples/search.mjs:11-18 | of two inputs with one kind and key, the later one is kept |
| Search.SeedSound | examples/search.mjs:11-18 | seed entries are filed under their own key, tagged -1, in the store of their kind |
| Search.Filed | examples/main.mjs:36-44 | the explicit seeds of `main` are filed under their keys, tagged -1 |
| Search.TryPair | examples/search.mjs:27-51 | a pair outside the semi-naive filter, or without a match, changes nothing; a new match is staged in the map of its kind and reported once; with a target, a new fact with the target key is returned and not staged |
| Search.ScanRow | examples/search.mjs:26-52 | after one rule meets every fact, each active pair's match is stored or staged, and the staging and the report stay sound |
| Search.ScanRound | examples/search.mjs:25-53 | after the two loops, each staged entry is a new match of an active pair, filed under its key; every active pair's match is stored or staged; the report lists each staged entry once; a target hit is a new fact with the target key |
| Search.CommitKind | examples/search.mjs:56-63 | the commit loop of one kind adds every staged entry, tagged with the new round, and keeps the rest |
| Search.Commit | examples/search.mjs:55-63 | the stores gain the staged entries under the next round number, and the search invariant holds for it |
| Search.CommitKeepsSaturated | examples/search.mjs:25-63 | after a complete round, every match of two entries older than the new round is stored: trying only the pairs with a side from the last round misses nothing |
| Search.CommitKeepsGrounded | examples/search.mjs:29-63 | every stored entry that is not a seed is a match of an active pair of the round before its tag |
| Search.CommitKeepsTags | examples/search.mjs:55-63 | committed entries are filed under their keys, with tags at most the new round |
| Search.CommitKeepsInv | examples/search.mjs:55-63 | a complete, sound round keeps the search invariant under the next round number |
| Search.CommitGrows | examples/search.mjs:55-63 | the store of a kind grows by exactly the reported entries of that kind |
| Search.SaturatedIsClosed | examples/search.mjs:64-66 | once every entry is older than the round bound, saturation is the fixpoint: every match of stored entries is stored |
| Search.ReportedAreCandidates | examples/search.mjs:32-50 | every entry given to the callback is the match of an active pair of the round |
| Search.StagedIsReported | examples/search.mjs:39-51 | every staged entry was given to the callback |
| Search.Round | examples/search.mjs:20-68 | one round keeps the invariant, grows each store by exactly its reported entries, reports only matches of the round and no slot twice; a round that reports nothing changes nothing and leaves the stores closed |
| Search.RoundReports | examples/search.mjs:42-63 | a scanned and committed round grows the stores by what it reported |
| Search.QuietRoundCloses | examples/search.mjs:64-66 | a round that stages nothing changes nothing and ends at the fixpoint |
| Search.ReportsAccumulate | examples/search.mjs:20-69 | every entry ever reported stays stored, and no (kind, key) slot is reported twice over the whole run |
| Search.Search | examples/engine.mjs:25-92 | after any number of `next()` calls: the invariant holds, the seeds are still stored, every reported entry is stored, no slot was reported twice, and when the generator is done the stores are closed under matching |
| Search.SearchTarget | examples/main.mjs:35-93 | a found entry is a fact with the target key that no seed fact has; without a find, the fuel is used up |
| Egg.Canonicalize | egg/apyds_egg/__init__.py:75-84 | the same operation, each child replaced by its image under `find`, in order |
| Egg.CanonicalizeIdempotent | egg/apyds_egg/__init__.py:75-84 | with an idempotent `find`, canonicalising twice is canonicalising once |
| Egg.CanonicalizeAgrees | egg/apyds_egg/__init__.py:75-84 | two `find` functions that agree on the children give the same node |
| Egg.ReprShape | egg/apyds_egg/__init__.py:96-100 | a leaf prints as its operation; any other node prints as `(op ...)` |
| Egg.ReprExamples | egg/tests/test_egraph.py:133-141 | `x` and `(+ 0 1)` |
| Egg.FindIn | egg/apyds_egg/__init__.py:25-38 | `find` on a registered id returns the root of its chain and re-points the links it passed at that root; the forest shape is kept |
| Egg.FindOrRegister | egg/apyds_egg/__init__.py:25-38 | an unseen id is registered as its own root; no id changes representative |
| Egg.UnionIn | egg/apyds_egg/__init__.py:40-53 | returns the representative of `a`; afterwards `a` and `b` share it; exactly the class of `b` changes representative, and the forest shape is kept |
| Egg.Link | egg/apyds_egg/__init__.py:51-52 | linking root `rb` under root `ra` moves exactly the class of `rb` into that of `ra` |
| Egg.RepIdempotent | egg/apyds_egg/__init__.py:25-38 | the representative of a representative is itself |
| Egg.UnionFind.constructor | egg/apyds_egg/__init__.py:21-23 | an empty parent dictionary |
| Egg.UnionFind.Find | egg/apyds_egg/__init__.py:25-38 | returns the old representative and registers the id; no representative changes |
| Egg.UnionFind.Union | egg/apyds_egg/__init__.py:40-53 | returns the representative of `a`; exactly the class of `b` joins that of `a` |
| Egg.ListOf | egg/apyds_egg/__init__.py:215 | `list(s)` lists every element of the set once |
| Egg.EGraph.constructor | egg/apyds_egg/__init__.py:110-117 | an empty graph: no classes, parents, hash-cons or worklist, next id 0 |
| Egg.EGraph.FreshId | egg/apyds_egg/__init__.py:119-127 | returns the counter and advances it by one |
| Egg.EGraph.Find | egg/apyds_egg/__init__.py:129-138 | returns the representative; an id handed out has a class; no representative changes |
| Egg.EGraph.CanonicalizeNode | egg/apyds_egg/__init__.py:152 | the node's canonical form under the current representatives |
| Egg.EGraph.Add | egg/apyds_egg/__init__.py:140-166 | a node whose canonical form is hash-consed gives the representative of that class and changes nothing else; a new one gets the next id as a singleton class, a hash-cons entry, and a parent record at each child |
| Egg.EGraph.AddNew | egg/apyds_egg/__init__.py:157-161 | the fresh id becomes its own root, a singleton class and the hash-cons entry of the node |
| Egg.EGraph.RecordParent | egg/apyds_egg/__init__.py:163-164 | each child gains the parent record (node, id), and no other class changes |
| Egg.EGraph.Merge | egg/apyds_egg/__init__.py:168-192 | ids in one class change nothing; otherwise exactly the class of `b` joins that of `a`, its nodes and parent records move to the surviving representative, that representative goes on the worklist, and there is one class fewer |
| Egg.EGraph.MergeRoots | egg/apyds_egg/__init__.py:182-192 | the union of two distinct representatives, then the moves of nodes and parent records |
| Egg.EGraph.Absorb | egg/apyds_egg/__init__.py:184-190 | the nodes and parent records of `rb` are added to `r`, the key `rb` is deleted, and `r` joins the worklist |
| Egg.EGraph.FindAll | egg/apyds_egg/__init__.py:201 | the set of the representatives of the worklist; no representative changes |
| Egg.EGraph.ClearWorklist | egg/apyds_egg/__init__.py:202 | the worklist is emptied, and nothing else changes |
| Egg.EGraph.Rebuild | egg/apyds_egg/__init__.py:194-205 | with `repair` as written, ends with an empty worklist; it only merges classes and never adds ids |
| Egg.EGraph.RebuildRound | egg/apyds_egg/__init__.py:200-205 | one round either merges classes or leaves the worklist empty, so `rebuild` ends |
| Egg.EGraph.RepairAll | egg/apyds_egg/__init__.py:204-205 | repairing the classes one by one with `repair` as written only merges classes |
| Egg.EGraph.Repair | egg/apyds_egg/__init__.py:207-227 | the corrected `repair` (see Findings): afterwards every record's canonical node is in the hash-cons and names the record's class, records with one canonical form are in one class, and the records of the class are exactly the hash-consed canonical nodes |
| Egg.EGraph.RepairPass | egg/apyds_egg/__init__.py:215-225 | each record is either listed with its canonical node and hash-consed, or its class is merged with the class listed for that node |
| Egg.EGraph.RepairAsWritten | egg/apyds_egg/__init__.py:207-227 | the loop as written: each listed node is the canonical form of its record's node, and records listed with one canonical node end in one class (the congruence that egg/tests/test_egraph.py:223-226 checks after `rebuild`); yet a canonical node that a later record's node equals is missing from the hash-cons afterwards, though it stays a record of the class |
| Egg.EGraph.RepairTurns | egg/apyds_egg/__init__.py:215-225 | the loop as written keeps its state: each canonical node listed, records listed with one canonical node in one class, and the nodes popped by later records missing from the hash-cons |
| Egg.EGraph.RepairTurn | egg/apyds_egg/__init__.py:215-225 | one turn pops the record's node from the hash-cons, then repairs the record: the listed node is the canonical form of the record's node and names a class with the record's; earlier entries are kept, and listed nodes are never put back |
| Egg.EGraph.RepairRecord | egg/apyds_egg/__init__.py:218-225 | the record's canonical node is listed with the record's class, or the class is merged with the listed one; classes only merge |
| Egg.EGraph.CanonicalRecord | egg/apyds_egg/__init__.py:218-219 | the record's canonical node and the representative of its class |
| Egg.EGraph.SetRecords | egg/apyds_egg/__init__.py:227 | the records of the class become the listed (node, class) pairs |
| Egg.EGraph.Enter | egg/apyds_egg/__init__.py:225 | one hash-cons entry is set |
| Egg.EGraph.Pop | egg/apyds_egg/__init__.py:216 | one hash-cons entry is removed, if present |
| Egg.EGraph.Unlist | egg/apyds_egg/__init__.py:215-216 | the nodes of all the listed records leave the hash-cons |
| Egg.EGraph.FileNew | egg/apyds_egg/__init__.py:224-225 | a new canonical node is listed and hash-consed with the record's class |
| Egg.EGraph.MergeRecord | egg/apyds_egg/__init__.py:222 | the two classes become one |
| Egg.RepairDoneHashcons | egg/apyds_egg/__init__.py:213-227 | once every record is repaired, each canonical node names its record's class in the hash-cons |
| Egg.LeafGraph | egg/tests/test_egraph.py:212-216 | `x`, `a` and `b` get the ids 0, 1 and 2 |
| Egg.CongruenceGraph | egg/tests/test_egraph.py:212-219 | `a + x` and `b + x` get the ids 3 and 4 and are the parent records of `a` and `b` |
| Egg.MergedGraph | egg/tests/test_egraph.py:223 | after `merge(a, b)`, `b` is in the class of `a`, which holds both sums as parent records |
| Egg.SumsCongruent | egg/tests/test_egraph.py:223-226 | with `b` in the class of `a`, `b + x` canonicalises to `a + x` |
| Egg.RepairLosesHashconsEntry | egg/apyds_egg/__init__.py:213-225 | repairing class 1 of the merged graph with the records listed as `(b + x, 4)` then `(a + x, 3)` leaves `a + x` among the records of class 1 and out of the hash-cons |

## Left out

- The ANTLR lexers and parsers of both notations are not modelled. The
  model starts from their parse trees. ANTLR's `getText()` is the tokens'
  text without skipped whitespace (`Parse.Text`).
- The textual entry points `parse(input)` and `unparse(input)` are left
  out; only the visitors over trees are modelled. The command-line
  wrapper `bnf/apyds_bnf/cli.py` is not part of this model.
- `RoundTrip.TermRoundTrip` covers only trees the Dsp grammar can read
  back:
  - symbol and operator tokens are non-empty and have no spaces;
  - a subscript has at least one index;
  - a unary term is not the base of a subscript or a call (`- x[i]`
    reads as the negation of `x[i]`);
  - the round trip is stated for the corrected reading
    (`Parse.Corrected`, see Findings); `Parse.SearchFindsOperatorToken`
    shows that the loop as written agrees with it on every tree whose
    binary left operands are symbols, parenthesised terms or function
    applications, which includes every lifted tree except those with a
    subscript or unary left operand.
- `RoundTrip.Lift`, `RoundTrip.LiftRule`: the Dsp grammar is not part of
  this model, so the parse tree of what `Unparse` prints is taken, not
  derived. Its token text is proved to be the printed text less its spaces;
  its shape (a unary operator binds the whole subscript or call after it,
  `p -> c` alone is one binary term) follows the notation's usual reading.
  The round-trip lemmas hold for that tree only. The corrected reading of
  `visitRule` (`Parse.Corrected`) turns that lone term into premise and
  conclusion, so on `a -> b` it gives `a`, the dash line, `b`; the tests at
  bnf/python/tests/test_conversion.py:51-55 and
  bnf/tests/conversion.test.js:51-56 expect `binary` in that output, which
  the visitor as written gives and the corrected reading does not.
- `RoundTrip.RuleRoundTrip` excludes facts whose text has an arrow in it
  (such as a parenthesised `->` term): `visitRule` reads any such lone
  term as a rule without premises (`Parse.LoneTermWithArrow`).
- `Parse.OperatorFound` states that the result is an accepted child's text
  or "". That it is the first accepted child is stated by
  `Parse.FindOperator`'s equality with it.
- The term library (`rule_t`: construction from text, `length()`, `key()`,
  `match()`) is a parameter of the search (`Search.Oracle`), not modelled.
- The search loops also leave out:
  - console output, the file reading and splitting of `engine.mjs`, its
    argument checks, the import of the callback module, and the
    "Press Enter" prompt;
  - the callback itself, which the model records as the sequence of its
    arguments (its return value is ignored by the source as well);
  - the `buffer_size(buffer_limit)` call at the start of `search`;
  - the timing loop that runs `main` ten times.
- `Search.SearchTarget`: the source loops forever when the target is never
  derived; the model bounds the rounds by `fuel`. Its contract does not
  state that a found fact is a match of the round, which `Search.ScanRound`
  states.
- `Search.Search`: the `yield` between rounds is modelled as the number
  of `next()` calls the caller makes (`steps`).
- Iteration order of JavaScript objects and Python sets is left open, so
  the model does not fix which candidate is staged first.
- `Rename`: the byte layout of terms, the `check_tail` buffer bound and its
  overflow failure are not modelled. The result is a value, not bytes
  written into a caller's buffer.
- `BufferSize`: the effect of the setting on buffer allocation elsewhere is
  not modelled, nor is use of the global from several threads.
- `BufferSize.Setting.ScopedBufferSize`: the body is modelled by its
  `buffer_size` calls and by whether it raises. An exception is returned
  as an outcome, not propagated.
- `Egg.EGraph.Merge`: the source raises `KeyError` when one id was never
  handed out and the two ids are in different classes. The model excludes
  exactly that case by precondition; merging an id with itself is
  allowed, as in the source.
- `Egg.EGraph.Rebuild`: the model proves that it ends, only merges classes
  and empties the worklist. Full congruence closure of the whole graph
  after `rebuild` is not proved. For the repaired class,
  `Egg.EGraph.RepairAsWritten` states that records with one canonical form
  end in one class (what egg/tests/test_egraph.py:223-226 checks for
  `a + x` and `b + x`), and `Egg.EGraph.Repair` states that and more for
  the corrected loop. That test's graph is not replayed as a lemma.
- `dump` (printing) and `ENode.__eq__`/`__hash__` are not modelled.
  Dafny datatype equality is structural, as they are.
- The code differs from the repository's own description of the search in
  three places, and the model follows the code:
  - the callback's return value cannot stop the search;
  - `cycle` advances even on the final round, which reports nothing;
  - the stores have no capacity limit.
  In `main.mjs` the found target is not committed to the store.

## Findings

| source | as written | input that shows it | evidently intended | confidence | as-written member | corrected member |
|---|---|---|---|---|---|---|
| bnf/apyds_bnf/parse.py:70-82 | the operator loop of `visitBinary` (the same in bnf/javascript/src/parse.ts) accepts any child whose text differs from both operand outputs and has no "(", so the text of a left operand that is a subscript, a unary term or an unparenthesised binary term is taken as the operator | `a[i] + b` gives `(binary a[i] (subscript a i) b)` | the operator token between the operands: `(binary + (subscript a i) b)` | not executed | Parse.SubscriptLeftOperandMisread | RoundTrip.TermRoundTrip |
| bnf/apyds_bnf/parse.py:27-32 | `visitRule` (the same in bnf/javascript/src/parse.ts) decides between a rule and a fact by the arrow in the text alone; a rule of one premise prints as `p -> c`, which the grammar reads as one binary term, so it becomes a rule without premises whose conclusion is that term | the rule with premise `a` and conclusion `c` prints as `a -> c` and reads back as the dash line over `(binary -> a c)` | `a`, the dash line, `c` | not executed; low: bnf/python/tests/test_conversion.py:51-55 and bnf/tests/conversion.test.js:51-56 expect `binary` in the output for `a -> b`, which the corrected reading fails (it gives `a`, the dash line, `b`), so the authors may mean a lone `a -> b` as a binary fact, and the printer (bnf/apyds_bnf/unparse.py:28-31) as the side to correct | RoundTrip.OnePremiseRuleMisread | RoundTrip.RuleRoundTrip |
| egg/apyds_egg/__init__.py:213-227 | `repair` pops each record's node from the hash-cons in the same turn that inserts canonical nodes, so a later record whose node equals an earlier record's canonical form deletes that entry, and the `canon in new_parents` branch never puts it back | after `merge(a, b)` in the graph of `a + x` (id 3) and `b + x` (id 4), repairing class 1 with the records listed as `(b + x, 4)` then `(a + x, 3)` leaves `a + x` as a record of class 1 but out of the hash-cons | every canonical node of a repaired class stays in the hash-cons with its class | not executed | Egg.EGraph.RepairAsWritten | Egg.EGraph.Repair |
