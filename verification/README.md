# SQL gatekeeper: a verified model

The gateway takes logical SQL, resolves every table to one physical shard, splices the physical
names into the text, runs policy filters and executes the result on one datasource. Its routing
metadata is imported from a shard-configuration table, and a second gate guards read-only Redis
commands. This project models those parts and proves what holds of them over all inputs.

## Modules

- `Wrappers`, `Text`, `TextMeaning`, `Sequences`: optional values and Python outcomes (a value or an
  exception), ASCII text and decimal numbers and what they mean, selection and stable sorting.
- `Regex`, `Patterns`, `Matches`: regular expressions with the backtracking meaning of Python's `re`,
  the parser's three declared patterns, and the proof that the parse is what they say.
- `SqlParser`, `SqlRewrite`, `RewriteTransfer`, `PredicateToken`, `PredicateTransfer`, `Precheck`: the
  parser, the splicing rewriter, reading a statement again after rewriting, and the statement guard.
- `Metadata`, `Routing`, `RoutingProofs`, `RoutingReasons`: the metadata store with its keys and foreign
  keys, route resolution, what a decision guarantees and why a statement is not routed.
- `FilterChain`, `Checker`, `Executor`: the filters over their mutable context, the composed check, the
  execution of a checked statement.
- `Identifiers`, `Importer`, `ImporterProofs`, `ImportOrder`, `ImportContents`, `ImportSources`: the
  shard-map importer and what a bundle contains.
- `Reimport`, `ReimportProofs`, `ReimportMerge`, `ReimportContents`, `ReimportTwice`, `ReimportRuns`,
  `BundleReady`: replacing the imported metadata in one transaction, any number of times.
- `ImportRouting`, `OtherTables`, `ImportedChecks`: the importer joined to the resolver and to the check.
- `Witnesses`: concrete stores and statements for each way a second check can turn out.
- `Redis`, `RedisScope`, `RedisProofs`, `RedisReasons`, `RedisReplies`: the Redis gate, its key scope, what
  it allows and refuses, and what the commands answer.

Loops that build state in the program are methods with invariants here (the parser loops, the splice
loop, the factor and table loops of `resolve`, the filters and their chain, the importer's loops, the
session of a re-import); each is proved equal to a specification function, and the lemmas are about
that function. The modules whose names end in Meaning, Reasons, Contents, Sources, Scope or Replies say
what those functions answer without naming them: in the fields of the request, the rows and the store. Python exceptions are values of `Result`, so that "never raises" and "raises exactly
when" are statements of their own.

## What the code does where its documentation says otherwise

ROADMAP.md:34 and SECURITY.md:27 state that safety checks hold for the rewritten physical SQL. The
code runs the guard, the type check and the limit check on the statement as written and executes the
rewritten one (src/sql_gatekeeper/services/checker.py:56-96). `Checker.VerdictsTransfer` and
`Checker.CheckFixpoint` say how far the promise holds, for any physical names. The type always
carries over. The guard's verdict does unless the names make a second statement of the text, and the
tables do exactly when the names are identifiers. The limit need not: `select * from limit 5` over a
table called `limit` is allowed under a policy that requires a limit, and the rewritten
`select * from orders 5` has none (`Witnesses.LimitIsLost`); `RewriteTransfer.LimitAfterRewrite` has
the exact condition. And a physical name on two enabled routes makes the second check raise
(`Witnesses.AmbiguousNameRaises`); `ImportedChecks.ImportedRecheckRaises` says for exactly which
configuration rows.

Two more properties hold only under a condition, which is exact: a built bundle can violate the
store's route key (`BundleReady.BuiltLoadable`, `BundleReady.TwoSegmentsNeverCommit`), and row order
matters when rows of one segment differ in the case of a table name (`ImportOrder.OrderIndependent`,
`ImportOrder.OrderMattersAcrossNames`).

## Model
| member | source | states |
|---|---|---|
| `Patterns.TablePatternExact` | src/sql_gatekeeper/services/sql_parser.py:7-10 | what the table matcher finds at a position is what a backtracking matcher of the declared pattern finds first there, captures included, and it fails only when the pattern has no match at all |
| `Patterns.PredicatePatternExact` | src/sql_gatekeeper/services/sql_parser.py:11-14 | the same for the predicate pattern, including the fallback from the optional qualifier; its third group is always a whole literal |
| `Patterns.LimitPatternExact` | src/sql_gatekeeper/services/sql_parser.py:15 | the same for the LIMIT pattern, including dropping the second number when the closing boundary fails |
| `Matches.ParseIsPatternSearch` | src/sql_gatekeeper/services/sql_parser.py:63-93 | for every statement: tables and predicates are all matches of the declared patterns, leftmost first and without overlap; a predicate's value is the text between the quotes of its literal, or its digits; a limit is present exactly when the LIMIT pattern occurs, and its value is the decimal value of the second group of the first occurrence if that took part, else of the first group |
| `SqlParser.FindTables` | src/sql_gatekeeper/services/sql_parser.py:63-73 | the table loop yields every match in order, resuming each search at the end of the previous match |
| `SqlParser.FindPredicates` | src/sql_gatekeeper/services/sql_parser.py:75-83 | the predicate loop yields every match in order, with normalized values |
| `SqlParser.Parse` | src/sql_gatekeeper/services/sql_parser.py:54-93 | the parse is the specified one; Matches.ParseIsPatternSearch says what its tables, predicates and limit are, Precheck.TypeIsFirstWord its type and Precheck.MultiStatementIsSecond its statement count |
| `SqlParser.ParseSpans` | src/sql_gatekeeper/services/sql_parser.py:64-73 | every table span is in bounds and slices to an identifier, the table name; spans are disjoint and increasing |
| `TextMeaning.DigitsValueExactly` | src/sql_gatekeeper/services/sql_parser.py:107-108 | a text has a decimal value exactly when it is digits, with single underscores only between two of them; the value is each digit times ten to the number of digits after it |
| `TextMeaning.ParseIntExactly` | src/sql_gatekeeper/services/routing.py:301-304 | int() succeeds exactly on blanks, a sign or none, a numeral, and blanks, and then gives the signed value of the numeral |
| `TextMeaning.NatToStringWrites` | src/sql_gatekeeper/services/routing.py:301-302 | str(n) writes n in digits, without a leading zero |
| `SqlParser.LimitValueDefined` | src/sql_gatekeeper/services/sql_parser.py:90-108 | a limit value exists exactly when the statement has a limit: converting the digits never fails |
| `SqlParser.PredicateValueIsFirst` | src/sql_gatekeeper/services/sql_parser.py:43-50 | a qualified lookup returns the first predicate of that column under that qualifier, case-insensitively, or nothing |
| `SqlRewrite.Rewrite` | src/sql_gatekeeper/services/sql_rewrite.py:17-28 | the splice loop equals splicing the plans sorted by descending start |
| `SqlRewrite.RewriteIsSubstitution` | src/sql_gatekeeper/services/sql_rewrite.py:21-28 | for any permutation of plans over disjoint spans, right-to-left splicing is one simultaneous left-to-right substitution |
| `SqlRewrite.OutsidePreserved` | src/sql_gatekeeper/services/sql_rewrite.py:23-27 | every character outside the spans survives, moved by the sum of the length differences before it |
| `RewriteTransfer.RewriteIsRetoken` | src/sql_gatekeeper/services/sql_rewrite.py:17-28 | the rewritten statement is the original with the i-th table token replaced by the i-th physical name, along the scan that found the tokens |
| `RewriteTransfer.ParseAfterRewrite` | src/sql_gatekeeper/services/sql_parser.py:63-73 | re-parsing the rewritten text: same number of tables, same aliases, table i named by its physical name, every span shifted by the preceding length differences; for all statements and all identifier-shaped names |
| `RewriteTransfer.LimitAfterRewrite` | src/sql_gatekeeper/services/sql_parser.py:101-108 | the limit after rewriting, exactly: the rewritten text has one if and only if a LIMIT match starts outside the table tokens or a table that numbers follow is now named LIMIT, as the original has one if and only if that held of its own names; its value is the one read off the original under the new names; and nothing changes unless a numbered table becomes or ceases to be LIMIT |
| `PredicateTransfer.PredicatesAfterRewrite` | src/sql_gatekeeper/services/sql_parser.py:75-83 | re-parsing the rewritten text: as many predicates, in the same order, and every one that lies on no replaced token (as its qualifier, as its column or inside its quoted value) is the same; for all statements and all identifier-shaped names |
| `Precheck.MultiStatementIsSecond` | src/sql_gatekeeper/services/precheck.py:21-24 | the trim-and-search test for several statements equals a four-state automaton run over the raw text |
| `Precheck.Beginning` | src/sql_gatekeeper/services/precheck.py:29-30 | every statement falls into blanks, a first word and a rest that continues neither |
| `Precheck.TypeIsFirstWord` | src/sql_gatekeeper/services/sql_parser.py:54-61 | whatever the statement: after the blanks in front, the type is the longest run of letters in lower case, or unknown if there is none |
| `Precheck.GuardVerdict` | src/sql_gatekeeper/services/precheck.py:16-37 | verdict and reason, read off the raw text: empty, several statements, a leading comment, a denied first word, SELECT, anything else, in this order |
| `Precheck.GuardExact` | src/sql_gatekeeper/services/precheck.py:16-37 | the guard allows exactly the single statements whose first word is SELECT |
| `Precheck.GuardAfterRewrite` | src/sql_gatekeeper/services/precheck.py:16-37 | the guard on the rewritten statement, for any names at all: the type is the same, and the verdict is the same unless the names make a second statement (a semicolon in any name but the last, or one in the last that more than semicolons and blanks follows), which is what it is then refused for; identifiers never do |
| `Metadata.DatasourceLookup` | src/sql_gatekeeper/repositories/datasource.py:13-18 | on a store with unique codes the lookup never raises, and finds the enabled datasource of the code or proves there is none |
| `Metadata.LogicalTableLookup` | src/sql_gatekeeper/repositories/logical_table.py:13-18 | the same for logical tables by name |
| `Metadata.RouteLookup` | src/sql_gatekeeper/repositories/physical_table_route.py:13-23 | the same for routes by logical table and route value |
| `Metadata.LookupExactly` | src/sql_gatekeeper/repositories/route_rule.py:13-18 | scalar_one_or_none over distinct rows: the only row that fits, nothing if none does, and an exception exactly when two do |
| `Metadata.PolicyLookup` | src/sql_gatekeeper/repositories/policy_set.py:13-19 | the same for policies by code |
| `Routing.CollectRouteFactors` | src/sql_gatekeeper/services/routing.py:138-152 | the factor loop computes the specified extracted values and missing names |
| `Routing.Resolve` | src/sql_gatekeeper/services/routing.py:70-232 | the whole resolution is the specified one; RoutingProofs.ResolutionInvariant says what it allows, RoutingReasons.FirstRejectionDecides what it answers otherwise |
| `RoutingProofs.ResolutionInvariant` | src/sql_gatekeeper/services/routing.py:70-232 | on ALLOW there is one target per parsed table in order, each an enabled registered route on its enabled datasource, plans are exactly the spans of the logically routed tables, and diagnostics are exactly theirs in order; on every rejection there are no targets |
| `RoutingReasons.FirstRejectionDecides` | src/sql_gatekeeper/services/routing.py:70-232 | routed exactly when there is a table and every table is routed; otherwise the first table that is not decides: what it raises escapes, what it is rejected for is the reason, and the diagnostics are those of the tables before it and then its own; without a table the reason is TABLE_NOT_FOUND |
| `RoutingReasons.PhysicalLookup` | src/sql_gatekeeper/repositories/physical_table_route.py:25-30 | a name is physical exactly when an enabled route has it; the lookup finds the only such route and raises exactly when there are two |
| `RoutingReasons.RuleLookup` | src/sql_gatekeeper/repositories/route_rule.py:13-18 | the rule of a table is its only enabled one; none and two are told apart exactly |
| `RoutingReasons.FactorsExactly` | src/sql_gatekeeper/services/routing.py:138-152 | the missing factors are exactly the enabled required ones without a value, the extracted values exactly those of the ones that have one |
| `RoutingReasons.FactorValueExactly` | src/sql_gatekeeper/services/routing.py:138-152 | a factor's value by its source: a predicate on its column, on the column the context names, a context entry, or the table name itself; only without one, and only for the key route_suffix, the derived suffix |
| `RoutingReasons.LegacySuffixExactly` | src/sql_gatekeeper/services/routing.py:281-304 | the derived suffix exists exactly when the context names a shard column, its value for the table writes an integer and the table has enabled routes; it is that integer modulo their number |
| `RoutingReasons.DiagnosticContents` | src/sql_gatekeeper/services/routing.py:306-348 | what every diagnostic shows: both names, each needed factor with its value, the rule, the values, the route count; no rule is a rejection and two rules an exception |
| `RoutingReasons.ConversionsExactly` | src/sql_gatekeeper/services/routing.py:275-279 | int, str and one-character replace in a rule: int fails exactly on the texts that write no integer, replace changes that character and no other, an operand's exception escapes |
| `RoutingReasons.RemainderExactly` | src/sql_gatekeeper/services/routing.py:275-279 | the remainder in a rule: between zero and the divisor for either sign, no other operand has one, zero raises |
| `RoutingProofs.ResolveTableRouted` | src/sql_gatekeeper/services/routing.py:76-230 | what one round of the table loop guarantees when it routes: an enabled registered route on its enabled datasource, a plan over exactly the token of a logical name and none for a physical one, and a diagnostic exactly for the rewritten tables, showing the value the route was found with |
| `RoutingProofs.FactorsSplit` | src/sql_gatekeeper/services/routing.py:138-152 | factors of distinct names split exactly into extracted and missing, never both, and each extracted value is that factor's value |
| `RoutingProofs.RequiredFactorsSplit` | src/sql_gatekeeper/services/routing.py:138-152 | the required factors of a table of a valid store always split that way: the factor key makes their names distinct |
| `RoutingProofs.PhysicalNameFirst` | src/sql_gatekeeper/services/routing.py:77-90 | a name that is the physical name of an enabled route takes precedence whatever the request: on two such routes the lookup raises; on one the table stays itself, without a plan or a diagnostic, on that route's datasource, and is refused exactly when that is not enabled |
| `RoutingProofs.UnknownNameRejected` | src/sql_gatekeeper/services/routing.py:91-108 | a name that no enabled route has is rejected as unknown exactly when no enabled logical table has it, and the reason says whether it starts like some enabled table's physical names |
| `RoutingProofs.TemplatesMatched` | src/sql_gatekeeper/services/routing.py:353-358 | the template search succeeds exactly when some enabled logical table has a non-empty template prefix that the name starts with |
| `RoutingProofs.LogicalOutcome` | src/sql_gatekeeper/services/routing.py:138-230 | which of missing factor, missing route or missing datasource stops a logical table, each exactly when it applies; an exception can only come from evaluating the rule |
| `RoutingProofs.PredicateForExact` | src/sql_gatekeeper/services/routing.py:259-267 | a table is valued by the first predicate under its own alias if that is not empty, else by the first on the column under any qualifier |
| `RoutingProofs.AliasIsolation` | src/sql_gatekeeper/services/routing.py:251-273 | when every column its factors read is decided under the table's own alias, a table is routed alike in any two statements that agree there, whatever other predicates they have |
| `RoutingProofs.LegacySuffixIsModulus` | src/sql_gatekeeper/services/routing.py:281-304 | if the enabled route values are the decimals of 0 to m-1, the derived suffix of every integer is its value modulo m and that route exists |
| `RoutingProofs.LegacySuffixTotal` | src/sql_gatekeeper/services/routing.py:297-304 | value modulo route count finds a route for every integer if and only if the enabled route values are exactly the decimals below their count |
| `FilterChain.ApplyPolicyLoad` | src/sql_gatekeeper/services/filter_chain.py:44-50 | stores the enabled default policy in the context, or rejects without changing it |
| `FilterChain.ApplyPhysicalTableValidate` | src/sql_gatekeeper/services/filter_chain.py:57-67 | records the enabled datasource of every target, stopping at the first that has none |
| `FilterChain.ApplyExplainRisk` | src/sql_gatekeeper/services/filter_chain.py:112-130 | appends each summary the evaluator returns, in target order, stopping at the first rejection |
| `FilterChain.Chain.Run` | src/sql_gatekeeper/services/filter_chain.py:137-142 | runs the filters in order over the context, threading its state, until one raises or rejects |
| `FilterChain.ChainIsVerdict` | src/sql_gatekeeper/services/filter_chain.py:40-142 | the chain as built never fails an assertion, an index or a key on any non-empty target list; its verdict is the first failing rule (which FilterChain.ReasonsExactly states in the fields of policy and parse); on allow it has recorded the targets' summaries, on a rejection by EXPLAIN those up to it, and a rule that fails before leaves none |
| `FilterChain.ReasonsExactly` | src/sql_gatekeeper/services/filter_chain.py:40-142 | the reason in fields: no enabled default policy; else some target's datasource not enabled; else the type not an allowed one; else two targets with different codes; else a required limit missing; else a limit above the maximum; else that of the first target EXPLAIN rejects; else ALLOW |
| `FilterChain.FiltersNeedContext` | src/sql_gatekeeper/services/filter_chain.py:44-130 | a filter without the policy an earlier one loads fails its assertion, EXPLAIN without a recorded datasource its lookup, and the chain as built without targets its first index |
| `FilterChain.RecordedExactly` | src/sql_gatekeeper/services/filter_chain.py:114-129 | the summaries recorded when EXPLAIN rejects a target are those of the targets up to and including it |
| `FilterChain.SummaryPerTarget` | src/sql_gatekeeper/services/filter_chain.py:114-130 | if an allowing evaluator always has a summary, an allowed request has recorded exactly one per target, in order |
| `Checker.Check` | src/sql_gatekeeper/services/checker.py:55-121 | the check is the specified composition of guard, parse, route, rewrite and chain |
| `Checker.CheckIsFirstRefusal` | src/sql_gatekeeper/services/checker.py:55-121 | the check fails closed: its answer is that of the first refusing stage, read off statement, store and explainer; a refusal before rewriting carries no text and no physical table; it raises exactly when routing does |
| `Checker.ResultContents` | src/sql_gatekeeper/services/checker.py:55-121 | what the result shows: nothing when the guard refuses; the parse, the diagnostics and the tables they are about when routing does; also the rewritten text, each target's three names in order and the recorded summaries when the filters decide |
| `Checker.PlansAre` | src/sql_gatekeeper/services/checker.py:87 | the plans handed to the rewriter are those of the targets that have one, in order |
| `Checker.VerdictsTransfer` | src/sql_gatekeeper/services/checker.py:55-121 | every verdict reached on the original, against the rewritten statement, whatever the physical names are: its type is the same, the guard refuses it exactly when the names make a second statement, and its tables are exactly the checked physical tables if and only if these are identifiers; then the guard allows it, and its limit is the original's under the physical names, which is the original's own if no numbered table becomes or ceases to be LIMIT |
| `Checker.CheckFixpoint` | src/sql_gatekeeper/services/checker.py:55-121 | checking the rewritten statement of an allowed check in any context, whatever the physical names are: if they are identifiers, it raises if and only if one is on two enabled routes, else it is refused, by the limit rule alone, if and only if that rule refuses the limit read under the physical names, else the result is the same; if they make a second statement the guard refuses it; and where no name is on two enabled routes, identifiers are the only names for which the second check goes the first way |
| `Checker.AllowedIsStable` | src/sql_gatekeeper/services/checker.py:55-121 | on a store whose enabled physical names are unambiguous identifiers, the rewritten statement of an allowed check is allowed again, with the same text, tables, datasources and summaries, if and only if the limit rule accepts the limit under the physical names; it does if no numbered table becomes or ceases to be LIMIT |
| `Witnesses.LimitIsLost` | src/sql_gatekeeper/services/checker.py:55-121 | a statement the check allows (select * from limit 5, on a store with a table called limit and a policy that requires a limit) whose rewritten statement has no limit and is refused for it |
| `Witnesses.LimitSurvives` | src/sql_gatekeeper/services/checker.py:55-121 | a statement over the same table whose rewritten statement keeps its limit and is allowed again, unchanged |
| `Witnesses.AmbiguousNameRaises` | src/sql_gatekeeper/services/checker.py:55-121 | a valid store with one physical name on two enabled routes, and an allowed statement whose rewritten statement makes the check raise MultipleResultsFound |
| `Executor.Fetch` | src/sql_gatekeeper/services/executor.py:80-86 | at most one row more than the limit is taken, and always a prefix of what the datasource returns |
| `Executor.AllowedReachesFetch` | src/sql_gatekeeper/services/executor.py:33-77 | an allowed check on an unchanged store reaches the fetch: exactly one datasource, found and enabled, the policy found; the rewritten statement is sent behind the running-time hint, and the outcome is everything the datasource returned if that is at most the policy's limit, and the row-limit rejection otherwise, negative limits included |
| `Executor.ExecuteExactly` | src/sql_gatekeeper/services/executor.py:33-77 | executing any check result: a refused one is answered with its refusal whatever the datasource holds; then several or no datasource codes, no such enabled datasource and no policy decide in this order; only then the hinted statement is sent |
| `Identifiers.IdentifierShape` | src/sql_gatekeeper/tools/spy_table_config_sync.py:63-75 | the part after the prefix uses only lower-case letters, digits and underscores, with none at the edges |
| `Identifiers.IdentifierExactly` | src/sql_gatekeeper/tools/spy_table_config_sync.py:63-75 | what an identifier is, character by character: the prefix and the folded name without outer underscores if they fit, else the name cut to the room left, without underscores at the cut, and the digest of the whole name |
| `Identifiers.SourceCode` | src/sql_gatekeeper/tools/spy_table_config_sync.py:78-79 | a source whose folded name fits has that name behind spy_src_ as its code; the empty name has the code spy_src_unknown_source |
| `Identifiers.SourcesApart` | src/sql_gatekeeper/tools/spy_table_config_sync.py:78-79 | sources whose folded names differ and fit have different codes, whatever the digest function |
| `Identifiers.TableNameOf` | src/sql_gatekeeper/tools/spy_table_config_sync.py:82-84 | the name of a table is its folded catalog, two underscores and its own folded name, when they fit |
| `Identifiers.TableNamesApart` | src/sql_gatekeeper/tools/spy_table_config_sync.py:82-84 | such names are the same exactly when both parts are, if neither part has two underscores in a row or one at an end |
| `Identifiers.IdentifierFits` | src/sql_gatekeeper/tools/spy_table_config_sync.py:68-75 | an identifier fits its maximum exactly when nothing needs cutting or the maximum leaves ten characters after the prefix |
| `Identifiers.IdentifierIdempotent` | src/sql_gatekeeper/tools/spy_table_config_sync.py:63-75 | without a prefix, an identifier is its own identifier if and only if nothing was cut, the maximum is at least ten, or its digest is that of the text it came from; for every maximum and every digest function |
| `Importer.CollectGroups` | src/sql_gatekeeper/tools/spy_table_config_sync.py:105-151 | the first loop gathers exactly the kept rows of each key in order, the first record of each datasource code, and the number of blank rows |
| `Importer.ExpandRow` | src/sql_gatekeeper/tools/spy_table_config_sync.py:363-390 | the suffix loop continues the group's emission with one claim per suffix, raising exactly when the specification does |
| `Importer.ExpandSegments` | src/sql_gatekeeper/tools/spy_table_config_sync.py:304-390 | the route loop of a group emits its claims in sorted segment order, raising exactly when the specification does |
| `Importer.BuildSyncBundle` | src/sql_gatekeeper/tools/spy_table_config_sync.py:101-399 | the whole import is the specified one; ImportContents and ImportSources say what it contains in terms of the rows |
| `ImportContents.KeptExactly` | src/sql_gatekeeper/tools/spy_table_config_sync.py:109-116 | the rows that count are those with a table name, trimmed of blanks and in order; the others are counted as skipped |
| `ImportContents.SegmentsExactly` | src/sql_gatekeeper/tools/spy_table_config_sync.py:160-169 | a row decides for its range exactly when no later row of its table has the same source, range and count |
| `ImportContents.StyleExactly` | src/sql_gatekeeper/tools/spy_table_config_sync.py:170-184 | how a table is routed, read off its rows: by remainder exactly when the sharded ranges cover the shards below the greatest count, by suffix when some row is sharded otherwise, by source when none is and two sources differ, else to one place |
| `ImportContents.RoutesExactly` | src/sql_gatekeeper/tools/spy_table_config_sync.py:304-390 | a table has a route exactly when a row that decides for its range stands for it: a shard of the range named table_shard, the source under its name, or the constant 0; it goes to that row's source |
| `ImportContents.TablesExactly` | src/sql_gatekeeper/tools/spy_table_config_sync.py:186-217 | every table name that some row gives is a table of the bundle, described by its first row, its counts and its style |
| `ImportContents.RulesExactly` | src/sql_gatekeeper/tools/spy_table_config_sync.py:219-302 | every table has the rule of its style, with its name, type and expression |
| `ImportContents.FactorsExactly` | src/sql_gatekeeper/tools/spy_table_config_sync.py:219-302 | every table but those with one place has the factor of its style, and there are no other factors |
| `ImportSources.DatasourcesExactly` | src/sql_gatekeeper/tools/spy_table_config_sync.py:117-136 | a bundle has one datasource per code, described by the first row that has it, and the code of every row is among them |
| `ImportSources.RouteOrigin` | src/sql_gatekeeper/tools/spy_table_config_sync.py:304-390 | every route is what the row it comes from stands for, on that row's source |
| `ImportSources.SourcesStayApart` | src/sql_gatekeeper/tools/spy_table_config_sync.py:304-390 | the routes of two sources whose folded names differ go to two different datasources of the bundle |
| `ImportSources.TablesStayApart` | src/sql_gatekeeper/tools/spy_table_config_sync.py:138-151 | rows of plain names belong to one table exactly when their folded catalogs and tables are the same |
| `Sequences.TextLeqExactly` | src/sql_gatekeeper/tools/spy_table_config_sync.py:305 | texts are ordered by their first difference, a prefix first |
| `ImportSources.RoutesOrdered` | src/sql_gatekeeper/tools/spy_table_config_sync.py:304-305 | the routes of a table are listed by the range, then the source, of the rows they come from |
| `ImporterProofs.EmitRaisesOnConflict` | src/sql_gatekeeper/tools/spy_table_config_sync.py:304-390 | emitting claims raises exactly when two of them give one route value different tables or datasources |
| `ImporterProofs.EmitMatches` | src/sql_gatekeeper/tools/spy_table_config_sync.py:304-390 | the emitted routes are the claims: each said once in a sharded group, one per claim otherwise, none invented |
| `ImporterProofs.ImportRaisesExactly` | src/sql_gatekeeper/tools/spy_table_config_sync.py:304-390 | an import raises, with ValueError, if and only if two deduplicated rows of one group claim a route value differently |
| `ImporterProofs.ImportDeclaresExactly` | src/sql_gatekeeper/tools/spy_table_config_sync.py:304-390 | the imported (table, value, physical name, datasource) tuples are exactly what the deduplicated segments declare |
| `ImporterProofs.ModulusRoutingTotal` | src/sql_gatekeeper/tools/spy_table_config_sync.py:173-184 | for every table imported with modulus m and every integer v, exactly one imported route has the value v mod m, and it agrees with every deduplicated segment covering v mod m |
| `ImporterProofs.RowsConserved` | src/sql_gatekeeper/tools/spy_table_config_sync.py:109-151 | skipped rows plus the tables' row counts equal the input length |
| `ImporterProofs.BundleOrdered` | src/sql_gatekeeper/tools/spy_table_config_sync.py:158-399 | tables and rules are listed in the order of their names and datasources in the order of their codes |
| `ImportOrder.OrderDoesNotRaise` | src/sql_gatekeeper/tools/spy_table_config_sync.py:158-184 | permuting the rows does not change whether the import raises, if rows of one group and one segment that claim something share the table name |
| `ImportOrder.OrderKeepsFrame` | src/sql_gatekeeper/tools/spy_table_config_sync.py:109-184 | whatever the names, two orders of the rows that both build agree on the skipped count, the logical tables with their moduli, the factors, the rules and the datasource codes |
| `ImportOrder.OrderIndependent` | src/sql_gatekeeper/tools/spy_table_config_sync.py:109-184 | of rows that build, every permutation builds the same routes and everything else if and only if any two rows of one group and one segment that claim something have the same table name |
| `ImportOrder.OrderMattersAcrossNames` | src/sql_gatekeeper/tools/spy_table_config_sync.py:160-168 | two rows of one segment whose names differ in case build in both orders, and the bundle routes to the name of the row that comes last, because the deduplication key omits the table name |
| `Reimport.MetadataSession.EnsurePolicy` | src/sql_gatekeeper/tools/spy_table_config_sync.py:439-457 | adds the default policy if it is absent and changes nothing else |
| `Reimport.MetadataSession.DeletePrevious` | src/sql_gatekeeper/tools/spy_table_config_sync.py:460-488 | the ordered deletes leave the specified session, or are refused by a foreign key |
| `Reimport.MetadataSession.InsertAll` | src/sql_gatekeeper/tools/spy_table_config_sync.py:500-553 | an insert loop commits its records one by one, stopping at the first refusal |
| `Reimport.MetadataSession.Sync` | src/sql_gatekeeper/tools/spy_table_config_sync.py:491-555 | a re-import ends in the specified session, or leaves the session as it was |
| `ReimportProofs.DeleteChildrenKeepsValid` | src/sql_gatekeeper/tools/spy_table_config_sync.py:468-476 | deleting the rows of imported tables keeps every key and foreign key, and leaves nothing that refers to them |
| `ReimportProofs.DeleteTablesKeepsValid` | src/sql_gatekeeper/tools/spy_table_config_sync.py:477 | deleting the imported tables keeps the store valid |
| `ReimportProofs.DeleteDatasourcesKeepsValid` | src/sql_gatekeeper/tools/spy_table_config_sync.py:479-488 | deleting the imported datasources keeps the store valid |
| `ReimportProofs.AddsKeepValid` | src/sql_gatekeeper/tools/spy_table_config_sync.py:500-553 | every single insert the database accepts keeps the store valid |
| `ReimportProofs.SyncKeepsValid` | src/sql_gatekeeper/tools/spy_table_config_sync.py:491-555 | a committed re-import leaves a store in which every unique key and foreign key of the schema holds |
| `ReimportMerge.DeletePreviousExactly` | src/sql_gatekeeper/tools/spy_table_config_sync.py:460-488 | the delete phase leaves exactly the foreign rows, and is refused exactly when a route of a foreign table points at an imported datasource |
| `ReimportMerge.LoadExactly` | src/sql_gatekeeper/tools/spy_table_config_sync.py:500-553 | loading succeeds exactly when codes, names and per-table keys are free and every reference is known, and then appends exactly the bundle's rows, linked by name |
| `ReimportMerge.SyncExactly` | src/sql_gatekeeper/tools/spy_table_config_sync.py:491-555 | a re-import commits if and only if no foreign route needs an imported datasource and the bundle fits beside the foreign rows; the result is the foreign rows followed by the bundle's |
| `ReimportContents.ForeignExactly` | src/sql_gatekeeper/tools/spy_table_config_sync.py:460-488 | the rows a re-import keeps are those without the import mark that belong to no marked table |
| `ReimportContents.CommittedExactly` | src/sql_gatekeeper/tools/spy_table_config_sync.py:439-555 | the store after a commit, field by field: the unmarked rows, then one enabled row per record, linked by name to marked rows of the store, and the policies found, followed by the default one (SELECT only, a limit required, at most 1000) if it was not among them |
| `ReimportContents.ImportInstallsPolicy` | src/sql_gatekeeper/tools/spy_table_config_sync.py:439-457 | on a store without a default policy an import makes that policy the one the filters apply |
| `ReimportContents.ImportedNeverRedis` | src/sql_gatekeeper/services/redis_gatekeeper.py:290-297 | no imported datasource is ever a candidate of the Redis gate |
| `ReimportTwice.ForeignUntouched` | src/sql_gatekeeper/tools/spy_table_config_sync.py:460-555 | a committed re-import changes no row that is not from an import |
| `ReimportTwice.SyncTwice` | src/sql_gatekeeper/tools/spy_table_config_sync.py:491-555 | importing the same bundle again commits, and changes nothing but ids |
| `ReimportRuns.RunsKeepForeign` | src/sql_gatekeeper/tools/spy_table_config_sync.py:491-555 | after any sequence of re-imports, committed or rolled back, the store is valid and its foreign rows are those it started with |
| `ReimportRuns.HistoryIrrelevant` | src/sql_gatekeeper/tools/spy_table_config_sync.py:491-555 | a bundle that commits now also commits after any sequence of other re-imports, and leaves the same store up to ids |
| `BundleReady.BuiltLoadable` | src/sql_gatekeeper/tools/spy_table_config_sync.py:158-399 | a bundle built from configuration rows fits beside foreign rows if and only if no code or name clashes and every unsharded group has one row per route value |
| `BundleReady.ImportCommitsExactly` | src/sql_gatekeeper/tools/spy_table_config_sync.py:491-555 | importing configuration rows commits exactly under that condition and if no foreign route points at an imported datasource |
| `BundleReady.TwoSegmentsNeverCommit` | src/sql_gatekeeper/tools/spy_table_config_sync.py:335-361 | two segments of one unsharded table build a bundle that no valid store accepts: the unsharded branches do not skip repeated route values |
| `ImportRouting.ModulusRule` | src/sql_gatekeeper/services/routing.py:275-279 | the imported modulus rule evaluates, for every text that parses as an integer, to the decimal of that integer modulo m |
| `ImportRouting.ImportedTableReaches` | src/sql_gatekeeper/services/routing.py:110-230 | after any committed import, for every routing style and every request: asked for a route value (a remainder, a suffix given or derived, a source name, the constant), an imported table is routed if and only if the rows declare a route for it, to the one table and datasource declared; without its factor it is refused, and on a factor that is no integer routing raises ValueError; a name that is also the physical name of an enabled route stays itself |
| `ImportRouting.ImportedShardIsReached` | src/sql_gatekeeper/services/routing.py:176-230 | after any committed import, a modulus-routed table is routed for every integer value to the physical table and datasource that every deduplicated configuration row covering the remainder names, and some row does; unless its name is also the physical name of an enabled route, which stays itself |
| `ImportRouting.ShardOfEveryRow` | src/sql_gatekeeper/tools/spy_table_config_sync.py:173-184 | under the name condition of ImportOrder.OrderIndependent that shard is the one every configuration row covering the remainder names, deduplicated or not |
| `OtherTables.OtherTableKept` | src/sql_gatekeeper/services/routing.py:76-230 | a committed import does not change how a table that its rows do not configure is routed: for every request the outcome is that on the foreign rows alone, target, datasource and diagnostics included (an unknown name may only be unknown for the other reason), and an enabled physical name stays itself |
| `OtherTables.ImportsKeepOthers` | src/sql_gatekeeper/tools/spy_table_config_sync.py:491-555 | of two committed imports with any run of other re-imports between them, a table that neither configures nor names physically has the same outcome after both, for every request |
| `ImportedChecks.CheckReachesDeclared` | src/sql_gatekeeper/services/checker.py:55-121 | from SQL text to configuration rows: after any committed import, wherever a check routes a statement, each imported table goes to exactly the physical table and datasource the rows declare for what the request asks of it, and the rewritten text, parsed again, names those tables |
| `ImportedChecks.CheckRoutesExactly` | src/sql_gatekeeper/services/checker.py:55-121 | after any committed import a statement is routed if and only if the guard allows it, it has a table, and every table has a way: as the physical name of one enabled route on an enabled datasource, as a configured table for which the rows declare what the request asks, or as a table that the foreign rows alone route |
| `ImportedChecks.ImportedStoreReady` | src/sql_gatekeeper/tools/spy_table_config_sync.py:491-555 | a committed import leaves a store that meets the sufficient condition of Checker.AllowedIsStable if and only if the declared physical names are identifiers, each declared for one value of one table, and the enabled foreign routes have identifiers for names too, each once and none of them declared |
| `ImportedChecks.SharedExactly` | src/sql_gatekeeper/tools/spy_table_config_sync.py:491-555 | after a committed import a physical name is on two enabled routes if and only if the rows declare it for two pairs of a table and a value, or declare it and an enabled foreign route has it, or two of those have it |
| `ImportedChecks.ImportedRecheckRaises` | src/sql_gatekeeper/services/checker.py:55-121 | after a committed import, the second check of an allowed statement with identifiers for physical names raises, with MultipleResultsFound, if and only if one of those names is shared in that way |
| `ImportedChecks.ImportedCheckIsStable` | src/sql_gatekeeper/services/checker.py:55-121 | under that condition on the rows and the foreign routes, the rewritten statement of an allowed check is allowed again with the same result if and only if the limit rule accepts its limit under the physical names |
| `ImportedChecks.TwoSourcesNotReady` | src/sql_gatekeeper/tools/spy_table_config_sync.py:304-331 | two sources that configure one table name are routed by source and share that physical name, so that condition always fails for them |
| `ImportedChecks.TwoSourcesRaise` | src/sql_gatekeeper/services/checker.py:55-121 | the second check of every allowed statement that goes to the table of two sources raises MultipleResultsFound |
| `RedisProofs.KeysValidated` | src/sql_gatekeeper/services/redis_gatekeeper.py:361-385 | keys pass exactly when every one is non-empty, short enough, free of wildcards and in scope; otherwise the first bad key decides the reason |
| `RedisScope.ScopeExactly` | src/sql_gatekeeper/services/redis_gatekeeper.py:447-459 | which keys a datasource serves, from its own list or text of prefixes or else the settings' text: those that start with the stripped form of some item that is not blank; all of them if there is no such item or one is * |
| `RedisScope.SplitExactly` | src/sql_gatekeeper/services/redis_gatekeeper.py:453-455 | split yields exactly the pieces between separators |
| `RedisProofs.ArgsValidated` | src/sql_gatekeeper/services/redis_gatekeeper.py:325-359 | arguments pass exactly when their number fits the command and a range has integer bounds with 0 <= start <= stop and at most the maximum size |
| `RedisProofs.CheckAllowsExactly` | src/sql_gatekeeper/services/redis_gatekeeper.py:97-175 | the same for any metadata on which the check does not raise, over the normalized command and the resolution: allowed if and only if the command is known and not denied, its arguments fit, it is resolved to a Redis datasource, and every key may be read there |
| `RedisReasons.AllowedExactly` | src/sql_gatekeeper/services/redis_gatekeeper.py:97-175 | on metadata with unique codes the check never raises, and allows a request exactly when its command is one of the fifteen names in any case, its arguments fit, it goes to a Redis datasource (the one asked for by code, else that of the settings without metadata, else the only one that serves its catalog and first key) and that serves all its keys |
| `RedisReasons.CommandRefused` | src/sql_gatekeeper/services/redis_gatekeeper.py:97-127 | a blank command, one of the twenty-six writes and any other unknown one are refused for that, each with its reason |
| `RedisReasons.ArgumentsDecide` | src/sql_gatekeeper/services/redis_gatekeeper.py:129-145 | for a known command its arguments decide first, then where it goes, each refusal with its reason and the code asked for |
| `RedisReasons.ResolutionExactly` | src/sql_gatekeeper/services/redis_gatekeeper.py:255-323 | the datasource a request goes to is found, and otherwise the reason says why there is none |
| `RedisReasons.PlaceDecides` | src/sql_gatekeeper/services/redis_gatekeeper.py:140-175 | at the datasource: refused if that is no Redis, or for the first key that may not be read, allowed otherwise, with the code asked for or the datasource's own |
| `RedisProofs.CatalogFindsTheOnlyOne` | src/sql_gatekeeper/services/redis_gatekeeper.py:280-323 | catalog routing returns a datasource if and only if exactly one enabled candidate serves the catalog and key, and then that one; otherwise it says whether none or several do |
| `RedisProofs.CatalogOrderIndependent` | src/sql_gatekeeper/services/redis_gatekeeper.py:290-323 | the order in which the database lists the candidates does not matter |
| `RedisProofs.CatalogRouteInScope` | src/sql_gatekeeper/services/redis_gatekeeper.py:306-318 | a one-key command routed by catalog is never refused for key scope |
| `RedisProofs.ResolvedAgain` | src/sql_gatekeeper/services/redis_gatekeeper.py:232-278 | a resolved datasource is the one its code finds again |
| `RedisProofs.AllowedIsVetted` | src/sql_gatekeeper/services/redis_gatekeeper.py:97-192 | an allowed decision is executed on the datasource whose scope it was checked against, with a read-only command, fitting arguments and permitted keys only |
| `RedisProofs.AllowedExecutes` | src/sql_gatekeeper/services/redis_gatekeeper.py:177-219 | executing an allowed decision is total, whatever the server holds and even if it changes after the preflight: only the server can raise, and a result never exceeds the maximum |
| `RedisProofs.MGetRows` | src/sql_gatekeeper/services/redis_gatekeeper.py:429-431 | MGET yields one row per key in order, with what the server holds under it |
| `RedisProofs.HMGetRows` | src/sql_gatekeeper/services/redis_gatekeeper.py:432-433 | HMGET yields one row per field in order, with that field's value |
| `RedisProofs.HGetAllRows` | src/sql_gatekeeper/services/redis_gatekeeper.py:434-435 | HGETALL yields exactly the fields of the hash, in the order of their names |
| `RedisProofs.RangeRows` | src/sql_gatekeeper/services/redis_gatekeeper.py:421-424 | a range with 0 <= start <= stop yields the elements from start on, as many as exist up to stop |
| `RedisProofs.RangeFromEnd` | src/sql_gatekeeper/services/redis_gatekeeper.py:421-424 | negative positions count from the end, and those before the front stand for it |
| `RedisReplies.RepliesExactly` | src/sql_gatekeeper/services/redis_gatekeeper.py:387-440 | what each of the fifteen commands shows, row by row, in terms of what the server holds; a key of another kind is a server error |
| `RedisReplies.ExecutedExactly` | src/sql_gatekeeper/services/redis_gatekeeper.py:177-219 | an allowed request is executed on the datasource it goes to and shows the rows its command is for; it is refused only for their number, before or after, and fails only on a key of another kind |
| `RedisReplies.RefusedWithoutServer` | src/sql_gatekeeper/services/redis_gatekeeper.py:177-192 | a refused decision, or one whose datasource is gone, is answered without asking any server |
| `RedisProofs.OnlyCheckedKeysRead` | src/sql_gatekeeper/services/redis_gatekeeper.py:387-427 | preflight and command depend only on what the server holds under the checked keys |
| `RedisProofs.OutOfScopeInvisible` | src/sql_gatekeeper/services/redis_gatekeeper.py:177-219 | two servers that agree on the permitted keys give the same answer to every allowed decision |
| `RedisProofs.FinalLimitExactly` | src/sql_gatekeeper/services/redis_gatekeeper.py:198-210 | on a store unchanged since the preflight, the final row limit rejects exactly when an MGET names, or an HMGET asks for, more than the maximum, or the one row of a one-reply command is more than it, for every configured maximum |
| `RedisProofs.NormalizeIdempotent` | src/sql_gatekeeper/services/redis_gatekeeper.py:98 | a normalized command name is its own normal form |
| `RedisProofs.RecheckSame` | src/sql_gatekeeper/services/redis_gatekeeper.py:97-175 | checking a decision's own command and arguments again gives the same decision |

## Left out

- Text is ASCII: Unicode case folding, Unicode digits and blanks, and the Unicode reading of the word boundary are not modelled.
- Python's limit on the number of digits in `int()` (4300 by default) is not modelled; integers of any length parse.
- Messages, timing fields, audit logging, update times and descriptions of records: they decide nothing.
- Diagnostics omit the sample of available route values, route source, rule text and extractor hints; the Redis decision omits its diagnostics record.
- Extra JSON of imported rows is modelled by its origin marker only; a datasource's key-prefix entry is its own field.
- Route rules are the expression forms that the importer and the reference data contain, with the output format `{value}`, not general `eval` and `str.format`.
- EXPLAIN evaluation and the fetch of rows are answers of the datasource, given as functions.
- SHA-1 is an arbitrary function to eight hexadecimal digits; nothing is claimed about identifiers that are cut to fit being distinct.
- Identifiers.TableNamesApart: a part with two underscores in a row or one at an end is not covered; such parts can share a name.
- ImportSources.RoutesOrdered: routes of one row, and rows of one range and source that differ in the shard count only, are not ordered among themselves.
- RoutingReasons.RemainderExactly: a text on the left of % is a TypeError; Python would format a text that contains a conversion, which no imported rule can do.
- Engine creation, connection strings, password references, the choice of Redis database number and client options are not modelled.
- The database is rows with the declared unique and foreign keys and exact string equality: no MySQL collation, no column widths, no table statistics, one id counter for all tables, and a whole re-import as one transaction whose statements run in program order.
- The filter interface is an enumeration of the six filters rather than an open protocol.
- The Redis request context and datasource extras hold text values; the server is values and expiry times, read but not written by the gate.
- Nothing is claimed about the meaning of the rewritten SQL to the database: columns qualified by a bare table name are not rewritten, the first LIMIT need not be the outermost, and tables outside FROM and JOIN are not found.
- Full coverage by the legacy suffix is claimed only for route values that are the decimals below their count; the code promises nothing else.
- HTTP routes, request schemas, settings loading, seed data and the remote fetch of configuration rows are plumbing without a hard property.
- Checker.VerdictsTransfer: the limit is described for identifier-shaped physical names only; the parser's patterns read any other name in part.
- Checker.CheckFixpoint: for names that are no identifiers and make no second statement it says that the second check does not go the same way, not which other way it goes.
- Checker.AllowedIsStable: states the name conditions over the whole store; Checker.CheckFixpoint has them for the names of the statement.
- PredicateTransfer.PredicatesAfterRewrite: does not say what becomes of a predicate whose qualifier, column or quoted value a replaced token is part of.
- ImportedChecks.CheckReachesDeclared: says where imported tables go whose names are no enabled physical names; RoutingProofs.PhysicalNameFirst and OtherTables.OtherTableKept cover the other tables.
- ImportedChecks.ImportedRecheckRaises: requires identifier-shaped physical names, like the part of Checker.CheckFixpoint it rests on.
