# RusWizards StyleCop rules in Dafny

This project models two custom StyleCop analyzers for C#. Each one walks a parsed source
document and reports rule violations to the host.

**RusWizardsRules** does three things:
- its cancellable element walk checks every element against two naming rules:
  - `InstanceVariablesUnderscorePrefix`: private fields are named `_camelCase`;
  - `MinimumFieldLength`: names are at least two characters long;
- a scan over the document's token list reports the alias keywords of built-in types
  (`int`, `string`, …), rule `DoNotUseBuiltInTypeAliases`. It exempts an alias that is the
  target of a using-alias directive (`= int`) or the underlying type of an enum (`: byte`),
  and it descends into generic type arguments;
- the `UseThisPrefix` resolver walks the statements of every method and accessor of every
  class and struct. It reports each bare word that refers to an instance member of the
  enclosing class, unless the word is:
  - already qualified (`.`, `->`, `::`);
  - shadowed by a local declared before it;
  - the target of an object initializer entry;
  - static, const, a nested type, or a property named after its own type.

**InstanceVariablesUnderscorePrefix** is a standalone version of the underscore rule. It has
its own cancellable walk and a slightly different length guard.

## Modules

- `Syntax`: the document as values:
  - elements, statements and expressions as recursive datatypes, tokens with child tokens,
    local variables with their positions;
  - a violation is a rule, a line and its message arguments.

  A parent link of the host's tree becomes an explicit path of enclosing code units,
  outermost first.
- `ElementWalk`: the cancellable depth-first walk both `ProcessElement` methods perform. It is
  parametrised by the per-element check. Cancel is a flag of the host, which the source only
  reads. The model assumes that once the host sets it, it stays set; it is then modelled by
  `cancelAfter`, the number of the first read that sees it set, and a counter `polls` of
  reads made so far.
- `NamingRules`: the two naming predicates of RusWizardsRules.
- `UnderscorePrefix`: the standalone analyzer, as a class whose methods append to `violations`.
- `BuiltInAliases`: the alias table and the token scan as functions.
- `ThisPrefix`: the resolver as functions: the local search, the member decision, and the
  expression, statement and element traversals.
- `RusWizards`: the RusWizardsRules class. Its methods follow the source's loops and
  recursion. Each is proved to append exactly what the matching function of the modules
  above prescribes, and to leave the Cancel counter alone unless it reads Cancel.

The source's integer widths play no role: lines, columns and indices are compared, never
computed with. Two behaviours of the source worth noting:
- The alias scan matches a type token's spelling against the table's third column, the alias
  keyword (RusWizardsRules.cs:237). So `int x;` is reported, citing `Int32`, `System.Int32`
  and `int`, while `Int32 x;` is accepted (`BuiltInAliases.KeywordReported`,
  `BuiltInAliases.CanonicalNameAccepted`).
- Cancel is read only on entry to each element of a walk (RusWizardsRules.cs:122 and :306),
  not inside the statement and expression traversal.

## Model

| member | source | states |
|---|---|---|
| NamingRules.IsPrivateAccess | StyleCopRules/RusWizardsRules.cs:165-168 | private, protected and protected-internal access count as non-public; public, internal and protected-and-internal do not |
| NamingRules.IsSupportedForMinLengthElementType | StyleCopRules/RusWizardsRules.cs:193-198 | the measured kinds are exactly all kinds but root, directives, assembly attributes, constructors, destructors, enum items, accessors, indexers and empty elements |
| NamingRules.UnderscorePrefixViolatedIff | StyleCopRules/RusWizardsRules.cs:145-168 | a field is flagged iff it is non-generated, private/protected/protected-internal, and its name is not `_` followed by nothing or by a character lower-casing leaves alone; public and internal fields never are |
| NamingRules.MinimumLengthViolatedIff | StyleCopRules/RusWizardsRules.cs:174-198 | an element is flagged iff it is non-generated, its name has at most one character, and its kind is none of the ten kinds the rule does not measure |
| NamingRules.AccountFieldsExample | StyleCopRules/RusWizardsRules.cs:145-156 | `balance` and `_Balance` are flagged, `_balance` is not |
| RusWizards.RusWizardsRules.constructor | StyleCopRules/RusWizardsRules.cs:12 | a new analyzer has reported nothing and has not read Cancel |
| RusWizards.RusWizardsRules.ProcessElement | StyleCopRules/RusWizardsRules.cs:120-139 | the result, the added violations and the reads of Cancel are those of the cancellable preorder walk with both naming checks |
| RusWizards.RusWizardsRules.ProcessChildren | StyleCopRules/RusWizardsRules.cs:130-136 | the children loop adds each child's walk in order and stops at the first cancelled one |
| RusWizards.RusWizardsRules.CheckInstanceVariablesUnderscorePrefix | StyleCopRules/RusWizardsRules.cs:145-156 | appends the one underscore-prefix violation iff the element is flagged, otherwise nothing |
| RusWizards.RusWizardsRules.CheckMinimumFieldLength | StyleCopRules/RusWizardsRules.cs:174-184 | appends the one minimum-length violation iff the element is flagged, otherwise nothing |
| RusWizards.RusWizardsRules.IterateTokenList | StyleCopRules/RusWizardsRules.cs:208-220 | appends the checks of every type token of the list, in list order |
| RusWizards.RusWizardsRules.CheckBuiltInType | StyleCopRules/RusWizardsRules.cs:227-290 | appends the token's own alias report, then the checks of the type tokens among its children |
| RusWizards.RusWizardsRules.CheckAlias | StyleCopRules/RusWizardsRules.cs:231-280 | appends the first matching row's violation unless the nearest significant predecessor is `=` or `:`; nothing for a generic token or no match |
| RusWizards.RusWizardsRules.GetPreviousToken | StyleCopRules/RusWizardsRules.cs:415-427 | returns the nearest earlier token that is not whitespace or an end of line, with only such tokens in between; none iff all earlier tokens are such |
| RusWizards.RusWizardsRules.IsLiteralTokenPrecededByMemberAccessSymbol | StyleCopRules/RusWizardsRules.cs:435-457 | true iff some earlier `.`, `->` or `::` is followed up to the word by whitespace and ends of line only |
| RusWizards.RusWizardsRules.IsLocalMember | StyleCopRules/RusWizardsRules.cs:495-516 | true iff a unit from the innermost enclosing element inwards holds a variable of that name declared before the word |
| RusWizards.RusWizardsRules.MatchClassMember | StyleCopRules/RusWizardsRules.cs:569-596 | returns exactly the members listed under the word that are fields, are named the word, or (for interfaces) end in `.word`; none if the word is not listed |
| RusWizards.RusWizardsRules.FindClassMember | StyleCopRules/RusWizardsRules.cs:606-620 | the same, except that the class's own name has no candidates |
| RusWizards.RusWizardsRules.CheckWordUsageAgainstClassMemberRules | StyleCopRules/RusWizardsRules.cs:751-814 | appends at most one UseThisPrefix violation for the word, and exactly when the resolver's decision says so |
| RusWizards.RusWizardsRules.SelectClassMember | StyleCopRules/RusWizardsRules.cs:771-792 | none if any candidate is static or const, else the first candidate that is not a nested type |
| RusWizards.RusWizardsRules.CheckClassMemberRulesForLiteralToken | StyleCopRules/RusWizardsRules.cs:711-739 | appends the word check of the literal token unless it is a type, starts with `.` or is `this` |
| RusWizards.RusWizardsRules.CheckClassMemberRulesForExpression | StyleCopRules/RusWizardsRules.cs:630-700 | appends what the expression traversal prescribes for the expression and its parent |
| RusWizards.RusWizardsRules.CheckArguments | StyleCopRules/RusWizardsRules.cs:683-697 | appends the checks of every invocation argument in order, each with no parent expression |
| RusWizards.RusWizardsRules.CheckClassMemberRulesForExpressions | StyleCopRules/RusWizardsRules.cs:382-407 | appends the checks of each listed expression in order; a declarator contributes only its initializer |
| RusWizards.RusWizardsRules.CheckClassMemberRulesForStatements | StyleCopRules/RusWizardsRules.cs:354-372 | appends, per statement in order, its sub-statements' checks and then its expressions' checks |
| RusWizards.RusWizardsRules.CheckClassMemberRulesForElements | StyleCopRules/RusWizardsRules.cs:303-345 | the result, the added violations and the reads of Cancel are those of the element walk of the resolver |
| RusWizards.RusWizardsRules.CheckClassMemberRulesForChildren | StyleCopRules/RusWizardsRules.cs:311-342 | the children loop: generated children skipped, methods and accessors checked inside a class, nested classes walked with their result ignored, a cancelled walk ends the loop |
| ElementWalk.WalkMeetsFlat | StyleCopRules/InstanceVariablesUnderscorePrefix.cs:38-65 | a walk completes iff none of its Size reads sees Cancel; a completed walk reports exactly the preorder result, a cancelled one a prefix of it |
| ElementWalk.WalkChildrenMeetsFlat | StyleCopRules/InstanceVariablesUnderscorePrefix.cs:56-62 | the same for the children loop |
| ElementWalk.CancelledChildStopsSiblings | StyleCopRules/InstanceVariablesUnderscorePrefix.cs:56-62 | after a cancelled child walk the later siblings add nothing and read nothing |
| ElementWalk.FlatIsChecksInPreorder | StyleCopRules/InstanceVariablesUnderscorePrefix.cs:53-62 | the reference result is the check of each element of the subtree in depth-first preorder |
| ElementWalk.FlatAllIsChecksInPreorder | StyleCopRules/InstanceVariablesUnderscorePrefix.cs:56-62 | the same for a list of children |
| ElementWalk.ChecksOfAppend | StyleCopRules/InstanceVariablesUnderscorePrefix.cs:56-62 | checking two lists of elements is checking each in turn |
| UnderscorePrefix.InstanceVariablesUnderscorePrefix.constructor | StyleCopRules/InstanceVariablesUnderscorePrefix.cs:11 | a new analyzer has reported nothing and has not read Cancel |
| UnderscorePrefix.InstanceVariablesUnderscorePrefix.AnalyzeDocument | StyleCopRules/InstanceVariablesUnderscorePrefix.cs:22-29 | a missing or generated root adds nothing; otherwise the whole cancellable walk from the root is performed |
| UnderscorePrefix.InstanceVariablesUnderscorePrefix.ProcessElement | StyleCopRules/InstanceVariablesUnderscorePrefix.cs:38-65 | the result, the added violations and the reads of Cancel are those of the cancellable preorder walk with this analyzer's check |
| UnderscorePrefix.InstanceVariablesUnderscorePrefix.ProcessChildren | StyleCopRules/InstanceVariablesUnderscorePrefix.cs:56-62 | the children loop adds each child's walk in order and stops at the first cancelled one |
| UnderscorePrefix.FlaggedIff | StyleCopRules/InstanceVariablesUnderscorePrefix.cs:47-51 | a field is flagged iff it is non-generated, private/protected/protected-internal, and its name is not `_` followed by at most one character or by a character lower-casing leaves alone |
| UnderscorePrefix.VariantsDifferOnlyAtLengthTwo | StyleCopRules/InstanceVariablesUnderscorePrefix.cs:51 | every field this analyzer flags RusWizardsRules flags too; they disagree exactly on `_` plus one capital |
| UnderscorePrefix.BoundaryExample | StyleCopRules/InstanceVariablesUnderscorePrefix.cs:51 | `_B` passes here but not in RusWizardsRules; `_Bc` is flagged by both |
| UnderscorePrefix.TempFieldFlagged | StyleCopRules/InstanceVariablesUnderscorePrefix.cs:16 | the analyzer's own private field `temp` breaks its rule |
| BuiltInAliases.Predecessor | StyleCopRules/RusWizardsRules.cs:244-264 | the nearest earlier token that is not trivia, with only trivia in between; none iff all earlier tokens are trivia |
| BuiltInAliases.MatchingRowFrom | StyleCopRules/RusWizardsRules.cs:231-280 | the first table row the token spells, all earlier rows not spelled; none iff no row is spelled |
| BuiltInAliases.FirstSignificant | StyleCopRules/RusWizardsRules.cs:237 | the first child token that is not trivia; none iff all are trivia |
| BuiltInAliases.AliasesDistinct | StyleCopRules/RusWizardsRules.cs:19-36 | no two rows share an alias keyword |
| BuiltInAliases.AliasReported | StyleCopRules/RusWizardsRules.cs:231-280 | a non-generic token spelling row i yields exactly row i's violation unless its predecessor is `=` or `:` |
| BuiltInAliases.NoAliasNoReport | StyleCopRules/RusWizardsRules.cs:227-290 | a generic token, or one spelling no alias, reports only what its children do |
| BuiltInAliases.PredecessorAt | StyleCopRules/RusWizardsRules.cs:244-264 | the backward scan stops at the first non-trivia token |
| BuiltInAliases.NoPredecessor | StyleCopRules/RusWizardsRules.cs:244-264 | a scan over trivia only finds no predecessor, so the token is reported |
| BuiltInAliases.ScanListSound | StyleCopRules/RusWizardsRules.cs:208-220 | every report of the scan, at any depth, is an alias report naming one row of the table |
| BuiltInAliases.TypeViolationsSound | StyleCopRules/RusWizardsRules.cs:227-290 | the same for one type token and its children |
| BuiltInAliases.NoTypeTokenNoReport | StyleCopRules/RusWizardsRules.cs:208-220 | a stretch of tokens with no type token reports nothing |
| BuiltInAliases.UsingAliasExempt | StyleCopRules/RusWizardsRules.cs:266-275 | `using A = int;` reports nothing |
| BuiltInAliases.EnumBaseExempt | StyleCopRules/RusWizardsRules.cs:266-275 | `enum C : byte` reports nothing |
| BuiltInAliases.KeywordReported | StyleCopRules/RusWizardsRules.cs:266-277 | `int x;` is reported once, citing the Int32 row |
| BuiltInAliases.CanonicalNameAccepted | StyleCopRules/RusWizardsRules.cs:19-36 | `Int32 x;` is accepted |
| BuiltInAliases.GenericArgumentReported | StyleCopRules/RusWizardsRules.cs:282-289 | in `List<int>` the generic token itself is not matched but its `int` argument is reported |
| ThisPrefix.PreviousToken | StyleCopRules/RusWizardsRules.cs:415-427 | the nearest earlier token that is not whitespace or an end of line, with only such tokens in between; none iff all earlier tokens are such |
| ThisPrefix.MemberAccessIff | StyleCopRules/RusWizardsRules.cs:435-457 | the member access test holds iff an earlier `.`, `->` or `::` is separated from the word by whitespace and ends of line only (a comment breaks it) |
| ThisPrefix.FindVariable | StyleCopRules/RusWizardsRules.cs:468 | the collection's lookup by name finds the first variable of that name, none iff there is none |
| ThisPrefix.ContainsVariable | StyleCopRules/RusWizardsRules.cs:466-486 | true iff the variable the collection holds under the word (the first of that name) is declared on an earlier line, or earlier on the same line |
| ThisPrefix.ContainsVariableIff | StyleCopRules/RusWizardsRules.cs:466-486 | in a collection keyed by name, a local counts iff one of that name is declared on an earlier line or earlier on the same line |
| ThisPrefix.DeclarationDoesNotShadowItself | StyleCopRules/RusWizardsRules.cs:471-481 | a declaration at or after the word's position does not shadow it |
| ThisPrefix.ScopeStart | StyleCopRules/RusWizardsRules.cs:505-508 | the local search starts at the innermost element unit of the path, with no element inside it |
| ThisPrefix.ScopeStopsAtElement | StyleCopRules/RusWizardsRules.cs:495-516 | units outside the innermost element never change whether a word is local |
| ThisPrefix.Matches | StyleCopRules/RusWizardsRules.cs:569-596 | exactly the listed members that match the word, no more of them than listed; their order is the list's (see `ThisPrefix.MatchesKeepOrder`, `ThisPrefix.FoundMemberOfMatches`) |
| ThisPrefix.MemberCandidates | StyleCopRules/RusWizardsRules.cs:606-620 | exactly the matching members listed under the word, and none for the class's own name; in the index's order, so the found member is the first matching non-type listed (see `ThisPrefix.FoundMemberOfMatches`) |
| ThisPrefix.MatchesKeepOrder | StyleCopRules/RusWizardsRules.cs:576-593 | every match stands at a position of the member list, and every matching member listed before it comes before it among the matches |
| ThisPrefix.FoundMemberOfMatches | StyleCopRules/RusWizardsRules.cs:771-806 | a member is found among the matches iff no matching member is static or const and some matching member is not a type; the found member is then the first matching member of the list that is not a type |
| ThisPrefix.FirstNonType | StyleCopRules/RusWizardsRules.cs:771-792 | the first candidate that is not a nested class, struct, delegate or enum; none iff all are |
| ThisPrefix.FoundMember | StyleCopRules/RusWizardsRules.cs:771-792 | a member is found iff no candidate is static or const and some candidate is not a type; it is the first such non-type |
| ThisPrefix.StaticCandidateCancels | StyleCopRules/RusWizardsRules.cs:771-792 | any static or const matching candidate, wherever it stands, cancels the report |
| ThisPrefix.MemberIsReportable | StyleCopRules/RusWizardsRules.cs:794-811 | a property whose name differs from its type's is reportable |
| ThisPrefix.WordViolations | StyleCopRules/RusWizardsRules.cs:751-814 | at most one UseThisPrefix violation with the word and line; one iff the word is not local, not an object initializer target, not the class's name, and names a reportable instance member |
| ThisPrefix.LiteralTokenViolations | StyleCopRules/RusWizardsRules.cs:711-739 | anything reported is one violation for a token that is no type, does not start with `.` and is not `this` |
| ThisPrefix.LiteralReportedIff | StyleCopRules/RusWizardsRules.cs:637-653 | a literal is reported iff it is not after member access, not a type, `.`-word or `this`, not local, not an object initializer target, not the class's name, and a reportable member |
| ThisPrefix.CollectionInitializerVisitsRightHandSide | StyleCopRules/RusWizardsRules.cs:656-661 | under a collection initializer an assignment contributes only its right-hand side |
| ThisPrefix.DeclaratorNameNotChecked | StyleCopRules/RusWizardsRules.cs:394-401 | a declarator's name is never checked; only an initializer that is present is |
| ThisPrefix.ExprSound | StyleCopRules/RusWizardsRules.cs:630-700 | every report of the expression traversal names an instance member of the index, never the class's own name |
| ThisPrefix.ExprsSound | StyleCopRules/RusWizardsRules.cs:382-407 | the same for an expression list |
| ThisPrefix.ArgsSound | StyleCopRules/RusWizardsRules.cs:683-697 | the same for invocation arguments |
| ThisPrefix.StmtSound | StyleCopRules/RusWizardsRules.cs:354-372 | the same for a statement |
| ThisPrefix.StmtsSound | StyleCopRules/RusWizardsRules.cs:354-372 | the same for a statement list |
| ThisPrefix.MemberWalkSound | StyleCopRules/RusWizardsRules.cs:303-345 | every report of the element walk, in any class at any depth, names a member of the index |
| ThisPrefix.MemberWalkChildrenSound | StyleCopRules/RusWizardsRules.cs:311-342 | the same for the children loop |
| ThisPrefix.NestedClassDoesNotCancel | StyleCopRules/RusWizardsRules.cs:330-335 | a nested class or struct is walked as the new class, and a cancellation inside it does not end its parent's loop |
| ThisPrefix.MethodOutsideClassSkipped | StyleCopRules/RusWizardsRules.cs:315-327 | outside any class the statements of methods and accessors are not examined |
| ThisPrefix.ConstructorStatementsIgnored | StyleCopRules/RusWizardsRules.cs:315-318 | the statements of constructors and destructors never change the outcome |
| ThisPrefix.CancelledMemberWalkStops | StyleCopRules/RusWizardsRules.cs:336-339 | once a child's walk is cancelled, later siblings add nothing |
| ThisPrefix.IsObjectInitializerLeftHandSide | StyleCopRules/RusWizardsRules.cs:537-560 | a literal is an object initializer target iff its parent unit is an assignment whose left-hand side it is, and that assignment's parent unit is an object initializer (its consequence is `ThisPrefix.ObjectInitializerEntry`) |
| ThisPrefix.ObjectInitializerEntry | StyleCopRules/RusWizardsRules.cs:537-560 | for every entry `name = rhs` of any object initializer, whatever its other entries, the index and the tokens, the name is never reported and only the right-hand side is checked, under the entry and the initializer |
| ThisPrefix.ObjectInitializerScenario | StyleCopRules/RusWizardsRules.cs:537-560 | in `new T { Member = Member }` only the right-hand `Member` is reported |
| ThisPrefix.ScenarioLeftHandSide | StyleCopRules/RusWizardsRules.cs:537-560 | the left-hand `Member` of an object initializer entry is not reported |
| ThisPrefix.ScenarioRightHandSide | StyleCopRules/RusWizardsRules.cs:751-814 | the right-hand `Member` is reported on its line |
| ThisPrefix.QualifiedNotReported | StyleCopRules/RusWizardsRules.cs:435-457 | in a method body, `this.Member` is not reported |
| ThisPrefix.ShadowedNotReported | StyleCopRules/RusWizardsRules.cs:466-516 | in a method body, `Member` is not reported after a local of that name declared earlier |

## Left out

- `AnalyzeDocument` of RusWizardsRules (lines 44-59) is host plumbing and is not modelled:
  the document casts, the `WalkDocument` callback and the call that starts the member walk.
  Each of its steps is modelled on its own. The host may visit an element more than once;
  that is not modelled.
- The LINQ query check (lines 74-105) is outside the modelled core.
- The member index is an input. No code that builds it is part of this model. The source
  passes no index at line 55, which would fail on the first lookup at line 576; that failure
  is not modelled.
- The token matcher of the host library is modelled as: the first child token that is not
  trivia has the keyword's text.
- Lower-casing is ASCII only: a character changes under it iff it is `A` to `Z`. The host's
  culture-sensitive lowering is not modelled.
- A violation carries its rule, line and message arguments. The element object the source
  attaches (found through the host's parent search) is left out.
- Parent links are modelled as the path of enclosing units. Reference equality of the
  left-hand side in the object initializer test is modelled as value equality; distinct
  literals differ in their token index.
- A literal whose token index lies outside the token list reports nothing. A parsed
  document cannot contain one.
- The Cancel flag is read in the order the walk reads it. Concurrent setting by the host is
  modelled only through which read first sees it set.
- Five loops are split out of the source methods that hold them, as methods of their own:
  `ProcessChildren` is the child loop of `ProcessElement` (StyleCopRules/RusWizardsRules.cs:130-136
  and StyleCopRules/InstanceVariablesUnderscorePrefix.cs:56-62); `CheckAlias` is the loop of
  `CheckBuiltInType` (StyleCopRules/RusWizardsRules.cs:231-280); `SelectClassMember` is the loop of
  `CheckWordUsageAgainstClassMemberRules` (StyleCopRules/RusWizardsRules.cs:771-792);
  `CheckArguments` is the argument loop of `CheckClassMemberRulesForExpression`
  (StyleCopRules/RusWizardsRules.cs:683-697); `CheckClassMemberRulesForChildren` is the loop of
  `CheckClassMemberRulesForElements` (StyleCopRules/RusWizardsRules.cs:311-342).
- The rule registration attributes and the settings XML are not part of this model.
