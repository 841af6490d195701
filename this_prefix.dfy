/**
 * The UseThisPrefix check of RusWizardsRules: inside the bodies of methods and accessors,
 * a bare identifier that names an instance member of the enclosing class or struct must
 * be written `this.name`.
 *
 * The host's parent links are replaced by the path of code units enclosing an expression
 * (outermost first); the element whose statements are being checked starts the path.
 * A literal expression refers to its token by index in the document's token list.
 */
module ThisPrefix {
  import opened Syntax
  import opened ElementWalk

  /** What the member checks carry besides the code unit: the tokens, the enclosing class's name and its member index. */
  datatype Context = Context(tokens: seq<Token>, className: string, members: map<string, seq<Element>>)

  // ---------------------------------------------------------------------------------------
  // Member access before the word.

  /** The tokens the backward search for a previous token steps over (comments are not among them). */
  predicate IsSpace(t: Token)
  {
    t.tokenType == EndOfLine || t.tokenType == WhiteSpace
  }

  /** The nearest token before index `k` that is neither whitespace nor an end of line. */
  function PreviousToken(tokens: seq<Token>, k: nat): (r: Option<nat>)
    requires k <= |tokens|
    ensures r.Some? ==> r.value < k && !IsSpace(tokens[r.value])
    ensures r.Some? ==> forall j :: r.value < j < k ==> IsSpace(tokens[j])
    ensures r.None? ==> forall j :: 0 <= j < k ==> IsSpace(tokens[j])
  {
    if k == 0 then None
    else if !IsSpace(tokens[k - 1]) then Some(k - 1)
    else PreviousToken(tokens, k - 1)
  }

  /** `.`, `->` and `::`. */
  predicate IsMemberAccessSymbol(t: Token)
  {
    t.tokenType.OperatorSymbol?
    && (t.tokenType.symbol == MemberAccess || t.tokenType.symbol == Pointer || t.tokenType.symbol == QualifiedAlias)
  }

  /** Whether the token at `k` follows a member access symbol, skipping only whitespace and ends of line. */
  predicate PrecededByMemberAccess(tokens: seq<Token>, k: nat)
    requires k <= |tokens|
  {
    var p := PreviousToken(tokens, k);
    p.Some? && IsMemberAccessSymbol(tokens[p.value])
  }

  // ---------------------------------------------------------------------------------------
  // Local variables.

  /** The variable a collection holds under `word`: a collection is keyed by name, so the first with that name. */
  function FindVariable(vs: seq<Variable>, word: string): (r: Option<nat>)
    ensures r.Some? ==> r.value < |vs| && vs[r.value].name == word
    ensures r.Some? ==> forall j :: 0 <= j < r.value ==> vs[j].name != word
    ensures r.None? ==> forall j :: 0 <= j < |vs| ==> vs[j].name != word
  {
    if vs == [] then None
    else if vs[0].name == word then Some(0)
    else
      var r := FindVariable(vs[1..], word);
      if r.Some? then Some(r.value + 1) else None
  }

  /** Declared on an earlier line, or earlier on the same line. */
  predicate DeclaredBefore(v: Variable, item: Token)
  {
    v.line < item.line || (v.line == item.line && v.column < item.column)
  }

  /** The variable the collection holds under `word` exists and is declared before `item`. */
  predicate ContainsVariable(vs: seq<Variable>, word: string, item: Token): (b: bool)
    ensures b <==> exists i :: 0 <= i < |vs| && vs[i].name == word && DeclaredBefore(vs[i], item)
                              && forall j :: 0 <= j < i ==> vs[j].name != word
  {
    var f := FindVariable(vs, word);
    f.Some? && DeclaredBefore(vs[f.value], item)
  }

  /** The innermost element unit of the path, or 0 when there is none: the local search stops there. */
  function ScopeStart(path: seq<CodeUnit>): (r: nat)
    ensures path != [] ==> r < |path|
    ensures path == [] ==> r == 0
    ensures r > 0 ==> path[r].ElementUnit?
    ensures forall j :: r < j < |path| ==> !path[j].ElementUnit?
  {
    if |path| <= 1 then 0
    else if path[|path| - 1].ElementUnit? then |path| - 1
    else ScopeStart(path[..|path| - 1])
  }

  /** Whether some unit from the innermost element inwards declares `word` before `item`. */
  predicate IsLocal(word: string, item: Token, path: seq<CodeUnit>)
  {
    exists k :: ScopeStart(path) <= k < |path| && ContainsVariable(VariablesOf(path[k]), word, item)
  }

  // ---------------------------------------------------------------------------------------
  // Object initializers.

  /** `e` is the left-hand side of an assignment that sits directly in an object initializer. */
  predicate IsObjectInitializerLeftHandSide(e: Expression, parents: seq<CodeUnit>)
  {
    && e.Literal?
    && |parents| >= 2
    && parents[|parents| - 1].ExpressionUnit?
    && parents[|parents| - 1].expression.Assignment?
    && parents[|parents| - 1].expression.leftHandSide == e
    && parents[|parents| - 2].ExpressionUnit?
    && parents[|parents| - 2].expression.ObjectInitializer?
  }

  // ---------------------------------------------------------------------------------------
  // Class members.

  predicate EndsWith(s: string, suffix: string)
  {
    |suffix| <= |s| && s[|s| - |suffix|..] == suffix
  }

  /** A member listed under `word` matches if it is a field, is named `word`, or (for interfaces) ends in `.word`. */
  predicate IsMatch(m: Element, word: string, interfaces: bool)
  {
    m.kind == Field || m.name == word || (interfaces && EndsWith(m.name, "." + word))
  }

  /** The matching members of a list, in list order. */
  function Matches(cands: seq<Element>, word: string, interfaces: bool): (r: seq<Element>)
    ensures |r| <= |cands|
    ensures forall m :: m in r <==> m in cands && IsMatch(m, word, interfaces)
  {
    if cands == [] then []
    else
      var last := cands[|cands| - 1];
      assert cands == cands[..|cands| - 1] + [last];
      Matches(cands[..|cands| - 1], word, interfaces) + (if IsMatch(last, word, interfaces) then [last] else [])
  }

  /** The members a word may refer to: none for the class's own name (a constructor) or for a word not in the index. */
  function MemberCandidates(word: string, ctx: Context, interfaces: bool): (r: seq<Element>)
    ensures r != [] ==> word != ctx.className && word in ctx.members
    ensures forall m :: m in r <==>
              word != ctx.className && word in ctx.members && m in ctx.members[word] && IsMatch(m, word, interfaces)
  {
    if word != ctx.className && word in ctx.members then Matches(ctx.members[word], word, interfaces) else []
  }

  /** A static member, or a const field: a reference that needs no `this.`. */
  predicate StaticOrConst(m: Element)
  {
    m.isStatic || (m.kind == Field && m.isConst)
  }

  /** Nested types, delegates and enums are types, not instance members. */
  predicate IsTypeKind(k: ElementType)
  {
    k == Class || k == Struct || k == Delegate || k == Enum
  }

  function FirstNonType(cands: seq<Element>): (r: Option<nat>)
    ensures r.Some? ==> r.value < |cands| && !IsTypeKind(cands[r.value].kind)
    ensures r.Some? ==> forall j :: 0 <= j < r.value ==> IsTypeKind(cands[j].kind)
    ensures r.None? ==> forall j :: 0 <= j < |cands| ==> IsTypeKind(cands[j].kind)
  {
    if cands == [] then None
    else if !IsTypeKind(cands[0].kind) then Some(0)
    else
      var r := FirstNonType(cands[1..]);
      if r.Some? then Some(r.value + 1) else None
  }

  /**
   * The member the word refers to: none if any candidate is static or const, wherever it
   * stands in the list; otherwise the first candidate that is not a type.
   */
  function FoundMember(cands: seq<Element>): (r: Option<Element>)
    ensures r.Some? <==>
              (forall m :: m in cands ==> !StaticOrConst(m)) && (exists m :: m in cands && !IsTypeKind(m.kind))
    ensures r.Some? ==> exists i :: 0 <= i < |cands| && cands[i] == r.value && !IsTypeKind(r.value.kind)
                                    && forall j :: 0 <= j < i ==> IsTypeKind(cands[j].kind)
  {
    if exists i :: 0 <= i < |cands| && StaticOrConst(cands[i]) then None
    else
      var f := FirstNonType(cands);
      if f.Some? then Some(cands[f.value]) else None
  }

  /**
   * Entry `k` of `ms` is the matching member at position `i` of `cands`, and every earlier
   * matching member of `cands` comes earlier in `ms`.
   */
  ghost predicate PlacedAt(ms: seq<Element>, cands: seq<Element>, word: string, interfaces: bool, k: nat, i: nat)
    requires k < |ms| && i < |cands|
  {
    && cands[i] == ms[k]
    && IsMatch(cands[i], word, interfaces)
    && forall j :: 0 <= j < i && IsMatch(cands[j], word, interfaces) ==> cands[j] in ms[..k]
  }

  /** Entry `k` of `ms` stands at some position of `cands` as `PlacedAt` describes. */
  ghost predicate Placed(ms: seq<Element>, cands: seq<Element>, word: string, interfaces: bool, k: nat)
    requires k < |ms|
  {
    exists i :: 0 <= i < |cands| && PlacedAt(ms, cands, word, interfaces, k, i)
  }

  /** `ms` lists matching members of `cands` in the order of `cands`. */
  ghost predicate KeepsOrder(ms: seq<Element>, cands: seq<Element>, word: string, interfaces: bool)
  {
    forall k :: 0 <= k < |ms| ==> Placed(ms, cands, word, interfaces, k)
  }

  /** The matches keep the order of the member list they are taken from. */
  lemma {:induction false} MatchesKeepOrder(cands: seq<Element>, word: string, interfaces: bool)
    ensures KeepsOrder(Matches(cands, word, interfaces), cands, word, interfaces)
  {
    if cands != [] {
      var init := cands[..|cands| - 1];
      MatchesKeepOrder(init, word, interfaces);
      var ms := Matches(cands, word, interfaces);
      forall k | 0 <= k < |ms|
        ensures Placed(ms, cands, word, interfaces, k)
      {
        var i := PlacedInMatches(cands, word, interfaces, k);
      }
    }
  }

  /** Where entry `k` of the matches of a non-empty list stands in it, given the order of the shorter list. */
  lemma PlacedInMatches(cands: seq<Element>, word: string, interfaces: bool, k: nat) returns (i: nat)
    requires cands != [] && KeepsOrder(Matches(cands[..|cands| - 1], word, interfaces), cands[..|cands| - 1], word, interfaces)
    requires k < |Matches(cands, word, interfaces)|
    ensures i < |cands| && PlacedAt(Matches(cands, word, interfaces), cands, word, interfaces, k, i)
  {
    var init, last := cands[..|cands| - 1], cands[|cands| - 1];
    var m0 := Matches(init, word, interfaces);
    var ms := Matches(cands, word, interfaces);
    assert ms == m0 + (if IsMatch(last, word, interfaces) then [last] else []);
    if k < |m0| {
      assert Placed(m0, init, word, interfaces, k);
      i :| 0 <= i < |init| && PlacedAt(m0, init, word, interfaces, k, i);
      assert ms[..k] == m0[..k];
      forall j | 0 <= j < i && IsMatch(cands[j], word, interfaces)
        ensures cands[j] in ms[..k]
      {
        assert cands[j] == init[j];
      }
    } else {
      assert ms[..k] == m0;
      i := |cands| - 1;
      forall j | 0 <= j < i && IsMatch(cands[j], word, interfaces)
        ensures cands[j] in ms[..k]
      {
        assert cands[j] == init[j];
      }
    }
  }

  /**
   * The member a word is taken to refer to, in terms of the member list it is indexed under:
   * none if a matching member is static or const, or if every matching member is a type;
   * otherwise the first matching member of the list that is not a type.
   */
  lemma FoundMemberOfMatches(cands: seq<Element>, word: string, interfaces: bool)
    ensures var f := FoundMember(Matches(cands, word, interfaces));
            && (f.Some? <==>
                  && (forall m :: m in cands && IsMatch(m, word, interfaces) ==> !StaticOrConst(m))
                  && (exists m :: m in cands && IsMatch(m, word, interfaces) && !IsTypeKind(m.kind)))
            && (f.Some? ==>
                  exists i :: 0 <= i < |cands| && cands[i] == f.value && IsMatch(cands[i], word, interfaces)
                              && !IsTypeKind(f.value.kind)
                              && forall j :: 0 <= j < i && IsMatch(cands[j], word, interfaces) ==> IsTypeKind(cands[j].kind))
  {
    FoundMatchIff(cands, word, interfaces);
    var f := FoundMember(Matches(cands, word, interfaces));
    if f.Some? {
      var i := FoundMatchPosition(cands, word, interfaces);
    }
  }

  /** Whether a member is found among the matches, in terms of the member list itself. */
  lemma FoundMatchIff(cands: seq<Element>, word: string, interfaces: bool)
    ensures var f := FoundMember(Matches(cands, word, interfaces));
            f.Some? <==>
              && (forall m :: m in cands && IsMatch(m, word, interfaces) ==> !StaticOrConst(m))
              && (exists m :: m in cands && IsMatch(m, word, interfaces) && !IsTypeKind(m.kind))
  {
    var ms := Matches(cands, word, interfaces);
    assert (forall m :: m in ms ==> !StaticOrConst(m))
       <==> (forall m :: m in cands && IsMatch(m, word, interfaces) ==> !StaticOrConst(m));
    assert (exists m :: m in ms && !IsTypeKind(m.kind))
       <==> (exists m :: m in cands && IsMatch(m, word, interfaces) && !IsTypeKind(m.kind));
  }

  /** The found member is the first matching member of the list that is not a type. */
  lemma FoundMatchPosition(cands: seq<Element>, word: string, interfaces: bool) returns (i: nat)
    requires FoundMember(Matches(cands, word, interfaces)).Some?
    ensures var f := FoundMember(Matches(cands, word, interfaces));
            && i < |cands| && cands[i] == f.value && IsMatch(cands[i], word, interfaces)
            && !IsTypeKind(f.value.kind)
            && forall j :: 0 <= j < i && IsMatch(cands[j], word, interfaces) ==> IsTypeKind(cands[j].kind)
  {
    var ms := Matches(cands, word, interfaces);
    var f := FoundMember(ms);
    MatchesKeepOrder(cands, word, interfaces);
    var k :| 0 <= k < |ms| && ms[k] == f.value && !IsTypeKind(f.value.kind)
             && forall j :: 0 <= j < k ==> IsTypeKind(ms[j].kind);
    assert Placed(ms, cands, word, interfaces, k);
    i :| 0 <= i < |cands| && PlacedAt(ms, cands, word, interfaces, k, i);
    forall j | 0 <= j < i && IsMatch(cands[j], word, interfaces)
      ensures IsTypeKind(cands[j].kind)
    {
      assert cands[j] in ms[..k];
      var t :| 0 <= t < k && ms[..k][t] == cands[j];
      assert ms[t] == cands[j];
    }
  }

  /** A property whose name is its own type's name is taken to name the type, not the property. */
  predicate ReportsMember(m: Element)
  {
    m.kind != Property || m.returnType != m.name
  }

  /** A word that names an instance member under the member index, the class's own name aside. */
  predicate Reportable(word: string, members: map<string, seq<Element>>)
  {
    word in members
    && var f := FoundMember(Matches(members[word], word, false));
       f.Some? && ReportsMember(f.value)
  }

  // ---------------------------------------------------------------------------------------
  // The decision for one word.

  /** CheckWordUsageAgainstClassMemberRules for the word of literal `e`, whose enclosing units are `parents`. */
  function WordViolations(word: string, item: Token, line: int, e: Expression, parents: seq<CodeUnit>, ctx: Context): (r: seq<Violation>)
    ensures r == [] || r == [Violation(UseThisPrefix, line, [word])]
    ensures r != [] <==>
              && !IsLocal(word, item, parents + [ExpressionUnit(e)])
              && !IsObjectInitializerLeftHandSide(e, parents)
              && word != ctx.className
              && Reportable(word, ctx.members)
  {
    if IsLocal(word, item, parents + [ExpressionUnit(e)]) || IsObjectInitializerLeftHandSide(e, parents) then []
    else
      var f := FoundMember(MemberCandidates(word, ctx, false));
      if f.Some? && ReportsMember(f.value) then [Violation(UseThisPrefix, line, [word])] else []
  }

  /** Past the local and object-initializer tests, the decision rests on the found member alone. */
  lemma WordDecidedByMember(word: string, item: Token, line: int, e: Expression, parents: seq<CodeUnit>, ctx: Context)
    requires !IsLocal(word, item, parents + [ExpressionUnit(e)]) && !IsObjectInitializerLeftHandSide(e, parents)
    ensures var f := FoundMember(MemberCandidates(word, ctx, false));
            WordViolations(word, item, line, e, parents, ctx)
            == if f.Some? && ReportsMember(f.value) then [Violation(UseThisPrefix, line, [word])] else []
  {
  }

  /** CheckClassMemberRulesForLiteralToken: types, words starting with `.` and `this` itself are skipped. */
  function LiteralTokenViolations(k: nat, e: Expression, parents: seq<CodeUnit>, ctx: Context): (r: seq<Violation>)
    requires k < |ctx.tokens|
    ensures r != [] ==>
              var t := ctx.tokens[k];
              !IsTypeToken(t) && !StartsWith(t.text, ".") && t.text != "this"
              && r == [Violation(UseThisPrefix, t.line, [t.text])]
  {
    var t := ctx.tokens[k];
    if !IsTypeToken(t) && !StartsWith(t.text, ".") && t.text != "this" then
      WordViolations(t.text, t, t.line, e, parents, ctx)
    else []
  }

  // ---------------------------------------------------------------------------------------
  // Sizes, for termination of the statement and expression traversal.

  function ExprSize(e: Expression): (r: nat)
    ensures r >= 1
    decreases e
  {
    match e
    case Literal(_, _) => 1
    case VariableDeclarator(id, init, _) => 1 + ExprSize(id) + (if init.Some? then ExprSize(init.value) else 0)
    case Assignment(lhs, rhs, _) => 1 + ExprSize(lhs) + ExprSize(rhs)
    case ObjectInitializer(cs, _) => 1 + ExprsSize(cs)
    case CollectionInitializer(cs, _) => 1 + ExprsSize(cs)
    case AnonymousMethod(cs, ss, _) => 1 + ExprsSize(cs) + StmtsSize(ss)
    case MethodInvocation(cs, args, _) => 1 + ExprsSize(cs) + ExprsSize(args)
    case OtherExpression(cs, _) => 1 + ExprsSize(cs)
  }

  function ExprsSize(es: seq<Expression>): nat
    decreases es
  {
    if es == [] then 0 else ExprsSize(es[..|es| - 1]) + ExprSize(es[|es| - 1])
  }

  function StmtSize(s: Statement): (r: nat)
    ensures r >= 1
    decreases s
  {
    1 + StmtsSize(s.statements) + ExprsSize(s.expressions)
  }

  function StmtsSize(ss: seq<Statement>): nat
    decreases ss
  {
    if ss == [] then 0 else StmtsSize(ss[..|ss| - 1]) + StmtSize(ss[|ss| - 1])
  }

  lemma ChildExpressionsSmaller(e: Expression)
    ensures ExprsSize(ChildExpressions(e)) < ExprSize(e)
  {
    match e
    case VariableDeclarator(id, init, _) =>
      var cs := ChildExpressions(e);
      assert ExprsSize([id]) == ExprSize(id) by {
        assert [id][..0] == [];
      }
      if init.Some? {
        assert cs[..1] == [id];
        assert ExprsSize(cs) == ExprSize(id) + ExprSize(init.value);
      } else {
        assert cs == [id];
      }
    case Assignment(lhs, rhs, _) =>
      assert ExprsSize([lhs]) == ExprSize(lhs) by {
        assert [lhs][..0] == [];
      }
      assert ExprsSize([lhs, rhs]) == ExprsSize([lhs]) + ExprSize(rhs) by {
        assert [lhs, rhs][..1] == [lhs];
      }
    case _ =>
  }

  lemma {:induction false} ExprsSizeElement(es: seq<Expression>, i: nat)
    requires i < |es|
    ensures ExprSize(es[i]) <= ExprsSize(es)
    decreases |es|
  {
    if i < |es| - 1 {
      ExprsSizeElement(es[..|es| - 1], i);
    }
  }

  lemma {:induction false} StmtsSizeElement(ss: seq<Statement>, i: nat)
    requires i < |ss|
    ensures StmtSize(ss[i]) <= StmtsSize(ss)
    decreases |ss|
  {
    if i < |ss| - 1 {
      StmtsSizeElement(ss[..|ss| - 1], i);
    }
  }

  // ---------------------------------------------------------------------------------------
  // The statement and expression traversal.

  /**
   * CheckClassMemberRulesForExpression on `e`, whose enclosing units are `parents` and
   * whose parent expression, as the caller passes it, is `parentExpr`.
   */
  function ExprViolations(e: Expression, parentExpr: Option<Expression>, parents: seq<CodeUnit>, ctx: Context): seq<Violation>
    decreases ExprSize(e), 2
  {
    if e.Literal? then
      if e.token < |ctx.tokens| && !PrecededByMemberAccess(ctx.tokens, e.token) then
        LiteralTokenViolations(e.token, e, parents, ctx)
      else []
    else
      var inner := parents + [ExpressionUnit(e)];
      NestedViolations(e, parentExpr, inner, ctx) + BodyViolations(e, inner, ctx)
  }

  /** What a non-literal expression's children (or a collection entry's right-hand side) contribute. */
  function NestedViolations(e: Expression, parentExpr: Option<Expression>, inner: seq<CodeUnit>, ctx: Context): seq<Violation>
    decreases ExprSize(e), 1
  {
    if e.Assignment? && parentExpr.Some? && parentExpr.value.CollectionInitializer? then
      ExprViolations(e.rightHandSide, Some(e), inner, ctx)
    else if |ChildExpressions(e)| > 0 then
      ChildExpressionsSmaller(e);
      ExprsViolations(ChildExpressions(e), Some(e), inner, ctx)
    else []
  }

  /** What an anonymous method's statements or an invocation's arguments contribute. */
  function BodyViolations(e: Expression, inner: seq<CodeUnit>, ctx: Context): seq<Violation>
    decreases ExprSize(e), 1
  {
    if e.AnonymousMethod? then StmtsViolations(e.statements, inner, ctx)
    else if e.MethodInvocation? then ArgsViolations(e.arguments, inner, ctx)
    else []
  }

  /** What one entry of an expression list contributes: a declarator only its initializer. */
  function ListedExprViolations(x: Expression, parentExpr: Option<Expression>, parents: seq<CodeUnit>, ctx: Context): seq<Violation>
    decreases ExprSize(x), 3
  {
    if x.VariableDeclarator? then
      if x.initializer.Some? then
        assert ExprSize(x.initializer.value) < ExprSize(x);
        ExprViolations(x.initializer.value, parentExpr, parents + [ExpressionUnit(x)], ctx)
      else []
    else ExprViolations(x, parentExpr, parents, ctx)
  }

  /** CheckClassMemberRulesForExpressions: a variable declarator contributes only its initializer. */
  function ExprsViolations(es: seq<Expression>, parentExpr: Option<Expression>, parents: seq<CodeUnit>, ctx: Context): seq<Violation>
    decreases ExprsSize(es), 4
  {
    if es == [] then []
    else
      ExprsSizeElement(es, |es| - 1);
      ExprsViolations(es[..|es| - 1], parentExpr, parents, ctx) + ListedExprViolations(es[|es| - 1], parentExpr, parents, ctx)
  }

  /** The arguments of a method invocation, each checked with no parent expression. */
  function ArgsViolations(args: seq<Expression>, parents: seq<CodeUnit>, ctx: Context): seq<Violation>
    decreases ExprsSize(args), 3
  {
    if args == [] then []
    else ArgsViolations(args[..|args| - 1], parents, ctx) + ExprViolations(args[|args| - 1], None, parents, ctx)
  }

  /** One statement: its sub-statements first, then its expressions. */
  function StmtViolations(s: Statement, parents: seq<CodeUnit>, ctx: Context): seq<Violation>
    decreases StmtSize(s), 0
  {
    var inner := parents + [StatementUnit(s)];
    (if |s.statements| > 0 then StmtsViolations(s.statements, inner, ctx) else [])
    + ExprsViolations(s.expressions, None, inner, ctx)
  }

  /** CheckClassMemberRulesForStatements. */
  function StmtsViolations(ss: seq<Statement>, parents: seq<CodeUnit>, ctx: Context): seq<Violation>
    decreases StmtsSize(ss), 1
  {
    if ss == [] then []
    else StmtsViolations(ss[..|ss| - 1], parents, ctx) + StmtViolations(ss[|ss| - 1], parents, ctx)
  }

  lemma ExprSplit(e: Expression, parentExpr: Option<Expression>, parents: seq<CodeUnit>, ctx: Context)
    requires !e.Literal?
    ensures var inner := parents + [ExpressionUnit(e)];
            ExprViolations(e, parentExpr, parents, ctx)
            == NestedViolations(e, parentExpr, inner, ctx) + BodyViolations(e, inner, ctx)
  {
  }

  lemma ExprsStep(es: seq<Expression>, i: nat, parentExpr: Option<Expression>, parents: seq<CodeUnit>, ctx: Context)
    requires i < |es|
    ensures ExprsViolations(es[..i + 1], parentExpr, parents, ctx)
            == ExprsViolations(es[..i], parentExpr, parents, ctx) + ListedExprViolations(es[i], parentExpr, parents, ctx)
  {
    assert es[..i + 1][..i] == es[..i];
  }

  lemma ArgsStep(args: seq<Expression>, i: nat, parents: seq<CodeUnit>, ctx: Context)
    requires i < |args|
    ensures ArgsViolations(args[..i + 1], parents, ctx)
            == ArgsViolations(args[..i], parents, ctx) + ExprViolations(args[i], None, parents, ctx)
  {
    assert args[..i + 1][..i] == args[..i];
  }

  lemma StmtsStep(ss: seq<Statement>, i: nat, parents: seq<CodeUnit>, ctx: Context)
    requires i < |ss|
    ensures StmtsViolations(ss[..i + 1], parents, ctx)
            == StmtsViolations(ss[..i], parents, ctx) + StmtViolations(ss[i], parents, ctx)
  {
    assert ss[..i + 1][..i] == ss[..i];
  }

  // ---------------------------------------------------------------------------------------
  // The element walk.

  /** The context for the statements of an element of class `cls`. */
  function ClassContext(tokens: seq<Token>, cls: Element, members: map<string, seq<Element>>): Context
  {
    Context(tokens, cls.name, members)
  }

  /**
   * CheckClassMemberRulesForElements on `e` inside class `cls` (None outside any class):
   * read Cancel, then walk the children.
   */
  function MemberWalk(e: Element, cls: Option<Element>, tokens: seq<Token>, members: map<string, seq<Element>>, polls: nat, cancelAfter: nat): Outcome
    decreases e, 1
  {
    if polls >= cancelAfter then Outcome(false, [], polls + 1)
    else MemberWalkChildren(e.children, cls, tokens, members, polls + 1, cancelAfter)
  }

  /**
   * The children loop: generated children are skipped; a method's or accessor's statements
   * are checked when there is a class; a nested class or struct is walked as the new class
   * and its result ignored; any other child is walked and a cancelled walk ends the loop.
   */
  function MemberWalkChildren(kids: seq<Element>, cls: Option<Element>, tokens: seq<Token>, members: map<string, seq<Element>>, polls: nat, cancelAfter: nat): Outcome
    decreases kids, 0
  {
    if kids == [] then Outcome(true, [], polls)
    else
      MemberStep(MemberWalkChildren(kids[..|kids| - 1], cls, tokens, members, polls, cancelAfter), kids[|kids| - 1], cls, tokens, members, cancelAfter)
  }

  /** One turn of the children loop: what child `c` adds to the outcome `r` of its earlier siblings. */
  function MemberStep(r: Outcome, c: Element, cls: Option<Element>, tokens: seq<Token>, members: map<string, seq<Element>>, cancelAfter: nat): Outcome
    decreases c, 2
  {
    if !r.ok || c.generated then r
    else if c.kind == Method || c.kind == Accessor then
      if cls.Some? then
        Outcome(true, r.out + StmtsViolations(c.statements, [ElementUnit(c)], ClassContext(tokens, cls.value, members)), r.polls)
      else r
    else if c.kind == Class || c.kind == Struct then
      var s := MemberWalk(c, Some(c), tokens, members, r.polls, cancelAfter);
      Outcome(true, r.out + s.out, s.polls)
    else
      var s := MemberWalk(c, cls, tokens, members, r.polls, cancelAfter);
      Outcome(s.ok, r.out + s.out, s.polls)
  }

  lemma MemberWalkChildrenStep(kids: seq<Element>, i: nat, cls: Option<Element>, tokens: seq<Token>, members: map<string, seq<Element>>, polls: nat, cancelAfter: nat)
    requires i < |kids|
    ensures MemberWalkChildren(kids[..i + 1], cls, tokens, members, polls, cancelAfter)
            == MemberStep(MemberWalkChildren(kids[..i], cls, tokens, members, polls, cancelAfter), kids[i], cls, tokens, members, cancelAfter)
  {
    assert kids[..i + 1][..i] == kids[..i];
  }

  // ---------------------------------------------------------------------------------------
  // Properties.

  /** The member access test looks past whitespace and ends of line, and nothing else. */
  lemma MemberAccessIff(tokens: seq<Token>, k: nat)
    requires k <= |tokens|
    ensures PrecededByMemberAccess(tokens, k) <==>
              exists j :: 0 <= j < k && IsMemberAccessSymbol(tokens[j]) && forall i :: j < i < k ==> IsSpace(tokens[i])
  {
    if exists j :: 0 <= j < k && IsMemberAccessSymbol(tokens[j]) && forall i :: j < i < k ==> IsSpace(tokens[i]) {
      var j :| 0 <= j < k && IsMemberAccessSymbol(tokens[j]) && forall i :: j < i < k ==> IsSpace(tokens[i]);
      var p := PreviousToken(tokens, k);
      assert !IsSpace(tokens[j]);
      assert p.Some? && p.value == j;
    }
  }

  /** In a keyed variable collection, a local counts iff one of that name is declared before the word. */
  lemma ContainsVariableIff(vs: seq<Variable>, word: string, item: Token)
    requires forall i, j :: 0 <= i < j < |vs| ==> vs[i].name != vs[j].name
    ensures ContainsVariable(vs, word, item) <==> exists i :: 0 <= i < |vs| && vs[i].name == word && DeclaredBefore(vs[i], item)
  {
    if exists i :: 0 <= i < |vs| && vs[i].name == word && DeclaredBefore(vs[i], item) {
      var i :| 0 <= i < |vs| && vs[i].name == word && DeclaredBefore(vs[i], item);
      var f := FindVariable(vs, word);
      assert f.Some?;
      assert f.value == i;
    }
  }

  /** A declaration never shadows the word at its own position, nor a word before it. */
  lemma DeclarationDoesNotShadowItself(v: Variable, item: Token)
    requires item.line < v.line || (item.line == v.line && item.column <= v.column)
    ensures !ContainsVariable([v], v.name, item)
  {
  }

  /** The local search stops at the innermost element: units outside it never shadow a member. */
  lemma {:induction false} ScopeStopsAtElement(outer: seq<CodeUnit>, el: Element, inner: seq<CodeUnit>, word: string, item: Token)
    ensures IsLocal(word, item, outer + [ElementUnit(el)] + inner) <==> IsLocal(word, item, [ElementUnit(el)] + inner)
  {
    var long := outer + [ElementUnit(el)] + inner;
    var short := [ElementUnit(el)] + inner;
    ScopeStartShift(outer, el, inner);
    assert forall k :: 0 <= k < |short| ==> long[|outer| + k] == short[k];
    if IsLocal(word, item, long) {
      var k :| ScopeStart(long) <= k < |long| && ContainsVariable(VariablesOf(long[k]), word, item);
      assert ContainsVariable(VariablesOf(short[k - |outer|]), word, item);
    }
    if IsLocal(word, item, short) {
      var k :| ScopeStart(short) <= k < |short| && ContainsVariable(VariablesOf(short[k]), word, item);
      assert ContainsVariable(VariablesOf(long[k + |outer|]), word, item);
    }
  }

  lemma {:induction false} ScopeStartShift(outer: seq<CodeUnit>, el: Element, inner: seq<CodeUnit>)
    ensures ScopeStart(outer + [ElementUnit(el)] + inner) == |outer| + ScopeStart([ElementUnit(el)] + inner)
    decreases |inner|
  {
    var long := outer + [ElementUnit(el)] + inner;
    if inner == [] {
      if |long| > 1 {
        assert long[|long| - 1] == ElementUnit(el);
      }
    } else {
      var init := inner[..|inner| - 1];
      assert long[..|long| - 1] == outer + [ElementUnit(el)] + init;
      assert ([ElementUnit(el)] + inner)[..|inner|] == [ElementUnit(el)] + init;
      ScopeStartShift(outer, el, init);
    }
  }

  /** A reported word is never preceded by member access, never a type, never `this`, never starting with `.`. */
  lemma {:induction false} LiteralReportedIff(k: nat, vs: seq<Variable>, parentExpr: Option<Expression>, parents: seq<CodeUnit>, ctx: Context)
    ensures var e := Literal(k, vs);
            ExprViolations(e, parentExpr, parents, ctx) != [] <==>
              && k < |ctx.tokens|
              && !PrecededByMemberAccess(ctx.tokens, k)
              && !IsTypeToken(ctx.tokens[k])
              && !StartsWith(ctx.tokens[k].text, ".")
              && ctx.tokens[k].text != "this"
              && !IsLocal(ctx.tokens[k].text, ctx.tokens[k], parents + [ExpressionUnit(e)])
              && !IsObjectInitializerLeftHandSide(e, parents)
              && ctx.tokens[k].text != ctx.className
              && Reportable(ctx.tokens[k].text, ctx.members)
  {
  }

  /**
   * Any static or const member listed under the word and matching it cancels the report,
   * wherever it stands among the candidates.
   */
  lemma StaticCandidateCancels(word: string, members: map<string, seq<Element>>, m: Element)
    requires word in members && m in members[word] && IsMatch(m, word, false) && StaticOrConst(m)
    ensures !Reportable(word, members)
  {
    assert m in Matches(members[word], word, false);
  }

  /** Under a collection initializer an assignment contributes only its right-hand side. */
  lemma CollectionInitializerVisitsRightHandSide(lhs: Expression, rhs: Expression, vs: seq<Variable>, cs: seq<Expression>, cvs: seq<Variable>, parents: seq<CodeUnit>, ctx: Context)
    ensures var a := Assignment(lhs, rhs, vs);
            ExprViolations(a, Some(CollectionInitializer(cs, cvs)), parents, ctx)
            == ExprViolations(rhs, Some(a), parents + [ExpressionUnit(a)], ctx)
  {
  }

  /** The name a variable declarator introduces is never checked, only its initializer. */
  lemma {:induction false} DeclaratorNameNotChecked(id: Expression, init: Option<Expression>, vs: seq<Variable>, parentExpr: Option<Expression>, parents: seq<CodeUnit>, ctx: Context)
    ensures var d := VariableDeclarator(id, init, vs);
            ExprsViolations([d], parentExpr, parents, ctx)
            == if init.Some? then ExprViolations(init.value, parentExpr, parents + [ExpressionUnit(d)], ctx) else []
  {
    var d := VariableDeclarator(id, init, vs);
    assert [d][..0] == [];
  }

  // ---------------------------------------------------------------------------------------
  // Soundness of the traversal: every report names a member the word may refer to.

  predicate IsMemberReport(v: Violation, members: map<string, seq<Element>>)
  {
    v.rule == UseThisPrefix && |v.args| == 1 && Reportable(v.args[0], members)
  }

  /** Every report names an instance member of the index and never the class's own name. */
  predicate SoundIn(vs: seq<Violation>, ctx: Context)
  {
    forall v :: v in vs ==> IsMemberReport(v, ctx.members) && v.args[0] != ctx.className
  }

  lemma {:induction false} ExprSound(e: Expression, parentExpr: Option<Expression>, parents: seq<CodeUnit>, ctx: Context)
    ensures SoundIn(ExprViolations(e, parentExpr, parents, ctx), ctx)
    decreases ExprSize(e), 0
  {
    if !e.Literal? {
      var inner := parents + [ExpressionUnit(e)];
      if e.Assignment? && parentExpr.Some? && parentExpr.value.CollectionInitializer? {
        ExprSound(e.rightHandSide, Some(e), inner, ctx);
      } else if |ChildExpressions(e)| > 0 {
        ChildExpressionsSmaller(e);
        ExprsSound(ChildExpressions(e), Some(e), inner, ctx);
      }
      if e.AnonymousMethod? {
        StmtsSound(e.statements, inner, ctx);
      } else if e.MethodInvocation? {
        ArgsSound(e.arguments, inner, ctx);
      }
    }
  }

  lemma {:induction false} ExprsSound(es: seq<Expression>, parentExpr: Option<Expression>, parents: seq<CodeUnit>, ctx: Context)
    ensures SoundIn(ExprsViolations(es, parentExpr, parents, ctx), ctx)
    decreases ExprsSize(es), 1
  {
    if es != [] {
      var last := es[|es| - 1];
      ExprsSound(es[..|es| - 1], parentExpr, parents, ctx);
      if !last.VariableDeclarator? {
        ExprSound(last, parentExpr, parents, ctx);
      } else if last.initializer.Some? {
        ExprSound(last.initializer.value, parentExpr, parents + [ExpressionUnit(last)], ctx);
      }
    }
  }

  lemma {:induction false} ArgsSound(args: seq<Expression>, parents: seq<CodeUnit>, ctx: Context)
    ensures SoundIn(ArgsViolations(args, parents, ctx), ctx)
    decreases ExprsSize(args), 1
  {
    if args != [] {
      ArgsSound(args[..|args| - 1], parents, ctx);
      ExprSound(args[|args| - 1], None, parents, ctx);
    }
  }

  lemma {:induction false} StmtSound(s: Statement, parents: seq<CodeUnit>, ctx: Context)
    ensures SoundIn(StmtViolations(s, parents, ctx), ctx)
    decreases StmtSize(s), 0
  {
    var inner := parents + [StatementUnit(s)];
    if |s.statements| > 0 {
      StmtsSound(s.statements, inner, ctx);
    }
    ExprsSound(s.expressions, None, inner, ctx);
  }

  lemma {:induction false} StmtsSound(ss: seq<Statement>, parents: seq<CodeUnit>, ctx: Context)
    ensures SoundIn(StmtsViolations(ss, parents, ctx), ctx)
    decreases StmtsSize(ss), 1
  {
    if ss != [] {
      StmtsSound(ss[..|ss| - 1], parents, ctx);
      StmtSound(ss[|ss| - 1], parents, ctx);
    }
  }

  /** Every report of the element walk, in any class at any depth, names a member the word may refer to. */
  lemma {:induction false} MemberWalkSound(e: Element, cls: Option<Element>, tokens: seq<Token>, members: map<string, seq<Element>>, polls: nat, cancelAfter: nat)
    ensures forall v :: v in MemberWalk(e, cls, tokens, members, polls, cancelAfter).out ==> IsMemberReport(v, members)
    decreases e, 1
  {
    if polls < cancelAfter {
      MemberWalkChildrenSound(e.children, cls, tokens, members, polls + 1, cancelAfter);
    }
  }

  lemma {:induction false} MemberWalkChildrenSound(kids: seq<Element>, cls: Option<Element>, tokens: seq<Token>, members: map<string, seq<Element>>, polls: nat, cancelAfter: nat)
    ensures forall v :: v in MemberWalkChildren(kids, cls, tokens, members, polls, cancelAfter).out ==> IsMemberReport(v, members)
    decreases kids, 0
  {
    if kids != [] {
      var init := kids[..|kids| - 1];
      var c := kids[|kids| - 1];
      MemberWalkChildrenSound(init, cls, tokens, members, polls, cancelAfter);
      var r := MemberWalkChildren(init, cls, tokens, members, polls, cancelAfter);
      if r.ok && !c.generated {
        if c.kind == Method || c.kind == Accessor {
          if cls.Some? {
            StmtsSound(c.statements, [ElementUnit(c)], ClassContext(tokens, cls.value, members));
          }
        } else if c.kind == Class || c.kind == Struct {
          MemberWalkSound(c, Some(c), tokens, members, r.polls, cancelAfter);
        } else {
          MemberWalkSound(c, cls, tokens, members, r.polls, cancelAfter);
        }
      }
    }
  }

  // ---------------------------------------------------------------------------------------
  // The element walk's control flow.

  /** The children loop over `done + [c]`: the loop over `done`, then one turn for `c`. */
  lemma MemberWalkChildrenSnoc(done: seq<Element>, c: Element, cls: Option<Element>, tokens: seq<Token>, members: map<string, seq<Element>>, polls: nat, cancelAfter: nat)
    ensures MemberWalkChildren(done + [c], cls, tokens, members, polls, cancelAfter)
            == MemberStep(MemberWalkChildren(done, cls, tokens, members, polls, cancelAfter), c, cls, tokens, members, cancelAfter)
  {
    assert (done + [c])[..|done|] == done;
  }

  /** A nested class or struct is walked, but a cancellation inside it does not end its parent's loop. */
  lemma NestedClassDoesNotCancel(done: seq<Element>, c: Element, cls: Option<Element>, tokens: seq<Token>, members: map<string, seq<Element>>, polls: nat, cancelAfter: nat)
    requires !c.generated && (c.kind == Class || c.kind == Struct)
    requires MemberWalkChildren(done, cls, tokens, members, polls, cancelAfter).ok
    ensures var r := MemberWalkChildren(done, cls, tokens, members, polls, cancelAfter);
            var s := MemberWalk(c, Some(c), tokens, members, r.polls, cancelAfter);
            MemberWalkChildren(done + [c], cls, tokens, members, polls, cancelAfter) == Outcome(true, r.out + s.out, s.polls)
  {
    MemberWalkChildrenSnoc(done, c, cls, tokens, members, polls, cancelAfter);
  }

  /** Outside any class, the statements of a method or accessor are not examined. */
  lemma MethodOutsideClassSkipped(done: seq<Element>, c: Element, tokens: seq<Token>, members: map<string, seq<Element>>, polls: nat, cancelAfter: nat)
    requires c.kind == Method || c.kind == Accessor
    ensures MemberWalkChildren(done + [c], None, tokens, members, polls, cancelAfter)
            == MemberWalkChildren(done, None, tokens, members, polls, cancelAfter)
  {
    MemberWalkChildrenSnoc(done, c, None, tokens, members, polls, cancelAfter);
  }

  /** The statements of constructors and destructors never matter: only their child elements are walked. */
  lemma ConstructorStatementsIgnored(done: seq<Element>, c: Element, ss: seq<Statement>, cls: Option<Element>, tokens: seq<Token>, members: map<string, seq<Element>>, polls: nat, cancelAfter: nat)
    requires c.kind == Constructor || c.kind == Destructor
    ensures MemberWalkChildren(done + [c.(statements := ss)], cls, tokens, members, polls, cancelAfter)
            == MemberWalkChildren(done + [c], cls, tokens, members, polls, cancelAfter)
  {
    var c' := c.(statements := ss);
    var r := MemberWalkChildren(done, cls, tokens, members, polls, cancelAfter);
    MemberWalkChildrenSnoc(done, c, cls, tokens, members, polls, cancelAfter);
    MemberWalkChildrenSnoc(done, c', cls, tokens, members, polls, cancelAfter);
    assert MemberWalk(c', cls, tokens, members, r.polls, cancelAfter) == MemberWalk(c, cls, tokens, members, r.polls, cancelAfter) by {
      assert c'.children == c.children;
    }
  }

  /** Once a child's walk is cancelled, the later siblings are not visited. */
  lemma {:induction false} CancelledMemberWalkStops(done: seq<Element>, rest: seq<Element>, cls: Option<Element>, tokens: seq<Token>, members: map<string, seq<Element>>, polls: nat, cancelAfter: nat)
    requires !MemberWalkChildren(done, cls, tokens, members, polls, cancelAfter).ok
    ensures MemberWalkChildren(done + rest, cls, tokens, members, polls, cancelAfter)
            == MemberWalkChildren(done, cls, tokens, members, polls, cancelAfter)
    decreases |rest|
  {
    if rest == [] {
      assert done + rest == done;
    } else {
      var kids := done + rest;
      assert kids[..|kids| - 1] == done + rest[..|rest| - 1];
      CancelledMemberWalkStops(done, rest[..|rest| - 1], cls, tokens, members, polls, cancelAfter);
    }
  }

  /** The children loop's early exit: a cancelled walk of child `i` is the outcome of the whole loop. */
  lemma CancelledMemberWalkAt(kids: seq<Element>, i: nat, cls: Option<Element>, tokens: seq<Token>, members: map<string, seq<Element>>, polls: nat, cancelAfter: nat)
    requires i < |kids|
    requires !MemberWalkChildren(kids[..i + 1], cls, tokens, members, polls, cancelAfter).ok
    ensures MemberWalkChildren(kids, cls, tokens, members, polls, cancelAfter)
            == MemberWalkChildren(kids[..i + 1], cls, tokens, members, polls, cancelAfter)
  {
    CancelledMemberWalkStops(kids[..i + 1], kids[i + 1..], cls, tokens, members, polls, cancelAfter);
    assert kids[..i + 1] + kids[i + 1..] == kids;
  }

  // ---------------------------------------------------------------------------------------
  // A concrete class:
  //
  //   class C {
  //     public Boolean Member { get { return true; } }
  //     public void SomeMethod() { ... }
  //   }

  function Word(text: string, column: int): Token
  {
    Token(OtherTokenType, OtherClass, text, 5, column, [])
  }

  function MemberProperty(): Element
  {
    Element(Property, "Member", Public, false, false, false, "Boolean", 3, [], [], [])
  }

  function MemberContext(tokens: seq<Token>): Context
  {
    Context(tokens, "C", map["Member" := [MemberProperty()]])
  }

  lemma MemberIsReportable()
    ensures Reportable("Member", map["Member" := [MemberProperty()]])
  {
    var cands := Matches([MemberProperty()], "Member", false);
    assert MemberProperty() in cands;
    assert FoundMember(cands).Some?;
  }

  function ScenarioTokens(): seq<Token>
  {
    [Word("Member", 30), Token(OperatorSymbol(OtherOperator), OtherClass, "=", 5, 37, []), Word("Member", 39)]
  }

  function ScenarioAssignment(): Expression
  {
    Assignment(Literal(0, []), Literal(2, []), [])
  }

  function ScenarioInitializer(): Expression
  {
    ObjectInitializer([ScenarioAssignment()], [])
  }

  function ScenarioStatement(): Statement
  {
    Statement([], [ScenarioInitializer()], [])
  }

  function ScenarioMethod(): Element
  {
    Element(Method, "SomeMethod", Public, false, false, false, "", 4, [], [], [ScenarioStatement()])
  }

  function ScenarioPath(): seq<CodeUnit>
  {
    [ElementUnit(ScenarioMethod())] + [StatementUnit(ScenarioStatement())] + [ExpressionUnit(ScenarioInitializer())]
    + [ExpressionUnit(ScenarioAssignment())]
  }

  lemma ExprsSingle(x: Expression, parentExpr: Option<Expression>, parents: seq<CodeUnit>, ctx: Context)
    requires !x.VariableDeclarator?
    ensures ExprsViolations([x], parentExpr, parents, ctx) == ExprViolations(x, parentExpr, parents, ctx)
  {
    assert [x][..0] == [];
  }

  lemma StmtsSingle(s: Statement, parents: seq<CodeUnit>, ctx: Context)
    ensures StmtsViolations([s], parents, ctx) == StmtViolations(s, parents, ctx)
  {
    assert [s][..0] == [];
  }

  lemma ScenarioLeftHandSide()
    ensures ExprViolations(Literal(0, []), Some(ScenarioAssignment()), ScenarioPath(), MemberContext(ScenarioTokens())) == []
  {
    assert IsObjectInitializerLeftHandSide(Literal(0, []), ScenarioPath());
  }

  /** No unit on the scenario's path declares a variable. */
  lemma ScenarioHasNoLocals(item: Token)
    ensures !IsLocal("Member", item, ScenarioPath() + [ExpressionUnit(Literal(2, []))])
  {
    var p := ScenarioPath() + [ExpressionUnit(Literal(2, []))];
    forall k | 0 <= k < |p|
      ensures VariablesOf(p[k]) == []
    {
    }
  }

  lemma ScenarioRightHandSide()
    ensures ExprViolations(Literal(2, []), Some(ScenarioAssignment()), ScenarioPath(), MemberContext(ScenarioTokens()))
            == [Violation(UseThisPrefix, 5, ["Member"])]
  {
    var ctx := MemberContext(ScenarioTokens());
    MemberIsReportable();
    ScenarioHasNoLocals(ctx.tokens[2]);
    assert PreviousToken(ctx.tokens, 2) == Some(1);
    assert !IsObjectInitializerLeftHandSide(Literal(2, []), ScenarioPath());
    assert !StartsWith("Member", ".") by {
      assert "Member"[..1][0] == 'M';
    }
    assert WordViolations("Member", ctx.tokens[2], 5, Literal(2, []), ScenarioPath(), ctx) != [];
  }

  /** An expression other than an assignment under a collection initializer: its children, then its statements or arguments. */
  lemma ExprUnfold(e: Expression, parentExpr: Option<Expression>, parents: seq<CodeUnit>, ctx: Context)
    requires e.ObjectInitializer? || (e.Assignment? && (parentExpr.None? || !parentExpr.value.CollectionInitializer?))
    ensures ExprViolations(e, parentExpr, parents, ctx)
            == ExprsViolations(ChildExpressions(e), Some(e), parents + [ExpressionUnit(e)], ctx)
  {
  }

  lemma StmtUnfold(s: Statement, parents: seq<CodeUnit>, ctx: Context)
    requires s.statements == []
    ensures StmtViolations(s, parents, ctx) == ExprsViolations(s.expressions, None, parents + [StatementUnit(s)], ctx)
  {
  }

  lemma ExprsPair(x: Expression, y: Expression, parentExpr: Option<Expression>, parents: seq<CodeUnit>, ctx: Context)
    requires !x.VariableDeclarator? && !y.VariableDeclarator?
    ensures ExprsViolations([x, y], parentExpr, parents, ctx)
            == ExprViolations(x, parentExpr, parents, ctx) + ExprViolations(y, parentExpr, parents, ctx)
  {
    assert [x, y][..1] == [x];
    ExprsSingle(x, parentExpr, parents, ctx);
  }

  /**
   * `new T { Member = Member }`: the left-hand side names a member of T and is not
   * reported; the right-hand side is this class's property and is.
   */
  lemma ObjectInitializerScenario()
    ensures StmtsViolations(ScenarioMethod().statements, [ElementUnit(ScenarioMethod())], MemberContext(ScenarioTokens()))
            == [Violation(UseThisPrefix, 5, ["Member"])]
  {
    var ctx := MemberContext(ScenarioTokens());
    var a := ScenarioAssignment();
    var init := ScenarioInitializer();
    var s := ScenarioStatement();
    var p0 := [ElementUnit(ScenarioMethod())];
    var p1 := p0 + [StatementUnit(s)];
    var p2 := p1 + [ExpressionUnit(init)];
    ScenarioLeftHandSide();
    ScenarioRightHandSide();
    ExprsPair(Literal(0, []), Literal(2, []), Some(a), ScenarioPath(), ctx);
    ExprUnfold(a, Some(init), p2, ctx);
    ExprsSingle(a, Some(init), p2, ctx);
    ExprUnfold(init, None, p1, ctx);
    ExprsSingle(init, None, p1, ctx);
    StmtUnfold(s, p0, ctx);
    StmtsSingle(s, p0, ctx);
  }

  /**
   * Any entry `name = rhs` of any object initializer: the name is never checked, whatever
   * the member index says, and what the entry contributes to the initializer's child list
   * is the check of the right-hand side under the entry and the initializer.
   */
  lemma ObjectInitializerEntry(k: nat, vs: seq<Variable>, rhs: Expression, avs: seq<Variable>, cs: seq<Expression>, ovs: seq<Variable>, parents: seq<CodeUnit>, ctx: Context)
    requires !rhs.VariableDeclarator?
    ensures var a := Assignment(Literal(k, vs), rhs, avs);
            var o := ObjectInitializer(cs, ovs);
            ListedExprViolations(a, Some(o), parents + [ExpressionUnit(o)], ctx)
            == ExprViolations(rhs, Some(a), parents + [ExpressionUnit(o), ExpressionUnit(a)], ctx)
  {
    var lhs := Literal(k, vs);
    var a := Assignment(lhs, rhs, avs);
    var o := ObjectInitializer(cs, ovs);
    var p1 := parents + [ExpressionUnit(o)];
    var p2 := p1 + [ExpressionUnit(a)];
    assert p2 == parents + [ExpressionUnit(o), ExpressionUnit(a)];
    assert IsObjectInitializerLeftHandSide(lhs, p2);
    LiteralReportedIff(k, vs, Some(a), p2, ctx);
    ExprsPair(lhs, rhs, Some(a), p2, ctx);
    ExprUnfold(a, Some(o), p1, ctx);
  }

  /** A method whose body is the one statement `s`. */
  function MethodWith(s: Statement): Element
  {
    Element(Method, "SomeMethod", Public, false, false, false, "", 4, [], [], [s])
  }

  /** In a method body, `this.Member` is already qualified and is not reported. */
  lemma QualifiedNotReported()
    ensures var tokens := [Word("this", 10), Token(OperatorSymbol(MemberAccess), OtherClass, ".", 5, 14, []), Word("Member", 15)];
            var m := MethodWith(Statement([], [Literal(2, [])], []));
            StmtsViolations(m.statements, [ElementUnit(m)], MemberContext(tokens)) == []
  {
    var tokens := [Word("this", 10), Token(OperatorSymbol(MemberAccess), OtherClass, ".", 5, 14, []), Word("Member", 15)];
    var s := Statement([], [Literal(2, [])], []);
    var m := MethodWith(s);
    var ctx := MemberContext(tokens);
    StmtsSingle(s, [ElementUnit(m)], ctx);
    StmtUnfold(s, [ElementUnit(m)], ctx);
    ExprsSingle(Literal(2, []), None, [ElementUnit(m)] + [StatementUnit(s)], ctx);
    assert PreviousToken(tokens, 2) == Some(1);
  }

  /** In a method body, a local `Member` declared earlier shadows the property. */
  lemma ShadowedNotReported()
    ensures var tokens := [Word("Member", 15)];
            var m := MethodWith(Statement([], [Literal(0, [])], [Variable("Member", 4, 8)]));
            StmtsViolations(m.statements, [ElementUnit(m)], MemberContext(tokens)) == []
  {
    var tokens := [Word("Member", 15)];
    var s := Statement([], [Literal(0, [])], [Variable("Member", 4, 8)]);
    var m := MethodWith(s);
    var ctx := MemberContext(tokens);
    var parents := [ElementUnit(m)] + [StatementUnit(s)];
    StmtsSingle(s, [ElementUnit(m)], ctx);
    StmtUnfold(s, [ElementUnit(m)], ctx);
    ExprsSingle(Literal(0, []), None, parents, ctx);
    var path := parents + [ExpressionUnit(Literal(0, []))];
    assert ContainsVariable(VariablesOf(path[1]), "Member", tokens[0]);
    assert IsLocal("Member", tokens[0], path);
  }
}
