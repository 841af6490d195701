/**
 * The RusWizardsRules analyzer: the naming checks run by its cancellable element walk, the
 * built-in alias scan over the token list, and the UseThisPrefix traversal over the
 * statements of methods and accessors. Every method appends to `violations` exactly what
 * the specification function of its module says, and nothing else changes.
 */
module RusWizards {
  import opened Syntax
  import opened ElementWalk
  import opened NamingRules
  import opened BuiltInAliases
  import opened ThisPrefix

  class RusWizardsRules {
    /** The violations reported to the host so far. */
    var violations: seq<Violation>
    /** How many times the host's Cancel flag has been read. */
    var polls: nat
    /** The first read of Cancel that sees it set (see module ElementWalk). */
    const cancelAfter: nat

    constructor (cancelAfter: nat)
      ensures violations == [] && polls == 0 && this.cancelAfter == cancelAfter
    {
      violations := [];
      polls := 0;
      this.cancelAfter := cancelAfter;
    }

    // -------------------------------------------------------------------------------------
    // Naming.

    /** Checks `e` with both naming rules, then its children depth-first; false iff Cancel was seen set. */
    method ProcessElement(e: Element) returns (ok: bool)
      modifies this
      ensures ok == Walk(e, NamingViolations, old(polls), cancelAfter).ok
      ensures violations == old(violations) + Walk(e, NamingViolations, old(polls), cancelAfter).out
      ensures polls == Walk(e, NamingViolations, old(polls), cancelAfter).polls
      decreases e, 1
    {
      var cancel := polls >= cancelAfter;
      polls := polls + 1;
      if cancel {
        return false;
      }
      CheckInstanceVariablesUnderscorePrefix(e);
      CheckMinimumFieldLength(e);
      ok := ProcessChildren(e.children);
    }

    /** The children loop of ProcessElement: stops at the first child whose walk was cancelled. */
    method ProcessChildren(kids: seq<Element>) returns (ok: bool)
      modifies this
      ensures ok == WalkChildren(kids, NamingViolations, old(polls), cancelAfter).ok
      ensures violations == old(violations) + WalkChildren(kids, NamingViolations, old(polls), cancelAfter).out
      ensures polls == WalkChildren(kids, NamingViolations, old(polls), cancelAfter).polls
      decreases kids, 0
    {
      ghost var done := Outcome(true, [], polls);
      assert kids[..0] == [];
      var i := 0;
      while i < |kids|
        invariant 0 <= i <= |kids|
        invariant done == WalkChildren(kids[..i], NamingViolations, old(polls), cancelAfter)
        invariant done.ok && polls == done.polls
        invariant violations == old(violations) + done.out
      {
        WalkChildrenStep(kids, i, NamingViolations, old(polls), cancelAfter);
        ghost var s := Walk(kids[i], NamingViolations, polls, cancelAfter);
        var childOk := ProcessElement(kids[i]);
        AppendAssoc(old(violations), done.out, s.out);
        done := Outcome(s.ok, done.out + s.out, s.polls);
        if !childOk {
          CancelledAt(kids, i, NamingViolations, old(polls), cancelAfter);
          return false;
        }
        i := i + 1;
      }
      assert kids[..i] == kids;
      return true;
    }

    method CheckInstanceVariablesUnderscorePrefix(e: Element)
      modifies this
      ensures violations == old(violations) + UnderscorePrefixViolations(e)
      ensures polls == old(polls)
    {
      if !e.generated && e.kind == Field && IsPrivateAccess(e.access)
         && (!StartsWith(e.name, "_") || (|e.name| >= 2 && ChangesUnderLowerCase(e.name[1])))
      {
        violations := violations + [Violation(InstanceVariablesUnderscorePrefix, e.line, [e.name])];
      }
    }

    method CheckMinimumFieldLength(e: Element)
      modifies this
      ensures violations == old(violations) + MinimumLengthViolations(e)
      ensures polls == old(polls)
    {
      if !e.generated && IsSupportedForMinLengthElementType(e.kind) && |e.name| < MinAllowedLength {
        violations := violations + [Violation(MinimumFieldLength, e.line, [e.name])];
      }
    }

    // -------------------------------------------------------------------------------------
    // Built-in type aliases.

    /** Checks every type token of the document's token list, in order. */
    method IterateTokenList(tokens: seq<Token>)
      modifies this
      ensures violations == old(violations) + ScanList(tokens, |tokens|)
      ensures polls == old(polls)
    {
      var i := 0;
      while i < |tokens|
        invariant 0 <= i <= |tokens|
        invariant violations == old(violations) + ScanList(tokens, i)
        invariant polls == old(polls)
      {
        ghost var step := if IsTypeToken(tokens[i]) then TypeViolations(tokens, i) else [];
        if IsTypeToken(tokens[i]) {
          CheckBuiltInType(tokens, i);
        }
        assert ScanList(tokens, i + 1) == ScanList(tokens, i) + step;
        AppendAssoc(old(violations), ScanList(tokens, i), step);
        i := i + 1;
      }
    }

    /** Checks the type token `list[k]` against the alias table, then the type tokens among its children. */
    method CheckBuiltInType(list: seq<Token>, k: nat)
      requires k < |list|
      modifies this
      ensures violations == old(violations) + TypeViolations(list, k)
      ensures polls == old(polls)
      decreases list
    {
      CheckAlias(list, k);
      ghost var mid := violations;
      var children := list[k].childTokens;
      var j := 0;
      assert mid + [] == mid;
      while j < |children|
        invariant 0 <= j <= |children|
        invariant violations == mid + ScanList(children, j)
        invariant polls == old(polls)
      {
        ghost var step := if IsTypeToken(children[j]) then TypeViolations(children, j) else [];
        if IsTypeToken(children[j]) {
          CheckBuiltInType(children, j);
        }
        assert ScanList(children, j + 1) == ScanList(children, j) + step;
        AppendAssoc(mid, ScanList(children, j), step);
        j := j + 1;
      }
      AppendAssoc(old(violations), AliasViolations(list, k), ScanList(children, j));
    }

    /**
     * The table loop of CheckBuiltInType: the first row whose alias the token's children spell
     * is reported, unless the nearest significant token before it is `=` or `:`.
     */
    method CheckAlias(list: seq<Token>, k: nat)
      requires k < |list|
      modifies this
      ensures violations == old(violations) + AliasViolations(list, k)
      ensures polls == old(polls)
    {
      var typeToken := list[k];
      assert violations + [] == violations;
      if typeToken.tokenClass != GenericTypeClass {
        var i := 0;
        while i < |BuiltInTypes|
          invariant 0 <= i <= |BuiltInTypes|
          invariant MatchingRowFrom(typeToken.childTokens, 0) == MatchingRowFrom(typeToken.childTokens, i)
          invariant violations == old(violations) && polls == old(polls)
        {
          var builtInType := BuiltInTypes[i];
          if MatchTokens(typeToken.childTokens, builtInType.alias) {
            var isEnumType := false;
            var isUsingAliasDirective := false;
            var previous := k;
            ghost var found := false;
            while previous > 0
              invariant 0 <= previous <= k
              invariant forall j :: previous <= j < k ==> IsTrivia(list[j])
              invariant !isEnumType && !isUsingAliasDirective && !found
            {
              previous := previous - 1;
              if !IsTrivia(list[previous]) {
                if list[previous].text == "=" {
                  isUsingAliasDirective := true;
                }
                if list[previous].text == ":" {
                  isEnumType := true;
                }
                PredecessorAt(list, k, previous);
                found := true;
                break;
              }
            }
            if !found {
              NoPredecessor(list, k);
            }
            AliasReported(list, k, i);
            if !isUsingAliasDirective && !isEnumType {
              violations := violations + [Violation(DoNotUseBuiltInTypeAliases, typeToken.line,
                                                    [builtInType.typeName, builtInType.fullName, builtInType.alias])];
            }
            return;
          }
          MatchingRowStep(typeToken.childTokens, i);
          i := i + 1;
        }
        NoAliasNoReport(list, k);
      } else {
        NoAliasNoReport(list, k);
      }
    }

    // -------------------------------------------------------------------------------------
    // UseThisPrefix: the helpers.

    /**
     * The nearest token below index `end` that is neither whitespace nor an end of line:
     * the search starts at the node `end - 1`, and `end == 0` stands for no node.
     */
    method GetPreviousToken(tokens: seq<Token>, end: nat) returns (r: Option<nat>)
      requires end <= |tokens|
      ensures r.Some? ==> r.value < end && !IsSpace(tokens[r.value])
      ensures r.Some? ==> forall j :: r.value < j < end ==> IsSpace(tokens[j])
      ensures r.None? ==> forall j :: 0 <= j < end ==> IsSpace(tokens[j])
      ensures r == PreviousToken(tokens, end)
    {
      var i := end;
      while i > 0
        invariant 0 <= i <= end
        invariant forall j :: i <= j < end ==> IsSpace(tokens[j])
        invariant PreviousToken(tokens, end) == PreviousToken(tokens, i)
      {
        if !IsSpace(tokens[i - 1]) {
          return Some(i - 1);
        }
        i := i - 1;
      }
      return None;
    }

    /** Whether the literal token at index `k` follows `.`, `->` or `::`. */
    method IsLiteralTokenPrecededByMemberAccessSymbol(tokens: seq<Token>, k: nat) returns (b: bool)
      requires k <= |tokens|
      ensures b <==> exists j :: 0 <= j < k && IsMemberAccessSymbol(tokens[j]) && forall i :: j < i < k ==> IsSpace(tokens[i])
      ensures b == PrecededByMemberAccess(tokens, k)
    {
      MemberAccessIff(tokens, k);
      var previousToken := GetPreviousToken(tokens, k);
      if previousToken.None? {
        return false;
      }
      var t := tokens[previousToken.value];
      if t.tokenType.OperatorSymbol? {
        if t.tokenType.symbol == MemberAccess || t.tokenType.symbol == Pointer || t.tokenType.symbol == QualifiedAlias {
          return true;
        }
      }
      return false;
    }

    /**
     * Whether `word` is a local declared before `item` in one of the units enclosing it,
     * walking outwards from the innermost and stopping after the first element.
     */
    method IsLocalMember(word: string, item: Token, path: seq<CodeUnit>) returns (r: bool)
      ensures r <==> exists k :: ScopeStart(path) <= k < |path| && ContainsVariable(VariablesOf(path[k]), word, item)
    {
      var i := |path|;
      while i > 0
        invariant 0 <= i <= |path|
        invariant forall j :: i <= j < |path| ==> !ContainsVariable(VariablesOf(path[j]), word, item)
        invariant forall j :: i <= j < |path| ==> !path[j].ElementUnit?
      {
        var parent := path[i - 1];
        if ContainsVariable(VariablesOf(parent), word, item) {
          return true;
        }
        if parent.ElementUnit? {
          assert ScopeStart(path) == i - 1;
          return false;
        }
        i := i - 1;
      }
      assert ScopeStart(path) == 0;
      return false;
    }

    /** The members listed under `word` that match it, in list order. */
    method MatchClassMember(word: string, members: map<string, seq<Element>>, interfaces: bool) returns (matchesFound: seq<Element>)
      ensures forall m :: m in matchesFound <==> word in members && m in members[word] && IsMatch(m, word, interfaces)
      ensures word in members ==> matchesFound == Matches(members[word], word, interfaces)
      ensures word !in members ==> matchesFound == []
    {
      matchesFound := [];
      if word in members {
        var matches := members[word];
        var i := 0;
        assert matches[..0] == [];
        while i < |matches|
          invariant 0 <= i <= |matches|
          invariant matchesFound == Matches(matches[..i], word, interfaces)
        {
          var match_ := matches[i];
          assert matches[..i + 1][..i] == matches[..i];
          if IsMatch(match_, word, interfaces) {
            matchesFound := matchesFound + [match_];
          }
          i := i + 1;
        }
        assert matches[..i] == matches;
      }
    }

    /** The members `word` may refer to in class `ctx.className`: none for the class's own name. */
    method FindClassMember(word: string, ctx: Context, interfaces: bool) returns (r: seq<Element>)
      ensures forall m :: m in r <==>
                word != ctx.className && word in ctx.members && m in ctx.members[word] && IsMatch(m, word, interfaces)
      ensures r == MemberCandidates(word, ctx, interfaces)
    {
      if word != ctx.className {
        var matches := MatchClassMember(word, ctx.members, interfaces);
        if matches != [] {
          return matches;
        }
      }
      return [];
    }

    // -------------------------------------------------------------------------------------
    // UseThisPrefix: the decision for one word.

    /** Reports `word` unless it is a local, an object initializer's target, or no instance member. */
    method CheckWordUsageAgainstClassMemberRules(word: string, item: Token, line: int, e: Expression, parents: seq<CodeUnit>, ctx: Context)
      modifies this
      ensures violations == old(violations) + WordViolations(word, item, line, e, parents, ctx)
      ensures polls == old(polls)
    {
      var isLocal := IsLocalMember(word, item, parents + [ExpressionUnit(e)]);
      assert violations + [] == violations;
      if !isLocal && !IsObjectInitializerLeftHandSide(e, parents) {
        var classMembers := FindClassMember(word, ctx, false);
        WordDecidedByMember(word, item, line, e, parents, ctx);
        if classMembers != [] {
          var foundMember := SelectClassMember(classMembers);
          if foundMember.Some? {
            if foundMember.value.kind == Property {
              if foundMember.value.returnType != foundMember.value.name {
                violations := violations + [Violation(UseThisPrefix, line, [word])];
              }
            } else {
              violations := violations + [Violation(UseThisPrefix, line, [word])];
            }
          }
        }
      }
    }

    /**
     * The member loop of CheckWordUsageAgainstClassMemberRules: the first candidate that is not
     * a nested type, or none as soon as a static or const candidate turns up.
     */
    method SelectClassMember(classMembers: seq<Element>) returns (foundMember: Option<Element>)
      ensures foundMember == FoundMember(classMembers)
    {
      foundMember := None;
      ghost var at := 0;
      var i := 0;
      while i < |classMembers|
        invariant 0 <= i <= |classMembers|
        invariant forall j :: 0 <= j < i ==> !StaticOrConst(classMembers[j])
        invariant foundMember.None? ==> forall j :: 0 <= j < i ==> IsTypeKind(classMembers[j].kind)
        invariant foundMember.Some? ==>
                    at < i && foundMember.value == classMembers[at] && !IsTypeKind(classMembers[at].kind)
                    && forall j :: 0 <= j < at ==> IsTypeKind(classMembers[j].kind)
      {
        var classMember := classMembers[i];
        if StaticOrConst(classMember) {
          foundMember := None;
          break;
        } else if !IsTypeKind(classMember.kind) {
          if foundMember.None? {
            foundMember := Some(classMember);
            at := i;
          }
        }
        i := i + 1;
      }
    }

    /** Types, words starting with `.` and `this` are skipped; any other word is checked. */
    method CheckClassMemberRulesForLiteralToken(k: nat, e: Expression, parents: seq<CodeUnit>, ctx: Context)
      requires k < |ctx.tokens|
      modifies this
      ensures violations == old(violations) + LiteralTokenViolations(k, e, parents, ctx)
      ensures polls == old(polls)
    {
      var token := ctx.tokens[k];
      if !IsTypeToken(token) {
        if !StartsWith(token.text, ".") {
          if token.text != "this" {
            CheckWordUsageAgainstClassMemberRules(token.text, token, token.line, e, parents, ctx);
          }
        }
      }
    }

    // -------------------------------------------------------------------------------------
    // UseThisPrefix: the traversal.

    method CheckClassMemberRulesForExpression(e: Expression, parentExpr: Option<Expression>, parents: seq<CodeUnit>, ctx: Context)
      modifies this
      ensures violations == old(violations) + ExprViolations(e, parentExpr, parents, ctx)
      ensures polls == old(polls)
      decreases ExprSize(e), 0
    {
      ghost var before := violations;
      assert before + [] == before;
      if e.Literal? {
        if e.token < |ctx.tokens| {
          var preceded := IsLiteralTokenPrecededByMemberAccessSymbol(ctx.tokens, e.token);
          if !preceded {
            CheckClassMemberRulesForLiteralToken(e.token, e, parents, ctx);
          }
        }
      } else {
        var inner := parents + [ExpressionUnit(e)];
        ExprSplit(e, parentExpr, parents, ctx);
        ChildExpressionsSmaller(e);
        ghost var nested := NestedViolations(e, parentExpr, inner, ctx);
        ghost var body := BodyViolations(e, inner, ctx);
        if e.Assignment? && parentExpr.Some? && parentExpr.value.CollectionInitializer? {
          CheckClassMemberRulesForExpression(e.rightHandSide, Some(e), inner, ctx);
        } else if |ChildExpressions(e)| > 0 {
          CheckClassMemberRulesForExpressions(ChildExpressions(e), Some(e), inner, ctx);
        }
        assert violations == before + nested;
        ghost var mid := violations;
        assert mid + [] == mid;
        if e.AnonymousMethod? {
          CheckClassMemberRulesForStatements(e.statements, inner, ctx);
        } else if e.MethodInvocation? {
          CheckArguments(e.arguments, inner, ctx);
        }
        assert violations == mid + body;
        AppendAssoc(before, nested, body);
      }
    }

    /** The argument loop of CheckClassMemberRulesForExpression: each argument with no parent expression. */
    method CheckArguments(args: seq<Expression>, parents: seq<CodeUnit>, ctx: Context)
      modifies this
      ensures violations == old(violations) + ArgsViolations(args, parents, ctx)
      ensures polls == old(polls)
      decreases ExprsSize(args), 1
    {
      var i := 0;
      assert args[..0] == [];
      while i < |args|
        invariant 0 <= i <= |args|
        invariant violations == old(violations) + ArgsViolations(args[..i], parents, ctx)
        invariant polls == old(polls)
      {
        ExprsSizeElement(args, i);
        ArgsStep(args, i, parents, ctx);
        ghost var step := ExprViolations(args[i], None, parents, ctx);
        CheckClassMemberRulesForExpression(args[i], None, parents, ctx);
        AppendAssoc(old(violations), ArgsViolations(args[..i], parents, ctx), step);
        i := i + 1;
      }
      assert args[..i] == args;
    }

    /** Each expression of the list; of a variable declarator only the initializer. */
    method CheckClassMemberRulesForExpressions(es: seq<Expression>, parentExpr: Option<Expression>, parents: seq<CodeUnit>, ctx: Context)
      modifies this
      ensures violations == old(violations) + ExprsViolations(es, parentExpr, parents, ctx)
      ensures polls == old(polls)
      decreases ExprsSize(es), 1
    {
      var i := 0;
      assert es[..0] == [];
      while i < |es|
        invariant 0 <= i <= |es|
        invariant violations == old(violations) + ExprsViolations(es[..i], parentExpr, parents, ctx)
        invariant polls == old(polls)
      {
        var expression := es[i];
        ExprsSizeElement(es, i);
        ExprsStep(es, i, parentExpr, parents, ctx);
        ghost var step := ListedExprViolations(expression, parentExpr, parents, ctx);
        ghost var before := violations;
        if expression.VariableDeclarator? {
          if expression.initializer.Some? {
            CheckClassMemberRulesForExpression(expression.initializer.value, parentExpr, parents + [ExpressionUnit(expression)], ctx);
          }
        } else {
          CheckClassMemberRulesForExpression(expression, parentExpr, parents, ctx);
        }
        assert violations == before + step;
        AppendAssoc(old(violations), ExprsViolations(es[..i], parentExpr, parents, ctx), step);
        i := i + 1;
      }
      assert es[..i] == es;
    }

    /** Each statement of the list: its sub-statements, then its expressions. */
    method CheckClassMemberRulesForStatements(ss: seq<Statement>, parents: seq<CodeUnit>, ctx: Context)
      modifies this
      ensures violations == old(violations) + StmtsViolations(ss, parents, ctx)
      ensures polls == old(polls)
      decreases StmtsSize(ss), 1
    {
      var i := 0;
      assert ss[..0] == [];
      while i < |ss|
        invariant 0 <= i <= |ss|
        invariant violations == old(violations) + StmtsViolations(ss[..i], parents, ctx)
        invariant polls == old(polls)
      {
        var statement := ss[i];
        var inner := parents + [StatementUnit(statement)];
        StmtsSizeElement(ss, i);
        StmtsStep(ss, i, parents, ctx);
        ghost var sub := if |statement.statements| > 0 then StmtsViolations(statement.statements, inner, ctx) else [];
        ghost var exprs := ExprsViolations(statement.expressions, None, inner, ctx);
        assert StmtViolations(statement, parents, ctx) == sub + exprs;
        ghost var before := violations;
        if |statement.statements| > 0 {
          CheckClassMemberRulesForStatements(statement.statements, inner, ctx);
        } else {
          assert before + [] == before;
        }
        CheckClassMemberRulesForExpressions(statement.expressions, None, inner, ctx);
        AppendAssoc(before, sub, exprs);
        AppendAssoc(old(violations), StmtsViolations(ss[..i], parents, ctx), sub + exprs);
        i := i + 1;
      }
      assert ss[..i] == ss;
    }

    /**
     * Walks the children of `e` inside class `cls` (None outside any class); false iff
     * Cancel was seen set on entry or by a walk whose result is not ignored.
     */
    method CheckClassMemberRulesForElements(e: Element, cls: Option<Element>, tokens: seq<Token>, members: map<string, seq<Element>>) returns (ok: bool)
      modifies this
      ensures ok == MemberWalk(e, cls, tokens, members, old(polls), cancelAfter).ok
      ensures violations == old(violations) + MemberWalk(e, cls, tokens, members, old(polls), cancelAfter).out
      ensures polls == MemberWalk(e, cls, tokens, members, old(polls), cancelAfter).polls
      decreases e, 1
    {
      var cancel := polls >= cancelAfter;
      polls := polls + 1;
      if cancel {
        return false;
      }
      ok := CheckClassMemberRulesForChildren(e.children, cls, tokens, members);
    }

    /** The children loop of CheckClassMemberRulesForElements. */
    method CheckClassMemberRulesForChildren(kids: seq<Element>, cls: Option<Element>, tokens: seq<Token>, members: map<string, seq<Element>>) returns (ok: bool)
      modifies this
      ensures ok == MemberWalkChildren(kids, cls, tokens, members, old(polls), cancelAfter).ok
      ensures violations == old(violations) + MemberWalkChildren(kids, cls, tokens, members, old(polls), cancelAfter).out
      ensures polls == MemberWalkChildren(kids, cls, tokens, members, old(polls), cancelAfter).polls
      decreases kids, 0
    {
      ghost var done := Outcome(true, [], polls);
      assert kids[..0] == [];
      var i := 0;
      while i < |kids|
        invariant 0 <= i <= |kids|
        invariant done == MemberWalkChildren(kids[..i], cls, tokens, members, old(polls), cancelAfter)
        invariant done.ok && polls == done.polls
        invariant violations == old(violations) + done.out
      {
        var child := kids[i];
        MemberWalkChildrenStep(kids, i, cls, tokens, members, old(polls), cancelAfter);
        if !child.generated {
          if child.kind == Method || child.kind == Accessor {
            if cls.Some? {
              ghost var out := StmtsViolations(child.statements, [ElementUnit(child)], ClassContext(tokens, cls.value, members));
              CheckClassMemberRulesForStatements(child.statements, [ElementUnit(child)], ClassContext(tokens, cls.value, members));
              AppendAssoc(old(violations), done.out, out);
              done := Outcome(true, done.out + out, done.polls);
            }
          } else if child.kind == Class || child.kind == Struct {
            ghost var s := MemberWalk(child, Some(child), tokens, members, polls, cancelAfter);
            var _ := CheckClassMemberRulesForElements(child, Some(child), tokens, members);
            AppendAssoc(old(violations), done.out, s.out);
            done := Outcome(true, done.out + s.out, s.polls);
          } else {
            ghost var s := MemberWalk(child, cls, tokens, members, polls, cancelAfter);
            var childOk := CheckClassMemberRulesForElements(child, cls, tokens, members);
            AppendAssoc(old(violations), done.out, s.out);
            done := Outcome(s.ok, done.out + s.out, s.polls);
            if !childOk {
              CancelledMemberWalkAt(kids, i, cls, tokens, members, old(polls), cancelAfter);
              return false;
            }
          }
        }
        i := i + 1;
      }
      assert kids[..i] == kids;
      return true;
    }
  }
}
