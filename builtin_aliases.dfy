/**
 * The DoNotUseBuiltInTypeAliases scan of RusWizardsRules: every type token of the document
 * (and, recursively, every type token among a type token's child tokens) that is written
 * with a C# alias keyword such as `int` is reported, unless the nearest significant token
 * before it is `=` (a using-alias directive) or `:` (an enum's underlying type).
 *
 * A token list is a `seq<Token>`; a token is addressed by its index in the list that holds
 * it, so the host's `Previous` link is the index one lower and a list's first node has no
 * predecessor.
 */
module BuiltInAliases {
  import opened Syntax

  /** One row of the alias table: the type's short name, its qualified name and the alias keyword. */
  datatype BuiltInType = BuiltInType(typeName: string, fullName: string, alias: string)

  const BuiltInTypes: seq<BuiltInType> := [
    BuiltInType("Boolean", "System.Boolean", "bool"),
    BuiltInType("Object", "System.Object", "object"),
    BuiltInType("String", "System.String", "string"),
    BuiltInType("Int16", "System.Int16", "short"),
    BuiltInType("UInt16", "System.UInt16", "ushort"),
    BuiltInType("Int32", "System.Int32", "int"),
    BuiltInType("UInt32", "System.UInt32", "uint"),
    BuiltInType("Int64", "System.Int64", "long"),
    BuiltInType("UInt64", "System.UInt64", "ulong"),
    BuiltInType("Double", "System.Double", "double"),
    BuiltInType("Single", "System.Single", "float"),
    BuiltInType("Byte", "System.Byte", "byte"),
    BuiltInType("SByte", "System.SByte", "sbyte"),
    BuiltInType("Char", "System.Char", "char"),
    BuiltInType("Decimal", "System.Decimal", "decimal")
  ]

  /** End-of-line, whitespace and comment tokens: the tokens the backward scan steps over. */
  predicate IsTrivia(t: Token)
  {
    t.tokenType == EndOfLine || t.tokenType == MultiLineComment
    || t.tokenType == SingleLineComment || t.tokenType == WhiteSpace
  }

  /** The nearest token before index `k` that is not trivia, if there is one. */
  function Predecessor(list: seq<Token>, k: nat): (r: Option<nat>)
    requires k <= |list|
    ensures r.Some? ==> r.value < k && !IsTrivia(list[r.value])
    ensures r.Some? ==> forall j :: r.value < j < k ==> IsTrivia(list[j])
    ensures r.None? ==> forall j :: 0 <= j < k ==> IsTrivia(list[j])
  {
    if k == 0 then None
    else if !IsTrivia(list[k - 1]) then Some(k - 1)
    else Predecessor(list, k - 1)
  }

  /** The first child token that is not trivia: where the host's token matcher starts comparing. */
  function FirstSignificant(ts: seq<Token>): (r: Option<nat>)
    ensures r.Some? ==> r.value < |ts| && !IsTrivia(ts[r.value])
    ensures r.Some? ==> forall j :: 0 <= j < r.value ==> IsTrivia(ts[j])
    ensures r.None? ==> forall j :: 0 <= j < |ts| ==> IsTrivia(ts[j])
  {
    if ts == [] then None
    else if !IsTrivia(ts[0]) then Some(0)
    else
      var r := FirstSignificant(ts[1..]);
      if r.Some? then Some(r.value + 1) else None
  }

  /** Whether the child tokens of a type spell `text`: their first significant token has that text. */
  predicate MatchTokens(children: seq<Token>, text: string)
  {
    var f := FirstSignificant(children);
    f.Some? && children[f.value].text == text
  }

  /** The first table row, from row `i` on, whose alias keyword the child tokens spell. */
  function MatchingRowFrom(children: seq<Token>, i: nat): (r: Option<nat>)
    requires i <= |BuiltInTypes|
    ensures r.Some? ==> i <= r.value < |BuiltInTypes| && MatchTokens(children, BuiltInTypes[r.value].alias)
    ensures r.Some? ==> forall j :: i <= j < r.value ==> !MatchTokens(children, BuiltInTypes[j].alias)
    ensures r.None? ==> forall j :: i <= j < |BuiltInTypes| ==> !MatchTokens(children, BuiltInTypes[j].alias)
    decreases |BuiltInTypes| - i
  {
    if i == |BuiltInTypes| then None
    else if MatchTokens(children, BuiltInTypes[i].alias) then Some(i)
    else MatchingRowFrom(children, i + 1)
  }

  /** Whether the nearest significant predecessor of `list[k]` is `=` or `:`. */
  predicate Exempt(list: seq<Token>, k: nat)
    requires k <= |list|
  {
    var p := Predecessor(list, k);
    p.Some? && (list[p.value].text == "=" || list[p.value].text == ":")
  }

  function AliasViolation(t: Token, row: BuiltInType): Violation
  {
    Violation(DoNotUseBuiltInTypeAliases, t.line, [row.typeName, row.fullName, row.alias])
  }

  /** What the table loop reports for the type token `list[k]` itself. */
  function AliasViolations(list: seq<Token>, k: nat): seq<Violation>
    requires k < |list|
  {
    var t := list[k];
    if t.tokenClass == GenericTypeClass then []
    else
      match MatchingRowFrom(t.childTokens, 0)
      case None => []
      case Some(i) => if Exempt(list, k) then [] else [AliasViolation(t, BuiltInTypes[i])]
  }

  /** CheckBuiltInType on `list[k]`: the token itself, then the type tokens among its children. */
  function TypeViolations(list: seq<Token>, k: nat): seq<Violation>
    requires k < |list|
    decreases list, 0, 0
  {
    AliasViolations(list, k) + ScanList(list[k].childTokens, |list[k].childTokens|)
  }

  /** The loop over `list[..n]` that checks every type token, in list order. */
  function ScanList(list: seq<Token>, n: nat): seq<Violation>
    requires n <= |list|
    decreases list, 1, n
  {
    if n == 0 then []
    else ScanList(list, n - 1) + (if IsTypeToken(list[n - 1]) then TypeViolations(list, n - 1) else [])
  }

  /** No two rows share an alias keyword, so at most one row can match a token. */
  lemma AliasesDistinct()
    ensures forall i, j :: 0 <= i < j < |BuiltInTypes| ==> BuiltInTypes[i].alias != BuiltInTypes[j].alias
  {
  }

  /**
   * A non-generic type token spelled with the alias of row `i` yields exactly that row's
   * violation, unless its nearest significant predecessor is `=` or `:`.
   */
  lemma AliasReported(list: seq<Token>, k: nat, i: nat)
    requires k < |list| && list[k].tokenClass != GenericTypeClass
    requires i < |BuiltInTypes| && MatchTokens(list[k].childTokens, BuiltInTypes[i].alias)
    ensures AliasViolations(list, k) == if Exempt(list, k) then [] else [AliasViolation(list[k], BuiltInTypes[i])]
  {
    AliasesDistinct();
    var r := MatchingRowFrom(list[k].childTokens, 0);
    assert r.Some?;
  }

  /** A row the child tokens do not spell is passed over by the table loop. */
  lemma MatchingRowStep(children: seq<Token>, i: nat)
    requires i < |BuiltInTypes| && !MatchTokens(children, BuiltInTypes[i].alias)
    ensures MatchingRowFrom(children, i) == MatchingRowFrom(children, i + 1)
  {
  }

  /** The backward scan's two exits: it stops at the first non-trivia token, or runs off the list's head. */
  lemma {:induction false} PredecessorAt(list: seq<Token>, k: nat, p: nat)
    requires p < k <= |list| && !IsTrivia(list[p])
    requires forall j :: p < j < k ==> IsTrivia(list[j])
    ensures Predecessor(list, k) == Some(p)
    decreases k
  {
    if p < k - 1 {
      PredecessorAt(list, k - 1, p);
    }
  }

  lemma {:induction false} NoPredecessor(list: seq<Token>, k: nat)
    requires k <= |list|
    requires forall j :: 0 <= j < k ==> IsTrivia(list[j])
    ensures Predecessor(list, k) == None
    decreases k
  {
    if k > 0 {
      NoPredecessor(list, k - 1);
    }
  }

  /** A token spelled with none of the aliases, or a generic one, reports nothing itself. */
  lemma NoAliasNoReport(list: seq<Token>, k: nat)
    requires k < |list|
    requires list[k].tokenClass == GenericTypeClass
             || forall i :: 0 <= i < |BuiltInTypes| ==> !MatchTokens(list[k].childTokens, BuiltInTypes[i].alias)
    ensures AliasViolations(list, k) == []
    ensures TypeViolations(list, k) == ScanList(list[k].childTokens, |list[k].childTokens|)
  {
  }

  predicate IsAliasReport(v: Violation)
  {
    v.rule == DoNotUseBuiltInTypeAliases
    && exists i :: 0 <= i < |BuiltInTypes|
         && v.args == [BuiltInTypes[i].typeName, BuiltInTypes[i].fullName, BuiltInTypes[i].alias]
  }

  /** Every report of the scan, at any depth of type nesting, names one row of the table. */
  lemma {:induction false} ScanListSound(list: seq<Token>, n: nat)
    requires n <= |list|
    ensures forall v :: v in ScanList(list, n) ==> IsAliasReport(v)
    decreases list, 1, n
  {
    if n > 0 {
      ScanListSound(list, n - 1);
      if IsTypeToken(list[n - 1]) {
        TypeViolationsSound(list, n - 1);
      }
    }
  }

  lemma {:induction false} TypeViolationsSound(list: seq<Token>, k: nat)
    requires k < |list|
    ensures forall v :: v in TypeViolations(list, k) ==> IsAliasReport(v)
    decreases list, 0, 0
  {
    ScanListSound(list[k].childTokens, |list[k].childTokens|);
    var t := list[k];
    if t.tokenClass != GenericTypeClass {
      var r := MatchingRowFrom(t.childTokens, 0);
      if r.Some? && !Exempt(list, k) {
        assert AliasViolations(list, k) == [AliasViolation(t, BuiltInTypes[r.value])];
      }
    }
  }

  /** One turn of the scan loop. */
  lemma ScanListStep(list: seq<Token>, n: nat)
    requires n < |list|
    ensures ScanList(list, n + 1) == ScanList(list, n) + (if IsTypeToken(list[n]) then TypeViolations(list, n) else [])
  {
  }

  /** A stretch of the list with no type token in it reports nothing. */
  lemma {:induction false} NoTypeTokenNoReport(list: seq<Token>, n: nat)
    requires n <= |list|
    requires forall j :: 0 <= j < n ==> !IsTypeToken(list[j])
    ensures ScanList(list, n) == []
  {
    if n > 0 {
      NoTypeTokenNoReport(list, n - 1);
    }
  }

  // Concrete token streams.

  function Tok(tokenType: TokenType, text: string): Token
  {
    Token(tokenType, OtherClass, text, 1, 0, [])
  }

  function Space(): Token
  {
    Tok(WhiteSpace, " ")
  }

  /** A type token written as the single word `name`. */
  function TypeTok(name: string, line: int): Token
  {
    Token(OtherTokenType, TypeClass, name, line, 0, [Tok(OtherTokenType, name)])
  }

  /** `using A = int;`: the alias keyword is the target of a using-alias directive, so it is exempt. */
  lemma UsingAliasExempt()
    ensures var list := [Tok(OtherTokenType, "using"), Space(), Tok(OtherTokenType, "A"), Space(),
                         Tok(OperatorSymbol(OtherOperator), "="), Space(), TypeTok("int", 1), Tok(OtherTokenType, ";")];
            ScanList(list, |list|) == []
  {
    var list := [Tok(OtherTokenType, "using"), Space(), Tok(OtherTokenType, "A"), Space(),
                 Tok(OperatorSymbol(OtherOperator), "="), Space(), TypeTok("int", 1), Tok(OtherTokenType, ";")];
    PredecessorAt(list, 6, 4);
    NoTypeTokenNoReport(list, 6);
    NoTypeTokenNoReport(list[6].childTokens, 1);
    AliasReported(list, 6, 5);
    assert TypeViolations(list, 6) == [];
    ScanListStep(list, 6);
  }

  /** `enum C : byte`: the underlying type of an enum is exempt. */
  lemma EnumBaseExempt()
    ensures var list := [Tok(OtherTokenType, "enum"), Space(), Tok(OtherTokenType, "C"), Space(),
                         Tok(OtherTokenType, ":"), Space(), TypeTok("byte", 1)];
            ScanList(list, |list|) == []
  {
    var list := [Tok(OtherTokenType, "enum"), Space(), Tok(OtherTokenType, "C"), Space(),
                 Tok(OtherTokenType, ":"), Space(), TypeTok("byte", 1)];
    PredecessorAt(list, 6, 4);
    NoTypeTokenNoReport(list, 6);
    NoTypeTokenNoReport(list[6].childTokens, 1);
    AliasReported(list, 6, 11);
    assert TypeViolations(list, 6) == [];
  }

  /** `int x;` on line 7 is reported once, citing the Int32 row. */
  lemma KeywordReported()
    ensures var list := [TypeTok("int", 7), Space(), Tok(OtherTokenType, "x"), Tok(OtherTokenType, ";")];
            ScanList(list, |list|) == [Violation(DoNotUseBuiltInTypeAliases, 7, ["Int32", "System.Int32", "int"])]
  {
    var list := [TypeTok("int", 7), Space(), Tok(OtherTokenType, "x"), Tok(OtherTokenType, ";")];
    AliasReported(list, 0, 5);
    assert ScanList(list, 1) == TypeViolations(list, 0);
  }

  /** `Int32 x;` spells no alias keyword, so the canonical name is accepted. */
  lemma CanonicalNameAccepted()
    ensures var list := [TypeTok("Int32", 7), Space(), Tok(OtherTokenType, "x")];
            ScanList(list, |list|) == []
  {
    var list := [TypeTok("Int32", 7), Space(), Tok(OtherTokenType, "x")];
    assert forall i :: 0 <= i < |BuiltInTypes| ==> !MatchTokens(list[0].childTokens, BuiltInTypes[i].alias);
    NoAliasNoReport(list, 0);
  }

  /** `List<int>`: the generic token is not matched itself, but its `int` argument is reported. */
  lemma GenericArgumentReported()
    ensures var inner := [Tok(OtherTokenType, "List"), Tok(OperatorSymbol(OtherOperator), "<"), TypeTok("int", 3),
                          Tok(OperatorSymbol(OtherOperator), ">")];
            var list := [Token(OtherTokenType, GenericTypeClass, "List<int>", 3, 0, inner)];
            ScanList(list, |list|) == [Violation(DoNotUseBuiltInTypeAliases, 3, ["Int32", "System.Int32", "int"])]
  {
    var inner := [Tok(OtherTokenType, "List"), Tok(OperatorSymbol(OtherOperator), "<"), TypeTok("int", 3),
                  Tok(OperatorSymbol(OtherOperator), ">")];
    var list := [Token(OtherTokenType, GenericTypeClass, "List<int>", 3, 0, inner)];
    AliasReported(inner, 2, 5);
    PredecessorAt(inner, 2, 1);
    assert ScanList(inner, 2) == [];
    assert ScanList(inner, 3) == [Violation(DoNotUseBuiltInTypeAliases, 3, ["Int32", "System.Int32", "int"])];
    assert ScanList(inner, 4) == ScanList(inner, 3);
    assert ScanList(list, 1) == TypeViolations(list, 0);
  }
}
