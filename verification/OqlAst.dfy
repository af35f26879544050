/** The expressions a query's WHERE, HAVING and column lists are made of. */
module OqlAst {

  datatype Expr =
    | Infix(left: Expr, op: string, right: Expr)
    | Prefix(op: string, right: Expr)
    | IsNull(expr: Expr, not: bool)
    | Between(expr: Expr, low: Expr, high: Expr, not: bool)
    | InList(expr: Expr, values: seq<Expr>, not: bool, hasSubquery: bool)
    | Like(expr: Expr, pattern: Expr, not: bool, hasEscape: bool)
    | Ident(name: string)
    | Qualified(path: string)
    | IntLit(n: int)
    | FloatLit(x: real)
    | StrLit(s: string)
    | NullLit
    | Call(func: string, args: seq<Expr>)
    | Other(text: string)  // CASE, CAST, EXISTS, subqueries

  function UpperChar(c: char): char {
    if 'a' <= c <= 'z' then c - 'a' + 'A' else c
  }

  function Upper(s: string): (u: string)
    ensures |u| == |s|
  {
    if s == "" then "" else [UpperChar(s[0])] + Upper(s[1..])
  }

  predicate IsTrueName(name: string) {
    Upper(name) == "TRUE"
  }

  predicate IsFalseName(name: string) {
    Upper(name) == "FALSE"
  }
}
