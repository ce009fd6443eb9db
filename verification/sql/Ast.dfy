/** SQL expressions (internal/query/sql/ast.go), as far as filters and their printing need them. */
module Ast {
  import opened Bytes
  import opened Floats

  datatype Operator =
    | Eq | Neq | Lt | Lte | Gt | Gte
    | And | Or | Not
    | Plus | Minus | Multiply | Divide | Modulo
    | VectorDist

  // An identifier without a qualifier has the empty table name.
  datatype Expr =
    | Ident(table: Key, name: Key)
    | StringLit(s: Key)
    | IntLit(n: int)
    | FloatLit(bits: Bits)
    | BoolLit(b: bool)
    | NullLit
    | Star
    | Binary(op: Operator, left: Expr, right: Expr)
    | Unary(op: Operator, operand: Expr)
    | Between(operand: Expr, low: Expr, high: Expr, negated: bool)
    | Like(operand: Expr, pattern: Expr, negated: bool)
    | IsNull(operand: Expr, negated: bool)
    | MatchAgainst(columns: seq<Key>, query: Key)
}
