/** Printing expressions (the String methods of internal/query/sql/ast.go). */
module Printer {
  import opened Bytes
  import opened Floats
  import opened Ast
  import opened Lexer
  import opened Grammar

  const OPEN: Byte := 0x28
  const CLOSE: Byte := 0x29
  const TRUE_TEXT: Key := [0x54, 0x52, 0x55, 0x45]
  const FALSE_TEXT: Key := [0x46, 0x41, 0x4C, 0x53, 0x45]
  const NULL_TEXT: Key := [0x4E, 0x55, 0x4C, 0x4C]

  /** How numbers are printed: %d, which is Decimal, and %g, which is not part of this model. */
  datatype Format = Format(decimal: int -> Key, float: Bits -> Key)

  function OpText(op: Operator): Key {
    match op
    case Eq => [0x3D]
    case Neq => [0x21, 0x3D]
    case Lt => [0x3C]
    case Lte => [0x3C, 0x3D]
    case Gt => [0x3E]
    case Gte => [0x3E, 0x3D]
    case And => [0x41, 0x4E, 0x44]
    case Or => [0x4F, 0x52]
    case Not => [0x4E, 0x4F, 0x54]
    case Plus => [0x2B]
    case Minus => [0x2D]
    case Multiply => [0x2A]
    case Divide => [0x2F]
    case Modulo => [0x25]
    case VectorDist => [0x3C, 0x2D, 0x3E]
  }

  function Digits(n: nat): (s: Key)
    ensures s != [] && AllDigits(s)
  {
    if n < 10 then [0x30 + n] else Digits(n / 10) + [0x30 + n % 10]
  }

  function Decimal(n: int): Key {
    if n < 0 then [MINUS] + Digits(-n) else Digits(n)
  }

  function Print(format: Format, e: Expr): Key {
    match e
    case Ident(table, name) => if table != [] then table + [POINT] + name else name
    case StringLit(s) => [QUOTE] + s + [QUOTE]
    case IntLit(n) => format.decimal(n)
    case FloatLit(bits) => format.float(bits)
    case BoolLit(b) => if b then TRUE_TEXT else FALSE_TEXT
    case NullLit => NULL_TEXT
    case Star => [0x2A]
    case Binary(op, left, right) =>
      [OPEN] + Print(format, left) + [SPACE] + OpText(op) + [SPACE] + Print(format, right) + [CLOSE]
    case Unary(op, operand) => [OPEN] + OpText(op) + [SPACE] + Print(format, operand) + [CLOSE]
    case Between(_, _, _, _) => Ascii("BETWEEN ... AND ...")
    case Like(_, _, _) => Ascii("LIKE ...")
    case IsNull(_, negated) => if negated then Ascii("IS NOT NULL") else Ascii("IS NULL")
    case MatchAgainst(_, _) => Ascii("MATCH(...) AGAINST (...)")
  }
}
