/** The part of Python's abstract syntax tree that the compiler inspects:
    expressions of guards and return statements, and the statements of a
    function body. Every other expression kind (calls, attributes,
    subscripts, ...) is `OtherExpr`; every other statement is `OtherStmt`. */
module Syntax {
  import opened Outcomes

  datatype UnaryOperator = USub | UAdd | Not | Invert

  datatype BinaryOperator = Add | Sub | Mult | Div | FloorDiv | Mod | Pow | OtherBinary

  datatype CmpOperator = Lt | LtE | Gt | GtE | Eq | NotEq | Is | IsNot | In | NotIn

  datatype BoolOperator = And | Or

  datatype Expr =
    | Constant(value: real)
    | Name(id: string)
    | UnaryOp(op: UnaryOperator, operand: Expr)
    | BinOp(left: Expr, binOp: BinaryOperator, right: Expr)
    | BoolOp(boolOp: BoolOperator, values: seq<Expr>)
      // `left ops[0] comparators[0] ops[1] comparators[1] ...`
    | Compare(first: Expr, ops: seq<CmpOperator>, comparators: seq<Expr>)
    | OtherExpr

  datatype Stmt =
    | If(test: Expr, body: seq<Stmt>, orelse: seq<Stmt>)
    | Return(result: Option<Expr>)
    | OtherStmt

  /** How Python's parser writes the number `c`: a non-negative literal, or
      unary minus applied to one. */
  function Literal(c: real): Expr {
    if c < 0.0 then UnaryOp(USub, Constant(-c)) else Constant(c)
  }

  /** The value of a literal bound, possibly signed (`_to_float`). Callers
      only ever pass a constant or a unary operation. */
  function LiteralValue(e: Expr): (r: Result<real>)
    requires e.Constant? || e.UnaryOp?
    ensures e.Constant? ==> r == Ok(e.value)
    ensures e.UnaryOp? && !e.operand.Constant? ==> r == Err(OperandNotConstant)
    ensures e.UnaryOp? && e.operand.Constant? ==>
      r == (match e.op
            case USub => Ok(-e.operand.value)
            case UAdd => Ok(e.operand.value)
            case _ => Err(UnsupportedUnaryOp))
  {
    match e
    case Constant(c) => Ok(c)
    case UnaryOp(op, operand) =>
      if !operand.Constant? then Err(OperandNotConstant)
      else if op == USub then Ok(-operand.value)
      else if op == UAdd then Ok(operand.value)
      else Err(UnsupportedUnaryOp)
  }

  /** Reading back a number as the parser writes it gives the number. */
  lemma LiteralRoundTrip(c: real)
    ensures LiteralValue(Literal(c)) == Ok(c)
  {
  }
}
