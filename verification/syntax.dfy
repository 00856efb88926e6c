/**
 * The part of the parser's syntax tree (noirc_frontend's `ParsedModule`) that
 * the inlay-hint handler walks. The parser itself is not part of this model.
 */
module Syntax {

  /** Rust's `u32`: span offsets are 32-bit unsigned. */
  newtype u32 = x: int | 0 <= x < 0x1_0000_0000

  /** A source span as the parser reports it: byte offsets `start..end`. */
  datatype Span = Span(start: u32, end: u32)

  /** The four kinds of `noirc_frontend::Literal`; their payloads play no role here. */
  datatype LiteralKind = Array | Bool | Integer | Str

  /** `ExpressionKind`: a literal, or any other expression (calls, paths, operators, ...). */
  datatype ExpressionKind = Literal(literal: LiteralKind) | NonLiteral

  datatype Expression = Expression(kind: ExpressionKind, span: Span)

  /** `Statement::Let(val)` keeps the bound expression; every other statement is `Other`. */
  datatype Statement = Let(expression: Expression) | Other

  /** `noirc_frontend::FunctionKind`: only `Normal` functions carry user code worth hinting. */
  datatype FunctionKind = Normal | Builtin | LowLevel | Oracle

  /** A function definition: its kind and the statements of its body block, in order. */
  datatype Function = Function(kind: FunctionKind, body: seq<Statement>)

  /** The parsed module: its functions in source order. */
  datatype Module = Module(functions: seq<Function>)
}
